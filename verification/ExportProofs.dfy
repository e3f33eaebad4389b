/**
 Every exported payload can be read back.
 */
module ExportProofs {
  import opened Host
  import opened Arith
  import opened ExportModel

  ghost predicate AllDigits(s: string) {
    forall i :: 0 <= i < |s| ==> IsDigit(s[i])
  }

  lemma {:induction false} DecimalIsDigits(v: nat)
    ensures Decimal(v) != [] && AllDigits(Decimal(v))
    ensures v > 0 ==> Decimal(v)[0] != '0'
  {
    if v >= 10 {
      DecimalIsDigits(v / 10);
    }
  }

  /** A numeral is read back as its number. */
  lemma {:induction false} DecimalRoundTrip(v: nat)
    ensures ReadNat(Decimal(v)) == Some(v)
  {
    DecimalIsDigits(v);
    if v >= 10 {
      DecimalRoundTrip(v / 10);
      DecimalIsDigits(v / 10);
      assert Decimal(v)[..|Decimal(v)| - 1] == Decimal(v / 10);
    }
  }

  lemma SignedRoundTrip(v: int)
    ensures ReadInt(Signed(v)) == Some(v)
    ensures Signed(v) != [] && (Signed(v)[0] == '-' <==> v < 0)
  {
    hide Decimal, ReadNat;
    if v < 0 {
      DecimalRoundTrip(-v);
      assert Signed(v)[1..] == Decimal(-v);
    } else {
      DecimalRoundTrip(v);
      DecimalIsDigits(v);
    }
  }

  /** Numerals contain no separator. */
  lemma NoSeparator(v: int, sep: char)
    requires !IsDigit(sep) && sep != '-'
    ensures sep !in Signed(v) && (v >= 0 ==> sep !in Decimal(v))
  {
    hide Decimal;
    DecimalIsDigits(if v < 0 then -v else v);
  }

  // ----- cutting a line into fields ----------------------------------------------------------------

  lemma {:induction false} CutAtSeparator(a: string, sep: char, b: string)
    requires sep !in a
    ensures Cut(a + [sep] + b, sep) == Some((a, b))
  {
    var s := a + [sep] + b;
    if a == [] {
      assert s[1..] == b;
    } else {
      assert s[1..] == a[1..] + [sep] + b;
      CutAtSeparator(a[1..], sep, b);
      assert [a[0]] + a[1..] == a;
    }
  }

  lemma {:induction false} CutNothing(a: string, sep: char)
    requires sep !in a
    ensures Cut(a, sep) == None
  {
    if a != [] {
      CutNothing(a[1..], sep);
    }
  }

  lemma FieldsOfOne(a: string, sep: char)
    requires sep !in a
    ensures Fields(a, sep) == [a]
  {
    CutNothing(a, sep);
  }

  lemma FieldsOfMore(a: string, sep: char, rest: string)
    requires sep !in a
    ensures Fields(a + [sep] + rest, sep) == [a] + Fields(rest, sep)
  {
    hide Cut;
    CutAtSeparator(a, sep, rest);
  }

  // ----- payloads ------------------------------------------------------------------------------------

  lemma CompactFields(p: Profile)
    ensures Fields(Payload(p, true)[|TAG|..], '|') == [Decimal(p.id), Decimal(p.scans), Signed(p.essence), Decimal(1)]
  {
    hide Decimal, Signed, Fields;
    var id, scans, essence, flag := Decimal(p.id), Decimal(p.scans), Signed(p.essence), Decimal(1);
    var r3 := essence + ['|'] + flag;
    var r2 := scans + ['|'] + r3;
    assert Payload(p, true)[|TAG|..] == id + ['|'] + r2;
    NoSeparator(p.id, '|'); NoSeparator(p.scans, '|'); NoSeparator(p.essence, '|'); NoSeparator(1, '|');
    FieldsOfMore(id, '|', r2);
    FieldsOfMore(scans, '|', r3);
    FieldsOfMore(essence, '|', flag);
    FieldsOfOne(flag, '|');
  }

  lemma FullFields(p: Profile)
    ensures Fields(Payload(p, false)[|HEADER|..], ',') ==
            [Decimal(p.id), Decimal(p.scans), Signed(p.essence), Decimal(0), Decimal(p.lastUpdated)]
  {
    hide Decimal, Signed, Fields;
    var id, scans, essence := Decimal(p.id), Decimal(p.scans), Signed(p.essence);
    var flag, time := Decimal(0), Decimal(p.lastUpdated);
    var r4 := flag + [','] + time;
    var r3 := essence + [','] + r4;
    var r2 := scans + [','] + r3;
    assert Payload(p, false)[|HEADER|..] == id + [','] + r2;
    NoSeparator(p.id, ','); NoSeparator(p.scans, ','); NoSeparator(p.essence, ',');
    NoSeparator(0, ','); NoSeparator(p.lastUpdated, ',');
    FieldsOfMore(id, ',', r2);
    FieldsOfMore(scans, ',', r3);
    FieldsOfMore(essence, ',', r4);
    FieldsOfMore(flag, ',', time);
    FieldsOfOne(time, ',');
  }

  /** Reading a payload gives back the fields it was built from, in both formats. */
  lemma PayloadRoundTrip(p: Profile, compressed: bool)
    ensures ReadPayload(Payload(p, compressed)) == Some(Content(p, compressed))
  {
    hide Decimal, Signed, Fields, ReadNat, ReadInt;
    DecimalRoundTrip(p.id);
    DecimalRoundTrip(p.scans);
    SignedRoundTrip(p.essence);
    if compressed {
      CompactFields(p);
      DecimalRoundTrip(1);
      StartsWithTag(p);
    } else {
      FullFields(p);
      DecimalRoundTrip(0);
      DecimalRoundTrip(p.lastUpdated);
      StartsWithHeader(p);
    }
  }

  lemma StartsWithTag(p: Profile)
    ensures TAG <= Payload(p, true)
  {}

  lemma StartsWithHeader(p: Profile)
    ensures HEADER <= Payload(p, false) && !(TAG <= Payload(p, false))
  {
    assert HEADER == "profile_id" + HEADER[10..];
    assert TAG[0] == 'v';
    assert Payload(p, false)[0] == HEADER[0];
  }

  /** A payload determines its format and all of its fields. */
  lemma PayloadDetermines(p: Profile, q: Profile, a: bool, b: bool)
    requires Payload(p, a) == Payload(q, b)
    ensures a == b && Content(p, a) == Content(q, b)
  {
    hide Payload, ReadPayload;
    PayloadRoundTrip(p, a);
    PayloadRoundTrip(q, b);
  }
}

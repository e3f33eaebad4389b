/**
 The exporter's printers as the contract runs them: a fixed digit buffer filled backwards and emptied forwards.
 */
module ExportContract {
  import opened Host
  import opened Arith
  import opened ExportModel

  const U64_DIGITS: nat := 20
  const U128_DIGITS: nat := 39

  function Pow10(n: nat): (p: nat)
    ensures p > 0
  {
    if n == 0 then 1 else 10 * Pow10(n - 1)
  }

  function Reversed(s: string): (r: string)
    ensures |r| == |s| && forall i :: 0 <= i < |s| ==> r[i] == s[|s| - 1 - i]
  {
    seq(|s|, i requires 0 <= i < |s| => s[|s| - 1 - i])
  }

  /** The first digit loop: every value below 10^Length fits the buffer, least significant digit first. */
  method FillDigits(digits: array<char>, value: nat) returns (len: nat)
    requires 0 < value < Pow10(digits.Length)
    modifies digits
    ensures len <= digits.Length && Reversed(digits[..len]) == Decimal(value)
  {
    hide Pow10, Decimal, Reversed;
    var rest: nat := value;
    len := 0;
    NothingReversed(digits[..0]);
    assert Decimal(value) + "" == Decimal(value);
    while rest > 0
      invariant 0 <= len <= digits.Length && rest < Pow10(digits.Length - len)
      invariant Decimal(value) == Leading(rest) + Reversed(digits[..len])
    {
      ShrinkBound(rest, digits.Length - len);
      ghost var before := digits[..len];
      OneMoreDigit(rest, before);
      digits[len] := Digit(rest % 10);
      rest := rest / 10;
      len := len + 1;
      assert digits[..len] == before + [digits[len - 1]];
    }
    assert "" + Reversed(digits[..len]) == Reversed(digits[..len]);
  }

  /** The digits not yet split off. */
  ghost function Leading(rest: nat): string {
    if rest > 0 then Decimal(rest) else ""
  }

  /** The second digit loop: the buffer is written out from its end. */
  method EmptyDigits(digits: array<char>, n: nat, target: string) returns (out: string)
    requires n <= digits.Length
    ensures out == target + Reversed(digits[..n])
  {
    ghost var reversed := Reversed(digits[..n]);
    out := target;
    var len := n;
    while len > 0
      invariant 0 <= len <= n
      invariant out == target + reversed[..n - len]
    {
      len := len - 1;
      assert reversed[..n - len] == reversed[..n - len - 1] + [digits[len]];
      out := out + [digits[len]];
    }
    assert reversed[..n] == reversed;
  }

  lemma NothingReversed(s: string)
    requires s == ""
    ensures Reversed(s) == ""
  {}

  lemma ShrinkBound(rest: nat, n: nat)
    requires 0 < rest < Pow10(n)
    ensures n > 0 && rest / 10 < Pow10(n - 1)
  {}

  lemma OneMoreDigit(rest: nat, before: string)
    requires rest > 0
    ensures Leading(rest) + Reversed(before) == Leading(rest / 10) + Reversed(before + [Digit(rest % 10)])
  {
    assert Reversed(before + [Digit(rest % 10)]) == [Digit(rest % 10)] + Reversed(before);
  }

  lemma BuffersSuffice()
    ensures U64_MAX < Pow10(U64_DIGITS) && U128_MAX < Pow10(U128_DIGITS)
  {
    assert Pow10(4) == 10_000 && Pow10(5) == 100_000;
    hide Pow10;
    PowSplit(5, 5);
    assert Pow10(10) == 10_000_000_000;
    PowSplit(10, 10);
    assert Pow10(20) == 100_000_000_000_000_000_000;
    PowSplit(20, 10);
    PowSplit(30, 5);
    PowSplit(35, 4);
  }

  lemma {:induction false} PowSplit(a: nat, b: nat)
    ensures Pow10(a + b) == Pow10(a) * Pow10(b)
  {
    if b > 0 {
      PowSplit(a, b - 1);
      assert Pow10(a) * (10 * Pow10(b - 1)) == 10 * (Pow10(a) * Pow10(b - 1));
    }
  }

  method AppendU64(target: string, value: nat) returns (out: string)
    requires value <= U64_MAX
    ensures out == target + Decimal(value)
  {
    if value == 0 {
      return target + ['0'];
    }
    BuffersSuffice();
    var digits := new char[U64_DIGITS](_ => '0');
    var len := FillDigits(digits, value);
    out := EmptyDigits(digits, len, target);
  }

  method AppendU128(target: string, value: nat) returns (out: string)
    requires value <= U128_MAX
    ensures out == target + Decimal(value)
  {
    if value == 0 {
      return target + ['0'];
    }
    BuffersSuffice();
    var digits := new char[U128_DIGITS](_ => '0');
    var len := FillDigits(digits, value);
    out := EmptyDigits(digits, len, target);
  }

  /** Printing an i128 fails only for the one value whose negation overflows. */
  method AppendI128(target: string, value: int) returns (r: Result<string, ExportError>)
    requires IsI128(value)
    ensures r == if value == I128_MIN then Err(HostPanic) else Ok(target + Signed(value))
  {
    hide Decimal;
    if value < 0 {
      if value == I128_MIN {
        return Err(HostPanic);
      }
      var out := AppendU128(target + ['-'], -value);
      assert target + ['-'] + Decimal(-value) == target + ("-" + Decimal(-value));
      r := Ok(out);
    } else {
      var out := AppendU128(target, value);
      r := Ok(out);
    }
  }

  /** Build a payload for the profile found, if any. */
  method BuildPayload(profile: Option<Profile>, compressed: bool) returns (r: Result<string, ExportError>)
    requires profile.Some? ==>
      && profile.value.id <= U64_MAX && profile.value.scans <= U32_MAX
      && IsI128(profile.value.essence) && profile.value.lastUpdated <= U64_MAX
    ensures r == if profile.None? then Err(ProfileNotFound)
                 else if profile.value.essence == I128_MIN then Err(HostPanic)
                 else Ok(Payload(profile.value, compressed))
  {
    hide Decimal, Signed;
    if profile.None? {
      return Err(ProfileNotFound);
    }
    var p := profile.value;
    var sep := if compressed then "|" else ",";
    var out := AppendU64(if compressed then TAG else HEADER, p.id);
    out := AppendU64(out + sep, p.scans);
    r := AppendI128(out + sep, p.essence);
    if r.Err? {
      return;
    }
    out := AppendU64(r.value + sep, if compressed then 1 else 0);
    if !compressed {
      out := AppendU64(out + sep, p.lastUpdated);
    }
    r := Ok(out);
  }
}

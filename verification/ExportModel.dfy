/**
 The exporter's record formats, with a reader for them. Payload bytes are ASCII and are written as characters.
 */
module ExportModel {
  import opened Host

  const U128_MAX: int := 0xFFFF_FFFF_FFFF_FFFF_FFFF_FFFF_FFFF_FFFF
  const HEADER := "profile_id,scans,essence,compressed,last_updated\n"
  const TAG := "v1|"

  datatype ExportError = ProfileNotFound | HostPanic

  datatype Profile = Profile(id: nat, scans: nat, essence: int, lastUpdated: nat)

  // ----- decimal numbers ------------------------------------------------------------------------

  function Digit(d: nat): char
    requires d < 10
  {
    ('0' as int + d) as char
  }

  /** The decimal numeral of a natural number, without leading zeros. */
  function Decimal(v: nat): string {
    if v < 10 then [Digit(v)] else Decimal(v / 10) + [Digit(v % 10)]
  }

  function Signed(v: int): string {
    if v < 0 then "-" + Decimal(-v) else Decimal(v)
  }

  predicate IsDigit(c: char) {
    '0' <= c <= '9'
  }

  /** Reads a numeral: digits only, and at least one. */
  function ReadNat(s: string): Option<nat> {
    if s == [] || !IsDigit(s[|s| - 1]) then None
    else
      var d := s[|s| - 1] as int - '0' as int;
      if |s| == 1 then Some(d)
      else match ReadNat(s[..|s| - 1])
        case None => None
        case Some(v) => Some(10 * v + d)
  }

  function ReadInt(s: string): Option<int> {
    if s != [] && s[0] == '-' then
      match ReadNat(s[1..])
      case None => None
      case Some(v) => Some(0 - v)
    else
      match ReadNat(s)
      case None => None
      case Some(v) => Some(v)
  }

  // ----- payloads ------------------------------------------------------------------------------------

  function Payload(p: Profile, compressed: bool): string {
    if compressed then
      TAG + Decimal(p.id) + "|" + Decimal(p.scans) + "|" + Signed(p.essence) + "|" + Decimal(1)
    else
      HEADER + Decimal(p.id) + "," + Decimal(p.scans) + "," + Signed(p.essence) + "," + Decimal(0) + "," +
        Decimal(p.lastUpdated)
  }

  /** What a payload says; the compressed form does not carry the update time. */
  datatype Exported =
    | Compact(id: nat, scans: nat, essence: int)
    | Full(id: nat, scans: nat, essence: int, lastUpdated: nat)

  function Content(p: Profile, compressed: bool): Exported {
    if compressed then Compact(p.id, p.scans, p.essence) else Full(p.id, p.scans, p.essence, p.lastUpdated)
  }

  /** The text before the first separator and the text after it. */
  function Cut(s: string, sep: char): Option<(string, string)> {
    if s == [] then None
    else if s[0] == sep then Some(([], s[1..]))
    else match Cut(s[1..], sep)
      case None => None
      case Some((a, b)) => Some(([s[0]] + a, b))
  }

  /** The fields of a line, cut at every separator. */
  function Fields(s: string, sep: char): seq<string>
    decreases |s|
  {
    match Cut(s, sep)
    case None => [s]
    case Some((a, b)) => if |b| < |s| then [a] + Fields(b, sep) else [s]
  }

  function ReadFields(fields: seq<string>, full: bool): Option<Exported> {
    if |fields| != (if full then 5 else 4) then None
    else match (ReadNat(fields[0]), ReadNat(fields[1]), ReadInt(fields[2]), ReadNat(fields[3]))
      case (Some(id), Some(scans), Some(essence), Some(flag)) =>
        if !full then (if flag == 1 then Some(Compact(id, scans, essence)) else None)
        else if flag != 0 then None
        else (match ReadNat(fields[4])
              case Some(t) => Some(Full(id, scans, essence, t))
              case None => None)
      case _ => None
  }

  function ReadPayload(s: string): Option<Exported> {
    if TAG <= s then ReadFields(Fields(s[|TAG|..], '|'), false)
    else if HEADER <= s then ReadFields(Fields(s[|HEADER|..], ','), true)
    else None
  }
}

/** Octets, hexadecimal digits and the unreserved set, as `src/crawl_policy.rs` uses them. */
module Octets {

  type Byte = b: int | 0 <= b < 256 witness 0

  const PERCENT: Byte := 37
  const STAR: Byte := 42
  const DOLLAR: Byte := 36

  const SLASH: Byte := 47
  const QUESTION: Byte := 63

  /** The octets that a parsed http or https URL never holds raw, neither in its path nor in its query: controls, the
    * space, '"', '#', '<', '>', DEL and everything that is not ASCII. */
  predicate NeverRaw(b: Byte) { b <= 32 || b == 34 || b == 35 || b == 60 || b == 62 || b >= 127 }

  /** The octets of `/robots.txt`. */
  const ROBOTS_TXT: seq<Byte> := [47, 114, 111, 98, 111, 116, 115, 46, 116, 120, 116]

  datatype Option<+T> = None | Some(value: T) {
    function GetOr(default: T): T {
      match this
      case Some(v) => v
      case None => default
    }
  }

  predicate IsDigit(b: Byte) { 48 <= b <= 57 }

  predicate IsAlpha(b: Byte) { 65 <= b <= 90 || 97 <= b <= 122 }

  /** RFC 3986 unreserved characters: ALPHA, DIGIT, '-', '.', '_' and '~'. */
  predicate IsUnreserved(b: Byte) {
    IsDigit(b) || IsAlpha(b) || b == 45 || b == 46 || b == 95 || b == 126
  }

  function HexValue(b: Byte): Option<int> {
    if 48 <= b <= 57 then Some(b - 48)
    else if 97 <= b <= 102 then Some(b - 97 + 10)
    else if 65 <= b <= 70 then Some(b - 65 + 10)
    else None
  }

  function HexUpper(v: int): (b: Byte)
    requires 0 <= v < 16
    ensures HexValue(b) == Some(v)
    ensures IsDigit(b) || 65 <= b <= 70
  {
    if v < 10 then 48 + v else 55 + v
  }

  /** The octet written by a well-formed percent triple at index `i`, if there is one. */
  function TripleAt(s: seq<Byte>, i: nat): (octet: Option<Byte>)
    ensures octet.Some? ==> i + 2 < |s| && s[i] == PERCENT
  {
    if i + 2 < |s| && s[i] == PERCENT && HexValue(s[i + 1]).Some? && HexValue(s[i + 2]).Some?
    then Some(HexValue(s[i + 1]).value * 16 + HexValue(s[i + 2]).value)
    else None
  }

  /** Percent-decoding: a well-formed triple stands for its octet, every other byte for itself. */
  function Decode(s: seq<Byte>): seq<Byte> {
    if s == [] then []
    else if TripleAt(s, 0).Some? then [TripleAt(s, 0).value] + Decode(s[3..])
    else [s[0]] + Decode(s[1..])
  }
}

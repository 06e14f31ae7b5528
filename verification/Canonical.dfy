/** The percent-encoding canonicaliser and the specificity count of `src/crawl_policy.rs`.
  *
  * A path is read as a sequence of units: octets that stay literal and octets that are written as
  * an uppercase percent triple. The canonical strings are exactly the renderings of such units.
  */
module Canonical {
  import opened Octets
  import opened Sequences

  datatype Unit = Literal(octet: Byte) | Encoded(octet: Byte)

  /** Pattern mode keeps raw `*` and `$`; target mode encodes them. */
  datatype Mode = Pattern | Target

  /** The unit that stands for a byte which does not head a well-formed triple. */
  function RawUnit(b: Byte, mode: Mode): Unit {
    if b >= 128 || b == PERCENT || (mode == Target && (b == STAR || b == DOLLAR)) then Encoded(b) else Literal(b)
  }

  function TripleUnit(octet: Byte): Unit {
    if IsUnreserved(octet) then Literal(octet) else Encoded(octet)
  }

  function Units(s: seq<Byte>, mode: Mode): seq<Unit> {
    if s == [] then []
    else if TripleAt(s, 0).Some? then [TripleUnit(TripleAt(s, 0).value)] + Units(s[3..], mode)
    else [RawUnit(s[0], mode)] + Units(s[1..], mode)
  }

  function RenderUnit(u: Unit): (r: seq<Byte>) {
    match u
    case Literal(b) => [b]
    case Encoded(b) => [PERCENT, HexUpper(b / 16), HexUpper(b % 16)]
  }

  function Render(us: seq<Unit>): seq<Byte> {
    if us == [] then [] else RenderUnit(us[0]) + Render(us[1..])
  }

  /** The units a canonical path may hold. */
  predicate GoodUnit(u: Unit, mode: Mode) {
    match u
    case Literal(b) => b < 128 && b != PERCENT && (mode == Target ==> b != STAR && b != DOLLAR)
    case Encoded(b) => !IsUnreserved(b)
  }

  predicate GoodUnits(us: seq<Unit>, mode: Mode) {
    forall u | u in us :: GoodUnit(u, mode)
  }

  /** The canonical form of a path. */
  function Normalized(s: seq<Byte>, mode: Mode): seq<Byte> { Render(Units(s, mode)) }

  function OctetsOf(us: seq<Unit>): seq<Byte> {
    seq(|us|, i requires 0 <= i < |us| => us[i].octet)
  }

  /** What a path is read as: literal octets are ASCII, and no unreserved octet is encoded. */
  lemma {:induction false} UnitsAreGood(s: seq<Byte>, mode: Mode)
    ensures GoodUnits(Units(s, mode), mode)
    decreases |s|
  {
    if s == [] {
    } else if TripleAt(s, 0).Some? {
      UnitsAreGood(s[3..], mode);
    } else {
      UnitsAreGood(s[1..], mode);
    }
  }

  lemma {:induction false} UnitsOfRender(us: seq<Unit>, mode: Mode)
    requires GoodUnits(us, mode)
    ensures Units(Render(us), mode) == us
  {
    if us != [] {
      var rest := Render(us[1..]);
      var s := RenderUnit(us[0]) + rest;
      UnitsOfRender(us[1..], mode);
      assert GoodUnit(us[0], mode) by { assert us[0] in us; }
      match us[0]
      case Literal(b) =>
        assert s[0] == b && s[1..] == rest;
      case Encoded(b) =>
        assert s[0] == PERCENT && s[1] == HexUpper(b / 16) && s[2] == HexUpper(b % 16) && s[3..] == rest;
        assert TripleAt(s, 0) == Some(b);
    }
  }

  /** Canonicalisation is idempotent. */
  lemma NormalizedIdempotent(s: seq<Byte>, mode: Mode)
    ensures Normalized(Normalized(s, mode), mode) == Normalized(s, mode)
  {
    UnitsAreGood(s, mode);
    UnitsOfRender(Units(s, mode), mode);
  }

  /** A string is canonical when it is a rendering of good units. */
  ghost predicate IsCanonical(s: seq<Byte>, mode: Mode) {
    exists us :: GoodUnits(us, mode) && s == Render(us)
  }

  /** The canonical strings are the image of the canonicaliser and its fixed points. */
  lemma CanonicalIffFixed(s: seq<Byte>, mode: Mode)
    ensures IsCanonical(s, mode) <==> Normalized(s, mode) == s
    ensures IsCanonical(Normalized(s, mode), mode)
  {
    UnitsAreGood(s, mode);
    if IsCanonical(s, mode) {
      var us :| GoodUnits(us, mode) && s == Render(us);
      UnitsOfRender(us, mode);
    }
  }

  lemma {:induction false} DecodeRender(us: seq<Unit>)
    requires forall u | u in us :: u.Literal? ==> u.octet != PERCENT
    ensures Decode(Render(us)) == OctetsOf(us)
  {
    if us != [] {
      var rest := Render(us[1..]);
      var s := RenderUnit(us[0]) + rest;
      DecodeRender(us[1..]);
      match us[0]
      case Literal(b) =>
        assert s[0] == b && s[1..] == rest;
      case Encoded(b) =>
        assert s[0] == PERCENT && s[1] == HexUpper(b / 16) && s[2] == HexUpper(b % 16) && s[3..] == rest;
        assert TripleAt(s, 0) == Some(b);
      assert OctetsOf(us) == [us[0].octet] + OctetsOf(us[1..]);
    }
  }

  lemma {:induction false} OctetsOfUnits(s: seq<Byte>, mode: Mode)
    ensures OctetsOf(Units(s, mode)) == Decode(s)
    decreases |s|
  {
    if s == [] {
    } else if TripleAt(s, 0).Some? {
      OctetsOfUnits(s[3..], mode);
    } else {
      OctetsOfUnits(s[1..], mode);
    }
  }

  /** Canonicalisation keeps the octets a path decodes to. */
  lemma NormalizedKeepsOctets(s: seq<Byte>, mode: Mode)
    ensures Decode(Normalized(s, mode)) == Decode(s)
  {
    UnitsAreGood(s, mode);
    DecodeRender(Units(s, mode));
    OctetsOfUnits(s, mode);
  }

  /** Two paths share a canonical form exactly when they read as the same units. */
  lemma NormalizedEqualIff(s: seq<Byte>, t: seq<Byte>, mode: Mode)
    ensures Normalized(s, mode) == Normalized(t, mode) <==> Units(s, mode) == Units(t, mode)
  {
    UnitsAreGood(s, mode);
    UnitsAreGood(t, mode);
    UnitsOfRender(Units(s, mode), mode);
    UnitsOfRender(Units(t, mode), mode);
  }

  /** In canonical text `%` only heads an uppercase triple of an octet that is not unreserved, no byte is
    * outside ASCII, and target mode has no raw `*` or `$`. */
  ghost predicate CleanAt(s: seq<Byte>, i: nat, mode: Mode)
    requires i < |s|
  {
    && s[i] < 128
    && (s[i] == PERCENT ==>
          TripleAt(s, i).Some? && !IsUnreserved(TripleAt(s, i).value)
          && s[i + 1] == HexUpper(TripleAt(s, i).value / 16) && s[i + 2] == HexUpper(TripleAt(s, i).value % 16))
    && (mode == Target ==> s[i] != STAR && s[i] != DOLLAR)
  }

  lemma {:induction false} RenderIsClean(us: seq<Unit>, mode: Mode)
    requires GoodUnits(us, mode)
    ensures forall i | 0 <= i < |Render(us)| :: CleanAt(Render(us), i, mode)
  {
    if us != [] {
      RenderIsClean(us[1..], mode);
      assert GoodUnit(us[0], mode) by { assert us[0] in us; }
      var head, rest := RenderUnit(us[0]), Render(us[1..]);
      var s := head + rest;
      forall i | 0 <= i < |s|
        ensures CleanAt(s, i, mode)
      {
        if i >= |head| {
          assert CleanAt(rest, i - |head|, mode);
          assert s[i..] == rest[i - |head|..];
          assert s[i] == rest[i - |head|];
          if i + 2 < |s| {
            assert s[i + 1] == rest[i - |head| + 1] && s[i + 2] == rest[i - |head| + 2];
            assert TripleAt(s, i) == TripleAt(rest, i - |head|);
          }
        } else if us[0].Encoded? {
          var b := us[0].octet;
          assert s[0] == PERCENT && s[1] == HexUpper(b / 16) && s[2] == HexUpper(b % 16);
          assert TripleAt(s, 0) == Some(b);
        }
      }
    }
  }

  lemma NormalizedIsClean(s: seq<Byte>, mode: Mode)
    ensures forall i | 0 <= i < |Normalized(s, mode)| :: CleanAt(Normalized(s, mode), i, mode)
  {
    UnitsAreGood(s, mode);
    RenderIsClean(Units(s, mode), mode);
  }

  /** What the matcher relies on: a canonical target has no raw `*` and no raw `$`. */
  lemma TargetHasNoTokens(s: seq<Byte>)
    ensures STAR !in Normalized(s, Target) && DOLLAR !in Normalized(s, Target)
  {
    NormalizedIsClean(s, Target);
    forall b | b in Normalized(s, Target)
      ensures b != STAR && b != DOLLAR
    {
      var i :| 0 <= i < |Normalized(s, Target)| && Normalized(s, Target)[i] == b;
      assert CleanAt(Normalized(s, Target), i, Target);
    }
  }

  lemma {:induction false} RenderConcat(us: seq<Unit>, vs: seq<Unit>)
    ensures Render(us + vs) == Render(us) + Render(vs)
  {
    if us == [] {
      assert us + vs == vs;
    } else {
      RenderConcat(us[1..], vs);
      assert (us + vs)[0] == us[0] && (us + vs)[1..] == us[1..] + vs;
      Associative(RenderUnit(us[0]), Render(us[1..]), Render(vs));
    }
  }

  lemma UnitsStep(s: seq<Byte>, index: nat, mode: Mode)
    requires index < |s|
    ensures TripleAt(s[index..], 0) == TripleAt(s, index)
    ensures TripleAt(s, index).Some? ==>
              Render(Units(s[index..], mode))
              == RenderUnit(TripleUnit(TripleAt(s, index).value)) + Render(Units(s[index + 3..], mode))
    ensures TripleAt(s, index).None? ==>
              Render(Units(s[index..], mode))
              == RenderUnit(RawUnit(s[index], mode)) + Render(Units(s[index + 1..], mode))
  {
    var rest := s[index..];
    assert rest[1..] == s[index + 1..];
    if index + 2 < |s| {
      assert rest[1] == s[index + 1] && rest[2] == s[index + 2] && rest[3..] == s[index + 3..];
    }
  }

  lemma NothingToRender(s: seq<Byte>, mode: Mode)
    requires s == []
    ensures Render(Units(s, mode)) == []
  {
  }

  /** Append the uppercase triple of an octet. */
  method PushTriple(buffer: seq<Byte>, octet: Byte) returns (output: seq<Byte>)
    ensures output == buffer + RenderUnit(Encoded(octet))
  {
    output := buffer + [PERCENT, HexUpper(octet / 16), HexUpper(octet % 16)];
  }

  /** `normalize_path`: one pass over the bytes, appending to an output buffer. */
  method NormalizePath(input: seq<Byte>, mode: Mode) returns (output: seq<Byte>)
    ensures output == Normalized(input, mode)
  {
    hide Units, Render;
    output := [];
    var index := 0;
    assert input[0..] == input;
    while index < |input|
      invariant 0 <= index <= |input|
      invariant output + Render(Units(input[index..], mode)) == Normalized(input, mode)
      decreases |input| - index
    {
      UnitsStep(input, index, mode);
      ghost var before := output;
      var byte := input[index];
      if byte == PERCENT && index + 2 < |input|
         && HexValue(input[index + 1]).Some? && HexValue(input[index + 2]).Some?
      {
        var decoded := HexValue(input[index + 1]).value * 16 + HexValue(input[index + 2]).value;
        if IsUnreserved(decoded) {
          output := output + [decoded];
        } else {
          output := PushTriple(output, decoded);
        }
        index := index + 3;
        Associative(before, RenderUnit(TripleUnit(decoded)), Render(Units(input[index..], mode)));
      } else {
        if byte < 128 {
          if byte == PERCENT {
            output := PushTriple(output, PERCENT);
          } else if mode == Pattern && (byte == STAR || byte == DOLLAR) {
            output := output + [byte];
          } else if mode == Target && (byte == STAR || byte == DOLLAR) {
            output := PushTriple(output, byte);
          } else {
            output := output + [byte];
          }
        } else {
          output := PushTriple(output, byte);
        }
        index := index + 1;
        Associative(before, RenderUnit(RawUnit(byte, mode)), Render(Units(input[index..], mode)));
      }
    }
    NothingToRender(input[index..], mode);
  }

  /** The octets of a pattern that count towards its length: all but `*` and a final `$`. */
  function SignificantUnits(us: seq<Unit>): nat {
    if us == [] then 0
    else if us == [Literal(DOLLAR)] then 0
    else (if us[0] == Literal(STAR) then 0 else 1) + SignificantUnits(us[1..])
  }

  /** `pattern_specificity`: skip a `*`, count a triple or any other byte once, stop before a final `$`. */
  method PatternSpecificity(pattern: seq<Byte>) returns (count: nat)
    ensures count == Specificity(pattern)
  {
    var endAnchor := if |pattern| > 0 && pattern[|pattern| - 1] == DOLLAR then 1 else 0;
    var index := 0;
    count := 0;
    while index < |pattern| - endAnchor
      invariant 0 <= index
      invariant count + SpecificityFrom(pattern, index) == Specificity(pattern)
      decreases |pattern| - index
    {
      if pattern[index] == STAR {
        index := index + 1;
      } else if pattern[index] == PERCENT && index + 2 < |pattern| {
        count := count + 1;
        index := index + 3;
      } else {
        count := count + 1;
        index := index + 1;
      }
    }
  }

  predicate EndAnchored(pattern: seq<Byte>) { pattern != [] && pattern[|pattern| - 1] == DOLLAR }

  function SpecificityFrom(pattern: seq<Byte>, index: nat): nat
    decreases |pattern| - index
  {
    if index >= |pattern| - (if EndAnchored(pattern) then 1 else 0) then 0
    else if pattern[index] == STAR then SpecificityFrom(pattern, index + 1)
    else if pattern[index] == PERCENT && index + 2 < |pattern| then 1 + SpecificityFrom(pattern, index + 3)
    else 1 + SpecificityFrom(pattern, index + 1)
  }

  function Specificity(pattern: seq<Byte>): nat { SpecificityFrom(pattern, 0) }

  lemma RenderOne(u: Unit)
    ensures Render([u]) == RenderUnit(u)
    ensures |RenderUnit(u)| > 0
  {
    assert [u][1..] == [];
    assert RenderUnit(u) + [] == RenderUnit(u);
  }

  lemma SpecificityStep(p: seq<Byte>, i: nat, u: Unit, rest: seq<Byte>)
    requires i < |p| && p[i..] == RenderUnit(u) + rest && GoodUnit(u, Pattern)
    requires u == Literal(DOLLAR) ==> rest != []
    ensures SpecificityFrom(p, i)
         == (if u == Literal(STAR) then 0 else 1) + SpecificityFrom(p, i + |RenderUnit(u)|)
  {
    var head := RenderUnit(u);
    assert p[i] == (head + rest)[0] == head[0];
    assert |p| == i + |head| + |rest|;
    if rest == [] {
      assert p[i..] == head;
      assert p[|p| - 1] == head[|head| - 1];
    }
  }

  lemma {:induction false} SpecificityOfSuffix(p: seq<Byte>, i: nat, us: seq<Unit>)
    requires i <= |p| && p[i..] == Render(us) && GoodUnits(us, Pattern)
    ensures SpecificityFrom(p, i) == SignificantUnits(us)
    decreases |us|
  {
    if us != [] {
      var u, rest := us[0], Render(us[1..]);
      assert GoodUnit(u, Pattern) by { assert u in us; }
      if us == [Literal(DOLLAR)] {
        assert p[i..] == [DOLLAR];
      } else {
        if |us| > 1 {
          RenderOne(us[1]);
          assert rest == RenderUnit(us[1]) + Render(us[1..][1..]);
        } else {
          assert us == [u];
        }
        SpecificityStep(p, i, u, rest);
        assert p[i + |RenderUnit(u)|..] == p[i..][|RenderUnit(u)|..];
        SpecificityOfSuffix(p, i + |RenderUnit(u)|, us[1..]);
      }
    }
  }

  /** The specificity of a canonical pattern is the number of octets it fixes. */
  lemma SpecificityCountsOctets(s: seq<Byte>)
    ensures Specificity(Normalized(s, Pattern)) == SignificantUnits(Units(s, Pattern))
  {
    UnitsAreGood(s, Pattern);
    var us := Units(s, Pattern);
    assert Render(us)[0..] == Render(us);
    SpecificityOfSuffix(Render(us), 0, us);
  }

  // ---- what becomes of each octet

  /** A hexadecimal digit in either case. */
  function HexDigit(v: int, upper: bool): Byte
    requires 0 <= v < 16
  {
    if v < 10 then '0' as int + v else (if upper then 'A' else 'a') as int + (v - 10)
  }

  /** Letters, digits, hyphen, period, underscore and tilde. */
  predicate NeedsNoTriple(b: Byte) {
    || '0' as int <= b <= '9' as int || 'A' as int <= b <= 'Z' as int || 'a' as int <= b <= 'z' as int
    || b == '-' as int || b == '.' as int || b == '_' as int || b == '~' as int
  }

  function UpperTriple(octet: Byte): seq<Byte> {
    ['%' as int, HexDigit(octet / 16, true), HexDigit(octet % 16, true)]
  }

  lemma DigitsAreRead(v: int, upper: bool)
    requires 0 <= v < 16
    ensures HexValue(HexDigit(v, upper)) == Some(v) && HexUpper(v) == HexDigit(v, true)
  {
  }

  /** A triple, in whatever case its digits are, becomes its octet if that needs no triple, and an uppercase triple if
    * it does. */
  lemma TriplesAreRead(octet: Byte, upper: bool, lower: bool, rest: seq<Byte>, mode: Mode)
    ensures Normalized(['%' as int, HexDigit(octet / 16, upper), HexDigit(octet % 16, lower)] + rest, mode)
         == (if NeedsNoTriple(octet) then [octet] else UpperTriple(octet)) + Normalized(rest, mode)
  {
    var s := ['%' as int, HexDigit(octet / 16, upper), HexDigit(octet % 16, lower)] + rest;
    DigitsAreRead(octet / 16, upper);
    DigitsAreRead(octet % 16, lower);
    assert s[1] == HexDigit(octet / 16, upper) && s[2] == HexDigit(octet % 16, lower) && s[3..] == rest;
    assert TripleAt(s, 0) == Some(octet);
    assert Units(s, mode) == [TripleUnit(octet)] + Units(rest, mode);
    RenderConcat([TripleUnit(octet)], Units(rest, mode));
    RenderOne(TripleUnit(octet));
  }

  /** Any other octet stays as it is, unless it is a percent sign or not ASCII or, in a target, a star or a dollar. */
  lemma OctetsAreRead(octet: Byte, rest: seq<Byte>, mode: Mode)
    requires TripleAt([octet] + rest, 0).None?
    ensures Normalized([octet] + rest, mode)
         == (if octet == '%' as int || octet > 127
                || (mode == Target && (octet == '*' as int || octet == '$' as int)) then UpperTriple(octet)
             else [octet])
            + Normalized(rest, mode)
  {
    var s := [octet] + rest;
    assert s[1..] == rest;
    DigitsAreRead(octet / 16, true);
    DigitsAreRead(octet % 16, true);
    assert Units(s, mode) == [RawUnit(octet, mode)] + Units(rest, mode);
    RenderConcat([RawUnit(octet, mode)], Units(rest, mode));
    RenderOne(RawUnit(octet, mode));
  }
}

/** What the matcher decides, measured against RFC 9309, section 2.2.3. */
module MatcherLaws {
  import opened Octets
  import opened Canonical
  import opened Matcher

  /** A nonempty set of matching prefixes has a shortest one. */
  lemma {:induction false} ShortestExists(p: seq<Byte>, t: seq<Byte>, e: nat)
    requires MatchesPrefix(p, t, e)
    ensures exists f :: ShortestPrefix(p, t, f)
    decreases e
  {
    if f :| MatchesPrefix(p, t, f) && f < e {
      ShortestExists(p, t, f);
    } else {
      assert ShortestPrefix(p, t, e);
    }
  }

  /** Without a final `$` the loop decides exactly the prefix matching of the standard. */
  lemma UnanchoredIsRfc(pattern: seq<Byte>, t: seq<Byte>)
    requires !EndAnchored(pattern)
    ensures CodeMatches(pattern, t) <==> RfcMatches(pattern, t)
  {
    if RfcMatches(pattern, t) {
      var e :| MatchesPrefix(pattern, t, e);
      ShortestExists(pattern, t, e);
    }
  }

  /** With a final `$` the loop never accepts too much. */
  lemma AnchoredSound(pattern: seq<Byte>, t: seq<Byte>)
    requires CodeMatches(pattern, t)
    ensures RfcMatches(pattern, t)
  {
    assert t[..|t|] == t;
  }

  lemma AnchoredMeaning(body: seq<Byte>, t: seq<Byte>)
    ensures CodeMatches(body + [DOLLAR], t) <==> ShortestPrefix(body, t, |t|)
    ensures RfcMatches(body + [DOLLAR], t) <==> MatchesPrefix(body, t, |t|)
  {
    assert EndAnchored(body + [DOLLAR]) && Body(body + [DOLLAR]) == body;
    assert t[..|t|] == t;
  }

  lemma ProperPrefixes(p: seq<Byte>, t: seq<Byte>)
    requires t != []
    ensures MatchesSomePrefix(p, t[..|t| - 1]) <==> exists e :: e < |t| && MatchesPrefix(p, t, e)
  {
    var u := t[..|t| - 1];
    forall e | 0 <= e < |t|
      ensures MatchesPrefix(p, t, e) <==> MatchesPrefix(p, u, e)
    {
      assert u[..e] == t[..e];
    }
  }

  /** An anchored verdict is wrong exactly when the target matches and, with its last octet dropped, the
    * same pattern without `$` still matches a prefix of it. */
  lemma AnchoredExactAt(body: seq<Byte>, t: seq<Byte>)
    ensures (CodeMatches(body + [DOLLAR], t) <==> RfcMatches(body + [DOLLAR], t))
       <==> !(Matches(body, t) && t != [] && MatchesSomePrefix(body, t[..|t| - 1]))
  {
    AnchoredMeaning(body, t);
    assert t[..|t|] == t;
    if t != [] {
      ProperPrefixes(body, t);
    }
  }

  /** `/a*b$` must accept `/abb`, and the loop rejects it. */
  lemma AnchoredIncomplete()
    ensures RfcMatches([47, 97, STAR, 98, DOLLAR], [47, 97, 98, 98])
    ensures !CodeMatches([47, 97, STAR, 98, DOLLAR], [47, 97, 98, 98])
  {
    var body: seq<Byte>, t: seq<Byte> := [47, 97, STAR, 98], [47, 97, 98, 98];
    assert body + [DOLLAR] == [47, 97, STAR, 98, DOLLAR];
    assert Body(body + [DOLLAR]) == body;
    LiteralRun(body, 2, t);
    assert body[2..] == [STAR, 98] && t[2..] == [98, 98];
    assert [STAR, 98][1..] == [98] && [98, 98][1..] == [98];
    LiteralRun([98], 1, [98]);
    StarAbsorbs0([STAR, 98], [98]);
    assert Matches([STAR, 98], [98, 98][1..]);
    StarAbsorbs([STAR, 98], [98, 98], 1);
    var u := t[..3];
    LiteralRun(body, 2, u);
    assert u[2..] == [98];
    assert MatchesPrefix(body, t, 3);
  }

  // ---- for which anchored patterns is the loop right on every target?

  lemma {:induction false} MatchesConcat(p: seq<Byte>, a: seq<Byte>, q: seq<Byte>, b: seq<Byte>)
    requires Matches(p, a) && Matches(q, b)
    ensures Matches(p + q, a + b)
    decreases |p|
  {
    if p == [] {
      assert p + q == q && a + b == b;
    } else if p[0] == STAR {
      var k :| 0 <= k <= |a| && Matches(p[1..], a[k..]);
      MatchesConcat(p[1..], a[k..], q, b);
      assert (p + q)[1..] == p[1..] + q;
      assert (a + b)[k..] == a[k..] + b;
    } else {
      MatchesConcat(p[1..], a[1..], q, b);
      assert (p + q)[1..] == p[1..] + q;
      assert (a + b)[1..] == a[1..] + b;
    }
  }

  lemma MatchesSelf(p: seq<Byte>)
    requires STAR !in p
    ensures Matches(p, p)
  {
    assert p[..|p|] == p;
    LiteralRun(p, |p|, p);
  }

  lemma StarMatchesAll(t: seq<Byte>)
    ensures Matches([STAR], t)
  {
    assert t[|t|..] == [];
    assert [STAR][1..] == [];
    assert Matches([STAR][1..], t[|t|..]);
  }

  lemma {:induction false} LiteralsOccur(p: seq<Byte>, t: seq<Byte>, b: Byte)
    requires Matches(p, t) && b in p && b != STAR
    ensures b in t
    decreases |p|
  {
    if p[0] == STAR {
      var k :| 0 <= k <= |t| && Matches(p[1..], t[k..]);
      LiteralsOccur(p[1..], t[k..], b);
    } else if p[0] != b {
      LiteralsOccur(p[1..], t[1..], b);
    }
  }

  /** An octet that no triple is made of. */
  predicate OutsideTriples(b: Byte) { b != PERCENT && !IsDigit(b) && !(65 <= b <= 70) }

  /** Such an octet in canonical text always stands for itself. */
  lemma {:induction false} TokenInRender(us: seq<Unit>, b: Byte)
    requires OutsideTriples(b)
    ensures b in Render(us) <==> Literal(b) in us
  {
    if us != [] {
      TokenInRender(us[1..], b);
      assert us == [us[0]] + us[1..];
      assert b in RenderUnit(us[0]) <==> us[0] == Literal(b);
    }
  }

  function Stripped(us: seq<Unit>): seq<Unit> {
    if us == [] then []
    else if us[0] == Literal(STAR) then Stripped(us[1..])
    else [us[0]] + Stripped(us[1..])
  }

  lemma UnitMatchesSelf(u: Unit)
    requires u != Literal(STAR)
    ensures Matches(RenderUnit(u), RenderUnit(u))
  {
    MatchesSelf(RenderUnit(u));
  }

  lemma {:induction false} StrippedMatches(us: seq<Unit>)
    ensures Matches(Render(us), Render(Stripped(us)))
    ensures forall u | u in Stripped(us) :: u in us && u != Literal(STAR)
  {
    if us != [] {
      StrippedMatches(us[1..]);
      RenderOne(us[0]);
      if us[0] == Literal(STAR) {
        assert Render(us)[1..] == Render(us[1..]);
        StarAbsorbs0(Render(us), Render(Stripped(us[1..])));
      } else {
        UnitMatchesSelf(us[0]);
        MatchesConcat(RenderUnit(us[0]), RenderUnit(us[0]), Render(us[1..]), Render(Stripped(us[1..])));
        assert Stripped(us)[1..] == Stripped(us[1..]);
      }
    }
  }

  lemma {:induction false} LastStar(us: seq<Unit>) returns (k: nat)
    requires Literal(STAR) in us
    ensures k < |us| && us[k] == Literal(STAR) && Literal(STAR) !in us[k + 1..]
    decreases |us|
  {
    var n := |us| - 1;
    if us[n] == Literal(STAR) {
      k := n;
    } else {
      assert us == us[..n] + [us[n]];
      k := LastStar(us[..n]);
      assert us[k + 1..] == us[..n][k + 1..] + [us[n]];
    }
  }

  lemma StarBetween(p: seq<Byte>, l: seq<Byte>, x: seq<Byte>, tl: seq<Byte>)
    requires Matches(p, l) && STAR !in tl
    ensures Matches(p + ([STAR] + tl), l + (x + tl))
  {
    MatchesSelf(tl);
    StarMatchesAll(x);
    MatchesConcat([STAR], x, tl, tl);
    MatchesConcat(p, l, [STAR] + tl, x + tl);
  }

  /** The last star can absorb one more copy of what follows it, or any octets at all if nothing does. */
  lemma LastStarStretches(p: seq<Byte>, l: seq<Byte>, tl: seq<Byte>, x: seq<Byte>)
    requires Matches(p, l) && STAR !in tl && x != [] && (x == tl || tl == [])
    ensures Matches(p + ([STAR] + tl), l + (x + tl))
    ensures MatchesSomePrefix(p + ([STAR] + tl), (l + (x + tl))[..|l + (x + tl)| - 1])
  {
    StarBetween(p, l, x, tl);
    StarBetween(p, l, [], tl);
    assert [] + tl == tl;
    var u := (l + (x + tl))[..|l + (x + tl)| - 1];
    assert u[..|l| + |tl|] == l + tl;
    assert MatchesPrefix(p + ([STAR] + tl), u, |l| + |tl|);
  }

  lemma CutAtLastStar(us: seq<Unit>) returns (front: seq<Unit>, tail: seq<Unit>)
    requires Literal(STAR) in us
    ensures us == front + ([Literal(STAR)] + tail) && Literal(STAR) !in tail && STAR !in Render(tail)
    ensures Render(us) == Render(front) + ([STAR] + Render(tail))
    ensures Matches(Render(front), Render(Stripped(front)))
  {
    var k := LastStar(us);
    front, tail := us[..k], us[k + 1..];
    assert us == front + ([Literal(STAR)] + tail);
    RenderConcat(front, [Literal(STAR)] + tail);
    RenderConcat([Literal(STAR)], tail);
    RenderOne(Literal(STAR));
    StrippedMatches(front);
    TokenInRender(tail, STAR);
  }

  // ---- targets as URLs have them

  /** What the target of a URL looks like: canonical, from a slash on, and without the octets that URLs encode. */
  ghost predicate RealTarget(t: seq<Byte>) {
    IsCanonical(t, Target) && t != [] && t[0] == SLASH && forall b | b in t :: !NeverRaw(b)
  }

  /** The units whose rendering is a real target once it begins with a slash. */
  predicate RealUnit(u: Unit) { GoodUnit(u, Target) && (u.Literal? ==> !NeverRaw(u.octet)) }

  lemma RealUnitsAreReal(us: seq<Unit>)
    requires (forall u | u in us :: RealUnit(u)) && us != [] && us[0] == Literal(SLASH)
    ensures RealTarget(Render(us))
  {
    assert GoodUnits(us, Target);
    forall b | b in Render(us) && NeverRaw(b)
      ensures false
    {
      TokenInRender(us, b);
    }
  }

  /** The units of a pattern that a target can repeat. */
  lemma RepeatableUnit(us: seq<Unit>, u: Unit)
    requires GoodUnits(us, Pattern) && u in us && u != Literal(STAR) && Literal(DOLLAR) !in us
    requires forall b | b in Render(us) :: !NeverRaw(b)
    ensures RealUnit(u)
  {
    if u.Literal? && NeverRaw(u.octet) {
      TokenInRender(us, u.octet);
    }
  }

  lemma FirstUnit(us: seq<Unit>)
    requires us != []
    ensures Render(us) != []
    ensures Render(us)[0] == SLASH || Render(us)[0] == STAR ==> us[0] == Literal(Render(us)[0])
  {
  }

  function Repeated(front: seq<Unit>, tail: seq<Unit>): seq<Unit> {
    Stripped(front) + ((if tail == [] then [Literal(97)] else tail) + tail)
  }

  /** The units of a target that a starred body matches both as a whole and in a proper prefix. */
  function CounterUnits(us: seq<Unit>, front: seq<Unit>, tail: seq<Unit>): seq<Unit> {
    (if us != [] && us[0] == Literal(STAR) then [Literal(SLASH)] else []) + Repeated(front, tail)
  }

  lemma CounterUnitsAreReal(us: seq<Unit>, front: seq<Unit>, tail: seq<Unit>)
    requires GoodUnits(us, Pattern) && Literal(DOLLAR) !in us && us == front + ([Literal(STAR)] + tail)
    requires Literal(STAR) !in tail && (us[0] == Literal(STAR) || us[0] == Literal(SLASH))
    requires forall b | b in Render(us) :: !NeverRaw(b)
    ensures RealTarget(Render(CounterUnits(us, front, tail)))
  {
    StrippedMatches(front);
    var vs := CounterUnits(us, front, tail);
    forall v | v in vs
      ensures RealUnit(v)
    {
      if v in Stripped(front) || v in tail {
        RepeatableUnit(us, v);
      }
    }
    if us[0] != Literal(STAR) {
      assert front != [] && front[0] == us[0];
      assert Stripped(front)[0] == us[0];
    }
    RealUnitsAreReal(vs);
  }

  /** A leading star takes in one more octet. */
  lemma LeadingStar(p: seq<Byte>, t: seq<Byte>, b: Byte)
    requires p != [] && p[0] == STAR && t != [] && Matches(p, t) && MatchesSomePrefix(p, t[..|t| - 1])
    ensures var u := [b] + t;
            Matches(p, u) && MatchesSomePrefix(p, u[..|u| - 1])
  {
    var u := [b] + t;
    assert u[1..] == t;
    StarAbsorbs(p, u, 1);
    var e :| MatchesPrefix(p, t[..|t| - 1], e);
    assert u[..|u| - 1][..e + 1][1..] == t[..|t| - 1][..e];
    StarAbsorbs(p, u[..|u| - 1][..e + 1], 1);
    assert MatchesPrefix(p, u[..|u| - 1], e + 1);
  }

  lemma RepeatedMatches(us: seq<Unit>, front: seq<Unit>, tail: seq<Unit>)
    requires STAR !in Render(tail) && Render(us) == Render(front) + ([STAR] + Render(tail))
    requires Matches(Render(front), Render(Stripped(front)))
    ensures var t := Render(Repeated(front, tail));
            t != [] && Matches(Render(us), t) && MatchesSomePrefix(Render(us), t[..|t| - 1])
  {
    var extra := if tail == [] then [Literal(97)] else tail;
    var l, tl, x := Render(Stripped(front)), Render(tail), Render(extra);
    FirstUnit(extra);
    assert tail == [] ==> tl == [];
    RenderConcat(extra, tail);
    RenderConcat(Stripped(front), extra + tail);
    LastStarStretches(Render(front), l, tl, x);
  }

  lemma SlashFirst(us: seq<Unit>)
    ensures Render([Literal(SLASH)] + us) == [SLASH] + Render(us)
  {
    RenderOne(Literal(SLASH));
    RenderConcat([Literal(SLASH)], us);
  }

  lemma CounterUnitsMatch(us: seq<Unit>, front: seq<Unit>, tail: seq<Unit>)
    requires us != [] && STAR !in Render(tail) && Render(us) == Render(front) + ([STAR] + Render(tail))
    requires Matches(Render(front), Render(Stripped(front)))
    ensures var t := Render(CounterUnits(us, front, tail));
            t != [] && Matches(Render(us), t) && MatchesSomePrefix(Render(us), t[..|t| - 1])
  {
    var vs := Repeated(front, tail);
    RepeatedMatches(us, front, tail);
    if us[0] == Literal(STAR) {
      assert Render(us)[0] == STAR;
      LeadingStar(Render(us), Render(vs), SLASH);
      SlashFirst(vs);
    } else {
      assert CounterUnits(us, front, tail) == vs;
    }
  }

  /** What a pattern's author can check of an anchored pattern, without its final `$`. */
  predicate SafeBody(body: seq<Byte>) {
    || STAR !in body || DOLLAR in body
    || (body[0] != SLASH && body[0] != STAR)
    || (exists b | b in body :: NeverRaw(b))
  }

  /** An anchored canonical pattern is judged as the standard asks on every real target exactly when it holds no `*`,
    * or can match no real target at all: it holds a raw `$` before its end or an octet that URLs encode, or begins
    * with neither `/` nor `*`. */
  lemma AnchoredExact(body: seq<Byte>)
    requires IsCanonical(body, Pattern)
    ensures (forall t | RealTarget(t) :: CodeMatches(body + [DOLLAR], t) <==> RfcMatches(body + [DOLLAR], t))
       <==> SafeBody(body)
  {
    if SafeBody(body) {
      forall t | RealTarget(t)
        ensures CodeMatches(body + [DOLLAR], t) <==> RfcMatches(body + [DOLLAR], t)
      {
        AnchoredSafe(body, t);
      }
    } else {
      var t := StarredCounterexample(body);
      AnchoredExactAt(body, t);
    }
  }

  /** A body that is not safe has a real target that it matches both as a whole and in a proper prefix. */
  lemma StarredCounterexample(body: seq<Byte>) returns (t: seq<Byte>)
    requires IsCanonical(body, Pattern) && !SafeBody(body)
    ensures RealTarget(t) && Matches(body, t) && MatchesSomePrefix(body, t[..|t| - 1])
  {
    var us :| GoodUnits(us, Pattern) && body == Render(us);
    TokenInRender(us, STAR);
    TokenInRender(us, DOLLAR);
    FirstUnit(us);
    var front, tail := CutAtLastStar(us);
    CounterUnitsAreReal(us, front, tail);
    CounterUnitsMatch(us, front, tail);
    t := Render(CounterUnits(us, front, tail));
  }

  /** A safe anchored pattern is judged as the standard asks on every real target. */
  lemma AnchoredSafe(body: seq<Byte>, t: seq<Byte>)
    requires RealTarget(t) && SafeBody(body)
    ensures CodeMatches(body + [DOLLAR], t) <==> RfcMatches(body + [DOLLAR], t)
  {
    AnchoredExactAt(body, t);
    AgreesWithout(body, t);
  }

  lemma AgreesWithout(body: seq<Byte>, t: seq<Byte>)
    requires RealTarget(t) && SafeBody(body)
    ensures !(Matches(body, t) && MatchesSomePrefix(body, t[..|t| - 1]))
  {
    if Matches(body, t) && MatchesSomePrefix(body, t[..|t| - 1]) {
      if STAR !in body {
        var e :| MatchesPrefix(body, t[..|t| - 1], e);
        assert body[..|body|] == body && body[|body|..] == [];
        LiteralRun(body, |body|, t);
        LiteralRun(body, |body|, t[..|t| - 1][..e]);
      } else {
        NeverMatchesReal(body, t);
      }
      assert false;
    }
  }

  lemma NeverMatchesReal(body: seq<Byte>, t: seq<Byte>)
    requires RealTarget(t) && STAR in body && SafeBody(body)
    ensures !Matches(body, t)
  {
    if Matches(body, t) {
      CanonicalIffFixed(t, Target);
      TargetHasNoTokens(t);
      if DOLLAR in body {
        LiteralsOccur(body, t, DOLLAR);
      } else if b :| b in body && NeverRaw(b) {
        LiteralsOccur(body, t, b);
      }
      assert false;
    }
  }

  /** Every canonical pattern that ends in `$` is a canonical body followed by that `$`. */
  lemma AnchoredBodyIsCanonical(pattern: seq<Byte>)
    requires IsCanonical(pattern, Pattern) && EndAnchored(pattern)
    ensures IsCanonical(Body(pattern), Pattern) && pattern == Body(pattern) + [DOLLAR]
  {
    var us :| GoodUnits(us, Pattern) && pattern == Render(us);
    var front, last := us[..|us| - 1], us[|us| - 1];
    assert us == front + [last];
    RenderConcat(front, [last]);
    RenderOne(last);
    assert last in us;
    assert pattern[|pattern| - 1] == RenderUnit(last)[|RenderUnit(last)| - 1];
    assert last == Literal(DOLLAR);
    assert Body(pattern) == Render(front);
    assert GoodUnits(front, Pattern);
  }
}

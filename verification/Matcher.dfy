/** The wildcard matcher of `src/crawl_policy.rs` against the matching relation of RFC 9309, section 2.2.3.
  *
  * `*` stands for any run of octets and a final `$` pins the pattern to the end of the target. The loop
  * keeps a single backtracking point and stops at the first place where the pattern is used up.
  */
module Matcher {
  import opened Octets
  import opened Canonical

  /** The whole of `t` is an instance of the wildcard body `p`, in which `$` has no special meaning. */
  ghost predicate Matches(p: seq<Byte>, t: seq<Byte>)
    decreases |p|
  {
    if p == [] then t == []
    else if p[0] == STAR then exists k :: 0 <= k <= |t| && Matches(p[1..], t[k..])
    else t != [] && t[0] == p[0] && Matches(p[1..], t[1..])
  }

  ghost predicate MatchesPrefix(p: seq<Byte>, t: seq<Byte>, e: int) {
    0 <= e <= |t| && Matches(p, t[..e])
  }

  ghost predicate MatchesSomePrefix(p: seq<Byte>, t: seq<Byte>) {
    exists e :: MatchesPrefix(p, t, e)
  }

  /** `e` ends the shortest prefix of `t` that is an instance of `p`. */
  ghost predicate ShortestPrefix(p: seq<Byte>, t: seq<Byte>, e: int) {
    MatchesPrefix(p, t, e) && forall f :: MatchesPrefix(p, t, f) ==> e <= f
  }

  function Body(pattern: seq<Byte>): seq<Byte> {
    if EndAnchored(pattern) then pattern[..|pattern| - 1] else pattern
  }

  /** RFC 9309, section 2.2.3: some prefix matches, or the whole target when the pattern ends in `$`. */
  ghost predicate RfcMatches(pattern: seq<Byte>, t: seq<Byte>) {
    if EndAnchored(pattern) then Matches(Body(pattern), t) else MatchesSomePrefix(Body(pattern), t)
  }

  /** What the loop decides: there is a shortest matching prefix, and it is the whole target if anchored. */
  ghost predicate CodeMatches(pattern: seq<Byte>, t: seq<Byte>) {
    exists e :: ShortestPrefix(Body(pattern), t, e) && (EndAnchored(pattern) ==> e == |t|)
  }

  // ---- facts about the relation

  lemma {:induction false} OnlyStarsMatchEmpty(p: seq<Byte>)
    ensures Matches(p, []) <==> forall b | b in p :: b == STAR
    decreases |p|
  {
    if p != [] {
      OnlyStarsMatchEmpty(p[1..]);
      assert forall b :: b in p <==> b == p[0] || b in p[1..] by { assert p == [p[0]] + p[1..]; }
      var none: seq<Byte> := [];
      assert none[0..] == none;
      if p[0] == STAR {
        if Matches(p[1..], none) {
          StarAbsorbs0(p, none);
        }
      } else {
        assert p[0] in p && !Matches(p, none);
      }
    }
  }

  lemma StarAbsorbs0(p: seq<Byte>, t: seq<Byte>)
    requires p != [] && p[0] == STAR && Matches(p[1..], t)
    ensures Matches(p, t)
  {
    assert t[0..] == t;
  }

  /** A star may absorb more of the target. */
  lemma StarAbsorbs(p: seq<Byte>, t: seq<Byte>, k: nat)
    requires p != [] && p[0] == STAR && k <= |t| && Matches(p, t[k..])
    ensures Matches(p, t)
  {
    var j :| 0 <= j <= |t[k..]| && Matches(p[1..], t[k..][j..]);
    assert t[k..][j..] == t[k + j..];
  }

  /** A literal run must be found in place. */
  lemma {:induction false} LiteralRun(p: seq<Byte>, n: nat, t: seq<Byte>)
    requires n <= |p| && STAR !in p[..n]
    ensures Matches(p, t) <==> n <= |t| && t[..n] == p[..n] && Matches(p[n..], t[n..])
    decreases n
  {
    if n == 0 {
      assert p[0..] == p && t[0..] == t;
    } else {
      assert p[..n] == [p[0]] + p[1..][..n - 1];
      assert p[0] in p[..n];
      if t != [] {
        LiteralRun(p[1..], n - 1, t[1..]);
        assert p[1..][n - 1..] == p[n..];
        if n <= |t| {
          assert t[1..][n - 1..] == t[n..];
          assert t[..n] == [t[0]] + t[1..][..n - 1];
        }
      }
    }
  }

  // ---- the loop invariant

  /** Matching `p` against the first `e` octets comes down to matching `p[i..]` against `t[j..e]`. */
  ghost predicate Reduced(p: seq<Byte>, t: seq<Byte>, i: nat, j: nat)
    requires i <= |p| && j <= |t|
  {
    forall e :: MatchesPrefix(p, t, e) <==> j <= e <= |t| && Matches(p[i..], t[j..e])
  }

  lemma ReducedAt(p: seq<Byte>, t: seq<Byte>, i: nat, j: nat, e: int)
    requires i <= |p| && j <= |t| && Reduced(p, t, i, j)
    ensures MatchesPrefix(p, t, e) <==> j <= e <= |t| && Matches(p[i..], t[j..e])
  {
  }

  /** The state of the search: `s` is the backtracking star (or -1), `k` where its run starts in the target. */
  ghost predicate Searching(p: seq<Byte>, t: seq<Byte>, s: int, k: nat, i: nat, j: nat) {
    && -1 <= s < i <= |p| && k <= j <= |t| && i - (s + 1) == j - k
    && STAR !in p[s + 1..i] && p[s + 1..i] == t[k..j]
    && if s == -1 then k == 0 else p[s] == STAR && Reduced(p, t, s, k)
  }

  lemma Start(p: seq<Byte>, t: seq<Byte>)
    ensures Searching(p, t, -1, 0, 0, 0)
  {
  }

  lemma Advance(p: seq<Byte>, t: seq<Byte>, s: int, k: nat, i: nat, j: nat)
    requires Searching(p, t, s, k, i, j) && i < |p| && j < |t| && p[i] == t[j] && p[i] != STAR
    ensures Searching(p, t, s, k, i + 1, j + 1)
  {
    assert p[s + 1..i + 1] == p[s + 1..i] + [p[i]];
    assert t[k..j + 1] == t[k..j] + [t[j]];
  }

  /** Every match of the pattern passes through the run found so far, at this place or later. */
  lemma RunSplits(p: seq<Byte>, t: seq<Byte>, s: int, k: nat, i: nat, j: nat, m: nat, e: nat)
    requires Searching(p, t, s, k, i, j) && k <= m <= e <= |t|
    ensures Matches(p[s + 1..], t[m..e]) <==>
              m + (j - k) <= e && t[m..m + (j - k)] == t[k..j] && Matches(p[i..], t[m + (j - k)..e])
  {
    var q, n, u := p[s + 1..], j - k, t[m..e];
    assert q[..n] == p[s + 1..i];
    assert q[n..] == p[i..];
    LiteralRun(q, n, u);
    if m + n <= e {
      assert u[..n] == t[m..m + n];
      assert u[n..] == t[m + n..e];
    }
  }

  /** Reaching a new star commits to the leftmost place of everything before it. */
  lemma Commit(p: seq<Byte>, t: seq<Byte>, s: int, k: nat, i: nat, j: nat)
    requires Searching(p, t, s, k, i, j) && i < |p| && p[i] == STAR
    ensures Searching(p, t, i, j, i + 1, j)
  {
    forall e
      ensures MatchesPrefix(p, t, e) <==> j <= e <= |t| && Matches(p[i..], t[j..e])
    {
      if 0 <= e <= |t| {
        if s == -1 {
          RunSplits(p, t, s, k, i, j, 0, e);
          assert p[0..] == p && t[0..e] == t[..e];
        } else {
          ReducedAt(p, t, s, k, e);
          CommitAt(p, t, s, k, i, j, e);
        }
      }
    }
  }

  lemma CommitAt(p: seq<Byte>, t: seq<Byte>, s: int, k: nat, i: nat, j: nat, e: nat)
    requires Searching(p, t, s, k, i, j) && s >= 0 && i < |p| && p[i] == STAR && e <= |t|
    ensures k <= e && Matches(p[s..], t[k..e]) <==> j <= e && Matches(p[i..], t[j..e])
  {
    if k <= e && Matches(p[s..], t[k..e]) {
      var d := LaterRun(p, t, s, k, e);
      RunSplits(p, t, s, k, i, j, d, e);
      assert t[j..e][d - k..] == t[d + (j - k)..e];
      StarAbsorbs(p[i..], t[j..e], d - k);
    }
    if j <= e && Matches(p[i..], t[j..e]) {
      RunSplits(p, t, s, k, i, j, k, e);
      StarSkips(p, t, s, k, k, e);
    }
  }

  /** Where the octets absorbed by the backtracking star end. */
  lemma LaterRun(p: seq<Byte>, t: seq<Byte>, s: int, k: nat, e: nat) returns (d: nat)
    requires 0 <= s < |p| && p[s] == STAR && k <= e <= |t| && Matches(p[s..], t[k..e])
    ensures k <= d <= e && Matches(p[s + 1..], t[d..e])
  {
    var u := t[k..e];
    assert p[s..][1..] == p[s + 1..];
    var n :| 0 <= n <= |u| && Matches(p[s + 1..], u[n..]);
    d := k + n;
    assert u[n..] == t[d..e];
  }

  lemma StarSkips(p: seq<Byte>, t: seq<Byte>, s: int, k: nat, d: nat, e: nat)
    requires 0 <= s < |p| && p[s] == STAR && k <= d <= e <= |t| && Matches(p[s + 1..], t[d..e])
    ensures Matches(p[s..], t[k..e])
  {
    assert p[s..][1..] == p[s + 1..];
    assert t[k..e][d - k..] == t[d..e];
  }

  /** A failed run moves the backtracking point on by one octet. */
  lemma Backtrack(p: seq<Byte>, t: seq<Byte>, s: int, k: nat, i: nat, j: nat)
    requires Searching(p, t, s, k, i, j) && s >= 0 && i < |p| && j < |t| && p[i] != t[j] && p[i] != STAR
    ensures Searching(p, t, s, k + 1, s + 1, k + 1)
  {
    forall e
      ensures MatchesPrefix(p, t, e) <==> k + 1 <= e <= |t| && Matches(p[s..], t[k + 1..e])
    {
      ReducedAt(p, t, s, k, e);
      if k <= e <= |t| && Matches(p[s..], t[k..e]) {
        var d := LaterRun(p, t, s, k, e);
        if d == k {
          RunSplits(p, t, s, k, i, j, k, e);
          assert false;
        }
        StarSkips(p, t, s, k + 1, d, e);
      }
      if k + 1 <= e <= |t| && Matches(p[s..], t[k + 1..e]) {
        assert t[k..e][1..] == t[k + 1..e];
        StarAbsorbs(p[s..], t[k..e], 1);
      }
    }
  }

  /** No star to go back to: the pattern matches no prefix at all. */
  lemma Fail(p: seq<Byte>, t: seq<Byte>, k: nat, i: nat, j: nat)
    requires Searching(p, t, -1, k, i, j) && i < |p| && j < |t| && p[i] != t[j] && p[i] != STAR
    ensures forall e :: !MatchesPrefix(p, t, e)
  {
    forall e
      ensures !MatchesPrefix(p, t, e)
    {
      if MatchesPrefix(p, t, e) {
        assert p[0..] == p && t[0..e] == t[..e];
        RunSplits(p, t, -1, 0, i, j, 0, e);
        assert false;
      }
    }
  }

  /** Every matching prefix reaches at least as far as the search has, with the rest of the pattern after it. */
  lemma ReachesJ(p: seq<Byte>, t: seq<Byte>, s: int, k: nat, i: nat, j: nat, e: int)
    requires Searching(p, t, s, k, i, j)
    ensures MatchesPrefix(p, t, e) ==> j <= e && exists d :: j <= d <= e && Matches(p[i..], t[d..e])
    ensures j <= e <= |t| && Matches(p[i..], t[j..e]) ==> MatchesPrefix(p, t, e)
  {
    if s == -1 {
      if 0 <= e <= |t| {
        assert p[0..] == p && t[0..e] == t[..e];
        RunSplits(p, t, s, k, i, j, 0, e);
      }
    } else {
      ReducedAt(p, t, s, k, e);
      if MatchesPrefix(p, t, e) {
        var d := LaterRun(p, t, s, k, e);
        RunSplits(p, t, s, k, i, j, d, e);
        assert Matches(p[i..], t[d + (j - k)..e]);
      }
      if j <= e <= |t| && Matches(p[i..], t[j..e]) {
        RunSplits(p, t, s, k, i, j, k, e);
        StarSkips(p, t, s, k, k, e);
      }
    }
  }

  /** The first place where the pattern is used up ends the shortest matching prefix. */
  lemma Exhausted(p: seq<Byte>, t: seq<Byte>, s: int, k: nat, j: nat)
    requires Searching(p, t, s, k, |p|, j)
    ensures ShortestPrefix(p, t, j)
  {
    assert p[|p|..] == [] && t[j..j] == [];
    ReachesJ(p, t, s, k, |p|, j, j);
    forall f | MatchesPrefix(p, t, f)
      ensures j <= f
    {
      ReachesJ(p, t, s, k, |p|, j, f);
    }
  }

  /** At the end of the target only stars may be left over. */
  lemma TargetEnds(p: seq<Byte>, t: seq<Byte>, s: int, k: nat, i: nat)
    requires Searching(p, t, s, k, i, |t|)
    ensures (forall b | b in p[i..] :: b == STAR) ==> ShortestPrefix(p, t, |t|)
    ensures !(forall b | b in p[i..] :: b == STAR) ==> forall e :: !MatchesPrefix(p, t, e)
  {
    var n := |t|;
    OnlyStarsMatchEmpty(p[i..]);
    assert t[n..n] == [];
    forall e
      ensures MatchesPrefix(p, t, e) ==> e == n && Matches(p[i..], [])
      ensures e == n && Matches(p[i..], []) ==> MatchesPrefix(p, t, e)
    {
      ReachesJ(p, t, s, k, i, n, e);
    }
  }

  /** `pattern_matches`. Canonical targets hold no raw `*`, which is all the loop needs. */
  method PatternMatches(pattern: seq<Byte>, target: seq<Byte>) returns (matched: bool)
    ensures STAR !in target ==> (matched <==> CodeMatches(pattern, target))
  {
    hide Searching;
    var anchoredEnd := |pattern| > 0 && pattern[|pattern| - 1] == DOLLAR;
    var p := pattern;
    if anchoredEnd {
      p := pattern[..|pattern| - 1];
    }
    assert p == Body(pattern);
    var patternIndex, targetIndex, lastStar, starTargetIndex := 0, 0, -1, 0;
    Start(p, target);
    ghost var clean := STAR !in target;
    while targetIndex < |target|
      invariant -1 <= lastStar < patternIndex <= |p|
      invariant 0 <= starTargetIndex <= targetIndex <= |target|
      invariant lastStar >= 0 ==> p[lastStar] == STAR
      invariant clean ==> Searching(p, target, lastStar, starTargetIndex, patternIndex, targetIndex)
      decreases |target| - starTargetIndex, |p| - patternIndex
    {
      if patternIndex == |p| {
        if clean {
          Exhausted(p, target, lastStar, starTargetIndex, targetIndex);
        }
        return !anchoredEnd;
      }
      if p[patternIndex] == target[targetIndex] {
        if clean {
          assert target[targetIndex] in target;
          Advance(p, target, lastStar, starTargetIndex, patternIndex, targetIndex);
        }
        patternIndex, targetIndex := patternIndex + 1, targetIndex + 1;
      } else if p[patternIndex] == STAR {
        if clean {
          Commit(p, target, lastStar, starTargetIndex, patternIndex, targetIndex);
        }
        lastStar := patternIndex;
        patternIndex := patternIndex + 1;
        starTargetIndex := targetIndex;
      } else if lastStar >= 0 {
        if clean {
          Backtrack(p, target, lastStar, starTargetIndex, patternIndex, targetIndex);
        }
        starTargetIndex := starTargetIndex + 1;
        targetIndex := starTargetIndex;
        patternIndex := lastStar + 1;
      } else {
        if clean {
          Fail(p, target, starTargetIndex, patternIndex, targetIndex);
        }
        return false;
      }
    }
    if clean {
      TargetEnds(p, target, lastStar, starTargetIndex, patternIndex);
    }
    ghost var rest := p[patternIndex..];
    ghost var from := patternIndex;
    while patternIndex < |p| && p[patternIndex] == STAR
      invariant from <= patternIndex <= |p|
      invariant forall n | from <= n < patternIndex :: p[n] == STAR
    {
      patternIndex := patternIndex + 1;
    }
    matched := patternIndex == |p|;
    if matched {
      assert forall b | b in rest :: b == STAR;
      assert clean ==> ShortestPrefix(Body(pattern), target, |target|);
    } else {
      assert rest[patternIndex - from] == p[patternIndex];
      assert p[patternIndex] in rest;
      assert clean ==> forall e :: !MatchesPrefix(p, target, e);
    }
  }
}

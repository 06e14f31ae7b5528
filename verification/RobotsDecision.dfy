/** `decide` and `evaluate_document` of `src/crawl_policy.rs`. */
module RobotsDecision {
  import opened Octets
  import opened Text
  import opened RobotsParser
  import C = Canonical
  import M = Matcher

  /** The parts of a target URL the decision reads. */
  datatype Url = Url(path: seq<Byte>, query: Option<seq<Byte>>)

  datatype Reason = RobotsTxtImplicitlyAllowed | NoMatchingRule | AllowRule | DisallowRule | RobotsInvalidLineLimit

  datatype Decision = Decision(allowed: bool, reason: Reason, groupsTotal: nat, groupsSelected: nat,
                               selectedSpecificity: Option<nat>, rulesConsidered: nat, rulesMatched: nat,
                               matchedRule: Option<(nat, Rule)>)

  function FullPath(url: Url): seq<Byte> {
    if url.query.Some? then url.path + [63] + url.query.value else url.path
  }

  function TargetPath(url: Url): seq<Byte> { C.Normalized(FullPath(url), C.Target) }

  predicate NamesToken(g: Group, token: string) {
    exists a | a in g.userAgents :: Lower(a) == Lower(token)
  }

  predicate NamesAll(g: Group) { "*" in g.userAgents }

  function Filtered(groups: seq<Group>, keep: Group -> bool): (r: seq<Group>)
    ensures forall g :: g in r <==> g in groups && keep(g)
  {
    if groups == [] then []
    else if keep(groups[0]) then [groups[0]] + Filtered(groups[1..], keep)
    else Filtered(groups[1..], keep)
  }

  predicate AnyExact(groups: seq<Group>, token: string) {
    exists g | g in groups :: NamesToken(g, token)
  }

  /** RFC 9309, section 2.2.1: the groups that name the token, or failing those the `*` groups. */
  function Selected(groups: seq<Group>, token: string): (r: seq<Group>)
    ensures forall g :: g in r <==> g in groups && if AnyExact(groups, token) then NamesToken(g, token) else NamesAll(g)
  {
    if AnyExact(groups, token) then Filtered(groups, g => NamesToken(g, token)) else Filtered(groups, NamesAll)
  }

  // ---- ordering of the matching rules

  function Rank(d: Directive): nat { if d == Allow then 1 else 0 }

  function TextBefore(a: string, b: string): bool {
    if b == "" then false
    else if a == "" then true
    else a[0] < b[0] || (a[0] == b[0] && TextBefore(a[1..], b[1..]))
  }

  /** Most specific first, then allow, then earlier group, then pattern text. */
  predicate Before(x: (nat, Rule), y: (nat, Rule)) {
    x.1.specificity > y.1.specificity
    || (x.1.specificity == y.1.specificity
        && (Rank(x.1.directive) > Rank(y.1.directive)
            || (x.1.directive == y.1.directive
                && (x.0 < y.0 || (x.0 == y.0 && TextBefore(x.1.pattern, y.1.pattern))))))
  }

  lemma {:induction false} TextBeforeTransitive(a: string, b: string, c: string)
    ensures !TextBefore(a, a)
    ensures TextBefore(a, b) ==> !TextBefore(b, a)
    ensures TextBefore(a, b) && TextBefore(b, c) ==> TextBefore(a, c)
    ensures !TextBefore(a, b) && !TextBefore(b, c) ==> !TextBefore(a, c)
    decreases |a|
  {
    if a != "" {
      TextBeforeTransitive(a[1..], if b == "" then "" else b[1..], if c == "" then "" else c[1..]);
    }
  }

  lemma BeforeIsOrder(x: (nat, Rule), y: (nat, Rule), z: (nat, Rule))
    ensures !Before(x, x)
    ensures Before(x, y) ==> !Before(y, x)
    ensures !Before(x, y) && !Before(y, z) ==> !Before(x, z)
  {
    TextBeforeTransitive(x.1.pattern, y.1.pattern, z.1.pattern);
  }

  ghost predicate Sorted(s: seq<(nat, Rule)>) {
    forall i, j | 0 <= i < j < |s| :: !Before(s[j], s[i])
  }

  /** A stable sort by insertion, standing in for the library's. */
  method SortMatching(matching: seq<(nat, Rule)>) returns (sorted: seq<(nat, Rule)>)
    ensures Sorted(sorted) && multiset(sorted) == multiset(matching)
  {
    sorted := [];
    for n := 0 to |matching|
      invariant Sorted(sorted) && multiset(sorted) == multiset(matching[..n])
    {
      var x := matching[n];
      var at := 0;
      while at < |sorted| && !Before(x, sorted[at])
        invariant at <= |sorted| && forall i | 0 <= i < at :: !Before(x, sorted[i])
      {
        at := at + 1;
      }
      assert matching[..n + 1] == matching[..n] + [x];
      assert sorted == sorted[..at] + sorted[at..];
      InsertKeepsSorted(sorted, x, at);
      sorted := sorted[..at] + [x] + sorted[at..];
    }
    assert matching[..|matching|] == matching;
  }

  lemma InsertKeepsSorted(s: seq<(nat, Rule)>, x: (nat, Rule), at: nat)
    requires Sorted(s) && at <= |s|
    requires forall i | 0 <= i < at :: !Before(x, s[i])
    requires at < |s| ==> Before(x, s[at])
    ensures Sorted(s[..at] + [x] + s[at..])
  {
    var r := s[..at] + [x] + s[at..];
    forall i, j | 0 <= i < j < |r|
      ensures !Before(r[j], r[i])
    {
      if i == at {
        BeforeIsOrder(x, s[at], x);
        BeforeIsOrder(s[j - 1], s[at], x);
      }
    }
  }

  // ---- the meaning of a decision

  /** `r` is a rule of a selected group. */
  ghost predicate InForce(groups: seq<Group>, token: string, r: Rule) {
    exists g | g in Selected(groups, token) :: r in g.rules
  }

  /** `r` is in force and its pattern accepts the path. */
  ghost predicate Applies(groups: seq<Group>, token: string, path: seq<Byte>, r: Rule) {
    InForce(groups, token, r) && M.CodeMatches(r.normalized, path)
  }

  /** Nothing applies, or some allow rule is at least as specific as every disallow rule that applies. */
  ghost predicate Permitted(groups: seq<Group>, token: string, path: seq<Byte>) {
    || (forall r :: !Applies(groups, token, path, r))
    || exists a :: OutranksAll(groups, token, path, a)
  }

  ghost predicate OutranksAll(groups: seq<Group>, token: string, path: seq<Byte>, a: Rule) {
    && a.directive == Allow && Applies(groups, token, path, a)
    && forall d: Rule :: d.directive == Disallow && Applies(groups, token, path, d) ==> d.specificity <= a.specificity
  }

  /** The rules that match, in file order, each with the index of its group. */
  ghost function RulesHit(rules: seq<Rule>, index: nat, path: seq<Byte>): seq<(nat, Rule)> {
    if rules == [] then []
    else
      var last := rules[|rules| - 1];
      RulesHit(rules[..|rules| - 1], index, path) + if M.CodeMatches(last.normalized, path) then [(index, last)] else []
  }

  ghost function Hits(groups: seq<Group>, path: seq<Byte>): seq<(nat, Rule)> {
    if groups == [] then []
    else
      var last := groups[|groups| - 1];
      Hits(groups[..|groups| - 1], path) + RulesHit(last.rules, last.index, path)
  }

  lemma {:induction false} RulesHitHas(rules: seq<Rule>, index: nat, path: seq<Byte>, m: (nat, Rule))
    ensures m in RulesHit(rules, index, path) <==> m.0 == index && m.1 in rules && M.CodeMatches(m.1.normalized, path)
    ensures |RulesHit(rules, index, path)| <= |rules|
  {
    if rules != [] {
      RulesHitHas(rules[..|rules| - 1], index, path, m);
      assert rules == rules[..|rules| - 1] + [rules[|rules| - 1]];
    }
  }

  lemma {:induction false} HitsHave(groups: seq<Group>, path: seq<Byte>, m: (nat, Rule))
    ensures m in Hits(groups, path) <==>
              M.CodeMatches(m.1.normalized, path) && exists g | g in groups :: g.index == m.0 && m.1 in g.rules
  {
    if groups != [] {
      var last := groups[|groups| - 1];
      HitsHave(groups[..|groups| - 1], path, m);
      RulesHitHas(last.rules, last.index, path, m);
      assert groups == groups[..|groups| - 1] + [last];
    }
  }

  function RuleCount(groups: seq<Group>): nat {
    if groups == [] then 0 else |groups[0].rules| + RuleCount(groups[1..])
  }

  lemma {:induction false} RuleCountAppend(groups: seq<Group>, g: Group)
    ensures RuleCount(groups + [g]) == RuleCount(groups) + |g.rules|
  {
    if groups == [] {
      assert groups + [g] == [g];
    } else {
      RuleCountAppend(groups[1..], g);
      assert (groups + [g])[1..] == groups[1..] + [g];
    }
  }

  method CollectMatching(selected: seq<Group>, path: seq<Byte>)
    returns (matching: seq<(nat, Rule)>, considered: nat)
    requires STAR !in path
    ensures matching == Hits(selected, path) && considered == RuleCount(selected)
  {
    matching, considered := [], 0;
    for g := 0 to |selected|
      invariant matching == Hits(selected[..g], path)
      invariant considered == RuleCount(selected[..g])
    {
      var group := selected[g];
      for k := 0 to |group.rules|
        invariant matching == Hits(selected[..g], path) + RulesHit(group.rules[..k], group.index, path)
        invariant considered == RuleCount(selected[..g]) + k
      {
        var rule := group.rules[k];
        considered := considered + 1;
        var hit := M.PatternMatches(rule.normalized, path);
        if hit {
          matching := matching + [(group.index, rule)];
        }
        assert group.rules[..k + 1][..k] == group.rules[..k];
      }
      assert group.rules[..|group.rules|] == group.rules;
      assert selected[..g + 1][..g] == selected[..g];
      assert selected[..g + 1] == selected[..g] + [group];
      RuleCountAppend(selected[..g], group);
    }
    assert selected[..|selected|] == selected;
  }

  lemma AppliesIsHit(groups: seq<Group>, token: string, path: seq<Byte>, r: Rule)
    ensures Applies(groups, token, path, r) <==> exists m :: m in Hits(Selected(groups, token), path) && m.1 == r
  {
    var selected := Selected(groups, token);
    if Applies(groups, token, path, r) {
      var g :| g in selected && r in g.rules;
      HitsHave(selected, path, (g.index, r));
      assert (g.index, r) in Hits(selected, path);
    }
    if m :| m in Hits(selected, path) && m.1 == r {
      HitsHave(selected, path, m);
    }
  }

  /** `top` heads the stable sort of the rules that apply. */
  ghost predicate Heads(top: (nat, Rule), matching: seq<(nat, Rule)>) {
    top in matching && forall m | m in matching :: !Before(m, top)
  }

  /** The text comes first at some place, where the other has a greater character or ends it not yet. */
  predicate LessAt(a: string, b: string, i: nat) {
    i <= |a| && i < |b| && a[..i] == b[..i] && (i < |a| ==> a[i] < b[i])
  }

  lemma {:induction false} TextBeforeIff(a: string, b: string)
    ensures TextBefore(a, b) <==> exists i: nat :: LessAt(a, b, i)
  {
    if b != "" {
      if a == "" {
        assert LessAt(a, b, 0);
      } else if a[0] == b[0] {
        TextBeforeIff(a[1..], b[1..]);
        forall i: nat
          ensures LessAt(a[1..], b[1..], i) <==> LessAt(a, b, i + 1)
        {
          LessMovesUp(a, b, i);
        }
        if i: nat :| LessAt(a, b, i) {
          assert i > 0 && LessAt(a[1..], b[1..], i - 1);
        }
        if i: nat :| LessAt(a[1..], b[1..], i) {
          assert LessAt(a, b, i + 1);
        }
      } else {
        assert TextBefore(a, b) ==> LessAt(a, b, 0);
        forall i: nat
          ensures LessAt(a, b, i) ==> i == 0
        {
          assert i > 0 && i <= |a| && i < |b| ==> a[..i][0] == a[0] && b[..i][0] == b[0];
        }
      }
    }
  }

  lemma LessMovesUp(a: string, b: string, i: nat)
    requires a != "" && b != "" && a[0] == b[0]
    ensures LessAt(a[1..], b[1..], i) <==> LessAt(a, b, i + 1)
  {
    if i + 1 <= |a| && i + 1 < |b| {
      assert a[..i + 1] == [a[0]] + a[1..][..i] && b[..i + 1] == [b[0]] + b[1..][..i];
      assert a[..i + 1] == b[..i + 1] ==> a[1..][..i] == a[..i + 1][1..] == b[..i + 1][1..] == b[1..][..i];
    }
  }

  /** The rule that is named in the report is a most specific one of those that match, of these an allow rule if there
    * is one, of these in the earliest group, and of these the least as a text. */
  lemma HeadIsNamed(top: (nat, Rule), matching: seq<(nat, Rule)>, m: (nat, Rule))
    requires Heads(top, matching) && m in matching
    ensures m.1.specificity <= top.1.specificity
    ensures m.1.specificity == top.1.specificity && m.1.directive == Allow ==> top.1.directive == Allow
    ensures m.1.specificity == top.1.specificity && m.1.directive == top.1.directive ==>
              top.0 <= m.0 && (top.0 == m.0 ==> !exists i: nat :: LessAt(m.1.pattern, top.1.pattern, i))
  {
    TextBeforeIff(m.1.pattern, top.1.pattern);
  }

  lemma SortedHeads(sorted: seq<(nat, Rule)>, matching: seq<(nat, Rule)>)
    requires Sorted(sorted) && sorted != [] && multiset(sorted) == multiset(matching)
    ensures Heads(sorted[0], matching)
  {
    assert sorted[0] in multiset(sorted);
    forall m | m in matching
      ensures !Before(m, sorted[0])
    {
      assert m in multiset(matching);
      BeforeIsOrder(m, m, m);
    }
  }

  /** The head of the sorted rules decides as the declarative reading does. */
  lemma HeadDecides(groups: seq<Group>, token: string, path: seq<Byte>, top: (nat, Rule))
    requires Heads(top, Hits(Selected(groups, token), path))
    ensures Permitted(groups, token, path) <==> top.1.directive == Allow
    ensures Applies(groups, token, path, top.1)
  {
    forall r
      ensures Applies(groups, token, path, r) <==> exists m :: m in Hits(Selected(groups, token), path) && m.1 == r
    {
      AppliesIsHit(groups, token, path, r);
    }
    forall r: Rule | Applies(groups, token, path, r)
      ensures r.specificity <= top.1.specificity
      ensures r.directive == Allow && r.specificity == top.1.specificity ==> top.1.directive == Allow
    {
      var m :| m in Hits(Selected(groups, token), path) && m.1 == r;
      assert !Before(m, top);
    }
    assert Applies(groups, token, path, top.1);
    if top.1.directive == Allow {
      assert OutranksAll(groups, token, path, top.1);
    } else {
      forall a
        ensures !OutranksAll(groups, token, path, a)
      {
        assert a.directive == Allow && Applies(groups, token, path, a) ==> a.specificity < top.1.specificity;
      }
    }
  }

  lemma NothingHits(groups: seq<Group>, token: string, path: seq<Byte>)
    requires Hits(Selected(groups, token), path) == []
    ensures forall r :: !Applies(groups, token, path, r)
  {
    forall r
      ensures !Applies(groups, token, path, r)
    {
      AppliesIsHit(groups, token, path, r);
    }
  }

  /** `decide`. */
  method Decide(url: Url, productToken: string, groups: seq<Group>) returns (d: Decision)
    ensures url.path == ROBOTS_TXT ==>
              d == Decision(true, RobotsTxtImplicitlyAllowed, |groups|, 0, None, 0, 0, None)
    ensures url.path != ROBOTS_TXT ==>
              var hits := Hits(Selected(groups, productToken), TargetPath(url));
              && (d.allowed <==> Permitted(groups, productToken, TargetPath(url)))
              && (if hits == [] then d.matchedRule.None?
                  else d.matchedRule.Some? && Heads(d.matchedRule.value, hits))
              && (d.reason == if hits == [] then NoMatchingRule else if d.allowed then AllowRule else DisallowRule)
              && d.groupsSelected == |Selected(groups, productToken)|
              && d.rulesConsidered == RuleCount(Selected(groups, productToken))
              && d.rulesMatched == |hits|
    ensures d.groupsTotal == |groups|
    ensures url.path != ROBOTS_TXT ==>
              d.selectedSpecificity == if AnyExact(groups, productToken) then Some(|productToken|)
                                       else if Selected(groups, productToken) == [] then None else Some(0)
  {
    if url.path == ROBOTS_TXT {
      return Decision(true, RobotsTxtImplicitlyAllowed, |groups|, 0, None, 0, 0, None);
    }
    var exact := Filtered(groups, g => NamesToken(g, productToken));
    var selected, best;
    if exact == [] {
      selected := Filtered(groups, NamesAll);
      best := if selected == [] then None else Some(0);
    } else {
      assert exact[0] in exact;
      selected := exact;
      best := Some(|productToken|);
    }
    assert AnyExact(groups, productToken) <==> exact != [] by {
      if AnyExact(groups, productToken) {
        var g :| g in groups && NamesToken(g, productToken);
        assert g in exact;
      }
    }
    assert selected == Selected(groups, productToken);
    var path := C.NormalizePath(FullPath(url), C.Target);
    C.TargetHasNoTokens(FullPath(url));
    var matching, considered := CollectMatching(selected, path);
    var sorted := SortMatching(matching);
    assert |sorted| == |multiset(sorted)| == |multiset(matching)| == |matching|;
    var matched := if sorted == [] then None else Some(sorted[0]);
    if matched.Some? {
      SortedHeads(sorted, matching);
      HeadDecides(groups, productToken, path, sorted[0]);
    } else {
      NothingHits(groups, productToken, path);
    }
    var allowed := matched.None? || matched.value.1.directive == Allow;
    var reason := if matched.None? then NoMatchingRule else if allowed then AllowRule else DisallowRule;
    d := Decision(allowed, reason, |groups|, |selected|, best, considered, |matching|, matched);
  }

  /** The verdict the whole evaluator gives for a fetched file. */
  ghost predicate Verdict(text: string, url: Url, token: string) {
    && Parsed(text).1.linesOverLimit == 0
    && (url.path == ROBOTS_TXT || Permitted(Parsed(text).0, token, TargetPath(url)))
  }

  /** `evaluate_document`: an over-long line turns any decision into a refusal without a rule. */
  method EvaluateDocument(text: string, url: Url, token: string) returns (d: Decision)
    ensures d.allowed <==> Verdict(text, url, token)
    ensures Parsed(text).1.linesOverLimit > 0 ==> d.reason == RobotsInvalidLineLimit && d.matchedRule.None?
  {
    var groups, report := ParseRobots(text);
    d := Decide(url, token, groups);
    if report.linesOverLimit > 0 {
      d := d.(allowed := false, reason := RobotsInvalidLineLimit, matchedRule := None);
    }
  }
}

/** Laws of the whole robots engine: what a verdict depends on. */
module RobotsLaws {
  import opened Octets
  import opened Text
  import opened RobotsParser
  import opened RobotsParserLaws
  import opened RobotsRoundTrip
  import opened RobotsDecision
  import M = Matcher

  // ---- the verdict depends on the rules in force and on nothing else

  lemma SameRulesSameVerdict(g: seq<Group>, h: seq<Group>, token: string, path: seq<Byte>)
    requires forall r :: InForce(g, token, r) <==> InForce(h, token, r)
    ensures Permitted(g, token, path) <==> Permitted(h, token, path)
  {
    assert forall r :: Applies(g, token, path, r) <==> Applies(h, token, path, r);
    assert forall a :: OutranksAll(g, token, path, a) <==> OutranksAll(h, token, path, a);
  }

  /** Two groups agree when they have the same agents and rules, in any order and with any repetitions. */
  ghost predicate SameContent(g: Group, h: Group) {
    && (forall a :: a in g.userAgents <==> a in h.userAgents)
    && (forall r :: r in g.rules <==> r in h.rules)
  }

  ghost predicate Covered(gs: seq<Group>, hs: seq<Group>) {
    forall g | g in gs :: exists h | h in hs :: SameContent(g, h)
  }

  lemma SameContentNames(g: Group, h: Group, token: string)
    requires SameContent(g, h)
    ensures NamesToken(g, token) <==> NamesToken(h, token)
    ensures NamesAll(g) <==> NamesAll(h)
  {
  }

  lemma CoveredAnyExact(gs: seq<Group>, hs: seq<Group>, token: string)
    requires Covered(gs, hs) && AnyExact(gs, token)
    ensures AnyExact(hs, token)
  {
    var g :| g in gs && NamesToken(g, token);
    var h :| h in hs && SameContent(g, h);
    SameContentNames(g, h, token);
  }

  lemma CoveredInForce(gs: seq<Group>, hs: seq<Group>, token: string, r: Rule)
    requires Covered(gs, hs) && (AnyExact(gs, token) <==> AnyExact(hs, token)) && InForce(gs, token, r)
    ensures InForce(hs, token, r)
  {
    var g :| g in Selected(gs, token) && r in g.rules;
    var h :| h in hs && SameContent(g, h);
    SameContentNames(g, h, token);
    assert h in Selected(hs, token);
  }

  lemma CoveredBothWays(gs: seq<Group>, hs: seq<Group>, token: string, r: Rule)
    requires Covered(gs, hs) && Covered(hs, gs)
    ensures InForce(gs, token, r) <==> InForce(hs, token, r)
  {
    if AnyExact(gs, token) { CoveredAnyExact(gs, hs, token); }
    if AnyExact(hs, token) { CoveredAnyExact(hs, gs, token); }
    if InForce(gs, token, r) { CoveredInForce(gs, hs, token, r); }
    if InForce(hs, token, r) { CoveredInForce(hs, gs, token, r); }
  }

  /** Reordering or repeating groups, agents and rules never changes a verdict. */
  lemma OrderDoesNotMatter(gs: seq<Group>, hs: seq<Group>, token: string, path: seq<Byte>)
    requires Covered(gs, hs) && Covered(hs, gs)
    ensures Permitted(gs, token, path) <==> Permitted(hs, token, path)
  {
    forall r
      ensures InForce(gs, token, r) <==> InForce(hs, token, r)
    {
      CoveredBothWays(gs, hs, token, r);
    }
    SameRulesSameVerdict(gs, hs, token, path);
  }

  ghost predicate SameAgents(g: Group, h: Group) {
    forall a :: a in g.userAgents <==> a in h.userAgents
  }

  lemma SelectedByContent(gs: seq<Group>, token: string, r: Rule)
    ensures InForce(gs, token, r) <==>
              exists g | g in gs :: r in g.rules && if AnyExact(gs, token) then NamesToken(g, token) else NamesAll(g)
  {
  }

  /** Groups for the same agents can be split and merged anywhere in the file. */
  lemma SplittingDoesNotMatter(x: seq<Group>, g1: Group, y: seq<Group>, g2: Group, z: seq<Group>, merged: Group,
                               token: string, path: seq<Byte>)
    requires SameAgents(g1, g2) && SameAgents(g1, merged)
    requires forall r :: r in merged.rules <==> r in g1.rules || r in g2.rules
    ensures Permitted(x + [g1] + y + [g2] + z, token, path) <==> Permitted(x + [merged] + y + z, token, path)
  {
    var gs, hs := x + [g1] + y + [g2] + z, x + [merged] + y + z;
    assert forall g :: g in gs <==> g in x || g == g1 || g in y || g == g2 || g in z;
    assert forall g :: g in hs <==> g in x || g == merged || g in y || g in z;
    assert NamesToken(g1, token) <==> NamesToken(merged, token);
    assert NamesToken(g2, token) <==> NamesToken(merged, token);
    assert AnyExact(gs, token) <==> AnyExact(hs, token);
    forall r
      ensures InForce(gs, token, r) <==> InForce(hs, token, r)
    {
      SplitInForce(gs, hs, g1, g2, merged, token, r);
    }
    SameRulesSameVerdict(gs, hs, token, path);
  }

  lemma SplitInForce(gs: seq<Group>, hs: seq<Group>, g1: Group, g2: Group, merged: Group, token: string, r: Rule)
    requires SameAgents(g1, g2) && SameAgents(g1, merged)
    requires forall r :: r in merged.rules <==> r in g1.rules || r in g2.rules
    requires g1 in gs && g2 in gs && merged in hs
    requires forall g | g != g1 && g != g2 && g != merged :: g in gs <==> g in hs
    requires forall g | g in gs :: g in hs || g == g1 || g == g2
    requires forall g | g in hs :: g in gs || g == merged
    requires AnyExact(gs, token) <==> AnyExact(hs, token)
    ensures InForce(gs, token, r) <==> InForce(hs, token, r)
  {
    assert NamesToken(g1, token) <==> NamesToken(merged, token);
    assert NamesToken(g2, token) <==> NamesToken(merged, token);
    if InForce(gs, token, r) {
      var g :| g in Selected(gs, token) && r in g.rules;
      var h := if g == g1 || g == g2 then merged else g;
      assert h in Selected(hs, token);
    }
    if InForce(hs, token, r) {
      var h :| h in Selected(hs, token) && r in h.rules;
      var g := if h == merged then (if r in g1.rules then g1 else g2) else h;
      assert g in Selected(gs, token);
    }
  }

  /** Once a group names the token, no group that does not name it has any say. */
  lemma ExactMasksOthers(gs: seq<Group>, hs: seq<Group>, token: string, path: seq<Byte>)
    requires AnyExact(gs, token)
    requires forall g | NamesToken(g, token) :: g in gs <==> g in hs
    ensures Permitted(gs, token, path) <==> Permitted(hs, token, path)
  {
    assert AnyExact(hs, token);
    forall r
      ensures InForce(gs, token, r) <==> InForce(hs, token, r)
    {
      SelectedByContent(gs, token, r);
      SelectedByContent(hs, token, r);
    }
    SameRulesSameVerdict(gs, hs, token, path);
  }

  // ---- printed files

  ghost predicate SameSource(g: SourceGroup, h: SourceGroup) {
    && (forall a :: a in g.agents <==> a in h.agents)
    && (forall r :: r in g.rules <==> r in h.rules)
  }

  ghost predicate SourceCovered(gs: seq<SourceGroup>, hs: seq<SourceGroup>) {
    forall g | g in gs :: exists h | h in hs :: SameSource(g, h)
  }

  /** Reordering the groups of a printed file, or the rules and agents inside them, keeps every verdict. */
  lemma PrintedOrderDoesNotMatter(gs: seq<SourceGroup>, hs: seq<SourceGroup>, token: string, path: seq<Byte>)
    requires PrintableGroups(gs) && PrintableGroups(hs)
    requires SourceCovered(gs, hs) && SourceCovered(hs, gs)
    ensures Permitted(Parsed(Printed(gs)).0, token, path) <==> Permitted(Parsed(Printed(hs)).0, token, path)
  {
    ParseUndoesPrint(gs);
    ParseUndoesPrint(hs);
    BuiltCovered(gs, hs);
    BuiltCovered(hs, gs);
    OrderDoesNotMatter(BuiltAll(gs), BuiltAll(hs), token, path);
  }

  lemma BuiltHolds(g: SourceGroup, h: SourceGroup)
    requires SameSource(g, h)
    ensures forall a | a in BuiltAgents(g.agents) :: a in BuiltAgents(h.agents)
    ensures forall r | r in BuiltRules(g.rules) :: r in BuiltRules(h.rules)
  {
    forall a | a in BuiltAgents(g.agents)
      ensures a in BuiltAgents(h.agents)
    {
      var i :| 0 <= i < |g.agents| && BuiltAgents(g.agents)[i] == a;
      assert g.agents[i] in h.agents;
      var j :| 0 <= j < |h.agents| && h.agents[j] == g.agents[i];
      assert BuiltAgents(h.agents)[j] == a;
    }
    forall r | r in BuiltRules(g.rules)
      ensures r in BuiltRules(h.rules)
    {
      var i :| 0 <= i < |g.rules| && BuiltRules(g.rules)[i] == r;
      assert g.rules[i] in h.rules;
      var j :| 0 <= j < |h.rules| && h.rules[j] == g.rules[i];
      assert BuiltRules(h.rules)[j] == r;
    }
  }

  lemma BuiltCovered(gs: seq<SourceGroup>, hs: seq<SourceGroup>)
    requires SourceCovered(gs, hs)
    ensures Covered(BuiltAll(gs), BuiltAll(hs))
  {
    hide MakeRule, Bound;
    forall g | g in BuiltAll(gs)
      ensures exists h | h in BuiltAll(hs) :: SameContent(g, h)
    {
      var i :| 0 <= i < |gs| && BuiltAll(gs)[i] == g;
      assert gs[i] in gs;
      var source :| source in hs && SameSource(gs[i], source);
      var j :| 0 <= j < |hs| && hs[j] == source;
      assert BuiltAll(hs)[j] in BuiltAll(hs);
      BuiltHolds(gs[i], source);
      BuiltHolds(source, gs[i]);
      assert SameContent(g, BuiltAll(hs)[j]);
    }
  }
}

/** Laws of the robots parser: what holds after every input, and a printer that parsing undoes. */
module RobotsParserLaws {
  import opened Octets
  import opened Text
  import opened RobotsParser
  import C = Canonical

  function RulesIn(groups: seq<Group>): nat {
    if groups == [] then 0 else |groups[0].rules| + RulesIn(groups[1..])
  }

  function AdvisoriesIn(groups: seq<Group>): nat {
    if groups == [] then 0 else |groups[0].advisories| + AdvisoriesIn(groups[1..])
  }

  lemma {:induction false} SumsAppend(groups: seq<Group>, g: Group)
    ensures RulesIn(groups + [g]) == RulesIn(groups) + |g.rules|
    ensures AdvisoriesIn(groups + [g]) == AdvisoriesIn(groups) + |g.advisories|
  {
    if groups == [] {
      assert groups + [g] == [g];
    } else {
      SumsAppend(groups[1..], g);
      assert (groups + [g])[1..] == groups[1..] + [g];
    }
  }

  /** A stored rule holds a canonical pattern and its octet count. */
  ghost predicate RuleOk(r: Rule) {
    && C.IsCanonical(r.normalized, C.Pattern)
    && r.specificity == C.Specificity(r.normalized)
    && ByteLength(r.pattern) <= MAX_RULE_DIAGNOSTIC_BYTES
    && (!r.patternTruncated ==> r.patternBytes == ByteLength(r.pattern))
    && (r.patternTruncated <==> r.patternBytes > MAX_RULE_DIAGNOSTIC_BYTES)
  }

  ghost predicate GroupOk(g: Group, index: nat) {
    && g.index == index && g.userAgents != []
    && (forall a | a in g.userAgents :: ByteLength(a) <= MAX_AGENT_BYTES)
    && forall r | r in g.rules :: RuleOk(r)
  }

  /** Group `i` has index `i`, an agent, and unless it is the last one, a rule. */
  ghost predicate GroupsOk(groups: seq<Group>) {
    && (forall i | 0 <= i < |groups| :: GroupOk(groups[i], i))
    && forall i | 0 <= i < |groups| - 1 :: groups[i].rules != []
  }

  ghost predicate CountersOk(r: Report) {
    && r.linesSeen == r.linesParsed + r.linesIgnored
    && r.linesOverLimit + r.rulesOmittedAtLimit <= r.linesIgnored
    && r.rulesRetained + r.rulesOmittedAtLimit + r.emptyDisallowRulesIgnored <= r.rulesSeen
    && r.rulesRetained <= MAX_RULES
    && (r.rulesOmittedAtLimit > 0 ==> r.rulesRetained == MAX_RULES)
  }

  function AllGroups(st: State): seq<Group> {
    if st.current.Some? then st.groups + [st.current.value] else st.groups
  }

  ghost predicate StateOk(st: State) {
    && GroupsOk(AllGroups(st))
    && (forall g | g in st.groups :: g.rules != [])
    && CountersOk(st.report)
    && RulesIn(AllGroups(st)) == st.report.rulesRetained
    && AdvisoriesIn(AllGroups(st)) == st.advisoriesRetained <= MAX_ADVISORIES
    && (st.current.None? ==> st.groups == [])
  }

  lemma MadeRuleIsOk(directive: Directive, value: string)
    ensures RuleOk(MakeRule(directive, value))
  {
    C.CanonicalIffFixed(Utf8(value), C.Pattern);
  }

  /** Replacing the open group keeps the groups well formed. */
  lemma ReplaceCurrent(st: State, g: Group)
    requires StateOk(st) && st.current.Some? && GroupOk(g, |st.groups|)
    ensures GroupsOk(st.groups + [g])
    ensures RulesIn(st.groups + [g]) == st.report.rulesRetained - |st.current.value.rules| + |g.rules|
    ensures AdvisoriesIn(st.groups + [g])
         == st.advisoriesRetained - |st.current.value.advisories| + |g.advisories|
    ensures GroupOk(st.current.value, |st.groups|)
  {
    SumsAppend(st.groups, st.current.value);
    SumsAppend(st.groups, g);
    var all := AllGroups(st);
    assert GroupOk(all[|st.groups|], |st.groups|);
    forall i | 0 <= i < |st.groups|
      ensures GroupOk((st.groups + [g])[i], i) && (st.groups + [g])[i].rules != []
    {
      assert GroupOk(all[i], i);
    }
  }

  lemma AgentJoins(st: State, agent: string)
    requires StateOk(st) && st.current.Some? && st.current.value.rules == []
    ensures StateOk(Seen(AddAgent(st, agent), true))
  {
    assert GroupOk(AllGroups(st)[|st.groups|], |st.groups|);
    ReplaceCurrent(st, AddAgent(st, agent).current.value);
  }

  /** A first agent after complete groups keeps everything well formed. */
  lemma AgentOpens(st: State, agent: string)
    requires StateOk(st) && (st.current.Some? ==> st.current.value.rules != [])
    ensures StateOk(Seen(AddAgent(st, agent), true))
  {
    var next := AddAgent(st, agent);
    assert next.groups == AllGroups(st);
    SumsAppend(next.groups, next.current.value);
    assert GroupOk(next.current.value, |next.groups|);
  }

  lemma AgentKeepsOk(st: State, agent: string)
    requires StateOk(st)
    ensures StateOk(Seen(AddAgent(st, agent), true))
  {
    if st.current.Some? && st.current.value.rules == [] {
      AgentJoins(st, agent);
    } else {
      AgentOpens(st, agent);
    }
  }

  lemma RuleKeepsOk(st: State, directive: Directive, value: string)
    requires StateOk(st) && st.current.Some?
    ensures StateOk(AddRule(st, st.current.value, directive, value))
  {
    var c := st.current.value;
    assert GroupOk(AllGroups(st)[|st.groups|], |st.groups|);
    if value != "" && st.report.rulesRetained < MAX_RULES {
      MadeRuleIsOk(directive, value);
      ReplaceCurrent(st, c.(rules := c.rules + [MakeRule(directive, value)]));
    }
  }

  lemma StepKeepsOk(st: State, line: Line)
    requires StateOk(st)
    ensures StateOk(Step(st, line))
    ensures Step(st, line).report.linesSeen == st.report.linesSeen + 1
  {
    match line
    case Agent(agent) => AgentKeepsOk(st, agent);
    case RuleLine(directive, value) =>
      if st.current.Some? {
        RuleKeepsOk(st, directive, value);
      }
    case Other(name, value) =>
      if st.current.Some? {
        var c := st.current.value;
        assert GroupOk(AllGroups(st)[|st.groups|], |st.groups|);
        if st.advisoriesRetained < MAX_ADVISORIES {
          ReplaceCurrent(st, c.(advisories := c.advisories + [(Bound(name, 128), Bound(value, 512))]));
        }
      }
    case OverLimit =>
    case Ignored =>
  }

  lemma {:induction false} AfterIsOk(replacements: nat, lines: seq<string>, n: nat)
    requires n <= |lines|
    ensures StateOk(After(Initial(replacements), lines, n))
    ensures After(Initial(replacements), lines, n).report.linesSeen == n
  {
    hide Step, Classify;
    if n > 0 {
      AfterIsOk(replacements, lines, n - 1);
      StepKeepsOk(After(Initial(replacements), lines, n - 1), Classify(lines[n - 1], n == 1));
    }
  }

  /** What holds of the groups and counters for every input. */
  lemma ParsedIsOk(text: string)
    ensures GroupsOk(Parsed(text).0) && CountersOk(Parsed(text).1)
    ensures Parsed(text).1.linesSeen == |Lines(text)|
    ensures RulesIn(Parsed(text).0) == Parsed(text).1.rulesRetained
    ensures AdvisoriesIn(Parsed(text).0) <= MAX_ADVISORIES
    ensures Parsed(text).1.groupsSeen == |Parsed(text).0|
  {
    AfterIsOk(Replacements(text), Lines(text), |Lines(text)|);
  }

  // ---- printing

  datatype SourceRule = SourceRule(directive: Directive, value: string)

  datatype SourceGroup = SourceGroup(agents: seq<string>, rules: seq<SourceRule>)

  function RuleText(r: SourceRule): string {
    (if r.directive == Allow then "Allow: " else "Disallow: ") + r.value
  }

  function AgentText(a: string): string { "User-agent: " + a }

  function GroupLines(g: SourceGroup): seq<string> {
    seq(|g.agents|, i requires 0 <= i < |g.agents| => AgentText(g.agents[i]))
    + seq(|g.rules|, i requires 0 <= i < |g.rules| => RuleText(g.rules[i]))
  }

  function AllLines(gs: seq<SourceGroup>): seq<string> {
    if gs == [] then [] else GroupLines(gs[0]) + AllLines(gs[1..])
  }

  function Printed(gs: seq<SourceGroup>): string { Joined(AllLines(gs), "\n") }

  predicate PlainValue(v: string) { v != "" && Trimmed(v) && '#' !in v && '\n' !in v }

  predicate Printable(g: SourceGroup) {
    && g.agents != []
    && (forall a | a in g.agents :: ValidAgent(a) && ByteLength(AgentText(a)) <= MAX_LINE_BYTES)
    && forall r | r in g.rules :: PlainValue(r.value) && ByteLength(RuleText(r)) <= MAX_LINE_BYTES
  }

  function SourceRules(gs: seq<SourceGroup>): nat {
    if gs == [] then 0 else |gs[0].rules| + SourceRules(gs[1..])
  }

  predicate PrintableGroups(gs: seq<SourceGroup>) {
    && (forall g | g in gs :: Printable(g))
    && (forall i | 0 <= i < |gs| - 1 :: gs[i].rules != [])
    && SourceRules(gs) <= MAX_RULES
  }

  function BuiltRules(rules: seq<SourceRule>): seq<Rule> {
    seq(|rules|, i requires 0 <= i < |rules| => MakeRule(rules[i].directive, rules[i].value))
  }

  function BuiltAgents(agents: seq<string>): seq<string> {
    seq(|agents|, i requires 0 <= i < |agents| => Bound(agents[i], MAX_AGENT_BYTES))
  }

  /** The group that the source group describes. */
  function Built(g: SourceGroup, index: nat): Group {
    Group(index, BuiltAgents(g.agents), BuiltRules(g.rules), [])
  }

  function BuiltAll(gs: seq<SourceGroup>): seq<Group> {
    seq(|gs|, i requires 0 <= i < |gs| => Built(gs[i], i))
  }
}

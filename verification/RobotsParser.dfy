/** `parse_robots` of `src/crawl_policy.rs`: a line-driven parser that fills groups and keeps counters. */
module RobotsParser {
  import opened Octets
  import opened Text
  import C = Canonical

  const MAX_LINE_BYTES := 500 * 1024
  const MAX_RULE_DIAGNOSTIC_BYTES := 8 * 1024
  const MAX_RULES := 65536
  const MAX_ADVISORIES := 32
  const MAX_AGENT_BYTES := 256

  datatype Directive = Allow | Disallow

  datatype Rule = Rule(directive: Directive, pattern: string, patternBytes: nat, patternTruncated: bool,
                       normalized: seq<Byte>, specificity: nat)

  datatype Group = Group(index: nat, userAgents: seq<string>, rules: seq<Rule>, advisories: seq<(string, string)>)

  datatype Report = Report(linesSeen: nat, linesParsed: nat, linesIgnored: nat, linesOverLimit: nat,
                           invalidUtf8Replacements: nat, groupsSeen: nat, rulesSeen: nat, rulesRetained: nat,
                           rulesOmittedAtLimit: nat, emptyDisallowRulesIgnored: nat)

  // ---- what one line says

  datatype Line = OverLimit | Ignored | Agent(agent: string) | RuleLine(directive: Directive, value: string)
                | Other(name: string, value: string)

  predicate AgentChar(c: char) { 'a' <= c <= 'z' || 'A' <= c <= 'Z' || c == '-' || c == '_' }

  predicate ValidAgent(a: string) { a == "*" || (a != "" && forall c | c in a :: AgentChar(c)) }

  function ParseUserAgentValue(value: string): string {
    var raw := Trim(value);
    if ValidAgent(raw) then raw else ""
  }

  /** A byte order mark at the start of the text is not part of the first line. */
  function WithoutMark(line: string, first: bool): string {
    if first && line != "" && line[0] == '\U{FEFF}' then line[1..] else line
  }

  /** Nor are trailing carriage returns part of any line. */
  function Unwrapped(raw: string, first: bool): string { WithoutMark(TrimEndCr(raw), first) }

  /** What a name and a value, cut at the colon, say. */
  function Directed(name: string, value: string): Line {
    if name == "user-agent" then
      if ParseUserAgentValue(value) == "" then Ignored else Agent(ParseUserAgentValue(value))
    else if name == "allow" then RuleLine(Allow, value)
    else if name == "disallow" then RuleLine(Disallow, value)
    else Other(name, value)
  }

  /** What a line says, however long it is. */
  function Said(text: string): Line {
    var line := Trim(BeforeFirst(text, '#'));
    var colon := Find(line, ':');
    if line == "" || colon == |line| then Ignored
    else Directed(Lower(Trim(line[..colon])), Trim(line[colon + 1..]))
  }

  function Classify(raw: string, first: bool): Line {
    if ByteLength(Unwrapped(raw, first)) > MAX_LINE_BYTES then OverLimit else Said(Unwrapped(raw, first))
  }

  // ---- what the lines before the current one have built

  datatype State = State(groups: seq<Group>, current: Option<Group>, advisoriesRetained: nat, report: Report)

  function Initial(replacements: nat): State {
    State([], None, 0, Report(0, 0, 0, 0, replacements, 0, 0, 0, 0, 0))
  }

  function Seen(st: State, parsed: bool): State {
    var r := st.report.(linesSeen := st.report.linesSeen + 1);
    st.(report := if parsed then r.(linesParsed := r.linesParsed + 1) else r.(linesIgnored := r.linesIgnored + 1))
  }

  function MakeRule(directive: Directive, value: string): Rule {
    var normalized := C.Normalized(Utf8(value), C.Pattern);
    Rule(directive, Bound(value, MAX_RULE_DIAGNOSTIC_BYTES), ByteLength(value),
         ByteLength(value) > MAX_RULE_DIAGNOSTIC_BYTES, normalized, C.Specificity(normalized))
  }

  /** A user-agent line after a rule closes the current group; otherwise it joins it. */
  function AddAgent(st: State, agent: string): State {
    var closed := if st.current.Some? && st.current.value.rules != [] then
                    st.(groups := st.groups + [st.current.value], current := None) else st;
    var group := if closed.current.Some? then closed.current.value else Group(|closed.groups|, [], [], []);
    closed.(current := Some(group.(userAgents := group.userAgents + [Bound(agent, MAX_AGENT_BYTES)])))
  }

  function AddRule(st: State, group: Group, directive: Directive, value: string): State {
    var counted := st.(report := st.report.(rulesSeen := st.report.rulesSeen + 1));
    if value == "" then
      var r := counted.report;
      Seen(if directive == Disallow
           then counted.(report := r.(emptyDisallowRulesIgnored := r.emptyDisallowRulesIgnored + 1))
           else counted, true)
    else if st.report.rulesRetained >= MAX_RULES then
      Seen(counted.(report := counted.report.(rulesOmittedAtLimit := counted.report.rulesOmittedAtLimit + 1)), false)
    else
      Seen(counted.(current := Some(group.(rules := group.rules + [MakeRule(directive, value)])),
                    report := counted.report.(rulesRetained := counted.report.rulesRetained + 1)), true)
  }

  function Step(st: State, line: Line): State {
    match line
    case OverLimit => Seen(st.(report := st.report.(linesOverLimit := st.report.linesOverLimit + 1)), false)
    case Ignored => Seen(st, false)
    case Agent(agent) => Seen(AddAgent(st, agent), true)
    case RuleLine(directive, value) =>
      if st.current.None? then Seen(st, false) else AddRule(st, st.current.value, directive, value)
    case Other(name, value) =>
      if st.current.Some? && st.advisoriesRetained < MAX_ADVISORIES then
        var group := st.current.value;
        Seen(st.(current := Some(group.(advisories := group.advisories + [(Bound(name, 128), Bound(value, 512))])),
                 advisoriesRetained := st.advisoriesRetained + 1), true)
      else Seen(st, true)
  }

  function Lines(text: string): seq<string> { Split(text, '\n') }

  /** The state after the first `n` lines. */
  function After(st: State, lines: seq<string>, n: nat): State
    requires n <= |lines|
  {
    if n == 0 then st else Step(After(st, lines, n - 1), Classify(lines[n - 1], n == 1))
  }

  function Finished(st: State): (seq<Group>, Report) {
    var groups := if st.current.Some? then st.groups + [st.current.value] else st.groups;
    (groups, st.report.(groupsSeen := |groups|))
  }

  function Replacements(text: string): nat {
    if text == "" then 0 else (if text[0] == '\U{FFFD}' then 1 else 0) + Replacements(text[1..])
  }

  function Parsed(text: string): (seq<Group>, Report) {
    Finished(After(Initial(Replacements(text)), Lines(text), |Lines(text)|))
  }

  /** The body of the loop: one classified line changes the groups, the open group and the counters. */
  method ParseLine(line: Line, groups0: seq<Group>, current0: Option<Group>, advisoriesRetained0: nat, report0: Report)
    returns (groups: seq<Group>, current: Option<Group>, advisoriesRetained: nat, report: Report)
    ensures State(groups, current, advisoriesRetained, report)
         == Step(State(groups0, current0, advisoriesRetained0, report0), line)
  {
    groups, current, advisoriesRetained := groups0, current0, advisoriesRetained0;
    report := report0.(linesSeen := report0.linesSeen + 1);
    match line
    case OverLimit =>
      report := report.(linesOverLimit := report.linesOverLimit + 1, linesIgnored := report.linesIgnored + 1);
    case Ignored =>
      report := report.(linesIgnored := report.linesIgnored + 1);
    case Agent(agent) =>
      if current.Some? && current.value.rules != [] {
        groups := groups + [current.value];
        current := None;
      }
      if current.None? {
        current := Some(Group(|groups|, [], [], []));
      }
      current := Some(current.value.(userAgents := current.value.userAgents + [Bound(agent, MAX_AGENT_BYTES)]));
      report := report.(linesParsed := report.linesParsed + 1);
    case RuleLine(directive, value) =>
      if current.None? {
        report := report.(linesIgnored := report.linesIgnored + 1);
        return;
      }
      report := report.(rulesSeen := report.rulesSeen + 1);
      if value == "" {
        if directive == Disallow {
          report := report.(emptyDisallowRulesIgnored := report.emptyDisallowRulesIgnored + 1);
        }
        report := report.(linesParsed := report.linesParsed + 1);
        return;
      }
      if report.rulesRetained >= MAX_RULES {
        report := report.(rulesOmittedAtLimit := report.rulesOmittedAtLimit + 1,
                          linesIgnored := report.linesIgnored + 1);
        return;
      }
      var normalized := C.NormalizePath(Utf8(value), C.Pattern);
      var specificity := C.PatternSpecificity(normalized);
      var rule := Rule(directive, Bound(value, MAX_RULE_DIAGNOSTIC_BYTES), ByteLength(value),
                       ByteLength(value) > MAX_RULE_DIAGNOSTIC_BYTES, normalized, specificity);
      current := Some(current.value.(rules := current.value.rules + [rule]));
      report := report.(rulesRetained := report.rulesRetained + 1, linesParsed := report.linesParsed + 1);
    case Other(name, value) =>
      if current.Some? && advisoriesRetained < MAX_ADVISORIES {
        current := Some(current.value.(
          advisories := current.value.advisories + [(Bound(name, 128), Bound(value, 512))]));
        advisoriesRetained := advisoriesRetained + 1;
      }
      report := report.(linesParsed := report.linesParsed + 1);
  }

  /** `parse_robots`. */
  method ParseRobots(input: string) returns (groups: seq<Group>, report: Report)
    ensures (groups, report) == Parsed(input)
  {
    hide Step, Classify;
    report := Report(0, 0, 0, 0, Replacements(input), 0, 0, 0, 0, 0);
    groups := [];
    var current: Option<Group>, advisoriesRetained: nat := None, 0;
    var lines := Lines(input);
    for lineIndex := 0 to |lines|
      invariant State(groups, current, advisoriesRetained, report)
             == After(Initial(Replacements(input)), lines, lineIndex)
    {
      var line := Classify(lines[lineIndex], lineIndex == 0);
      groups, current, advisoriesRetained, report := ParseLine(line, groups, current, advisoriesRetained, report);
    }
    if current.Some? {
      groups := groups + [current.value];
    }
    report := report.(groupsSeen := |groups|);
  }
}

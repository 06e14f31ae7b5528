/** What a robots line may look like without saying anything else: comments, white space, letters in either case. */
module RobotsStyle {
  import opened Octets
  import opened Sequences
  import opened Text
  import opened RobotsParser
  import opened RobotsParserLaws
  import opened RobotsRoundTrip
  import opened RobotsDecision
  import L = RobotsLaws

  predicate OneLine(s: string) { '\n' !in s && '\r' !in s }

  lemma {:induction false} Utf8Joins(a: string, b: string)
    ensures ByteLength(a + b) == ByteLength(a) + ByteLength(b)
  {
    if a == "" {
      assert a + b == b;
    } else {
      Utf8Joins(a[1..], b);
      assert (a + b)[1..] == a[1..] + b;
    }
  }

  lemma NoCrToTrim(s: string)
    requires '\r' !in s
    ensures TrimEndCr(s) == s
  {
  }

  lemma MarkStays(a: string, more: string, first: bool)
    requires more != "" && more[0] != '\U{FEFF}'
    ensures WithoutMark(a + more, first) == WithoutMark(a, first) + more
  {
    if a == "" {
      assert a + more == more;
    } else if first && a[0] == '\U{FEFF}' {
      assert (a + more)[1..] == a[1..] + more;
    }
  }

  lemma FindWithin(s: string, more: string, c: char)
    requires c in s || (more != "" && more[0] == c)
    ensures Find(s + more, c) == Find(s, c)
  {
    var i := Find(s, c);
    if i < |s| {
      assert (s + more)[..i] == s[..i];
    } else {
      assert (s + more)[..i] == s;
    }
    FindIs(s + more, c, i);
  }

  // ---- comments

  /** A comment, if it begins with the sign for it. */
  predicate IsComment(comment: string) { OneLine(comment) && (comment != "" ==> comment[0] == '#') }

  lemma CommentIsCut(a: string, comment: string)
    requires IsComment(comment)
    ensures BeforeFirst(a + comment, '#') == BeforeFirst(a, '#')
  {
    if comment == "" {
      assert a + comment == a;
    } else {
      FindWithin(a, comment, '#');
    }
  }

  /** A line says the same with a comment after it. */
  lemma CommentIgnored(a: string, comment: string, first: bool)
    requires OneLine(a) && IsComment(comment) && ByteLength(Unwrapped(a + comment, first)) <= MAX_LINE_BYTES
    ensures Classify(a + comment, first) == Classify(a, first)
  {
    if comment == "" {
      assert a + comment == a;
    } else {
      NoCrToTrim(a);
      NoCrToTrim(a + comment);
      MarkStays(a, comment, first);
      Utf8Joins(WithoutMark(a, first), comment);
      CommentIsCut(WithoutMark(a, first), comment);
    }
  }

  // ---- white space around a line and around its colon

  predicate IsPad(s: string) { forall i | 0 <= i < |s| :: s[i] == ' ' || s[i] == '\t' }

  lemma {:induction false} PadIsTrimmedBefore(pad: string, s: string)
    requires IsPad(pad) && s != "" && !IsSpace(s[0])
    ensures TrimStart(pad + s) == s
  {
    if pad == "" {
      assert pad + s == s;
    } else {
      assert pad[0] in pad;
      assert (pad + s)[1..] == pad[1..] + s;
      PadIsTrimmedBefore(pad[1..], s);
    }
  }

  lemma {:induction false} PadIsTrimmedAfter(s: string, pad: string)
    requires IsPad(pad) && (s == "" || !IsSpace(s[|s| - 1]))
    ensures TrimEnd(s + pad) == s
  {
    if pad == "" {
      assert s + pad == s;
    } else {
      var n := |pad| - 1;
      assert pad[n] in pad;
      assert (s + pad)[..|s| + n] == s + pad[..n];
      PadIsTrimmedAfter(s, pad[..n]);
    }
  }

  lemma {:induction false} OnlyPad(pad: string)
    requires IsPad(pad)
    ensures TrimStart(pad) == ""
  {
    if pad != "" {
      assert pad[0] in pad;
      OnlyPad(pad[1..]);
    }
  }

  lemma PadIsTrimmed(before: string, s: string, after: string)
    requires IsPad(before) && IsPad(after) && Trimmed(s)
    ensures Trim(before + s + after) == s
  {
    if s == "" {
      assert before + s + after == before + after;
      OnlyPad(before + after);
    } else {
      Associative(before, s, after);
      PadIsTrimmedBefore(before, s + after);
      PadIsTrimmedAfter(s, after);
    }
  }

  // ---- directive names in either case

  /** The same letter, or the capital of a small one. */
  predicate SameLetter(a: char, b: char) {
    || a == b
    || ('A' <= a <= 'Z' && b as int == a as int + 32)
    || ('A' <= b <= 'Z' && a as int == b as int + 32)
  }

  /** The same words but for the case of their letters. */
  predicate SameLetters(a: string, b: string) {
    |a| == |b| && forall i | 0 <= i < |a| :: SameLetter(a[i], b[i])
  }

  lemma LowerEqualIff(a: string, b: string)
    ensures Lower(a) == Lower(b) <==> SameLetters(a, b)
  {
    if Lower(a) == Lower(b) {
      assert |Lower(a)| == |a| && |Lower(b)| == |b|;
      forall i | 0 <= i < |a|
        ensures SameLetter(a[i], b[i])
      {
        assert Lower(a)[i] == Lower(b)[i];
      }
    }
  }

  /** How a line is written: white space, the spelling of its name, and a comment. */
  datatype Style = Style(before: string, name: string, beforeColon: string, afterColon: string, after: string,
                         comment: string)

  function Written(st: Style, value: string): string {
    st.before + st.name + st.beforeColon + ":" + (st.afterColon + value + st.after) + st.comment
  }

  predicate StyleOk(st: Style, word: string, value: string) {
    && IsPad(st.before) && IsPad(st.beforeColon) && IsPad(st.afterColon) && IsPad(st.after)
    && SameLetters(st.name, word) && IsComment(st.comment)
    && ByteLength(Written(st, value)) <= MAX_LINE_BYTES
  }

  /** What can stand before a colon. */
  predicate Word(word: string) {
    word != "" && Trimmed(word) && ':' !in word && '#' !in word && OneLine(word) && word[0] != '\U{FEFF}'
  }

  lemma WordInAnyCase(word: string, name: string)
    requires Word(word) && SameLetters(name, word)
    ensures Word(name)
  {
    assert SameLetter(name[0], word[0]) && SameLetter(name[|name| - 1], word[|word| - 1]);
    forall i | 0 <= i < |name|
      ensures name[i] != ':' && name[i] != '#' && name[i] != '\n' && name[i] != '\r'
    {
      assert SameLetter(name[i], word[i]) && word[i] in word;
    }
  }

  /** The part before the comment. */
  function Head(st: Style, value: string): string {
    st.before + st.name + st.beforeColon + ":" + (st.afterColon + value + st.after)
  }

  predicate PlainText(value: string) { Trimmed(value) && '#' !in value && OneLine(value) }

  /** The value with the white space before it, if there is a value. */
  function Tail(st: Style, value: string): string { if value == "" then "" else st.afterColon + value }

  /** The line without white space around it. */
  function Core(st: Style, value: string): string { st.name + st.beforeColon + ":" + Tail(st, value) }

  lemma CoreIsTrimmed(st: Style, word: string, value: string)
    requires Word(word) && StyleOk(st, word, value) && PlainText(value)
    ensures Trimmed(Core(st, value)) && Core(st, value) != "" && '#' !in Head(st, value)
  {
    WordInAnyCase(word, st.name);
    assert Core(st, value)[0] == st.name[0];
    var core := Core(st, value);
    assert core[|core| - 1] == if value == "" then ':' else value[|value| - 1];
  }

  lemma HeadIsPadded(st: Style, word: string, value: string)
    requires Word(word) && StyleOk(st, word, value) && PlainText(value)
    ensures Trim(BeforeFirst(Head(st, value), '#')) == Core(st, value)
  {
    hide Trimmed, Word, SameLetters, IsComment, OneLine, Trim;
    var head, pad := Head(st, value), if value == "" then st.afterColon + st.after else st.after;
    CoreIsTrimmed(st, word, value);
    FindNone(head, '#');
    assert head[..|head|] == head;
    assert head == st.before + Core(st, value) + pad;
    PadIsTrimmed(st.before, Core(st, value), pad);
  }

  /** The line, cut at its colon. */
  lemma HeadIsCut(st: Style, word: string, value: string)
    requires Word(word) && StyleOk(st, word, value) && PlainText(value)
    ensures var line := Trim(BeforeFirst(Head(st, value), '#'));
            && line != "" && Find(line, ':') < |line|
            && Trim(line[..Find(line, ':')]) == st.name && Trim(line[Find(line, ':') + 1..]) == value
  {
    hide Trim, BeforeFirst;
    HeadIsPadded(st, word, value);
    CoreIsTrimmed(st, word, value);
    WordInAnyCase(word, st.name);
    var line, front := Core(st, value), st.name + st.beforeColon;
    assert line[..|front|] == front;
    FindIs(line, ':', |front|);
    assert "" + st.name + st.beforeColon == front;
    PadIsTrimmed("", st.name, st.beforeColon);
    assert line[|front| + 1..] == Tail(st, value);
    assert (if value == "" then "" else st.afterColon) + value + "" == Tail(st, value);
    PadIsTrimmed(if value == "" then "" else st.afterColon, value, "");
  }

  lemma HeadIsOneLine(st: Style, word: string, value: string)
    requires Word(word) && StyleOk(st, word, value) && PlainText(value)
    ensures OneLine(Head(st, value)) && Head(st, value) != "" && Head(st, value)[0] != '\U{FEFF}'
    ensures OneLine(Written(st, value))
  {
    WordInAnyCase(word, st.name);
    assert Head(st, value)[0] == if st.before == "" then st.name[0] else st.before[0];
  }

  lemma WordsLowered()
    ensures Lower("User-agent") == "user-agent" && Lower("Allow") == "allow" && Lower("Disallow") == "disallow"
    ensures Word("User-agent") && Word("Allow") && Word("Disallow")
  {
    AgentHead();
    AllowHead();
    DisallowHead();
  }

  /** However it is written, a line says what its word and its value say. */
  lemma WrittenSays(st: Style, word: string, value: string, first: bool)
    requires Word(word) && StyleOk(st, word, value) && PlainText(value)
    ensures Classify(Written(st, value), first) == Directed(Lower(word), value)
  {
    hide Directed, Trim, BeforeFirst, Find, SameLetters;
    HeadIsOneLine(st, word, value);
    HeadIsCut(st, word, value);
    LowerEqualIff(st.name, word);
    NoCrToTrim(Head(st, value));
    NoCrToTrim(Written(st, value));
    Utf8Joins(Head(st, value), st.comment);
    CommentIgnored(Head(st, value), st.comment, first);
  }

  /** A user-agent line, in any style. */
  lemma WrittenAgent(st: Style, agent: string, first: bool)
    requires StyleOk(st, "User-agent", agent) && ValidAgent(agent)
    ensures Classify(Written(st, agent), first) == Agent(agent)
  {
    WordsLowered();
    AgentIsTrimmed(agent);
    WrittenSays(st, "User-agent", agent, first);
    TrimmedIsFixed(agent);
  }

  /** A rule. */
  lemma WrittenRule(st: Style, directive: Directive, value: string, first: bool)
    requires StyleOk(st, if directive == Allow then "Allow" else "Disallow", value) && PlainText(value)
    ensures Classify(Written(st, value), first) == RuleLine(directive, value)
  {
    WordsLowered();
    WrittenSays(st, if directive == Allow then "Allow" else "Disallow", value, first);
    NamesDiffer();
  }

  /** A line of any other name, and a user-agent line without a product token. */
  lemma WrittenOther(st: Style, word: string, value: string, first: bool)
    requires Word(word) && StyleOk(st, word, value) && PlainText(value)
    requires !SameLetters(word, "allow") && !SameLetters(word, "disallow")
    ensures !SameLetters(word, "user-agent") ==> Classify(Written(st, value), first) == Other(Lower(word), value)
    ensures SameLetters(word, "user-agent") && !ValidAgent(value) ==> Classify(Written(st, value), first) == Ignored
  {
    WrittenSays(st, word, value, first);
    TrimmedIsFixed(value);
    LowerOfNames();
    LowerEqualIff(word, "allow");
    LowerEqualIff(word, "disallow");
    LowerEqualIff(word, "user-agent");
  }

  lemma LowerOfNames()
    ensures Lower("user-agent") == "user-agent" && Lower("allow") == "allow" && Lower("disallow") == "disallow"
  {
  }

  /** Product tokens are made of ASCII letters, hyphens and underscores; a star stands alone. */
  lemma AgentsAreTokens(agent: string)
    ensures ValidAgent(agent) <==>
              agent == "*" || (agent != "" && forall i | 0 <= i < |agent| ::
                                 'A' <= agent[i] <= 'Z' || 'a' <= agent[i] <= 'z' || agent[i] == '-' || agent[i] == '_')
  {
    assert forall i | 0 <= i < |agent| :: agent[i] in agent;
  }

  // ---- whole files

  /** A line of a file: it says something in some style, or it is blank but for a comment. */
  datatype StyledLine = Says(style: Style, line: Line) | Blank(pad: string, comment: string)

  function ValueOf(line: Line): string {
    match line
    case Agent(agent) => agent
    case RuleLine(_, value) => value
    case _ => ""
  }

  function WordOf(line: Line): string {
    match line
    case Agent(_) => "User-agent"
    case RuleLine(directive, _) => if directive == Allow then "Allow" else "Disallow"
    case _ => ""
  }

  function TextOf(l: StyledLine): string {
    match l
    case Says(style, line) => Written(style, ValueOf(line))
    case Blank(pad, comment) => pad + comment
  }

  predicate StyledOk(l: StyledLine) {
    match l
    case Says(style, line) =>
      && (line.Agent? || line.RuleLine?) && StyleOk(style, WordOf(line), ValueOf(line))
      && (line.Agent? ==> ValidAgent(line.agent)) && PlainText(ValueOf(line))
    case Blank(pad, comment) => IsPad(pad) && IsComment(comment) && ByteLength(pad + comment) <= MAX_LINE_BYTES
  }

  /** What the lines say, without the blank ones. */
  function SaidBy(lines: seq<StyledLine>): seq<Line> {
    if lines == [] then []
    else
      var last := lines[|lines| - 1];
      SaidBy(lines[..|lines| - 1]) + if last.Says? then [last.line] else []
  }

  lemma BlankIsIgnored(pad: string, comment: string, first: bool)
    requires IsPad(pad) && IsComment(comment) && ByteLength(pad + comment) <= MAX_LINE_BYTES
    ensures Classify(pad + comment, first) == Ignored && OneLine(pad + comment)
  {
    assert OneLine(pad);
    NoCrToTrim(pad);
    NoCrToTrim(pad + comment);
    Utf8Joins(pad, comment);
    assert Unwrapped(pad, first) == pad;
    assert Unwrapped(pad + comment, first) == pad + comment by {
      assert pad + comment != "" ==> (pad + comment)[0] != '\U{FEFF}';
    }
    CommentIgnored(pad, comment, first);
    FindNone(pad, '#');
    assert pad[..|pad|] == pad;
    OnlyPad(pad);
  }

  lemma StyledSays(l: StyledLine, first: bool)
    requires StyledOk(l)
    ensures Classify(TextOf(l), first) == (if l.Says? then l.line else Ignored) && OneLine(TextOf(l))
  {
    WordsLowered();
    match l
    case Says(style, line) =>
      HeadIsOneLine(style, WordOf(line), ValueOf(line));
      if line.Agent? {
        WrittenAgent(style, line.agent, first);
      } else {
        WrittenRule(style, line.directive, line.value, first);
      }
    case Blank(pad, comment) => BlankIsIgnored(pad, comment, first);
  }

  /** The states hold the same groups. */
  predicate Alike(s: State, t: State) {
    && s.groups == t.groups && s.current == t.current && s.advisoriesRetained == t.advisoriesRetained
    && s.report.rulesRetained == t.report.rulesRetained
  }

  lemma StepKeepsAlike(s: State, t: State, line: Line)
    requires Alike(s, t)
    ensures Alike(Step(s, line), Step(t, line)) && Alike(Step(s, Ignored), t)
  {
    hide MakeRule, Bound;
  }

  /** Blank lines leave the groups as they are. */
  lemma {:induction false} BlankLinesDoNotMatter(st: State, lines: seq<string>, styled: seq<StyledLine>, n: nat)
    requires n <= |lines| == |styled|
    requires forall i | 0 <= i < n ::
               Classify(lines[i], i == 0) == if styled[i].Says? then styled[i].line else Ignored
    ensures Alike(After(st, lines, n), Run(st, SaidBy(styled[..n])))
  {
    hide Classify, Step, Alike;
    if n == 0 {
      AlikeItself(st);
    } else {
      BlankLinesDoNotMatter(st, lines, styled, n - 1);
      assert styled[..n][..n - 1] == styled[..n - 1];
      var line := Classify(lines[n - 1], n == 1);
      var said := SaidBy(styled[..n - 1]);
      StepKeepsAlike(After(st, lines, n - 1), Run(st, said), line);
      RunConcat(st, said, [line]);
      assert said + [] == said;
    }
  }

  lemma AlikeItself(st: State)
    ensures Alike(st, st)
  {
  }

  function Texts(styled: seq<StyledLine>): seq<string> {
    seq(|styled|, i requires 0 <= i < |styled| => TextOf(styled[i]))
  }

  /** In whatever style the lines of some groups are written, with whatever blank lines and comments between them,
    * parsing the file gives those groups. */
  lemma ParseUndoesAnyStyle(gs: seq<SourceGroup>, styled: seq<StyledLine>)
    requires PrintableGroups(gs) && SaidBy(styled) == Kinds(gs) && forall l | l in styled :: StyledOk(l)
    ensures Parsed(Joined(Texts(styled), "\n")).0 == BuiltAll(gs)
  {
    hide Classify, Step, StyledOk, TextOf;
    var text, st := Joined(Texts(styled), "\n"), Initial(Replacements(Joined(Texts(styled), "\n")));
    forall l | l in Texts(styled)
      ensures '\n' !in l
    {
      var i :| 0 <= i < |styled| && TextOf(styled[i]) == l;
      StyledSays(styled[i], false);
    }
    SplitJoined(Texts(styled));
    var lines, all := Lines(text), styled + [Blank("", "")];
    forall i | 0 <= i < |lines|
      ensures Classify(lines[i], i == 0) == if all[i].Says? then all[i].line else Ignored
    {
      if i < |styled| {
        StyledSays(styled[i], i == 0);
      } else {
        EmptyLineIgnored(i == 0);
      }
    }
    BlankLinesDoNotMatter(st, lines, all, |lines|);
    assert all[..|lines|] == all && all[..|all| - 1] == styled;
    assert SaidBy(all) == Kinds(gs) + [];
    assert Kinds(gs) + [] == Kinds(gs);
    GroupsOfRun(st, gs, After(st, lines, |lines|));
  }

  lemma GroupsOfRun(st: State, gs: seq<SourceGroup>, end: State)
    requires PrintableGroups(gs) && Alike(end, Run(st, Kinds(gs)))
    requires st.groups == [] && st.current.None? && st.report.rulesRetained == 0
    ensures Finished(end).0 == BuiltAll(gs)
  {
    RunGroups(st, gs);
    BuiltFromAll(gs, 0);
    assert BuiltAll(gs) == BuiltFrom(gs, 0);
    assert AllGroups(st) + BuiltFrom(gs, 0) == BuiltFrom(gs, 0);
  }

  /** The lines, each with its comment. */
  function Commented(lines: seq<string>, comments: seq<string>): seq<string>
    requires |lines| == |comments|
  {
    seq(|lines|, i requires 0 <= i < |lines| => lines[i] + comments[i])
  }

  lemma {:induction false} AfterComments(st: State, a: seq<string>, b: seq<string>, n: nat)
    requires n <= |a| == |b|
    requires forall i | 0 <= i < n :: Classify(a[i], i == 0) == Classify(b[i], i == 0)
    ensures After(st, a, n) == After(st, b, n)
  {
    hide Classify, Step;
    if n > 0 {
      AfterComments(st, a, b, n - 1);
    }
  }

  lemma CommentedLines(lines: seq<string>, comments: seq<string>)
    requires |lines| == |comments| && forall i | 0 <= i < |lines| :: OneLine(lines[i]) && IsComment(comments[i])
    ensures (forall l | l in lines :: '\n' !in l) && forall l | l in Commented(lines, comments) :: '\n' !in l
  {
    forall l | l in Commented(lines, comments)
      ensures '\n' !in l
    {
      var i :| 0 <= i < |lines| && lines[i] + comments[i] == l;
    }
  }

  /** A comment after every line of a file leaves its groups as they are, whatever the lines say. */
  lemma CommentsDoNotMatter(lines: seq<string>, comments: seq<string>)
    requires |lines| == |comments| && forall i | 0 <= i < |lines| :: OneLine(lines[i]) && IsComment(comments[i])
    requires forall i | 0 <= i < |lines| :: ByteLength(Unwrapped(lines[i] + comments[i], i == 0)) <= MAX_LINE_BYTES
    ensures Parsed(Joined(Commented(lines, comments), "\n")).0 == Parsed(Joined(lines, "\n")).0
  {
    hide Classify, Step, Unwrapped, ByteLength, IsComment;
    var more := Commented(lines, comments);
    CommentedLines(lines, comments);
    SplitJoined(lines);
    SplitJoined(more);
    var a, b := lines + [""], more + [""];
    forall i | 0 <= i < |a|
      ensures Classify(b[i], i == 0) == Classify(a[i], i == 0)
    {
      if i < |lines| {
        CommentIgnored(lines[i], comments[i], i == 0);
      }
    }
    AfterComments(Initial(Replacements(Joined(lines, "\n"))), a, b, |a|);
    AfterIgnoresReplacements(Replacements(Joined(lines, "\n")), Replacements(Joined(more, "\n")), b, |b|);
  }

  // ---- product tokens in either case

  /** The groups are the same but for the case of letters in the names of agents. */
  predicate SameButCase(gs: seq<Group>, hs: seq<Group>) {
    && |gs| == |hs|
    && forall i | 0 <= i < |gs| ::
         && gs[i].rules == hs[i].rules && |gs[i].userAgents| == |hs[i].userAgents|
         && forall k | 0 <= k < |gs[i].userAgents| :: SameLetters(gs[i].userAgents[k], hs[i].userAgents[k])
  }

  lemma NamesInAnyCase(g: Group, h: Group, t: string, u: string)
    requires |g.userAgents| == |h.userAgents| && SameLetters(t, u)
    requires forall k | 0 <= k < |g.userAgents| :: SameLetters(g.userAgents[k], h.userAgents[k])
    ensures NamesToken(g, t) ==> NamesToken(h, u)
    ensures NamesAll(g) ==> NamesAll(h)
  {
    hide SameLetters;
    LowerEqualIff(t, u);
    if NamesToken(g, t) {
      var k :| 0 <= k < |g.userAgents| && Lower(g.userAgents[k]) == Lower(t);
      LowerEqualIff(g.userAgents[k], h.userAgents[k]);
      assert h.userAgents[k] in h.userAgents;
    }
    if NamesAll(g) {
      var k :| 0 <= k < |g.userAgents| && g.userAgents[k] == "*";
      StarIsItself(h.userAgents[k]);
      assert h.userAgents[k] in h.userAgents;
    }
  }

  lemma StarIsItself(a: string)
    ensures SameLetters("*", a) ==> a == "*"
  {
  }

  lemma CaseFlips(a: string, b: string)
    ensures SameLetters(a, b) <==> SameLetters(b, a)
  {
  }

  /** Neither the case of the token nor that of the agents in the file makes a difference to the verdict. */
  lemma CaseDoesNotMatter(gs: seq<Group>, hs: seq<Group>, t: string, u: string, path: seq<Byte>)
    requires SameButCase(gs, hs) && SameLetters(t, u)
    ensures Permitted(gs, t, path) <==> Permitted(hs, u, path)
  {
    hide SameLetters;
    CaseFlips(t, u);
    forall i | 0 <= i < |gs|
      ensures NamesToken(gs[i], t) <==> NamesToken(hs[i], u)
      ensures NamesAll(gs[i]) <==> NamesAll(hs[i])
    {
      forall k | 0 <= k < |gs[i].userAgents|
        ensures SameLetters(hs[i].userAgents[k], gs[i].userAgents[k])
      {
        CaseFlips(gs[i].userAgents[k], hs[i].userAgents[k]);
      }
      NamesInAnyCase(gs[i], hs[i], t, u);
      NamesInAnyCase(hs[i], gs[i], u, t);
    }
    forall r
      ensures InForce(gs, t, r) <==> InForce(hs, u, r)
    {
      InForceInAnyCase(gs, hs, t, u, r);
    }
    SameRulesSameVerdict(gs, hs, t, u, path);
  }

  lemma InForceInAnyCase(gs: seq<Group>, hs: seq<Group>, t: string, u: string, r: Rule)
    requires |gs| == |hs|
    requires forall i | 0 <= i < |gs| ::
               && gs[i].rules == hs[i].rules
               && (NamesToken(gs[i], t) <==> NamesToken(hs[i], u)) && (NamesAll(gs[i]) <==> NamesAll(hs[i]))
    ensures InForce(gs, t, r) <==> InForce(hs, u, r)
  {
    hide NamesToken, NamesAll;
    assert forall i | 0 <= i < |gs| :: gs[i] in gs && hs[i] in hs;
    assert AnyExact(gs, t) <==> AnyExact(hs, u);
    L.SelectedByContent(gs, t, r);
    L.SelectedByContent(hs, u, r);
  }

  lemma SameRulesSameVerdict(gs: seq<Group>, hs: seq<Group>, t: string, u: string, path: seq<Byte>)
    requires forall r :: InForce(gs, t, r) <==> InForce(hs, u, r)
    ensures Permitted(gs, t, path) <==> Permitted(hs, u, path)
  {
    assert forall r :: Applies(gs, t, path, r) <==> Applies(hs, u, path, r);
    assert forall a :: OutranksAll(gs, t, path, a) <==> OutranksAll(hs, u, path, a);
  }

  // ---- a byte order mark

  lemma MarkedLines(text: string)
    ensures Lines("\U{FEFF}" + text) == ["\U{FEFF}" + Lines(text)[0]] + Lines(text)[1..]
  {
    var marked := "\U{FEFF}" + text;
    assert marked[1..] == text;
    var i := Find(text, '\n');
    assert Find(marked, '\n') == i + 1;
    assert marked[..i + 1] == "\U{FEFF}" + text[..i];
    if i == |text| {
      assert text[..i] == text;
    } else {
      assert marked[i + 2..] == text[i + 1..];
    }
  }

  lemma MarkedLine(line: string)
    requires line == "" || line[0] != '\U{FEFF}'
    ensures Classify("\U{FEFF}" + line, true) == Classify(line, true)
  {
    TrimAfterMark(line);
    var trimmed := TrimEndCr(line);
    assert ("\U{FEFF}" + trimmed)[1..] == trimmed;
    TrimKeepsHead(line);
  }

  lemma {:induction false} TrimAfterMark(line: string)
    ensures TrimEndCr("\U{FEFF}" + line) == "\U{FEFF}" + TrimEndCr(line)
  {
    var marked := "\U{FEFF}" + line;
    if line != "" {
      assert marked[..|marked| - 1] == "\U{FEFF}" + line[..|line| - 1];
      TrimAfterMark(line[..|line| - 1]);
    }
  }

  lemma {:induction false} TrimKeepsHead(line: string)
    ensures TrimEndCr(line) <= line
  {
    if line != "" && line[|line| - 1] == '\r' {
      TrimKeepsHead(line[..|line| - 1]);
    }
  }

  lemma {:induction false} AfterMark(st: State, a: seq<string>, b: seq<string>, n: nat)
    requires n <= |a| == |b| && |a| > 0 && a[1..] == b[1..] && Classify(a[0], true) == Classify(b[0], true)
    ensures After(st, a, n) == After(st, b, n)
  {
    hide Classify, Step;
    if n > 0 {
      AfterMark(st, a, b, n - 1);
      if n > 1 {
        assert a[n - 1] == a[1..][n - 2] && b[n - 1] == b[1..][n - 2];
      }
    }
  }

  /** A byte order mark before a text changes none of its groups. */
  lemma MarkDoesNotMatter(text: string)
    requires text == "" || text[0] != '\U{FEFF}'
    ensures Parsed("\U{FEFF}" + text).0 == Parsed(text).0
  {
    hide Classify, Step;
    var marked := "\U{FEFF}" + text;
    var a, b := Lines(text), Lines(marked);
    MarkedLines(text);
    assert b[0] == "\U{FEFF}" + a[0] && b[1..] == a[1..];
    FirstLineStarts(text);
    MarkedLine(a[0]);
    AfterMark(Initial(Replacements(text)), a, b, |a|);
    AfterIgnoresReplacements(Replacements(text), Replacements(marked), b, |b|);
  }

  lemma FirstLineStarts(text: string)
    ensures Lines(text)[0] <= text
  {
  }
}

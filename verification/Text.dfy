/** The string operations the robots parser uses: UTF-8 lengths, trimming, splitting and bounding. */
module Text {
  import opened Octets

  /** The UTF-8 encoding of one scalar value. */
  function Utf8Char(c: char): (r: seq<Byte>)
    ensures 1 <= |r| <= 4
  {
    var v := c as int;
    if v < 0x80 then [v]
    else if v < 0x800 then [0xC0 + v / 0x40, 0x80 + v % 0x40]
    else if v < 0x10000 then [0xE0 + v / 0x1000, 0x80 + v / 0x40 % 0x40, 0x80 + v % 0x40]
    else [0xF0 + v / 0x40000 % 8, 0x80 + v / 0x1000 % 0x40, 0x80 + v / 0x40 % 0x40, 0x80 + v % 0x40]
  }

  function Utf8(s: string): seq<Byte> {
    if s == [] then [] else Utf8Char(s[0]) + Utf8(s[1..])
  }

  function ByteLength(s: string): nat { |Utf8(s)| }

  /** Unicode White_Space, the set that trimming removes. */
  predicate IsSpace(c: char) {
    var v := c as int;
    9 <= v <= 13 || v == 0x20 || v == 0x85 || v == 0xA0 || v == 0x1680 || 0x2000 <= v <= 0x200A
    || v == 0x2028 || v == 0x2029 || v == 0x202F || v == 0x205F || v == 0x3000
  }

  function TrimStart(s: string): string {
    if s != [] && IsSpace(s[0]) then TrimStart(s[1..]) else s
  }

  function TrimEnd(s: string): string {
    if s != [] && IsSpace(s[|s| - 1]) then TrimEnd(s[..|s| - 1]) else s
  }

  function Trim(s: string): string { TrimEnd(TrimStart(s)) }

  function TrimEndCr(s: string): string {
    if s != [] && s[|s| - 1] == '\r' then TrimEndCr(s[..|s| - 1]) else s
  }

  predicate Trimmed(s: string) { s != [] ==> !IsSpace(s[0]) && !IsSpace(s[|s| - 1]) }

  /** The position of the first `c`, or the length of the sequence. */
  function Find<T(==)>(s: seq<T>, c: T): (i: nat)
    ensures i <= |s| && c !in s[..i]
    ensures i < |s| ==> s[i] == c
  {
    if s == [] || s[0] == c then 0
    else
      var i := Find(s[1..], c) + 1;
      assert s[..i] == [s[0]] + s[1..][..i - 1];
      i
  }

  function BeforeFirst(s: string, c: char): string { s[..Find(s, c)] }

  /** All pieces between separators; there is always at least one. */
  function Split(s: string, c: char): (pieces: seq<string>)
    ensures pieces != []
    decreases |s|
  {
    if Find(s, c) == |s| then [s] else [s[..Find(s, c)]] + Split(s[Find(s, c) + 1..], c)
  }

  function LowerChar(c: char): char {
    if 'A' <= c <= 'Z' then (c as int + 32) as char else c
  }

  function Lower(s: string): string { seq(|s|, i requires 0 <= i < |s| => LowerChar(s[i])) }

  /** The longest prefix, cut between characters, of at most `max` bytes. */
  function Bound(s: string, max: nat): (r: string)
    ensures r <= s && ByteLength(r) <= max
    ensures ByteLength(s) <= max ==> r == s
  {
    if ByteLength(s) <= max then s else Bound(s[..|s| - 1], max)
  }

  // ---- facts

  lemma FindIs(s: string, c: char, i: nat)
    requires i < |s| && s[i] == c && c !in s[..i]
    ensures Find(s, c) == i
  {
  }

  lemma FindNone(s: string, c: char)
    requires c !in s
    ensures Find(s, c) == |s|
  {
  }

  lemma TrimmedIsFixed(s: string)
    requires Trimmed(s)
    ensures Trim(s) == s
  {
  }

  lemma {:induction false} SplitFirst(line: string, rest: string, c: char)
    requires c !in line
    ensures Split(line + [c] + rest, c) == [line] + Split(rest, c)
  {
    var s := line + [c] + rest;
    assert s[..|line|] == line;
    FindIs(s, c, |line|);
    assert s[|line| + 1..] == rest;
  }

  function Joined(lines: seq<string>, terminator: string): string {
    if lines == [] then "" else lines[0] + terminator + Joined(lines[1..], terminator)
  }

  lemma JoinedFirst(lines: seq<string>)
    requires lines != []
    ensures Joined(lines, "\n") == lines[0] + ['\n'] + Joined(lines[1..], "\n")
  {
  }

  lemma NothingToSplit(c: char)
    ensures Split("", c) == [""]
  {
  }

  lemma HeadAndTail<T>(s: seq<T>, last: T)
    requires s != []
    ensures [s[0]] + (s[1..] + [last]) == s + [last]
  {
  }

  /** Splitting undoes joining. */
  lemma {:induction false} SplitJoined(lines: seq<string>)
    requires forall l | l in lines :: '\n' !in l
    ensures Split(Joined(lines, "\n"), '\n') == lines + [""]
  {
    hide Split;
    if lines == [] {
      NothingToSplit('\n');
    } else {
      SplitJoined(lines[1..]);
      JoinedFirst(lines);
      SplitFirst(lines[0], Joined(lines[1..], "\n"), '\n');
      HeadAndTail(lines, "");
    }
  }

  // ---- UTF-8 against its definition

  /** The scalar value that RFC 3629 gives a sequence of octets. */
  function ScalarOf(r: seq<int>): int
    requires 1 <= |r| <= 4
  {
    if |r| == 1 then r[0]
    else if |r| == 2 then (r[0] - 0xC0) * 64 + (r[1] - 0x80)
    else if |r| == 3 then ((r[0] - 0xE0) * 64 + (r[1] - 0x80)) * 64 + (r[2] - 0x80)
    else (((r[0] - 0xF0) * 64 + (r[1] - 0x80)) * 64 + (r[2] - 0x80)) * 64 + (r[3] - 0x80)
  }

  predicate Continues(r: seq<Byte>) { forall i | 1 <= i < |r| :: 0x80 <= r[i] <= 0xBF }

  lemma ShortIsReadBack(c: char)
    requires c as int <= 0x7FF
    ensures ScalarOf(Utf8Char(c)) == c as int && |Utf8Char(c)| == (if c as int <= 0x7F then 1 else 2)
    ensures Continues(Utf8Char(c))
  {
  }

  lemma LongIsReadBack(c: char)
    requires 0x7FF < c as int <= 0xFFFF
    ensures ScalarOf(Utf8Char(c)) == c as int && |Utf8Char(c)| == 3 && Continues(Utf8Char(c))
  {
  }

  lemma LongestIsReadBack(c: char)
    requires 0xFFFF < c as int
    ensures ScalarOf(Utf8Char(c)) == c as int && |Utf8Char(c)| == 4 && Continues(Utf8Char(c))
  {
  }

  /** Every character is encoded in as many octets as its value needs, of which all but the first are continuations,
    * and can be read back. */
  lemma Utf8IsReadBack(c: char)
    ensures var r, v := Utf8Char(c), c as int;
            && ScalarOf(r) == v && Continues(r)
            && |r| == (if v <= 0x7F then 1 else if v <= 0x7FF then 2 else if v <= 0xFFFF then 3 else 4)
  {
    hide ScalarOf, Utf8Char, Continues;
    if c as int <= 0x7FF {
      ShortIsReadBack(c);
    } else if c as int <= 0xFFFF {
      LongIsReadBack(c);
    } else {
      LongestIsReadBack(c);
    }
  }
}

/** The stream readers of `src/process_supervisor.rs`: the capped line reader and the bounded drain. */
module Streams {
  import opened Octets
  import opened Sequences

  const NEWLINE: Byte := 10

  datatype LineEvent = Line(bytes: seq<Byte>) | Oversized | Eof | Error

  /** How a stream ends after its last chunk. */
  datatype End = Closed | Failed

  function Flatten(chunks: seq<seq<Byte>>): seq<Byte> {
    if chunks == [] then [] else chunks[0] + Flatten(chunks[1..])
  }

  function Position(s: seq<Byte>): (i: nat)
    ensures i <= |s| && NEWLINE !in s[..i]
    ensures i < |s| ==> s[i] == NEWLINE
  {
    if s == [] || s[0] == NEWLINE then 0
    else
      var i := Position(s[1..]) + 1;
      assert s[..i] == [s[0]] + s[1..][..i - 1];
      i
  }

  /** What a line that ends in a newline is reported as. */
  function LineOf(line: seq<Byte>, limit: nat): LineEvent {
    if |line| > limit then Oversized else Line(line)
  }

  /** What the bytes after the last newline are reported as. */
  function Tail(rest: seq<Byte>, limit: nat, end: End): seq<LineEvent> {
    if end == Failed then [Error]
    else (if rest == [] then [] else [LineOf(rest, limit)]) + [Eof]
  }

  /** The events of a stream, from its bytes alone. */
  function Events(bytes: seq<Byte>, limit: nat, end: End): seq<LineEvent>
    decreases |bytes|
  {
    var i := Position(bytes);
    if i == |bytes| then Tail(bytes, limit, end) else [LineOf(bytes[..i], limit)] + Events(bytes[i + 1..], limit, end)
  }

  function Min(a: nat, b: nat): nat { if a < b then a else b }

  // ---- facts

  lemma PositionIs(s: seq<Byte>, i: nat)
    requires i < |s| && s[i] == NEWLINE && NEWLINE !in s[..i]
    ensures Position(s) == i
  {
  }

  lemma PositionNone(s: seq<Byte>)
    requires NEWLINE !in s
    ensures Position(s) == |s|
  {
  }

  /** The first complete line of a stream is its first event. */
  lemma EventsFirst(line: seq<Byte>, rest: seq<Byte>, limit: nat, end: End)
    requires NEWLINE !in line
    ensures Events(line + [NEWLINE] + rest, limit, end) == [LineOf(line, limit)] + Events(rest, limit, end)
  {
    var s := line + [NEWLINE] + rest;
    assert s[..|line|] == line && s[|line| + 1..] == rest;
    PositionIs(s, |line|);
  }

  /** Keeping a prefix while bytes arrive is keeping the prefix of all of them. */
  lemma FirstOfMore(s: seq<Byte>, segment: seq<Byte>, limit: nat)
    ensures var line := First(s, limit);
            var keep := Min(limit - |line|, |segment|);
            line + segment[..keep] == First(s + segment, limit)
            && ((|s| > limit || keep < |segment|) <==> |s + segment| > limit)
  {
  }

  /** What is delivered so far, followed by the events of what is still to come, is the whole list of events. */
  ghost predicate OnTrack(all: seq<LineEvent>, delivered: seq<LineEvent>, pending: seq<Byte>, unread: seq<Byte>,
                          limit: nat, end: End) {
    delivered + Events(pending + unread, limit, end) == all
  }

  lemma LineCompletes(all: seq<LineEvent>, delivered: seq<LineEvent>, pending: seq<Byte>, segment: seq<Byte>,
                      rest: seq<Byte>, limit: nat, end: End)
    requires OnTrack(all, delivered, pending, segment + [NEWLINE] + rest, limit, end)
    requires NEWLINE !in pending && NEWLINE !in segment
    ensures OnTrack(all, delivered + [LineOf(pending + segment, limit)], [], rest, limit, end)
    ensures |all| > |delivered| && all[..|delivered|] == delivered
  {
    assert pending + (segment + [NEWLINE] + rest) == pending + segment + [NEWLINE] + rest;
    EventsFirst(pending + segment, rest, limit, end);
    Associative(delivered, [LineOf(pending + segment, limit)], Events(rest, limit, end));
    assert [] + rest == rest;
  }

  lemma LineContinues(all: seq<LineEvent>, delivered: seq<LineEvent>, pending: seq<Byte>, segment: seq<Byte>,
                      rest: seq<Byte>, limit: nat, end: End)
    requires OnTrack(all, delivered, pending, segment + rest, limit, end)
    ensures OnTrack(all, delivered, pending + segment, rest, limit, end)
  {
    Associative(pending, segment, rest);
  }

  /** The sends at the end of the stream; their failures are ignored. */
  method SendTail(delivered: seq<LineEvent>, line: seq<Byte>, oversized: bool, end: End, accepts: nat, limit: nat,
                  ghost pending: seq<Byte>)
    returns (sent: seq<LineEvent>)
    requires |delivered| <= accepts && line == First(pending, limit) && (oversized <==> |pending| > limit)
    ensures var all := delivered + Tail(pending, limit, end);
            sent == all[..Min(accepts, |all|)]
  {
    sent := delivered;
    if end == Failed {
      if |sent| < accepts {
        sent := sent + [Error];
      }
      return;
    }
    if oversized {
      if |sent| < accepts {
        sent := sent + [Oversized];
      }
    } else if line != [] {
      if |sent| < accepts {
        sent := sent + [Line(line)];
      }
    }
    if |sent| < accepts {
      sent := sent + [Eof];
    }
  }

  /** Take in a piece of a line, never beyond the limit. */
  method Absorb(line0: seq<Byte>, oversized0: bool, segment: seq<Byte>, limit: nat, ghost pending: seq<Byte>)
    returns (line: seq<Byte>, oversized: bool)
    requires line0 == First(pending, limit) && (oversized0 <==> |pending| > limit)
    ensures line == First(pending + segment, limit) && (oversized <==> |pending + segment| > limit)
  {
    FirstOfMore(pending, segment, limit);
    var keep := Min(limit - |line0|, |segment|);
    line := line0 + segment[..keep];
    oversized := oversized0 || keep < |segment|;
  }

  lemma SegmentedAt(available: seq<Byte>, later: seq<Byte>, i: nat)
    requires i < |available| && available[i] == NEWLINE
    ensures available + later == available[..i] + [NEWLINE] + (available[i + 1..] + later)
  {
    assert available == available[..i] + [NEWLINE] + available[i + 1..];
    Associative(available[..i] + [NEWLINE], available[i + 1..], later);
  }

  lemma Segmented(available: seq<Byte>, later: seq<Byte>)
    ensures var i := Position(available);
            available + later == if i < |available| then available[..i] + [NEWLINE] + (available[i + 1..] + later)
                                 else available[..i] + (available[|available|..] + later)
  {
    var i := Position(available);
    if i < |available| {
      SegmentedAt(available, later, i);
    } else {
      assert available[..i] == available && available[|available|..] == [];
      Associative(available, [], later);
      assert available + [] == available;
    }
  }

  lemma FlattenAt(chunks: seq<seq<Byte>>, next: nat)
    requires next < |chunks|
    ensures [] + Flatten(chunks[next..]) == chunks[next] + Flatten(chunks[next + 1..])
  {
    assert chunks[next..][0] == chunks[next] && chunks[next..][1..] == chunks[next + 1..];
  }

  lemma StreamEnds(all: seq<LineEvent>, delivered: seq<LineEvent>, pending: seq<Byte>, unread: seq<Byte>, limit: nat,
                   end: End)
    requires OnTrack(all, delivered, pending, unread, limit, end) && unread == [] && NEWLINE !in pending
    ensures all == delivered + Tail(pending, limit, end)
  {
    assert pending + unread == pending;
    PositionNone(pending);
  }

  lemma NothingLeft(chunks: seq<seq<Byte>>, next: nat)
    requires next == |chunks|
    ensures [] + Flatten(chunks[next..]) == []
  {
  }

  lemma StreamStarts(chunks: seq<seq<Byte>>, limit: nat, end: End)
    ensures OnTrack(Events(Flatten(chunks), limit, end), [], [], [] + Flatten(chunks[0..]), limit, end)
  {
    assert [] + ([] + Flatten(chunks)) == Flatten(chunks) && chunks[0..] == chunks;
  }

  /** `read_capped_lines`. The receiver takes the first `accepts` events and is gone after that; a failed send of
    * a line stops the reader. */
  method ReadCappedLines(chunks: seq<seq<Byte>>, limit: nat, end: End, accepts: nat)
    returns (delivered: seq<LineEvent>)
    requires forall c | c in chunks :: c != []
    ensures var all := Events(Flatten(chunks), limit, end);
            delivered == all[..Min(accepts, |all|)]
  {
    hide Position, Tail, Events, Flatten, OnTrack;
    delivered := [];
    var line: seq<Byte>, oversized := [], false;
    var next := 0;
    var available: seq<Byte> := [];
    ghost var all := Events(Flatten(chunks), limit, end);
    ghost var pending: seq<Byte> := [];
    StreamStarts(chunks, limit, end);
    while true
      invariant 0 <= next <= |chunks|
      invariant NEWLINE !in pending && line == First(pending, limit) && |line| <= limit
      invariant oversized <==> |pending| > limit
      invariant |delivered| <= accepts
      invariant OnTrack(all, delivered, pending, available + Flatten(chunks[next..]), limit, end)
      decreases |chunks| - next, |available|
    {
      if available == [] {
        // the buffer is empty: read again
        if next == |chunks| {
          NothingLeft(chunks, next);
          StreamEnds(all, delivered, pending, available + Flatten(chunks[next..]), limit, end);
          delivered := SendTail(delivered, line, oversized, end, accepts, limit, pending);
          break;
        }
        assert chunks[next] in chunks;
        FlattenAt(chunks, next);
        available := chunks[next];
        next := next + 1;
      }
      var position := Position(available);
      var complete := position < |available|;
      var segment := available[..position];
      var consumed := if complete then position + 1 else |available|;
      line, oversized := Absorb(line, oversized, segment, limit, pending);
      ghost var rest := available[consumed..] + Flatten(chunks[next..]);
      Segmented(available, Flatten(chunks[next..]));
      available := available[consumed..];
      if complete {
        var event := if oversized then Oversized else Line(line);
        LineCompletes(all, delivered, pending, segment, rest, limit, end);
        if |delivered| >= accepts {
          break;
        }
        delivered := delivered + [event];
        oversized := false;
        line := [];
        pending := [];
      } else {
        LineContinues(all, delivered, pending, segment, rest, limit, end);
        pending := pending + segment;
      }
    }
  }

  /** The text that a list of lines stands for, and the events a reader must report for it. */
  function Written(lines: seq<seq<Byte>>): seq<Byte> {
    if lines == [] then [] else lines[0] + [NEWLINE] + Written(lines[1..])
  }

  function Reported(lines: seq<seq<Byte>>, limit: nat): seq<LineEvent> {
    seq(|lines|, i requires 0 <= i < |lines| => LineOf(lines[i], limit))
  }

  lemma ReportedCons(lines: seq<seq<Byte>>, limit: nat)
    requires lines != []
    ensures Reported(lines, limit) == [LineOf(lines[0], limit)] + Reported(lines[1..], limit)
  {
  }

  /** Each written line is reported once, in order, with its own bytes if it fits and as oversized if not. */
  lemma {:induction false} EventsOfWritten(lines: seq<seq<Byte>>, rest: seq<Byte>, limit: nat, end: End)
    requires (forall l | l in lines :: NEWLINE !in l) && NEWLINE !in rest
    ensures Events(Written(lines) + rest, limit, end) == Reported(lines, limit) + Tail(rest, limit, end)
  {
    if lines == [] {
      assert Written(lines) + rest == rest;
      PositionNone(rest);
    } else {
      EventsOfWritten(lines[1..], rest, limit, end);
      var more := Written(lines[1..]) + rest;
      assert NEWLINE !in lines[0] by { assert lines[0] in lines; }
      EventsFirst(lines[0], more, limit, end);
      Associative(lines[0] + [NEWLINE], Written(lines[1..]), rest);
      ReportedCons(lines, limit);
      Associative([LineOf(lines[0], limit)], Reported(lines[1..], limit), Tail(rest, limit, end));
    }
  }

  /** Event for event: a line within the limit is reported with its bytes and a longer one as oversized, an unfinished
    * last line too unless the stream failed, and the end of the stream last. */
  lemma StreamIsReported(lines: seq<seq<Byte>>, rest: seq<Byte>, limit: nat, end: End)
    requires (forall l | l in lines :: NEWLINE !in l) && NEWLINE !in rest
    ensures var events, n := Events(Written(lines) + rest, limit, end), |lines|;
            && |events| == n + (if end == Closed && rest != [] then 2 else 1)
            && (forall i | 0 <= i < n :: events[i] == if |lines[i]| <= limit then Line(lines[i]) else Oversized)
            && (end == Closed && rest != [] ==> events[n] == if |rest| <= limit then Line(rest) else Oversized)
            && events[|events| - 1] == if end == Closed then Eof else Error
  {
    EventsOfWritten(lines, rest, limit, end);
  }

  /** Every byte stream is some list of lines followed by an unfinished one. */
  lemma {:induction false} EveryStreamIsLines(bytes: seq<Byte>) returns (lines: seq<seq<Byte>>, rest: seq<Byte>)
    ensures bytes == Written(lines) + rest
    ensures (forall l | l in lines :: NEWLINE !in l) && NEWLINE !in rest
    decreases |bytes|
  {
    var i := Position(bytes);
    if i == |bytes| {
      assert bytes[..i] == bytes;
      lines, rest := [], bytes;
    } else {
      var more;
      more, rest := EveryStreamIsLines(bytes[i + 1..]);
      lines := [bytes[..i]] + more;
      assert lines[1..] == more;
      assert bytes == bytes[..i] + [NEWLINE] + (Written(more) + rest);
    }
  }

  datatype Drained = Drained(bytes: seq<Byte>, truncated: bool)

  /** `drain_bounded`: keep the first `limit` bytes, read on to the end, and say whether anything was dropped. */
  method DrainBounded(chunks: seq<seq<Byte>>, limit: nat, end: End) returns (output: Option<Drained>)
    ensures end == Failed ==> output == None
    ensures end == Closed ==> output == Some(Drained(First(Flatten(chunks), limit), |Flatten(chunks)| > limit))
  {
    var bytes: seq<Byte>, truncated := [], false;
    assert chunks[0..] == chunks;
    ghost var read: seq<Byte> := [];
    for n := 0 to |chunks|
      invariant read + Flatten(chunks[n..]) == Flatten(chunks)
      invariant bytes == First(read, limit) && (truncated <==> |read| > limit)
    {
      var chunk := chunks[n];
      FirstOfMore(read, chunk, limit);
      var keep := Min(limit - |bytes|, |chunk|);
      bytes := bytes + chunk[..keep];
      if keep < |chunk| {
        truncated := true;
      }
      Associative(read, chunk, Flatten(chunks[n + 1..]));
      read := read + chunk;
    }
    assert read + [] == read;
    output := if end == Failed then None else Some(Drained(bytes, truncated));
  }
}

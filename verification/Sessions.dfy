/** Sessions of one connection: `src/awp/session.rs` and the session table of `src/awp/handler.rs`. */
module Sessions {
  import opened Octets
  import opened Sequences

  // ---- the table as a value: one slot kept for old clients, and a map for all later sessions

  const MAX_SESSIONS: nat := 50

  datatype Entry<+S> = Entry(id: string, session: S)

  datatype Table<+S> = Table(slot: Option<Entry<S>>, rest: map<string, S>)

  datatype Op<+S> = Create(id: string, built: Option<S>) | Close(id: string) | Get(id: string)

  datatype Reply<+S> = Created | LimitReached | BuildFailed | Closed | NotFound | Found(session: S)

  function Total<S>(t: Table<S>): nat { |t.rest| + if t.slot.Some? then 1 else 0 }

  function Find<S>(t: Table<S>, id: string): Option<S> {
    if id in t.rest then Some(t.rest[id])
    else if t.slot.Some? && t.slot.value.id == id then Some(t.slot.value.session)
    else None
  }

  function Step<S>(t: Table<S>, op: Op<S>): (Table<S>, Reply<S>) {
    match op
    case Create(id, built) =>
      if Total(t) >= MAX_SESSIONS then (t, LimitReached)
      else if built.None? then (t, BuildFailed)
      else if t.slot.None? && t.rest == map[] then (t.(slot := Some(Entry(id, built.value))), Created)
      else (t.(rest := t.rest[id := built.value]), Created)
    case Close(id) =>
      if id in t.rest then (t.(rest := t.rest - {id}), Closed)
      else if t.slot.Some? && t.slot.value.id == id then (t.(slot := None), Closed)
      else (t, NotFound)
    case Get(id) => (t, if Find(t, id).Some? then Found(Find(t, id).value) else NotFound)
  }

  // ---- what it should be: one map

  function All<S>(t: Table<S>): map<string, S> {
    (if t.slot.Some? then map[t.slot.value.id := t.slot.value.session] else map[]) + t.rest
  }

  function MapStep<S>(m: map<string, S>, op: Op<S>): (map<string, S>, Reply<S>) {
    match op
    case Create(id, built) =>
      if |m| >= MAX_SESSIONS then (m, LimitReached)
      else if built.None? then (m, BuildFailed)
      else (m[id := built.value], Created)
    case Close(id) => if id in m then (m - {id}, Closed) else (m, NotFound)
    case Get(id) => (m, if id in m then Found(m[id]) else NotFound)
  }

  /** No session in the map has the id of the slot. */
  predicate Apart<S>(t: Table<S>) { t.slot.Some? ==> t.slot.value.id !in t.rest }

  lemma TotalIsSize<S>(t: Table<S>)
    requires Apart(t)
    ensures |All(t)| == Total(t)
  {
    if t.slot.Some? {
      AllWithSlot(t.slot.value, t.rest);
      assert All(t).Keys == t.rest.Keys + {t.slot.value.id};
    } else {
      AllWithoutSlot(t.rest);
    }
  }

  lemma AllWithoutSlot<S>(rest: map<string, S>)
    ensures All(Table(None, rest)) == rest
  {
  }

  lemma AllWithSlot<S>(slot: Entry<S>, rest: map<string, S>)
    requires slot.id !in rest
    ensures All(Table(Some(slot), rest)) == rest[slot.id := slot.session]
  {
  }

  lemma AllOfMore<S>(slot: Option<Entry<S>>, rest: map<string, S>, id: string, session: S)
    ensures All(Table(slot, rest[id := session])) == All(Table(slot, rest))[id := session]
  {
  }

  lemma AllOfFewer<S>(slot: Option<Entry<S>>, rest: map<string, S>, id: string)
    requires slot.Some? ==> slot.value.id != id
    ensures All(Table(slot, rest - {id})) == All(Table(slot, rest)) - {id}
  {
  }

  lemma AllOfNoSlot<S>(slot: Entry<S>, rest: map<string, S>)
    requires slot.id !in rest
    ensures All(Table(None, rest)) == All(Table(Some(slot), rest)) - {slot.id}
  {
    AllWithSlot(slot, rest);
    AllWithoutSlot(rest);
  }

  lemma StepRefines<S>(t: Table<S>, op: Op<S>)
    requires Apart(t)
    ensures MapStep(All(t), op) == (All(Step(t, op).0), Step(t, op).1)
  {
    match op
    case Create(id, built) =>
      TotalIsSize(t);
      if built.Some? {
        if t.slot.None? && t.rest == map[] {
          AllWithSlot(Entry(id, built.value), map[]);
          AllWithoutSlot(t.rest);
        } else {
          AllOfMore(t.slot, t.rest, id, built.value);
        }
      }
    case Close(id) =>
      if id in t.rest {
        AllOfFewer(t.slot, t.rest, id);
      } else if t.slot.Some? && t.slot.value.id == id {
        AllOfNoSlot(t.slot.value, t.rest);
      }
    case Get(id) =>
  }

  /** A new session takes the id of the slot's session. */
  predicate Hides<S>(t: Table<S>, op: Op<S>) {
    && op.Create? && op.built.Some? && Total(t) < MAX_SESSIONS
    && t.slot.Some? && t.slot.value.id == op.id
  }

  lemma ApartIff<S>(t: Table<S>, op: Op<S>)
    requires Apart(t)
    ensures !Apart(Step(t, op).0) <==> Hides(t, op)
  {
  }

  /** A session that was hidden comes back when the session that hides it is closed. */
  lemma HiddenSessionComesBack<S>(t: Table<S>)
    requires !Apart(t)
    ensures var id := t.slot.value.id;
            && Step(t, Close(id)).1 == Closed && Step(Step(t, Close(id)).0, Get(id)).1 == Found(t.slot.value.session)
            && All(Step(t, Close(id)).0) != MapStep(All(t), Close(id)).0
  {
    var id := t.slot.value.id;
    assert id in All(Step(t, Close(id)).0) && id !in All(t) - {id};
  }

  function Run<S>(t: Table<S>, ops: seq<Op<S>>): (Table<S>, seq<Reply<S>>)
    decreases |ops|
  {
    if ops == [] then (t, [])
    else
      var (next, reply) := Step(t, ops[0]);
      var (last, replies) := Run(next, ops[1..]);
      (last, [reply] + replies)
  }

  function MapRun<S>(m: map<string, S>, ops: seq<Op<S>>): (map<string, S>, seq<Reply<S>>)
    decreases |ops|
  {
    if ops == [] then (m, [])
    else
      var (next, reply) := MapStep(m, ops[0]);
      var (last, replies) := MapRun(next, ops[1..]);
      (last, [reply] + replies)
  }

  /** No session that is created has the id of the slot's session. */
  predicate NeverHides<S>(t: Table<S>, ops: seq<Op<S>>)
    decreases |ops|
  {
    ops != [] ==> !Hides(t, ops[0]) && NeverHides(Step(t, ops[0]).0, ops[1..])
  }

  lemma LimitHolds<S>(m: map<string, S>, op: Op<S>)
    requires |m| <= MAX_SESSIONS
    ensures |MapStep(m, op).0| <= MAX_SESSIONS
  {
    if op.Create? && op.built.Some? && op.id in m {
      assert m[op.id := op.built.value].Keys == m.Keys;
    } else if op.Close? && op.id in m {
      assert (m - {op.id}).Keys == m.Keys - {op.id};
    }
  }

  /** As long as nobody gets the id of the slot's session, slot and map together give every client the answers that
    * one map of at most fifty sessions gives. */
  lemma {:induction false} TableIsOneMap<S>(t: Table<S>, ops: seq<Op<S>>)
    requires Apart(t) && |All(t)| <= MAX_SESSIONS && NeverHides(t, ops)
    ensures MapRun(All(t), ops) == (All(Run(t, ops).0), Run(t, ops).1)
    ensures Apart(Run(t, ops).0) && Total(Run(t, ops).0) <= MAX_SESSIONS
    decreases |ops|
  {
    if ops == [] {
      TotalIsSize(t);
    } else {
      StepRefines(t, ops[0]);
      ApartIff(t, ops[0]);
      LimitHolds(All(t), ops[0]);
      TableIsOneMap(Step(t, ops[0]).0, ops[1..]);
    }
  }

  /** In particular with ids that no open session has. */
  predicate AreFresh<S>(m: map<string, S>, ops: seq<Op<S>>)
    decreases |ops|
  {
    ops != [] ==> (ops[0].Create? ==> ops[0].id !in m) && AreFresh(MapStep(m, ops[0]).0, ops[1..])
  }

  lemma {:induction false} FreshNeverHides<S>(t: Table<S>, ops: seq<Op<S>>)
    requires Apart(t) && AreFresh(All(t), ops)
    ensures NeverHides(t, ops)
    decreases |ops|
  {
    if ops != [] {
      StepRefines(t, ops[0]);
      ApartIff(t, ops[0]);
      FreshNeverHides(Step(t, ops[0]).0, ops[1..]);
    }
  }

  lemma {:induction false} RunMore<S>(t: Table<S>, ops: seq<Op<S>>, more: seq<Op<S>>)
    ensures Run(t, ops + more).1 == Run(t, ops).1 + Run(Run(t, ops).0, more).1
    decreases |ops|
  {
    hide Step;
    if ops == [] {
      assert ops + more == more;
    } else {
      var next := Step(t, ops[0]).0;
      RunMore(next, ops[1..], more);
      assert (ops + more)[0] == ops[0] && (ops + more)[1..] == ops[1..] + more;
      Associative([Step(t, ops[0]).1], Run(next, ops[1..]).1, Run(Run(next, ops[1..]).0, more).1);
    }
  }

  lemma {:induction false} MapRunMore<S>(m: map<string, S>, ops: seq<Op<S>>, more: seq<Op<S>>)
    ensures MapRun(m, ops + more).1 == MapRun(m, ops).1 + MapRun(MapRun(m, ops).0, more).1
    decreases |ops|
  {
    if ops == [] {
      assert ops + more == more;
    } else {
      var next := MapStep(m, ops[0]).0;
      MapRunMore(next, ops[1..], more);
      assert (ops + more)[0] == ops[0] && (ops + more)[1..] == ops[1..] + more;
      Associative([MapStep(m, ops[0]).1], MapRun(next, ops[1..]).1, MapRun(MapRun(next, ops[1..]).0, more).1);
    }
  }

  lemma SameStart<X>(a: seq<X>, b: seq<X>, c: seq<X>)
    ensures a + b == a + c <==> b == c
  {
    assert (a + b)[|a|..] == b && (a + c)[|a|..] == c;
  }

  /** Create a session, close it, and ask for it. */
  function Probe<S>(op: Op<S>): seq<Op<S>>
    requires op.Create?
  {
    [op, Close(op.id), Get(op.id)]
  }

  lemma ProbeRuns<S>(t: Table<S>, op: Op<S>)
    requires op.Create?
    ensures var next := Step(Step(t, op).0, Close(op.id)).0;
            |Run(t, Probe(op)).1| == 3 && Run(t, Probe(op)).1[2] == Step(next, Get(op.id)).1
  {
    var last: seq<Op<S>> := [Get(op.id)];
    var rest := [Close(op.id)] + last;
    assert Probe(op) == [op] + rest && Probe(op)[1..] == rest && rest[1..] == last && last[1..] == [];
    var t1 := Step(t, op).0;
    var t2 := Step(t1, Close(op.id)).0;
    assert Run(t2, last).1 == [Step(t2, Get(op.id)).1];
    assert Run(t1, rest).1 == [Step(t1, Close(op.id)).1] + Run(t2, last).1;
  }

  lemma MapProbeRuns<S>(m: map<string, S>, op: Op<S>)
    requires op.Create?
    ensures var next := MapStep(MapStep(m, op).0, Close(op.id)).0;
            |MapRun(m, Probe(op)).1| == 3 && MapRun(m, Probe(op)).1[2] == MapStep(next, Get(op.id)).1
  {
    var last: seq<Op<S>> := [Get(op.id)];
    var rest := [Close(op.id)] + last;
    assert Probe(op) == [op] + rest && Probe(op)[1..] == rest && rest[1..] == last && last[1..] == [];
    var m1 := MapStep(m, op).0;
    var m2 := MapStep(m1, Close(op.id)).0;
    assert MapRun(m2, last).1 == [MapStep(m2, Get(op.id)).1];
    assert MapRun(m1, rest).1 == [MapStep(m1, Close(op.id)).1] + MapRun(m2, last).1;
  }

  lemma MapProbeMisses<S>(m: map<string, S>, op: Op<S>)
    requires op.Create?
    ensures |MapRun(m, Probe(op)).1| == 3 && MapRun(m, Probe(op)).1[2] == NotFound
  {
    MapProbeRuns(m, op);
  }

  lemma ProbeNeverHides<S>(t: Table<S>, op: Op<S>)
    requires op.Create? && !Hides(t, op)
    ensures NeverHides(t, Probe(op))
  {
    var last: seq<Op<S>> := [Get(op.id)];
    var rest := [Close(op.id)] + last;
    assert Probe(op) == [op] + rest && Probe(op)[1..] == rest && rest[1..] == last && last[1..] == [];
    assert NeverHides(Step(t, op).0, rest);
  }

  lemma ProbeTells<S>(t: Table<S>, op: Op<S>)
    requires Apart(t) && |All(t)| <= MAX_SESSIONS && op.Create?
    ensures Run(t, Probe(op)).1 == MapRun(All(t), Probe(op)).1 <==> !Hides(t, op)
  {
    if Hides(t, op) {
      ApartIff(t, op);
      HiddenSessionComesBack(Step(t, op).0);
      ProbeRuns(t, op);
      MapProbeMisses(All(t), op);
    } else {
      ProbeNeverHides(t, op);
      TableIsOneMap(t, Probe(op));
    }
  }

  /** The first session to take the slot's id can be told from what one map would answer, and no other session can. */
  lemma OneMapIff<S>(t: Table<S>, ops: seq<Op<S>>, op: Op<S>)
    requires Apart(t) && |All(t)| <= MAX_SESSIONS && NeverHides(t, ops) && op.Create?
    ensures Run(t, ops + Probe(op)).1 == MapRun(All(t), ops + Probe(op)).1 <==> !Hides(Run(t, ops).0, op)
  {
    hide Run, MapRun, Hides, NeverHides, Probe;
    TableIsOneMap(t, ops);
    RunMore(t, ops, Probe(op));
    MapRunMore(All(t), ops, Probe(op));
    var end := Run(t, ops).0;
    TotalIsSize(end);
    ProbeTells(end, op);
    SameStart(Run(t, ops).1, Run(end, Probe(op)).1, MapRun(All(end), Probe(op)).1);
  }

  // ---- a session

  datatype Page<Som> = Page(url: string, title: string, som: Som)

  datatype Visit = Visit(url: string, title: string)

  datatype Observation<Som> =
    | NoPage
    | Snapshot(cursor: nat, som: Som)
    | NoChange(cursor: nat)
    | Changes(cursor: nat, before: Som, after: Som)

  /** What is answered to a client that asks for mutations since a cursor. */
  function Observed<Som>(pages: seq<Som>, since: Option<nat>): Observation<Som> {
    var n := |pages|;
    if n == 0 then NoPage
    else if n == 1 then Snapshot(1, pages[0])
    else if since.Some? && since.value >= n then NoChange(n)
    else Changes(n, pages[n - 2], pages[n - 1])
  }

  /** Whatever the cursor: without a page there is nothing to tell, a first page comes whole, and of more pages the last
    * change is told, unless a cursor is given that is up to date. What is told is about the last page, under the
    * number of pages. */
  lemma ObservationIsCurrent<Som>(pages: seq<Som>, since: Option<nat>)
    ensures var n, r := |pages|, Observed(pages, since);
            && (r.NoPage? <==> n == 0)
            && (r.Snapshot? <==> n == 1) && (r.Snapshot? ==> r.cursor == 1 && r.som == pages[0])
            && (r.NoChange? <==> n >= 2 && since.Some? && n <= since.value) && (r.NoChange? ==> r.cursor == n)
            && (r.Changes? ==> r.cursor == n && r.before == pages[n - 2] && r.after == pages[n - 1])
  {
  }

  /** The answer leads a client from the page it holds, if any, to the page there is. */
  predicate Covers<Som(==)>(r: Observation<Som>, held: Option<Som>, pages: seq<Som>) {
    match r
    case NoPage => pages == []
    case Snapshot(_, som) => pages != [] && som == pages[|pages| - 1]
    case NoChange(_) => pages != [] && held == Some(pages[|pages| - 1])
    case Changes(_, before, after) => pages != [] && held == Some(before) && after == pages[|pages| - 1]
  }

  /** Whatever page a client holds, it is told what it missed exactly when there is no second page, or when it holds the
    * page before the last as that was left, or, with a cursor that is up to date, the last page as it is now. */
  lemma ObservationCoversIff<Som>(pages: seq<Som>, since: nat, held: Option<Som>)
    ensures Covers(Observed(pages, Some(since)), held, pages)
       <==> |pages| <= 1 || held == Some(pages[if since >= |pages| then |pages| - 1 else |pages| - 2])
  {
  }

  function EditedPages<Som>(pages: seq<Som>, edit: Som -> Som): seq<Som> {
    if pages == [] then [] else pages[|pages| - 1 := edit(pages[|pages| - 1])]
  }

  /** After an edit in place a client that is up to date is told that nothing changed, and that is so exactly when the
    * edit did nothing. A client with a first page only gets the page itself. */
  lemma EditIsNotObserved<Som>(pages: seq<Som>, edit: Som -> Som)
    requires |pages| > 1
    ensures var edited := EditedPages(pages, edit);
            && Observed(edited, Some(|pages|)) == NoChange(|pages|)
            && (Covers(Observed(edited, Some(|pages|)), Some(pages[|pages| - 1]), edited)
                <==> edit(pages[|pages| - 1]) == pages[|pages| - 1])
  {
  }

  /** A run of three pages in which a client that has the first one is told how the second became the third. */
  method LaggingClient<Som>(a: Page<Som>, b: Page<Som>, c: Page<Som>) returns (r: Observation<Som>)
    ensures r == Changes(3, b.som, c.som)
    ensures Covers(r, Some(a.som), [a.som, b.som, c.som]) <==> a.som == b.som
  {
    var session := new Session<Som>("s_1");
    var first := session.Navigate(Some(a));
    var second := session.Navigate(Some(b));
    var third := session.Navigate(Some(c));
    r := session.ObserveMutations(Some(1));
  }

  /** A run in which a page is edited after a client has got it and before the next page comes: the client is told how
    * the edited page became the next, which covers what it missed exactly when the edit did nothing. */
  method EditedBehind<Som>(a: Page<Som>, edit: Som -> Som, b: Page<Som>)
    returns (got: Observation<Som>, r: Observation<Som>)
    ensures got == Snapshot(1, a.som) && r == Changes(2, edit(a.som), b.som)
    ensures Covers(r, Some(a.som), [edit(a.som), b.som]) <==> edit(a.som) == a.som
  {
    var session := new Session<Som>("s_1");
    var first := session.Navigate(Some(a));
    got := session.ObserveMutations(None);
    session.EditPage(edit);
    var second := session.Navigate(Some(b));
    r := session.ObserveMutations(Some(1));
  }

  class Session<Som> {
    const id: string
    var current: Option<Som>
    var previous: Option<Som>
    var cursor: nat
    var pageCount: nat
    var history: seq<Visit>
    /** All pages that were loaded, as they were last. */
    ghost var pages: seq<Som>

    ghost predicate Valid()
      reads this
    {
      && cursor == pageCount == |history| == |pages|
      && current == (if cursor == 0 then None else Some(pages[cursor - 1]))
      && previous == (if cursor <= 1 then None else Some(pages[cursor - 2]))
    }

    constructor (id: string)
      ensures Valid() && this.id == id && pages == []
    {
      this.id := id;
      current, previous := None, None;
      cursor, pageCount := 0, 0;
      history := [];
      pages := [];
    }

    /** `navigate` and `navigate_with_plugins`; `loaded` is what fetching and compiling the page gave. */
    method Navigate(loaded: Option<Page<Som>>) returns (ok: bool)
      requires Valid()
      modifies this
      ensures Valid() && ok == loaded.Some?
      ensures pages == old(pages) + if ok then [loaded.value.som] else []
      ensures history == old(history) + if ok then [Visit(loaded.value.url, loaded.value.title)] else []
    {
      if loaded.None? {
        return false;
      }
      previous := current;
      current := Some(loaded.value.som);
      cursor := cursor + 1;
      pageCount := pageCount + 1;
      history := history + [Visit(loaded.value.url, loaded.value.title)];
      pages := pages + [loaded.value.som];
      ok := true;
    }

    /** What an action does to the page: an edit in place, with no new page and no new cursor. */
    method EditPage(edit: Som -> Som)
      requires Valid()
      modifies this`current, this`pages
      ensures Valid()
      ensures pages == EditedPages(old(pages), edit)
    {
      if current.Some? {
        pages := pages[cursor - 1 := edit(current.value)];
        current := Some(edit(current.value));
      }
    }

    /** The mutations mode of `handle_page_observe`. */
    method ObserveMutations(since: Option<nat>) returns (r: Observation<Som>)
      requires Valid()
      ensures r == Observed(pages, since)
    {
      if previous.Some? && current.Some? {
        if since.Some? && since.value >= cursor {
          return NoChange(cursor);
        }
        r := Changes(cursor, previous.value, current.value);
      } else if current.Some? {
        r := Snapshot(cursor, current.value);
      } else {
        r := NoPage;
      }
    }
  }

  // ---- the connection

  class ConnectionState<Som> {
    var sessions: map<string, Session<Som>>
    var slot: Session?<Som>

    ghost predicate Valid()
      reads this
    {
      forall id | id in sessions :: sessions[id].id == id
    }

    ghost function AsTable(): Table<Session<Som>>
      reads this
    {
      Table(if slot == null then None else Some(Entry(slot.id, slot)), sessions)
    }

    constructor ()
      ensures Valid() && AsTable() == Table(None, map[])
    {
      sessions := map[];
      slot := null;
    }

    /** `get_session` and `get_session_mut`. */
    method GetSession(id: string) returns (r: Session?<Som>)
      ensures Step(AsTable(), Get(id)).1 == if r == null then NotFound else Found(r)
    {
      if id in sessions {
        return sessions[id];
      }
      r := if slot != null && slot.id == id then slot else null;
    }

    /** `handle_session_create`; `builds` says whether a client could be built for the session. */
    method CreateSession(id: string, builds: bool)
      returns (reply: Reply<Session<Som>>, ghost made: Option<Session<Som>>)
      requires Valid()
      modifies this
      ensures Valid() && (made.Some? <==> builds && Total(old(AsTable())) < MAX_SESSIONS)
      ensures made.Some? ==> made.value.id == id && fresh(made.value) && made.value.Valid() && made.value.pages == []
      ensures (AsTable(), reply) == Step(old(AsTable()), Create(id, made))
    {
      made := None;
      if |sessions| + (if slot != null then 1 else 0) >= MAX_SESSIONS {
        return LimitReached, made;
      }
      if !builds {
        return BuildFailed, made;
      }
      var session := new Session<Som>(id);
      made := Some(session);
      if slot == null && sessions == map[] {
        slot := session;
      } else {
        sessions := sessions[id := session];
      }
      reply := Created;
    }

    /** `handle_session_close`. */
    method CloseSession(id: string) returns (reply: Reply<Session<Som>>)
      requires Valid()
      modifies this
      ensures Valid() && (AsTable(), reply) == Step(old(AsTable()), Close(id))
    {
      if id in sessions {
        sessions := sessions - {id};
        return Closed;
      }
      if slot != null && slot.id == id {
        slot := null;
        return Closed;
      }
      reply := NotFound;
    }
  }
}

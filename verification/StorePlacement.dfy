/** Which starts of the profile store read as stored in every run. */
module StorePlacement {
  import opened Octets
  import opened AuthStore

  /** In every run from a start, every path reads as the profile last stored there, until the user deletes its file. */
  ghost predicate ReadsAsStored(start: State) {
    forall states, i: nat, q | Run(states) && states[0] == start && i < |states| ::
      ReadAt(states[i], q) == if Deleted(states, i, q) then None else LastStored(states, i, q)
  }

  // ---- runs as chains of steps

  /** Some run from the start comes to a state with `last` as the profile last stored at `r`. */
  ghost predicate Comes(start: State, s: State, r: Path, last: Option<Profile>) {
    exists states ::
      && Run(states) && states[0] == start && states[|states| - 1] == s
      && LastStored(states, |states| - 1, r) == last
  }

  lemma {:induction false} LastStoredOfPrefix(states: seq<State>, t: State, i: nat, r: Path)
    requires i < |states|
    ensures LastStored(states + [t], i, r) == LastStored(states, i, r)
  {
    if i > 0 {
      LastStoredOfPrefix(states, t, i - 1, r);
    }
  }

  lemma OneStep(start: State, s: State, t: State, r: Path, last: Option<Profile>)
    requires Comes(start, s, r, last) && Next(s, t)
    ensures Comes(start, t, r, NextLast(s, t, r, last))
  {
    hide Next, NextLast, ReadAt, KeysOk;
    var states :|
      && Run(states) && states[0] == start && states[|states| - 1] == s
      && LastStored(states, |states| - 1, r) == last;
    var more := states + [t];
    LastStoredOfPrefix(states, t, |states| - 1, r);
    forall i | 0 <= i < |more| - 1
      ensures Next(more[i], more[i + 1])
    {
      if i < |states| - 1 {
        assert Next(states[i], states[i + 1]);
      }
    }
    assert Run(more) && more[0] == start && more[|more| - 1] == t;
  }

  /** The holder of the lock neither starts a revocation nor finishes a store. */
  predicate Calm(s: State) {
    s.lock.Some? && At(s, s.lock.value) ==>
      var pc := s.procs[s.lock.value];
      !(pc.Ready? && pc.op.Revoke?) && !(pc.Staging? && pc.result.Stored?)
  }

  lemma CalmStep(start: State, s: State, t: State, r: Path, last: Option<Profile>)
    requires Comes(start, s, r, last) && Next(s, t) && Calm(s)
    ensures Comes(start, t, r, last)
  {
    OneStep(start, s, t, r, last);
  }

  // ---- the run that a misplaced file leads to: one process revokes the path of its domain, another loads it

  function Alone(s: State, pc: Pc): State {
    State(s.keyFile, s.profiles, map[], Some(0), map[0 := pc])
  }

  function Idle(s: State): State { State(s.keyFile, s.profiles, map[], None, map[]) }

  lemma {:induction false} CleansUp(start: State, s: State, op: Op, r: Path, last: Option<Profile>)
    requires Comes(start, s, r, last) && s.lock == Some(0) && s.procs == map[0 := Cleaning(op)]
    ensures Comes(start, Alone(s, Ready(op)), r, last)
    decreases |s.temps|
  {
    if s.temps == map[] {
      var t := Alone(s, Ready(op));
      assert t == Goto(s, 0, Ready(op));
      assert CleanStep(s, t, 0, 0);
      assert Step(s, t, 0, 0, 0, 0);
      CalmStep(start, s, t, r, last);
    } else {
      var temp :| temp in s.temps;
      var t := s.(temps := s.temps - {temp});
      assert t.temps.Keys == s.temps.Keys - {temp};
      assert CleanStep(s, t, 0, temp);
      assert Step(s, t, 0, 0, temp, 0);
      CalmStep(start, s, t, r, last);
      CleansUp(start, t, op, r, last);
    }
  }

  /** A process can begin any operation and get the lock, where there is no other. */
  lemma Enters(start: State, s: State, op: Op, r: Path, last: Option<Profile>)
    requires Comes(start, s, r, last) && s.lock.None? && s.procs == map[]
    ensures Comes(start, Alone(s, Ready(op)), r, last)
  {
    hide Comes, Next;
    var begun := Goto(s, 0, Waiting(op));
    var locked := Goto(begun, 0, Cleaning(op)).(lock := Some(0));
    OperationBegins(s, op);
    LockIsTaken(begun, op);
    CalmStep(start, s, begun, r, last);
    CalmStep(start, begun, locked, r, last);
    assert locked.procs == map[0 := Cleaning(op)];
    CleansUp(start, locked, op, r, last);
  }

  lemma OperationBegins(s: State, op: Op)
    requires s.procs == map[]
    ensures Next(s, Goto(s, 0, Waiting(op)))
  {
    var begun := Goto(s, 0, Waiting(op));
    assert BeginStep(s, begun, 0);
    assert Step(s, begun, 0, 0, 0, 0);
  }

  lemma LockIsTaken(s: State, op: Op)
    requires s.lock.None? && At(s, 0) && s.procs[0] == Waiting(op)
    ensures Next(s, Goto(s, 0, Cleaning(op)).(lock := Some(0)))
  {
    var locked := Goto(s, 0, Cleaning(op)).(lock := Some(0));
    assert AcquireStep(s, locked, 0);
    assert Step(s, locked, 0, 0, 0, 0);
  }

  /** After a revocation nothing is stored at the path, and no process is left. */
  lemma Revokes(start: State, r: Path)
    requires Initial(start)
    ensures Comes(start, Idle(start.(profiles := start.profiles - {r})), r, None)
  {
    assert Run([start]) && LastStored([start], 0, r) == ReadAt(start, r);
    assert Comes(start, start, r, ReadAt(start, r));
    Enters(start, start, Revoke(r), r, ReadAt(start, r));
    var s := Alone(start, Ready(Revoke(r)));
    var t := Alone(start.(profiles := start.profiles - {r}), Releasing(Revoked(r)));
    assert t == Goto(s, 0, Releasing(Revoked(r))).(profiles := s.profiles - {r});
    assert StartStep(s, t, 0);
    assert Step(s, t, 0, 0, 0, 0);
    assert RevokeEvent(s, t, r);
    OneStep(start, s, t, r, ReadAt(start, r));
    var done := Idle(start.(profiles := start.profiles - {r}));
    assert t.procs - {0} == map[];
    assert ReleaseStep(t, done, 0);
    assert Step(t, done, 0, 0, 0, 0);
    CalmStep(start, t, done, r, None);
  }

  /** The state of a process that is alone and is about to get the key for a job. */
  function Asking(s: State, job: Job): State { Alone(s, GetKey(job)) }

  lemma {:induction false} ProfilesGo(start: State, s: State, job: Job, r: Path)
    requires Comes(start, Asking(s, job), r, None)
    ensures Comes(start, Asking(s.(profiles := map[]), job), r, None)
    decreases |s.profiles|
  {
    if s.profiles == map[] {
      assert s.(profiles := map[]) == s;
    } else {
      var q :| q in s.profiles;
      var fewer := s.(profiles := s.profiles - {q});
      assert fewer.profiles.Keys == s.profiles.Keys - {q};
      var a, b := Asking(s, job), Asking(fewer, job);
      assert DeleteStep(a, b, q);
      assert Step(a, b, 0, 0, 0, q);
      CalmStep(start, a, b, r, None);
      ProfilesGo(start, fewer, job, r);
    }
  }

  /** The user can delete the key and all profiles. */
  lemma AllGo(start: State, s: State, job: Job, r: Path)
    requires Comes(start, Asking(s, job), r, None)
    ensures Comes(start, Asking(s.(keyFile := None, profiles := map[]), job), r, None)
  {
    var a, b := Asking(s, job), Asking(s.(keyFile := None), job);
    assert DeleteStep(a, b, 0);
    assert Step(a, b, 0, 0, 0, 0);
    CalmStep(start, a, b, r, None);
    ProfilesGo(start, s.(keyFile := None), job, r);
  }

  /** The states in which a profile that was loaded is written again, from no files at all. */
  function WriteState(i: nat, p: Profile, result: Result): State {
    var job := Write(p, result);
    match i
    case 0 => State(None, map[], map[], Some(0), map[0 := GetKey(job)])
    case 1 => State(None, map[], map[0 := None], Some(0), map[0 := KeyStaging(job, 0, 0, false)])
    case 2 => State(None, map[], map[0 := Some(KeyBytes(0))], Some(0), map[0 := KeyStaging(job, 0, 0, true)])
    case 3 => State(Some(Good(0)), map[], map[], Some(0), map[0 := HaveKey(job, 0)])
    case 4 => State(Some(Good(0)), map[], map[0 := None], Some(0), map[0 := Staging(p, result, 0, 0, false)])
    case 5 => State(Some(Good(0)), map[], map[0 := Some(ProfileBytes(V1(0, p)))], Some(0),
                    map[0 := Staging(p, result, 0, 0, true)])
    case _ => State(Some(Good(0)), map[p.path := V1(0, p)], map[], Some(0), map[0 := Releasing(result)])
  }

  lemma KeyIsMade(i: nat, p: Profile, result: Result)
    requires i < 3
    ensures Next(WriteState(i, p, result), WriteState(i + 1, p, result))
  {
    var s, t := WriteState(i, p, result), WriteState(i + 1, p, result);
    if i == 0 {
      assert t == Goto(s, 0, t.procs[0]).(temps := s.temps[0 := None]);
      assert GetKeyStep(s, t, 0, 0, 0);
    } else if i == 1 {
      assert t == Goto(s, 0, t.procs[0]).(temps := s.temps[0 := Some(KeyBytes(0))]);
      assert StageKeyStep(s, t, 0);
    } else {
      assert s.temps - {0} == map[];
      assert t == Goto(s, 0, t.procs[0]).(keyFile := Some(Good(0)), temps := map[]);
      assert StageKeyStep(s, t, 0);
    }
    assert Step(s, t, 0, 0, 0, 0);
  }

  lemma ProfileIsWritten(i: nat, p: Profile, result: Result)
    requires 3 <= i < 6
    ensures Next(WriteState(i, p, result), WriteState(i + 1, p, result))
  {
    var s, t := WriteState(i, p, result), WriteState(i + 1, p, result);
    if i == 3 {
      assert t == Goto(s, 0, t.procs[0]).(temps := s.temps[0 := None]);
      assert UseKeyStep(s, t, 0, 0);
    } else if i == 4 {
      assert t == Goto(s, 0, t.procs[0]).(temps := s.temps[0 := Some(ProfileBytes(V1(0, p)))]);
      assert StageProfileStep(s, t, 0);
    } else {
      assert s.temps - {0} == map[];
      assert t == Goto(s, 0, t.procs[0]).(profiles := s.profiles[p.path := V1(0, p)], temps := map[]);
      assert StageProfileStep(s, t, 0);
    }
    assert Step(s, t, 0, 0, 0, 0);
  }

  lemma {:induction false} Writes(start: State, i: nat, p: Profile, result: Result, r: Path)
    requires i <= 6 && result.Loaded? && Comes(start, WriteState(0, p, result), r, None)
    ensures Comes(start, WriteState(i, p, result), r, None)
  {
    if i > 0 {
      Writes(start, i - 1, p, result, r);
      if i - 1 < 3 { KeyIsMade(i - 1, p, result); } else { ProfileIsWritten(i - 1, p, result); }
      assert Calm(WriteState(i - 1, p, result));
      CalmStep(start, WriteState(i - 1, p, result), WriteState(i, p, result), r, None);
    }
  }

  /** A load of an old file that the installed key opens comes to write it again. */
  lemma Decrypts(start: State, s: State, q: Path, c: Content, r: Path)
    requires Comes(start, Asking(s, Decrypt(q, c)), r, None) && c.Legacy? && IsMoved(c, s.keyFile)
    ensures Comes(start, Asking(s, Write(c.profile, Loaded(q, Some(c.profile)))), r, None)
  {
    var a, b := Asking(s, Decrypt(q, c)), Alone(s, HaveKey(Decrypt(q, c), c.key));
    assert b == Goto(a, 0, b.procs[0]);
    assert GetKeyStep(a, b, 0, 0, 0);
    assert Step(a, b, 0, 0, 0, 0);
    CalmStep(start, a, b, r, None);
    var t := Asking(s, Write(c.profile, Loaded(q, Some(c.profile))));
    assert t == Goto(b, 0, t.procs[0]);
    assert UseKeyStep(b, t, 0, 0);
    assert Step(b, t, 0, 0, 0, 0);
    CalmStep(start, b, t, r, None);
  }

  /** A load of a file that it would write again comes to do so. */
  lemma LoadWrites(start: State, s: State, q: Path, r: Path)
    requires Comes(start, Idle(s), r, None) && q in s.profiles && IsMoved(s.profiles[q], s.keyFile)
    ensures var p := s.profiles[q].profile;
            Comes(start, Asking(s, Write(p, Loaded(q, Some(p)))), r, None)
  {
    var c := s.profiles[q];
    Enters(start, Idle(s), Load(q), r, None);
    var a := Alone(s, Ready(Load(q)));
    var job := if c.Plain? then Write(c.profile, Loaded(q, Some(c.profile))) else Decrypt(q, c);
    var b := Asking(s, job);
    assert b == Goto(a, 0, GetKey(job));
    assert StartStep(a, b, 0);
    assert Step(a, b, 0, 0, 0, 0);
    CalmStep(start, a, b, r, None);
    if c.Legacy? {
      Decrypts(start, s, q, c, r);
    }
  }

  /** The path of a misplaced file's domain is revoked, and then reads as that file's profile. */
  lemma MisplacedComesBack(start: State, q: Path)
    requires Initial(start) && q in start.profiles && IsMoved(start.profiles[q], start.keyFile)
    requires start.profiles[q].profile.path != q
    ensures var p := start.profiles[q].profile;
            Comes(start, WriteState(6, p, Loaded(q, Some(p))), p.path, None)
  {
    var p := start.profiles[q].profile;
    var r, job := p.path, Write(p, Loaded(q, Some(p)));
    Revokes(start, r);
    var s := start.(profiles := start.profiles - {r});
    LoadWrites(start, s, q, r);
    AllGo(start, s, job, r);
    assert Asking(s.(keyFile := None, profiles := map[]), job) == WriteState(0, p, job.result);
    Writes(start, 6, p, job.result, r);
  }

  /** Every run from a start reads as stored exactly when every file there that a load would write again lies at the
    * path of the domain it holds. */
  lemma ReadsAsStoredIff(start: State)
    requires Initial(start)
    ensures ReadsAsStored(start) <==> WellPlaced(start)
  {
    if WellPlaced(start) {
      forall states, i: nat, q | Run(states) && states[0] == start && i < |states|
        ensures ReadAt(states[i], q) == if Deleted(states, i, q) then None else LastStored(states, i, q)
      {
        PathsReadAsStored(states, i, q);
      }
    } else {
      var q :| q in start.profiles && IsMoved(start.profiles[q], start.keyFile) && start.profiles[q].profile.path != q;
      var p := start.profiles[q].profile;
      MisplacedComesBack(start, q);
      var end := WriteState(6, p, Loaded(q, Some(p)));
      var states :|
        && Run(states) && states[0] == start && states[|states| - 1] == end
        && LastStored(states, |states| - 1, p.path) == None;
      assert ReadAt(end, p.path) == Some(p);
      assert ReadAt(states[|states| - 1], p.path)
          != if Deleted(states, |states| - 1, p.path) then None else LastStored(states, |states| - 1, p.path);
    }
  }

  // ---- stores and loads do succeed

  /** There is a key, or nothing stands in the way of making one. */
  predicate KeyToBeHad(s: State) {
    (s.keyFile.Some? && s.keyFile.value.Good?) || (s.keyFile.None? && !AnyEncrypted(s))
  }

  function WithKey(s: State, k: Key): State { s.(keyFile := Some(Good(k))) }

  lemma GetsKey(start: State, s: State, job: Job, r: Path, last: Option<Profile>) returns (k: Key)
    requires Comes(start, Asking(s, job), r, last) && job.Write? && KeyToBeHad(s)
    ensures Comes(start, Alone(WithKey(s, k), HaveKey(job, k)), r, last)
  {
    var a := Asking(s, job);
    if s.keyFile.Some? {
      k := s.keyFile.value.key;
      var b := Alone(s, HaveKey(job, k));
      assert b == Goto(a, 0, b.procs[0]);
      assert GetKeyStep(a, b, 0, 0, 0);
      assert Step(a, b, 0, 0, 0, 0);
      CalmStep(start, a, b, r, last);
      assert WithKey(s, k) == s;
    } else {
      k := 0;
      MakesKey(start, s, job, r, last);
    }
  }

  /** A process that makes a key, with its temporary. */
  function MakingKey(s: State, job: Job, written: bool): State {
    Alone(s, KeyStaging(job, 0, 0, written)).(temps := map[0 := if written then Some(KeyBytes(0)) else None])
  }

  lemma KeyIsStaged(s: State, job: Job)
    requires job.Write? && s.keyFile.None? && !AnyEncrypted(s)
    ensures Next(Asking(s, job), MakingKey(s, job, false))
  {
    var a, b := Asking(s, job), MakingKey(s, job, false);
    assert !AnyEncrypted(a);
    assert b == Goto(a, 0, b.procs[0]).(temps := a.temps[0 := None]);
    assert GetKeyStep(a, b, 0, 0, 0);
    assert Step(a, b, 0, 0, 0, 0);
  }

  lemma KeyIsWritten(s: State, job: Job)
    ensures Next(MakingKey(s, job, false), MakingKey(s, job, true))
  {
    var b, c := MakingKey(s, job, false), MakingKey(s, job, true);
    assert c == Goto(b, 0, c.procs[0]).(temps := b.temps[0 := Some(KeyBytes(0))]);
    assert StageKeyStep(b, c, 0);
    assert Step(b, c, 0, 0, 0, 0);
  }

  lemma KeyIsInstalled(s: State, job: Job)
    ensures Next(MakingKey(s, job, true), Alone(WithKey(s, 0), HaveKey(job, 0)))
  {
    var c, d := MakingKey(s, job, true), Alone(WithKey(s, 0), HaveKey(job, 0));
    assert c.temps - {0} == map[];
    assert d == Goto(c, 0, d.procs[0]).(keyFile := Some(Good(0)), temps := map[]);
    assert StageKeyStep(c, d, 0);
    assert Step(c, d, 0, 0, 0, 0);
  }

  lemma MakesKey(start: State, s: State, job: Job, r: Path, last: Option<Profile>)
    requires Comes(start, Asking(s, job), r, last) && job.Write? && s.keyFile.None? && !AnyEncrypted(s)
    ensures Comes(start, Alone(WithKey(s, 0), HaveKey(job, 0)), r, last)
  {
    KeyIsStaged(s, job);
    KeyIsWritten(s, job);
    KeyIsInstalled(s, job);
    CalmStep(start, Asking(s, job), MakingKey(s, job, false), r, last);
    CalmStep(start, MakingKey(s, job, false), MakingKey(s, job, true), r, last);
    CalmStep(start, MakingKey(s, job, true), Alone(WithKey(s, 0), HaveKey(job, 0)), r, last);
  }

  /** A process that stores a profile, with its temporary. */
  function Storing(s: State, p: Profile, k: Key, written: bool): State {
    Alone(s, Staging(p, Stored(p), k, 0, written))
      .(temps := map[0 := if written then Some(ProfileBytes(V1(k, p))) else None])
  }

  function AfterStore(s: State, p: Profile, k: Key): State { s.(profiles := s.profiles[p.path := V1(k, p)]) }

  lemma ProfileIsStaged(s: State, p: Profile, k: Key)
    ensures Next(Alone(s, HaveKey(Write(p, Stored(p)), k)), Storing(s, p, k, false))
  {
    var a, b := Alone(s, HaveKey(Write(p, Stored(p)), k)), Storing(s, p, k, false);
    assert b == Goto(a, 0, b.procs[0]).(temps := a.temps[0 := None]);
    assert UseKeyStep(a, b, 0, 0);
    assert Step(a, b, 0, 0, 0, 0);
  }

  lemma ProfileBytesAreWritten(s: State, p: Profile, k: Key)
    ensures Next(Storing(s, p, k, false), Storing(s, p, k, true))
    ensures !StoreEvent(Storing(s, p, k, false), Storing(s, p, k, true), p.path)
  {
    var b, c := Storing(s, p, k, false), Storing(s, p, k, true);
    assert c == Goto(b, 0, c.procs[0]).(temps := b.temps[0 := Some(ProfileBytes(V1(k, p)))]);
    assert StageProfileStep(b, c, 0);
    assert Step(b, c, 0, 0, 0, 0);
  }

  lemma ProfileIsStored(s: State, p: Profile, k: Key)
    ensures Next(Storing(s, p, k, true), Alone(AfterStore(s, p, k), Releasing(Stored(p))))
    ensures StoreEvent(Storing(s, p, k, true), Alone(AfterStore(s, p, k), Releasing(Stored(p))), p.path)
  {
    var c, d := Storing(s, p, k, true), Alone(AfterStore(s, p, k), Releasing(Stored(p)));
    assert c.temps - {0} == map[];
    assert d == Goto(c, 0, d.procs[0]).(profiles := s.profiles[p.path := V1(k, p)], temps := map[]);
    assert StageProfileStep(c, d, 0);
    assert Step(c, d, 0, 0, 0, 0);
  }

  /** With the key, a profile that is to be stored is staged and put in its place. */
  lemma Stores(start: State, s: State, p: Profile, k: Key, last: Option<Profile>)
    requires Comes(start, Alone(s, HaveKey(Write(p, Stored(p)), k)), p.path, last)
    ensures Comes(start, Alone(AfterStore(s, p, k), Releasing(Stored(p))), p.path, Some(p))
  {
    ProfileIsStaged(s, p, k);
    ProfileBytesAreWritten(s, p, k);
    ProfileIsStored(s, p, k);
    CalmStep(start, Alone(s, HaveKey(Write(p, Stored(p)), k)), Storing(s, p, k, false), p.path, last);
    OneStep(start, Storing(s, p, k, false), Storing(s, p, k, true), p.path, last);
    assert !RevokeEvent(Storing(s, p, k, false), Storing(s, p, k, true), p.path);
    OneStep(start, Storing(s, p, k, true), Alone(AfterStore(s, p, k), Releasing(Stored(p))), p.path, last);
  }

  lemma Releases(start: State, s: State, result: Result, r: Path, last: Option<Profile>)
    requires Comes(start, Alone(s, Releasing(result)), r, last)
    ensures Comes(start, Idle(s), r, last)
  {
    var a := Alone(s, Releasing(result));
    assert a.procs - {0} == map[];
    assert ReleaseStep(a, Idle(s), 0);
    assert Step(a, Idle(s), 0, 0, 0, 0);
    CalmStep(start, a, Idle(s), r, last);
  }

  lemma LoadStarts(s: State, q: Path)
    requires q in s.profiles && s.profiles[q].V1?
    ensures Next(Alone(s, Ready(Load(q))), Asking(s, Decrypt(q, s.profiles[q])))
  {
    var a, b := Alone(s, Ready(Load(q))), Asking(s, Decrypt(q, s.profiles[q]));
    assert b == Goto(a, 0, b.procs[0]);
    assert StartStep(a, b, 0);
    assert Step(a, b, 0, 0, 0, 0);
  }

  lemma KeyIsUsed(s: State, job: Job, k: Key)
    requires s.keyFile == Some(Good(k))
    ensures Next(Asking(s, job), Alone(s, HaveKey(job, k)))
  {
    var b, c := Asking(s, job), Alone(s, HaveKey(job, k));
    assert c == Goto(b, 0, c.procs[0]);
    assert GetKeyStep(b, c, 0, 0, 0);
    assert Step(b, c, 0, 0, 0, 0);
  }

  lemma EnvelopeIsOpened(s: State, q: Path, p: Profile, k: Key)
    ensures Next(Alone(s, HaveKey(Decrypt(q, V1(k, p)), k)), Alone(s, Releasing(Loaded(q, Some(p)))))
  {
    var c, d := Alone(s, HaveKey(Decrypt(q, V1(k, p)), k)), Alone(s, Releasing(Loaded(q, Some(p))));
    assert d == Goto(c, 0, d.procs[0]);
    assert UseKeyStep(c, d, 0, 0);
    assert Step(c, d, 0, 0, 0, 0);
  }

  /** An envelope under the installed key is read. */
  lemma Loads(start: State, s: State, q: Path, p: Profile, k: Key, r: Path, last: Option<Profile>)
    requires Comes(start, Idle(s), r, last) && s.keyFile == Some(Good(k))
    requires q in s.profiles && s.profiles[q] == V1(k, p)
    ensures Comes(start, Alone(s, Releasing(Loaded(q, Some(p)))), r, last)
  {
    Enters(start, Idle(s), Load(q), r, last);
    LoadStarts(s, q);
    KeyIsUsed(s, Decrypt(q, V1(k, p)), k);
    EnvelopeIsOpened(s, q, p, k);
    CalmStep(start, Alone(s, Ready(Load(q))), Asking(s, Decrypt(q, V1(k, p))), r, last);
    CalmStep(start, Asking(s, Decrypt(q, V1(k, p))), Alone(s, HaveKey(Decrypt(q, V1(k, p)), k)), r, last);
    CalmStep(start, Alone(s, HaveKey(Decrypt(q, V1(k, p)), k)), Alone(s, Releasing(Loaded(q, Some(p)))), r, last);
  }

  /** From every start with a key, or with nothing encrypted, there is a run that stores any profile, reports it stored,
    * and then loads it and reports its value; nothing else changes but that there is a key. */
  lemma StoredIsLoaded(start: State, p: Profile) returns (k: Key)
    requires Initial(start) && KeyToBeHad(start)
    ensures var after := AfterStore(WithKey(start, k), p, k);
            && Comes(start, Alone(after, Releasing(Stored(p))), p.path, Some(p))
            && Comes(start, Alone(after, Releasing(Loaded(p.path, Some(p)))), p.path, Some(p))
  {
    var q, first := p.path, ReadAt(start, p.path);
    assert Run([start]) && LastStored([start], 0, q) == first;
    assert Comes(start, start, q, first);
    Enters(start, start, Store(p), q, first);
    var a, b := Alone(start, Ready(Store(p))), Asking(start, Write(p, Stored(p)));
    assert b == Goto(a, 0, b.procs[0]);
    assert StartStep(a, b, 0);
    assert Step(a, b, 0, 0, 0, 0);
    CalmStep(start, a, b, q, first);
    k := GetsKey(start, start, Write(p, Stored(p)), q, first);
    Stores(start, WithKey(start, k), p, k, first);
    var after := AfterStore(WithKey(start, k), p, k);
    Releases(start, after, Stored(p), q, Some(p));
    Loads(start, after, q, p, k, q, Some(p));
  }

  /** From every start there is a run that revokes any path, then loads it and reports that there is nothing. */
  lemma RevokedIsAbsent(start: State, q: Path)
    requires Initial(start)
    ensures var after := start.(profiles := start.profiles - {q});
            Comes(start, Alone(after, Releasing(Loaded(q, None))), q, None)
  {
    var after := start.(profiles := start.profiles - {q});
    Revokes(start, q);
    Enters(start, Idle(after), Load(q), q, None);
    var a, b := Alone(after, Ready(Load(q))), Alone(after, Releasing(Loaded(q, None)));
    assert b == Goto(a, 0, b.procs[0]);
    assert StartStep(a, b, 0);
    assert Step(a, b, 0, 0, 0, 0);
    CalmStep(start, a, b, q, None);
  }
}

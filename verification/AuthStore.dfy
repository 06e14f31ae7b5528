/** The key and profile store of `src/auth/store.rs`: many processes, one lock, staged files and atomic renames.
  *
  * Encryption is ideal: a ciphertext is the pair of its key and its plaintext, and decryption succeeds exactly
  * under that key. Keys are random: no process draws the key that sealed the file it has read. A process can crash
  * between any two steps; the operating system then drops its lock and leaves its temporary behind. The user may
  * delete the key file or a profile at any time.
  */
module AuthStore {
  import opened Octets

  type Key = nat
  type Path = nat
  type Pid = nat
  type Temp = nat

  /** A profile and the path its own domain maps to. */
  datatype Profile = Profile(path: Path, body: nat)

  datatype Content =
    | Plain(profile: Profile)
    | Legacy(key: Key, profile: Profile, magic: bool)   // `magic`: the nonce happens to begin with the envelope magic
    | V1(key: Key, profile: Profile)
    | Garbage

  datatype KeyFile = Good(key: Key) | BadSize

  datatype Payload = KeyBytes(key: Key) | ProfileBytes(content: Content)

  datatype Op = Store(profile: Profile) | Load(path: Path) | Revoke(path: Path)

  datatype Result = Stored(profile: Profile) | Loaded(path: Path, value: Option<Profile>) | Revoked(path: Path) | Failed

  /** What a process does once it has the key. */
  datatype Job = Write(profile: Profile, result: Result) | Decrypt(path: Path, content: Content)

  datatype Pc =
    | Waiting(op: Op)
    | Cleaning(op: Op)
    | Ready(op: Op)
    | GetKey(job: Job)
    | KeyStaging(job: Job, key: Key, temp: Temp, written: bool)
    | HaveKey(job: Job, key: Key)
    | Staging(profile: Profile, result: Result, key: Key, temp: Temp, written: bool)
    | Releasing(result: Result)

  datatype State = State(
    keyFile: Option<KeyFile>,
    profiles: map<Path, Content>,
    temps: map<Temp, Option<Payload>>,     // None: created but not completely written
    lock: Option<Pid>,
    procs: map<Pid, Pc>
  )

  predicate Encrypted(c: Content) { !c.Plain? }

  /** `encrypted_profile_exists_without_key`: some profile does not parse as JSON. */
  predicate AnyEncrypted(s: State) { exists q | q in s.profiles :: Encrypted(s.profiles[q]) }

  predicate At(s: State, pid: Pid) { pid in s.procs }

  function Goto(s: State, pid: Pid, pc: Pc): State { s.(procs := s.procs[pid := pc]) }

  // ---- steps of a process

  predicate BeginStep(s: State, t: State, pid: Pid) {
    pid !in s.procs && pid in t.procs && t.procs[pid].Waiting? && t == Goto(s, pid, t.procs[pid])
  }

  predicate AcquireStep(s: State, t: State, pid: Pid) {
    && At(s, pid) && s.procs[pid].Waiting? && s.lock.None?
    && t == Goto(s, pid, Cleaning(s.procs[pid].op)).(lock := Some(pid))
  }

  /** `cleanup_stale_auth_temps`: delete one leftover, or go on when there is none. */
  predicate CleanStep(s: State, t: State, pid: Pid, temp: Temp) {
    && At(s, pid) && s.procs[pid].Cleaning?
    && if s.temps == map[] then t == Goto(s, pid, Ready(s.procs[pid].op))
       else temp in s.temps && t == s.(temps := s.temps - {temp})
  }

  /** The operation proper starts under the lock. */
  predicate StartStep(s: State, t: State, pid: Pid) {
    && At(s, pid) && s.procs[pid].Ready?
    && match s.procs[pid].op
       case Store(p) => t == Goto(s, pid, GetKey(Write(p, Stored(p))))
       case Revoke(q) => t == Goto(s, pid, Releasing(Revoked(q))).(profiles := s.profiles - {q})
       case Load(q) =>
         if q !in s.profiles then t == Goto(s, pid, Releasing(Loaded(q, None)))
         else if s.profiles[q].Plain? then
           t == Goto(s, pid, GetKey(Write(s.profiles[q].profile, Loaded(q, Some(s.profiles[q].profile)))))
         else t == Goto(s, pid, GetKey(Decrypt(q, s.profiles[q])))
  }

  /** A new key is not the one that sealed what the process has read. */
  predicate Fresh(job: Job, key: Key) {
    job.Decrypt? && (job.content.Legacy? || job.content.V1?) ==> job.content.key != key
  }

  /** `get_or_create_master_key_locked`: use the installed key, or stage a new one if nothing is encrypted. */
  predicate GetKeyStep(s: State, t: State, pid: Pid, key: Key, temp: Temp) {
    && At(s, pid) && s.procs[pid].GetKey?
    && var job := s.procs[pid].job;
       match s.keyFile
       case Some(Good(k)) => t == Goto(s, pid, HaveKey(job, k))
       case Some(BadSize) => t == Goto(s, pid, Releasing(Failed))
       case None =>
         if AnyEncrypted(s) then t == Goto(s, pid, Releasing(Failed))
         else temp !in s.temps && Fresh(job, key)
              && t == Goto(s, pid, KeyStaging(job, key, temp, false)).(temps := s.temps[temp := None])
  }

  /** What a rename of the temporary puts in place of the key file or of a profile. */
  function InstalledKey(bytes: Option<Payload>): KeyFile {
    match bytes
    case Some(KeyBytes(k)) => Good(k)
    case _ => BadSize
  }

  function InstalledProfile(bytes: Option<Payload>): Content {
    match bytes
    case Some(ProfileBytes(c)) => c
    case _ => Garbage
  }

  predicate StageKeyStep(s: State, t: State, pid: Pid) {
    && At(s, pid) && s.procs[pid].KeyStaging?
    && var pc := s.procs[pid];
       if !pc.written then
         t == Goto(s, pid, KeyStaging(pc.job, pc.key, pc.temp, true))
                .(temps := s.temps[pc.temp := Some(KeyBytes(pc.key))])
       else if pc.temp in s.temps then
         t == Goto(s, pid, HaveKey(pc.job, pc.key)).(keyFile := Some(InstalledKey(s.temps[pc.temp])),
                                                     temps := s.temps - {pc.temp})
       else t == Goto(s, pid, Releasing(Failed))
  }

  /** With the key: stage the profile to write, or decrypt the one read and migrate it if its format is old. */
  predicate UseKeyStep(s: State, t: State, pid: Pid, temp: Temp) {
    && At(s, pid) && s.procs[pid].HaveKey?
    && var key := s.procs[pid].key;
       match s.procs[pid].job
       case Write(p, result) =>
         temp !in s.temps && t == Goto(s, pid, Staging(p, result, key, temp, false)).(temps := s.temps[temp := None])
       case Decrypt(q, c) =>
         match c
         case V1(k, p) => t == Goto(s, pid, Releasing(if k == key then Loaded(q, Some(p)) else Failed))
         case Legacy(k, p, magic) =>
           if k == key && !magic then t == Goto(s, pid, GetKey(Write(p, Loaded(q, Some(p)))))
           else t == Goto(s, pid, Releasing(Failed))
         case _ => t == Goto(s, pid, Releasing(Failed))
  }

  predicate StageProfileStep(s: State, t: State, pid: Pid) {
    && At(s, pid) && s.procs[pid].Staging?
    && var pc := s.procs[pid];
       if !pc.written then
         t == Goto(s, pid, Staging(pc.profile, pc.result, pc.key, pc.temp, true))
                .(temps := s.temps[pc.temp := Some(ProfileBytes(V1(pc.key, pc.profile)))])
       else if pc.temp in s.temps then
         t == Goto(s, pid, Releasing(pc.result))
                .(profiles := s.profiles[pc.profile.path := InstalledProfile(s.temps[pc.temp])],
                  temps := s.temps - {pc.temp})
       else t == Goto(s, pid, Releasing(Failed))
  }

  predicate Active(pc: Pc) { !pc.Waiting? }

  function OwnTemps(pc: Pc): set<Temp> {
    if pc.KeyStaging? || pc.Staging? then {pc.temp} else {}
  }

  /** An input or output error: the temporary is dropped and the operation gives up. */
  predicate FailStep(s: State, t: State, pid: Pid) {
    && At(s, pid) && Active(s.procs[pid])
    && t == Goto(s, pid, Releasing(Failed)).(temps := s.temps - OwnTemps(s.procs[pid]))
  }

  predicate ReleaseStep(s: State, t: State, pid: Pid) {
    && At(s, pid) && s.procs[pid].Releasing?
    && t == s.(procs := s.procs - {pid}, lock := None)
  }

  predicate CrashStep(s: State, t: State, pid: Pid) {
    && At(s, pid)
    && t == s.(procs := s.procs - {pid}, lock := if s.lock == Some(pid) then None else s.lock)
  }

  // ---- steps of the user

  predicate DeleteStep(s: State, t: State, q: Path) {
    t == s.(keyFile := None) || t == s.(profiles := s.profiles - {q})
  }

  /** A step that moves one process or the user; `temp` and `key` are the names and bytes it draws. */
  predicate Step(s: State, t: State, pid: Pid, key: Key, temp: Temp, q: Path) {
    || BeginStep(s, t, pid) || AcquireStep(s, t, pid) || CleanStep(s, t, pid, temp) || StartStep(s, t, pid)
    || GetKeyStep(s, t, pid, key, temp) || StageKeyStep(s, t, pid) || UseKeyStep(s, t, pid, temp)
    || StageProfileStep(s, t, pid) || FailStep(s, t, pid) || ReleaseStep(s, t, pid) || CrashStep(s, t, pid)
    || DeleteStep(s, t, q)
  }

  ghost predicate Next(s: State, t: State) { exists pid, key, temp, q :: Step(s, t, pid, key, temp, q) }

  // ---- the invariant

  /** Every envelope is sealed under `key`. */
  predicate SealedUnder(profiles: map<Path, Content>, key: Key) {
    forall q | q in profiles :: profiles[q].V1? ==> profiles[q].key == key
  }

  /** All envelopes share one key, and an installed key is that one. */
  ghost predicate KeysOk(s: State) {
    && (exists k :: SealedUnder(s.profiles, k))
    && (s.keyFile.Some? && s.keyFile.value.Good? ==> SealedUnder(s.profiles, s.keyFile.value.key))
  }

  /** A key in memory is the only one the store has seen. */
  predicate KeyInHand(s: State, key: Key) {
    SealedUnder(s.profiles, key) && (s.keyFile.None? || s.keyFile == Some(Good(key)))
  }

  /** A finished load: the path is gone or still reads as the value returned. */
  predicate Shows(s: State, q: Path, p: Profile) {
    q in s.profiles ==> Decoded(s.profiles[q]) == Some(p)
  }

  function Decoded(c: Content): Option<Profile> {
    if c.Garbage? then None else Some(c.profile)
  }

  predicate JobOk(s: State, job: Job) {
    match job
    case Write(p, result) => ResultOfWrite(s, p, result)
    case Decrypt(q, c) => Encrypted(c) && (q in s.profiles ==> s.profiles[q] == c)
  }

  predicate ResultOfWrite(s: State, p: Profile, result: Result) {
    || result == Stored(p)
    || (result.Loaded? && result.value == Some(p) && Shows(s, result.path, p))
  }

  predicate HolderOk(s: State, pc: Pc) {
    match pc
    case Waiting(_) => false
    case Cleaning(_) => true
    case Ready(_) => s.temps == map[]
    case GetKey(job) => s.temps == map[] && JobOk(s, job)
    case KeyStaging(job, key, temp, written) =>
      && s.temps == map[temp := if written then Some(KeyBytes(key)) else None]
      && s.keyFile.None? && !AnyEncrypted(s) && JobOk(s, job)
    case HaveKey(job, key) => s.temps == map[] && KeyInHand(s, key) && JobOk(s, job)
    case Staging(p, result, key, temp, written) =>
      && s.temps == map[temp := if written then Some(ProfileBytes(V1(key, p))) else None]
      && KeyInHand(s, key) && ResultOfWrite(s, p, result)
    case Releasing(result) => ResultOk(s, result)
  }

  /** What a returned result says of the files, as long as the lock is held. */
  predicate ResultOk(s: State, result: Result) {
    match result
    case Stored(p) => p.path in s.profiles ==> s.profiles[p.path].V1? && s.profiles[p.path].profile == p
    case Loaded(q, Some(p)) => Shows(s, q, p)
    case Loaded(q, None) => q !in s.profiles
    case Revoked(q) => q !in s.profiles
    case Failed => true
  }

  ghost predicate Inv(s: State) {
    && KeysOk(s)
    && (forall pid | pid in s.procs && Active(s.procs[pid]) :: s.lock == Some(pid))
    && (s.lock.Some? ==> s.lock.value in s.procs && HolderOk(s, s.procs[s.lock.value]))
  }

  lemma BeginKeepsInv(s: State, t: State, pid: Pid)
    requires Inv(s) && BeginStep(s, t, pid)
    ensures Inv(t)
  {
  }

  lemma AcquireKeepsInv(s: State, t: State, pid: Pid)
    requires Inv(s) && AcquireStep(s, t, pid)
    ensures Inv(t)
  {
  }

  lemma CleanKeepsInv(s: State, t: State, pid: Pid, temp: Temp)
    requires Inv(s) && CleanStep(s, t, pid, temp)
    ensures Inv(t)
  {
  }

  lemma StartKeepsInv(s: State, t: State, pid: Pid)
    requires Inv(s) && StartStep(s, t, pid)
    ensures Inv(t)
  {
    var k :| SealedUnder(s.profiles, k);
    assert SealedUnder(t.profiles, k);
  }

  lemma GetKeyKeepsInv(s: State, t: State, pid: Pid, key: Key, temp: Temp)
    requires Inv(s) && GetKeyStep(s, t, pid, key, temp)
    ensures Inv(t)
  {
  }

  lemma StageKeyKeepsInv(s: State, t: State, pid: Pid)
    requires Inv(s) && StageKeyStep(s, t, pid)
    ensures Inv(t)
  {
  }

  lemma UseKeyKeepsInv(s: State, t: State, pid: Pid, temp: Temp)
    requires Inv(s) && UseKeyStep(s, t, pid, temp)
    ensures Inv(t)
  {
  }

  lemma StageProfileKeepsInv(s: State, t: State, pid: Pid)
    requires Inv(s) && StageProfileStep(s, t, pid)
    ensures Inv(t)
  {
    var k :| SealedUnder(s.profiles, k);
    assert SealedUnder(t.profiles, s.procs[pid].key) || SealedUnder(t.profiles, k);
  }

  lemma FailKeepsInv(s: State, t: State, pid: Pid)
    requires Inv(s) && FailStep(s, t, pid)
    ensures Inv(t)
  {
  }

  lemma ReleaseKeepsInv(s: State, t: State, pid: Pid)
    requires Inv(s) && ReleaseStep(s, t, pid)
    ensures Inv(t)
  {
  }

  lemma CrashKeepsInv(s: State, t: State, pid: Pid)
    requires Inv(s) && CrashStep(s, t, pid)
    ensures Inv(t)
  {
  }

  lemma DeleteKeepsInv(s: State, t: State, q: Path)
    requires Inv(s) && DeleteStep(s, t, q)
    ensures Inv(t)
  {
    var k :| SealedUnder(s.profiles, k);
    assert SealedUnder(t.profiles, k);
  }

  lemma StepKeepsInv(s: State, t: State, pid: Pid, key: Key, temp: Temp, q: Path)
    requires Inv(s) && Step(s, t, pid, key, temp, q)
    ensures Inv(t)
  {
    if BeginStep(s, t, pid) { BeginKeepsInv(s, t, pid); }
    else if AcquireStep(s, t, pid) { AcquireKeepsInv(s, t, pid); }
    else if CleanStep(s, t, pid, temp) { CleanKeepsInv(s, t, pid, temp); }
    else if StartStep(s, t, pid) { StartKeepsInv(s, t, pid); }
    else if GetKeyStep(s, t, pid, key, temp) { GetKeyKeepsInv(s, t, pid, key, temp); }
    else if StageKeyStep(s, t, pid) { StageKeyKeepsInv(s, t, pid); }
    else if UseKeyStep(s, t, pid, temp) { UseKeyKeepsInv(s, t, pid, temp); }
    else if StageProfileStep(s, t, pid) { StageProfileKeepsInv(s, t, pid); }
    else if FailStep(s, t, pid) { FailKeepsInv(s, t, pid); }
    else if ReleaseStep(s, t, pid) { ReleaseKeepsInv(s, t, pid); }
    else if CrashStep(s, t, pid) { CrashKeepsInv(s, t, pid); }
    else { DeleteKeepsInv(s, t, q); }
  }

  // ---- runs

  /** Any files at all, as long as envelopes and key agree, and any leftovers of earlier crashes. */
  ghost predicate Initial(s: State) { KeysOk(s) && s.lock.None? && s.procs == map[] }

  ghost predicate Run(states: seq<State>) {
    && states != [] && Initial(states[0])
    && forall i | 0 <= i < |states| - 1 :: Next(states[i], states[i + 1])
  }

  lemma {:induction false} RunKeepsInv(states: seq<State>, i: nat)
    requires Run(states) && i < |states|
    ensures Inv(states[i])
  {
    if i > 0 {
      RunKeepsInv(states, i - 1);
      assert Next(states[i - 1], states[i - 1 + 1]);
      var pid, key, temp, q :| Step(states[i - 1], states[i], pid, key, temp, q);
      StepKeepsInv(states[i - 1], states[i], pid, key, temp, q);
    }
  }

  // ---- what a step may do to the files

  ghost predicate FilesKept(s: State, t: State) { t.keyFile == s.keyFile && t.profiles == s.profiles }

  /** A whole key, where there was none and nothing was encrypted. */
  ghost predicate KeyCreated(s: State, t: State) {
    && s.keyFile.None? && t.keyFile.Some? && t.keyFile.value.Good?
    && !AnyEncrypted(s) && t.profiles == s.profiles
  }

  /** A whole envelope, under the key in force, at the path of its own profile. */
  ghost predicate EnvelopeWritten(s: State, t: State, k: Key, p: Profile) {
    && t.keyFile == s.keyFile && t.profiles == s.profiles[p.path := V1(k, p)]
    && SealedUnder(s.profiles, k) && (s.keyFile.Some? ==> s.keyFile == Some(Good(k)))
  }

  /** The holder of the lock revokes the profile at a path. */
  predicate RevokeEvent(s: State, t: State, q: Path) {
    s.lock.Some? && At(s, s.lock.value) && s.procs[s.lock.value] == Ready(Revoke(q)) && StartStep(s, t, s.lock.value)
  }

  /** The user deletes a file, and nothing else happens. */
  predicate DeleteEvent(s: State, t: State, q: Path) { q in s.profiles && t == s.(profiles := s.profiles - {q}) }

  predicate DeleteKeyEvent(s: State, t: State) { t == s.(keyFile := None) }

  /** The holder of the lock is where its written temporary takes the place of a profile. */
  predicate Renaming(s: State) {
    s.lock.Some? && At(s, s.lock.value) && s.procs[s.lock.value].Staging? && s.procs[s.lock.value].written
  }

  /** The holder of the lock is where its written temporary takes the place of the key file. */
  predicate Installing(s: State) {
    s.lock.Some? && At(s, s.lock.value) && s.procs[s.lock.value].KeyStaging? && s.procs[s.lock.value].written
  }

  lemma StagedRename(s: State, t: State, pid: Pid)
    requires Inv(s) && StageProfileStep(s, t, pid)
    ensures FilesKept(s, t) || EnvelopeWritten(s, t, s.procs[pid].key, s.procs[pid].profile)
    ensures s.procs[pid].written ==>
              && EnvelopeWritten(s, t, s.procs[pid].key, s.procs[pid].profile)
              && t.procs[pid] == Releasing(s.procs[pid].result)
  {
  }

  lemma KeyRename(s: State, t: State, pid: Pid)
    requires Inv(s) && StageKeyStep(s, t, pid)
    ensures FilesKept(s, t) || KeyCreated(s, t)
    ensures s.procs[pid].written ==> KeyCreated(s, t) && t.keyFile == Some(Good(s.procs[pid].key))
  {
  }

  /** A step keeps the files, installs the whole key its process drew, writes the whole envelope its process staged,
    * revokes one profile, or is the user deleting one file. */
  ghost predicate WritesWhole(s: State, t: State) {
    || FilesKept(s, t)
    || (Installing(s) && KeyCreated(s, t) && t.keyFile == Some(Good(s.procs[s.lock.value].key)))
    || (Renaming(s) && EnvelopeWritten(s, t, s.procs[s.lock.value].key, s.procs[s.lock.value].profile)
        && StageProfileStep(s, t, s.lock.value))
    || (exists q :: RevokeEvent(s, t, q) && t.keyFile == s.keyFile && t.profiles == s.profiles - {q})
    || (exists q :: DeleteEvent(s, t, q))
    || DeleteKeyEvent(s, t)
  }

  lemma StepWritesWhole(s: State, t: State)
    requires Inv(s) && Next(s, t)
    ensures WritesWhole(s, t)
  {
    var pid, key, temp, q :| Step(s, t, pid, key, temp, q);
    if StageProfileStep(s, t, pid) {
      StagedRename(s, t, pid);
    } else if StageKeyStep(s, t, pid) {
      KeyRename(s, t, pid);
    } else if StartStep(s, t, pid) {
      StartWritesWhole(s, t, pid);
    } else if DeleteStep(s, t, q) {
      DeleteWritesWhole(s, t, q);
    } else {
      OtherKeepsFiles(s, t, pid, key, temp);
    }
  }

  lemma StartWritesWhole(s: State, t: State, pid: Pid)
    requires Inv(s) && StartStep(s, t, pid)
    ensures WritesWhole(s, t)
  {
    if s.procs[pid].op.Revoke? {
      assert RevokeEvent(s, t, s.procs[pid].op.path);
    }
  }

  lemma DeleteWritesWhole(s: State, t: State, q: Path)
    requires DeleteStep(s, t, q)
    ensures WritesWhole(s, t)
  {
    if t != s.(keyFile := None) {
      if q in s.profiles {
        assert DeleteEvent(s, t, q);
      } else {
        assert s.profiles - {q} == s.profiles;
      }
    }
  }

  lemma OtherKeepsFiles(s: State, t: State, pid: Pid, key: Key, temp: Temp)
    requires
      || BeginStep(s, t, pid) || AcquireStep(s, t, pid) || CleanStep(s, t, pid, temp) || UseKeyStep(s, t, pid, temp)
      || GetKeyStep(s, t, pid, key, temp) || FailStep(s, t, pid) || ReleaseStep(s, t, pid) || CrashStep(s, t, pid)
    ensures FilesKept(s, t)
  {
  }

  /** No step tears a file, and none loses one. */
  lemma OnlyWholeWrites(states: seq<State>, i: nat)
    requires Run(states) && i + 1 < |states|
    ensures WritesWhole(states[i], states[i + 1])
  {
    RunKeepsInv(states, i);
    assert Next(states[i], states[i + 1]);
    StepWritesWhole(states[i], states[i + 1]);
  }

  /** An installed key stays as it is until the user deletes it, and none is created while anything is encrypted. */
  lemma KeyIsNeverReplaced(states: seq<State>, i: nat)
    requires Run(states) && i + 1 < |states|
    ensures var s, t := states[i], states[i + 1];
            || t.keyFile == s.keyFile
            || DeleteKeyEvent(s, t)
            || (s.keyFile.None? && !AnyEncrypted(s) && Installing(s)
                && t.keyFile == Some(Good(s.procs[s.lock.value].key)))
  {
    OnlyWholeWrites(states, i);
  }

  /** Every envelope opens under the installed key. */
  lemma EnvelopesOpen(states: seq<State>, i: nat, q: Path)
    requires Run(states) && i < |states|
    requires q in states[i].profiles && states[i].profiles[q].V1?
    requires states[i].keyFile.Some? && states[i].keyFile.value.Good?
    ensures states[i].profiles[q].key == states[i].keyFile.value.key
  {
    RunKeepsInv(states, i);
  }

  /** Reading an envelope with the key in hand always succeeds, unless the user deleted it meanwhile. */
  lemma OpeningSucceeds(s: State, t: State, pid: Pid, temp: Temp)
    requires Inv(s) && UseKeyStep(s, t, pid, temp) && s.procs[pid].job.Decrypt? && s.procs[pid].job.content.V1?
    requires s.procs[pid].job.path in s.profiles
    ensures t.procs[pid] == Releasing(Loaded(s.procs[pid].job.path, Some(s.procs[pid].job.content.profile)))
  {
  }

  /** At most one process is past the lock, and cleaning up never takes the temporary of a live writer. */
  lemma CleanupSparesLiveWriters(states: seq<State>, i: nat, t: State, pid: Pid, temp: Temp)
    requires Run(states) && i < |states| && CleanStep(states[i], t, pid, temp) && temp in states[i].temps
    ensures forall other | other in states[i].procs :: temp !in OwnTemps(states[i].procs[other])
    ensures forall other | other in states[i].procs && Active(states[i].procs[other]) :: other == pid
  {
    RunKeepsInv(states, i);
  }

  /** A live writer's temporary is there, and holds what the writer put in it, until the writer renames it. */
  lemma LiveTemporaryIsIntact(states: seq<State>, i: nat, pid: Pid)
    requires Run(states) && i < |states| && pid in states[i].procs
    ensures var s, pc := states[i], states[i].procs[pid];
            && OwnTemps(pc) <= s.temps.Keys
            && (pc.Staging? && pc.written ==> s.temps[pc.temp] == Some(ProfileBytes(V1(pc.key, pc.profile))))
            && (pc.KeyStaging? && pc.written ==> s.temps[pc.temp] == Some(KeyBytes(pc.key)))
  {
    RunKeepsInv(states, i);
  }

  predicate Opens(c: Content, key: Key) { (c.V1? && c.key == key) || (c.Legacy? && c.key == key && !c.magic) }

  /** A step that is no input or output error makes an operation fail only because the key file is damaged, because
    * there is no key while something is encrypted, or because the key does not open the file read. */
  lemma FailuresHaveCauses(s: State, t: State, pid: Pid, key: Key, temp: Temp)
    requires Inv(s)
    requires
      || StartStep(s, t, pid) || GetKeyStep(s, t, pid, key, temp) || StageKeyStep(s, t, pid)
      || UseKeyStep(s, t, pid, temp) || StageProfileStep(s, t, pid)
    ensures var pc := s.procs[pid];
            t.procs[pid] == Releasing(Failed)
            <==> || (pc.GetKey? && (s.keyFile == Some(BadSize) || (s.keyFile.None? && AnyEncrypted(s))))
                 || (pc.HaveKey? && pc.job.Decrypt? && !Opens(pc.job.content, pc.key))
  {
    if StageProfileStep(s, t, pid) {
      StagedRename(s, t, pid);
    } else if StageKeyStep(s, t, pid) {
      KeyRename(s, t, pid);
    }
  }

  // ---- what happens at one path

  /** The value a path reads as. */
  function ReadAt(s: State, q: Path): Option<Profile> {
    if q in s.profiles then Decoded(s.profiles[q]) else None
  }

  /** A store has put its profile in place. */
  predicate StoreEvent(s: State, t: State, q: Path) {
    && Renaming(s)
    && var pc := s.procs[s.lock.value];
       pc.result == Stored(pc.profile) && pc.profile.path == q && StageProfileStep(s, t, s.lock.value)
  }

  /** A load has put a profile back in the current format. */
  predicate MigrateEvent(s: State, t: State, q: Path) {
    && Renaming(s)
    && var pc := s.procs[s.lock.value];
       pc.result.Loaded? && pc.profile.path == q && StageProfileStep(s, t, s.lock.value)
  }

  /** A path keeps its file unless one of four things happens to it. */
  lemma PathChanges(s: State, t: State, q: Path)
    requires Inv(s) && Next(s, t)
    requires !StoreEvent(s, t, q) && !MigrateEvent(s, t, q) && !RevokeEvent(s, t, q) && !DeleteEvent(s, t, q)
    ensures (q in t.profiles <==> q in s.profiles) && (q in s.profiles ==> t.profiles[q] == s.profiles[q])
  {
    StepWritesWhole(s, t);
  }

  predicate NextDeleted(s: State, t: State, q: Path, deleted: bool) {
    !StoreEvent(s, t, q) && !MigrateEvent(s, t, q) && !RevokeEvent(s, t, q) && (deleted || DeleteEvent(s, t, q))
  }

  /** The last thing that happened to the file of a path is that the user deleted it. */
  predicate Deleted(states: seq<State>, i: nat, q: Path)
    requires i < |states|
  {
    i > 0 && NextDeleted(states[i - 1], states[i], q, Deleted(states, i - 1, q))
  }

  /** The process has read the file of a path, or has written it. */
  predicate Relies(pc: Pc, q: Path) {
    match pc
    case GetKey(job) => JobRelies(job, q)
    case KeyStaging(job, _, _, _) => JobRelies(job, q)
    case HaveKey(job, _) => JobRelies(job, q)
    case Staging(_, result, _, _, _) => result.Loaded? && result.path == q
    case Releasing(Stored(p)) => p.path == q
    case Releasing(Loaded(r, Some(_))) => r == q
    case _ => false
  }

  predicate JobRelies(job: Job, q: Path) {
    match job
    case Write(_, result) => result.Loaded? && result.path == q
    case Decrypt(r, _) => r == q
  }

  predicate ReliesRightly(s: State, q: Path, deleted: bool) {
    s.lock.Some? && s.lock.value in s.procs && Relies(s.procs[s.lock.value], q) ==> q in s.profiles || deleted
  }

  /** A reliance on a path is old, or the step has found or put the file there. */
  ghost predicate Founded(s: State, t: State, q: Path) {
    t.lock.Some? && t.lock.value in t.procs && Relies(t.procs[t.lock.value], q) ==>
      && (q in t.profiles || (s.lock.Some? && s.lock.value in s.procs && Relies(s.procs[s.lock.value], q)))
      && !RevokeEvent(s, t, q)
  }

  lemma NewReliance(s: State, t: State, q: Path)
    requires Inv(s) && Next(s, t)
    ensures Founded(s, t, q)
  {
    var pid, key, temp, r :| Step(s, t, pid, key, temp, r);
    if StageProfileStep(s, t, pid) {
      RenameReliance(s, t, pid, q);
    } else if StartStep(s, t, pid) {
      StartReliance(s, t, pid, q);
    } else if UseKeyStep(s, t, pid, temp) {
      UseKeyReliance(s, t, pid, temp, q);
    } else if GetKeyStep(s, t, pid, key, temp) || StageKeyStep(s, t, pid) {
      KeyReliance(s, t, pid, key, temp, q);
    } else {
      OtherReliance(s, t, pid, temp, r, q);
    }
  }

  lemma RenameReliance(s: State, t: State, pid: Pid, q: Path)
    requires Inv(s) && StageProfileStep(s, t, pid)
    ensures Founded(s, t, q)
  {
    StagedRename(s, t, pid);
  }

  lemma StartReliance(s: State, t: State, pid: Pid, q: Path)
    requires Inv(s) && StartStep(s, t, pid)
    ensures Founded(s, t, q)
  {
  }

  lemma UseKeyReliance(s: State, t: State, pid: Pid, temp: Temp, q: Path)
    requires Inv(s) && UseKeyStep(s, t, pid, temp)
    ensures Founded(s, t, q)
  {
  }

  lemma KeyReliance(s: State, t: State, pid: Pid, key: Key, temp: Temp, q: Path)
    requires Inv(s) && (GetKeyStep(s, t, pid, key, temp) || StageKeyStep(s, t, pid))
    ensures Founded(s, t, q)
  {
  }

  lemma OtherReliance(s: State, t: State, pid: Pid, temp: Temp, r: Path, q: Path)
    requires Inv(s)
    requires
      || BeginStep(s, t, pid) || AcquireStep(s, t, pid) || CleanStep(s, t, pid, temp)
      || FailStep(s, t, pid) || ReleaseStep(s, t, pid) || CrashStep(s, t, pid) || DeleteStep(s, t, r)
    ensures Founded(s, t, q)
  {
  }

  lemma {:induction false} RunReliesRightly(states: seq<State>, i: nat, q: Path)
    requires Run(states) && i < |states|
    ensures ReliesRightly(states[i], q, Deleted(states, i, q))
  {
    if i > 0 {
      RunReliesRightly(states, i - 1, q);
      RunKeepsInv(states, i - 1);
      var s, t := states[i - 1], states[i];
      assert Next(states[i - 1], states[i - 1 + 1]);
      if t.lock.Some? && t.lock.value in t.procs && Relies(t.procs[t.lock.value], q) {
        NewReliance(s, t, q);
        if StoreEvent(s, t, q) || MigrateEvent(s, t, q) {
          StagedRename(s, t, s.lock.value);
        } else if !DeleteEvent(s, t, q) {
          PathChanges(s, t, q);
        }
      }
    }
  }

  predicate Holds(s: State, q: Path, c: Content) { q in s.profiles && s.profiles[q] == c }

  /** The files say what a result reports, unless the user has deleted the file since. */
  ghost predicate Stands(states: seq<State>, i: nat, result: Result)
    requires i < |states|
  {
    match result
    case Stored(p) => Deleted(states, i, p.path) || exists k :: Holds(states[i], p.path, V1(k, p))
    case Loaded(q, Some(p)) => Deleted(states, i, q) || ReadAt(states[i], q) == Some(p)
    case Loaded(q, None) => q !in states[i].profiles
    case Revoked(q) => q !in states[i].profiles
    case Failed => true
  }

  lemma ResultsAreTrue(states: seq<State>, i: nat, pid: Pid)
    requires Run(states) && i < |states| && pid in states[i].procs && states[i].procs[pid].Releasing?
    ensures Stands(states, i, states[i].procs[pid].result)
  {
    RunKeepsInv(states, i);
    match states[i].procs[pid].result
    case Stored(p) =>
      RunReliesRightly(states, i, p.path);
      if p.path in states[i].profiles {
        assert Holds(states[i], p.path, V1(states[i].profiles[p.path].key, p));
      }
    case Loaded(q, _) => RunReliesRightly(states, i, q);
    case _ =>
  }

  // ---- profiles at their own paths

  /** A load of this file gives a value and writes it again: the file is plain, or in the old format and the key opens
    * it. */
  predicate IsMoved(c: Content, keyFile: Option<KeyFile>) {
    match c
    case Plain(_) => true
    case Legacy(k, _, magic) => !magic && keyFile == Some(Good(k))
    case _ => false
  }

  /** Every file that a load would write again lies at the path of the domain it holds. */
  predicate WellPlaced(s: State) {
    forall q | q in s.profiles && IsMoved(s.profiles[q], s.keyFile) :: s.profiles[q].profile.path == q
  }

  predicate PlacedJob(job: Job, keyFile: Option<KeyFile>) {
    match job
    case Write(p, result) => result.Loaded? ==> p.path == result.path
    case Decrypt(q, c) => IsMoved(c, keyFile) ==> c.profile.path == q
  }

  predicate Placed(s: State, pc: Pc) {
    match pc
    case GetKey(job) => PlacedJob(job, s.keyFile)
    case KeyStaging(job, key, _, _) => PlacedJob(job, Some(Good(key)))
    case HaveKey(job, key) => PlacedJob(job, Some(Good(key)))
    case Staging(p, result, _, _, _) => result.Loaded? ==> p.path == result.path
    case Releasing(Loaded(q, Some(p))) => q in s.profiles ==> s.profiles[q].V1? && s.profiles[q].profile == p
    case _ => true
  }

  ghost predicate PlacedInv(s: State) {
    && Inv(s) && WellPlaced(s)
    && (s.lock.Some? ==> Placed(s, s.procs[s.lock.value]))
  }

  lemma StepKeepsPlaced(s: State, t: State, pid: Pid, key: Key, temp: Temp, q: Path)
    requires PlacedInv(s) && Step(s, t, pid, key, temp, q)
    ensures PlacedInv(t)
  {
    StepKeepsInv(s, t, pid, key, temp, q);
    if StageProfileStep(s, t, pid) {
      StagedRename(s, t, pid);
    } else if UseKeyStep(s, t, pid, temp) {
      UseKeyKeepsPlaced(s, t, pid, temp);
    } else if StartStep(s, t, pid) {
      StartKeepsPlaced(s, t, pid);
    } else if GetKeyStep(s, t, pid, key, temp) || StageKeyStep(s, t, pid) {
      KeyKeepsPlaced(s, t, pid, key, temp);
    } else {
      OtherKeepsPlaced(s, t, pid, temp, q);
    }
  }

  lemma UseKeyKeepsPlaced(s: State, t: State, pid: Pid, temp: Temp)
    requires PlacedInv(s) && UseKeyStep(s, t, pid, temp) && Inv(t)
    ensures PlacedInv(t)
  {
  }

  lemma StartKeepsPlaced(s: State, t: State, pid: Pid)
    requires PlacedInv(s) && StartStep(s, t, pid) && Inv(t)
    ensures PlacedInv(t)
  {
  }

  lemma KeyKeepsPlaced(s: State, t: State, pid: Pid, key: Key, temp: Temp)
    requires PlacedInv(s) && (GetKeyStep(s, t, pid, key, temp) || StageKeyStep(s, t, pid)) && Inv(t)
    ensures PlacedInv(t)
  {
  }

  lemma OtherKeepsPlaced(s: State, t: State, pid: Pid, temp: Temp, q: Path)
    requires PlacedInv(s) && Inv(t)
    requires
      || BeginStep(s, t, pid) || AcquireStep(s, t, pid) || CleanStep(s, t, pid, temp)
      || FailStep(s, t, pid) || ReleaseStep(s, t, pid) || CrashStep(s, t, pid) || DeleteStep(s, t, q)
    ensures PlacedInv(t)
  {
  }

  lemma {:induction false} RunKeepsPlaced(states: seq<State>, i: nat)
    requires Run(states) && i < |states| && WellPlaced(states[0])
    ensures PlacedInv(states[i])
  {
    if i > 0 {
      RunKeepsPlaced(states, i - 1);
      assert Next(states[i - 1], states[i - 1 + 1]);
      var pid, key, temp, q :| Step(states[i - 1], states[i], pid, key, temp, q);
      StepKeepsPlaced(states[i - 1], states[i], pid, key, temp, q);
    }
  }

  /** A load that returns a value leaves it at its path in the current format, unless the user has deleted it. */
  lemma LoadReadsAndMigrates(states: seq<State>, i: nat, pid: Pid, q: Path, p: Profile)
    requires Run(states) && i < |states| && WellPlaced(states[0])
    requires pid in states[i].procs && states[i].procs[pid] == Releasing(Loaded(q, Some(p)))
    ensures Deleted(states, i, q) || exists k :: Holds(states[i], q, V1(k, p))
  {
    RunKeepsPlaced(states, i);
    RunReliesRightly(states, i, q);
    if q in states[i].profiles {
      assert Holds(states[i], q, V1(states[i].profiles[q].key, p));
    }
  }

  // ---- what a load returns

  function NextLast(s: State, t: State, q: Path, last: Option<Profile>): Option<Profile> {
    if StoreEvent(s, t, q) then Some(s.procs[s.lock.value].profile)
    else if RevokeEvent(s, t, q) then None
    else last
  }

  /** The profile that was last stored at a path and not revoked since; at first, the one that the file holds. */
  function LastStored(states: seq<State>, i: nat, q: Path): Option<Profile>
    requires i < |states|
  {
    if i == 0 then ReadAt(states[0], q) else NextLast(states[i - 1], states[i], q, LastStored(states, i - 1, q))
  }

  predicate JobAgrees(job: Job, q: Path, last: Option<Profile>) {
    match job
    case Write(p, result) => result.Loaded? && result.path == q ==> last == Some(p)
    case Decrypt(r, c) => r == q && !c.Garbage? ==> last == Some(c.profile)
  }

  /** What the holder of the lock has read at `q`, or is about to return, is what was last stored there. */
  predicate HolderAgrees(pc: Pc, q: Path, last: Option<Profile>) {
    match pc
    case GetKey(job) => JobAgrees(job, q, last)
    case KeyStaging(job, _, _, _) => JobAgrees(job, q, last)
    case HaveKey(job, _) => JobAgrees(job, q, last)
    case Staging(p, result, _, _, _) => result.Loaded? && result.path == q ==> last == Some(p)
    case Releasing(Loaded(r, Some(p))) => r == q ==> last == Some(p)
    case Releasing(Stored(p)) => p.path == q ==> last == Some(p)
    case Releasing(Revoked(r)) => r == q ==> last.None?
    case _ => true
  }

  predicate Agrees(s: State, q: Path, last: Option<Profile>) {
    && (ReadAt(s, q).Some? ==> last == ReadAt(s, q))
    && (s.lock.Some? && s.lock.value in s.procs ==> HolderAgrees(s.procs[s.lock.value], q, last))
  }

  lemma EventAgrees(s: State, t: State, q: Path, last: Option<Profile>)
    requires PlacedInv(s) && (StoreEvent(s, t, q) || RevokeEvent(s, t, q))
    ensures Agrees(t, q, NextLast(s, t, q, last))
  {
    if StoreEvent(s, t, q) {
      StagedRename(s, t, s.lock.value);
    }
  }

  lemma StagingAgrees(s: State, t: State, pid: Pid, q: Path, last: Option<Profile>)
    requires PlacedInv(s) && StageProfileStep(s, t, pid) && Agrees(s, q, last) && !StoreEvent(s, t, q)
    ensures Agrees(t, q, last)
  {
    StagedRename(s, t, pid);
  }

  lemma UseKeyAgrees(s: State, t: State, pid: Pid, temp: Temp, q: Path, last: Option<Profile>)
    requires PlacedInv(s) && UseKeyStep(s, t, pid, temp) && Agrees(s, q, last)
    ensures Agrees(t, q, last)
  {
  }

  lemma StartAgrees(s: State, t: State, pid: Pid, q: Path, last: Option<Profile>)
    requires PlacedInv(s) && StartStep(s, t, pid) && Agrees(s, q, last) && !RevokeEvent(s, t, q)
    ensures Agrees(t, q, last)
  {
  }

  lemma KeyAgrees(s: State, t: State, pid: Pid, key: Key, temp: Temp, q: Path, last: Option<Profile>)
    requires PlacedInv(s) && Agrees(s, q, last) && (GetKeyStep(s, t, pid, key, temp) || StageKeyStep(s, t, pid))
    ensures Agrees(t, q, last)
  {
  }

  lemma OtherAgrees(s: State, t: State, pid: Pid, temp: Temp, r: Path, q: Path, last: Option<Profile>)
    requires PlacedInv(s) && Agrees(s, q, last)
    requires
      || BeginStep(s, t, pid) || AcquireStep(s, t, pid) || CleanStep(s, t, pid, temp)
      || FailStep(s, t, pid) || ReleaseStep(s, t, pid) || CrashStep(s, t, pid) || DeleteStep(s, t, r)
    ensures Agrees(t, q, last)
  {
  }

  lemma StepAgrees(s: State, t: State, q: Path, last: Option<Profile>)
    requires PlacedInv(s) && Next(s, t) && Agrees(s, q, last)
    ensures Agrees(t, q, NextLast(s, t, q, last))
  {
    var pid, key, temp, r :| Step(s, t, pid, key, temp, r);
    if StoreEvent(s, t, q) || RevokeEvent(s, t, q) {
      EventAgrees(s, t, q, last);
    } else if StageProfileStep(s, t, pid) {
      StagingAgrees(s, t, pid, q, last);
    } else if UseKeyStep(s, t, pid, temp) {
      UseKeyAgrees(s, t, pid, temp, q, last);
    } else if StartStep(s, t, pid) {
      StartAgrees(s, t, pid, q, last);
    } else if GetKeyStep(s, t, pid, key, temp) || StageKeyStep(s, t, pid) {
      KeyAgrees(s, t, pid, key, temp, q, last);
    } else {
      OtherAgrees(s, t, pid, temp, r, q, last);
    }
  }

  lemma {:induction false} RunAgrees(states: seq<State>, i: nat, q: Path)
    requires Run(states) && i < |states| && WellPlaced(states[0])
    ensures Agrees(states[i], q, LastStored(states, i, q))
  {
    if i == 0 {
      assert states[0].lock.None?;
    } else {
      RunAgrees(states, i - 1, q);
      RunKeepsPlaced(states, i - 1);
      assert Next(states[i - 1], states[i - 1 + 1]);
      StepAgrees(states[i - 1], states[i], q, LastStored(states, i - 1, q));
    }
  }

  lemma StepReads(s: State, t: State, q: Path, last: Option<Profile>, deleted: bool)
    requires Inv(s) && Next(s, t) && Agrees(t, q, NextLast(s, t, q, last))
    requires ReadAt(s, q) == if deleted then None else last
    ensures ReadAt(t, q) == if NextDeleted(s, t, q, deleted) then None else NextLast(s, t, q, last)
  {
    if StoreEvent(s, t, q) || MigrateEvent(s, t, q) {
      StagedRename(s, t, s.lock.value);
    } else if !RevokeEvent(s, t, q) && !DeleteEvent(s, t, q) {
      PathChanges(s, t, q);
    }
  }

  /** In every run a path reads as exactly the profile last stored there and not revoked since, until the user
    * deletes its file. */
  lemma {:induction false} PathsReadAsStored(states: seq<State>, i: nat, q: Path)
    requires Run(states) && i < |states| && WellPlaced(states[0])
    ensures ReadAt(states[i], q) == if Deleted(states, i, q) then None else LastStored(states, i, q)
  {
    if i > 0 {
      PathsReadAsStored(states, i - 1, q);
      RunKeepsInv(states, i - 1);
      RunAgrees(states, i, q);
      assert Next(states[i - 1], states[i - 1 + 1]);
      StepReads(states[i - 1], states[i], q, LastStored(states, i - 1, q), Deleted(states, i - 1, q));
    }
  }

  /** In every run a load returns the profile last stored at its path and not revoked since, and returns none only
    * when there is no such profile or the user deleted its file; a store or a revocation that returns is the last. */
  lemma LoadReturnsLastStored(states: seq<State>, i: nat, pid: Pid, q: Path, p: Profile)
    requires Run(states) && i < |states| && WellPlaced(states[0]) && pid in states[i].procs
    ensures var last, pc := LastStored(states, i, q), states[i].procs[pid];
            && (pc == Releasing(Loaded(q, Some(p))) ==> last == Some(p))
            && (pc == Releasing(Loaded(q, None)) ==> last.None? || Deleted(states, i, q))
            && (pc == Releasing(Stored(p)) && p.path == q ==> last == Some(p))
            && (pc == Releasing(Revoked(q)) ==> last.None?)
  {
    RunKeepsInv(states, i);
    RunAgrees(states, i, q);
    PathsReadAsStored(states, i, q);
  }

  // ---- misplaced files

  /** A migration leaves all other paths alone exactly when the file it read lies at the path of its own domain,
    * or that path already holds the same profile. */
  lemma MigrationIsLocal(s: State, t: State, pid: Pid)
    requires Inv(s) && StageProfileStep(s, t, pid) && s.procs[pid].written && s.procs[pid].result.Loaded?
    ensures var q, p := s.procs[pid].result.path, s.procs[pid].profile;
            (forall r | r != q :: ReadAt(t, r) == ReadAt(s, r)) <==> p.path == q || ReadAt(s, p.path) == Some(p)
  {
    StagedRename(s, t, pid);
    var q, p := s.procs[pid].result.path, s.procs[pid].profile;
    assert ReadAt(t, p.path) == Some(p);
  }

  /** The states of a load of path 0, where a plain file names the domain of path 1. */
  function ClobberState(i: nat): State {
    var p, load := Profile(1, 8), Load(0);
    var job := Write(p, Loaded(0, Some(p)));
    var before := map[0 := Plain(p), 1 := V1(5, Profile(1, 7))];
    match i
    case 0 => State(Some(Good(5)), before, map[], None, map[])
    case 1 => State(Some(Good(5)), before, map[], None, map[0 := Waiting(load)])
    case 2 => State(Some(Good(5)), before, map[], Some(0), map[0 := Cleaning(load)])
    case 3 => State(Some(Good(5)), before, map[], Some(0), map[0 := Ready(load)])
    case 4 => State(Some(Good(5)), before, map[], Some(0), map[0 := GetKey(job)])
    case 5 => State(Some(Good(5)), before, map[], Some(0), map[0 := HaveKey(job, 5)])
    case 6 => State(Some(Good(5)), before, map[3 := None], Some(0), map[0 := Staging(p, job.result, 5, 3, false)])
    case 7 => State(Some(Good(5)), before, map[3 := Some(ProfileBytes(V1(5, p)))], Some(0),
                    map[0 := Staging(p, job.result, 5, 3, true)])
    case _ => State(Some(Good(5)), before[1 := V1(5, p)], map[], Some(0), map[0 := Releasing(job.result)])
  }

  lemma ClobberStart(i: nat)
    requires i < 4
    ensures Next(ClobberState(i), ClobberState(i + 1))
  {
    var s, t := ClobberState(i), ClobberState(i + 1);
    if i == 0 {
      assert t == Goto(s, 0, Waiting(Load(0)));
      assert BeginStep(s, t, 0);
    } else if i == 1 {
      assert t == Goto(s, 0, Cleaning(Load(0))).(lock := Some(0));
      assert AcquireStep(s, t, 0);
    } else if i == 2 {
      assert t == Goto(s, 0, Ready(Load(0)));
      assert CleanStep(s, t, 0, 0);
    } else {
      assert t == Goto(s, 0, GetKey(Write(Profile(1, 8), Loaded(0, Some(Profile(1, 8))))));
      assert StartStep(s, t, 0);
    }
    assert Step(s, t, 0, 0, 0, 0);
  }

  lemma ClobberEnd(i: nat)
    requires 4 <= i < 8
    ensures Next(ClobberState(i), ClobberState(i + 1))
  {
    var s, t := ClobberState(i), ClobberState(i + 1);
    if i == 4 {
      assert t == Goto(s, 0, t.procs[0]);
      assert GetKeyStep(s, t, 0, 0, 3);
    } else if i == 5 {
      assert t == Goto(s, 0, t.procs[0]).(temps := s.temps[3 := None]);
      assert UseKeyStep(s, t, 0, 3);
    } else if i == 6 {
      assert t == Goto(s, 0, t.procs[0]).(temps := s.temps[3 := Some(ProfileBytes(V1(5, Profile(1, 8))))]);
      assert StageProfileStep(s, t, 0);
    } else {
      assert s.temps - {3} == map[];
      assert t == Goto(s, 0, t.procs[0]).(profiles := s.profiles[1 := V1(5, Profile(1, 8))], temps := map[]);
      assert StageProfileStep(s, t, 0);
    }
    assert Step(s, t, 0, 0, 3, 0);
  }

  /** A run in which loading path 0 destroys the profile stored at path 1. */
  lemma MisplacedFileClobbers() returns (states: seq<State>)
    ensures Run(states)
    ensures ReadAt(states[0], 1) == Some(Profile(1, 7))
    ensures var last := states[|states| - 1];
            && ReadAt(last, 1) == Some(Profile(1, 8))
            && last.procs == map[0 := Releasing(Loaded(0, Some(Profile(1, 8))))]
  {
    states := seq(9, i requires 0 <= i => ClobberState(i));
    assert SealedUnder(ClobberState(0).profiles, 5);
    forall i | 0 <= i < 8
      ensures Next(states[i], states[i + 1])
    {
      if i < 4 { ClobberStart(i); } else { ClobberEnd(i); }
    }
  }
}

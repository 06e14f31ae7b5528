/** Secret references in workflow arguments, from `src/agent_workflow.rs`: collecting, resolving, normalising. */
module Secrets {
  import opened Octets
  import opened Json
  import T = Text

  const MAX_STRING_BYTES := 32 * 1024
  const MAX_SECRET_NAME := 64
  const SECRET := "$secret"
  const MARKER := "<secret-reference>"

  predicate NameChar(c: char) { 'A' <= c <= 'Z' || '0' <= c <= '9' || c == '_' }

  /** `[A-Z_][A-Z0-9_]{0,63}`. */
  predicate NameOk(name: string) {
    name != "" && |name| <= MAX_SECRET_NAME && (forall c | c in name :: NameChar(c)) && !('0' <= name[0] <= '9')
  }

  predicate HasSecret(j: Json) { Get(j, SECRET).Some? }

  /** A tree whose secret references are all well formed. */
  predicate WellFormed(j: Json) {
    match j
    case Arr(items) => forall v | v in items :: WellFormed(v)
    case Obj(members) =>
      if HasSecret(j) then |members| == 1 && Get(j, SECRET).value.Str? && NameOk(Get(j, SECRET).value.s)
      else forall m | m in members :: WellFormed(m.value)
    case _ => true
  }

  function Names(j: Json): set<string> {
    match j
    case Arr(items) => set v, n | v in items && n in Names(v) :: n
    case Obj(members) =>
      if HasSecret(j) then (if Get(j, SECRET).value.Str? then {Get(j, SECRET).value.s} else {})
      else set m, n | m in members && n in Names(m.value) :: n
    case _ => {}
  }

  ghost function ItemsNames(items: seq<Json>): set<string> {
    set v, n | v in items && n in Names(v) :: n
  }

  ghost function MemberNames(members: seq<Member>): set<string> {
    set m, n | m in members && n in Names(m.value) :: n
  }

  lemma ItemsNamesAppend(items: seq<Json>, v: Json)
    ensures ItemsNames(items + [v]) == ItemsNames(items) + Names(v)
  {
  }

  lemma MemberNamesAppend(members: seq<Member>, m: Member)
    ensures MemberNames(members + [m]) == MemberNames(members) + Names(m.value)
  {
  }

  /** `collect_secret_refs`: fills a set while it checks, and stops at the first bad reference. */
  method CollectSecretRefs(value: Json, found: set<string>) returns (ok: bool, output: set<string>)
    ensures ok <==> WellFormed(value)
    ensures ok ==> output == found + Names(value)
    decreases value
  {
    hide NameOk, NameChar;
    output := found;
    match value
    case Arr(items) =>
      for i := 0 to |items|
        invariant forall v | v in items[..i] :: WellFormed(v)
        invariant output == found + ItemsNames(items[..i])
      {
        var fine;
        fine, output := CollectSecretRefs(items[i], output);
        if !fine {
          assert items[i] in items;
          return false, output;
        }
        assert items[..i + 1] == items[..i] + [items[i]];
        ItemsNamesAppend(items[..i], items[i]);
      }
      assert items[..|items|] == items;
      assert ItemsNames(items) == Names(value);
      ok := true;
    case Obj(members) =>
      var secret := Get(value, SECRET);
      if secret.Some? {
        if |members| != 1 || !secret.value.Str? || !NameOk(secret.value.s) {
          return false, output;
        }
        output := output + {secret.value.s};
        assert output == found + Names(value);
      } else {
        for i := 0 to |members|
          invariant forall m | m in members[..i] :: WellFormed(m.value)
          invariant output == found + MemberNames(members[..i])
        {
          var fine;
          fine, output := CollectSecretRefs(members[i].value, output);
          if !fine {
            assert members[i] in members;
            return false, output;
          }
          assert members[..i + 1] == members[..i] + [members[i]];
          MemberNamesAppend(members[..i], members[i]);
        }
        assert members[..|members|] == members;
        assert MemberNames(members) == Names(value);
      }
      ok := true;
    case _ =>
      assert Names(value) == {};
      ok := true;
  }

  // ---- resolving

  type Environment = map<string, string>

  datatype Resolution<+A> = Ok(value: A) | InvalidReference | MissingSecret | SecretTooLarge

  function Resolve(j: Json, env: Environment): Resolution<Json>
    decreases j, 1
  {
    match j
    case Arr(items) =>
      (match ResolveItems(items, env)
       case Ok(vs) => Ok(Arr(vs))
       case InvalidReference => InvalidReference
       case MissingSecret => MissingSecret
       case SecretTooLarge => SecretTooLarge)
    case Obj(members) =>
      if HasSecret(j) then ResolveReference(Get(j, SECRET).value, env)
      else
        (match ResolveMembers(members, env)
         case Ok(ms) => Ok(Obj(ms))
         case InvalidReference => InvalidReference
         case MissingSecret => MissingSecret
         case SecretTooLarge => SecretTooLarge)
    case _ => Ok(j)
  }

  function ResolveReference(name: Json, env: Environment): Resolution<Json> {
    if !name.Str? then InvalidReference
    else if name.s !in env then MissingSecret
    else if T.ByteLength(env[name.s]) > MAX_STRING_BYTES then SecretTooLarge
    else Ok(Str(env[name.s]))
  }

  function ResolveItems(items: seq<Json>, env: Environment): Resolution<seq<Json>>
    decreases items, 0
  {
    if items == [] then Ok([])
    else
      match Resolve(items[0], env)
      case Ok(v) =>
        (match ResolveItems(items[1..], env)
         case Ok(vs) => Ok([v] + vs)
         case InvalidReference => InvalidReference
         case MissingSecret => MissingSecret
         case SecretTooLarge => SecretTooLarge)
      case InvalidReference => InvalidReference
      case MissingSecret => MissingSecret
      case SecretTooLarge => SecretTooLarge
  }

  function ResolveMembers(members: seq<Member>, env: Environment): Resolution<seq<Member>>
    decreases members, 0
  {
    if members == [] then Ok([])
    else
      match Resolve(members[0].value, env)
      case Ok(v) =>
        (match ResolveMembers(members[1..], env)
         case Ok(ms) => Ok([Member(members[0].key, v)] + ms)
         case InvalidReference => InvalidReference
         case MissingSecret => MissingSecret
         case SecretTooLarge => SecretTooLarge)
      case InvalidReference => InvalidReference
      case MissingSecret => MissingSecret
      case SecretTooLarge => SecretTooLarge
  }

  /** A name the environment can supply. */
  predicate Supplied(n: string, env: Environment) {
    n in env && T.ByteLength(env[n]) <= MAX_STRING_BYTES
  }

  predicate AllSupplied(names: set<string>, env: Environment) { forall n | n in names :: Supplied(n, env) }

  /** No object anywhere in the tree has the reserved key. */
  predicate SecretFree(j: Json) {
    match j
    case Arr(items) => forall v | v in items :: SecretFree(v)
    case Obj(members) => forall m | m in members :: m.key != SECRET && SecretFree(m.value)
    case _ => true
  }

  lemma NoSecretKey(members: seq<Member>)
    requires !HasSecret(Obj(members))
    ensures forall m | m in members :: m.key != SECRET
  {
  }

  lemma ItemNames(items: seq<Json>)
    requires items != []
    ensures Names(Arr(items)) == Names(items[0]) + Names(Arr(items[1..]))
    ensures WellFormed(Arr(items)) <==> WellFormed(items[0]) && WellFormed(Arr(items[1..]))
  {
    assert items == [items[0]] + items[1..];
  }

  lemma {:induction false} ResolveItemsExactly(items: seq<Json>, env: Environment)
    requires WellFormed(Arr(items))
    ensures ResolveItems(items, env).Ok? <==> AllSupplied(Names(Arr(items)), env)
    ensures ResolveItems(items, env).Ok? ==> forall v | v in ResolveItems(items, env).value :: SecretFree(v)
    decreases items, 0
  {
    if items != [] {
      ItemNames(items);
      ResolveExactly(items[0], env);
      ResolveItemsExactly(items[1..], env);
    }
  }

  ghost predicate MembersWellFormed(members: seq<Member>) { forall m | m in members :: WellFormed(m.value) }

  lemma MemberNamesCons(members: seq<Member>)
    requires members != []
    ensures MemberNames(members) == Names(members[0].value) + MemberNames(members[1..])
    ensures MembersWellFormed(members) <==> WellFormed(members[0].value) && MembersWellFormed(members[1..])
  {
    assert members == [members[0]] + members[1..];
  }

  lemma {:induction false} ResolveMembersExactly(members: seq<Member>, env: Environment)
    requires MembersWellFormed(members) && forall m | m in members :: m.key != SECRET
    ensures ResolveMembers(members, env).Ok? <==> AllSupplied(MemberNames(members), env)
    ensures ResolveMembers(members, env).Ok? ==>
              forall m | m in ResolveMembers(members, env).value :: m.key != SECRET && SecretFree(m.value)
    decreases members, 0
  {
    if members != [] {
      MemberNamesCons(members);
      ResolveExactly(members[0].value, env);
      ResolveMembersExactly(members[1..], env);
    }
  }

  /** Resolving an accepted tree succeeds exactly when every collected name is supplied, and then leaves no
    * reference behind. */
  lemma {:induction false} ResolveExactly(j: Json, env: Environment)
    requires WellFormed(j)
    ensures Resolve(j, env).Ok? <==> AllSupplied(Names(j), env)
    ensures Resolve(j, env).Ok? ==> SecretFree(Resolve(j, env).value)
    decreases j, 1
  {
    match j
    case Arr(items) => ResolveItemsExactly(items, env);
    case Obj(members) =>
      if !HasSecret(j) {
        NoSecretKey(members);
        assert Names(j) == MemberNames(members);
        ResolveMembersExactly(members, env);
      }
    case _ =>
  }

  // ---- what a resolved tree holds

  /** The same tree, with the values of the environment in place of the references. */
  predicate Filled(j: Json, v: Json, env: Environment) {
    match j
    case Arr(items) =>
      v.Arr? && |v.items| == |items| && forall i | 0 <= i < |items| :: Filled(items[i], v.items[i], env)
    case Obj(members) =>
      if HasSecret(j) then
        var name := Get(j, SECRET).value;
        name.Str? && name.s in env && v == Str(env[name.s])
      else
        && v.Obj? && |v.members| == |members|
        && forall i | 0 <= i < |members| ::
             v.members[i].key == members[i].key && Filled(members[i].value, v.members[i].value, env)
    case _ => v == j
  }

  ghost predicate ItemsFilled(items: seq<Json>, vs: seq<Json>, env: Environment) {
    |vs| == |items| && forall i | 0 <= i < |items| :: Filled(items[i], vs[i], env)
  }

  ghost predicate MembersFilled(members: seq<Member>, ms: seq<Member>, env: Environment) {
    && |ms| == |members|
    && forall i | 0 <= i < |members| :: ms[i].key == members[i].key && Filled(members[i].value, ms[i].value, env)
  }

  lemma {:induction false} ItemsAreFilled(items: seq<Json>, env: Environment)
    requires WellFormed(Arr(items)) && AllSupplied(Names(Arr(items)), env)
    ensures forall vs :: ResolveItems(items, env) == Ok(vs) <==> ItemsFilled(items, vs, env)
    decreases items, 0
  {
    hide Resolve, Filled, WellFormed, Names;
    if items != [] {
      ItemNames(items);
      ResolveFills(items[0], env);
      ItemsAreFilled(items[1..], env);
      ResolveItemsExactly(items, env);
      forall vs: seq<Json>
        ensures ResolveItems(items, env) == Ok(vs) <==> ItemsFilled(items, vs, env)
      {
        if vs != [] {
          ItemsFilledCons(items, vs, env);
          assert [vs[0]] + vs[1..] == vs;
        }
      }
    }
  }

  lemma ItemsFilledCons(items: seq<Json>, vs: seq<Json>, env: Environment)
    requires items != [] && vs != []
    ensures ItemsFilled(items, vs, env) <==> Filled(items[0], vs[0], env) && ItemsFilled(items[1..], vs[1..], env)
  {
    assert items == [items[0]] + items[1..] && vs == [vs[0]] + vs[1..];
  }

  lemma {:induction false} MembersAreFilled(members: seq<Member>, env: Environment)
    requires MembersWellFormed(members) && AllSupplied(MemberNames(members), env)
    requires forall m | m in members :: m.key != SECRET
    ensures forall ms :: ResolveMembers(members, env) == Ok(ms) <==> MembersFilled(members, ms, env)
    decreases members, 0
  {
    hide Resolve, Filled, WellFormed, Names;
    if members != [] {
      MemberNamesCons(members);
      ResolveFills(members[0].value, env);
      MembersAreFilled(members[1..], env);
      ResolveMembersExactly(members, env);
      forall ms: seq<Member>
        ensures ResolveMembers(members, env) == Ok(ms) <==> MembersFilled(members, ms, env)
      {
        if ms != [] {
          MembersFilledCons(members, ms, env);
          assert [ms[0]] + ms[1..] == ms && Member(ms[0].key, ms[0].value) == ms[0];
        }
      }
    }
  }

  lemma MembersFilledCons(members: seq<Member>, ms: seq<Member>, env: Environment)
    requires members != [] && ms != []
    ensures MembersFilled(members, ms, env)
       <==> ms[0].key == members[0].key && Filled(members[0].value, ms[0].value, env)
              && MembersFilled(members[1..], ms[1..], env)
  {
    assert members == [members[0]] + members[1..] && ms == [ms[0]] + ms[1..];
  }

  /** With all names supplied, resolving gives the one tree that has the value of every reference in its place and is
    * the same everywhere else. */
  lemma {:induction false} ResolveFills(j: Json, env: Environment)
    requires WellFormed(j) && AllSupplied(Names(j), env)
    ensures forall v :: Resolve(j, env) == Ok(v) <==> Filled(j, v, env)
    decreases j, 1
  {
    ResolveExactly(j, env);
    match j
    case Arr(items) =>
      ItemsAreFilled(items, env);
      assert forall v :: Filled(j, v, env) <==> v.Arr? && ItemsFilled(items, v.items, env);
    case Obj(members) =>
      if !HasSecret(j) {
        NoSecretKey(members);
        assert Names(j) == MemberNames(members);
        MembersAreFilled(members, env);
        assert forall v :: Filled(j, v, env) <==> v.Obj? && MembersFilled(members, v.members, env);
      }
    case _ =>
  }

  /** Why an accepted tree is not resolved: a name is missing, or all that is wrong is that a value is too long. */
  ghost predicate Blamed<A>(r: Resolution<A>, names: set<string>, env: Environment) {
    match r
    case Ok(_) => true
    case InvalidReference => false
    case MissingSecret => exists n | n in names :: n !in env
    case SecretTooLarge => exists n | n in names :: n in env && T.ByteLength(env[n]) > MAX_STRING_BYTES
  }

  lemma BlamedByMore<A, B>(r: Resolution<A>, names: set<string>, more: set<string>, env: Environment, s: Resolution<B>)
    requires Blamed(r, names, env) && names <= more && !r.Ok?
    requires r.InvalidReference? == s.InvalidReference? && r.MissingSecret? == s.MissingSecret? && !s.Ok?
    ensures Blamed(s, more, env)
  {
  }

  lemma {:induction false} ItemsBlamed(items: seq<Json>, env: Environment)
    requires WellFormed(Arr(items))
    ensures Blamed(ResolveItems(items, env), Names(Arr(items)), env)
    decreases items, 0
  {
    if items != [] {
      ItemNames(items);
      FailureIsBlamed(items[0], env);
      ItemsBlamed(items[1..], env);
      var r := ResolveItems(items, env);
      if !Resolve(items[0], env).Ok? {
        BlamedByMore(Resolve(items[0], env), Names(items[0]), Names(Arr(items)), env, r);
      } else if !r.Ok? {
        BlamedByMore(ResolveItems(items[1..], env), Names(Arr(items[1..])), Names(Arr(items)), env, r);
      }
    }
  }

  lemma {:induction false} MembersBlamed(members: seq<Member>, env: Environment)
    requires MembersWellFormed(members)
    ensures Blamed(ResolveMembers(members, env), MemberNames(members), env)
    decreases members, 0
  {
    if members != [] {
      MemberNamesCons(members);
      FailureIsBlamed(members[0].value, env);
      MembersBlamed(members[1..], env);
      var r := ResolveMembers(members, env);
      if !Resolve(members[0].value, env).Ok? {
        BlamedByMore(Resolve(members[0].value, env), Names(members[0].value), MemberNames(members), env, r);
      } else if !r.Ok? {
        BlamedByMore(ResolveMembers(members[1..], env), MemberNames(members[1..]), MemberNames(members), env, r);
      }
    }
  }

  /** The failure of a resolution is true of some collected name. */
  lemma {:induction false} FailureIsBlamed(j: Json, env: Environment)
    requires WellFormed(j)
    ensures Blamed(Resolve(j, env), Names(j), env)
    decreases j, 1
  {
    match j
    case Arr(items) =>
      ItemsBlamed(items, env);
      if !ResolveItems(items, env).Ok? {
        BlamedByMore(ResolveItems(items, env), Names(j), Names(j), env, Resolve(j, env));
      }
    case Obj(members) =>
      if !HasSecret(j) {
        assert Names(j) == MemberNames(members);
        MembersBlamed(members, env);
        if !ResolveMembers(members, env).Ok? {
          BlamedByMore(ResolveMembers(members, env), Names(j), Names(j), env, Resolve(j, env));
        }
      }
    case _ =>
  }

  /** Two environments that agree on some names. */
  ghost predicate Agree(names: set<string>, a: Environment, b: Environment) {
    forall n | n in names :: (n in a <==> n in b) && (n in a ==> a[n] == b[n])
  }

  lemma {:induction false} ItemsReadOnlyNames(items: seq<Json>, a: Environment, b: Environment)
    requires WellFormed(Arr(items)) && Agree(Names(Arr(items)), a, b)
    ensures ResolveItems(items, a) == ResolveItems(items, b)
    decreases items, 0
  {
    if items != [] {
      ItemNames(items);
      ReadsOnlyNames(items[0], a, b);
      ItemsReadOnlyNames(items[1..], a, b);
    }
  }

  lemma {:induction false} MembersReadOnlyNames(members: seq<Member>, a: Environment, b: Environment)
    requires MembersWellFormed(members) && Agree(MemberNames(members), a, b)
    ensures ResolveMembers(members, a) == ResolveMembers(members, b)
    decreases members, 0
  {
    if members != [] {
      MemberNamesCons(members);
      ReadsOnlyNames(members[0].value, a, b);
      MembersReadOnlyNames(members[1..], a, b);
    }
  }

  /** Nothing but the collected names is read from the environment. */
  lemma {:induction false} ReadsOnlyNames(j: Json, a: Environment, b: Environment)
    requires WellFormed(j) && Agree(Names(j), a, b)
    ensures Resolve(j, a) == Resolve(j, b)
    decreases j, 1
  {
    match j
    case Arr(items) => ItemsReadOnlyNames(items, a, b);
    case Obj(members) =>
      if !HasSecret(j) {
        assert Names(j) == MemberNames(members);
        MembersReadOnlyNames(members, a, b);
      }
    case _ =>
  }

  // ---- normalising

  /** `normalize_secret_references`: every reference becomes the same marker. */
  function Normalize(j: Json): Json
    decreases j, 1
  {
    match j
    case Arr(items) => Arr(NormalizeItems(items))
    case Obj(members) =>
      if |members| == 1 && HasSecret(j) then Obj([Member(SECRET, Str(MARKER))]) else Obj(NormalizeMembers(members))
    case _ => j
  }

  function NormalizeItems(items: seq<Json>): seq<Json>
    decreases items, 0
  {
    if items == [] then [] else [Normalize(items[0])] + NormalizeItems(items[1..])
  }

  function NormalizeMembers(members: seq<Member>): seq<Member>
    decreases members, 0
  {
    if members == [] then []
    else [Member(members[0].key, Normalize(members[0].value))] + NormalizeMembers(members[1..])
  }

  lemma {:induction false} ItemsTwice(items: seq<Json>)
    ensures NormalizeItems(NormalizeItems(items)) == NormalizeItems(items)
    decreases items, 0
  {
    if items != [] {
      NormalizeTwice(items[0]);
      ItemsTwice(items[1..]);
    }
  }

  lemma {:induction false} MembersTwice(members: seq<Member>)
    ensures NormalizeMembers(NormalizeMembers(members)) == NormalizeMembers(members)
    decreases members, 0
  {
    if members != [] {
      NormalizeTwice(members[0].value);
      MembersTwice(members[1..]);
    }
  }

  lemma {:induction false} KeysStay(members: seq<Member>)
    ensures |NormalizeMembers(members)| == |members|
    ensures forall i | 0 <= i < |members| :: NormalizeMembers(members)[i].key == members[i].key
  {
    if members != [] {
      KeysStay(members[1..]);
    }
  }

  lemma HasSecretByKeys(a: seq<Member>, b: seq<Member>)
    requires |a| == |b| && forall i | 0 <= i < |a| :: a[i].key == b[i].key
    ensures HasSecret(Obj(a)) <==> HasSecret(Obj(b))
  {
  }

  /** Normalising is idempotent. */
  lemma {:induction false} NormalizeTwice(j: Json)
    ensures Normalize(Normalize(j)) == Normalize(j)
    decreases j, 1
  {
    match j
    case Arr(items) => ItemsTwice(items);
    case Obj(members) =>
      if |members| == 1 && HasSecret(j) {
        SecretIsFound(MARKER);
      } else {
        MembersTwice(members);
        KeysStay(members);
        HasSecretByKeys(members, NormalizeMembers(members));
      }
    case _ =>
  }

  lemma SecretIsFound(name: string)
    ensures Get(Obj([Member(SECRET, Str(name))]), SECRET) == Some(Str(name))
  {
  }

  predicate IsReference(j: Json) { j.Obj? && |j.members| == 1 && HasSecret(j) }

  /** The trees are alike everywhere but in the names of their references. */
  predicate DifferOnlyInNames(a: Json, b: Json) {
    match a
    case Arr(items) =>
      b.Arr? && |items| == |b.items| && forall i | 0 <= i < |items| :: DifferOnlyInNames(items[i], b.items[i])
    case Obj(members) =>
      if IsReference(a) then IsReference(b)
      else
        && b.Obj? && !IsReference(b) && |members| == |b.members|
        && forall i | 0 <= i < |members| ::
             members[i].key == b.members[i].key && DifferOnlyInNames(members[i].value, b.members[i].value)
    case _ => a == b
  }

  lemma {:induction false} ItemsNormalizeEqual(a: seq<Json>, b: seq<Json>)
    ensures NormalizeItems(a) == NormalizeItems(b) <==>
              |a| == |b| && forall i | 0 <= i < |a| :: DifferOnlyInNames(a[i], b[i])
    decreases a, 0
  {
    if a != [] && b != [] {
      NormalizeEqualIff(a[0], b[0]);
      ItemsNormalizeEqual(a[1..], b[1..]);
      var x, y := NormalizeItems(a), NormalizeItems(b);
      assert x[0] == Normalize(a[0]) && x[1..] == NormalizeItems(a[1..]);
      assert y[0] == Normalize(b[0]) && y[1..] == NormalizeItems(b[1..]);
      assert forall i | 0 <= i < |a| - 1 :: a[1..][i] == a[i + 1];
      assert forall i | 0 <= i < |b| - 1 :: b[1..][i] == b[i + 1];
      ItemsShift(a, b);
    }
  }

  lemma ItemsShift(a: seq<Json>, b: seq<Json>)
    requires a != [] && b != []
    ensures (|a| == |b| && forall i | 0 <= i < |a| :: DifferOnlyInNames(a[i], b[i])) <==>
              DifferOnlyInNames(a[0], b[0]) && |a[1..]| == |b[1..]|
              && forall i | 0 <= i < |a[1..]| :: DifferOnlyInNames(a[1..][i], b[1..][i])
  {
    assert a == [a[0]] + a[1..] && b == [b[0]] + b[1..];
    assert forall i | 1 <= i < |a| :: a[i] == a[1..][i - 1];
    assert forall i | 1 <= i < |b| :: b[i] == b[1..][i - 1];
  }

  predicate MembersAlike(a: seq<Member>, b: seq<Member>) {
    |a| == |b| && forall i | 0 <= i < |a| :: a[i].key == b[i].key && DifferOnlyInNames(a[i].value, b[i].value)
  }

  lemma MembersShift(a: seq<Member>, b: seq<Member>)
    requires a != [] && b != []
    ensures MembersAlike(a, b) <==>
              a[0].key == b[0].key && DifferOnlyInNames(a[0].value, b[0].value) && MembersAlike(a[1..], b[1..])
  {
    assert a == [a[0]] + a[1..] && b == [b[0]] + b[1..];
    assert forall i | 1 <= i < |a| :: a[i] == a[1..][i - 1];
    assert forall i | 1 <= i < |b| :: b[i] == b[1..][i - 1];
  }

  lemma {:induction false} MembersNormalizeEqual(a: seq<Member>, b: seq<Member>)
    ensures NormalizeMembers(a) == NormalizeMembers(b) <==> MembersAlike(a, b)
    decreases a, 0
  {
    if a != [] && b != [] {
      NormalizeEqualIff(a[0].value, b[0].value);
      MembersNormalizeEqual(a[1..], b[1..]);
      MembersShift(a, b);
      var x, y := NormalizeMembers(a), NormalizeMembers(b);
      assert x[0] == Member(a[0].key, Normalize(a[0].value)) && x[1..] == NormalizeMembers(a[1..]);
      assert y[0] == Member(b[0].key, Normalize(b[0].value)) && y[1..] == NormalizeMembers(b[1..]);
    }
  }

  lemma NormalizeKeepsReferences(j: Json)
    ensures IsReference(Normalize(j)) <==> IsReference(j)
  {
    SecretIsFound(MARKER);
    if j.Obj? {
      KeysStay(j.members);
      HasSecretByKeys(j.members, NormalizeMembers(j.members));
    }
  }

  lemma NormalizeObject(j: Json)
    requires j.Obj?
    ensures Normalize(j)
         == if IsReference(j) then Obj([Member(SECRET, Str(MARKER))]) else Obj(NormalizeMembers(j.members))
  {
  }

  lemma AlikeObjects(a: Json, b: Json)
    requires a.Obj? && b.Obj?
    ensures DifferOnlyInNames(a, b) <==>
              if IsReference(a) then IsReference(b) else !IsReference(b) && MembersAlike(a.members, b.members)
  {
  }

  /** Two trees have the same normal form exactly when they differ only in the names of their references. */
  lemma {:induction false} NormalizeEqualIff(a: Json, b: Json)
    ensures Normalize(a) == Normalize(b) <==> DifferOnlyInNames(a, b)
    decreases a, 1
  {
    if a.Arr? && b.Arr? {
      ItemsNormalizeEqual(a.items, b.items);
    } else if a.Obj? && b.Obj? {
      NormalizeKeepsReferences(a);
      NormalizeKeepsReferences(b);
      NormalizeObject(a);
      NormalizeObject(b);
      AlikeObjects(a, b);
      MembersNormalizeEqual(a.members, b.members);
    }
  }

  // ---- names

  predicate UpperOrUnderscore(c: char) { c in "ABCDEFGHIJKLMNOPQRSTUVWXYZ_" }

  lemma LettersInOrder(c: char)
    ensures UpperOrUnderscore(c) <==> 'A' <= c <= 'Z' || c == '_'
  {
    var letters := "ABCDEFGHIJKLMNOPQRSTUVWXYZ_";
    assert forall i | 0 <= i < 26 :: letters[i] as int == 65 + i;
    assert letters[26] == '_';
    if 'A' <= c <= 'Z' {
      assert letters[c as int - 65] == c;
    }
    if c == '_' {
      assert letters[26] == c;
    }
    if c in letters {
      var i :| 0 <= i < |letters| && letters[i] == c;
    }
  }

  /** A secret name is a capital or an underscore and at most 63 more capitals, digits and underscores. */
  lemma NamePattern(name: string)
    ensures NameOk(name) <==>
              && 1 <= |name| <= 64 && UpperOrUnderscore(name[0])
              && forall i | 1 <= i < |name| :: UpperOrUnderscore(name[i]) || '0' <= name[i] <= '9'
  {
    hide UpperOrUnderscore;
    assert forall i | 0 <= i < |name| :: name[i] in name;
    forall i | 0 <= i < |name|
      ensures UpperOrUnderscore(name[i]) <==> 'A' <= name[i] <= 'Z' || name[i] == '_'
    {
      LettersInOrder(name[i]);
    }
  }

  // ---- references, wherever they are in a tree

  /** The object has the reserved key. */
  predicate Refers(node: Json) { node.Obj? && exists i | 0 <= i < |node.members| :: node.members[i].key == "$secret" }

  /** The object is a reference and nothing else, to a name of the right form. */
  predicate RefersWell(node: Json) {
    node.Obj? && |node.members| == 1 && node.members[0].value.Str? && NameOk(node.members[0].value.s)
  }

  lemma RefersIff(node: Json)
    ensures Refers(node) <==> HasSecret(node)
    ensures Refers(node) && |node.members| == 1 ==> Get(node, SECRET) == Some(node.members[0].value)
  {
  }

  lemma ChildrenWellFormed(j: Json)
    ensures !Refers(j) ==> (WellFormed(j) <==> forall c :: IsChild(c, j) ==> WellFormed(c))
    ensures Refers(j) ==> (WellFormed(j) <==> RefersWell(j))
    ensures Refers(j) && WellFormed(j) ==> forall c :: IsChild(c, j) ==> c == j.members[0].value
  {
    RefersIff(j);
    hide NameOk, NameChar;
    if j.Obj? {
      MembersAreChildren(j);
      if !Refers(j) && forall c :: IsChild(c, j) ==> WellFormed(c) {
        forall m | m in j.members
          ensures WellFormed(m.value)
        {
          assert IsChild(m.value, j);
        }
      }
    } else if j.Arr? {
      assert forall v :: v in j.items <==> IsChild(v, j);
    }
  }

  lemma {:induction false} WellFormedEverywhere(j: Json, node: Json, level: nat)
    requires WellFormed(j) && Occurs(node, j, level)
    ensures WellFormed(node)
    decreases level
  {
    if level > 0 {
      var c :| IsChild(c, j) && Occurs(node, c, level - 1);
      ChildrenWellFormed(j);
      assert WellFormed(c);
      WellFormedEverywhere(c, node, level - 1);
    }
  }

  lemma {:induction false} IllFormedSomewhere(j: Json) returns (node: Json, level: nat)
    requires !WellFormed(j)
    ensures Occurs(node, j, level) && Refers(node) && !RefersWell(node)
    decreases j
  {
    ChildrenWellFormed(j);
    if Refers(j) {
      node, level := j, 0;
    } else {
      var c :| IsChild(c, j) && !WellFormed(c);
      ChildIsSmaller(c, j);
      var n;
      node, n := IllFormedSomewhere(c);
      level := n + 1;
    }
  }

  /** A tree is accepted exactly if every object in it that has the reserved key has no other, and a name of the right
    * form under it. */
  lemma AcceptedIff(j: Json)
    ensures WellFormed(j) <==> forall node, level: nat :: Occurs(node, j, level) && Refers(node) ==> RefersWell(node)
  {
    if WellFormed(j) {
      forall node, level: nat | Occurs(node, j, level) && Refers(node)
        ensures RefersWell(node)
      {
        WellFormedEverywhere(j, node, level);
        ChildrenWellFormed(node);
      }
    } else {
      var node, level := IllFormedSomewhere(j);
      assert Occurs(node, j, level) && Refers(node) && !RefersWell(node);
    }
  }

  function Reference(name: string): Json { Obj([Member("$secret", Str(name))]) }

  lemma NamesOfChildren(j: Json, name: string)
    requires WellFormed(j)
    ensures !Refers(j) ==> (name in Names(j) <==> exists c :: IsChild(c, j) && name in Names(c))
    ensures Refers(j) ==> (name in Names(j) <==> j == Reference(name))
  {
    RefersIff(j);
    hide NameOk;
    if j.Obj? {
      MembersAreChildren(j);
      if Refers(j) {
        var i :| 0 <= i < |j.members| && j.members[i].key == "$secret";
        assert j.members == [j.members[0]];
        assert j.members[0] == Member("$secret", j.members[0].value);
      } else {
        if m :| m in j.members && name in Names(m.value) {
          assert IsChild(m.value, j);
        }
        if c :| IsChild(c, j) && name in Names(c) {
          var m :| m in j.members && m.value == c;
        }
      }
    } else if j.Arr? {
      assert forall v :: v in j.items <==> IsChild(v, j);
    }
  }

  lemma {:induction false} NamesOccur(j: Json, name: string) returns (level: nat)
    requires WellFormed(j) && name in Names(j)
    ensures Occurs(Reference(name), j, level)
    decreases j
  {
    NamesOfChildren(j, name);
    ChildrenWellFormed(j);
    if Refers(j) {
      level := 0;
    } else {
      var c :| IsChild(c, j) && name in Names(c);
      ChildIsSmaller(c, j);
      var n := NamesOccur(c, name);
      level := n + 1;
    }
  }

  lemma NothingInAString(c: Json, node: Json, level: nat)
    requires c.Str?
    ensures Occurs(node, c, level) <==> level == 0 && node == c
  {
  }

  /** A reference does not occur inside another. */
  lemma ReferenceIsOutermost(j: Json, name: string, level: nat)
    requires WellFormed(j) && Refers(j)
    ensures Occurs(Reference(name), j, level) ==> level == 0
  {
    ChildrenWellFormed(j);
    if level > 0 {
      forall c | IsChild(c, j)
        ensures !Occurs(Reference(name), c, level - 1)
      {
        NothingInAString(c, Reference(name), level - 1);
      }
    }
  }

  lemma {:induction false} OccurringIsNamed(j: Json, name: string, level: nat)
    requires WellFormed(j) && Occurs(Reference(name), j, level)
    ensures name in Names(j)
    decreases level
  {
    NamesOfChildren(j, name);
    if level == 0 {
      assert Reference(name).members[0].key == "$secret";
    } else if !Refers(j) {
      ChildrenWellFormed(j);
      hide WellFormed, Names, Refers, IsChild;
      var c :| IsChild(c, j) && Occurs(Reference(name), c, level - 1);
      OccurringIsNamed(c, name, level - 1);
    } else {
      ReferenceIsOutermost(j, name, level);
    }
  }

  /** The names of an accepted tree are those of the references that occur in it. */
  lemma NamesAreReferred(j: Json, name: string)
    requires WellFormed(j)
    ensures name in Names(j) <==> exists level: nat :: Occurs(Reference(name), j, level)
  {
    if name in Names(j) {
      var level := NamesOccur(j, name);
      assert Occurs(Reference(name), j, level);
    }
    if level: nat :| Occurs(Reference(name), j, level) {
      OccurringIsNamed(j, name, level);
    }
  }
}

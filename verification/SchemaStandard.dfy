/** Where the evaluator of `src/webmcp.rs` reads a schema as JSON Schema does, and where it does not. */
module SchemaStandard {
  import opened Numbers
  import opened Octets
  import opened Json
  import opened WebMcp
  import T = Text

  /** The names that a schema node requires. */
  function RequiredNames(schema: Json): seq<Json> {
    match Get(schema, "required") case Some(Arr(names)) => names case _ => []
  }

  predicate Takes(schema: Json, t: TypeName) {
    match Get(schema, "type") case Some(Str(name)) => TypeNamed(name) == Some(t) case _ => true
  }

  predicate HasProperties(schema: Json) { Get(schema, "properties").Some? && Get(schema, "properties").value.Obj? }

  /** A value in which no number can be spelt both as an integer and as a float. */
  predicate WholeFree(j: Json) {
    match j
    case Int(n) => !HasDouble(n)
    case Float(x) => !(IsWhole(x) && InWord(x.Floor))
    case Arr(items) => forall v | v in items :: WholeFree(v)
    case Obj(members) => forall m | m in members :: WholeFree(m.value)
    case _ => true
  }

  /** If objects are taken at all and something is required of them, there are properties beside it. */
  predicate RequiredGuarded(schema: Json) {
    Takes(schema, ObjectType) && (exists n | n in RequiredNames(schema) :: n.Str?) ==> HasProperties(schema)
  }

  /** Integers are taken only where all numbers are. */
  predicate TypeGuarded(schema: Json) { Takes(schema, IntegerType) ==> Takes(schema, NumberType) }

  predicate ValuesGuarded(schema: Json) {
    && (match Get(schema, "const") case None => true case Some(c) => WholeFree(c))
    && (match Get(schema, "enum") case Some(Arr(choices)) => (forall c | c in choices :: WholeFree(c)) case _ => true)
  }

  predicate NodeGuarded(schema: Json) { RequiredGuarded(schema) && TypeGuarded(schema) && ValuesGuarded(schema) }

  /** Every node that evaluation can come to is guarded. */
  predicate Guarded(schema: Json) {
    && NodeGuarded(schema)
    && (Takes(schema, ObjectType) ==>
          forall m | m in Properties(schema) && PropertySchema(schema, m.key) == Some(m.value) :: Guarded(m.value))
    && (Takes(schema, ArrayType) ==> match Get(schema, "items") case None => true case Some(item) => Guarded(item))
    && (forall b | b in Branches(schema, "anyOf") :: Guarded(b))
    && (forall b | b in Branches(schema, "oneOf") :: Guarded(b))
    && (forall b | b in Branches(schema, "allOf") :: Guarded(b))
  }

  // ---- guarded schemas are read as the standard reads them

  lemma Taken(input: Json, schema: Json)
    requires TypeOk(input, schema)
    ensures input.Obj? ==> Takes(schema, ObjectType)
    ensures input.Arr? ==> Takes(schema, ArrayType)
  {
  }

  lemma {:induction false} SameValueOfItself(a: Json)
    ensures SameValue(a, a)
  {
    if a.Arr? {
      forall i | 0 <= i < |a.items|
        ensures SameValue(a.items[i], a.items[i])
      {
        SameValueOfItself(a.items[i]);
      }
    } else if a.Obj? {
      forall i | 0 <= i < |a.members|
        ensures SameValue(a.members[i].value, a.members[i].value)
      {
        SameValueOfItself(a.members[i].value);
      }
    }
  }

  /** Such a value is the same as no other. */
  lemma {:induction false} WholeFreeIsItself(a: Json, b: Json)
    requires WholeFree(b)
    ensures SameValue(a, b) <==> a == b
    decreases b
  {
    SameValueOfItself(b);
    if SameValue(a, b) {
      if b.Arr? {
        forall i | 0 <= i < |b.items|
          ensures a.items[i] == b.items[i]
        {
          assert b.items[i] in b.items;
          WholeFreeIsItself(a.items[i], b.items[i]);
        }
        assert a.items == b.items;
      } else if b.Obj? {
        forall i | 0 <= i < |b.members|
          ensures a.members[i] == b.members[i]
        {
          assert b.members[i] in b.members;
          WholeFreeIsItself(a.members[i].value, b.members[i].value);
        }
        assert a.members == b.members;
      } else if IsNumber(b) {
        NumbersAreThemselves(a, b);
      }
    }
  }

  lemma NumbersAreThemselves(a: Json, b: Json)
    requires IsNumber(b) && WholeFree(b) && IsNumber(a) && NumberOf(a) == NumberOf(b)
    ensures a == b
  {
    IntegersAreWhole(if a.Int? then a.n else if b.Int? then b.n else 0);
  }

  lemma IntegersAreWhole(n: int)
    ensures IsWhole(n as real) && (n as real).Floor == n
  {
  }

  lemma ValuesRead(input: Json, schema: Json)
    requires ValuesGuarded(schema)
    ensures ConstReads(input, schema, AsCoded) <==> ConstReads(input, schema, AsStandard)
    ensures EnumReads(input, schema, AsCoded) <==> EnumReads(input, schema, AsStandard)
  {
    match Get(schema, "const") {
      case None =>
      case Some(c) => WholeFreeIsItself(input, c);
    }
    match Get(schema, "enum") {
      case Some(Arr(choices)) =>
        forall c | c in choices
          ensures SameValue(input, c) <==> input == c
        {
          WholeFreeIsItself(input, c);
        }
      case _ =>
    }
  }

  lemma TypeRead(input: Json, schema: Json)
    requires TypeGuarded(schema)
    ensures TypeReads(input, schema, AsStandard) <==> TypeOk(input, schema)
  {
  }

  /** On a schema whose nodes are all guarded, the code and the standard agree about every input. */
  lemma {:induction false} GuardedIsStandard(input: Json, schema: Json)
    requires Guarded(schema)
    ensures Valid(input, schema, AsCoded) <==> Valid(input, schema, AsStandard)
    decreases schema, 2
  {
    NodeRead(input, schema);
    hide Guarded, ValidAny, ValidOne, ValidAll, ValidProperties, ValidItems, TypeOk, ConstReads, EnumReads;
    if TypeOk(input, schema) {
      BranchesRead(input, schema);
      PropertiesRead(input, schema);
      ItemsRead(input, schema);
    }
  }

  lemma NodeRead(input: Json, schema: Json)
    requires Guarded(schema)
    ensures TypeReads(input, schema, AsCoded) <==> TypeOk(input, schema)
    ensures TypeReads(input, schema, AsStandard) <==> TypeOk(input, schema)
    ensures ConstReads(input, schema, AsCoded) <==> ConstReads(input, schema, AsStandard)
    ensures EnumReads(input, schema, AsCoded) <==> EnumReads(input, schema, AsStandard)
  {
    TypeRead(input, schema);
    ValuesRead(input, schema);
  }

  lemma {:induction false} BranchesRead(input: Json, schema: Json)
    requires Guarded(schema)
    ensures ValidAny(input, schema, AsCoded) <==> ValidAny(input, schema, AsStandard)
    ensures ValidOne(input, schema, AsCoded) <==> ValidOne(input, schema, AsStandard)
    ensures ValidAll(input, schema, AsCoded) <==> ValidAll(input, schema, AsStandard)
    decreases schema, 1
  {
    BranchesAgree(input, schema, Branches(schema, "anyOf"));
    BranchesAgree(input, schema, Branches(schema, "oneOf"));
    BranchesAgree(input, schema, Branches(schema, "allOf"));
  }

  lemma {:induction false} PropertiesRead(input: Json, schema: Json)
    requires Guarded(schema) && TypeOk(input, schema)
    ensures ValidProperties(input, schema, AsCoded) <==> ValidProperties(input, schema, AsStandard)
    decreases schema, 1
  {
    Taken(input, schema);
    if input.Obj? {
      MembersAgree(input.members, schema);
      if !HasProperties(schema) {
        NothingRequired(input, schema);
      }
    }
  }

  lemma NothingRequired(input: Json, schema: Json)
    requires RequiredGuarded(schema) && Takes(schema, ObjectType) && !HasProperties(schema)
    ensures RequiredOk(input, schema)
  {
  }

  lemma {:induction false} ItemsRead(input: Json, schema: Json)
    requires Guarded(schema) && TypeOk(input, schema)
    ensures ValidItems(input, schema, AsCoded) <==> ValidItems(input, schema, AsStandard)
    decreases schema, 1
  {
    Taken(input, schema);
    if input.Arr? && Get(schema, "items").Some? {
      ItemsAgree(input.items, schema, Get(schema, "items").value);
    }
  }

  lemma {:induction false} BranchesAgree(input: Json, schema: Json, branches: seq<Json>)
    requires forall i | 0 <= i < |branches| :: branches[i] < schema && Guarded(branches[i])
    ensures Accepts(input, schema, branches, AsCoded) == Accepts(input, schema, branches, AsStandard)
    decreases schema, 0, |branches|
  {
    if branches != [] {
      GuardedIsStandard(input, branches[0]);
      BranchesAgree(input, schema, branches[1..]);
    }
  }

  /** The schema of a property is the value of a member that is in force. */
  lemma PropertyInForce(schema: Json, key: string)
    requires PropertySchema(schema, key).Some?
    ensures var p := PropertySchema(schema, key).value;
            Member(key, p) in Properties(schema) && p < schema
  {
    var members := Get(schema, "properties").value.members;
    var i :| 0 <= i < |members| && members[i] == Member(key, PropertySchema(schema, key).value);
    assert members[i] in members;
  }

  lemma {:induction false} MembersAgree(members: seq<Member>, schema: Json)
    requires Guarded(schema) && Takes(schema, ObjectType)
    ensures AcceptsMembers(members, schema, AsCoded) == AcceptsMembers(members, schema, AsStandard)
    decreases schema, 0, |members|
  {
    if members != [] {
      var key := members[0].key;
      if PropertySchema(schema, key).Some? {
        PropertyInForce(schema, key);
        assert Guarded(Member(key, PropertySchema(schema, key).value).value);
        GuardedIsStandard(members[0].value, PropertySchema(schema, key).value);
      }
      MembersAgree(members[1..], schema);
    }
  }

  lemma {:induction false} ItemsAgree(items: seq<Json>, schema: Json, item: Json)
    requires item < schema && Guarded(item)
    ensures AcceptsItems(items, schema, item, AsCoded) == AcceptsItems(items, schema, item, AsStandard)
    decreases schema, 0, |items|
  {
    if items != [] {
      GuardedIsStandard(items[0], item);
      ItemsAgree(items[1..], schema, item);
    }
  }

  // ---- an unguarded node is misread

  /** A constant alone. */
  predicate Constant(schema: Json) {
    && Get(schema, "const").Some? && Get(schema, "enum").None? && Get(schema, "type").None?
    && Get(schema, "properties").None? && Get(schema, "items").None? && Get(schema, "required").None?
    && !HasBranches(schema, "anyOf") && !HasBranches(schema, "oneOf") && !HasBranches(schema, "allOf")
  }

  /** Types, properties, required names and items constrain an input, or a constant does. */
  predicate Plain(schema: Json) {
    || Constant(schema)
    || (&& Get(schema, "const").None? && Get(schema, "enum").None?
        && !HasBranches(schema, "anyOf") && !HasBranches(schema, "oneOf") && !HasBranches(schema, "allOf")
        && (forall m | m in Properties(schema) :: Plain(m.value))
        && (match Get(schema, "items") case None => true case Some(item) => Plain(item)))
  }

  /** Members for the names that are not there yet, each of its own schema. */
  function ExampleMembers(names: seq<Json>, schema: Json, there: set<string>): seq<Member>
    decreases schema, 0, |names|
  {
    if names == [] then []
    else if names[0].Str? && names[0].s !in there then
      var p := PropertySchema(schema, names[0].s);
      [Member(names[0].s, if p.Some? then Example(p.value) else Null)]
      + ExampleMembers(names[1..], schema, there + {names[0].s})
    else ExampleMembers(names[1..], schema, there)
  }

  /** A value that a plain schema accepts in either reading. */
  function Example(schema: Json): Json
    decreases schema, 1
  {
    if Constant(schema) then Get(schema, "const").value
    else if Takes(schema, NullType) then Null
    else if Takes(schema, StringType) then Str("")
    else if Takes(schema, NumberType) || Takes(schema, IntegerType) then Int(0)
    else if Takes(schema, BooleanType) then Bool(false)
    else if Takes(schema, ArrayType) then Arr([])
    else Obj(ExampleMembers(RequiredNames(schema), schema, {}))
  }

  lemma KeyFound(members: seq<Member>, key: string)
    requires exists m | m in members :: m.key == key
    ensures Get(Obj(members), key).Some?
  {
    var m :| m in members && m.key == key;
    var i :| 0 <= i < |members| && members[i] == m;
  }

  lemma {:induction false} ExampleHasNames(names: seq<Json>, schema: Json, there: set<string>)
    ensures forall n | n in names && n.Str? ::
              n.s in there || exists m | m in ExampleMembers(names, schema, there) :: m.key == n.s
    decreases |names|
  {
    if names != [] {
      var first := names[0];
      assert names == [first] + names[1..];
      if first.Str? && first.s !in there {
        ExampleHasNames(names[1..], schema, there + {first.s});
        assert ExampleMembers(names, schema, there)[0].key == first.s;
        assert ExampleMembers(names, schema, there)[1..] == ExampleMembers(names[1..], schema, there + {first.s});
      } else {
        ExampleHasNames(names[1..], schema, there);
      }
    }
  }

  /** All required names are there, in the members given or in those added. */
  lemma RequiredThere(before: seq<Member>, schema: Json, there: set<string>)
    requires forall key | key in there :: exists m | m in before :: m.key == key
    ensures RequiredOk(Obj(before + ExampleMembers(RequiredNames(schema), schema, there)), schema)
  {
    var names := RequiredNames(schema);
    var members := before + ExampleMembers(names, schema, there);
    ExampleHasNames(names, schema, there);
    forall n | n in names && n.Str?
      ensures Get(Obj(members), n.s).Some?
    {
      KeyFound(members, n.s);
    }
  }

  lemma {:induction false} ExampleMembersAreValid(names: seq<Json>, schema: Json, there: set<string>, how: Reading)
    requires Plain(schema) && !Constant(schema) && WellShaped(schema)
    ensures false !in AcceptsMembers(ExampleMembers(names, schema, there), schema, how)
    decreases schema, 0, |names|
  {
    if names == [] {
    } else if names[0].Str? && names[0].s !in there {
      var p := PropertySchema(schema, names[0].s);
      if p.Some? {
        PropertyInForce(schema, names[0].s);
        assert Plain(Member(names[0].s, p.value).value) && WellShaped(Member(names[0].s, p.value).value);
        ExampleIsValid(p.value, how);
      }
      ExampleMembersAreValid(names[1..], schema, there + {names[0].s}, how);
      var rest := ExampleMembers(names[1..], schema, there + {names[0].s});
      AcceptsOneMore(Member(names[0].s, if p.Some? then Example(p.value) else Null), rest, schema, how);
    } else {
      ExampleMembersAreValid(names[1..], schema, there, how);
    }
  }

  lemma AcceptsOneMore(m: Member, rest: seq<Member>, schema: Json, how: Reading)
    ensures false !in AcceptsMembers([m] + rest, schema, how)
       <==> (PropertySchema(schema, m.key).Some? ==> Valid(m.value, PropertySchema(schema, m.key).value, how))
              && false !in AcceptsMembers(rest, schema, how)
  {
    assert ([m] + rest)[1..] == rest;
  }

  lemma PlainHasNoBranches(schema: Json)
    requires Plain(schema)
    ensures Branches(schema, "anyOf") == [] && Branches(schema, "oneOf") == [] && Branches(schema, "allOf") == []
  {
  }

  /** Any other plain schema asks nothing but the type, what holds of members and what holds of items. */
  lemma PlainMeans(input: Json, schema: Json, how: Reading)
    requires Plain(schema) && !Constant(schema)
    ensures Valid(input, schema, how)
       <==> TypeReads(input, schema, how) && ValidProperties(input, schema, how) && ValidItems(input, schema, how)
  {
    PlainHasNoBranches(schema);
    assert Accepts(input, schema, [], how) == [];
    assert ConstReads(input, schema, how) && EnumReads(input, schema, how);
    assert ValidAny(input, schema, how) && ValidOne(input, schema, how) && ValidAll(input, schema, how);
  }

  lemma ConstantMeans(input: Json, schema: Json, how: Reading)
    requires Constant(schema)
    ensures Valid(input, schema, how) <==> ConstReads(input, schema, how)
  {
    PlainHasNoBranches(schema);
    assert Accepts(input, schema, [], how) == [];
    assert TypeReads(input, schema, how) && EnumReads(input, schema, how);
    assert ValidAny(input, schema, how) && ValidOne(input, schema, how) && ValidAll(input, schema, how);
    assert ValidProperties(input, schema, how) && ValidItems(input, schema, how);
  }

  lemma {:induction false} ExampleIsValid(schema: Json, how: Reading)
    requires Plain(schema) && WellShaped(schema)
    ensures Valid(Example(schema), schema, how)
    decreases schema, 1
  {
    if Constant(schema) {
      ConstantMeans(Example(schema), schema, how);
      SameValueOfItself(Get(schema, "const").value);
    } else {
      PlainMeans(Example(schema), schema, how);
      ExampleHasType(schema, how);
      if Example(schema).Obj? {
        ExampleMembersAreValid(RequiredNames(schema), schema, {}, how);
        ExampleObject(schema, how);
      }
    }
  }

  lemma ExampleHasType(schema: Json, how: Reading)
    requires NodeShape(schema) && !Constant(schema)
    ensures TypeReads(Example(schema), schema, how)
    ensures Example(schema).Arr? ==> Example(schema) == Arr([])
    ensures Example(schema).Obj? ==> Example(schema) == Obj(ExampleMembers(RequiredNames(schema), schema, {}))
  {
  }

  lemma ExampleObject(schema: Json, how: Reading)
    requires !Constant(schema) && Example(schema) == Obj(ExampleMembers(RequiredNames(schema), schema, {}))
    requires false !in AcceptsMembers(ExampleMembers(RequiredNames(schema), schema, {}), schema, how)
    ensures ValidProperties(Example(schema), schema, how)
  {
    RequiredThere([], schema, {});
    var members := ExampleMembers(RequiredNames(schema), schema, {});
    assert [] + members == members;
  }

  /** A number that an integer and a float can hold has two spellings, and so has every value with such a number in
    * it. */
  lemma {:induction false} Respell(c: Json) returns (d: Json)
    requires !WholeFree(c)
    ensures SameValue(d, c) && d != c
    decreases c
  {
    match c
    case Int(n) => d := Float(n as real);
    case Float(x) => d := Int(x.Floor);
    case Arr(items) =>
      var v :| v in items && !WholeFree(v);
      var i :| 0 <= i < |items| && items[i] == v;
      var w := Respell(v);
      d := Arr(items[i := w]);
      forall j | 0 <= j < |items|
        ensures SameValue(d.items[j], items[j])
      {
        SameValueOfItself(items[j]);
      }
      assert d.items[i] != c.items[i];
    case Obj(members) =>
      var m :| m in members && !WholeFree(m.value);
      var i :| 0 <= i < |members| && members[i] == m;
      var w := Respell(m.value);
      d := Obj(members[i := Member(m.key, w)]);
      forall j | 0 <= j < |members|
        ensures SameValue(d.members[j].value, members[j].value)
      {
        SameValueOfItself(members[j].value);
      }
      assert d.members[i] != c.members[i];
  }

  /** An input that an unguarded plain schema is misread on. */
  lemma {:induction false} Misread(schema: Json) returns (input: Json)
    requires Plain(schema) && WellShaped(schema) && !Guarded(schema)
    ensures Valid(input, schema, AsCoded) <==> !Valid(input, schema, AsStandard)
    decreases schema
  {
    if Constant(schema) {
      input := MisreadConstant(schema);
    } else if !NodeGuarded(schema) {
      input := MisreadNode(schema);
    } else if Takes(schema, ArrayType) && Get(schema, "items").Some? && !Guarded(Get(schema, "items").value) {
      var item := Misread(Get(schema, "items").value);
      input := Arr([item]);
      MisreadItem(schema, item);
    } else {
      PlainHasNoBranches(schema);
      var m :| m in Properties(schema) && PropertySchema(schema, m.key) == Some(m.value) && !Guarded(m.value);
      var value := Misread(m.value);
      input := Obj([Member(m.key, value)] + ExampleMembers(RequiredNames(schema), schema, {m.key}));
      MisreadMember(schema, m, value);
    }
  }

  lemma ConstantGuarded(schema: Json)
    requires Constant(schema) && WholeFree(Get(schema, "const").value)
    ensures Guarded(schema)
  {
    PlainHasNoBranches(schema);
  }

  lemma MisreadConstant(schema: Json) returns (input: Json)
    requires Constant(schema) && !Guarded(schema)
    ensures !Valid(input, schema, AsCoded) && Valid(input, schema, AsStandard)
  {
    if WholeFree(Get(schema, "const").value) {
      ConstantGuarded(schema);
    }
    input := Respell(Get(schema, "const").value);
    ConstantMeans(input, schema, AsCoded);
    ConstantMeans(input, schema, AsStandard);
  }

  lemma MisreadNode(schema: Json) returns (input: Json)
    requires Plain(schema) && !Constant(schema) && NodeShape(schema) && !NodeGuarded(schema)
    ensures Valid(input, schema, AsCoded) <==> !Valid(input, schema, AsStandard)
    ensures !RequiredGuarded(schema) ==> input == Obj([]) && Valid(input, schema, AsCoded)
    ensures RequiredGuarded(schema) ==> input == Float(0.0) && !Valid(input, schema, AsCoded)
  {
    input := if RequiredGuarded(schema) then Float(0.0) else Obj([]);
    PlainMeans(input, schema, AsCoded);
    PlainMeans(input, schema, AsStandard);
    if !RequiredGuarded(schema) {
      var n :| n in RequiredNames(schema) && n.Str?;
      assert Get(Obj([]), n.s).None?;
    }
  }

  lemma AcceptsOneItem(item: Json, schema: Json, of: Json, how: Reading)
    requires of < schema
    ensures AcceptsItems([item], schema, of, how) == [Valid(item, of, how)]
  {
    assert [item][1..] == [];
    assert AcceptsItems([], schema, of, how) == [];
  }

  lemma MisreadItem(schema: Json, item: Json)
    requires Plain(schema) && !Constant(schema) && NodeShape(schema) && Takes(schema, ArrayType)
    requires Get(schema, "items").Some?
    requires var of := Get(schema, "items").value;
             Valid(item, of, AsCoded) <==> !Valid(item, of, AsStandard)
    ensures Valid(Arr([item]), schema, AsCoded) <==> !Valid(Arr([item]), schema, AsStandard)
  {
    hide Plain, Constant, Valid;
    PlainMeans(Arr([item]), schema, AsCoded);
    PlainMeans(Arr([item]), schema, AsStandard);
    AcceptsOneItem(item, schema, Get(schema, "items").value, AsCoded);
    AcceptsOneItem(item, schema, Get(schema, "items").value, AsStandard);
  }

  lemma MisreadMember(schema: Json, m: Member, value: Json)
    requires Plain(schema) && !Constant(schema) && WellShaped(schema) && Takes(schema, ObjectType)
    requires PropertySchema(schema, m.key) == Some(m.value)
    requires Valid(value, m.value, AsCoded) <==> !Valid(value, m.value, AsStandard)
    ensures var input := Obj([Member(m.key, value)] + ExampleMembers(RequiredNames(schema), schema, {m.key}));
            Valid(input, schema, AsCoded) <==> !Valid(input, schema, AsStandard)
  {
    MemberDecides(schema, m, value, AsCoded);
    MemberDecides(schema, m, value, AsStandard);
  }

  /** Beside valid members of all required names, one more member decides. */
  lemma MemberDecides(schema: Json, m: Member, value: Json, how: Reading)
    requires Plain(schema) && !Constant(schema) && WellShaped(schema) && Takes(schema, ObjectType)
    requires PropertySchema(schema, m.key) == Some(m.value)
    ensures var input := Obj([Member(m.key, value)] + ExampleMembers(RequiredNames(schema), schema, {m.key}));
            Valid(input, schema, how) <==> Valid(value, m.value, how)
  {
    var before, rest := [Member(m.key, value)], ExampleMembers(RequiredNames(schema), schema, {m.key});
    PlainMeans(Obj(before + rest), schema, how);
    assert before[0].key == m.key;
    RequiredThere(before, schema, {m.key});
    ExampleMembersAreValid(RequiredNames(schema), schema, {m.key}, how);
    AcceptsOneMore(before[0], rest, schema, how);
  }

  /** A schema of types, properties, required names, items and constants is read as the standard reads it, whatever the
    * input, if and only if every node that can be come to is guarded. */
  lemma PlainIsStandardIff(schema: Json)
    requires Plain(schema) && WellShaped(schema)
    ensures (forall input :: Valid(input, schema, AsCoded) <==> Valid(input, schema, AsStandard)) <==> Guarded(schema)
  {
    if Guarded(schema) {
      forall input
        ensures Valid(input, schema, AsCoded) <==> Valid(input, schema, AsStandard)
      {
        GuardedIsStandard(input, schema);
      }
    } else {
      var input := Misread(schema);
    }
  }

  /** Beyond plain schemas a node may be unguarded to no effect: a constant that is no container leaves nothing to
    * require. */
  lemma ConstantMasksRequired(input: Json, schema: Json)
    requires Get(schema, "const").Some? && Get(schema, "const").value.Str? && Get(schema, "enum").None?
    requires Branches(schema, "anyOf") == [] && Branches(schema, "oneOf") == [] && Branches(schema, "allOf") == []
    ensures Valid(input, schema, AsCoded) <==> Valid(input, schema, AsStandard)
  {
    assert Accepts(input, schema, [], AsCoded) == [] && Accepts(input, schema, [], AsStandard) == [];
    WholeFreeIsItself(input, Get(schema, "const").value);
  }

  lemma TwoSpellings(input: Json, n: Word)
    requires HasDouble(n)
    ensures SameValue(input, Int(n)) || SameValue(input, Float(n as real))
       <==> input == Int(n) || input == Float(n as real)
  {
  }

  lemma BothListed(input: Json, schema: Json, n: Word)
    requires HasDouble(n)
    requires Get(schema, "enum") == Some(Arr([Int(n), Float(n as real)]))
    ensures EnumReads(input, schema, AsCoded) <==> EnumReads(input, schema, AsStandard)
    ensures EnumReads(input, schema, AsCoded) ==> IsNumber(input)
  {
    hide SameValue;
    TwoSpellings(input, n);
    var choices := [Int(n), Float(n as real)];
    assert choices[0] in choices && choices[1] in choices;
  }

  /** So may an enumeration that lists both spellings of a number. */
  lemma BothSpellingsAgree(input: Json, schema: Json, n: Word)
    requires HasDouble(n)
    requires Get(schema, "enum") == Some(Arr([Int(n), Float(n as real)]))
    requires Get(schema, "const").None? && Get(schema, "type").None?
    requires Branches(schema, "anyOf") == [] && Branches(schema, "oneOf") == [] && Branches(schema, "allOf") == []
    ensures Valid(input, schema, AsCoded) <==> Valid(input, schema, AsStandard)
  {
    hide EnumReads, SameValue;
    BothListed(input, schema, n);
    assert Accepts(input, schema, [], AsCoded) == [] && Accepts(input, schema, [], AsStandard) == [];
  }

  // ---- schemas that are misread

  function Alone(key: string, value: Json): Json { Obj([Member(key, value)]) }

  lemma {:induction false} Utf8IsShort(s: string)
    ensures T.ByteLength(s) <= 4 * |s|
  {
    if s != "" {
      Utf8IsShort(s[1..]);
    }
  }

  lemma AloneGets(key: string, value: Json, other: string)
    ensures Get(Alone(key, value), other) == if other == key then Some(value) else None
  {
    var m := Member(key, value);
    assert Alone(key, value).members == [m];
    assert GetMember([m], other, 1) == None;
  }

  lemma AloneIsWithin(key: string, value: Json)
    requires |key| <= 8 && Size(value) <= 2 && FitsDepth(value, 11) && NodesOk(value, LIMITS)
    ensures Within(Alone(key, value), 0, MAX_SCHEMA_DEPTH, MAX_SCHEMA_NODES, 0, LIMITS)
  {
    Utf8IsShort(key);
    assert SizeOfMembers([Member(key, value)][..0]) == 0;
    assert Size(Alone(key, value)) == 1 + Size(value);
  }

  predicate Keyword(key: string) { key == "required" || key == "type" || key == "const" }

  lemma KeywordIsSupported(key: string)
    requires Keyword(key)
    ensures Supported(key)
  {
    var tail := KEYWORDS[1..][1..];
    assert KEYWORDS[0] == "type" && tail[0] == "required" && tail[1..][1..][1..][0] == "const";
    assert key == "const" ==> Listed(key, tail[1..][1..][1..]);
    assert key == "const" ==> Listed(key, tail[1..][1..]);
    assert key == "const" ==> Listed(key, tail[1..]);
    assert key != "type" ==> Listed(key, tail);
    assert key != "type" ==> Listed(key, KEYWORDS[1..]);
  }

  lemma NamesDiffer()
    ensures "required" !in ["type", "properties", "items", "enum", "const", "anyOf", "oneOf", "allOf"]
    ensures "type" !in ["properties", "items", "enum", "const", "anyOf", "oneOf", "allOf"]
    ensures "const" !in ["properties", "items", "enum", "anyOf", "oneOf", "allOf"]
  {
    assert |"required"| == 8 && |"type"| == 4 && |"const"| == 5;
    assert "type"[0] == 't' && "enum"[0] == 'e' && "const"[0] == 'c' && "items"[0] == 'i';
    assert "anyOf"[0] == 'a' && "oneOf"[0] == 'o' && "allOf"[0] == 'a';
  }

  lemma AloneHas(key: string, value: Json)
    requires Keyword(key)
    ensures var s := Alone(key, value);
            && Get(s, "type") == (if key == "type" then Some(value) else None)
            && Get(s, "required") == (if key == "required" then Some(value) else None)
            && Get(s, "const") == (if key == "const" then Some(value) else None)
            && Get(s, "properties").None? && Get(s, "items").None? && Get(s, "enum").None?
            && Get(s, "anyOf").None? && Get(s, "oneOf").None? && Get(s, "allOf").None?
  {
    NamesDiffer();
    AloneGets(key, value, "type");
    AloneGets(key, value, "required");
    AloneGets(key, value, "const");
    AloneGets(key, value, "properties");
    AloneGets(key, value, "items");
    AloneGets(key, value, "enum");
    AloneGets(key, value, "anyOf");
    AloneGets(key, value, "oneOf");
    AloneGets(key, value, "allOf");
  }

  lemma AloneIsPlain(key: string, value: Json)
    requires Keyword(key)
    requires key == "type" ==> value.Str? && TypeNamed(value.s).Some?
    requires key == "required" ==> value.Arr? && forall n | n in value.items :: n.Str?
    ensures WellShaped(Alone(key, value)) && Plain(Alone(key, value))
    ensures Constant(Alone(key, value)) <==> key == "const"
  {
    AloneHas(key, value);
    KeywordIsSupported(key);
  }

  /** `{"required": ["a"]}` is admitted, and accepts the empty object. */
  lemma RequiredAloneIsIgnored()
    ensures var schema := Alone("required", Arr([Str("a")]));
            && Admitted(schema, true)
            && Evaluate(Obj([]), schema, 0) == Pass && !Valid(Obj([]), schema, AsStandard)
  {
    hide Valid, Evaluate, WellShaped, Plain, Within, Constant;
    var names, schema := Arr([Str("a")]), Alone("required", Arr([Str("a")]));
    AloneHas("required", names);
    AloneIsPlain("required", names);
    Utf8IsShort("a");
    assert Size(Str("a")) == 1 && SizeOfItems([Str("a")][..0]) == 0 && Size(names) == 2;
    assert FitsDepth(Str("a"), 10) && NodesOk(Str("a"), LIMITS);
    AloneIsWithin("required", names);
    assert Str("a") in RequiredNames(schema);
    var input := MisreadNode(schema);
    AdmittedSchemasAreDecided(schema, input, true);
  }

  lemma IntegerIsNamed()
    ensures TypeNamed("integer") == Some(IntegerType)
  {
    assert |"integer"| == 7 && |"object"| == 6 && |"array"| == 5 && |"string"| == 6 && |"number"| == 6;
    assert TYPES[1..][1..][1..][1..][0] == ("integer", IntegerType);
    assert Lookup("integer", TYPES[1..][1..][1..][1..]) == Some(IntegerType);
    assert Lookup("integer", TYPES[1..][1..]) == Some(IntegerType);
  }

  /** `{"type": "integer"}` is admitted, and refuses `0.0`. */
  lemma WholeFloatIsRefused()
    ensures var schema := Alone("type", Str("integer"));
            && Admitted(schema, true)
            && Evaluate(Float(0.0), schema, 0) == Reject && Valid(Float(0.0), schema, AsStandard)
  {
    hide Valid, Evaluate, WellShaped, Plain, Within, Constant, TypeNamed;
    var schema := Alone("type", Str("integer"));
    IntegerIsNamed();
    AloneHas("type", Str("integer"));
    AloneIsPlain("type", Str("integer"));
    Utf8IsShort("integer");
    AloneIsWithin("type", Str("integer"));
    assert RequiredNames(schema) == [];
    var input := MisreadNode(schema);
    AdmittedSchemasAreDecided(schema, input, true);
  }

  /** `{"const": 1}` is admitted, and refuses `1.0`. */
  lemma OtherSpellingIsRefused()
    ensures var schema := Alone("const", Int(1));
            && Admitted(schema, true)
            && Evaluate(Float(1.0), schema, 0) == Reject && Valid(Float(1.0), schema, AsStandard)
  {
    var schema := Alone("const", Int(1));
    AloneHas("const", Int(1));
    AloneIsPlain("const", Int(1));
    AloneIsWithin("const", Int(1));
    ConstantMeans(Float(1.0), schema, AsCoded);
    ConstantMeans(Float(1.0), schema, AsStandard);
    AdmittedSchemasAreDecided(schema, Float(1.0), true);
  }
}

/** What each keyword of an admitted schema asks of an input, said of the evaluator of `src/webmcp.rs` itself. */
module SchemaKeywords {
  import opened Numbers
  import opened Octets
  import opened Json
  import opened WebMcp
  import opened SchemaStandard

  /** The kinds of values, by the names that a schema gives them. */
  predicate IsKind(name: string, input: Json) {
    || (name == "object" && input.Obj?)
    || (name == "array" && input.Arr?)
    || (name == "string" && input.Str?)
    || (name == "number" && (input.Int? || input.Float?))
    || (name == "integer" && input.Int?)
    || (name == "boolean" && input.Bool?)
    || (name == "null" && input.Null?)
  }

  predicate KindName(name: string) {
    || name == "object" || name == "array" || name == "string" || name == "number"
    || name == "integer" || name == "boolean" || name == "null"
  }

  lemma LookupOneMore(name: string, head: string, t: TypeName, rest: seq<(string, TypeName)>)
    ensures Lookup(name, [(head, t)] + rest) == if head == name then Some(t) else Lookup(name, rest)
  {
    assert ([(head, t)] + rest)[1..] == rest;
  }

  lemma NothingFound(name: string)
    ensures Lookup(name, []) == None
  {
  }

  lemma TypesByName(name: string)
    ensures TypeNamed(name)
         == if name == "object" then Some(ObjectType) else if name == "array" then Some(ArrayType)
            else if name == "string" then Some(StringType) else if name == "number" then Some(NumberType)
            else if name == "integer" then Some(IntegerType) else if name == "boolean" then Some(BooleanType)
            else if name == "null" then Some(NullType) else None
  {
    hide Lookup;
    var t6 := [("null", NullType)];
    var t5 := [("boolean", BooleanType)] + t6;
    var t4 := [("integer", IntegerType)] + t5;
    var t3 := [("number", NumberType)] + t4;
    var t2 := [("string", StringType)] + t3;
    var t1 := [("array", ArrayType)] + t2;
    NothingFound(name);
    assert t6 == [("null", NullType)] + [];
    LookupOneMore(name, "null", NullType, []);
    LookupOneMore(name, "boolean", BooleanType, t6);
    LookupOneMore(name, "integer", IntegerType, t5);
    LookupOneMore(name, "number", NumberType, t4);
    LookupOneMore(name, "string", StringType, t3);
    LookupOneMore(name, "array", ArrayType, t2);
    LookupOneMore(name, "object", ObjectType, t1);
    assert TYPES == [("object", ObjectType)] + t1;
  }

  lemma NamesApart()
    ensures "object" != "array" && "object" != "string" && "object" != "number" && "object" != "integer"
    ensures "object" != "boolean" && "object" != "null" && "array" != "string" && "array" != "number"
    ensures "array" != "integer" && "array" != "boolean" && "array" != "null" && "string" != "number"
    ensures "string" != "integer" && "string" != "boolean" && "string" != "null" && "number" != "integer"
    ensures "number" != "boolean" && "number" != "null" && "integer" != "boolean" && "integer" != "null"
    ensures "boolean" != "null"
  {
    assert |"object"| == 6 && |"array"| == 5 && |"string"| == 6 && |"number"| == 6;
    assert |"integer"| == 7 && |"boolean"| == 7 && |"null"| == 4;
    assert "object"[0] == 'o' && "string"[0] == 's' && "number"[0] == 'n' && "integer"[0] == 'i' && "boolean"[0] == 'b';
  }

  lemma KindsOfTypes(name: string, input: Json)
    ensures TypeNamed(name).Some? <==> KindName(name)
    ensures TypeNamed(name).Some? ==> (IsOfType(input, TypeNamed(name).value) <==> IsKind(name, input))
  {
    TypesByName(name);
    NamesApart();
    hide TypeNamed;
  }

  /** A schema that only names a type is admitted, and passes exactly the values of that kind. */
  lemma TypeMeansKind(name: string, input: Json)
    requires KindName(name)
    ensures var schema := Alone("type", Str(name));
            Admitted(schema, true) && (Evaluate(input, schema, 0) == Pass <==> IsKind(name, input))
  {
    hide Evaluate, WellShaped, Plain, Within, Constant, TypeNamed, IsOfType, IsKind;
    var schema := Alone("type", Str(name));
    KindsOfTypes(name, input);
    AloneHas("type", Str(name));
    AloneIsPlain("type", Str(name));
    assert |name| <= 7;
    Utf8IsShort(name);
    AloneIsWithin("type", Str(name));
    EvaluateExactly(input, schema, 0);
  }

  // ---- one node

  /** The kind asked for, if any. */
  predicate KindHolds(input: Json, schema: Json) {
    match Get(schema, "type") case Some(Str(name)) => IsKind(name, input) case _ => true
  }

  predicate ValueHolds(input: Json, schema: Json) {
    && (Get(schema, "const").Some? ==> Get(schema, "const") == Some(input))
    && (match Get(schema, "enum")
        case Some(Arr(choices)) => exists i | 0 <= i < |choices| :: choices[i] == input
        case _ => true)
  }

  predicate Passes(input: Json, schema: Json, depth: nat) { Evaluate(input, schema, depth) == Pass }

  predicate OnlyPasses(input: Json, branches: seq<Json>, depth: nat, i: nat) {
    && i < |branches| && Passes(input, branches[i], depth)
    && forall j | 0 <= j < |branches| && j != i :: !Passes(input, branches[j], depth)
  }

  predicate OnePasses(input: Json, branches: seq<Json>, depth: nat) {
    exists i | 0 <= i < |branches| :: OnlyPasses(input, branches, depth, i)
  }

  /** At least one branch of `anyOf` passes the input. */
  predicate AnyHolds(input: Json, schema: Json, depth: nat) {
    match Get(schema, "anyOf")
    case Some(Arr(branches)) => exists i | 0 <= i < |branches| :: Passes(input, branches[i], depth)
    case _ => true
  }

  /** Exactly one branch of `oneOf` does. */
  predicate OneHolds(input: Json, schema: Json, depth: nat) {
    match Get(schema, "oneOf") case Some(Arr(branches)) => OnePasses(input, branches, depth) case _ => true
  }

  /** Every branch of `allOf` does. */
  predicate AllHold(input: Json, schema: Json, depth: nat) {
    match Get(schema, "allOf")
    case Some(Arr(branches)) => forall i | 0 <= i < |branches| :: Passes(input, branches[i], depth)
    case _ => true
  }

  predicate HasKey(members: seq<Member>, key: string) { exists i | 0 <= i < |members| :: members[i].key == key }

  /** Beside properties, every required name is there, and every member that has a property passes its schema. */
  predicate MembersHold(input: Json, schema: Json, depth: nat) {
    match Get(schema, "properties")
    case Some(Obj(properties)) =>
      input.Obj? ==>
        && (match Get(schema, "required")
            case Some(Arr(names)) =>
              forall i | 0 <= i < |names| && names[i].Str? :: HasKey(input.members, names[i].s)
            case _ => true)
        && forall i | 0 <= i < |input.members| ::
             var p := Get(Obj(properties), input.members[i].key);
             p.Some? ==> Passes(input.members[i].value, p.value, depth)
    case _ => true
  }

  /** Every item of an array passes the schema for items. */
  predicate ItemsHold(input: Json, schema: Json, depth: nat) {
    match Get(schema, "items")
    case Some(item) => input.Arr? ==> forall i | 0 <= i < |input.items| :: Passes(input.items[i], item, depth)
    case None => true
  }

  function Flags(input: Json, branches: seq<Json>, depth: nat): seq<bool> {
    seq(|branches|, i requires 0 <= i < |branches| => Passes(input, branches[i], depth))
  }

  lemma {:induction false} CountsFlags(input: Json, schema: Json, branches: seq<Json>, depth: nat)
    requires forall i | 0 <= i < |branches| :: branches[i] < schema
    ensures Passing(input, schema, branches, depth) == Count(Flags(input, branches, depth))
    decreases |branches|
  {
    hide Evaluate;
    if branches != [] {
      CountsFlags(input, schema, branches[1..], depth);
      assert Flags(input, branches, depth)[1..] == Flags(input, branches[1..], depth);
    }
  }

  lemma AnyFlag(input: Json, branches: seq<Json>, depth: nat)
    ensures true in Flags(input, branches, depth)
       <==> exists i | 0 <= i < |branches| :: Passes(input, branches[i], depth)
  {
    hide Passes;
    var flags := Flags(input, branches, depth);
    if i :| 0 <= i < |branches| && Passes(input, branches[i], depth) {
      assert flags[i];
    }
  }

  lemma OneFlag(input: Json, branches: seq<Json>, depth: nat)
    ensures ExactlyOne(Flags(input, branches, depth)) <==> OnePasses(input, branches, depth)
  {
    hide Passes;
    var flags := Flags(input, branches, depth);
    if ExactlyOne(flags) {
      var i :| 0 <= i < |flags| && flags[i] && forall j | 0 <= j < |flags| && j != i :: !flags[j];
      assert forall j | 0 <= j < |branches| :: flags[j] == Passes(input, branches[j], depth);
      assert OnlyPasses(input, branches, depth, i);
    }
    if OnePasses(input, branches, depth) {
      var i :| 0 <= i < |branches| && OnlyPasses(input, branches, depth, i);
      assert flags[i] && forall j | 0 <= j < |flags| && j != i :: !flags[j];
    }
  }

  /** Counting the branches that pass tells whether any does, and whether exactly one does. */
  lemma CountsPassing(input: Json, schema: Json, branches: seq<Json>, depth: nat)
    requires forall i | 0 <= i < |branches| :: branches[i] < schema
    ensures Passing(input, schema, branches, depth) > 0
       <==> exists i | 0 <= i < |branches| :: Passes(input, branches[i], depth)
    ensures Passing(input, schema, branches, depth) == 1 <==> OnePasses(input, branches, depth)
  {
    hide Evaluate, Passes, Flags, Passing, OnlyPasses, OnePasses, ExactlyOne;
    CountsFlags(input, schema, branches, depth);
    CountZero(Flags(input, branches, depth));
    CountOne(Flags(input, branches, depth));
    AnyFlag(input, branches, depth);
    OneFlag(input, branches, depth);
  }

  lemma {:induction false} AllPass(input: Json, schema: Json, branches: seq<Json>, depth: nat)
    requires forall i | 0 <= i < |branches| :: branches[i] < schema
    ensures EvaluateAll(input, schema, branches, depth) == Pass
       <==> forall i | 0 <= i < |branches| :: Passes(input, branches[i], depth)
    decreases |branches|
  {
    hide Evaluate;
    if branches != [] {
      AllPass(input, schema, branches[1..], depth);
      assert branches == [branches[0]] + branches[1..];
    }
  }

  lemma {:induction false} ItemsPass(items: seq<Json>, schema: Json, item: Json, depth: nat)
    requires item < schema
    ensures EvaluateItems(items, schema, item, depth) == Pass
       <==> forall i | 0 <= i < |items| :: Passes(items[i], item, depth)
    decreases |items|
  {
    if items != [] {
      ItemsPass(items[1..], schema, item, depth);
      assert items == [items[0]] + items[1..];
    }
  }

  /** The member passes the schema of its property, if there is one. */
  predicate MemberPasses(m: Member, schema: Json, depth: nat) {
    var p := PropertySchema(schema, m.key);
    p.Some? ==> Passes(m.value, p.value, depth)
  }

  lemma {:induction false} MembersPass(members: seq<Member>, schema: Json, depth: nat)
    ensures EvaluateMembers(members, schema, depth) == Pass
       <==> forall i | 0 <= i < |members| :: MemberPasses(members[i], schema, depth)
    decreases |members|
  {
    if members != [] {
      MembersPass(members[1..], schema, depth);
      assert members == [members[0]] + members[1..];
    }
  }

  lemma GetIffKey(members: seq<Member>, key: string)
    ensures Get(Obj(members), key).Some? <==> HasKey(members, key)
  {
  }

  lemma RequiredIffKeys(input: Json, schema: Json)
    requires input.Obj?
    ensures RequiredOk(input, schema) <==>
              match Get(schema, "required")
              case Some(Arr(names)) =>
                forall i | 0 <= i < |names| && names[i].Str? :: HasKey(input.members, names[i].s)
              case _ => true
  {
    forall key
      ensures Get(input, key).Some? <==> HasKey(input.members, key)
    {
      GetIffKey(input.members, key);
    }
  }

  lemma AnyExactly(input: Json, schema: Json, depth: nat)
    ensures EvaluateAny(input, schema, depth) == Pass <==> AnyHolds(input, schema, depth)
  {
    hide Passes, Passing;
    CountsPassing(input, schema, Branches(schema, "anyOf"), depth);
  }

  lemma OneExactly(input: Json, schema: Json, depth: nat)
    ensures EvaluateOne(input, schema, depth) == Pass <==> OneHolds(input, schema, depth)
  {
    hide Passes, Passing, OnlyPasses;
    CountsPassing(input, schema, Branches(schema, "oneOf"), depth);
  }

  lemma AllExactly(input: Json, schema: Json, depth: nat)
    ensures EvaluateAll(input, schema, Branches(schema, "allOf"), depth) == Pass <==> AllHold(input, schema, depth)
  {
    hide Passes, EvaluateAll;
    AllPass(input, schema, Branches(schema, "allOf"), depth);
  }

  lemma MembersExactly(input: Json, schema: Json, depth: nat)
    ensures EvaluateProperties(input, schema, depth) == Pass <==> MembersHold(input, schema, depth)
  {
    if Described(input, schema) {
      RequiredIffKeys(input, schema);
      MembersPass(input.members, schema, depth);
    }
  }

  lemma ItemsExactly(input: Json, schema: Json, depth: nat)
    ensures EvaluateArray(input, schema, depth) == Pass <==> ItemsHold(input, schema, depth)
  {
    if input.Arr? && Get(schema, "items").Some? {
      ItemsPass(input.items, schema, Get(schema, "items").value, depth);
    }
  }

  lemma KindExactly(input: Json, schema: Json)
    ensures TypeVerdict(input, schema) == Pass <==> KindHolds(input, schema)
  {
    match Get(schema, "type") {
      case Some(Str(name)) => KindsOfTypes(name, input);
      case _ =>
    }
  }

  /** Within the depth budget the evaluator passes an input exactly if all that the keywords of the node ask holds,
    * and asks it of parts of the input by passing them itself. */
  lemma EvaluateExactly(input: Json, schema: Json, depth: nat)
    ensures Evaluate(input, schema, depth) == Pass
       <==> && depth <= MAX_SCHEMA_DEPTH
            && KindHolds(input, schema) && ValueHolds(input, schema)
            && AnyHolds(input, schema, depth + 1) && OneHolds(input, schema, depth + 1)
            && AllHold(input, schema, depth + 1)
            && MembersHold(input, schema, depth + 1) && ItemsHold(input, schema, depth + 1)
  {
    hide TypeVerdict, KindHolds, AnyHolds, OneHolds, AllHold, MembersHold, ItemsHold, EvaluateAny, EvaluateOne,
         EvaluateProperties, EvaluateArray, EvaluateAll;
    KindExactly(input, schema);
    AnyExactly(input, schema, depth + 1);
    OneExactly(input, schema, depth + 1);
    AllExactly(input, schema, depth + 1);
    MembersExactly(input, schema, depth + 1);
    ItemsExactly(input, schema, depth + 1);
  }

  // ---- admission, node by node

  predicate KnownKey(key: string) {
    || key == "type" || key == "properties" || key == "required" || key == "items" || key == "enum" || key == "const"
    || key == "anyOf" || key == "oneOf" || key == "allOf" || key == "title" || key == "description" || key == "default"
  }

  lemma ListedOneMore(key: string, head: string, rest: seq<string>)
    ensures Listed(key, [head] + rest) <==> head == key || Listed(key, rest)
  {
    assert ([head] + rest)[1..] == rest;
  }

  lemma KnownKeys(key: string)
    ensures Supported(key) <==> KnownKey(key)
  {
    hide Listed;
    var k11 := ["default"];
    var k10 := ["description"] + k11;
    var k9 := ["title"] + k10;
    var k8 := ["allOf"] + k9;
    var k7 := ["oneOf"] + k8;
    var k6 := ["anyOf"] + k7;
    var k5 := ["const"] + k6;
    var k4 := ["enum"] + k5;
    var k3 := ["items"] + k4;
    var k2 := ["required"] + k3;
    var k1 := ["properties"] + k2;
    NothingListed(key);
    assert k11 == ["default"] + [];
    ListedOneMore(key, "default", []);
    ListedOneMore(key, "description", k11);
    ListedOneMore(key, "title", k10);
    ListedOneMore(key, "allOf", k9);
    ListedOneMore(key, "oneOf", k8);
    ListedOneMore(key, "anyOf", k7);
    ListedOneMore(key, "const", k6);
    ListedOneMore(key, "enum", k5);
    ListedOneMore(key, "items", k4);
    ListedOneMore(key, "required", k3);
    ListedOneMore(key, "properties", k2);
    ListedOneMore(key, "type", k1);
    assert KEYWORDS == ["type"] + k1;
  }

  lemma NothingListed(key: string)
    ensures !Listed(key, [])
  {
  }

  predicate Admits(schema: Json, depth: nat) { ShapeOf(schema, depth) == Pass }

  /** The keys are known and each has a value of the right form. */
  predicate NodeIsPlain(schema: Json) {
    && schema.Obj? && (forall i | 0 <= i < |schema.members| :: KnownKey(schema.members[i].key))
    && (Get(schema, "type").Some? ==> Get(schema, "type").value.Str? && KindName(Get(schema, "type").value.s))
    && (Get(schema, "properties").Some? ==> Get(schema, "properties").value.Obj?)
    && (Get(schema, "required").Some? ==>
          && Get(schema, "required").value.Arr?
          && forall i | 0 <= i < |Get(schema, "required").value.items| :: Get(schema, "required").value.items[i].Str?)
    && (Get(schema, "enum").Some? ==> Get(schema, "enum").value.Arr?)
    && (Get(schema, "anyOf").Some? ==> Get(schema, "anyOf").value.Arr?)
    && (Get(schema, "oneOf").Some? ==> Get(schema, "oneOf").value.Arr?)
    && (Get(schema, "allOf").Some? ==> Get(schema, "allOf").value.Arr?)
  }

  /** All schemas inside are admitted. */
  predicate PartsAdmitted(schema: Json, depth: nat) {
    && (match Get(schema, "properties")
        case Some(Obj(members)) => forall i | 0 <= i < |members| :: Admits(members[i].value, depth)
        case _ => true)
    && (match Get(schema, "items") case Some(item) => Admits(item, depth) case None => true)
    && (match Get(schema, "anyOf")
        case Some(Arr(branches)) => forall i | 0 <= i < |branches| :: Admits(branches[i], depth)
        case _ => true)
    && (match Get(schema, "oneOf")
        case Some(Arr(branches)) => forall i | 0 <= i < |branches| :: Admits(branches[i], depth)
        case _ => true)
    && (match Get(schema, "allOf")
        case Some(Arr(branches)) => forall i | 0 <= i < |branches| :: Admits(branches[i], depth)
        case _ => true)
  }

  lemma NodeShapeIff(schema: Json)
    ensures NodeShape(schema) <==> NodeIsPlain(schema)
  {
    hide Supported, KnownKey, TypeNamed, KindName, IsOfType, IsKind;
    forall key
      ensures Supported(key) <==> KnownKey(key)
    {
      KnownKeys(key);
    }
    if Get(schema, "type").Some? && Get(schema, "type").value.Str? {
      KindsOfTypes(Get(schema, "type").value.s, Null);
    }
    if schema.Obj? {
      assert forall i | 0 <= i < |schema.members| :: schema.members[i] in schema.members;
    }
    if Get(schema, "required").Some? && Get(schema, "required").value.Arr? {
      var names := Get(schema, "required").value.items;
      assert forall i | 0 <= i < |names| :: names[i] in names;
    }
  }

  lemma {:induction false} AllAdmitted(schema: Json, subs: seq<Json>, depth: nat)
    requires forall i | 0 <= i < |subs| :: subs[i] < schema
    ensures ShapeOfAll(schema, subs, depth) == Pass <==> forall i | 0 <= i < |subs| :: Admits(subs[i], depth)
    decreases |subs|
  {
    hide ShapeOf;
    if subs != [] {
      AllAdmitted(schema, subs[1..], depth);
      assert subs == [subs[0]] + subs[1..];
    }
  }

  lemma {:induction false} MembersAdmitted(schema: Json, members: seq<Member>, depth: nat)
    requires forall m | m in members :: m.value < schema
    ensures ShapeOfMembers(schema, members, depth) == Pass
       <==> forall i | 0 <= i < |members| :: Admits(members[i].value, depth)
    decreases |members|
  {
    hide ShapeOf;
    if members != [] {
      MembersAdmitted(schema, members[1..], depth);
      assert members == [members[0]] + members[1..];
    }
  }

  lemma PartsExactly(schema: Json, depth: nat)
    ensures ShapeOfParts(schema, depth) == Pass <==> PartsAdmitted(schema, depth)
  {
    hide ShapeOf, ShapeOfAll, ShapeOfMembers;
    MembersAdmitted(schema, Properties(schema), depth);
    AllAdmitted(schema, Branches(schema, "anyOf"), depth);
    AllAdmitted(schema, Branches(schema, "oneOf"), depth);
    AllAdmitted(schema, Branches(schema, "allOf"), depth);
  }

  /** Within the depth limit a node has a supported shape exactly if its keywords do and all schemas inside have. */
  lemma ShapeExactly(schema: Json, depth: nat)
    ensures Admits(schema, depth)
       <==> depth <= MAX_SCHEMA_DEPTH && NodeIsPlain(schema) && PartsAdmitted(schema, depth + 1)
  {
    hide NodeShape, NodeIsPlain, ShapeOfParts, PartsAdmitted;
    NodeShapeIff(schema);
    PartsExactly(schema, depth + 1);
  }
}

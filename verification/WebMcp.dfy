/** JSON Schema admission and evaluation of `src/webmcp.rs`. The evaluator carries a depth budget and swallows
  * errors inside `anyOf` and `oneOf`, so running out of budget could change a verdict. For admitted schemas it
  * never does.
  */
module WebMcp {
  import opened Numbers
  import opened Octets
  import opened Json

  const MAX_SCHEMA_DEPTH := 12
  const MAX_SCHEMA_NODES := 512
  const MAX_NAME_BYTES := 128
  const MAX_DESCRIPTION_BYTES := 4 * 1024
  const LIMITS := Limits(MAX_NAME_BYTES, MAX_DESCRIPTION_BYTES, None)

  datatype Verdict = Pass | TooDeep | UnknownType | Reject

  function Then(v: Verdict, w: Verdict): Verdict { if v == Pass then w else v }

  function Check(ok: bool): Verdict { if ok then Pass else Reject }

  // ---- admission

  const KEYWORDS: seq<string> := ["type", "properties", "required", "items", "enum", "const", "anyOf", "oneOf", "allOf",
                                  "title", "description", "default"]

  predicate Listed(key: string, names: seq<string>) {
    names != [] && (names[0] == key || Listed(key, names[1..]))
  }

  predicate Supported(key: string) { Listed(key, KEYWORDS) }

  datatype TypeName = ObjectType | ArrayType | StringType | NumberType | IntegerType | BooleanType | NullType

  const TYPES: seq<(string, TypeName)> := [("object", ObjectType), ("array", ArrayType), ("string", StringType),
                                           ("number", NumberType), ("integer", IntegerType),
                                           ("boolean", BooleanType), ("null", NullType)]

  function Lookup(name: string, table: seq<(string, TypeName)>): Option<TypeName> {
    if table == [] then None else if table[0].0 == name then Some(table[0].1) else Lookup(name, table[1..])
  }

  function TypeNamed(name: string): Option<TypeName> { Lookup(name, TYPES) }

  function Branches(schema: Json, key: string): (r: seq<Json>)
    ensures forall i | 0 <= i < |r| :: r[i] < schema
  {
    match Get(schema, key)
    case Some(Arr(items)) => items
    case _ => []
  }

  function Properties(schema: Json): (r: seq<Member>)
    ensures forall m | m in r :: m.value < schema
  {
    match Get(schema, "properties")
    case Some(Obj(members)) => members
    case _ => []
  }

  /** The keywords, the type name and the kinds of the values of one schema node. */
  predicate NodeShape(schema: Json) {
    && schema.Obj?
    && (forall m | m in schema.members :: Supported(m.key))
    && (match Get(schema, "type") case None => true case Some(t) => t.Str? && TypeNamed(t.s).Some?)
    && (match Get(schema, "properties") case None => true case Some(p) => p.Obj?)
    && (match Get(schema, "required") case None => true case Some(r) => r.Arr? && forall n | n in r.items :: n.Str?)
    && (match Get(schema, "enum") case None => true case Some(e) => e.Arr?)
    && (match Get(schema, "anyOf") case None => true case Some(b) => b.Arr?)
    && (match Get(schema, "oneOf") case None => true case Some(b) => b.Arr?)
    && (match Get(schema, "allOf") case None => true case Some(b) => b.Arr?)
  }

  /** `validate_schema_shape`. */
  function ShapeOf(schema: Json, depth: nat): Verdict
    decreases schema, 2
  {
    if depth > MAX_SCHEMA_DEPTH then TooDeep else Then(Check(NodeShape(schema)), ShapeOfParts(schema, depth + 1))
  }

  function ShapeOfParts(schema: Json, depth: nat): Verdict
    decreases schema, 1
  {
    Then(ShapeOfMembers(schema, Properties(schema), depth),
    Then((match Get(schema, "items") case None => Pass case Some(items) => ShapeOf(items, depth)),
    Then(ShapeOfAll(schema, Branches(schema, "anyOf"), depth),
    Then(ShapeOfAll(schema, Branches(schema, "oneOf"), depth),
         ShapeOfAll(schema, Branches(schema, "allOf"), depth)))))
  }

  function ShapeOfAll(schema: Json, subs: seq<Json>, depth: nat): Verdict
    requires forall i | 0 <= i < |subs| :: subs[i] < schema
    decreases schema, 0, |subs|
  {
    if subs == [] then Pass else Then(ShapeOf(subs[0], depth), ShapeOfAll(schema, subs[1..], depth))
  }

  function ShapeOfMembers(schema: Json, members: seq<Member>, depth: nat): Verdict
    requires forall m | m in members :: m.value < schema
    decreases schema, 0, |members|
  {
    if members == [] then Pass else Then(ShapeOf(members[0].value, depth), ShapeOfMembers(schema, members[1..], depth))
  }

  /** Every node that can be reached through properties, items and branches has a supported shape. */
  predicate WellShaped(schema: Json)
    decreases schema, 1
  {
    NodeShape(schema) && PartsWellShaped(schema)
  }

  predicate PartsWellShaped(schema: Json)
    decreases schema, 0
  {
    && (forall m | m in Properties(schema) :: WellShaped(m.value))
    && (match Get(schema, "items") case None => true case Some(items) => WellShaped(items))
    && (forall b | b in Branches(schema, "anyOf") :: WellShaped(b))
    && (forall b | b in Branches(schema, "oneOf") :: WellShaped(b))
    && (forall b | b in Branches(schema, "allOf") :: WellShaped(b))
  }

  /** What may be offered as a schema; neither depth budget nor order of visits plays a part. */
  predicate Admitted(schema: Json, serializedFits: bool) {
    && serializedFits
    && Within(schema, 0, MAX_SCHEMA_DEPTH, MAX_SCHEMA_NODES, 0, LIMITS)
    && schema.Obj? && WellShaped(schema)
  }

  // ---- evaluation

  predicate IsOfType(input: Json, t: TypeName) {
    match t
    case ObjectType => input.Obj?
    case ArrayType => input.Arr?
    case StringType => input.Str?
    case NumberType => input.Int? || input.Float?
    case IntegerType => input.Int?
    case BooleanType => input.Bool?
    case NullType => input.Null?
  }

  function TypeVerdict(input: Json, schema: Json): Verdict {
    match Get(schema, "type")
    case Some(Str(name)) =>
      (match TypeNamed(name)
       case None => UnknownType
       case Some(t) => Check(IsOfType(input, t)))
    case _ => Pass
  }

  predicate TypeOk(input: Json, schema: Json) {
    match Get(schema, "type")
    case Some(Str(name)) => TypeNamed(name).Some? && IsOfType(input, TypeNamed(name).value)
    case _ => true
  }

  predicate ConstOk(input: Json, schema: Json) {
    match Get(schema, "const") case None => true case Some(c) => input == c
  }

  predicate EnumOk(input: Json, schema: Json) {
    match Get(schema, "enum") case Some(Arr(choices)) => input in choices case _ => true
  }

  predicate RequiredOk(input: Json, schema: Json) {
    match Get(schema, "required")
    case Some(Arr(names)) => forall n | n in names :: n.Str? ==> Get(input, n.s).Some?
    case _ => true
  }

  predicate HasBranches(schema: Json, key: string) {
    Get(schema, key).Some? && Get(schema, key).value.Arr?
  }

  predicate Described(input: Json, schema: Json) {
    input.Obj? && Get(schema, "properties").Some? && Get(schema, "properties").value.Obj?
  }

  /** `validate_against_schema`, with the depth budget and the swallowing of branch errors. */
  function Evaluate(input: Json, schema: Json, depth: nat): Verdict
    decreases schema, 2
  {
    if depth > MAX_SCHEMA_DEPTH then TooDeep
    else
      Then(TypeVerdict(input, schema),
      Then(Check(ConstOk(input, schema)),
      Then(Check(EnumOk(input, schema)),
      Then(EvaluateAny(input, schema, depth + 1),
      Then(EvaluateOne(input, schema, depth + 1),
      Then(EvaluateAll(input, schema, Branches(schema, "allOf"), depth + 1),
      Then(EvaluateProperties(input, schema, depth + 1),
           EvaluateArray(input, schema, depth + 1))))))))
  }

  function EvaluateAny(input: Json, schema: Json, depth: nat): Verdict
    decreases schema, 1
  {
    Check(HasBranches(schema, "anyOf") ==> Passing(input, schema, Branches(schema, "anyOf"), depth) > 0)
  }

  function EvaluateOne(input: Json, schema: Json, depth: nat): Verdict
    decreases schema, 1
  {
    Check(HasBranches(schema, "oneOf") ==> Passing(input, schema, Branches(schema, "oneOf"), depth) == 1)
  }

  function EvaluateProperties(input: Json, schema: Json, depth: nat): Verdict
    decreases schema, 1
  {
    if Described(input, schema) then
      Then(Check(RequiredOk(input, schema)), EvaluateMembers(input.members, schema, depth))
    else Pass
  }

  function EvaluateArray(input: Json, schema: Json, depth: nat): Verdict
    decreases schema, 1
  {
    match Get(schema, "items")
    case Some(item) => if input.Arr? then EvaluateItems(input.items, schema, item, depth) else Pass
    case None => Pass
  }

  /** How many branches accept the input; any error of a branch counts as a refusal. */
  function Passing(input: Json, schema: Json, branches: seq<Json>, depth: nat): nat
    requires forall i | 0 <= i < |branches| :: branches[i] < schema
    decreases schema, 0, |branches|
  {
    if branches == [] then 0
    else (if Evaluate(input, branches[0], depth) == Pass then 1 else 0) + Passing(input, schema, branches[1..], depth)
  }

  function EvaluateAll(input: Json, schema: Json, branches: seq<Json>, depth: nat): Verdict
    requires forall i | 0 <= i < |branches| :: branches[i] < schema
    decreases schema, 0, |branches|
  {
    if branches == [] then Pass
    else Then(Evaluate(input, branches[0], depth), EvaluateAll(input, schema, branches[1..], depth))
  }

  function PropertySchema(schema: Json, key: string): (r: Option<Json>)
    ensures r.Some? ==> r.value < schema
    ensures r.Some? ==> exists m | m in Properties(schema) :: m.value == r.value
  {
    match Get(schema, "properties")
    case Some(p) => Get(p, key)
    case None => None
  }

  function EvaluateMembers(members: seq<Member>, schema: Json, depth: nat): Verdict
    decreases schema, 0, |members|
  {
    if members == [] then Pass
    else
      Then((match PropertySchema(schema, members[0].key)
            case Some(p) => Evaluate(members[0].value, p, depth)
            case None => Pass),
           EvaluateMembers(members[1..], schema, depth))
  }

  function EvaluateItems(items: seq<Json>, schema: Json, item: Json, depth: nat): Verdict
    requires item < schema
    decreases schema, 0, |items|
  {
    if items == [] then Pass else Then(Evaluate(items[0], item, depth), EvaluateItems(items[1..], schema, item, depth))
  }

  // ---- meaning, without any budget

  /** JSON Schema binds every object by `required`, counts every number without a fraction as an integer and compares
    * numbers by value. The code binds only where there are `properties` too, takes no float for an integer, and tells
    * an integer from the float of the same value. */
  datatype Reading = AsCoded | AsStandard

  predicate IsNumber(j: Json) { j.Int? || j.Float? }

  function NumberOf(j: Json): real
    requires IsNumber(j)
  {
    if j.Int? then j.n as real else j.x
  }

  /** Equality of JSON values, with numbers compared by value. */
  predicate SameValue(a: Json, b: Json) {
    if IsNumber(a) && IsNumber(b) then NumberOf(a) == NumberOf(b)
    else
      match a
      case Arr(items) =>
        b.Arr? && |b.items| == |items| && forall i | 0 <= i < |items| :: SameValue(items[i], b.items[i])
      case Obj(members) =>
        && b.Obj? && |b.members| == |members|
        && forall i | 0 <= i < |members| ::
             members[i].key == b.members[i].key && SameValue(members[i].value, b.members[i].value)
      case _ => a == b
  }

  predicate TypeReads(input: Json, schema: Json, how: Reading) {
    || TypeOk(input, schema)
    || (how == AsStandard && input.Float? && IsWhole(input.x)
        && match Get(schema, "type") case Some(Str(name)) => TypeNamed(name) == Some(IntegerType) case _ => false)
  }

  predicate ConstReads(input: Json, schema: Json, how: Reading) {
    if how == AsCoded then ConstOk(input, schema)
    else match Get(schema, "const") case None => true case Some(c) => SameValue(input, c)
  }

  predicate EnumReads(input: Json, schema: Json, how: Reading) {
    if how == AsCoded then EnumOk(input, schema)
    else
      match Get(schema, "enum")
      case Some(Arr(choices)) => exists c | c in choices :: SameValue(input, c)
      case _ => true
  }

  /** The meaning of the keywords that the evaluator implements. */
  ghost predicate Valid(input: Json, schema: Json, how: Reading)
    decreases schema, 2
  {
    && TypeReads(input, schema, how) && ConstReads(input, schema, how) && EnumReads(input, schema, how)
    && ValidAny(input, schema, how) && ValidOne(input, schema, how) && ValidAll(input, schema, how)
    && ValidProperties(input, schema, how) && ValidItems(input, schema, how)
  }

  ghost predicate ValidAny(input: Json, schema: Json, how: Reading)
    decreases schema, 1
  {
    HasBranches(schema, "anyOf") ==> true in Accepts(input, schema, Branches(schema, "anyOf"), how)
  }

  ghost predicate ValidOne(input: Json, schema: Json, how: Reading)
    decreases schema, 1
  {
    HasBranches(schema, "oneOf") ==> ExactlyOne(Accepts(input, schema, Branches(schema, "oneOf"), how))
  }

  ghost predicate ValidAll(input: Json, schema: Json, how: Reading)
    decreases schema, 1
  {
    false !in Accepts(input, schema, Branches(schema, "allOf"), how)
  }

  ghost predicate ValidProperties(input: Json, schema: Json, how: Reading)
    decreases schema, 1
  {
    && (input.Obj? && (how == AsStandard || Described(input, schema)) ==> RequiredOk(input, schema))
    && (Described(input, schema) ==> false !in AcceptsMembers(input.members, schema, how))
  }

  ghost predicate ValidItems(input: Json, schema: Json, how: Reading)
    decreases schema, 1
  {
    input.Arr? && Get(schema, "items").Some? ==>
      false !in AcceptsItems(input.items, schema, Get(schema, "items").value, how)
  }

  /** Which branches the input is valid against. */
  ghost function Accepts(input: Json, schema: Json, branches: seq<Json>, how: Reading): seq<bool>
    requires forall i | 0 <= i < |branches| :: branches[i] < schema
    decreases schema, 0, |branches|
  {
    if branches == [] then [] else [Valid(input, branches[0], how)] + Accepts(input, schema, branches[1..], how)
  }

  /** Which members are valid against the schema of their property, if there is one. */
  ghost function AcceptsMembers(members: seq<Member>, schema: Json, how: Reading): seq<bool>
    decreases schema, 0, |members|
  {
    if members == [] then []
    else
      var p := PropertySchema(schema, members[0].key);
      [p.Some? ==> Valid(members[0].value, p.value, how)] + AcceptsMembers(members[1..], schema, how)
  }

  ghost function AcceptsItems(items: seq<Json>, schema: Json, item: Json, how: Reading): seq<bool>
    requires item < schema
    decreases schema, 0, |items|
  {
    if items == [] then [] else [Valid(items[0], item, how)] + AcceptsItems(items[1..], schema, item, how)
  }

  predicate ExactlyOne(flags: seq<bool>) {
    exists i | 0 <= i < |flags| :: flags[i] && forall j | 0 <= j < |flags| && j != i :: !flags[j]
  }

  // ---- admission never runs out of depth

  /** The bound on the nesting of values already keeps the shape check within its own depth limit. */
  lemma {:induction false} BoundsCoverShape(schema: Json, d: int, depth: nat)
    requires FitsDepth(schema, d) && depth + d <= MAX_SCHEMA_DEPTH
    ensures ShapeOf(schema, depth) != TooDeep
    decreases schema, 2
  {
    BoundsCoverParts(schema, d, depth + 1);
  }

  lemma {:induction false} BoundsCoverParts(schema: Json, d: int, depth: nat)
    requires FitsDepth(schema, d) && depth + d <= MAX_SCHEMA_DEPTH + 1
    ensures ShapeOfParts(schema, depth) != TooDeep
    decreases schema, 1, 1
  {
    BoundsCoverBranches(schema, "anyOf", d, depth);
    BoundsCoverBranches(schema, "oneOf", d, depth);
    BoundsCoverBranches(schema, "allOf", d, depth);
    PropertiesFit(schema, d);
    BoundsCoverMembers(schema, Properties(schema), d - 2, depth);
    BoundsCoverItems(schema, d, depth);
  }

  lemma {:induction false} BoundsCoverBranches(schema: Json, key: string, d: int, depth: nat)
    requires FitsDepth(schema, d) && depth + d <= MAX_SCHEMA_DEPTH + 1
    ensures ShapeOfAll(schema, Branches(schema, key), depth) != TooDeep
    decreases schema, 1, 0
  {
    BranchesFit(schema, key, d);
    BoundsCoverAll(schema, Branches(schema, key), d - 2, depth);
  }

  lemma {:induction false} BoundsCoverItems(schema: Json, d: int, depth: nat)
    requires FitsDepth(schema, d) && depth + d <= MAX_SCHEMA_DEPTH + 1
    ensures Get(schema, "items").Some? ==> ShapeOf(Get(schema, "items").value, depth) != TooDeep
    decreases schema, 1, 0
  {
    if Get(schema, "items").Some? {
      GetFits(schema, "items", d);
      BoundsCoverShape(Get(schema, "items").value, d - 1, depth);
    }
  }

  lemma GetFits(j: Json, key: string, d: int)
    requires FitsDepth(j, d) && Get(j, key).Some?
    ensures FitsDepth(Get(j, key).value, d - 1)
  {
    var i :| 0 <= i < |j.members| && j.members[i] == Member(key, Get(j, key).value);
    assert j.members[i] in j.members;
  }

  lemma BranchesFit(schema: Json, key: string, d: int)
    requires FitsDepth(schema, d)
    ensures forall i | 0 <= i < |Branches(schema, key)| :: FitsDepth(Branches(schema, key)[i], d - 2)
  {
    if HasBranches(schema, key) {
      GetFits(schema, key, d);
      var bs := Branches(schema, key);
      forall i | 0 <= i < |bs|
        ensures FitsDepth(bs[i], d - 2)
      {
        assert bs[i] in bs;
      }
    }
  }

  lemma PropertiesFit(schema: Json, d: int)
    requires FitsDepth(schema, d)
    ensures forall m | m in Properties(schema) :: FitsDepth(m.value, d - 2)
  {
    if Get(schema, "properties").Some? {
      GetFits(schema, "properties", d);
    }
  }

  lemma {:induction false} BoundsCoverAll(schema: Json, subs: seq<Json>, d: int, depth: nat)
    requires forall i | 0 <= i < |subs| :: subs[i] < schema && FitsDepth(subs[i], d)
    requires depth + d <= MAX_SCHEMA_DEPTH
    ensures ShapeOfAll(schema, subs, depth) != TooDeep
    decreases schema, 0, |subs|
  {
    if subs != [] {
      BoundsCoverShape(subs[0], d, depth);
      BoundsCoverAll(schema, subs[1..], d, depth);
    }
  }

  lemma {:induction false} BoundsCoverMembers(schema: Json, members: seq<Member>, d: int, depth: nat)
    requires forall m | m in members :: m.value < schema && FitsDepth(m.value, d)
    requires depth + d <= MAX_SCHEMA_DEPTH
    ensures ShapeOfMembers(schema, members, depth) != TooDeep
    decreases schema, 0, |members|
  {
    if members != [] {
      BoundsCoverShape(members[0].value, d, depth);
      BoundsCoverMembers(schema, members[1..], d, depth);
    }
  }

  // ---- the shape check, without its depth

  /** As long as its depth limit is not met, the shape check accepts exactly what is well shaped. */
  lemma {:induction false} ShapeIsWellShaped(schema: Json, depth: nat)
    requires ShapeOf(schema, depth) != TooDeep
    ensures ShapeOf(schema, depth) == if WellShaped(schema) then Pass else Reject
    decreases schema, 2
  {
    if NodeShape(schema) {
      PartsAreWellShaped(schema, depth + 1);
    }
  }

  lemma {:induction false} PartsAreWellShaped(schema: Json, depth: nat)
    requires ShapeOfParts(schema, depth) != TooDeep
    ensures ShapeOfParts(schema, depth) == if PartsWellShaped(schema) then Pass else Reject
    decreases schema, 1
  {
    var members, items := Properties(schema), Get(schema, "items");
    var anyOf, oneOf, allOf := Branches(schema, "anyOf"), Branches(schema, "oneOf"), Branches(schema, "allOf");
    MembersAreWellShaped(schema, members, depth);
    if ShapeOfMembers(schema, members, depth) == Pass {
      if items.Some? {
        ShapeIsWellShaped(items.value, depth);
      }
      if items.None? || ShapeOf(items.value, depth) == Pass {
        AllAreWellShaped(schema, anyOf, depth);
        if ShapeOfAll(schema, anyOf, depth) == Pass {
          AllAreWellShaped(schema, oneOf, depth);
          if ShapeOfAll(schema, oneOf, depth) == Pass {
            AllAreWellShaped(schema, allOf, depth);
          }
        }
      }
    }
  }

  lemma {:induction false} AllAreWellShaped(schema: Json, subs: seq<Json>, depth: nat)
    requires forall i | 0 <= i < |subs| :: subs[i] < schema
    requires ShapeOfAll(schema, subs, depth) != TooDeep
    ensures ShapeOfAll(schema, subs, depth) == if forall b | b in subs :: WellShaped(b) then Pass else Reject
    decreases schema, 0, |subs|
  {
    if subs != [] {
      ShapeIsWellShaped(subs[0], depth);
      assert subs == [subs[0]] + subs[1..];
      if WellShaped(subs[0]) {
        AllAreWellShaped(schema, subs[1..], depth);
      }
    }
  }

  lemma {:induction false} MembersAreWellShaped(schema: Json, members: seq<Member>, depth: nat)
    requires forall m | m in members :: m.value < schema
    requires ShapeOfMembers(schema, members, depth) != TooDeep
    ensures ShapeOfMembers(schema, members, depth)
         == if forall m | m in members :: WellShaped(m.value) then Pass else Reject
    decreases schema, 0, |members|
  {
    if members != [] {
      ShapeIsWellShaped(members[0].value, depth);
      assert members == [members[0]] + members[1..];
      if WellShaped(members[0].value) {
        MembersAreWellShaped(schema, members[1..], depth);
      }
    }
  }

  /** `validate_schema`: size, then bounds, then shape. */
  method ValidateSchema(schema: Json, serializedFits: bool) returns (ok: bool)
    ensures ok <==> Admitted(schema, serializedFits)
  {
    if !serializedFits {
      return false;
    }
    var bounded, _ := ValidateBounds(schema, 0, MAX_SCHEMA_DEPTH, MAX_SCHEMA_NODES, 0, LIMITS);
    if !bounded {
      return false;
    }
    if !schema.Obj? {
      return false;
    }
    AdmissionNeverRunsOutOfDepth(schema);
    ShapeIsWellShaped(schema, 0);
    ok := ShapeOf(schema, 0) == Pass;
  }

  /** Within the bounds on values, the depth limit of the shape check is never what refuses a schema. */
  lemma AdmissionNeverRunsOutOfDepth(schema: Json)
    requires Within(schema, 0, MAX_SCHEMA_DEPTH, MAX_SCHEMA_NODES, 0, LIMITS)
    ensures ShapeOf(schema, 0) != TooDeep
  {
    BoundsCoverShape(schema, MAX_SCHEMA_DEPTH, 0);
  }

  // ---- evaluation means validity

  lemma {:induction false} ShapesEach(schema: Json, subs: seq<Json>, depth: nat)
    requires forall i | 0 <= i < |subs| :: subs[i] < schema
    requires ShapeOfAll(schema, subs, depth) == Pass
    ensures forall i | 0 <= i < |subs| :: ShapeOf(subs[i], depth) == Pass
    decreases |subs|
  {
    if subs != [] {
      ShapesEach(schema, subs[1..], depth);
      assert subs == [subs[0]] + subs[1..];
    }
  }

  lemma {:induction false} MemberShapesEach(schema: Json, members: seq<Member>, depth: nat)
    requires forall m | m in members :: m.value < schema
    requires ShapeOfMembers(schema, members, depth) == Pass
    ensures forall m | m in members :: ShapeOf(m.value, depth) == Pass
    decreases |members|
  {
    if members != [] {
      MemberShapesEach(schema, members[1..], depth);
      assert members == [members[0]] + members[1..];
    }
  }

  predicate Sound(v: Verdict, valid: bool) {
    (v == Pass && valid) || (v == Reject && !valid)
  }

  /** A schema of good shape at `depth` is evaluated from there without any budget error, and the verdict is the
    * meaning of the schema. */
  lemma {:induction false} EvaluateMeansValid(input: Json, schema: Json, depth: nat)
    requires ShapeOf(schema, depth) == Pass
    ensures Sound(Evaluate(input, schema, depth), Valid(input, schema, AsCoded))
    decreases schema, 2
  {
    TypeMeans(input, schema);
    AnyMeans(input, schema, depth + 1);
    OneMeans(input, schema, depth + 1);
    AllMean(input, schema, depth + 1);
    PropertiesMean(input, schema, depth + 1);
    ArrayMeans(input, schema, depth + 1);
  }

  lemma TypeMeans(input: Json, schema: Json)
    requires NodeShape(schema)
    ensures Sound(TypeVerdict(input, schema), TypeOk(input, schema))
  {
  }

  function Count(flags: seq<bool>): nat {
    if flags == [] then 0 else (if flags[0] then 1 else 0) + Count(flags[1..])
  }

  lemma {:induction false} CountZero(flags: seq<bool>)
    ensures Count(flags) == 0 <==> true !in flags
  {
    if flags != [] {
      CountZero(flags[1..]);
      assert flags == [flags[0]] + flags[1..];
    }
  }

  /** Past a branch that refuses, exactly one is exactly one of the rest; past one that accepts, none may follow. */
  lemma ExactlyOneCons(head: bool, rest: seq<bool>)
    ensures ExactlyOne([head] + rest) <==> if head then true !in rest else ExactlyOne(rest)
  {
    var flags := [head] + rest;
    assert forall j | 0 <= j < |rest| :: flags[j + 1] == rest[j];
    if head && true !in rest {
      assert flags[0] && forall j | 0 <= j < |flags| && j != 0 :: !flags[j];
    }
    if !head && ExactlyOne(rest) {
      var i :| 0 <= i < |rest| && rest[i] && forall j | 0 <= j < |rest| && j != i :: !rest[j];
      assert flags[i + 1] && forall j | 0 <= j < |flags| && j != i + 1 :: !flags[j];
    }
    if ExactlyOne(flags) {
      var i :| 0 <= i < |flags| && flags[i] && forall j | 0 <= j < |flags| && j != i :: !flags[j];
      forall j | 0 <= j < |rest| && j + 1 != i
        ensures !rest[j]
      {
        assert !flags[j + 1];
      }
      assert head ==> i == 0;
      assert !head ==> rest[i - 1];
    }
  }

  lemma {:induction false} CountOne(flags: seq<bool>)
    ensures Count(flags) == 1 <==> ExactlyOne(flags)
  {
    if flags != [] {
      CountOne(flags[1..]);
      CountZero(flags[1..]);
      ExactlyOneCons(flags[0], flags[1..]);
      assert flags == [flags[0]] + flags[1..];
    }
  }

  lemma {:induction false} CountMeans(input: Json, schema: Json, branches: seq<Json>, depth: nat)
    requires forall i | 0 <= i < |branches| :: branches[i] < schema && ShapeOf(branches[i], depth) == Pass
    ensures Passing(input, schema, branches, depth) == Count(Accepts(input, schema, branches, AsCoded))
    decreases schema, 0, |branches|
  {
    if branches != [] {
      EvaluateMeansValid(input, branches[0], depth);
      CountMeans(input, schema, branches[1..], depth);
    }
  }

  lemma {:induction false} AnyMeans(input: Json, schema: Json, depth: nat)
    requires ShapeOfParts(schema, depth) == Pass
    ensures Sound(EvaluateAny(input, schema, depth), ValidAny(input, schema, AsCoded))
    decreases schema, 1
  {
    var bs := Branches(schema, "anyOf");
    ShapesEach(schema, bs, depth);
    CountMeans(input, schema, bs, depth);
    CountZero(Accepts(input, schema, bs, AsCoded));
  }

  lemma {:induction false} OneMeans(input: Json, schema: Json, depth: nat)
    requires ShapeOfParts(schema, depth) == Pass
    ensures Sound(EvaluateOne(input, schema, depth), ValidOne(input, schema, AsCoded))
    decreases schema, 1
  {
    var bs := Branches(schema, "oneOf");
    ShapesEach(schema, bs, depth);
    CountMeans(input, schema, bs, depth);
    CountOne(Accepts(input, schema, bs, AsCoded));
  }

  lemma {:induction false} AllMean(input: Json, schema: Json, depth: nat)
    requires ShapeOfParts(schema, depth) == Pass
    ensures Sound(EvaluateAll(input, schema, Branches(schema, "allOf"), depth), ValidAll(input, schema, AsCoded))
    decreases schema, 1
  {
    var bs := Branches(schema, "allOf");
    ShapesEach(schema, bs, depth);
    AllBranchesMean(input, schema, bs, depth);
  }

  lemma NoFalse(head: bool, flags: seq<bool>)
    ensures false !in [head] + flags <==> head && false !in flags
  {
  }

  lemma {:induction false} AllBranchesMean(input: Json, schema: Json, branches: seq<Json>, depth: nat)
    requires forall i | 0 <= i < |branches| :: branches[i] < schema && ShapeOf(branches[i], depth) == Pass
    ensures Sound(EvaluateAll(input, schema, branches, depth), false !in Accepts(input, schema, branches, AsCoded))
    decreases schema, 0, |branches|
  {
    if branches != [] {
      EvaluateMeansValid(input, branches[0], depth);
      AllBranchesMean(input, schema, branches[1..], depth);
      NoFalse(Valid(input, branches[0], AsCoded), Accepts(input, schema, branches[1..], AsCoded));
    }
  }

  lemma {:induction false} PropertiesMean(input: Json, schema: Json, depth: nat)
    requires ShapeOfParts(schema, depth) == Pass
    ensures Sound(EvaluateProperties(input, schema, depth), ValidProperties(input, schema, AsCoded))
    decreases schema, 1
  {
    if Described(input, schema) {
      MemberShapesEach(schema, Properties(schema), depth);
      MembersMean(input.members, schema, depth);
    }
  }

  lemma {:induction false} MembersMean(members: seq<Member>, schema: Json, depth: nat)
    requires forall m | m in Properties(schema) :: ShapeOf(m.value, depth) == Pass
    ensures Sound(EvaluateMembers(members, schema, depth), false !in AcceptsMembers(members, schema, AsCoded))
    decreases schema, 0, |members|
  {
    if members != [] {
      var p := PropertySchema(schema, members[0].key);
      if p.Some? {
        EvaluateMeansValid(members[0].value, p.value, depth);
      }
      MembersMean(members[1..], schema, depth);
      NoFalse(p.Some? ==> Valid(members[0].value, p.value, AsCoded), AcceptsMembers(members[1..], schema, AsCoded));
    }
  }

  lemma {:induction false} ArrayMeans(input: Json, schema: Json, depth: nat)
    requires ShapeOfParts(schema, depth) == Pass
    ensures Sound(EvaluateArray(input, schema, depth), ValidItems(input, schema, AsCoded))
    decreases schema, 1
  {
    if input.Arr? && Get(schema, "items").Some? {
      ItemsMean(input.items, schema, Get(schema, "items").value, depth);
    }
  }

  lemma {:induction false} ItemsMean(items: seq<Json>, schema: Json, item: Json, depth: nat)
    requires item < schema && ShapeOf(item, depth) == Pass
    ensures Sound(EvaluateItems(items, schema, item, depth), false !in AcceptsItems(items, schema, item, AsCoded))
    decreases schema, 0, |items|
  {
    if items != [] {
      EvaluateMeansValid(items[0], item, depth);
      ItemsMean(items[1..], schema, item, depth);
      NoFalse(Valid(items[0], item, AsCoded), AcceptsItems(items[1..], schema, item, AsCoded));
    }
  }

  /** For every admitted schema and every input, the budgeted evaluator decides the budget-free meaning. */
  lemma AdmittedSchemasAreDecided(schema: Json, input: Json, serializedFits: bool)
    requires Admitted(schema, serializedFits)
    ensures Evaluate(input, schema, 0) == if Valid(input, schema, AsCoded) then Pass else Reject
  {
    AdmissionNeverRunsOutOfDepth(schema);
    ShapeIsWellShaped(schema, 0);
    EvaluateMeansValid(input, schema, 0);
  }
}

/** JSON values and the bounded traversals of `src/webmcp.rs` and `src/ard.rs`. */
module Json {
  import opened Numbers
  import opened Octets
  import T = Text

  /** A JSON value as it is after parsing. Literals without fraction and exponent that fit an `i64` or a `u64` are
    * integers, and all other numbers floats. Objects are sorted maps, so their members stand in the order of their
    * keys, each key once: equality of values, which constants, enumerations and expectations turn on, is then equality
    * member by member. */
  datatype Json =
    | Null
    | Bool(b: bool)
    | Int(n: Word)
    | Float(x: Double)
    | Str(s: string)
    | Arr(items: seq<Json>)
    | Obj(members: seq<Member>)

  datatype Member = Member(key: string, value: Json)

  /** `Value::get` with a string key. */
  function Get(j: Json, key: string): (r: Option<Json>)
    ensures r.Some? ==> j.Obj? && r.value < j
    ensures r.Some? ==> exists i :: 0 <= i < |j.members| && j.members[i] == Member(key, r.value)
  {
    if !j.Obj? then None else GetMember(j.members, key, 0)
  }

  function GetMember(members: seq<Member>, key: string, i: nat): (r: Option<Json>)
    requires i <= |members|
    ensures r.Some? ==> exists k :: i <= k < |members| && members[k] == Member(key, r.value)
    ensures r.None? ==> forall k | i <= k < |members| :: members[k].key != key
    decreases |members| - i
  {
    if i == |members| then None
    else if members[i].key == key then
      assert members[i] == Member(key, members[i].value);
      Some(members[i].value)
    else GetMember(members, key, i + 1)
  }

  // ---- sizes

  function Size(j: Json): (n: nat)
    ensures n >= 1
  {
    match j
    case Arr(items) => 1 + SizeOfItems(items)
    case Obj(members) => 1 + SizeOfMembers(members)
    case _ => 1
  }

  function SizeOfItems(items: seq<Json>): nat {
    if items == [] then 0 else SizeOfItems(items[..|items| - 1]) + Size(items[|items| - 1])
  }

  function SizeOfMembers(members: seq<Member>): nat {
    if members == [] then 0 else SizeOfMembers(members[..|members| - 1]) + Size(members[|members| - 1].value)
  }

  /** `j` nests at most `d` levels below itself. */
  predicate FitsDepth(j: Json, d: int) {
    d >= 0 &&
    match j
    case Arr(items) => forall v | v in items :: FitsDepth(v, d - 1)
    case Obj(members) => forall m | m in members :: FitsDepth(m.value, d - 1)
    case _ => true
  }

  /** The limits on single nodes; `ard.rs` bounds the width of containers and `webmcp.rs` does not. */
  datatype Limits = Limits(maxKey: nat, maxString: nat, maxWidth: Option<nat>)

  predicate WidthOk(width: nat, limits: Limits) { limits.maxWidth.Some? ==> width <= limits.maxWidth.value }

  predicate NodesOk(j: Json, limits: Limits) {
    match j
    case Str(s) => T.ByteLength(s) <= limits.maxString
    case Arr(items) => WidthOk(|items|, limits) && forall v | v in items :: NodesOk(v, limits)
    case Obj(members) =>
      WidthOk(|members|, limits)
      && forall m | m in members :: T.ByteLength(m.key) <= limits.maxKey && NodesOk(m.value, limits)
    case _ => true
  }

  lemma PrefixSizes(items: seq<Json>, members: seq<Member>, i: nat)
    ensures i < |items| ==> SizeOfItems(items[..i + 1]) == SizeOfItems(items[..i]) + Size(items[i])
    ensures i < |members| ==> SizeOfMembers(members[..i + 1]) == SizeOfMembers(members[..i]) + Size(members[i].value)
  {
    if i < |items| {
      assert items[..i + 1][..i] == items[..i];
    }
    if i < |members| {
      assert members[..i + 1][..i] == members[..i];
    }
  }

  lemma {:induction false} SizesGrow(items: seq<Json>, members: seq<Member>, i: nat)
    ensures i <= |items| ==> SizeOfItems(items[..i]) <= SizeOfItems(items)
    ensures i <= |members| ==> SizeOfMembers(members[..i]) <= SizeOfMembers(members)
    decreases |items| + |members| - i
  {
    if i < |items| {
      PrefixSizes(items, [], i);
      SizesGrow(items, [], i + 1);
    } else {
      assert items[..|items|] == items;
    }
    if i < |members| {
      PrefixSizes([], members, i);
      SizesGrow([], members, i + 1);
    } else {
      assert members[..|members|] == members;
    }
  }

  /** What a complete traversal that starts at node count `nodes` and level `depth` accepts. */
  predicate Within(j: Json, depth: nat, maxDepth: nat, maxNodes: nat, nodes: nat, limits: Limits) {
    nodes + Size(j) <= maxNodes && FitsDepth(j, maxDepth - depth) && NodesOk(j, limits)
  }

  predicate ItemsWithin(items: seq<Json>, depth: nat, maxDepth: nat, limits: Limits) {
    forall v | v in items :: FitsDepth(v, maxDepth - depth) && NodesOk(v, limits)
  }

  predicate MembersWithin(members: seq<Member>, depth: nat, maxDepth: nat, limits: Limits) {
    forall m | m in members ::
      T.ByteLength(m.key) <= limits.maxKey && FitsDepth(m.value, maxDepth - depth) && NodesOk(m.value, limits)
  }

  /** `validate_value_bounds` and `validate_json_shape`: one counter is shared by the whole tree, and the first
    * violation ends the walk. */
  method ValidateBounds(value: Json, depth: nat, maxDepth: nat, maxNodes: nat, nodes0: nat, limits: Limits)
    returns (ok: bool, nodes: nat)
    requires nodes0 <= maxNodes
    ensures ok <==> Within(value, depth, maxDepth, maxNodes, nodes0, limits)
    ensures ok ==> nodes == nodes0 + Size(value)
    ensures nodes0 < nodes <= maxNodes + 1
    decreases value, 1
  {
    nodes := nodes0 + 1;
    if nodes > maxNodes {
      return false, nodes;
    }
    if depth > maxDepth {
      return false, nodes;
    }
    match value
    case Arr(items) =>
      if !WidthOk(|items|, limits) {
        return false, nodes;
      }
      ok, nodes := ValidateItems(items, depth + 1, maxDepth, maxNodes, nodes, limits);
    case Obj(members) =>
      if !WidthOk(|members|, limits) {
        return false, nodes;
      }
      ok, nodes := ValidateMembers(members, depth + 1, maxDepth, maxNodes, nodes, limits);
    case Str(s) => ok := T.ByteLength(s) <= limits.maxString;
    case _ => ok := true;
  }

  method ValidateItems(items: seq<Json>, depth: nat, maxDepth: nat, maxNodes: nat, nodes0: nat, limits: Limits)
    returns (ok: bool, nodes: nat)
    requires nodes0 <= maxNodes
    ensures ok <==> nodes0 + SizeOfItems(items) <= maxNodes && ItemsWithin(items, depth, maxDepth, limits)
    ensures ok ==> nodes == nodes0 + SizeOfItems(items)
    ensures nodes0 <= nodes <= maxNodes + 1
    decreases items, 0
  {
    nodes := nodes0;
    for i := 0 to |items|
      invariant nodes == nodes0 + SizeOfItems(items[..i]) <= maxNodes
      invariant ItemsWithin(items[..i], depth, maxDepth, limits)
    {
      PrefixSizes(items, [], i);
      SizesGrow(items, [], i + 1);
      assert items[i] in items;
      var fine;
      fine, nodes := ValidateBounds(items[i], depth, maxDepth, maxNodes, nodes, limits);
      if !fine {
        return false, nodes;
      }
      assert items[..i + 1] == items[..i] + [items[i]];
    }
    assert items[..|items|] == items;
    ok := true;
  }

  method ValidateMembers(members: seq<Member>, depth: nat, maxDepth: nat, maxNodes: nat, nodes0: nat, limits: Limits)
    returns (ok: bool, nodes: nat)
    requires nodes0 <= maxNodes
    ensures ok <==> nodes0 + SizeOfMembers(members) <= maxNodes && MembersWithin(members, depth, maxDepth, limits)
    ensures ok ==> nodes == nodes0 + SizeOfMembers(members)
    ensures nodes0 <= nodes <= maxNodes + 1
    decreases members, 0
  {
    nodes := nodes0;
    for i := 0 to |members|
      invariant nodes == nodes0 + SizeOfMembers(members[..i]) <= maxNodes
      invariant MembersWithin(members[..i], depth, maxDepth, limits)
    {
      PrefixSizes([], members, i);
      SizesGrow([], members, i + 1);
      assert members[i] in members;
      if T.ByteLength(members[i].key) > limits.maxKey {
        return false, nodes;
      }
      var fine;
      fine, nodes := ValidateBounds(members[i].value, depth, maxDepth, maxNodes, nodes, limits);
      if !fine {
        return false, nodes;
      }
      assert members[..i + 1] == members[..i] + [members[i]];
    }
    assert members[..|members|] == members;
    ok := true;
  }

  // ---- the bounds, node by node

  predicate IsChild(c: Json, j: Json) {
    || (j.Arr? && c in j.items)
    || (j.Obj? && exists i | 0 <= i < |j.members| :: j.members[i].value == c)
  }

  /** The node is in the tree, so many levels below its root. */
  ghost predicate Occurs(node: Json, j: Json, level: nat) {
    if level == 0 then node == j else exists c :: IsChild(c, j) && Occurs(node, c, level - 1)
  }

  /** What is asked of one node by itself. */
  predicate NodeFits(node: Json, limits: Limits) {
    && (node.Str? ==> T.ByteLength(node.s) <= limits.maxString)
    && (node.Arr? && limits.maxWidth.Some? ==> |node.items| <= limits.maxWidth.value)
    && (node.Obj? && limits.maxWidth.Some? ==> |node.members| <= limits.maxWidth.value)
    && (node.Obj? ==> forall i | 0 <= i < |node.members| :: T.ByteLength(node.members[i].key) <= limits.maxKey)
  }

  lemma ChildrenWithin(j: Json, d: int, limits: Limits)
    ensures FitsDepth(j, d) && NodesOk(j, limits) <==>
              d >= 0 && NodeFits(j, limits) && forall c :: IsChild(c, j) ==> FitsDepth(c, d - 1) && NodesOk(c, limits)
  {
    if j.Obj? {
      MembersAreChildren(j);
      KeysFit(j.members, limits);
      if FitsDepth(j, d) && NodesOk(j, limits) {
        forall c | IsChild(c, j)
          ensures FitsDepth(c, d - 1) && NodesOk(c, limits)
        {
          var m :| m in j.members && m.value == c;
        }
      }
      if d >= 0 && NodeFits(j, limits) && forall c :: IsChild(c, j) ==> FitsDepth(c, d - 1) && NodesOk(c, limits) {
        forall m | m in j.members
          ensures FitsDepth(m.value, d - 1) && NodesOk(m.value, limits)
        {
          assert IsChild(m.value, j);
        }
      }
    } else if j.Arr? {
      assert forall v :: v in j.items <==> IsChild(v, j);
    }
  }

  lemma KeysFit(members: seq<Member>, limits: Limits)
    ensures (forall i | 0 <= i < |members| :: T.ByteLength(members[i].key) <= limits.maxKey)
       <==> forall m | m in members :: T.ByteLength(m.key) <= limits.maxKey
  {
    assert forall i | 0 <= i < |members| :: members[i] in members;
  }

  lemma MembersAreChildren(j: Json)
    requires j.Obj?
    ensures forall m | m in j.members :: IsChild(m.value, j)
    ensures forall c :: IsChild(c, j) ==> exists m | m in j.members :: m.value == c
  {
    forall m | m in j.members
      ensures IsChild(m.value, j)
    {
      var i :| 0 <= i < |j.members| && j.members[i] == m;
    }
    forall c | IsChild(c, j)
      ensures exists m | m in j.members :: m.value == c
    {
      var i :| 0 <= i < |j.members| && j.members[i].value == c;
      assert j.members[i] in j.members;
    }
  }

  lemma {:induction false} EachNodeFits(j: Json, d: int, limits: Limits, node: Json, level: nat)
    requires FitsDepth(j, d) && NodesOk(j, limits) && Occurs(node, j, level)
    ensures level <= d && NodeFits(node, limits)
    decreases level
  {
    ChildrenWithin(j, d, limits);
    if level > 0 {
      var c :| IsChild(c, j) && Occurs(node, c, level - 1);
      EachNodeFits(c, d - 1, limits, node, level - 1);
    }
  }

  lemma {:induction false} SomeNodeDoesNotFit(j: Json, d: int, limits: Limits) returns (node: Json, level: nat)
    requires !(FitsDepth(j, d) && NodesOk(j, limits))
    ensures Occurs(node, j, level) && (level > d || !NodeFits(node, limits))
    decreases j
  {
    ChildrenWithin(j, d, limits);
    if d < 0 || !NodeFits(j, limits) {
      node, level := j, 0;
    } else {
      var c :| IsChild(c, j) && !(FitsDepth(c, d - 1) && NodesOk(c, limits));
      ChildIsSmaller(c, j);
      var n;
      node, n := SomeNodeDoesNotFit(c, d - 1, limits);
      level := n + 1;
    }
  }

  lemma ChildIsSmaller(c: Json, j: Json)
    requires IsChild(c, j)
    ensures c < j
  {
  }

  /** A tree is within its bounds exactly if it has few enough nodes and every one of them, at every level, is near
    * enough to the root and fits by itself. */
  lemma WithinIff(j: Json, depth: nat, maxDepth: nat, maxNodes: nat, nodes: nat, limits: Limits)
    ensures Within(j, depth, maxDepth, maxNodes, nodes, limits) <==>
              && nodes + Size(j) <= maxNodes
              && forall node, level: nat ::
                   Occurs(node, j, level) ==> depth + level <= maxDepth && NodeFits(node, limits)
  {
    var d := maxDepth - depth;
    if FitsDepth(j, d) && NodesOk(j, limits) {
      forall node, level: nat | Occurs(node, j, level)
        ensures depth + level <= maxDepth && NodeFits(node, limits)
      {
        EachNodeFits(j, d, limits, node, level);
      }
    } else {
      var node, level := SomeNodeDoesNotFit(j, d, limits);
      assert Occurs(node, j, level) && !(depth + level <= maxDepth && NodeFits(node, limits));
    }
  }
}

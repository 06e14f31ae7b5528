/** The action plan of `sdk/go/query.go`, its index, and the linear scans that the index replaces. */
module ActionPlan {
  import opened Octets
  import opened Sequences
  import opened Elements
  import T = Text

  datatype Controls = Controls(
    name: Option<string>, href: Option<string>, inputType: Option<string>, group: Option<string>,
    placeholder: Option<string>, testId: Option<string>,
    disabled: Option<bool>, inert: Option<bool>, readonly: Option<bool>, ariaReadonly: Option<bool>)

  type Node = Element<Option<Controls>>

  datatype Item = Item(
    id: string, cacheKey: string, role: string, actions: seq<string>, enabled: bool, caption: Option<string>,
    htmlId: Option<string>, testId: Option<string>, name: Option<string>, href: Option<string>,
    inputType: Option<string>, group: Option<string>, placeholder: Option<string>, blocked: Option<string>)

  // ---- lookups in the tree

  function ActionsOf(e: Node): seq<string> { e.actions.GetOr([]) }

  /** The first element, in depth-first order, with an id. */
  function FirstById(nodes: seq<Node>, id: string): Option<Node> {
    if nodes == [] then None else if nodes[0].id == id then Some(nodes[0]) else FirstById(nodes[1..], id)
  }

  lemma {:induction false} FirstOfBoth(a: seq<Node>, b: seq<Node>, id: string)
    ensures FirstById(a + b, id) == if FirstById(a, id).Some? then FirstById(a, id) else FirstById(b, id)
  {
    if a == [] {
      assert a + b == b;
    } else {
      FirstOfBoth(a[1..], b, id);
      assert (a + b)[0] == a[0] && (a + b)[1..] == a[1..] + b;
    }
  }

  lemma FirstInOne(e: Node, id: string)
    ensures FirstById(FlatOne(e), id)
         == if e.id == id then Some(e)
            else if FirstById(Flat(e.children), id).Some? then FirstById(Flat(e.children), id)
            else FirstById(Flat(e.shadow), id)
  {
    FirstOfBoth([e], Flat(e.children) + Flat(e.shadow), id);
    FirstOfBoth(Flat(e.children), Flat(e.shadow), id);
    assert [e][1..] == [];
  }

  /** `findByIDInSlice`. */
  method FindByIdInSlice(elements: seq<Node>, id: string) returns (r: Option<Node>)
    ensures r == FirstById(Flat(elements), id)
    decreases elements
  {
    assert elements[0..] == elements;
    for i := 0 to |elements|
      invariant FirstById(Flat(elements[i..]), id) == FirstById(Flat(elements), id)
    {
      var e := elements[i];
      assert elements[i..][0] == e && elements[i..][1..] == elements[i + 1..];
      FirstOfBoth(FlatOne(e), Flat(elements[i + 1..]), id);
      FirstInOne(e, id);
      if e.id == id {
        return Some(e);
      }
      r := FindByIdInSlice(e.children, id);
      if r.Some? {
        return;
      }
      r := FindByIdInSlice(e.shadow, id);
      if r.Some? {
        return;
      }
    }
    assert elements[|elements|..] == [];
    r := None;
  }

  function Interactive(nodes: seq<Node>): seq<Node> {
    if nodes == [] then []
    else (if ActionsOf(nodes[0]) != [] then [nodes[0]] else []) + Interactive(nodes[1..])
  }

  lemma {:induction false} InteractiveOfBoth(a: seq<Node>, b: seq<Node>)
    ensures Interactive(a + b) == Interactive(a) + Interactive(b)
  {
    if a == [] {
      assert a + b == b;
    } else {
      InteractiveOfBoth(a[1..], b);
      assert (a + b)[0] == a[0] && (a + b)[1..] == a[1..] + b;
      Associative(if ActionsOf(a[0]) != [] then [a[0]] else [], Interactive(a[1..]), Interactive(b));
    }
  }

  /** `collectInteractive`: the elements with actions, in depth-first order. */
  method CollectInteractive(elements: seq<Node>, found: seq<Node>) returns (r: seq<Node>)
    ensures r == found + Interactive(Flat(elements))
    decreases elements
  {
    r := found;
    assert elements[0..] == elements;
    for i := 0 to |elements|
      invariant r + Interactive(Flat(elements[i..])) == found + Interactive(Flat(elements))
    {
      var e := elements[i];
      ghost var before, rest := r, Interactive(Flat(elements[i + 1..]));
      ghost var own := if ActionsOf(e) != [] then [e] else [];
      assert elements[i..][0] == e && elements[i..][1..] == elements[i + 1..];
      InteractiveOfBoth(FlatOne(e), Flat(elements[i + 1..]));
      InteractiveInOne(e);
      if ActionsOf(e) != [] {
        r := r + [e];
      }
      assert r == before + own;
      r := CollectInteractive(e.children, r);
      r := CollectInteractive(e.shadow, r);
      Associative(before, own, Interactive(Flat(e.children)) + Interactive(Flat(e.shadow)));
      Associative(before + own, Interactive(Flat(e.children)), Interactive(Flat(e.shadow)));
      Associative(before, Interactive(FlatOne(e)), rest);
    }
    assert elements[|elements|..] == [];
  }

  lemma InteractiveInOne(e: Node)
    ensures Interactive(FlatOne(e))
         == (if ActionsOf(e) != [] then [e] else []) + (Interactive(Flat(e.children)) + Interactive(Flat(e.shadow)))
  {
    InteractiveOfBoth([e], Flat(e.children) + Flat(e.shadow));
    InteractiveOfBoth(Flat(e.children), Flat(e.shadow));
    assert [e][1..] == [];
  }

  // ---- sorted actions

  /** Byte-wise order of strings; for UTF-8 that is the order of the characters. */
  predicate StringLe(a: string, b: string) {
    a == "" || (b != "" && (a[0] < b[0] || (a[0] == b[0] && StringLe(a[1..], b[1..]))))
  }

  lemma {:induction false} StringLeTotal(a: string, b: string)
    ensures StringLe(a, b) || StringLe(b, a)
    ensures StringLe(a, b) && StringLe(b, a) ==> a == b
  {
    if a != "" && b != "" {
      StringLeTotal(a[1..], b[1..]);
      assert a == [a[0]] + a[1..] && b == [b[0]] + b[1..];
    }
  }

  lemma {:induction false} StringLeTransitive(a: string, b: string, c: string)
    requires StringLe(a, b) && StringLe(b, c)
    ensures StringLe(a, c)
  {
    if a != "" && a[0] == b[0] == c[0] {
      StringLeTransitive(a[1..], b[1..], c[1..]);
    }
  }

  predicate Sorted(s: seq<string>) { forall i, j :: 0 <= i < j < |s| ==> StringLe(s[i], s[j]) }

  function Insert(x: string, s: seq<string>): seq<string> {
    if s == [] || StringLe(x, s[0]) then [x] + s else [s[0]] + Insert(x, s[1..])
  }

  /** `sort.Strings`. */
  function Sort(s: seq<string>): seq<string> { if s == [] then [] else Insert(s[0], Sort(s[1..])) }

  lemma {:induction false} InsertSorts(x: string, s: seq<string>)
    requires Sorted(s)
    ensures Sorted(Insert(x, s)) && multiset(Insert(x, s)) == multiset{x} + multiset(s)
  {
    if s == [] {
    } else if StringLe(x, s[0]) {
      forall j | 0 <= j < |s|
        ensures StringLe(x, s[j])
      {
        if j > 0 {
          StringLeTransitive(x, s[0], s[j]);
        }
      }
    } else {
      InsertSorts(x, s[1..]);
      StringLeTotal(x, s[0]);
      assert s == [s[0]] + s[1..];
      var rest := Insert(x, s[1..]);
      forall j | 0 <= j < |rest|
        ensures StringLe(s[0], rest[j])
      {
        assert rest[j] in multiset(rest);
        if rest[j] != x {
          assert rest[j] in s[1..];
        }
      }
    }
  }

  lemma {:induction false} SortSorts(s: seq<string>)
    ensures Sorted(Sort(s)) && multiset(Sort(s)) == multiset(s)
  {
    if s != [] {
      SortSorts(s[1..]);
      InsertSorts(s[0], Sort(s[1..]));
      assert s == [s[0]] + s[1..];
    }
  }

  /** The first of a sorted sequence is its least element. */
  lemma SortedHead(a: seq<string>, x: string)
    requires Sorted(a) && x in a
    ensures StringLe(a[0], x)
  {
    var i :| 0 <= i < |a| && a[i] == x;
    StringLeTotal(x, x);
  }

  lemma SameHead(a: seq<string>, b: seq<string>)
    requires Sorted(a) && Sorted(b) && multiset(a) == multiset(b) && a != []
    ensures b != [] && a[0] == b[0]
  {
    assert a[0] in multiset(b);
    assert b[0] in multiset(a);
    SortedHead(a, b[0]);
    SortedHead(b, a[0]);
    StringLeTotal(a[0], b[0]);
  }

  lemma {:induction false} SortedIsUnique(a: seq<string>, b: seq<string>)
    requires Sorted(a) && Sorted(b) && multiset(a) == multiset(b)
    ensures a == b
  {
    if a == [] {
      assert |multiset(b)| == 0;
    } else {
      SameHead(a, b);
      assert a == [a[0]] + a[1..] && b == [b[0]] + b[1..];
      assert multiset(a[1..]) == multiset(a) - multiset{a[0]};
      assert multiset(b[1..]) == multiset(b) - multiset{b[0]};
      SortedIsUnique(a[1..], b[1..]);
    }
  }

  function Join(parts: seq<string>): string {
    if parts == [] then "" else if |parts| == 1 then parts[0] else parts[0] + "," + Join(parts[1..])
  }

  function Compacted(s: Option<string>): Option<string> { if s == Some("") then None else s }

  datatype CacheParts = CacheParts(
    id: string, role: string, caption: Option<string>, actions: Option<string>, name: Option<string>,
    href: Option<string>, inputType: Option<string>, group: Option<string>, placeholder: Option<string>)

  /** `actionPlanCacheParts`. */
  function PartsOf(item: Item): CacheParts {
    CacheParts(item.id, item.role, Compacted(item.caption), Compacted(Some(Join(Sort(item.actions)))),
               Compacted(item.name), Compacted(item.href), Compacted(item.inputType), Compacted(item.group),
               Compacted(item.placeholder))
  }

  /** The parts that the cache key is made of do not depend on the order of the actions. */
  lemma ActionOrderDoesNotMatter(item: Item, actions: seq<string>)
    requires multiset(actions) == multiset(item.actions)
    ensures PartsOf(item.(actions := actions)) == PartsOf(item)
  {
    SortSorts(actions);
    SortSorts(item.actions);
    SortedIsUnique(Sort(actions), Sort(item.actions));
  }

  // ---- items

  predicate Yes(flag: Option<bool>) { flag == Some(true) }

  predicate IsReadonly(c: Controls) { Yes(if c.readonly.Some? then c.readonly else c.ariaReadonly) }

  /** The body of the second loop of `GetActionPlan`; `hash` turns the parts into the key. */
  method MakeItem(e: Node, hash: CacheParts -> string) returns (item: Item)
    ensures item == ItemOf(e, hash)
  {
    item := Item(e.id, "", e.role, ActionsOf(e), true, None, None, None, None, None, None, None, None, None);
    if e.caption.Some? {
      item := item.(caption := e.caption);
    } else if e.text.Some? {
      item := item.(caption := e.text);
    }
    item := item.(htmlId := e.htmlId);
    if e.attrs.Some? {
      var c := e.attrs.value;
      item := item.(href := c.href, name := c.name, testId := c.testId, inputType := c.inputType,
                    placeholder := c.placeholder);
      var readonly := c.ariaReadonly;
      if c.readonly.Some? {
        readonly := c.readonly;
      }
      if Yes(c.disabled) {
        item := item.(enabled := false, blocked := Some("disabled"));
      }
      if Yes(c.inert) {
        item := item.(enabled := false, blocked := Some("inert"));
      } else if item.enabled && Yes(readonly) {
        item := item.(enabled := false, blocked := Some("readonly"));
      }
      item := item.(group := c.group);
    }
    item := item.(cacheKey := hash(PartsOf(item)));
  }

  /** Why an element is blocked: `inert` outranks `disabled`, which outranks `readonly`. */
  function BlockOf(attrs: Option<Controls>): Option<string> {
    if attrs.None? then None
    else if Yes(attrs.value.inert) then Some("inert")
    else if Yes(attrs.value.disabled) then Some("disabled")
    else if IsReadonly(attrs.value) then Some("readonly")
    else None
  }

  function Attr(attrs: Option<Controls>, get: Controls -> Option<string>): Option<string> {
    if attrs.Some? then get(attrs.value) else None
  }

  function BareItem(e: Node): Item {
    Item(e.id, "", e.role, ActionsOf(e), BlockOf(e.attrs).None?,
         if e.caption.Some? then e.caption else e.text, e.htmlId,
         Attr(e.attrs, (c: Controls) => c.testId), Attr(e.attrs, (c: Controls) => c.name),
         Attr(e.attrs, (c: Controls) => c.href), Attr(e.attrs, (c: Controls) => c.inputType),
         Attr(e.attrs, (c: Controls) => c.group), Attr(e.attrs, (c: Controls) => c.placeholder), BlockOf(e.attrs))
  }

  function ItemOf(e: Node, hash: CacheParts -> string): Item {
    BareItem(e).(cacheKey := hash(PartsOf(BareItem(e))))
  }

  function Items(nodes: seq<Node>, hash: CacheParts -> string): seq<Item> {
    seq(|nodes|, i requires 0 <= i < |nodes| => ItemOf(nodes[i], hash))
  }

  function PlanOf(regions: seq<seq<Node>>, hash: CacheParts -> string): seq<Item> {
    Items(Interactive(FlatRegions(regions)), hash)
  }

  /** `FindInteractive` and `GetActionPlan`: one item for every element with actions, in depth-first order. */
  method GetActionPlan(regions: seq<seq<Node>>, hash: CacheParts -> string) returns (items: seq<Item>)
    ensures items == PlanOf(regions, hash)
  {
    var nodes := [];
    assert regions[0..] == regions;
    for i := 0 to |regions|
      invariant nodes + Interactive(FlatRegions(regions[i..])) == Interactive(FlatRegions(regions))
    {
      assert regions[i..][0] == regions[i] && regions[i..][1..] == regions[i + 1..];
      InteractiveOfBoth(Flat(regions[i]), FlatRegions(regions[i + 1..]));
      Associative(nodes, Interactive(Flat(regions[i])), Interactive(FlatRegions(regions[i + 1..])));
      nodes := CollectInteractive(regions[i], nodes);
    }
    assert regions[|regions|..] == [];
    items := [];
    for i := 0 to |nodes|
      invariant items == Items(nodes, hash)[..i]
    {
      var item := MakeItem(nodes[i], hash);
      items := items + [item];
    }
  }

  /** An item is enabled exactly when it has no reason to be blocked. */
  lemma EnabledIffNotBlocked(regions: seq<seq<Node>>, hash: CacheParts -> string, item: Item)
    requires item in PlanOf(regions, hash)
    ensures item.enabled <==> item.blocked.None?
    ensures item.actions != []
  {
    var nodes := Interactive(FlatRegions(regions));
    var i :| 0 <= i < |nodes| && Items(nodes, hash)[i] == item;
    InteractiveHaveActions(FlatRegions(regions), i);
  }

  lemma {:induction false} InteractiveHaveActions(nodes: seq<Node>, i: nat)
    requires i < |Interactive(nodes)|
    ensures ActionsOf(Interactive(nodes)[i]) != []
  {
    var own := if ActionsOf(nodes[0]) != [] then 1 else 0;
    if i >= own {
      InteractiveHaveActions(nodes[1..], i - own);
    }
  }

  // ---- the index

  datatype Kind = ById | ByCacheKey | ByHtmlId | ByTestId | ByCaption

  function KeyOf(item: Item, kind: Kind): Option<string> {
    match kind
    case ById => Some(item.id)
    case ByCacheKey => Some(item.cacheKey)
    case ByHtmlId => item.htmlId
    case ByTestId => item.testId
    case ByCaption => item.caption
  }

  datatype Index = Index(
    byId: map<string, Item>, byCacheKey: map<string, Item>, byHtmlId: map<string, Item>, byTestId: map<string, Item>,
    byCaption: map<string, Item>, byRole: map<string, seq<Item>>, byAction: map<string, seq<Item>>)
  {
    function Of(kind: Kind): map<string, Item> {
      match kind
      case ById => byId
      case ByCacheKey => byCacheKey
      case ByHtmlId => byHtmlId
      case ByTestId => byTestId
      case ByCaption => byCaption
    }
  }

  function Lookup<V>(m: map<string, V>, key: string): Option<V> { if key in m then Some(m[key]) else None }

  function KeepFirst(m: map<string, Item>, key: Option<string>, item: Item): map<string, Item> {
    if key.Some? && key.value !in m then m[key.value := item] else m
  }

  function Append(m: map<string, seq<Item>>, key: string, item: Item): map<string, seq<Item>> {
    if key == "" then m else m[key := (if key in m then m[key] else []) + [item]]
  }

  /** The scan that a lookup replaces: the first item of the plan with the key. */
  function Scan(plan: seq<Item>, kind: Kind, key: string): Option<Item> {
    if plan == [] then None
    else if KeyOf(plan[0], kind) == Some(key) then Some(plan[0])
    else Scan(plan[1..], kind, key)
  }

  function OfRole(plan: seq<Item>, role: string): seq<Item> {
    if plan == [] then [] else (if plan[0].role == role then [plan[0]] else []) + OfRole(plan[1..], role)
  }

  /** An item once for every time it lists the action. */
  function Copies(item: Item, actions: seq<string>, action: string): seq<Item> {
    if actions == [] then []
    else (if actions[0] == action then [item] else []) + Copies(item, actions[1..], action)
  }

  function OfAction(plan: seq<Item>, action: string): seq<Item> {
    if plan == [] then [] else Copies(plan[0], plan[0].actions, action) + OfAction(plan[1..], action)
  }

  function Held(m: map<string, seq<Item>>, key: string): seq<Item> { if key in m then m[key] else [] }

  /** No group is empty and none has an empty name. */
  predicate Tidy(m: map<string, seq<Item>>) { forall key | key in m :: key != "" && m[key] != [] }

  ghost predicate Scans(index: Index, plan: seq<Item>) {
    forall kind: Kind, key: string :: Lookup(index.Of(kind), key) == Scan(plan, kind, key)
  }

  ghost predicate Groups(index: Index, plan: seq<Item>) {
    && Tidy(index.byRole) && (forall role: string :: role != "" ==> Held(index.byRole, role) == OfRole(plan, role))
    && Tidy(index.byAction)
    && (forall action: string :: action != "" ==> Held(index.byAction, action) == OfAction(plan, action))
  }

  lemma Appended(m: map<string, seq<Item>>, key: string, item: Item)
    requires Tidy(m)
    ensures Tidy(Append(m, key, item))
    ensures forall other: string :: other != "" ==>
              Held(Append(m, key, item), other) == Held(m, other) + if other == key then [item] else []
  {
  }

  lemma {:induction false} ScanOfOneMore(plan: seq<Item>, item: Item, kind: Kind, key: string)
    ensures Scan(plan + [item], kind, key)
         == if Scan(plan, kind, key).Some? then Scan(plan, kind, key)
            else if KeyOf(item, kind) == Some(key) then Some(item) else None
  {
    if plan == [] {
      assert plan + [item] == [item] && [item][1..] == [];
    } else {
      ScanOfOneMore(plan[1..], item, kind, key);
      assert (plan + [item])[0] == plan[0] && (plan + [item])[1..] == plan[1..] + [item];
    }
  }

  lemma {:induction false} GroupsOfOneMore(plan: seq<Item>, item: Item, key: string)
    ensures OfRole(plan + [item], key) == OfRole(plan, key) + if item.role == key then [item] else []
    ensures OfAction(plan + [item], key) == OfAction(plan, key) + Copies(item, item.actions, key)
  {
    if plan == [] {
      assert plan + [item] == [item] && [item][1..] == [];
    } else {
      GroupsOfOneMore(plan[1..], item, key);
      assert (plan + [item])[0] == plan[0] && (plan + [item])[1..] == plan[1..] + [item];
      var first, last := if plan[0].role == key then [plan[0]] else [], if item.role == key then [item] else [];
      Associative(first, OfRole(plan[1..], key), last);
      Associative(Copies(plan[0], plan[0].actions, key), OfAction(plan[1..], key), Copies(item, item.actions, key));
    }
  }

  lemma {:induction false} CopiesOfOneMore(item: Item, actions: seq<string>, last: string, key: string)
    ensures Copies(item, actions + [last], key) == Copies(item, actions, key) + if last == key then [item] else []
  {
    if actions == [] {
      assert actions + [last] == [last] && [last][1..] == [];
    } else {
      CopiesOfOneMore(item, actions[1..], last, key);
      assert (actions + [last])[0] == actions[0] && (actions + [last])[1..] == actions[1..] + [last];
      var before, after := if actions[0] == key then [item] else [], if last == key then [item] else [];
      Associative(before, Copies(item, actions[1..], key), after);
    }
  }

  /** The inner loop of `GetActionPlanIndex`. */
  method AppendActions(byAction: map<string, seq<Item>>, item: Item) returns (r: map<string, seq<Item>>)
    requires Tidy(byAction)
    ensures Tidy(r)
    ensures forall key: string :: key != "" ==> Held(r, key) == Held(byAction, key) + Copies(item, item.actions, key)
  {
    r := byAction;
    var actions := item.actions;
    for i := 0 to |actions|
      invariant Tidy(r)
      invariant forall key: string :: key != "" ==>
                  Held(r, key) == Held(byAction, key) + Copies(item, actions[..i], key)
    {
      ghost var before := r;
      Appended(r, actions[i], item);
      r := Append(r, actions[i], item);
      assert actions[..i + 1] == actions[..i] + [actions[i]];
      forall key: string | key != ""
        ensures Held(r, key) == Held(byAction, key) + Copies(item, actions[..i + 1], key)
      {
        CopiesOfOneMore(item, actions[..i], actions[i], key);
        Associative(Held(byAction, key), Copies(item, actions[..i], key), if actions[i] == key then [item] else []);
      }
    }
    assert actions[..|actions|] == actions;
  }

  /** The index after one more item, whose actions have been appended already. */
  function Next(index: Index, item: Item, byAction: map<string, seq<Item>>): (r: Index)
    ensures forall kind: Kind :: r.Of(kind) == KeepFirst(index.Of(kind), KeyOf(item, kind), item)
  {
    Index(KeepFirst(index.byId, KeyOf(item, ById), item), KeepFirst(index.byCacheKey, KeyOf(item, ByCacheKey), item),
          KeepFirst(index.byHtmlId, KeyOf(item, ByHtmlId), item),
          KeepFirst(index.byTestId, KeyOf(item, ByTestId), item),
          KeepFirst(index.byCaption, KeyOf(item, ByCaption), item), Append(index.byRole, item.role, item), byAction)
  }

  /** `GetActionPlanIndex`: every lookup in the index is the scan it replaces, and the groups are complete and in
    * order. */
  method BuildIndex(plan: seq<Item>) returns (index: Index)
    ensures Scans(index, plan) && Groups(index, plan)
  {
    index := Index(map[], map[], map[], map[], map[], map[], map[]);
    for i := 0 to |plan|
      invariant Scans(index, plan[..i])
      invariant Groups(index, plan[..i])
    {
      var item := plan[i];
      var byAction := AppendActions(index.byAction, item);
      KeepsScanning(index, plan[..i], item, byAction);
      KeepsGrouping(index, plan[..i], item, byAction);
      index := Next(index, item, byAction);
      assert plan[..i + 1] == plan[..i] + [item];
    }
    assert plan[..|plan|] == plan;
  }

  lemma KeepsScanning(index: Index, plan: seq<Item>, item: Item, byAction: map<string, seq<Item>>)
    requires Scans(index, plan)
    ensures Scans(Next(index, item, byAction), plan + [item])
  {
    forall kind: Kind, key: string
      ensures Lookup(Next(index, item, byAction).Of(kind), key) == Scan(plan + [item], kind, key)
    {
      ScanOfOneMore(plan, item, kind, key);
      assert Lookup(index.Of(kind), key) == Scan(plan, kind, key);
    }
  }

  lemma KeepsGrouping(index: Index, plan: seq<Item>, item: Item, byAction: map<string, seq<Item>>)
    requires Groups(index, plan) && Tidy(byAction)
    requires forall key: string :: key != "" ==>
               Held(byAction, key) == Held(index.byAction, key) + Copies(item, item.actions, key)
    ensures Groups(Next(index, item, byAction), plan + [item])
  {
    Appended(index.byRole, item.role, item);
    forall key: string | key != ""
      ensures Held(Append(index.byRole, item.role, item), key) == OfRole(plan + [item], key)
      ensures Held(byAction, key) == OfAction(plan + [item], key)
    {
      GroupsOfOneMore(plan, item, key);
    }
  }

  // ---- lookups by name

  function OrElse<V>(a: Option<V>, b: Option<V>): Option<V> { if a.Some? then a else b }

  /** What a caller asks for: a scan by one kind of key, or the first hit of four scans. */
  function Target(plan: seq<Item>, value: string, kind: string): Option<Item> {
    if kind == "" || kind == "auto" then
      OrElse(Scan(plan, ById, value),
        OrElse(Scan(plan, ByCacheKey, value), OrElse(Scan(plan, ByHtmlId, value), Scan(plan, ByTestId, value))))
    else if kind == "id" then Scan(plan, ById, value)
    else if kind == "cache_key" then Scan(plan, ByCacheKey, value)
    else if kind == "html_id" then Scan(plan, ByHtmlId, value)
    else if kind == "test_id" then Scan(plan, ByTestId, value)
    else if kind == "label" then Scan(plan, ByCaption, value)
    else None
  }

  lemma LookupIsScan(index: Index, plan: seq<Item>, value: string)
    requires Scans(index, plan)
    ensures Lookup(index.byId, value) == Scan(plan, ById, value)
    ensures Lookup(index.byCacheKey, value) == Scan(plan, ByCacheKey, value)
    ensures Lookup(index.byHtmlId, value) == Scan(plan, ByHtmlId, value)
    ensures Lookup(index.byTestId, value) == Scan(plan, ByTestId, value)
    ensures Lookup(index.byCaption, value) == Scan(plan, ByCaption, value)
  {
    assert forall kind: Kind :: Lookup(index.Of(kind), value) == Scan(plan, kind, value);
    assert Lookup(index.Of(ById), value) == Lookup(index.byId, value);
    assert Lookup(index.Of(ByCacheKey), value) == Lookup(index.byCacheKey, value);
    assert Lookup(index.Of(ByHtmlId), value) == Lookup(index.byHtmlId, value);
    assert Lookup(index.Of(ByTestId), value) == Lookup(index.byTestId, value);
    assert Lookup(index.Of(ByCaption), value) == Lookup(index.byCaption, value);
  }

  /** `FindActionTargetInIndex`, for an index of `plan`. */
  method FindInIndex(index: Index, ghost plan: seq<Item>, value: string, kind: string) returns (r: Option<Item>)
    requires Scans(index, plan)
    ensures r == Target(plan, value, kind)
  {
    LookupIsScan(index, plan, value);
    var lookup := if kind == "" then "auto" else kind;
    var auto := lookup == "auto";
    if lookup == "id" || auto {
      r := Lookup(index.byId, value);
      if r.Some? { return; }
    }
    if lookup == "cache_key" || auto {
      r := Lookup(index.byCacheKey, value);
      if r.Some? { return; }
    }
    if lookup == "html_id" || auto {
      r := Lookup(index.byHtmlId, value);
      if r.Some? { return; }
    }
    if lookup == "test_id" || auto {
      r := Lookup(index.byTestId, value);
      if r.Some? { return; }
    }
    if lookup == "label" {
      r := Lookup(index.byCaption, value);
      if r.Some? { return; }
    }
    r := None;
  }

  function Enabled(plan: seq<Item>): seq<Item> {
    if plan == [] then [] else (if plan[0].enabled then [plan[0]] else []) + Enabled(plan[1..])
  }

  /** `EnabledActionPlan`, on a plan. */
  method EnabledPlan(plan: seq<Item>) returns (r: seq<Item>)
    ensures r == Enabled(plan)
  {
    r := [];
    assert plan[0..] == plan;
    for i := 0 to |plan|
      invariant r + Enabled(plan[i..]) == Enabled(plan)
    {
      assert plan[i..][0] == plan[i] && plan[i..][1..] == plan[i + 1..];
      Associative(r, if plan[i].enabled then [plan[i]] else [], Enabled(plan[i + 1..]));
      if plan[i].enabled {
        r := r + [plan[i]];
      }
    }
    assert plan[|plan|..] == [];
  }

  method GetActionPlanIndex(regions: seq<seq<Node>>, hash: CacheParts -> string, enabledOnly: bool)
    returns (index: Index)
    ensures var plan := PlanOf(regions, hash);
            var indexed := if enabledOnly then Enabled(plan) else plan;
            Scans(index, indexed) && Groups(index, indexed)
  {
    var plan := GetActionPlan(regions, hash);
    if enabledOnly {
      plan := EnabledPlan(plan);
    }
    index := BuildIndex(plan);
  }

  /** `FindActionTarget`: the whole way from the document to the item is one scan of the plan. */
  method FindActionTarget(regions: seq<seq<Node>>, hash: CacheParts -> string, value: string, kind: string)
    returns (r: Option<Item>)
    ensures r == Target(PlanOf(regions, hash), value, kind)
  {
    var index := GetActionPlanIndex(regions, hash, false);
    r := FindInIndex(index, PlanOf(regions, hash), value, kind);
  }

  predicate IsFirst(plan: seq<Item>, i: nat, kind: Kind, key: string) {
    i < |plan| && KeyOf(plan[i], kind) == Some(key) && forall j :: 0 <= j < i ==> KeyOf(plan[j], kind) != Some(key)
  }

  /** A scan finds an item exactly when it is the first of the plan that has the key. */
  lemma {:induction false} ScanIsFirst(plan: seq<Item>, kind: Kind, key: string, item: Item)
    ensures Scan(plan, kind, key) == Some(item) <==> exists i: nat :: IsFirst(plan, i, kind, key) && plan[i] == item
  {
    if plan != [] {
      if KeyOf(plan[0], kind) == Some(key) {
        assert IsFirst(plan, 0, kind, key);
      } else {
        ScanIsFirst(plan[1..], kind, key, item);
        forall i: nat
          ensures IsFirst(plan[1..], i, kind, key) <==> IsFirst(plan, i + 1, kind, key)
        {
          FirstMovesUp(plan, i, kind, key);
        }
        if i: nat :| IsFirst(plan[1..], i, kind, key) && plan[1..][i] == item {
          assert IsFirst(plan, i + 1, kind, key) && plan[i + 1] == item;
        }
        if i: nat :| IsFirst(plan, i, kind, key) && plan[i] == item {
          assert IsFirst(plan[1..], i - 1, kind, key) && plan[1..][i - 1] == item;
        }
      }
    }
  }

  lemma FirstMovesUp(plan: seq<Item>, i: nat, kind: Kind, key: string)
    requires plan != [] && KeyOf(plan[0], kind) != Some(key)
    ensures IsFirst(plan[1..], i, kind, key) <==> IsFirst(plan, i + 1, kind, key)
  {
    if IsFirst(plan, i + 1, kind, key) {
      forall j | 0 <= j < i
        ensures KeyOf(plan[1..][j], kind) != Some(key)
      {
        assert plan[1..][j] == plan[j + 1];
      }
    }
  }

  /** With the enabled items indexed alone, a lookup misses exactly when every item with the key is blocked. */
  lemma {:induction false} EnabledScanMisses(plan: seq<Item>, kind: Kind, key: string)
    ensures Scan(Enabled(plan), kind, key).None?
       <==> forall item :: item in plan && KeyOf(item, kind) == Some(key) ==> !item.enabled
  {
    if plan != [] {
      EnabledScanMisses(plan[1..], kind, key);
      assert plan == [plan[0]] + plan[1..];
      if plan[0].enabled {
        assert Enabled(plan)[1..] == Enabled(plan[1..]);
        assert plan[0] in plan;
      } else {
        assert Enabled(plan) == Enabled(plan[1..]);
      }
    }
  }

  // ---- what keys and parts stand for

  /** The item has this value in the field that a kind of lookup names. */
  predicate Bears(item: Item, kind: string, value: string) {
    || (kind == "id" && item.id == value)
    || (kind == "cache_key" && item.cacheKey == value)
    || (kind == "html_id" && item.htmlId == Some(value))
    || (kind == "test_id" && item.testId == Some(value))
    || (kind == "label" && item.caption == Some(value))
  }

  predicate FirstBearing(plan: seq<Item>, i: nat, kind: string, value: string) {
    i < |plan| && Bears(plan[i], kind, value) && forall j | 0 <= j < i :: !Bears(plan[j], kind, value)
  }

  predicate FieldKind(kind: string) {
    kind == "id" || kind == "cache_key" || kind == "html_id" || kind == "test_id" || kind == "label"
  }

  function KindNamed(kind: string): Kind
    requires FieldKind(kind)
  {
    if kind == "id" then ById else if kind == "cache_key" then ByCacheKey else if kind == "html_id" then ByHtmlId
    else if kind == "test_id" then ByTestId else ByCaption
  }

  lemma LookupNamesDiffer()
    ensures "id" != "cache_key" && "id" != "html_id" && "id" != "test_id" && "id" != "label"
    ensures "cache_key" != "html_id" && "cache_key" != "test_id" && "cache_key" != "label"
    ensures "html_id" != "test_id" && "html_id" != "label" && "test_id" != "label"
    ensures !FieldKind("") && !FieldKind("auto")
  {
    assert |"id"| == 2 && |"cache_key"| == 9 && |"html_id"| == 7 && |"test_id"| == 7 && |"label"| == 5 && |"auto"| == 4;
    assert "html_id"[0] == 'h' && "test_id"[0] == 't';
  }

  lemma BearsItsKey(item: Item, kind: string, value: string)
    requires FieldKind(kind)
    ensures Bears(item, kind, value) <==> KeyOf(item, KindNamed(kind)) == Some(value)
  {
    LookupNamesDiffer();
  }

  /** A lookup by one kind of key finds an item exactly if it is the first whose field has the value; without a kind, or
    * with `auto`, ids come before cache keys, these before HTML ids and these before test ids; any other kind finds
    * nothing. */
  lemma TargetIsFirst(plan: seq<Item>, value: string, kind: string, item: Item)
    ensures FieldKind(kind) ==>
              (Target(plan, value, kind) == Some(item)
               <==> exists i: nat :: FirstBearing(plan, i, kind, value) && plan[i] == item)
    ensures kind == "" || kind == "auto" ==>
              Target(plan, value, kind)
              == OrElse(Target(plan, value, "id"),
                        OrElse(Target(plan, value, "cache_key"),
                               OrElse(Target(plan, value, "html_id"), Target(plan, value, "test_id"))))
    ensures !FieldKind(kind) && kind != "" && kind != "auto" ==> Target(plan, value, kind) == None
  {
    LookupNamesDiffer();
    if FieldKind(kind) {
      hide KeyOf, Bears;
      var k := KindNamed(kind);
      assert Target(plan, value, kind) == Scan(plan, k, value);
      ScanIsFirst(plan, k, value, item);
      forall i | 0 <= i < |plan|
        ensures Bears(plan[i], kind, value) <==> KeyOf(plan[i], k) == Some(value)
      {
        BearsItsKey(plan[i], kind, value);
      }
      assert forall i: nat :: IsFirst(plan, i, k, value) <==> FirstBearing(plan, i, kind, value);
    }
  }

  lemma {:induction false} CopiesHold(item: Item, actions: seq<string>, action: string, other: Item)
    ensures other in Copies(item, actions, action) <==> other == item && action in actions
  {
    if actions != [] {
      CopiesHold(item, actions[1..], action, other);
      assert actions == [actions[0]] + actions[1..];
    }
  }

  /** A group holds the items of its role, or those that offer its action, and no others. */
  lemma {:induction false} GroupsHold(plan: seq<Item>, key: string, item: Item)
    ensures item in OfRole(plan, key) <==> item in plan && item.role == key
    ensures item in OfAction(plan, key) <==> item in plan && key in item.actions
  {
    if plan != [] {
      GroupsHold(plan[1..], key, item);
      CopiesHold(plan[0], plan[0].actions, key, item);
      assert plan == [plan[0]] + plan[1..];
    }
  }

  /** The same text, where no text is as good as an empty one. */
  predicate SameText(a: Option<string>, b: Option<string>) { a.GetOr("") == b.GetOr("") }

  /** Two items have the same parts, and so the same cache key, exactly if they agree in id, role, caption, sorted
    * actions, name, link, input type, group and placeholder, where no text is as good as an empty one. */
  lemma PartsTellApart(a: Item, b: Item)
    ensures PartsOf(a) == PartsOf(b) <==>
              && a.id == b.id && a.role == b.role && SameText(a.caption, b.caption)
              && Join(Sort(a.actions)) == Join(Sort(b.actions))
              && SameText(a.name, b.name) && SameText(a.href, b.href) && SameText(a.inputType, b.inputType)
              && SameText(a.group, b.group) && SameText(a.placeholder, b.placeholder)
    ensures var parts := PartsOf(a);
            && parts.id == a.id && parts.role == a.role && SameText(parts.caption, a.caption)
            && SameText(parts.name, a.name) && SameText(parts.href, a.href) && SameText(parts.inputType, a.inputType)
            && SameText(parts.group, a.group) && SameText(parts.placeholder, a.placeholder)
  {
  }

  /** An item shows what its element says: the caption, or else the text; the attributes of its controls, if it has any;
    * and it is enabled unless they say that it is inert, disabled or readonly. */
  lemma ItemShowsElement(e: Node, hash: CacheParts -> string)
    ensures var item := ItemOf(e, hash);
            && item.id == e.id && item.role == e.role && item.actions == e.actions.GetOr([]) && item.htmlId == e.htmlId
            && item.caption == (if e.caption.Some? then e.caption else e.text)
            && item.cacheKey == hash(PartsOf(item.(cacheKey := "")))
            && (e.attrs.None? ==>
                  && item.enabled && item.name == item.href == item.inputType == None
                  && item.group == item.placeholder == item.testId == None)
            && (e.attrs.Some? ==>
                  var c := e.attrs.value;
                  && item.name == c.name && item.href == c.href && item.inputType == c.inputType
                  && item.group == c.group && item.placeholder == c.placeholder && item.testId == c.testId
                  && (item.enabled <==>
                        && c.inert != Some(true) && c.disabled != Some(true)
                        && c.readonly != Some(true) && (c.readonly.None? ==> c.ariaReadonly != Some(true)))
                  && (c.inert == Some(true) ==> item.blocked == Some("inert"))
                  && (c.inert != Some(true) && c.disabled == Some(true) ==> item.blocked == Some("disabled")))
  {
  }

  /** The actions are not empty and hold no comma. */
  predicate PlainActions(actions: seq<string>) {
    forall i | 0 <= i < |actions| :: actions[i] != "" && ',' !in actions[i]
  }

  lemma JoinHead(actions: seq<string>)
    requires actions != [] && PlainActions(actions)
    ensures T.Find(Join(actions), ',') == |actions[0]|
    ensures Join(actions)[..|actions[0]|] == actions[0] && Join(actions) != ""
    ensures |Join(actions)| == |actions[0]| <==> |actions| == 1
    ensures |actions| > 1 ==> Join(actions)[|actions[0]| + 1..] == Join(actions[1..])
  {
    var all, head := Join(actions), actions[0];
    if |actions| == 1 {
      T.FindNone(all, ',');
    } else {
      assert all[|head|] == ',' && all[..|head|] == head;
      T.FindIs(all, ',', |head|);
    }
  }

  /** Such actions can be read back from the joined text. */
  lemma {:induction false} JoinTellsApart(a: seq<string>, b: seq<string>)
    requires PlainActions(a) && PlainActions(b) && Join(a) == Join(b)
    ensures a == b
    decreases |a|
  {
    if a != [] && b != [] {
      JoinHead(a);
      JoinHead(b);
      if |a| > 1 {
        JoinTellsApart(a[1..], b[1..]);
      }
      assert a == [a[0]] + a[1..] && b == [b[0]] + b[1..];
    } else if a != [] {
      JoinHead(a);
    } else if b != [] {
      JoinHead(b);
    }
  }

  lemma SortKeepsPlain(actions: seq<string>)
    requires PlainActions(actions)
    ensures PlainActions(Sort(actions))
  {
    SortSorts(actions);
    var sorted := Sort(actions);
    forall i | 0 <= i < |sorted|
      ensures sorted[i] != "" && ',' !in sorted[i]
    {
      assert sorted[i] in multiset(sorted);
      assert sorted[i] in actions;
    }
  }

  /** The joined actions tell how often each action is there, and nothing else. */
  lemma ActionsTellApart(a: seq<string>, b: seq<string>)
    requires PlainActions(a) && PlainActions(b)
    ensures Join(Sort(a)) == Join(Sort(b)) <==> multiset(a) == multiset(b)
  {
    SortSorts(a);
    SortSorts(b);
    SortKeepsPlain(a);
    SortKeepsPlain(b);
    if Join(Sort(a)) == Join(Sort(b)) {
      JoinTellsApart(Sort(a), Sort(b));
    }
    if multiset(a) == multiset(b) {
      SortedIsUnique(Sort(a), Sort(b));
    }
  }
}

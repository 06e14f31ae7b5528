/** Element trees: the budgeted flattening of `src/inspection.rs` and the edits of `src/awp/handler.rs`. */
module Elements {
  import opened Octets
  import opened Sequences
  import J = Json
  import T = Text

  /** An element; an absent list of children and an absent shadow root count as empty ones. */
  datatype Element<A> = Element(
    id: string, role: string, htmlId: Option<string>, text: Option<string>, caption: Option<string>,
    actions: Option<seq<string>>, attrs: A, children: seq<Element<A>>, shadow: seq<Element<A>>)

  /** Depth-first order: the element, its children, its shadow root. */
  function Flat<A>(elements: seq<Element<A>>): seq<Element<A>> {
    if elements == [] then [] else FlatOne(elements[0]) + Flat(elements[1..])
  }

  function FlatOne<A>(e: Element<A>): seq<Element<A>> { [e] + (Flat(e.children) + Flat(e.shadow)) }

  function FlatRegions<A>(regions: seq<seq<Element<A>>>): seq<Element<A>> {
    if regions == [] then [] else Flat(regions[0]) + FlatRegions(regions[1..])
  }

  // ---- flattening under a budget

  const MAX_ELEMENTS: nat := 256
  const MAX_REGIONS: nat := 32

  datatype CompactElement = CompactElement(
    id: string, role: string, text: Option<string>, caption: Option<string>, actions: Option<seq<string>>)

  function BoundOption(s: Option<string>, max: nat): Option<string> {
    if s.Some? then Some(T.Bound(s.value, max)) else None
  }

  function BoundActions(actions: seq<string>): seq<string> {
    var few := First(actions, 8);
    seq(|few|, i requires 0 <= i < |few| => T.Bound(few[i], 64))
  }

  function Compact<A>(e: Element<A>): CompactElement {
    CompactElement(T.Bound(e.id, 256), e.role, BoundOption(e.text, 512), BoundOption(e.caption, 512),
                   if e.actions.Some? then Some(BoundActions(e.actions.value)) else None)
  }

  /** A cut that keeps what is short enough. */
  predicate CutTo(cut: string, whole: string, max: nat) {
    cut <= whole && T.ByteLength(cut) <= max && (T.ByteLength(whole) <= max ==> cut == whole)
  }

  predicate CutOption(cut: Option<string>, whole: Option<string>, max: nat) {
    (cut.Some? <==> whole.Some?) && (cut.Some? ==> CutTo(cut.value, whole.value, max))
  }

  /** A compact element has every field of the element, cut to its own length, and the first eight actions. */
  lemma CompactKeepsFields<A>(e: Element<A>)
    ensures var c := Compact(e);
            && CutTo(c.id, e.id, 256) && c.role == e.role
            && CutOption(c.text, e.text, 512) && CutOption(c.caption, e.caption, 512)
            && (c.actions.Some? <==> e.actions.Some?)
            && (c.actions.Some? ==>
                  && |c.actions.value| == (if |e.actions.value| <= 8 then |e.actions.value| else 8)
                  && forall i | 0 <= i < |c.actions.value| :: CutTo(c.actions.value[i], e.actions.value[i], 64))
  {
  }

  function Compacts<A>(s: seq<Element<A>>): seq<CompactElement> {
    seq(|s|, i requires 0 <= i < |s| => Compact(s[i]))
  }

  /** A budget spent on one list and then on another is a budget spent on both. */
  lemma Share<X>(a: seq<X>, b: seq<X>, n: nat)
    ensures First(a + b, n) == First(a, n) + First(b, n - |First(a, n)|)
  {
  }

  lemma CompactsOfBoth<A>(a: seq<Element<A>>, b: seq<Element<A>>)
    ensures Compacts(a + b) == Compacts(a) + Compacts(b)
  {
  }

  function Rows<A>(elements: seq<Element<A>>): (r: seq<CompactElement>)
    ensures |r| == |Flat(elements)|
  {
    Compacts(Flat(elements))
  }

  lemma RowsOfOne<A>(e: Element<A>)
    ensures Compacts(FlatOne(e)) == [Compact(e)] + (Rows(e.children) + Rows(e.shadow))
  {
    CompactsOfBoth([e], Flat(e.children) + Flat(e.shadow));
    CompactsOfBoth(Flat(e.children), Flat(e.shadow));
  }

  lemma RowsOfList<A>(input: seq<Element<A>>, i: nat)
    requires i < |input|
    ensures Rows(input[i..]) == Compacts(FlatOne(input[i])) + Rows(input[i + 1..])
  {
    assert input[i..][0] == input[i] && input[i..][1..] == input[i + 1..];
    CompactsOfBoth(FlatOne(input[i]), Flat(input[i + 1..]));
  }

  /** `flatten_elements`: the budget is shared by the whole tree. */
  method FlattenElements<A>(input: seq<Element<A>>, output0: seq<CompactElement>, remaining0: nat, returned0: nat)
    returns (output: seq<CompactElement>, remaining: nat, returned: nat)
    ensures output == output0 + First(Rows(input), remaining0)
    ensures remaining == remaining0 - |First(Rows(input), remaining0)|
    ensures remaining + returned == remaining0 + returned0
    decreases input, 0
  {
    output, remaining, returned := output0, remaining0, returned0;
    assert input[0..] == input;
    for i := 0 to |input|
      invariant output + First(Rows(input[i..]), remaining) == output0 + First(Rows(input), remaining0)
      invariant remaining - |First(Rows(input[i..]), remaining)| == remaining0 - |First(Rows(input), remaining0)|
      invariant remaining + returned == remaining0 + returned0
    {
      if remaining == 0 {
        return;
      }
      ghost var one, rest := Compacts(FlatOne(input[i])), Rows(input[i + 1..]);
      RowsOfList(input, i);
      Share(one, rest, remaining);
      Associative(output, First(one, remaining), First(rest, remaining - |First(one, remaining)|));
      output, remaining, returned := FlattenElement(input[i], output, remaining, returned);
    }
    assert input[|input|..] == [];
  }

  /** The loop body of `flatten_elements`. */
  method FlattenElement<A>(element: Element<A>, output0: seq<CompactElement>, remaining0: nat, returned0: nat)
    returns (output: seq<CompactElement>, remaining: nat, returned: nat)
    requires remaining0 > 0
    ensures output == output0 + First(Compacts(FlatOne(element)), remaining0)
    ensures remaining == remaining0 - |First(Compacts(FlatOne(element)), remaining0)|
    ensures remaining + returned == remaining0 + returned0
    decreases element, 1
  {
    output := output0 + [Compact(element)];
    remaining := remaining0 - 1;
    returned := returned0 + 1;
    ghost var kids, inShadow := Rows(element.children), Rows(element.shadow);
    RowsOfOne(element);
    Share([Compact(element)], kids + inShadow, remaining0);
    Share(kids, inShadow, remaining);
    ghost var some := First(kids, remaining);
    Associative(output0, [Compact(element)], some + First(inShadow, remaining - |some|));
    Associative(output, some, First(inShadow, remaining - |some|));
    output, remaining, returned := FlattenElements(element.children, output, remaining, returned);
    output, remaining, returned := FlattenElements(element.shadow, output, remaining, returned);
  }

  /** What each region gets of a shared budget. */
  function Shares<A>(regions: seq<seq<Element<A>>>, n: nat): seq<seq<Element<A>>> {
    if regions == [] then []
    else [First(Flat(regions[0]), n)] + Shares(regions[1..], n - |First(Flat(regions[0]), n)|)
  }

  function CompactShares<A>(shares: seq<seq<Element<A>>>): seq<seq<CompactElement>> {
    seq(|shares|, i requires 0 <= i < |shares| => Compacts(shares[i]))
  }

  function Concat<X>(lists: seq<seq<X>>): seq<X> {
    if lists == [] then [] else lists[0] + Concat(lists[1..])
  }

  datatype Structure = Structure(
    regions: seq<seq<CompactElement>>, seen: nat, returned: nat, omitted: nat, truncated: bool)

  /** What is made of a document whose metadata claims `elementCount` elements. */
  predicate StructureOf<A>(r: Structure, regions: seq<seq<Element<A>>>, elementCount: nat) {
    && r.regions == CompactShares(Shares(First(regions, MAX_REGIONS), MAX_ELEMENTS))
    && r.seen == |regions|
    && r.returned == |First(FlatRegions(First(regions, MAX_REGIONS)), MAX_ELEMENTS)|
    && r.omitted == (if elementCount < r.returned then 0 else elementCount - r.returned)
    && (r.truncated <==> r.returned < elementCount || |regions| > MAX_REGIONS)
  }

  /** `compact_structure`. */
  method CompactStructure<A>(regions: seq<seq<Element<A>>>, elementCount: nat) returns (r: Structure)
    ensures StructureOf(r, regions, elementCount)
  {
    hide Rows;
    var some := First(regions, MAX_REGIONS);
    var out: seq<seq<CompactElement>>, remaining: nat, returned: nat := [], MAX_ELEMENTS, 0;
    assert some[0..] == some;
    ghost var goal := CompactShares(Shares(some, MAX_ELEMENTS));
    for i := 0 to |some|
      invariant out + CompactShares(Shares(some[i..], remaining)) == goal
      invariant remaining == Left(some[..i], MAX_ELEMENTS)
      invariant remaining + returned == MAX_ELEMENTS
    {
      NextShare(some, i, remaining, out, goal);
      var elements;
      elements, remaining, returned := FlattenElements(some[i], [], remaining, returned);
      out := out + [elements];
    }
    assert some[|some|..] == [] && some[..|some|] == some;
    var omitted := if elementCount < returned then 0 else elementCount - returned;
    r := Structure(out, |regions|, returned, omitted, omitted > 0 || |regions| > MAX_REGIONS);
  }

  /** What is left of a budget after some regions. */
  function Left<A>(regions: seq<seq<Element<A>>>, n: nat): nat { n - |First(FlatRegions(regions), n)| }

  lemma LeftAfter<A>(regions: seq<seq<Element<A>>>, i: nat, n: nat)
    requires i < |regions|
    ensures Left(regions[..i + 1], n) == Left(regions[..i], n) - |First(Flat(regions[i]), Left(regions[..i], n))|
  {
    assert regions[..i + 1] == regions[..i] + [regions[i]];
    FlatRegionsOfBoth(regions[..i], [regions[i]]);
    OneRegion(regions[i]);
    Share(FlatRegions(regions[..i]), Flat(regions[i]), n);
  }

  lemma OneRegion<A>(region: seq<Element<A>>)
    ensures FlatRegions([region]) == Flat(region)
  {
    assert [region][1..] == [];
  }

  lemma CompactSharesAt<A>(regions: seq<seq<Element<A>>>, i: nat, n: nat)
    requires i < |regions|
    ensures |First(Rows(regions[i]), n)| == |First(Flat(regions[i]), n)|
    ensures CompactShares(Shares(regions[i..], n))
         == [First(Rows(regions[i]), n)] + CompactShares(Shares(regions[i + 1..], n - |First(Rows(regions[i]), n)|))
  {
    var mine := First(Flat(regions[i]), n);
    assert regions[i..][0] == regions[i] && regions[i..][1..] == regions[i + 1..];
    assert Compacts(mine) == First(Rows(regions[i]), n);
    CompactHead(mine, Shares(regions[i + 1..], n - |mine|));
  }

  lemma NextShare<A>(
    regions: seq<seq<Element<A>>>, i: nat, left: nat, out: seq<seq<CompactElement>>, goal: seq<seq<CompactElement>>)
    requires i < |regions| && left == Left(regions[..i], MAX_ELEMENTS)
    requires out + CompactShares(Shares(regions[i..], left)) == goal
    ensures var mine := [] + First(Rows(regions[i]), left);
            && left - |First(Rows(regions[i]), left)| == Left(regions[..i + 1], MAX_ELEMENTS)
            && out + [mine] + CompactShares(Shares(regions[i + 1..], left - |First(Rows(regions[i]), left)|)) == goal
  {
    LeftAfter(regions, i, MAX_ELEMENTS);
    CompactSharesAt(regions, i, left);
    var mine := First(Rows(regions[i]), left);
    assert [] + mine == mine;
    Associative(out, [mine], CompactShares(Shares(regions[i + 1..], left - |mine|)));
  }

  lemma CompactHead<A>(head: seq<Element<A>>, rest: seq<seq<Element<A>>>)
    ensures CompactShares([head] + rest) == [Compacts(head)] + CompactShares(rest)
  {
  }

  /** Put together, the regions hold the first elements of the whole document. */
  lemma {:induction false} SharesAreAPrefix<A>(regions: seq<seq<Element<A>>>, n: nat)
    ensures Concat(Shares(regions, n)) == First(FlatRegions(regions), n)
  {
    if regions != [] {
      SharesAreAPrefix(regions[1..], n - |First(Flat(regions[0]), n)|);
      Share(Flat(regions[0]), FlatRegions(regions[1..]), n);
    }
  }

  lemma LeftOfFirst<A>(head: seq<Element<A>>, rest: seq<seq<Element<A>>>, n: nat)
    ensures Left([head] + rest, n) == Left(rest, n - |First(Flat(head), n)|)
  {
    assert ([head] + rest)[1..] == rest;
    Share(Flat(head), FlatRegions(rest), n);
  }

  lemma SharesOfFirst<A>(head: seq<Element<A>>, rest: seq<seq<Element<A>>>, n: nat)
    ensures Shares([head] + rest, n) == [First(Flat(head), n)] + Shares(rest, n - |First(Flat(head), n)|)
  {
    assert ([head] + rest)[1..] == rest;
  }

  lemma {:induction false} SharesAreMany<A>(regions: seq<seq<Element<A>>>, n: nat)
    ensures |Shares(regions, n)| == |regions|
  {
    if regions != [] {
      SharesAreMany(regions[1..], n - |First(Flat(regions[0]), n)|);
    }
  }

  /** A region gets the start of its own elements, as much as the regions before it left over. */
  lemma {:induction false} ShareOfRegion<A>(
    before: seq<seq<Element<A>>>, region: seq<Element<A>>, after: seq<seq<Element<A>>>, n: nat)
    ensures var shares := Shares(before + ([region] + after), n);
            |before| < |shares| && shares[|before|] == First(Flat(region), Left(before, n))
  {
    SharesAreMany(before + ([region] + after), n);
    if before == [] {
      assert before + ([region] + after) == [region] + after;
      SharesOfFirst(region, after, n);
    } else {
      var head, rest := before[0], before[1..];
      var left := n - |First(Flat(head), n)|;
      assert before == [head] + rest;
      assert before + ([region] + after) == [head] + (rest + ([region] + after));
      ShareOfRegion(rest, region, after, left);
      LeftOfFirst(head, rest, n);
      SharesOfFirst(head, rest + ([region] + after), n);
    }
  }

  lemma {:induction false} FlatRegionsOfBoth<A>(a: seq<seq<Element<A>>>, b: seq<seq<Element<A>>>)
    ensures FlatRegions(a + b) == FlatRegions(a) + FlatRegions(b)
  {
    if a == [] {
      assert a + b == b;
    } else {
      FlatRegionsOfBoth(a[1..], b);
      assert (a + b)[0] == a[0] && (a + b)[1..] == a[1..] + b;
      Associative(Flat(a[0]), FlatRegions(a[1..]), FlatRegions(b));
    }
  }

  lemma {:induction false} CompactingJoins<A>(lists: seq<seq<Element<A>>>)
    ensures Concat(CompactShares(lists)) == Compacts(Concat(lists))
  {
    if lists != [] {
      CompactingJoins(lists[1..]);
      assert CompactShares(lists)[1..] == CompactShares(lists[1..]);
      CompactsOfBoth(lists[0], Concat(lists[1..]));
    }
  }

  /** With a true element count the structure holds the start of the document and counts what is missing; it says
    * `truncated` exactly when something is missing or regions were left unread. So the one false alarm is a document
    * of more than 32 regions whose later ones are empty, and silence means that everything is there. */
  lemma TruncationIsTrue<A>(r: Structure, regions: seq<seq<Element<A>>>)
    requires StructureOf(r, regions, |FlatRegions(regions)|)
    ensures var out, all := Concat(r.regions), Compacts(FlatRegions(regions));
            && r.seen == |regions|
            && out <= all && |out| == r.returned && r.omitted == |all| - |out|
            && (r.truncated <==> out != all || |regions| > MAX_REGIONS)
            && (|regions| <= MAX_REGIONS ==> |out| == if |all| < MAX_ELEMENTS then |all| else MAX_ELEMENTS)
  {
    var some := First(regions, MAX_REGIONS);
    var returned := First(FlatRegions(some), MAX_ELEMENTS);
    FlatRegionsOfBoth(some, regions[|some|..]);
    assert regions == some + regions[|some|..];
    SharesAreAPrefix(some, MAX_ELEMENTS);
    CompactingJoins(Shares(some, MAX_ELEMENTS));
    CompactsOfPrefix(returned, FlatRegions(regions));
  }

  lemma CompactsOfPrefix<A>(a: seq<Element<A>>, b: seq<Element<A>>)
    requires a <= b
    ensures Compacts(a) <= Compacts(b)
  {
  }

  // ---- edits

  function Edited<A>(elements: seq<Element<A>>, id: string, edit: A -> A): (r: seq<Element<A>>)
    ensures |r| == |elements|
  {
    if elements == [] then []
    else if elements[0].id == id then [elements[0].(attrs := edit(elements[0].attrs))] + elements[1..]
    else [elements[0].(children := Edited(elements[0].children, id, edit))] + Edited(elements[1..], id, edit)
  }

  /** `update_element_value_in_list` and `toggle_element_in_list`: a match ends the walk of its own list only, and
    * shadow roots are not entered. */
  method EditInList<A>(elements: seq<Element<A>>, id: string, edit: A -> A) returns (r: seq<Element<A>>)
    ensures r == Edited(elements, id, edit)
    decreases elements
  {
    r := [];
    assert elements[0..] == elements;
    for i := 0 to |elements|
      invariant |r| == i && r + Edited(elements[i..], id, edit) == Edited(elements, id, edit)
    {
      ghost var before := r;
      EditedAt(elements, i, id, edit);
      if elements[i].id == id {
        r := r + [elements[i].(attrs := edit(elements[i].attrs))];
        Associative(before, [elements[i].(attrs := edit(elements[i].attrs))], elements[i + 1..]);
        r := r + elements[i + 1..];
        return;
      }
      var children := EditInList(elements[i].children, id, edit);
      r := r + [elements[i].(children := children)];
      Associative(before, [elements[i].(children := children)], Edited(elements[i + 1..], id, edit));
    }
    assert elements[|elements|..] == [];
  }

  lemma EditedAt<A>(elements: seq<Element<A>>, i: nat, id: string, edit: A -> A)
    requires i < |elements|
    ensures Edited(elements[i..], id, edit)
         == if elements[i].id == id then [elements[i].(attrs := edit(elements[i].attrs))] + elements[i + 1..]
            else
              [elements[i].(children := Edited(elements[i].children, id, edit))] + Edited(elements[i + 1..], id, edit)
  {
    assert elements[i..][0] == elements[i] && elements[i..][1..] == elements[i + 1..];
  }

  function EditedRegions<A>(regions: seq<seq<Element<A>>>, id: string, edit: A -> A): seq<seq<Element<A>>> {
    seq(|regions|, i requires 0 <= i < |regions| => Edited(regions[i], id, edit))
  }

  /** `update_element_value` and `toggle_element`. */
  method EditInRegions<A>(regions: seq<seq<Element<A>>>, id: string, edit: A -> A) returns (r: seq<seq<Element<A>>>)
    ensures r == EditedRegions(regions, id, edit)
  {
    r := [];
    for i := 0 to |regions|
      invariant r == EditedRegions(regions, id, edit)[..i]
    {
      var list := EditInList(regions[i], id, edit);
      r := r + [list];
    }
  }

  /** The attributes of an element, under its id. */
  datatype Mark<A> = Mark(id: string, attrs: A)

  function Marks<A>(elements: seq<Element<A>>): seq<Mark<A>> {
    if elements == [] then []
    else
      [Mark(elements[0].id, elements[0].attrs)]
      + (Marks(elements[0].children) + (Marks(elements[0].shadow) + Marks(elements[1..])))
  }

  /** The tree without the attributes. */
  function Frame<A>(elements: seq<Element<A>>): (r: seq<Element<()>>)
    ensures |r| == |elements|
  {
    if elements == [] then []
    else
      var e := elements[0];
      [Element(e.id, e.role, e.htmlId, e.text, e.caption, e.actions, (), Frame(e.children), Frame(e.shadow))]
      + Frame(elements[1..])
  }

  /** The element is reachable without entering a shadow root. */
  predicate InLight<A>(elements: seq<Element<A>>, id: string) {
    elements != [] &&
    (elements[0].id == id || InLight(elements[0].children, id) || InLight(elements[1..], id))
  }

  predicate Has<A>(marks: seq<Mark<A>>, id: string) { exists i :: 0 <= i < |marks| && marks[i].id == id }

  predicate Unique<A>(marks: seq<Mark<A>>) {
    forall i, j :: 0 <= i < j < |marks| ==> marks[i].id != marks[j].id
  }

  function Remark<A>(marks: seq<Mark<A>>, id: string, edit: A -> A): seq<Mark<A>> {
    seq(|marks|, i requires 0 <= i < |marks| => if marks[i].id == id then Mark(id, edit(marks[i].attrs)) else marks[i])
  }

  lemma RemarkOfBoth<A>(a: seq<Mark<A>>, b: seq<Mark<A>>, id: string, edit: A -> A)
    ensures Remark(a + b, id, edit) == Remark(a, id, edit) + Remark(b, id, edit)
  {
  }

  lemma RemarkWithout<A>(a: seq<Mark<A>>, id: string, edit: A -> A)
    requires !Has(a, id)
    ensures Remark(a, id, edit) == a
  {
  }

  lemma UniqueParts<A>(a: seq<Mark<A>>, b: seq<Mark<A>>)
    requires Unique(a + b)
    ensures Unique(a) && Unique(b)
    ensures forall id :: !(Has(a, id) && Has(b, id))
  {
    forall i, j | 0 <= i < j < |a|
      ensures a[i].id != a[j].id
    {
      assert (a + b)[i] == a[i] && (a + b)[j] == a[j];
    }
    forall i, j | 0 <= i < j < |b|
      ensures b[i].id != b[j].id
    {
      assert (a + b)[|a| + i] == b[i] && (a + b)[|a| + j] == b[j];
    }
    forall i, j | 0 <= i < |a| && 0 <= j < |b|
      ensures a[i].id != b[j].id
    {
      assert (a + b)[i] == a[i] && (a + b)[|a| + j] == b[j];
    }
  }

  lemma HasParts<A>(a: seq<Mark<A>>, b: seq<Mark<A>>, id: string)
    ensures Has(a + b, id) <==> Has(a, id) || Has(b, id)
  {
    if Has(a, id) {
      var i :| 0 <= i < |a| && a[i].id == id;
      assert (a + b)[i] == a[i];
    }
    if Has(b, id) {
      var i :| 0 <= i < |b| && b[i].id == id;
      assert (a + b)[|a| + i] == b[i];
    }
  }

  lemma {:induction false} LightIsMarked<A>(elements: seq<Element<A>>, id: string)
    requires InLight(elements, id)
    ensures Has(Marks(elements), id)
  {
    var e := elements[0];
    var kids, inShadow, after := Marks(e.children), Marks(e.shadow), Marks(elements[1..]);
    HasParts([Mark(e.id, e.attrs)], kids + (inShadow + after), id);
    HasParts(kids, inShadow + after, id);
    HasParts(inShadow, after, id);
    if e.id == id {
      assert [Mark(e.id, e.attrs)][0].id == id;
    } else if InLight(e.children, id) {
      LightIsMarked(e.children, id);
    } else {
      LightIsMarked(elements[1..], id);
    }
  }

  /** The marks an edit has to leave alone, and the ones it may change. */
  function Expected<A>(elements: seq<Element<A>>, id: string, edit: A -> A): seq<Mark<A>> {
    if InLight(elements, id) then Remark(Marks(elements), id, edit) else Marks(elements)
  }

  /** With unique ids, an edit changes the attributes of the one element that has the id and nothing else; an element
    * inside a shadow root is not found. */
  lemma {:induction false} EditChangesOne<A>(elements: seq<Element<A>>, id: string, edit: A -> A)
    requires Unique(Marks(elements))
    ensures Marks(Edited(elements, id, edit)) == Expected(elements, id, edit)
  {
    if elements != [] {
      var e := elements[0];
      var own, kids, inShadow, after := [Mark(e.id, e.attrs)], Marks(e.children), Marks(e.shadow), Marks(elements[1..]);
      UniqueParts(own, kids + (inShadow + after));
      UniqueParts(kids, inShadow + after);
      UniqueParts(inShadow, after);
      HasParts(kids, inShadow + after, id);
      HasParts(inShadow, after, id);
      RemarkOfBoth(own, kids + (inShadow + after), id, edit);
      RemarkOfBoth(kids, inShadow + after, id, edit);
      RemarkOfBoth(inShadow, after, id, edit);
      if e.id == id {
        EditHead(elements, id, edit);
      } else {
        EditChangesOne(e.children, id, edit);
        EditChangesOne(elements[1..], id, edit);
        EditTail(elements, id, edit);
      }
    }
  }

  lemma EditHead<A>(elements: seq<Element<A>>, id: string, edit: A -> A)
    requires elements != [] && elements[0].id == id
    requires var e := elements[0];
             forall other :: !(Has([Mark(e.id, e.attrs)], other)
                               && Has(Marks(e.children) + (Marks(e.shadow) + Marks(elements[1..])), other))
    ensures Marks(Edited(elements, id, edit)) == Remark(Marks(elements), id, edit)
  {
    var e := elements[0];
    var own, below := [Mark(e.id, e.attrs)], Marks(e.children) + (Marks(e.shadow) + Marks(elements[1..]));
    assert own[0].id == id;
    RemarkWithout(below, id, edit);
    RemarkOfBoth(own, below, id, edit);
    var edited := Edited(elements, id, edit);
    assert edited[0] == e.(attrs := edit(e.attrs)) && edited[1..] == elements[1..];
  }

  lemma EditTail<A>(elements: seq<Element<A>>, id: string, edit: A -> A)
    requires elements != [] && elements[0].id != id
    requires Marks(Edited(elements[0].children, id, edit)) == Expected(elements[0].children, id, edit)
    requires Marks(Edited(elements[1..], id, edit)) == Expected(elements[1..], id, edit)
    requires var kids, inShadow, after := Marks(elements[0].children), Marks(elements[0].shadow), Marks(elements[1..]);
             !(Has(kids, id) && Has(inShadow, id)) && !(Has(kids, id) && Has(after, id))
             && !(Has(inShadow, id) && Has(after, id))
    ensures Marks(Edited(elements, id, edit)) == Expected(elements, id, edit)
  {
    var e := elements[0];
    var own, kids, inShadow, after := [Mark(e.id, e.attrs)], Marks(e.children), Marks(e.shadow), Marks(elements[1..]);
    var edited := Edited(elements, id, edit);
    assert edited[0] == e.(children := Edited(e.children, id, edit)) && edited[1..] == Edited(elements[1..], id, edit);
    RemarkOfBoth(own, kids + (inShadow + after), id, edit);
    RemarkOfBoth(kids, inShadow + after, id, edit);
    RemarkOfBoth(inShadow, after, id, edit);
    assert Remark(own, id, edit) == own;
    if InLight(e.children, id) {
      LightIsMarked(e.children, id);
      RemarkWithout(inShadow, id, edit);
      RemarkWithout(after, id, edit);
      if InLight(elements[1..], id) {
        LightIsMarked(elements[1..], id);
      }
    } else if InLight(elements[1..], id) {
      LightIsMarked(elements[1..], id);
      RemarkWithout(kids, id, edit);
      RemarkWithout(inShadow, id, edit);
    }
  }

  /** Whatever the ids are, an edit keeps the tree and everything in it but attributes. */
  lemma {:induction false} EditKeepsTheFrame<A>(elements: seq<Element<A>>, id: string, edit: A -> A)
    ensures Frame(Edited(elements, id, edit)) == Frame(elements)
  {
    if elements != [] {
      var edited := Edited(elements, id, edit);
      if elements[0].id == id {
        assert edited[1..] == elements[1..];
      } else {
        EditKeepsTheFrame(elements[0].children, id, edit);
        EditKeepsTheFrame(elements[1..], id, edit);
        assert edited[1..] == Edited(elements[1..], id, edit);
      }
    }
  }

  lemma {:induction false} FramesHaveEqualMarks<A>(a: seq<Element<A>>, b: seq<Element<A>>)
    requires Frame(a) == Frame(b)
    ensures |Marks(a)| == |Marks(b)|
  {
    if a != [] {
      assert Frame(a)[0] == Frame(b)[0] && Frame(a)[1..] == Frame(b)[1..];
      FramesHaveEqualMarks(a[0].children, b[0].children);
      FramesHaveEqualMarks(a[0].shadow, b[0].shadow);
      FramesHaveEqualMarks(a[1..], b[1..]);
    }
  }

  lemma PartsAgree<X>(a: seq<X>, b: seq<X>, c: seq<X>, d: seq<X>)
    requires a + b == c + d && |a| == |c|
    ensures a == c && b == d
  {
    assert (a + b)[..|a|] == a && (c + d)[..|c|] == c;
    assert (a + b)[|a|..] == b && (c + d)[|c|..] == d;
  }

  /** The frame and the marks say everything about a tree. */
  lemma {:induction false} FrameAndMarksDetermine<A>(a: seq<Element<A>>, b: seq<Element<A>>)
    requires Frame(a) == Frame(b) && Marks(a) == Marks(b)
    ensures a == b
  {
    if a != [] {
      var x, y := a[0], b[0];
      assert Frame(a)[0] == Frame(b)[0] && Frame(a)[1..] == Frame(b)[1..];
      FramesHaveEqualMarks(x.children, y.children);
      FramesHaveEqualMarks(x.shadow, y.shadow);
      PartsAgree([Mark(x.id, x.attrs)], Marks(x.children) + (Marks(x.shadow) + Marks(a[1..])),
                 [Mark(y.id, y.attrs)], Marks(y.children) + (Marks(y.shadow) + Marks(b[1..])));
      assert [Mark(x.id, x.attrs)][0] == [Mark(y.id, y.attrs)][0];
      PartsAgree(Marks(x.children), Marks(x.shadow) + Marks(a[1..]),
                 Marks(y.children), Marks(y.shadow) + Marks(b[1..]));
      PartsAgree(Marks(x.shadow), Marks(a[1..]), Marks(y.shadow), Marks(b[1..]));
      FrameAndMarksDetermine(x.children, y.children);
      FrameAndMarksDetermine(x.shadow, y.shadow);
      FrameAndMarksDetermine(a[1..], b[1..]);
      assert a == [a[0]] + a[1..] && b == [b[0]] + b[1..];
    }
  }

  function AllMarks<A>(regions: seq<seq<Element<A>>>): seq<Mark<A>> {
    if regions == [] then [] else Marks(regions[0]) + AllMarks(regions[1..])
  }

  predicate InSomeLight<A>(regions: seq<seq<Element<A>>>, id: string) {
    regions != [] && (InLight(regions[0], id) || InSomeLight(regions[1..], id))
  }

  function ExpectedOfAll<A>(regions: seq<seq<Element<A>>>, id: string, edit: A -> A): seq<Mark<A>> {
    if InSomeLight(regions, id) then Remark(AllMarks(regions), id, edit) else AllMarks(regions)
  }

  lemma {:induction false} SomeLightIsMarked<A>(regions: seq<seq<Element<A>>>, id: string)
    requires InSomeLight(regions, id)
    ensures Has(AllMarks(regions), id)
  {
    HasParts(Marks(regions[0]), AllMarks(regions[1..]), id);
    if InLight(regions[0], id) {
      LightIsMarked(regions[0], id);
    } else {
      SomeLightIsMarked(regions[1..], id);
    }
  }

  lemma {:induction false} EditsOfRegions<A>(regions: seq<seq<Element<A>>>, id: string, edit: A -> A)
    requires Unique(AllMarks(regions))
    ensures AllMarks(EditedRegions(regions, id, edit)) == ExpectedOfAll(regions, id, edit)
  {
    if regions != [] {
      var first, rest := Marks(regions[0]), AllMarks(regions[1..]);
      UniqueParts(first, rest);
      RemarkOfBoth(first, rest, id, edit);
      assert EditedRegions(regions, id, edit)[1..] == EditedRegions(regions[1..], id, edit);
      EditChangesOne(regions[0], id, edit);
      EditsOfRegions(regions[1..], id, edit);
      if InLight(regions[0], id) {
        LightIsMarked(regions[0], id);
        RemarkWithout(rest, id, edit);
        if InSomeLight(regions[1..], id) {
          SomeLightIsMarked(regions[1..], id);
        }
      } else if InSomeLight(regions[1..], id) {
        SomeLightIsMarked(regions[1..], id);
        RemarkWithout(first, id, edit);
      }
    }
  }

  /** In a document with unique ids an edit changes one mark if the element is outside every shadow root, and none
    * otherwise. */
  lemma EditOfDocument<A>(regions: seq<seq<Element<A>>>, id: string, edit: A -> A)
    requires Unique(AllMarks(regions))
    ensures !InSomeLight(regions, id) ==> AllMarks(EditedRegions(regions, id, edit)) == AllMarks(regions)
    ensures InSomeLight(regions, id) ==>
              exists k :: 0 <= k < |AllMarks(regions)| && AllMarks(regions)[k].id == id
                && AllMarks(EditedRegions(regions, id, edit))
                   == AllMarks(regions)[k := Mark(id, edit(AllMarks(regions)[k].attrs))]
  {
    EditsOfRegions(regions, id, edit);
    if InSomeLight(regions, id) {
      SomeLightIsMarked(regions, id);
      var marks := AllMarks(regions);
      var k :| 0 <= k < |marks| && marks[k].id == id;
      assert Remark(marks, id, edit) == marks[k := Mark(id, edit(marks[k].attrs))];
    }
  }

  // ---- the two edits

  datatype Attrs = Absent | Fields(fields: map<string, J.Json>) | Scalar(value: J.Json)

  function SetValue(value: string): Attrs -> Attrs {
    (a: Attrs) =>
      match a
      case Absent => Fields(map["value" := J.Str(value)])
      case Fields(fields) => Fields(fields["value" := J.Str(value)])
      case Scalar(_) => a
  }

  /** Setting a value twice is setting it once, and touches no other field; attributes that are no object stay. */
  lemma SetValueReads(a: Attrs, earlier: string, value: string)
    ensures a.Scalar? ==> SetValue(value)(a) == a
    ensures SetValue(value)(SetValue(earlier)(a)) == SetValue(value)(a)
    ensures !a.Scalar? ==>
              && "value" in SetValue(value)(a).fields && SetValue(value)(a).fields["value"] == J.Str(value)
              && SetValue(value)(a).fields - {"value"} == (if a.Absent? then map[] else a.fields) - {"value"}
  {
    if a.Fields? {
      assert a.fields["value" := J.Str(earlier)]["value" := J.Str(value)] == a.fields["value" := J.Str(value)];
    }
  }

  function IsBool(fields: map<string, J.Json>, key: string): bool { key in fields && fields[key].Bool? }

  function Toggle(a: Attrs): Attrs {
    if a.Scalar? then a
    else
      var fields := if a.Absent? then map[] else a.fields;
      if IsBool(fields, "checked") then Fields(fields["checked" := J.Bool(!fields["checked"].b)])
      else if "open" in fields then
        Fields(fields["open" := J.Bool(!(if fields["open"].Bool? then fields["open"].b else false))])
      else Fields(fields["checked" := J.Bool(true)])
  }

  /** A toggle flips a boolean `checked`, or else an `open` that is there, any other value of which counts as false, and
    * else sets `checked`; all other fields stay. */
  lemma ToggleReads(a: Attrs)
    ensures a.Scalar? ==> Toggle(a) == a
    ensures !a.Scalar? ==>
              var before := if a.Absent? then map[] else a.fields;
              var wasChecked := "checked" in before && before["checked"].Bool?;
              var key := if !wasChecked && "open" in before then "open" else "checked";
              && Toggle(a).Fields? && key in Toggle(a).fields && Toggle(a).fields - {key} == before - {key}
              && Toggle(a).fields[key] == J.Bool(!(key in before && before[key] == J.Bool(true)))
  {
  }

  /** Toggling twice restores the attributes exactly when the attribute that is toggled held a boolean before. */
  lemma ToggleTwice(a: Attrs)
    ensures Toggle(Toggle(a)) == a
       <==> a.Scalar? || (a.Fields? && (IsBool(a.fields, "checked") || IsBool(a.fields, "open")))
  {
    if a.Fields? {
      var fields, once := a.fields, Toggle(a).fields;
      assert IsBool(fields, "checked") ==> once["checked" := fields["checked"]] == fields;
      assert "open" in fields ==> once["open" := fields["open"]] == fields || IsBool(fields, "checked");
    }
  }
}

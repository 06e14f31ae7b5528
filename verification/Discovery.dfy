/** `enforce_serialized_output_limit` of `src/ard.rs`: five loops that drop detail from a report, least valuable
  * first, until what the caller will emit fits. The measure is any function of the report, and may fail.
  */
module Discovery {
  import opened Octets

  const MAX_SERIALIZED_OUTPUT_BYTES := 512 * 1024

  datatype Entry = Entry(id: nat, data: Option<nat>, metadata: Option<nat>, trust: Option<nat>)

  datatype Host = Host(id: nat, trust: Option<nat>)

  datatype Catalog = Catalog(id: nat, host: Option<Host>, entries: seq<Entry>, failures: seq<nat>)

  datatype Source = Source(id: nat, failures: seq<nat>, candidates: seq<nat>)

  datatype Summary = Summary(optionalOmitted: nat, failuresOmitted: nat, entriesOmitted: nat, detailsOmitted: nat,
                             catalogsOmitted: nat, truncated: bool)

  datatype Report = Report(sources: seq<Source>, catalogs: seq<Catalog>, summary: Summary)

  datatype Outcome = Fits | TooLarge | MeasureFailed

  type Measure = Report -> Option<nat>

  // ---- one removal per stage; each looks at the last element first

  function LastChange<T>(items: seq<T>, change: T -> Option<T>): (r: Option<seq<T>>)
    ensures r.Some? ==> |r.value| == |items|
  {
    if items == [] then None
    else
      var front, last := items[..|items| - 1], items[|items| - 1];
      match change(last)
      case Some(x) => Some(front + [x])
      case None =>
        match LastChange(front, change)
        case Some(f) => Some(f + [last])
        case None => None
  }

  function StripEntry(e: Entry): Option<Entry> {
    if e.data.Some? then Some(e.(data := None))
    else if e.metadata.Some? then Some(e.(metadata := None))
    else if e.trust.Some? then Some(e.(trust := None))
    else None
  }

  function StripCatalog(c: Catalog): Option<Catalog> {
    if c.host.Some? && c.host.value.trust.Some? then Some(c.(host := Some(c.host.value.(trust := None))))
    else
      match LastChange(c.entries, StripEntry)
      case Some(entries) => Some(c.(entries := entries))
      case None => None
  }

  function PopFailure(c: Catalog): Option<Catalog> {
    if c.failures == [] then None else Some(c.(failures := c.failures[..|c.failures| - 1]))
  }

  function PopEntry(c: Catalog): Option<Catalog> {
    if c.entries == [] then None else Some(c.(entries := c.entries[..|c.entries| - 1]))
  }

  function PopDetail(s: Source): Option<Source> {
    if s.failures != [] then Some(s.(failures := s.failures[..|s.failures| - 1]))
    else if s.candidates != [] then Some(s.(candidates := s.candidates[..|s.candidates| - 1]))
    else None
  }

  function DropOptional(r: Report): Option<Report> {
    match LastChange(r.catalogs, StripCatalog)
    case Some(cs) =>
      var summary := r.summary.(optionalOmitted := r.summary.optionalOmitted + 1, truncated := true);
      Some(r.(catalogs := cs, summary := summary))
    case None => None
  }

  function DropFailure(r: Report): Option<Report> {
    match LastChange(r.catalogs, PopFailure)
    case Some(cs) =>
      var summary := r.summary.(failuresOmitted := r.summary.failuresOmitted + 1, truncated := true);
      Some(r.(catalogs := cs, summary := summary))
    case None => None
  }

  function DropEntry(r: Report): Option<Report> {
    match LastChange(r.catalogs, PopEntry)
    case Some(cs) =>
      Some(r.(catalogs := cs, summary := r.summary.(entriesOmitted := r.summary.entriesOmitted + 1, truncated := true)))
    case None => None
  }

  function DropDetail(r: Report): Option<Report> {
    match LastChange(r.sources, PopDetail)
    case Some(ss) =>
      Some(r.(sources := ss, summary := r.summary.(detailsOmitted := r.summary.detailsOmitted + 1, truncated := true)))
    case None => None
  }

  function DropCatalog(r: Report): Option<Report> {
    if r.catalogs == [] then None
    else Some(r.(catalogs := r.catalogs[..|r.catalogs| - 1],
                 summary := r.summary.(catalogsOmitted := r.summary.catalogsOmitted + 1, truncated := true)))
  }

  type Stage = k: nat | k < 5

  function Drop(k: Stage, r: Report): Option<Report> {
    match k
    case 0 => DropOptional(r)
    case 1 => DropFailure(r)
    case 2 => DropEntry(r)
    case 3 => DropDetail(r)
    case _ => DropCatalog(r)
  }

  // ---- how much there is of what each stage removes

  function Bit<T>(o: Option<T>): nat { if o.Some? then 1 else 0 }

  function Sum<T>(items: seq<T>, weight: T -> nat): nat {
    if items == [] then 0 else Sum(items[..|items| - 1], weight) + weight(items[|items| - 1])
  }

  function EntryOptional(e: Entry): nat { Bit(e.data) + Bit(e.metadata) + Bit(e.trust) }

  function HostOptional(c: Catalog): nat { if c.host.Some? then Bit(c.host.value.trust) else 0 }

  function CatalogOptional(c: Catalog): nat { HostOptional(c) + Sum(c.entries, EntryOptional) }

  function FailureCount(c: Catalog): nat { |c.failures| }

  function EntryCount(c: Catalog): nat { |c.entries| }

  function DetailCount(s: Source): nat { |s.failures| + |s.candidates| }

  /** What stage `k` can still remove. */
  function Left(k: Stage, r: Report): nat {
    match k
    case 0 => Sum(r.catalogs, CatalogOptional)
    case 1 => Sum(r.catalogs, FailureCount)
    case 2 => Sum(r.catalogs, EntryCount)
    case 3 => Sum(r.sources, DetailCount)
    case _ => |r.catalogs|
  }

  /** What the summary says stage `k` has removed. */
  function Omitted(k: Stage, s: Summary): nat {
    match k
    case 0 => s.optionalOmitted
    case 1 => s.failuresOmitted
    case 2 => s.entriesOmitted
    case 3 => s.detailsOmitted
    case _ => s.catalogsOmitted
  }

  lemma {:induction false} LastChangeSums<T(!new)>(items: seq<T>, change: T -> Option<T>, weight: T -> nat, lost: nat)
    requires forall x, y | change(x) == Some(y) :: weight(y) + lost == weight(x)
    ensures LastChange(items, change).Some? ==>
              Sum(LastChange(items, change).value, weight) + lost == Sum(items, weight)
  {
    if items != [] {
      var front, last := items[..|items| - 1], items[|items| - 1];
      LastChangeSums(front, change, weight, lost);
      if change(last).Some? {
        assert (front + [change(last).value])[..|front|] == front;
      } else if LastChange(front, change).Some? {
        var f := LastChange(front, change).value;
        assert (f + [last])[..|f|] == f;
      }
    }
  }

  lemma {:induction false} LastChangeStops<T(!new)>(items: seq<T>, change: T -> Option<T>, weight: T -> nat)
    requires forall x :: change(x).None? <==> weight(x) == 0
    ensures LastChange(items, change).None? <==> Sum(items, weight) == 0
  {
    if items != [] {
      LastChangeStops(items[..|items| - 1], change, weight);
    }
  }

  lemma StripEntryCounts()
    ensures forall x, y | StripEntry(x) == Some(y) :: EntryOptional(y) + 1 == EntryOptional(x)
    ensures forall x :: StripEntry(x).None? <==> EntryOptional(x) == 0
  {
  }

  lemma StripOneCatalog(x: Catalog)
    ensures StripCatalog(x).None? <==> CatalogOptional(x) == 0
    ensures StripCatalog(x).Some? ==> CatalogOptional(StripCatalog(x).value) + 1 == CatalogOptional(x)
  {
    StripEntryCounts();
    LastChangeSums(x.entries, StripEntry, EntryOptional, 1);
    LastChangeStops(x.entries, StripEntry, EntryOptional);
  }

  lemma StripCatalogCounts()
    ensures forall x, y | StripCatalog(x) == Some(y) :: CatalogOptional(y) + 1 == CatalogOptional(x)
    ensures forall x :: StripCatalog(x).None? <==> CatalogOptional(x) == 0
    ensures forall x, y | StripCatalog(x) == Some(y) ::
              FailureCount(y) == FailureCount(x) && EntryCount(y) == EntryCount(x)
  {
    forall x: Catalog
      ensures StripCatalog(x).None? <==> CatalogOptional(x) == 0
      ensures StripCatalog(x).Some? ==> CatalogOptional(StripCatalog(x).value) + 1 == CatalogOptional(x)
    {
      StripOneCatalog(x);
    }
  }

  lemma {:induction false} LastChangeShrinks<T(!new)>(items: seq<T>, change: T -> Option<T>, weight: T -> nat)
    requires forall x, y | change(x) == Some(y) :: weight(y) <= weight(x)
    ensures LastChange(items, change).Some? ==> Sum(LastChange(items, change).value, weight) <= Sum(items, weight)
  {
    if items != [] {
      var front, last := items[..|items| - 1], items[|items| - 1];
      LastChangeShrinks(front, change, weight);
      if change(last).Some? {
        assert (front + [change(last).value])[..|front|] == front;
      } else if LastChange(front, change).Some? {
        var f := LastChange(front, change).value;
        assert (f + [last])[..|f|] == f;
      }
    }
  }

  /** Every stage before `k` has nothing left. */
  predicate DoneBefore(k: nat, r: Report) { forall j: Stage | j < k :: Left(j, r) == 0 }

  /** Stage `k` has run once on a report where the earlier stages are done. */
  predicate DroppedOne(k: Stage, r: Report, s: Report) {
    && (forall j: Stage :: Left(j, s) == if j == k then Left(j, r) - 1 else Left(j, r))
    && (forall j: Stage :: Omitted(j, s.summary) == if j == k then Omitted(j, r.summary) + 1 else Omitted(j, r.summary))
    && s.summary.truncated
  }

  lemma DropOptionalEffect(r: Report)
    ensures DropOptional(r).None? <==> Left(0, r) == 0
    ensures DropOptional(r).Some? ==> DroppedOne(0, r, DropOptional(r).value)
  {
    StripCatalogCounts();
    LastChangeStops(r.catalogs, StripCatalog, CatalogOptional);
    LastChangeSums(r.catalogs, StripCatalog, CatalogOptional, 1);
    LastChangeSums(r.catalogs, StripCatalog, FailureCount, 0);
    LastChangeSums(r.catalogs, StripCatalog, EntryCount, 0);
  }

  lemma DropFailureEffect(r: Report)
    requires DoneBefore(1, r)
    ensures DropFailure(r).None? <==> Left(1, r) == 0
    ensures DropFailure(r).Some? ==> DroppedOne(1, r, DropFailure(r).value)
  {
    LastChangeStops(r.catalogs, PopFailure, FailureCount);
    LastChangeSums(r.catalogs, PopFailure, FailureCount, 1);
    LastChangeSums(r.catalogs, PopFailure, CatalogOptional, 0);
    LastChangeSums(r.catalogs, PopFailure, EntryCount, 0);
  }

  lemma PopEntryShrinks()
    ensures forall x, y | PopEntry(x) == Some(y) :: CatalogOptional(y) <= CatalogOptional(x)
  {
  }

  lemma DropEntryEffect(r: Report)
    requires DoneBefore(2, r)
    ensures DropEntry(r).None? <==> Left(2, r) == 0
    ensures DropEntry(r).Some? ==> DroppedOne(2, r, DropEntry(r).value)
  {
    LastChangeStops(r.catalogs, PopEntry, EntryCount);
    LastChangeSums(r.catalogs, PopEntry, EntryCount, 1);
    LastChangeSums(r.catalogs, PopEntry, FailureCount, 0);
    PopEntryShrinks();
    LastChangeShrinks(r.catalogs, PopEntry, CatalogOptional);
    assert Left(0, r) == 0;
  }

  lemma DropDetailEffect(r: Report)
    ensures DropDetail(r).None? <==> Left(3, r) == 0
    ensures DropDetail(r).Some? ==> DroppedOne(3, r, DropDetail(r).value)
  {
    LastChangeStops(r.sources, PopDetail, DetailCount);
    LastChangeSums(r.sources, PopDetail, DetailCount, 1);
  }

  lemma DropCatalogEffect(r: Report)
    requires DoneBefore(4, r)
    ensures DropCatalog(r).None? <==> Left(4, r) == 0
    ensures DropCatalog(r).Some? ==> DroppedOne(4, r, DropCatalog(r).value)
  {
    assert Left(0, r) == 0 && Left(1, r) == 0 && Left(2, r) == 0;
  }

  lemma DropEffect(k: Stage, r: Report)
    requires DoneBefore(k, r)
    ensures Drop(k, r).None? <==> Left(k, r) == 0
    ensures Drop(k, r).Some? ==> DroppedOne(k, r, Drop(k, r).value) && DoneBefore(k, Drop(k, r).value)
  {
    match k
    case 0 => DropOptionalEffect(r);
    case 1 => DropFailureEffect(r);
    case 2 => DropEntryEffect(r);
    case 3 => DropDetailEffect(r);
    case _ => DropCatalogEffect(r);
  }

  // ---- the reduction

  predicate Oversized(r: Report, measure: Measure) {
    measure(r).Some? && measure(r).value > MAX_SERIALIZED_OUTPUT_BYTES
  }

  function Verdict(r: Report, measure: Measure): Outcome {
    if measure(r).None? then MeasureFailed else if Oversized(r, measure) then TooLarge else Fits
  }

  function Weight(r: Report): nat { Left(0, r) + Left(1, r) + Left(2, r) + Left(3, r) + Left(4, r) }

  lemma DropLightens(k: Stage, r: Report)
    requires DoneBefore(k, r) && Drop(k, r).Some?
    ensures Weight(Drop(k, r).value) < Weight(r)
  {
    DropEffect(k, r);
  }

  /** What the five loops make of a report from stage `k` on: remove one thing at a time while it is too large,
    * and move on to the next stage only when the current one has nothing left. */
  function Reduced(k: nat, r: Report, measure: Measure): (Report, Outcome)
    requires k <= 5 && DoneBefore(k, r)
    decreases 5 - k, Weight(r)
  {
    if Verdict(r, measure) != TooLarge || k == 5 then (r, Verdict(r, measure))
    else
      DropEffect(k, r);
      match Drop(k, r)
      case None => Reduced(k + 1, r, measure)
      case Some(s) =>
        DropLightens(k, r);
        Reduced(k, s, measure)
  }

  /** One of the five loops. */
  method RunStage(k: Stage, report: Report, measure: Measure) returns (reduced: Report, outcome: Outcome)
    requires DoneBefore(k, report)
    ensures outcome == Verdict(reduced, measure)
    ensures outcome == TooLarge ==>
              DoneBefore(k + 1, reduced) && Reduced(k + 1, reduced, measure) == Reduced(k, report, measure)
    ensures outcome != TooLarge ==> Reduced(k, report, measure) == (reduced, outcome)
  {
    reduced := report;
    while true
      invariant DoneBefore(k, reduced) && Reduced(k, reduced, measure) == Reduced(k, report, measure)
      decreases Weight(reduced)
    {
      outcome := Verdict(reduced, measure);
      if outcome != TooLarge {
        break;
      }
      DropEffect(k, reduced);
      match Drop(k, reduced)
      case None => break;
      case Some(next) =>
        DropLightens(k, reduced);
        reduced := next;
    }
  }

  /** `enforce_serialized_output_limit`. */
  method EnforceLimit(report: Report, measure: Measure) returns (reduced: Report, outcome: Outcome)
    ensures (reduced, outcome) == Reduced(0, report, measure)
  {
    reduced := report;
    for k := 0 to 5
      invariant DoneBefore(k, reduced) && Reduced(k, reduced, measure) == Reduced(0, report, measure)
    {
      reduced, outcome := RunStage(k, reduced, measure);
      if outcome != TooLarge {
        return;
      }
    }
    outcome := Verdict(reduced, measure);
  }

  // ---- what the reduction guarantees

  /** Nothing is lost without being counted, and the summary is flagged exactly when something is removed. */
  lemma {:induction false} EverythingIsCounted(k: nat, r: Report, measure: Measure)
    requires k <= 5 && DoneBefore(k, r)
    ensures var s := Reduced(k, r, measure).0;
            && (forall j: Stage :: Omitted(j, s.summary) + Left(j, s) == Omitted(j, r.summary) + Left(j, r))
            && (forall j: Stage :: Omitted(j, r.summary) <= Omitted(j, s.summary))
            && (if s == r then true
                else s.summary.truncated && exists j: Stage :: Omitted(j, r.summary) < Omitted(j, s.summary))
    decreases 5 - k, Weight(r)
  {
    if Verdict(r, measure) == TooLarge && k < 5 {
      DropEffect(k, r);
      if Drop(k, r).Some? {
        var s := Drop(k, r).value;
        DropLightens(k, r);
        EverythingIsCounted(k, s, measure);
        assert Omitted(k, r.summary) < Omitted(k, s.summary);
      } else {
        EverythingIsCounted(k + 1, r, measure);
      }
    }
  }

  /** Success means the report fits; giving up means that nothing is left to drop and it still does not. */
  lemma {:induction false} OutcomeIsTrue(k: nat, r: Report, measure: Measure)
    requires k <= 5 && DoneBefore(k, r)
    ensures var (s, outcome) := Reduced(k, r, measure);
            && (outcome == Fits <==> measure(s).Some? && measure(s).value <= 524_288)
            && (outcome == MeasureFailed <==> measure(s).None?)
            && (outcome == TooLarge ==> forall j: Stage :: Left(j, s) == 0)
    decreases 5 - k, Weight(r)
  {
    if Verdict(r, measure) == TooLarge && k < 5 {
      DropEffect(k, r);
      if Drop(k, r).Some? {
        DropLightens(k, r);
        OutcomeIsTrue(k, Drop(k, r).value, measure);
      } else {
        OutcomeIsTrue(k + 1, r, measure);
      }
    }
  }

  /** A stage removes something only when every earlier stage has nothing left. */
  lemma {:induction false} StagesInOrder(k: nat, r: Report, measure: Measure, j: Stage)
    requires k <= 5 && DoneBefore(k, r)
    ensures var s := Reduced(k, r, measure).0;
            DoneBefore(k, s) && (Omitted(j, r.summary) < Omitted(j, s.summary) ==> k <= j && DoneBefore(j, s))
    decreases 5 - k, Weight(r)
  {
    if Verdict(r, measure) == TooLarge && k < 5 {
      DropEffect(k, r);
      if Drop(k, r).Some? {
        DropLightens(k, r);
        StagesInOrder(k, Drop(k, r).value, measure, j);
      } else {
        StagesInOrder(k + 1, r, measure, j);
      }
    }
  }

  /** The last thing removed had to go: the report that still had it was too large. */
  lemma {:induction false} NothingIsRemovedInVain(k: nat, r: Report, measure: Measure)
      returns (j: Stage, before: Report)
    requires k <= 5 && DoneBefore(k, r) && Reduced(k, r, measure).0 != r
    ensures Oversized(before, measure) && DoneBefore(j, before) && Drop(j, before) == Some(Reduced(k, r, measure).0)
    decreases 5 - k, Weight(r)
  {
    DropEffect(k, r);
    if Drop(k, r).Some? {
      var s := Drop(k, r).value;
      DropLightens(k, r);
      if Reduced(k, s, measure).0 == s {
        j, before := k, r;
      } else {
        j, before := NothingIsRemovedInVain(k, s, measure);
      }
    } else {
      j, before := NothingIsRemovedInVain(k + 1, r, measure);
    }
  }

  // ---- what survives

  predicate Kept<T(==)>(before: Option<T>, after: Option<T>) { after == before || after.None? }

  predicate EntryKept(e: Entry, f: Entry) {
    f.id == e.id && Kept(e.data, f.data) && Kept(e.metadata, f.metadata) && Kept(e.trust, f.trust)
  }

  /** Entries and failures are prefixes of the originals; single values inside entries may be gone. */
  predicate CatalogKept(c: Catalog, d: Catalog) {
    && d.id == c.id && d.failures <= c.failures && |d.entries| <= |c.entries|
    && (forall i | 0 <= i < |d.entries| :: EntryKept(c.entries[i], d.entries[i]))
    && (c.host.None? <==> d.host.None?)
    && (c.host.Some? ==> d.host.value.id == c.host.value.id && Kept(c.host.value.trust, d.host.value.trust))
  }

  predicate SourceKept(s: Source, t: Source) {
    t.id == s.id && t.failures <= s.failures && t.candidates <= s.candidates
  }

  predicate ReportKept(r: Report, s: Report) {
    && |s.catalogs| <= |r.catalogs| && |s.sources| == |r.sources|
    && (forall i | 0 <= i < |s.catalogs| :: CatalogKept(r.catalogs[i], s.catalogs[i]))
    && (forall i | 0 <= i < |s.sources| :: SourceKept(r.sources[i], s.sources[i]))
  }

  /** Things go from the end of a list backwards: an element that lost some has only emptied ones after it. */
  ghost predicate LaterFirst<T>(before: seq<T>, after: seq<T>, weight: T -> nat) {
    |after| <= |before| &&
    forall i, j | 0 <= i < j < |after| && weight(after[i]) < weight(before[i]) :: weight(after[j]) == 0
  }

  /** Inside an entry `data` goes before `metadata`, and that before `trust`. */
  predicate EntryOrder(e: Entry, f: Entry) {
    (f.metadata != e.metadata ==> f.data.None?) && (f.trust != e.trust ==> f.data.None? && f.metadata.None?)
  }

  /** Inside a catalog the value at the host goes first, then those of later entries before those of earlier ones. */
  ghost predicate CatalogOrder(c: Catalog, d: Catalog) {
    && LaterFirst(c.entries, d.entries, EntryOptional)
    && (forall i | 0 <= i < |d.entries| :: EntryOrder(c.entries[i], d.entries[i]))
    && (forall i | 0 <= i < |d.entries| && EntryOptional(d.entries[i]) < EntryOptional(c.entries[i]) ::
          HostOptional(d) == 0)
  }

  /** Inside a source the failures go before the candidates. */
  predicate SourceOrder(s: Source, t: Source) { |t.candidates| < |s.candidates| ==> t.failures == [] }

  ghost predicate CatalogsInOrder(before: seq<Catalog>, after: seq<Catalog>) {
    && LaterFirst(before, after, CatalogOptional)
    && LaterFirst(before, after, FailureCount)
    && LaterFirst(before, after, EntryCount)
    && forall i | 0 <= i < |after| :: CatalogOrder(before[i], after[i])
  }

  ghost predicate SourcesInOrder(before: seq<Source>, after: seq<Source>) {
    LaterFirst(before, after, DetailCount) && forall i | 0 <= i < |after| :: SourceOrder(before[i], after[i])
  }

  /** Of every kind of thing, what comes later in the report has gone first. */
  ghost predicate InOrder(r: Report, s: Report) {
    CatalogsInOrder(r.catalogs, s.catalogs) && SourcesInOrder(r.sources, s.sources)
  }

  /** The one element that changed is the last that could. */
  lemma {:induction false} LastChangeAt<T>(items: seq<T>, change: T -> Option<T>) returns (m: nat)
    requires LastChange(items, change).Some?
    ensures m < |items| && change(items[m]).Some?
    ensures LastChange(items, change).value == items[m := change(items[m]).value]
    ensures forall i | m < i < |items| :: change(items[i]).None?
  {
    var n := |items| - 1;
    var front, last := items[..n], items[n];
    if change(last).Some? {
      m := n;
      assert front + [change(last).value] == items[n := change(last).value];
    } else {
      m := LastChangeAt(front, change);
      assert front[m := change(front[m]).value] + [last] == items[m := change(items[m]).value];
    }
  }

  lemma StripEntryKeeps(e: Entry)
    requires StripEntry(e).Some?
    ensures EntryKept(e, StripEntry(e).value)
  {
  }

  lemma StripCatalogKeeps(c: Catalog)
    requires StripCatalog(c).Some?
    ensures CatalogKept(c, StripCatalog(c).value) && |StripCatalog(c).value.entries| == |c.entries|
  {
    if !(c.host.Some? && c.host.value.trust.Some?) {
      var m := LastChangeAt(c.entries, StripEntry);
      StripEntryKeeps(c.entries[m]);
    }
  }

  lemma PopsKeep(c: Catalog, src: Source)
    ensures PopFailure(c).Some? ==> CatalogKept(c, PopFailure(c).value)
    ensures PopEntry(c).Some? ==> CatalogKept(c, PopEntry(c).value)
    ensures PopDetail(src).Some? ==> SourceKept(src, PopDetail(src).value)
  {
  }

  lemma OneCatalogChanged(r: Report, s: Report, m: nat, d: Catalog)
    requires m < |r.catalogs| && s.catalogs == r.catalogs[m := d] && s.sources == r.sources
    requires CatalogKept(r.catalogs[m], d)
    ensures ReportKept(r, s)
  {
  }

  lemma DropKeeps(k: Stage, r: Report)
    requires Drop(k, r).Some?
    ensures ReportKept(r, Drop(k, r).value)
  {
    var s := Drop(k, r).value;
    var none := Source(0, [], []);
    match k
    case 0 =>
      var m := LastChangeAt(r.catalogs, StripCatalog);
      StripCatalogKeeps(r.catalogs[m]);
      OneCatalogChanged(r, s, m, s.catalogs[m]);
    case 1 =>
      var m := LastChangeAt(r.catalogs, PopFailure);
      PopsKeep(r.catalogs[m], none);
      OneCatalogChanged(r, s, m, s.catalogs[m]);
    case 2 =>
      var m := LastChangeAt(r.catalogs, PopEntry);
      PopsKeep(r.catalogs[m], none);
      OneCatalogChanged(r, s, m, s.catalogs[m]);
    case 3 =>
      var m := LastChangeAt(r.sources, PopDetail);
      PopsKeep(Catalog(0, None, [], []), r.sources[m]);
    case _ =>
  }

  lemma CatalogKeptTwice(a: Catalog, b: Catalog, c: Catalog)
    requires CatalogKept(a, b) && CatalogKept(b, c)
    ensures CatalogKept(a, c)
  {
  }

  lemma ReportKeptTwice(a: Report, b: Report, c: Report)
    requires ReportKept(a, b) && ReportKept(b, c)
    ensures ReportKept(a, c)
  {
    forall i | 0 <= i < |c.catalogs|
      ensures CatalogKept(a.catalogs[i], c.catalogs[i])
    {
      CatalogKeptTwice(a.catalogs[i], b.catalogs[i], c.catalogs[i]);
    }
  }

  /** A removal from the last element that has something left keeps the order. */
  lemma RemovalKeepsOrder<T(!new)>(before: seq<T>, items: seq<T>, change: T -> Option<T>, weight: T -> nat)
    requires LaterFirst(before, items, weight) && LastChange(items, change).Some?
    requires forall x :: change(x).None? ==> weight(x) == 0
    requires forall x, y | change(x) == Some(y) :: weight(y) <= weight(x)
    ensures LaterFirst(before, LastChange(items, change).value, weight)
  {
    var m := LastChangeAt(items, change);
  }

  /** So does a change that leaves these weights as they are. */
  lemma OtherKeepsOrder<T(!new)>(before: seq<T>, items: seq<T>, change: T -> Option<T>, weight: T -> nat)
    requires LaterFirst(before, items, weight) && LastChange(items, change).Some?
    requires forall x, y | change(x) == Some(y) :: weight(y) == weight(x)
    ensures LaterFirst(before, LastChange(items, change).value, weight)
  {
    var m := LastChangeAt(items, change);
  }

  lemma {:induction false} NothingLeftAnywhere<T>(items: seq<T>, weight: T -> nat)
    requires Sum(items, weight) == 0
    ensures forall i | 0 <= i < |items| :: weight(items[i]) == 0
  {
    if items != [] {
      NothingLeftAnywhere(items[..|items| - 1], weight);
      forall i | 0 <= i < |items|
        ensures weight(items[i]) == 0
      {
        assert i < |items| - 1 ==> items[i] == items[..|items| - 1][i];
      }
    }
  }

  lemma StripKeepsEntryOrder(e: Entry, f: Entry)
    requires EntryOrder(e, f) && StripEntry(f).Some?
    ensures EntryOrder(e, StripEntry(f).value)
  {
  }

  lemma StripKeepsCatalogOrder(c: Catalog, d: Catalog)
    requires CatalogOrder(c, d) && StripCatalog(d).Some?
    ensures CatalogOrder(c, StripCatalog(d).value)
  {
    if !(d.host.Some? && d.host.value.trust.Some?) {
      var m := LastChangeAt(d.entries, StripEntry);
      StripEntryCounts();
      RemovalKeepsOrder(c.entries, d.entries, StripEntry, EntryOptional);
      StripKeepsEntryOrder(c.entries[m], d.entries[m]);
    }
  }

  lemma OptionalKeepsOrder(before: seq<Catalog>, items: seq<Catalog>)
    requires CatalogsInOrder(before, items) && LastChange(items, StripCatalog).Some?
    ensures CatalogsInOrder(before, LastChange(items, StripCatalog).value)
  {
    StripCatalogCounts();
    RemovalKeepsOrder(before, items, StripCatalog, CatalogOptional);
    OtherKeepsOrder(before, items, StripCatalog, FailureCount);
    OtherKeepsOrder(before, items, StripCatalog, EntryCount);
    var m := LastChangeAt(items, StripCatalog);
    StripKeepsCatalogOrder(before[m], items[m]);
  }

  lemma FailuresKeepOrder(before: seq<Catalog>, items: seq<Catalog>)
    requires CatalogsInOrder(before, items) && LastChange(items, PopFailure).Some?
    ensures CatalogsInOrder(before, LastChange(items, PopFailure).value)
  {
    OtherKeepsOrder(before, items, PopFailure, CatalogOptional);
    RemovalKeepsOrder(before, items, PopFailure, FailureCount);
    OtherKeepsOrder(before, items, PopFailure, EntryCount);
    var m := LastChangeAt(items, PopFailure);
    assert CatalogOrder(before[m], items[m]);
  }

  lemma PopKeepsCatalogOrder(c: Catalog, d: Catalog)
    requires CatalogOrder(c, d) && d.entries != []
    ensures CatalogOrder(c, PopEntry(d).value)
  {
  }

  lemma EntriesKeepOrder(before: seq<Catalog>, items: seq<Catalog>)
    requires CatalogsInOrder(before, items) && LastChange(items, PopEntry).Some?
    requires Sum(LastChange(items, PopEntry).value, CatalogOptional) == 0
    ensures CatalogsInOrder(before, LastChange(items, PopEntry).value)
  {
    NothingLeftAnywhere(LastChange(items, PopEntry).value, CatalogOptional);
    OtherKeepsOrder(before, items, PopEntry, FailureCount);
    RemovalKeepsOrder(before, items, PopEntry, EntryCount);
    var m := LastChangeAt(items, PopEntry);
    PopKeepsCatalogOrder(before[m], items[m]);
  }

  lemma DetailsKeepOrder(before: seq<Source>, items: seq<Source>)
    requires SourcesInOrder(before, items) && LastChange(items, PopDetail).Some?
    ensures SourcesInOrder(before, LastChange(items, PopDetail).value)
  {
    RemovalKeepsOrder(before, items, PopDetail, DetailCount);
    var m := LastChangeAt(items, PopDetail);
    assert SourceOrder(before[m], items[m]);
  }

  /** A step keeps the order, seen from the original report. */
  lemma DropKeepsOrder(k: Stage, o: Report, r: Report)
    requires InOrder(o, r) && DoneBefore(k, r) && Drop(k, r).Some?
    ensures InOrder(o, Drop(k, r).value)
  {
    DropEffect(k, r);
    match k
    case 0 => OptionalKeepsOrder(o.catalogs, r.catalogs);
    case 1 => FailuresKeepOrder(o.catalogs, r.catalogs);
    case 2 =>
      assert Left(0, Drop(k, r).value) == 0;
      EntriesKeepOrder(o.catalogs, r.catalogs);
    case 3 => DetailsKeepOrder(o.sources, r.sources);
    case _ =>
  }

  /** What comes out is the original with tails cut off and optional values blanked, later ones first. */
  lemma {:induction false} SurvivorsAreOriginal(o: Report, k: nat, r: Report, measure: Measure)
    requires k <= 5 && DoneBefore(k, r) && ReportKept(o, r) && InOrder(o, r)
    ensures ReportKept(o, Reduced(k, r, measure).0) && InOrder(o, Reduced(k, r, measure).0)
    decreases 5 - k, Weight(r)
  {
    if Verdict(r, measure) == TooLarge && k < 5 {
      DropEffect(k, r);
      if Drop(k, r).Some? {
        DropLightens(k, r);
        DropKeeps(k, r);
        ReportKeptTwice(o, r, Drop(k, r).value);
        DropKeepsOrder(k, o, r);
        SurvivorsAreOriginal(o, k, Drop(k, r).value, measure);
      } else {
        SurvivorsAreOriginal(o, k + 1, r, measure);
      }
    }
  }

  lemma NothingGoneYet(r: Report)
    ensures ReportKept(r, r) && InOrder(r, r)
  {
  }

  /** What the whole reduction keeps of a report. */
  lemma ReducedIsOriginal(r: Report, measure: Measure)
    ensures ReportKept(r, Reduced(0, r, measure).0) && InOrder(r, Reduced(0, r, measure).0)
  {
    NothingGoneYet(r);
    SurvivorsAreOriginal(r, 0, r, measure);
  }
}

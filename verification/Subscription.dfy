/**
 A subscriber as a state machine: arm the watch, load the cursor, read and deliver
 page after page, save the cursor, park; with crashes anywhere, cursor writes that
 land late, twice or never, and appends by others between any two steps.
 */
module Subscription {
  import opened Bytes
  import opened Tuples
  import opened Types
  import opened Ledger
  import opened Reading
  import opened Matching
  import opened Decisions
  import opened SubscribeMethods
  import Encoding
  import Kv
  import Fdb
  import ReadMethods

  /** What the subscriber follows, and under which cursor name. */
  datatype Topic = Topic(ns: Bytes, name: Bytes, q: Query)

  datatype Phase =
    | Down
    | Armed(armedAt: nat, seen: Option<Bytes>)
    | Catching(armedAt: nat, seen: Option<Bytes>, bound: Option<Versionstamp>)
    | Handling(armedAt: nat, seen: Option<Bytes>, bound: Option<Versionstamp>, page: seq<StoredEvent>, handled: nat)
    | Parked(armedAt: nat, seen: Option<Bytes>)

  /** `delivered` is everything ever given to the handler, over all restarts;
      `saved` are the positions that some `set_cursor` was called with. */
  datatype State = State(ledger: seq<Record>, phase: Phase, delivered: seq<StoredEvent>, saved: set<Versionstamp>)

  // -------------------------------------------------------------------------
  // Steps
  // -------------------------------------------------------------------------

  ghost predicate Init(t: Topic, s: State) {
    && Ledgered(s.ledger) && s.phase.Down? && s.delivered == [] && s.saved == {}
    && forall i :: 0 <= i < |s.ledger| ==> !SetsCursor(s.ledger[i], t.ns, t.name)
  }

  ghost predicate Commits(s: State, s': State, rec: Record) {
    && Ledgered(s.ledger + [rec])
    && s' == s.(ledger := s.ledger + [rec])
  }

  /** Anyone appends, or moves another cursor. */
  ghost predicate OtherCommit(t: Topic, s: State, s': State, rec: Record) {
    Commits(s, s', rec) && !SetsCursor(rec, t.ns, t.name)
  }

  /** A cursor write takes effect, however long after its call. */
  ghost predicate CursorLands(t: Topic, s: State, s': State, rec: Record) {
    Commits(s, s', rec) && SetsCursor(rec, t.ns, t.name) && rec.position in s.saved
  }

  ghost predicate Arm(t: Topic, s: State, s': State, at: nat) {
    && s.phase.Down? && at <= |s.ledger|
    && s' == s.(phase := Armed(at, SentinelAt(s.ledger[..at], t.ns)))
  }

  ghost predicate LoadCursor(t: Topic, s: State, s': State, at: nat) {
    && s.phase.Armed? && s.phase.armedAt <= at <= |s.ledger|
    && s' == s.(phase := Catching(s.phase.armedAt, s.phase.seen, CursorAt(s.ledger[..at], t.ns, t.name)))
  }

  function PageAt(t: Topic, ledger: seq<Record>, at: nat, limit: nat, bound: Option<Versionstamp>): seq<StoredEvent>
    requires at <= |ledger|
  {
    ReadSpec(LogOf(ledger[..at], t.ns), t.q, ReadOptions(limit, bound, false))
  }

  /** A page is what a read promises at a version not older than the one where the watch
      was armed; the subscriber parks when it is empty. */
  ghost predicate ReadPage(t: Topic, s: State, s': State, at: nat, limit: nat, page: seq<StoredEvent>) {
    && s.phase.Catching? && s.phase.armedAt <= at <= |s.ledger|
    && ReadPromise(s.ledger, at, t.ns, t.q, ReadOptions(limit, s.phase.bound, false), page)
    && s' == s.(phase := if page == [] then Parked(s.phase.armedAt, s.phase.seen)
                         else Handling(s.phase.armedAt, s.phase.seen, s.phase.bound, page, 0))
  }

  ghost predicate Deliver(s: State, s': State) {
    && s.phase.Handling? && s.phase.handled < |s.phase.page|
    && s' == s.(delivered := s.delivered + [s.phase.page[s.phase.handled]],
                phase := s.phase.(handled := s.phase.handled + 1))
  }

  ghost predicate Save(s: State, s': State) {
    && s.phase.Handling? && s.phase.handled == |s.phase.page| > 0
    && var last := s.phase.page[|s.phase.page| - 1].position;
       s' == s.(saved := s.saved + {last}, phase := Catching(s.phase.armedAt, s.phase.seen, Some(last)))
  }

  /** The watch fires, errs or is dropped, or the subscriber crashes: it starts over. */
  ghost predicate StartOver(s: State, s': State) {
    s' == s.(phase := Down)
  }

  ghost predicate Next(t: Topic, s: State, s': State) {
    || (exists rec :: OtherCommit(t, s, s', rec) || CursorLands(t, s, s', rec))
    || (exists at :: Arm(t, s, s', at) || LoadCursor(t, s, s', at))
    || (exists at, limit, page :: ReadPage(t, s, s', at, limit, page))
    || Deliver(s, s') || Save(s, s') || StartOver(s, s')
  }

  ghost predicate StepAt(t: Topic, run: seq<State>, i: nat)
    requires i + 1 < |run|
  {
    Next(t, run[i], run[i + 1])
  }

  ghost predicate Run(t: Topic, run: seq<State>) {
    && run != [] && Init(t, run[0])
    && forall i :: 0 <= i < |run| - 1 ==> StepAt(t, run, i)
  }

  // -------------------------------------------------------------------------
  // Invariant
  // -------------------------------------------------------------------------

  ghost predicate Followed(t: Topic, ledger: seq<Record>, se: StoredEvent) {
    se in LogOf(ledger, t.ns) && MatchesQuery(se.event, t.q)
  }

  /** Everything up to the bound was delivered, and the bound is a position of the log. */
  ghost predicate Covered(t: Topic, ledger: seq<Record>, delivered: seq<StoredEvent>, bound: Option<Versionstamp>) {
    && (bound.Some? ==> IsLogged(ledger, t.ns, bound.value))
    && forall se :: Followed(t, ledger, se) && !After(se.position, bound) ==> se in delivered
  }

  /** Only wanted events were delivered, and each only when all earlier ones had been. */
  ghost predicate GapFree(t: Topic, ledger: seq<Record>, delivered: seq<StoredEvent>) {
    && (forall se :: se in delivered ==> Followed(t, ledger, se))
    && (forall i, se :: 0 <= i < |delivered| && Followed(t, ledger, se) && Less(se.position, delivered[i].position)
          ==> se in delivered[..i])
  }

  ghost predicate CursorsSaved(t: Topic, ledger: seq<Record>, saved: set<Versionstamp>) {
    forall i :: 0 <= i < |ledger| && SetsCursor(ledger[i], t.ns, t.name) ==> ledger[i].position in saved
  }

  ghost predicate WatchHolds(t: Topic, ledger: seq<Record>, armedAt: nat, seen: Option<Bytes>) {
    armedAt <= |ledger| && seen == SentinelAt(ledger[..armedAt], t.ns)
  }

  ghost predicate AllDelivered(t: Topic, ledger: seq<Record>, delivered: seq<StoredEvent>) {
    forall se :: Followed(t, ledger, se) ==> se in delivered
  }

  ghost predicate PhaseInv(t: Topic, ledger: seq<Record>, delivered: seq<StoredEvent>, phase: Phase) {
    && (!phase.Down? ==> WatchHolds(t, ledger, phase.armedAt, phase.seen))
    && (phase.Catching? || phase.Handling? ==> Covered(t, ledger, delivered, phase.bound))
    && (phase.Handling? ==>
          && 0 < |phase.page| && phase.handled <= |phase.page|
          && phase.page <= Selected(LogOf(ledger, t.ns), t.q, phase.bound)
          && forall i :: 0 <= i < phase.handled ==> phase.page[i] in delivered)
    && (phase.Parked? ==> AllDelivered(t, ledger[..phase.armedAt], delivered))
  }

  ghost predicate Inv(t: Topic, s: State) {
    && Ledgered(s.ledger)
    && GapFree(t, s.ledger, s.delivered)
    && CursorsSaved(t, s.ledger, s.saved)
    && (forall p :: p in s.saved ==> Covered(t, s.ledger, s.delivered, Some(p)))
    && PhaseInv(t, s.ledger, s.delivered, s.phase)
  }

  // -------------------------------------------------------------------------
  // Commits by others keep the invariant
  // -------------------------------------------------------------------------

  lemma {:induction false} OneMoreRecord(ledger: seq<Record>, rec: Record, ns: Bytes)
    ensures LogOf(ledger + [rec], ns) == LogOf(ledger, ns) + RecordEvents(rec, ns)
  {
    assert (ledger + [rec])[..|ledger|] == ledger;
  }

  /** A wanted event is old, or lies after everything logged before. */
  lemma {:induction false} OldOrLater(t: Topic, ledger: seq<Record>, rec: Record, se: StoredEvent, p: Bytes)
    requires Ledgered(ledger + [rec]) && Followed(t, ledger + [rec], se) && IsLogged(ledger, t.ns, p)
    ensures Followed(t, ledger, se) || Less(p, se.position)
  {
    OneMoreRecord(ledger, rec, t.ns);
    if se !in LogOf(ledger, t.ns) {
      assert (ledger + [rec])[|ledger|] == rec;
      var i :| 0 <= i < |rec.events| && Batch(rec.events, rec.version)[i] == se;
      LedgeredLast(ledger, rec);
      LogBelow(ledger, t.ns, rec.version, i);
    }
  }

  lemma {:induction false} LedgeredLast(ledger: seq<Record>, rec: Record)
    requires Ledgered(ledger + [rec])
    ensures Ledgered(ledger) && ValidRecord(rec) && forall i :: 0 <= i < |ledger| ==> ledger[i].version < rec.version
  {
    var all := ledger + [rec];
    assert all[|ledger|] == rec && forall i :: 0 <= i < |ledger| ==> all[i] == ledger[i];
  }

  lemma {:induction false} CoveredStays(t: Topic, ledger: seq<Record>, rec: Record, delivered: seq<StoredEvent>,
        bound: Option<Versionstamp>)
    requires Ledgered(ledger + [rec]) && Covered(t, ledger, delivered, bound)
    ensures Covered(t, ledger + [rec], delivered, bound)
  {
    if bound.Some? {
      var all := ledger + [rec];
      OneMoreRecord(ledger, rec, t.ns);
      var se0 :| se0 in LogOf(ledger, t.ns) && se0.position == bound.value;
      assert se0 in LogOf(all, t.ns);
      forall se | Followed(t, all, se) && !After(se.position, bound) ensures se in delivered {
        OldOrLater(t, ledger, rec, se, bound.value);
      }
    }
  }

  lemma {:induction false} GapFreeStays(t: Topic, ledger: seq<Record>, rec: Record, delivered: seq<StoredEvent>)
    requires Ledgered(ledger + [rec]) && GapFree(t, ledger, delivered)
    ensures GapFree(t, ledger + [rec], delivered)
  {
    var all := ledger + [rec];
    OneMoreRecord(ledger, rec, t.ns);
    forall i, se | 0 <= i < |delivered| && Followed(t, all, se) && Less(se.position, delivered[i].position)
      ensures se in delivered[..i]
    {
      assert delivered[i] in delivered && Followed(t, ledger, delivered[i]);
      OldOrLater(t, ledger, rec, se, delivered[i].position);
      LessAsymmetric(se.position, delivered[i].position);
    }
  }

  lemma {:induction false} PhaseStays(t: Topic, ledger: seq<Record>, rec: Record, delivered: seq<StoredEvent>,
        phase: Phase)
    requires Ledgered(ledger + [rec]) && PhaseInv(t, ledger, delivered, phase)
    ensures PhaseInv(t, ledger + [rec], delivered, phase)
  {
    var all := ledger + [rec];
    if !phase.Down? {
      assert all[..phase.armedAt] == ledger[..phase.armedAt];
    }
    if phase.Catching? || phase.Handling? {
      CoveredStays(t, ledger, rec, delivered, phase.bound);
    }
    if phase.Handling? {
      assert all[..|ledger|] == ledger;
      SelectedPrefix(all, |ledger|, t.ns, t.q, phase.bound);
      PrefixOfPrefix(phase.page, Selected(LogOf(ledger, t.ns), t.q, phase.bound),
          Selected(LogOf(all, t.ns), t.q, phase.bound));
    }
  }

  lemma {:induction false} CommitKeepsInv(t: Topic, s: State, s': State, rec: Record)
    requires Inv(t, s) && (OtherCommit(t, s, s', rec) || CursorLands(t, s, s', rec))
    ensures Inv(t, s')
  {
    GapFreeStays(t, s.ledger, rec, s.delivered);
    PhaseStays(t, s.ledger, rec, s.delivered, s.phase);
    forall p | p in s.saved ensures Covered(t, s'.ledger, s.delivered, Some(p)) {
      CoveredStays(t, s.ledger, rec, s.delivered, Some(p));
    }
  }

  // -------------------------------------------------------------------------
  // The subscriber's own steps keep the invariant
  // -------------------------------------------------------------------------

  /** A stored cursor is a saved position. */
  lemma {:induction false} CursorSaved(t: Topic, ledger: seq<Record>, saved: set<Versionstamp>)
    requires CursorsSaved(t, ledger, saved)
    ensures CursorAt(ledger, t.ns, t.name).Some? ==> CursorAt(ledger, t.ns, t.name).value in saved
  {
    if ledger != [] && !SetsCursor(ledger[|ledger| - 1], t.ns, t.name) {
      CursorSaved(t, ledger[..|ledger| - 1], saved);
    }
  }

  lemma {:induction false} LoadKeepsInv(t: Topic, s: State, s': State, at: nat)
    requires Inv(t, s) && LoadCursor(t, s, s', at)
    ensures Inv(t, s')
  {
    CursorSaved(t, s.ledger[..at], s.saved);
    if s'.phase.bound.None? {
      assert Covered(t, s.ledger, s.delivered, None);
    }
  }

  /** An empty page: what the log had when the watch was armed has been delivered. */
  lemma {:induction false} NothingLeft(t: Topic, ledger: seq<Record>, delivered: seq<StoredEvent>,
        bound: Option<Versionstamp>, armedAt: nat, at: nat, limit: nat)
    requires armedAt <= at <= |ledger| && Covered(t, ledger, delivered, bound)
    requires PageAt(t, ledger, at, limit, bound) == []
    ensures AllDelivered(t, ledger[..armedAt], delivered)
  {
    forall se | Followed(t, ledger[..armedAt], se) ensures se in delivered {
      EarlierLog(ledger, armedAt, at, t.ns, se);
      SelectedHas(LogOf(ledger[..at], t.ns), t.q, bound, se);
    }
  }

  lemma {:induction false} EarlierLog(ledger: seq<Record>, armedAt: nat, at: nat, ns: Bytes, se: StoredEvent)
    requires armedAt <= at <= |ledger| && se in LogOf(ledger[..armedAt], ns)
    ensures se in LogOf(ledger, ns) && se in LogOf(ledger[..at], ns)
  {
    LogHasPrefix(ledger, armedAt, ns, se);
    assert ledger[..at][..armedAt] == ledger[..armedAt];
    LogHasPrefix(ledger[..at], armedAt, ns, se);
  }

  lemma {:induction false} ReadKeepsInv(t: Topic, s: State, s': State, at: nat, limit: nat, page: seq<StoredEvent>)
    requires Inv(t, s) && ReadPage(t, s, s', at, limit, page) && TypesApart(s.ledger, t.ns, t.q)
    ensures Inv(t, s')
  {
    var bound := s.phase.bound;
    PromiseKept(s.ledger, at, t.ns, t.q, ReadOptions(limit, bound, false), page);
    if page == [] {
      NothingLeft(t, s.ledger, s.delivered, bound, s.phase.armedAt, at, limit);
    } else {
      var there := Selected(LogOf(s.ledger[..at], t.ns), t.q, bound);
      CutPrefix(there, limit);
      SelectedPrefix(s.ledger, at, t.ns, t.q, bound);
      PrefixOfPrefix(page, there, Selected(LogOf(s.ledger, t.ns), t.q, bound));
    }
  }

  /** In an ordered list, what lies before the k-th element is one of the first k. */
  lemma {:induction false} AmongFirst(all: seq<StoredEvent>, k: nat, se: StoredEvent) returns (i: nat)
    requires StrictlySorted(Positions(all)) && k < |all|
    requires se in all && Less(se.position, all[k].position)
    ensures i < k && all[i] == se
  {
    i :| 0 <= i < |all| && all[i] == se;
    LessAsymmetric(se.position, all[k].position);
    assert Positions(all)[i] == se.position && Positions(all)[k] == all[k].position;
  }

  /** Whatever is wanted before the page's k-th event was delivered before it. */
  lemma {:induction false} EarlierDelivered(t: Topic, ledger: seq<Record>, delivered: seq<StoredEvent>,
        bound: Option<Versionstamp>, page: seq<StoredEvent>, k: nat, se: StoredEvent)
    requires Ledgered(ledger) && Covered(t, ledger, delivered, bound)
    requires page <= Selected(LogOf(ledger, t.ns), t.q, bound) && k < |page|
    requires forall i :: 0 <= i < k ==> page[i] in delivered
    requires Followed(t, ledger, se) && Less(se.position, page[k].position)
    ensures se in delivered
  {
    if After(se.position, bound) {
      SelectedHas(LogOf(ledger, t.ns), t.q, bound, se);
      SelectedPositionsSorted(ledger, t.ns, t.q, bound);
      var i := AmongFirst(Selected(LogOf(ledger, t.ns), t.q, bound), k, se);
      assert page[i] == se;
    }
  }

  lemma {:induction false} CoveredMore(t: Topic, ledger: seq<Record>, delivered: seq<StoredEvent>,
        more: seq<StoredEvent>, bound: Option<Versionstamp>)
    requires Covered(t, ledger, delivered, bound) && forall se :: se in delivered ==> se in more
    ensures Covered(t, ledger, more, bound)
  {
  }

  lemma {:induction false} GapFreeMore(t: Topic, ledger: seq<Record>, delivered: seq<StoredEvent>, next: StoredEvent)
    requires GapFree(t, ledger, delivered) && Followed(t, ledger, next)
    requires forall se :: Followed(t, ledger, se) && Less(se.position, next.position) ==> se in delivered
    ensures GapFree(t, ledger, delivered + [next])
  {
    var more := delivered + [next];
    forall i, se | 0 <= i < |more| && Followed(t, ledger, se) && Less(se.position, more[i].position)
      ensures se in more[..i]
    {
      if i < |delivered| {
        assert more[i] == delivered[i] && more[..i] == delivered[..i];
      } else {
        assert more[..i] == delivered;
      }
    }
  }

  /** Delivering the next event of a page leaves no gap. */
  lemma {:induction false} DeliverNext(t: Topic, ledger: seq<Record>, delivered: seq<StoredEvent>,
        bound: Option<Versionstamp>, page: seq<StoredEvent>, k: nat)
    requires Ledgered(ledger) && GapFree(t, ledger, delivered) && Covered(t, ledger, delivered, bound)
    requires page <= Selected(LogOf(ledger, t.ns), t.q, bound) && k < |page|
    requires forall i :: 0 <= i < k ==> page[i] in delivered
    ensures GapFree(t, ledger, delivered + [page[k]])
  {
    var all := Selected(LogOf(ledger, t.ns), t.q, bound);
    assert page[k] == all[k];
    SelectedHas(LogOf(ledger, t.ns), t.q, bound, all[k]);
    forall se | Followed(t, ledger, se) && Less(se.position, page[k].position) ensures se in delivered {
      EarlierDelivered(t, ledger, delivered, bound, page, k, se);
    }
    GapFreeMore(t, ledger, delivered, page[k]);
  }

  lemma {:induction false} HandledMore(t: Topic, ledger: seq<Record>, delivered: seq<StoredEvent>, phase: Phase)
    requires PhaseInv(t, ledger, delivered, phase) && phase.Handling? && phase.handled < |phase.page|
    ensures PhaseInv(t, ledger, delivered + [phase.page[phase.handled]], phase.(handled := phase.handled + 1))
  {
    CoveredMore(t, ledger, delivered, delivered + [phase.page[phase.handled]], phase.bound);
  }

  lemma {:induction false} DeliverKeepsInv(t: Topic, s: State, s': State)
    requires Inv(t, s) && Deliver(s, s')
    ensures Inv(t, s')
  {
    DeliverNext(t, s.ledger, s.delivered, s.phase.bound, s.phase.page, s.phase.handled);
    HandledMore(t, s.ledger, s.delivered, s.phase);
    forall p | p in s.saved ensures Covered(t, s.ledger, s'.delivered, Some(p)) {
      CoveredMore(t, s.ledger, s.delivered, s'.delivered, Some(p));
    }
  }

  /** After a whole page everything up to its last position was delivered. */
  lemma {:induction false} PageCovers(t: Topic, ledger: seq<Record>, delivered: seq<StoredEvent>,
        bound: Option<Versionstamp>, page: seq<StoredEvent>)
    requires Ledgered(ledger) && Covered(t, ledger, delivered, bound) && page != []
    requires page <= Selected(LogOf(ledger, t.ns), t.q, bound)
    requires forall i :: 0 <= i < |page| ==> page[i] in delivered
    ensures Covered(t, ledger, delivered, Some(page[|page| - 1].position))
  {
    var n := |page|;
    var last := PageEnd(t, ledger, bound, page);
    forall se | Followed(t, ledger, se) && !After(se.position, Some(last.position)) ensures se in delivered {
      LastOrEarlier(t, ledger, last, se);
      if se != last {
        EarlierDelivered(t, ledger, delivered, bound, page, n - 1, se);
      }
    }
  }

  /** The last event of a page is an event of the log. */
  lemma {:induction false} PageEnd(t: Topic, ledger: seq<Record>, bound: Option<Versionstamp>, page: seq<StoredEvent>)
    returns (last: StoredEvent)
    requires page != [] && page <= Selected(LogOf(ledger, t.ns), t.q, bound)
    ensures last == page[|page| - 1] && last in LogOf(ledger, t.ns)
  {
    last := page[|page| - 1];
    assert last == Selected(LogOf(ledger, t.ns), t.q, bound)[|page| - 1];
    SelectedHas(LogOf(ledger, t.ns), t.q, bound, last);
  }

  /** What does not lie after an event of the log is that event or lies before it. */
  lemma {:induction false} LastOrEarlier(t: Topic, ledger: seq<Record>, last: StoredEvent, se: StoredEvent)
    requires Ledgered(ledger) && last in LogOf(ledger, t.ns) && se in LogOf(ledger, t.ns)
    requires !Less(last.position, se.position)
    ensures se == last || Less(se.position, last.position)
  {
    LessTotal(se.position, last.position);
    if se.position == last.position {
      PositionUnique(ledger, t.ns, se, last);
    }
  }

  lemma {:induction false} SaveKeepsInv(t: Topic, s: State, s': State)
    requires Inv(t, s) && Save(s, s')
    ensures Inv(t, s')
  {
    PageCovers(t, s.ledger, s.delivered, s.phase.bound, s.phase.page);
  }

  lemma {:induction false} InitInv(t: Topic, s: State)
    requires Init(t, s)
    ensures Inv(t, s)
  {
  }

  lemma {:induction false} NextKeepsInv(t: Topic, s: State, s': State)
    requires Inv(t, s) && Next(t, s, s') && TypesApart(s.ledger, t.ns, t.q)
    ensures Inv(t, s')
  {
    if rec :| OtherCommit(t, s, s', rec) || CursorLands(t, s, s', rec) {
      CommitKeepsInv(t, s, s', rec);
    } else if at :| Arm(t, s, s', at) {
    } else if at :| LoadCursor(t, s, s', at) {
      LoadKeepsInv(t, s, s', at);
    } else if at, limit, page :| ReadPage(t, s, s', at, limit, page) {
      ReadKeepsInv(t, s, s', at, limit, page);
    } else if Deliver(s, s') {
      DeliverKeepsInv(t, s, s');
    } else if Save(s, s') {
      SaveKeepsInv(t, s, s');
    }
  }

  lemma {:induction false} LedgerGrows(t: Topic, s: State, s': State)
    requires Next(t, s, s')
    ensures s.ledger <= s'.ledger
  {
  }

  /** Types that are apart after a step of a run were so before. */
  lemma {:induction false} RunApart(t: Topic, run: seq<State>, j: nat)
    requires Run(t, run) && 0 < j < |run| && TypesApart(run[j].ledger, t.ns, t.q)
    ensures TypesApart(run[j - 1].ledger, t.ns, t.q)
  {
    assert StepAt(t, run, j - 1);
    StepApart(t, run[j - 1], run[j]);
  }

  lemma {:induction false} StepApart(t: Topic, s: State, s': State)
    requires Next(t, s, s') && TypesApart(s'.ledger, t.ns, t.q)
    ensures TypesApart(s.ledger, t.ns, t.q)
  {
    LedgerGrows(t, s, s');
    assert s'.ledger[..|s.ledger|] == s.ledger;
    TypesApartBefore(s'.ledger, |s.ledger|, t.ns, t.q);
  }

  lemma {:induction false} RunInv(t: Topic, run: seq<State>, i: nat)
    requires Run(t, run) && i < |run| && TypesApart(run[i].ledger, t.ns, t.q)
    ensures Inv(t, run[i])
    decreases i
  {
    if i == 0 {
      InitInv(t, run[0]);
    } else {
      RunApart(t, run, i);
      RunInv(t, run, i - 1);
      assert StepAt(t, run, i - 1);
      NextKeepsInv(t, run[i - 1], run[i]);
    }
  }

  // -------------------------------------------------------------------------
  // Results
  // -------------------------------------------------------------------------

  /** No lost wake-up: in every run, a subscriber that is parked while its watch on the
      sentinel key is not due has been given every event of the log that it follows. */
  lemma {:induction false} NoLostWakeUp(t: Topic, run: seq<State>, i: nat, h: seq<Kv.Commit>)
    requires Run(t, run) && i < |run| && TypesApart(run[i].ledger, t.ns, t.q)
    requires run[i].phase.Parked? && Matches(h, run[i].ledger)
    requires !Due(Watch(Encoding.PackSentinelKey(t.ns), run[i].phase.seen), Kv.Replay(h))
    ensures AllDelivered(t, run[i].ledger, run[i].delivered)
  {
    RunInv(t, run, i);
    SilentMeansQuiet(h, run[i].ledger, run[i].phase.armedAt, t.ns);
  }

  /** Delivery is gap-free in every run: only wanted events, none before all earlier ones. */
  lemma {:induction false} GapFreeDelivery(t: Topic, run: seq<State>, i: nat)
    requires Run(t, run) && i < |run| && TypesApart(run[i].ledger, t.ns, t.q)
    ensures GapFree(t, run[i].ledger, run[i].delivered)
  {
    RunInv(t, run, i);
  }

  /** A restart from the durable cursor skips nothing, whichever cursor write landed last. */
  lemma {:induction false} CursorSkipsNothing(t: Topic, run: seq<State>, i: nat)
    requires Run(t, run) && i < |run| && TypesApart(run[i].ledger, t.ns, t.q)
    ensures Covered(t, run[i].ledger, run[i].delivered, CursorAt(run[i].ledger, t.ns, t.name))
  {
    RunInv(t, run, i);
    CursorSaved(t, run[i].ledger, run[i].saved);
    if CursorAt(run[i].ledger, t.ns, t.name).None? {
      assert Covered(t, run[i].ledger, run[i].delivered, None);
    }
  }

  // -------------------------------------------------------------------------
  // A loaded cursor holds until the next load
  // -------------------------------------------------------------------------

  /** The subscriber has loaded its cursor. */
  ghost predicate Loads(s: State, s': State) {
    s.phase.Armed? && s'.phase.Catching?
  }

  /** The cursor is loaded by step `k` of the run. */
  ghost predicate LoadsAt(run: seq<State>, k: nat)
    requires k + 1 < |run|
  {
    Loads(run[k], run[k + 1])
  }

  ghost predicate NoLoads(run: seq<State>, i: nat, j: nat)
    requires j < |run|
  {
    forall k :: i < k < j ==> !LoadsAt(run, k)
  }

  /** The bound of the phase, if it has one, is not below `c`. */
  ghost predicate BoundFrom(phase: Phase, c: Option<Versionstamp>) {
    phase.Catching? || phase.Handling? ==> c.None? || (phase.bound.Some? && !Less(phase.bound.value, c.value))
  }

  lemma {:induction false} AfterBound(p: Versionstamp, bound: Option<Versionstamp>, c: Option<Versionstamp>)
    requires After(p, bound) && (c.None? || (bound.Some? && !Less(bound.value, c.value)))
    ensures After(p, c) && (c.None? || !Less(p, c.value))
  {
    if c.Some? {
      LessTotal(bound.value, c.value);
      if bound.value != c.value {
        LessTransitive(c.value, bound.value, p);
      }
      LessAsymmetric(c.value, p);
    }
  }

  /** An event of the page lies after the bound that the page was read with. */
  lemma {:induction false} PageAfter(t: Topic, s: State, i: nat)
    requires Inv(t, s) && s.phase.Handling? && i < |s.phase.page|
    ensures After(s.phase.page[i].position, s.phase.bound)
  {
    var found := Selected(LogOf(s.ledger, t.ns), t.q, s.phase.bound);
    assert s.phase.page[i] == found[i];
    SelectedHas(LogOf(s.ledger, t.ns), t.q, s.phase.bound, found[i]);
  }

  /** Everything new in `now` lies after `c`. */
  ghost predicate NewAfter(before: seq<StoredEvent>, now: seq<StoredEvent>, c: Option<Versionstamp>) {
    before <= now && forall m :: |before| <= m < |now| ==> After(now[m].position, c)
  }

  lemma {:induction false} StepAfter(t: Topic, s: State, s': State, c: Option<Versionstamp>)
    requires Inv(t, s) && Next(t, s, s') && !Loads(s, s') && BoundFrom(s.phase, c)
    ensures NewAfter(s.delivered, s'.delivered, c) && BoundFrom(s'.phase, c)
  {
    if Deliver(s, s') {
      HandledAfter(t, s, s.phase.handled, c);
    } else if Save(s, s') {
      HandledAfter(t, s, |s.phase.page| - 1, c);
    } else {
      QuietStep(t, s, s', c);
    }
  }

  lemma {:induction false} HandledAfter(t: Topic, s: State, i: nat, c: Option<Versionstamp>)
    requires Inv(t, s) && s.phase.Handling? && i < |s.phase.page| && BoundFrom(s.phase, c)
    ensures var p := s.phase.page[i].position; After(p, c) && (c.None? || !Less(p, c.value))
  {
    PageAfter(t, s, i);
    AfterBound(s.phase.page[i].position, s.phase.bound, c);
  }

  /** Steps that deliver nothing keep the bound or drop it. */
  lemma {:induction false} QuietStep(t: Topic, s: State, s': State, c: Option<Versionstamp>)
    requires Next(t, s, s') && !Deliver(s, s') && !Save(s, s') && !Loads(s, s') && BoundFrom(s.phase, c)
    ensures s'.delivered == s.delivered && BoundFrom(s'.phase, c)
  {
  }

  lemma {:induction false} NewAfterOn(a: seq<StoredEvent>, b: seq<StoredEvent>, c: seq<StoredEvent>,
        bound: Option<Versionstamp>)
    requires NewAfter(a, b, bound) && NewAfter(b, c, bound)
    ensures NewAfter(a, c, bound)
  {
    assert forall m :: 0 <= m < |b| ==> c[m] == b[m];
  }

  lemma {:induction false} RunAfter(t: Topic, run: seq<State>, i: nat, j: nat, c: Option<Versionstamp>)
    requires Run(t, run) && i < j < |run| && TypesApart(run[j].ledger, t.ns, t.q)
    requires run[i + 1].delivered == run[i].delivered && BoundFrom(run[i + 1].phase, c) && NoLoads(run, i, j)
    ensures NewAfter(run[i].delivered, run[j].delivered, c) && BoundFrom(run[j].phase, c)
    decreases j
  {
    if j == i + 1 {
      assert NewAfter(run[i].delivered, run[i].delivered, c);
    } else {
      var before := j - 1;
      assert !LoadsAt(run, before);
      RunApart(t, run, j);
      RunAfter(t, run, i, before, c);
      RunStepAfter(t, run, j, run[i].delivered, c);
    }
  }

  lemma {:induction false} RunStepAfter(t: Topic, run: seq<State>, j: nat, first: seq<StoredEvent>,
        c: Option<Versionstamp>)
    requires Run(t, run) && 0 < j < |run| && TypesApart(run[j - 1].ledger, t.ns, t.q) && !LoadsAt(run, j - 1)
    requires NewAfter(first, run[j - 1].delivered, c) && BoundFrom(run[j - 1].phase, c)
    ensures NewAfter(first, run[j].delivered, c) && BoundFrom(run[j].phase, c)
  {
    RunInv(t, run, j - 1);
    assert StepAt(t, run, j - 1);
    StepAfterOn(t, first, run[j - 1], run[j], c);
  }

  lemma {:induction false} StepAfterOn(t: Topic, first: seq<StoredEvent>, s: State, s': State, c: Option<Versionstamp>)
    requires Inv(t, s) && Next(t, s, s') && !Loads(s, s') && BoundFrom(s.phase, c) && NewAfter(first, s.delivered, c)
    ensures NewAfter(first, s'.delivered, c) && BoundFrom(s'.phase, c)
  {
    StepAfter(t, s, s', c);
    NewAfterOn(first, s.delivered, s'.delivered, c);
  }

  /** The step that loads the cursor reads it as it was at some version since the watch was armed. */
  lemma {:induction false} LoadStep(t: Topic, s: State, s': State) returns (at: nat)
    requires Next(t, s, s') && Loads(s, s')
    ensures s.phase.armedAt <= at <= |s.ledger| && s'.delivered == s.delivered
    ensures s'.phase.bound == CursorAt(s.ledger[..at], t.ns, t.name)
  {
    at :| LoadCursor(t, s, s', at);
  }

  /**
   A loaded cursor is kept to: in every run, between one load of the cursor and the next,
   only events after the loaded position are delivered, so a restart repeats nothing at
   or below the stored cursor that it found.
   */
  lemma {:induction false} DeliversAfterCursor(t: Topic, run: seq<State>, i: nat, j: nat) returns (at: nat)
    requires Run(t, run) && i < j < |run| && TypesApart(run[j].ledger, t.ns, t.q)
    requires LoadsAt(run, i) && NoLoads(run, i, j)
    ensures run[i].phase.armedAt <= at <= |run[i].ledger| && run[i].delivered <= run[j].delivered
    ensures forall m :: |run[i].delivered| <= m < |run[j].delivered| ==>
              After(run[j].delivered[m].position, CursorAt(run[i].ledger[..at], t.ns, t.name))
  {
    assert StepAt(t, run, i);
    at := LoadStep(t, run[i], run[i + 1]);
    var c := CursorAt(run[i].ledger[..at], t.ns, t.name);
    if c.Some? {
      LessIrreflexive(c.value);
    }
    RunAfter(t, run, i, j, c);
  }

  // -------------------------------------------------------------------------
  // One round, through the store
  // -------------------------------------------------------------------------

  /** An initial part that leaves nothing out is all of it. */
  lemma {:induction false} PartIsAll(l: seq<Record>, at: nat, t: Topic, from: Option<Versionstamp>,
        got: seq<StoredEvent>)
    requires Ledgered(l) && at <= |l| && LogOf(l[..at], t.ns) == LogOf(l, t.ns)
    requires got <= Selected(LogOf(l, t.ns), t.q, from) && Reaches(l[..at], t.ns, t.q, from, got)
    ensures got == Selected(LogOf(l, t.ns), t.q, from)
  {
    var all := Selected(LogOf(l, t.ns), t.q, from);
    if |got| < |all| {
      var next := all[|got|];
      SelectedHas(LogOf(l, t.ns), t.q, from, next);
      var i :| 0 <= i < |got| && got[i] == next;
      SelectedPositionsSorted(l, t.ns, t.q, from);
      assert Positions(all)[i] == next.position == Positions(all)[|got|];
      LessIrreflexive(next.position);
    }
  }

  /** The cursor from which a round starts was the stored one at some ledger length since `start`. */
  ghost predicate LoadedFrom(l: seq<Record>, start: nat, t: Topic, from: Option<Versionstamp>) {
    exists at :: start <= at <= |l| && from == CursorAt(l[..at], t.ns, t.name)
  }

  lemma {:induction false} LoadedGrows(loaded: seq<Record>, l: seq<Record>, start: nat, at: nat, t: Topic)
    requires loaded <= l && start <= at <= |loaded|
    ensures LoadedFrom(l, start, t, CursorAt(loaded[..at], t.ns, t.name))
  {
    assert l[..at] == loaded[..at];
  }

  lemma {:induction false} LoadedSince(l: seq<Record>, start: nat, mid: nat, t: Topic, from: Option<Versionstamp>)
    requires start <= mid && LoadedFrom(l, mid, t, from)
    ensures LoadedFrom(l, start, t, from)
  {
  }

  // -------------------------------------------------------------------------
  // The cursor writes of a round
  // -------------------------------------------------------------------------

  /** One of the commits stored the position of event `i`. */
  ghost predicate SavedAt(l: seq<Record>, start: nat, t: Topic, applied: seq<nat>, delivered: seq<StoredEvent>, i: nat)
    requires i < |delivered|
  {
    exists at :: at in applied && StoredAt(l, start, at, t.ns, t.name, delivered[i].position)
  }

  /** All commits stored the position of some delivered event. */
  ghost predicate SavesOnly(l: seq<Record>, start: nat, t: Topic, applied: seq<nat>, delivered: seq<StoredEvent>) {
    forall at :: at in applied ==> exists se :: se in delivered && StoredAt(l, start, at, t.ns, t.name, se.position)
  }

  /** The position of event `i` was stored, or that of one that came less than a page later. */
  ghost predicate SavedSoon(l: seq<Record>, start: nat, t: Topic, applied: seq<nat>, delivered: seq<StoredEvent>,
        limit: nat, i: nat)
  {
    exists j :: i <= j < |delivered| && (limit > 0 ==> j < i + limit) && SavedAt(l, start, t, applied, delivered, j)
  }

  /** The cursor was stored after each page, up to event `n`. */
  ghost predicate SavesOften(l: seq<Record>, start: nat, t: Topic, applied: seq<nat>, delivered: seq<StoredEvent>,
        limit: nat, n: nat)
  {
    forall i :: 0 <= i < n ==> SavedSoon(l, start, t, applied, delivered, limit, i)
  }

  /** The last write of the cursor is the position of the last event. */
  ghost predicate SavesLast(l: seq<Record>, start: nat, t: Topic, applied: seq<nat>, delivered: seq<StoredEvent>) {
    delivered != [] ==>
      var last := delivered[|delivered| - 1].position;
      exists at :: at in applied && StoredAt(l, start, at, t.ns, t.name, last)
                   && forall j :: j in applied && at < j ==> StoredAt(l, start, j, t.ns, t.name, last)
  }

  /** How many of the delivered events are surely saved: all, or after a failure all but
      those of the page that was handed over last. */
  function SurelySaved(delivered: nat, limit: nat, failed: bool): nat {
    if !failed then delivered
    else if limit == 0 || delivered < limit then 0
    else delivered - limit
  }

  /** What the commits of a call have stored. */
  ghost predicate Saves(l: seq<Record>, start: nat, t: Topic, applied: seq<nat>, delivered: seq<StoredEvent>,
        limit: nat, failed: bool)
  {
    && SavesOnly(l, start, t, applied, delivered)
    && SavesOften(l, start, t, applied, delivered, limit, SurelySaved(|delivered|, limit, failed))
    && (!failed ==> SavesLast(l, start, t, applied, delivered))
  }

  /** The commits of one more page, whose last event is the last one delivered. */
  ghost predicate PageSaved(l: seq<Record>, mid: nat, t: Topic, more: seq<nat>, before: seq<StoredEvent>,
        delivered: seq<StoredEvent>, limit: nat, failed: bool)
  {
    && before <= delivered && (limit > 0 ==> |delivered| <= |before| + limit)
    && (delivered == before ==> more == [])
    && (delivered != before ==>
          && AllStored(l, mid, more, t.ns, t.name, delivered[|delivered| - 1].position)
          && (failed || more != []))
  }

  lemma {:induction false} SavesOnlyNext(past: seq<Record>, l: seq<Record>, start: nat, t: Topic, applied: seq<nat>,
        more: seq<nat>, before: seq<StoredEvent>, delivered: seq<StoredEvent>, limit: nat, failed: bool)
    requires past <= l && start <= |past| && SavesOnly(past, start, t, applied, before)
    requires PageSaved(l, |past|, t, more, before, delivered, limit, failed)
    ensures SavesOnly(l, start, t, applied + more, delivered)
  {
    forall at | at in applied + more
      ensures exists se :: se in delivered && StoredAt(l, start, at, t.ns, t.name, se.position)
    {
      if at in applied {
        var se :| se in before && StoredAt(past, start, at, t.ns, t.name, se.position);
        assert se in delivered && StoredAt(l, start, at, t.ns, t.name, se.position);
      } else {
        var last := delivered[|delivered| - 1];
        assert last in delivered && StoredAt(l, |past|, at, t.ns, t.name, last.position);
      }
    }
  }

  /** Everything of a saved page is less than a page before its last event. */
  lemma {:induction false} PageSavedOften(past: seq<Record>, l: seq<Record>, start: nat, t: Topic, applied: seq<nat>,
        more: seq<nat>, before: seq<StoredEvent>, delivered: seq<StoredEvent>, limit: nat, i: nat)
    requires start <= |past| && PageSaved(l, |past|, t, more, before, delivered, limit, false)
    requires |before| <= i < |delivered|
    ensures SavedAt(l, start, t, applied + more, delivered, |delivered| - 1)
    ensures limit > 0 ==> |delivered| - 1 < i + limit
  {
    assert more[0] in applied + more && StoredAt(l, |past|, more[0], t.ns, t.name, delivered[|delivered| - 1].position);
  }

  lemma {:induction false} SavedStays(past: seq<Record>, l: seq<Record>, start: nat, t: Topic, applied: seq<nat>,
        more: seq<nat>, before: seq<StoredEvent>, delivered: seq<StoredEvent>, j: nat)
    requires past <= l && before <= delivered && j < |before| && SavedAt(past, start, t, applied, before, j)
    ensures SavedAt(l, start, t, applied + more, delivered, j)
  {
    var at :| at in applied && StoredAt(past, start, at, t.ns, t.name, before[j].position);
    assert at in applied + more && StoredAt(l, start, at, t.ns, t.name, delivered[j].position);
  }

  lemma {:induction false} SavesOftenNext(past: seq<Record>, l: seq<Record>, start: nat, t: Topic, applied: seq<nat>,
        more: seq<nat>, before: seq<StoredEvent>, delivered: seq<StoredEvent>, limit: nat, failed: bool)
    requires past <= l && start <= |past| && SavesOften(past, start, t, applied, before, limit, |before|)
    requires PageSaved(l, |past|, t, more, before, delivered, limit, failed)
    ensures SavesOften(l, start, t, applied + more, delivered, limit, SurelySaved(|delivered|, limit, failed))
  {
    forall i | 0 <= i < SurelySaved(|delivered|, limit, failed)
      ensures SavedSoon(l, start, t, applied + more, delivered, limit, i)
    {
      if i < |before| {
        assert SavedSoon(past, start, t, applied, before, limit, i);
        var j :| i <= j < |before| && (limit > 0 ==> j < i + limit) && SavedAt(past, start, t, applied, before, j);
        SavedStays(past, l, start, t, applied, more, before, delivered, j);
      } else {
        PageSavedOften(past, l, start, t, applied, more, before, delivered, limit, i);
      }
    }
  }

  lemma {:induction false} SavesLastNext(past: seq<Record>, l: seq<Record>, start: nat, t: Topic, applied: seq<nat>,
        more: seq<nat>, before: seq<StoredEvent>, delivered: seq<StoredEvent>, limit: nat)
    requires past <= l && start <= |past|
    requires SavesOnly(past, start, t, applied, before) && SavesLast(past, start, t, applied, before)
    requires PageSaved(l, |past|, t, more, before, delivered, limit, false)
    ensures SavesLast(l, start, t, applied + more, delivered)
  {
    if delivered != [] {
      var last := delivered[|delivered| - 1].position;
      if delivered == before {
        var at :| at in applied && StoredAt(past, start, at, t.ns, t.name, last)
                  && forall j :: j in applied && at < j ==> StoredAt(past, start, j, t.ns, t.name, last);
        assert applied + more == applied && StoredAt(l, start, at, t.ns, t.name, last);
      } else {
        var at := more[0];
        assert at in applied + more && StoredAt(l, |past|, at, t.ns, t.name, last);
        forall j | j in applied + more && at < j ensures StoredAt(l, start, j, t.ns, t.name, last) {
          if j in more {
            assert StoredAt(l, |past|, j, t.ns, t.name, last);
          }
        }
      }
    }
  }

  /** One more page keeps what was saved. */
  lemma {:induction false} SavesNext(past: seq<Record>, l: seq<Record>, start: nat, t: Topic, applied: seq<nat>,
        more: seq<nat>, before: seq<StoredEvent>, delivered: seq<StoredEvent>, limit: nat, failed: bool)
    requires past <= l && start <= |past| && Saves(past, start, t, applied, before, limit, false)
    requires PageSaved(l, |past|, t, more, before, delivered, limit, failed)
    ensures Saves(l, start, t, applied + more, delivered, limit, failed)
  {
    SavesOnlyNext(past, l, start, t, applied, more, before, delivered, limit, failed);
    SavesOftenNext(past, l, start, t, applied, more, before, delivered, limit, failed);
    if !failed {
      SavesLastNext(past, l, start, t, applied, more, before, delivered, limit);
    }
  }

  lemma {:induction false} SavesOnlySince(l: seq<Record>, start: nat, mid: nat, t: Topic, applied: seq<nat>,
        delivered: seq<StoredEvent>)
    requires start <= mid && SavesOnly(l, mid, t, applied, delivered)
    ensures SavesOnly(l, start, t, applied, delivered)
  {
    forall at | at in applied
      ensures exists se :: se in delivered && StoredAt(l, start, at, t.ns, t.name, se.position)
    {
      var se :| se in delivered && StoredAt(l, mid, at, t.ns, t.name, se.position);
      assert StoredAt(l, start, at, t.ns, t.name, se.position);
    }
  }

  lemma {:induction false} SavedSince(l: seq<Record>, start: nat, mid: nat, t: Topic, applied: seq<nat>,
        delivered: seq<StoredEvent>, i: nat)
    requires start <= mid && i < |delivered| && SavedAt(l, mid, t, applied, delivered, i)
    ensures SavedAt(l, start, t, applied, delivered, i)
  {
    var at :| at in applied && StoredAt(l, mid, at, t.ns, t.name, delivered[i].position);
    assert StoredAt(l, start, at, t.ns, t.name, delivered[i].position);
  }

  lemma {:induction false} SavesLastSince(l: seq<Record>, start: nat, mid: nat, t: Topic, applied: seq<nat>,
        delivered: seq<StoredEvent>)
    requires start <= mid && SavesLast(l, mid, t, applied, delivered)
    ensures SavesLast(l, start, t, applied, delivered)
  {
    if delivered != [] {
      var last := delivered[|delivered| - 1].position;
      var at :| at in applied && StoredAt(l, mid, at, t.ns, t.name, last)
                && forall j :: j in applied && at < j ==> StoredAt(l, mid, j, t.ns, t.name, last);
      assert StoredAt(l, start, at, t.ns, t.name, last);
    }
  }

  /** What was saved since `mid` was saved since any earlier moment. */
  lemma {:induction false} SavesSince(l: seq<Record>, start: nat, mid: nat, t: Topic, applied: seq<nat>,
        delivered: seq<StoredEvent>, limit: nat, failed: bool)
    requires start <= mid && Saves(l, mid, t, applied, delivered, limit, failed)
    ensures Saves(l, start, t, applied, delivered, limit, failed)
  {
    SavesOnlySince(l, start, mid, t, applied, delivered);
    forall i | 0 <= i < SurelySaved(|delivered|, limit, failed)
      ensures SavedSoon(l, start, t, applied, delivered, limit, i)
    {
      assert SavedSoon(l, mid, t, applied, delivered, limit, i);
      var j :| i <= j < |delivered| && (limit > 0 ==> j < i + limit) && SavedAt(l, mid, t, applied, delivered, j);
      SavedSince(l, start, mid, t, applied, delivered, j);
    }
    if !failed {
      SavesLastSince(l, start, mid, t, applied, delivered);
    }
  }

  /** Since `start`, the cursor was written by these commits alone. */
  ghost predicate OnlyConsumer(l: seq<Record>, start: nat, t: Topic, applied: seq<nat>) {
    forall j :: start <= j < |l| && SetsCursor(l[j], t.ns, t.name) ==> j in applied
  }

  /** A cursor that is not written stays. */
  lemma {:induction false} CursorStays(l: seq<Record>, at: nat, t: Topic)
    requires at <= |l| && forall j :: at <= j < |l| ==> !SetsCursor(l[j], t.ns, t.name)
    ensures CursorAt(l, t.ns, t.name) == CursorAt(l[..at], t.ns, t.name)
    decreases |l|
  {
    if at == |l| {
      assert l[..at] == l;
    } else {
      var n := |l| - 1;
      assert forall j :: at <= j < n ==> l[..n][j] == l[j];
      CursorStays(l[..n], at, t);
      assert l[..n][..at] == l[..at];
    }
  }

  /** With one consumer, the next round goes on where this one ended. */
  lemma {:induction false} GoesOn(l: seq<Record>, start: nat, t: Topic, applied: seq<nat>, from: Option<Versionstamp>,
        delivered: seq<StoredEvent>)
    requires LoadedFrom(l, start, t, from) && OnlyConsumer(l, start, t, applied)
    requires SavesOnly(l, start, t, applied, delivered) && SavesLast(l, start, t, applied, delivered)
    ensures CursorAt(l, t.ns, t.name) == NextBound(from, delivered)
  {
    if delivered == [] {
      var at :| start <= at <= |l| && from == CursorAt(l[..at], t.ns, t.name);
      assert forall j :: j !in applied;
      CursorStays(l, at, t);
    } else {
      var last := delivered[|delivered| - 1].position;
      var at :| at in applied && StoredAt(l, start, at, t.ns, t.name, last)
                && forall j :: j in applied && at < j ==> StoredAt(l, start, j, t.ns, t.name, last);
      CursorRoundTrip(l, at, t.ns, t.name, last);
    }
  }

  // -------------------------------------------------------------------------
  // The round itself
  // -------------------------------------------------------------------------

  /** What a silent watch means for a subscriber that has read to the end since it was armed. */
  lemma {:induction false} ParkedComplete(h: seq<Kv.Commit>, l: seq<Record>, armedAt: nat, at: nat, t: Topic,
        from: Option<Versionstamp>, got: seq<StoredEvent>)
    requires Matches(h, l) && armedAt <= at && TypesApart(l, t.ns, t.q)
    requires GapFreeSoFar(l, t.ns, t.q, from, got) && AtEnd(l, at, t.ns, t.q, from, got)
    requires !Due(Watch(Encoding.PackSentinelKey(t.ns), SentinelAt(l[..armedAt], t.ns)), Kv.Replay(h))
    ensures got == Selected(LogOf(l, t.ns), t.q, from)
  {
    SilentMeansQuiet(h, l, armedAt, t.ns);
    QuietLog(l, at, t.ns);
    PartIsAll(l, at, t, from, got);
  }

  /** What a round achieves whose watch was armed at version `armedAt`. */
  lemma {:induction false} RoundResult(armed: seq<Record>, h: seq<Kv.Commit>, l: seq<Record>, start: nat, armedAt: nat,
        at: nat, t: Topic, watch: Watch, from: Option<Versionstamp>, got: seq<StoredEvent>, parked: bool)
    requires Matches(h, l) && armed <= l && start <= armedAt <= |armed|
    requires watch == Watch(Encoding.PackSentinelKey(t.ns), SentinelAt(armed[..armedAt], t.ns))
    requires GapFreeSoFar(l, t.ns, t.q, from, got)
    requires parked ==> armedAt <= at && AtEnd(l, at, t.ns, t.q, from, got)
    ensures start <= armedAt <= |l|
    ensures watch == Watch(Encoding.PackSentinelKey(t.ns), SentinelAt(l[..armedAt], t.ns))
    ensures TypesApart(l, t.ns, t.q) ==> got <= Selected(LogOf(l, t.ns), t.q, from)
    ensures parked && TypesApart(l, t.ns, t.q) && !Due(watch, Kv.Replay(h)) ==>
              got == Selected(LogOf(l, t.ns), t.q, from)
  {
    assert l[..armedAt] == armed[..armedAt];
    if parked && TypesApart(l, t.ns, t.q) && !Due(watch, Kv.Replay(h)) {
      ParkedComplete(h, l, armedAt, at, t, from, got);
    }
  }

  /** What was delivered leaves out nothing of the log at version `at` with types apart; and for
      all type names, nothing there is selected after the last event delivered. */
  ghost predicate Ended(l: seq<Record>, at: nat, t: Topic, from: Option<Versionstamp>, delivered: seq<StoredEvent>) {
    && AtEnd(l, at, t.ns, t.q, from, delivered)
    && Reaches(l[..at], t.ns, t.q, NextBound(from, delivered), [])
  }

  lemma {:induction false} PageHandled(l: seq<Record>, start: nat, mid: nat, t: Topic, more: seq<nat>,
        before: seq<StoredEvent>, page: seq<StoredEvent>, limit: nat, failed: bool)
    requires start <= mid && page != [] && (limit > 0 ==> |page| <= limit) && (failed || more != [])
    requires AllStored(l, mid, more, t.ns, t.name, page[|page| - 1].position)
    ensures PageSaved(l, start, t, more, before, before + page, limit, failed)
  {
    assert (before + page)[|before + page| - 1] == page[|page| - 1];
    assert forall at :: at in more ==> StoredAt(l, mid, at, t.ns, t.name, page[|page| - 1].position);
  }

  lemma {:induction false} NoPageHandled(l: seq<Record>, start: nat, t: Topic, before: seq<StoredEvent>, limit: nat,
        failed: bool, own: seq<nat>)
    ensures PageSaved(l, start, t, [], before, before, limit, failed) && own + [] == own
  {
  }

  /** Hands a page over and saves its last position. */
  method HandlePage(db: Fdb.Database, t: Topic, from: Option<Versionstamp>, limit: nat, before: seq<StoredEvent>,
        page: seq<StoredEvent>, ghost start: nat) returns (r: Result<()>, ghost applied: seq<nat>)
    requires db.Valid() && page != [] && GapFreeSoFar(db.ledger, t.ns, t.q, from, before + page)
    requires start <= |db.history| && (limit > 0 ==> |page| <= limit)
    modifies db
    ensures db.Valid() && db.Grown() && db.own == old(db.own) + applied
    ensures GapFreeSoFar(db.ledger, t.ns, t.q, from, before + page)
    ensures PageSaved(db.ledger, start, t, applied, before, before + page, limit, r.Err?)
    ensures r.Err? ==> r.error.Fdb?
    ensures Fdb.Blamed(old(db.reports), db.reports, Fdb.FailureOf(r))
  {
    ghost var mid, ledger := |db.history|, db.ledger;
    r, applied := SetCursor(db, t.ns, t.name, page[|page| - 1].position);
    Fdb.CallBlamed(old(db.reports), db.reports, Fdb.Resets(db.reports[|old(db.reports)|..]), Fdb.FailureOf(r));
    GapFreeGrows(ledger, db.ledger, t.ns, t.q, from, before + page);
    PageHandled(db.ledger, start, mid, t, applied, before, page, limit, r.Err?);
  }

  /** Reads the next page; on an error, what was delivered stays gap-free. */
  method NextPage(db: Fdb.Database, t: Topic, from: Option<Versionstamp>, limit: nat, before: seq<StoredEvent>)
    returns (page: Result<seq<StoredEvent>>, ghost at: nat)
    requires db.Valid() && GapFreeSoFar(db.ledger, t.ns, t.q, from, before)
    modifies db
    ensures db.Valid() && db.OnlyOthers() && |db.history| == |db.ledger| && |old(db.history)| <= at
    ensures GapFreeSoFar(db.ledger, t.ns, t.q, from, if page.Ok? then before + page.value else before)
    ensures page.Ok? && limit > 0 ==> |page.value| <= limit
    ensures page == Ok([]) ==> Ended(db.ledger, at, t, from, before)
    ensures page.Err? ==> ReadMethods.ReadError(t.q, page.error)
    ensures Fdb.Blamed(old(db.reports), db.reports, Fdb.FailureOf(page))
  {
    ghost var ledger := db.ledger;
    page, at := ReadNextPage(db, t.ns, t.q, from, limit, before);
    GapFreeGrows(ledger, db.ledger, t.ns, t.q, from, before);
    assert before + [] == before;
  }

  /** Reads the next page, hands it over and saves its last position; an empty one is the end. */
  method TakePage(db: Fdb.Database, t: Topic, from: Option<Versionstamp>, limit: nat, before: seq<StoredEvent>)
    returns (ended: Result<bool>, delivered: seq<StoredEvent>, ghost at: nat, ghost applied: seq<nat>)
    requires db.Valid() && GapFreeSoFar(db.ledger, t.ns, t.q, from, before)
    modifies db
    ensures db.Valid() && db.Grown() && db.own == old(db.own) + applied
    ensures GapFreeSoFar(db.ledger, t.ns, t.q, from, delivered)
    ensures PageSaved(db.ledger, |old(db.history)|, t, applied, before, delivered, limit, ended.Err?)
    ensures ended == Ok(true) ==> |old(db.history)| <= at && Ended(db.ledger, at, t, from, delivered)
    ensures ended == Ok(false) ==> |delivered| > |before|
    ensures ended.Err? ==> ReadMethods.ReadError(t.q, ended.error)
    ensures Fdb.Blamed(old(db.reports), db.reports, Fdb.FailureOf(ended))
  {
    ghost var start := |db.history|;
    var page;
    page, at := NextPage(db, t, from, limit, before);
    ghost var mid := db.reports;
    if page.Err? || page.value == [] {
      NoPageHandled(db.ledger, start, t, before, limit, page.Err?, db.own);
      ended := if page.Err? then Err(page.error) else Ok(true);
      return ended, before, at, [];
    }
    delivered := before + page.value;
    var saved;
    saved, applied := HandlePage(db, t, from, limit, before, page.value, start);
    Fdb.BlamedLater(old(db.reports), mid, db.reports, Fdb.FailureOf(saved));
    ended := if saved.Err? then Err(saved.error) else Ok(false);
  }

  /** What was delivered is gap-free, and its positions are saved. */
  ghost predicate Progress(l: seq<Record>, start: nat, t: Topic, from: Option<Versionstamp>, applied: seq<nat>,
        delivered: seq<StoredEvent>, limit: nat, failed: bool)
  {
    && GapFreeSoFar(l, t.ns, t.q, from, delivered)
    && Saves(l, start, t, applied, delivered, limit, failed)
  }

  /** One page more. `own` are this client's commits before the catch-up, `sofar` those since. */
  method CatchUpOnce(db: Fdb.Database, t: Topic, from: Option<Versionstamp>, limit: nat, before: seq<StoredEvent>,
        ghost start: nat, ghost own: seq<nat>, ghost sofar: seq<nat>)
    returns (ended: Result<bool>, delivered: seq<StoredEvent>, ghost at: nat, ghost applied: seq<nat>)
    requires db.Valid() && db.own == own + sofar
    requires start <= |db.history| && Progress(db.ledger, start, t, from, sofar, before, limit, false)
    modifies db
    ensures db.Valid() && db.Grown() && db.own == own + applied
    ensures Progress(db.ledger, start, t, from, applied, delivered, limit, ended.Err?)
    ensures ended == Ok(true) ==> |old(db.history)| <= at && Ended(db.ledger, at, t, from, delivered)
    ensures ended == Ok(false) ==> |delivered| > |before|
    ensures ended.Err? ==> ReadMethods.ReadError(t.q, ended.error)
    ensures Fdb.Blamed(old(db.reports), db.reports, Fdb.FailureOf(ended))
  {
    ghost var past := db.ledger;
    ghost var more;
    ended, delivered, at, more := TakePage(db, t, from, limit, before);
    SavesNext(past, db.ledger, start, t, sofar, more, before, delivered, limit, ended.Err?);
    applied := sofar + more;
    Regroup(own, sofar, more);
  }

  lemma {:induction false} ProgressBegins(l: seq<Record>, start: nat, t: Topic, from: Option<Versionstamp>, limit: nat)
    ensures Progress(l, start, t, from, [], [], limit, false)
  {
  }

  /** Reads and hands over page after page, at most `rounds` of them, until one is empty. */
  method CatchUp(db: Fdb.Database, t: Topic, from: Option<Versionstamp>, limit: nat, rounds: nat)
    returns (r: Result<()>, delivered: seq<StoredEvent>, caughtUp: bool, ghost at: nat, ghost applied: seq<nat>)
    requires db.Valid()
    modifies db
    ensures db.Valid() && db.Grown() && db.own == old(db.own) + applied
    ensures Progress(db.ledger, |old(db.history)|, t, from, applied, delivered, limit, r.Err?)
    ensures r.Ok? && caughtUp ==> |old(db.history)| <= at && Ended(db.ledger, at, t, from, delivered)
    ensures r.Ok? && !caughtUp ==> |delivered| >= rounds
    ensures r.Err? ==> ReadMethods.ReadError(t.q, r.error)
    ensures Fdb.Blamed(old(db.reports), db.reports, Fdb.FailureOf(r))
  {
    delivered, caughtUp, at, applied := [], false, 0, [];
    ghost var start, own := |db.history|, db.own;
    ProgressBegins(db.ledger, start, t, from, limit);
    assert own == own + [];
    for i := 0 to rounds
      invariant db.Valid() && db.Grown() && db.own == own + applied
      invariant Progress(db.ledger, start, t, from, applied, delivered, limit, false) && |delivered| >= i
      invariant old(db.reports) <= db.reports
    {
      ghost var mid := db.reports;
      var ended;
      ended, delivered, at, applied := CatchUpOnce(db, t, from, limit, delivered, start, own, applied);
      Fdb.BlamedLater(old(db.reports), mid, db.reports, Fdb.FailureOf(ended));
      if ended.Err? {
        return Err(ended.error), delivered, false, at, applied;
      }
      if ended.value {
        return Ok(()), delivered, true, at, applied;
      }
    }
    return Ok(()), delivered, false, at, applied;
  }

  /** Loads the cursor and catches up from there. */
  method Follow(db: Fdb.Database, t: Topic, limit: nat, rounds: nat)
    returns (r: Result<()>, delivered: seq<StoredEvent>, caughtUp: bool, ghost from: Option<Versionstamp>,
          ghost at: nat, ghost applied: seq<nat>)
    requires db.Valid()
    modifies db
    ensures db.Valid() && db.Grown() && db.own == old(db.own) + applied
    ensures Saves(db.ledger, |old(db.history)|, t, applied, delivered, limit, r.Err?)
    ensures r.Ok? ==> LoadedFrom(db.ledger, |old(db.history)|, t, from)
    ensures r.Ok? ==> GapFreeSoFar(db.ledger, t.ns, t.q, from, delivered)
    ensures r.Ok? && caughtUp ==> |old(db.history)| <= at && Ended(db.ledger, at, t, from, delivered)
    ensures r.Ok? && !caughtUp ==> |delivered| >= rounds
    ensures r.Err? ==> ReadMethods.ReadError(t.q, r.error)
    ensures Fdb.Blamed(old(db.reports), db.reports, Fdb.FailureOf(r))
  {
    delivered, caughtUp, from, applied := [], false, None, [];
    var cursor;
    cursor, at := GetCursor(db, t.ns, t.name);
    ghost var mid := db.reports;
    Fdb.FailedBlamed(old(db.reports), mid, Fdb.FailureOf(cursor));
    if cursor.Err? {
      return Err(cursor.error), delivered, caughtUp, from, at, applied;
    }
    from := cursor.value;
    ghost var loadedAt, loaded := at, db.ledger;
    r, delivered, caughtUp, at, applied := CatchUp(db, t, cursor.value, limit, rounds);
    Fdb.BlamedLater(old(db.reports), mid, db.reports, Fdb.FailureOf(r));
    LoadedGrows(loaded, db.ledger, |old(db.history)|, loadedAt, t);
    SavesSince(db.ledger, |old(db.history)|, |loaded|, t, applied, delivered, limit, r.Err?);
  }

  /** What the commits of a round that began at `start` have stored. */
  lemma {:induction false} RoundSaves(l: seq<Record>, start: nat, armedAt: nat, mid: nat, t: Topic, applied: seq<nat>,
        from: Option<Versionstamp>, delivered: seq<StoredEvent>, limit: nat, failed: bool)
    requires start <= armedAt <= mid && Saves(l, mid, t, applied, delivered, limit, failed)
    requires !failed ==> LoadedFrom(l, mid, t, from)
    ensures Saves(l, start, t, applied, delivered, limit, failed)
    ensures !failed ==> LoadedFrom(l, armedAt, t, from)
    ensures !failed && OnlyConsumer(l, start, t, applied) ==> CursorAt(l, t.ns, t.name) == NextBound(from, delivered)
  {
    SavesSince(l, start, mid, t, applied, delivered, limit, failed);
    if !failed {
      LoadedSince(l, armedAt, mid, t, from);
      LoadedSince(l, start, mid, t, from);
      if OnlyConsumer(l, start, t, applied) {
        GoesOn(l, start, t, applied, from, delivered);
      }
    }
  }

  /** The watch was armed at version `armedAt`, not before `start`. */
  ghost predicate ArmedAt(l: seq<Record>, start: nat, armedAt: nat, t: Topic, watch: Watch) {
    && start <= armedAt <= |l|
    && watch == Watch(Encoding.PackSentinelKey(t.ns), SentinelAt(l[..armedAt], t.ns))
  }

  /**
   One round of a subscriber through the store's own methods: arm the watch, load the
   cursor, catch up page by page with a cursor write after each, and park. Whatever
   others append meanwhile, the watch holds the sentinel of a version during the round;
   what was delivered is gap-free from a cursor loaded since then; the round's only
   commits store the cursor, after each page; if nobody else stores it, it ends at the
   last event delivered. A subscriber that parks has read to the end of the log at some
   version since the watch was armed, and while its watch is not due, nothing that it
   follows is missing.
   */
  method Round(db: Fdb.Database, t: Topic, limit: nat, rounds: nat)
    returns (r: Result<Watch>, delivered: seq<StoredEvent>, parked: bool, ghost from: Option<Versionstamp>,
          ghost applied: seq<nat>, ghost armedAt: nat, ghost at: nat)
    requires db.Valid()
    modifies db
    ensures db.Valid() && db.Grown() && db.own == old(db.own) + applied
    ensures r.Ok? ==> ArmedAt(db.ledger, |old(db.history)|, armedAt, t, r.value)
    ensures r.Ok? && parked ==> armedAt <= at && Ended(db.ledger, at, t, from, delivered)
    ensures Saves(db.ledger, |old(db.history)|, t, applied, delivered, limit, r.Err?)
    ensures r.Ok? ==> LoadedFrom(db.ledger, armedAt, t, from)
    ensures r.Ok? && OnlyConsumer(db.ledger, |old(db.history)|, t, applied) ==>
              CursorAt(db.ledger, t.ns, t.name) == NextBound(from, delivered)
    ensures r.Ok? && TypesApart(db.ledger, t.ns, t.q) ==> delivered <= Selected(LogOf(db.ledger, t.ns), t.q, from)
    ensures r.Ok? && parked && TypesApart(db.ledger, t.ns, t.q) && !Due(r.value, Kv.Replay(db.history)) ==>
              delivered == Selected(LogOf(db.ledger, t.ns), t.q, from)
    ensures r.Ok? && !parked ==> |delivered| >= rounds
    ensures r.Err? ==> ReadMethods.ReadError(t.q, r.error)
    ensures Fdb.Blamed(old(db.reports), db.reports, Fdb.FailureOf(r))
  {
    at := 0;
    r, armedAt := RegisterSentinelWatch(db, t.ns);
    ghost var armed, mid := db.ledger, db.reports;
    Fdb.FailedBlamed(old(db.reports), mid, Fdb.FailureOf(r));
    if r.Err? {
      return r, [], false, None, [], armedAt, at;
    }
    var followed;
    followed, delivered, parked, from, at, applied := Follow(db, t, limit, rounds);
    Fdb.BlamedLater(old(db.reports), mid, db.reports, Fdb.FailureOf(followed));
    RoundSaves(db.ledger, |old(db.history)|, armedAt, |armed|, t, applied, from, delivered, limit, followed.Err?);
    if followed.Err? {
      return Err(followed.error), delivered, false, from, applied, armedAt, at;
    }
    RoundResult(armed, db.history, db.ledger, |old(db.history)|, armedAt, at, t, r.value, from, delivered, parked);
  }
}

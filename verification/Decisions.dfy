/** Decisions over reads: appending on what was read, and reading page by page. */
module Decisions {
  import opened Bytes
  import opened Tuples
  import opened Types
  import opened Ledger
  import opened Matching
  import opened Reading
  import Probing
  import Fdb
  import ReadMethods
  import AppendMethods

  // -------------------------------------------------------------------------
  // Bounds
  // -------------------------------------------------------------------------

  /** The position to go on from after a page: its last one, or the bound it was read with. */
  function NextBound(after: Option<Versionstamp>, page: seq<StoredEvent>): Option<Versionstamp> {
    if page == [] then after else Some(page[|page| - 1].position)
  }

  lemma {:induction false} SelectedInLog(l: seq<Record>, ns: Bytes, q: Query, after: Option<Versionstamp>)
    ensures forall se :: se in Selected(LogOf(l, ns), q, after) <==> se in LogOf(l, ns) && Selects(q, after, se)
  {
    forall se ensures se in Selected(LogOf(l, ns), q, after) <==> se in LogOf(l, ns) && Selects(q, after, se) {
      SelectedHas(LogOf(l, ns), q, after, se);
    }
  }

  /** Two ordered lists of events of one log with the same elements are the same list. */
  lemma {:induction false} SameEvents(l: seq<Record>, ns: Bytes, a: seq<StoredEvent>, b: seq<StoredEvent>)
    requires Ledgered(l) && StrictlySorted(Positions(a)) && StrictlySorted(Positions(b))
    requires forall se :: se in a <==> se in b
    requires forall se :: se in a ==> se in LogOf(l, ns)
    ensures a == b
  {
    forall p ensures p in Positions(a) <==> p in Positions(b) {
      PositionOf(a, p);
      PositionOf(b, p);
    }
    SortedUnique(Positions(a), Positions(b));
    SamePositions(l, ns, a, b);
  }

  lemma {:induction false} SelectedPositionsSorted(l: seq<Record>, ns: Bytes, q: Query, after: Option<Versionstamp>)
    requires Ledgered(l)
    ensures StrictlySorted(Positions(Selected(LogOf(l, ns), q, after)))
  {
    LogSorted(l, ns);
    SelectedSorted(LogOf(l, ns), q, after);
  }

  /** A longer log selects more events only behind those it selected before. */
  lemma {:induction false} SelectedGrows(log: seq<StoredEvent>, n: nat, q: Query, after: Option<Versionstamp>)
    requires n <= |log|
    ensures Selected(log[..n], q, after) <= Selected(log, q, after)
    decreases |log|
  {
    if n == |log| {
      assert log[..n] == log;
    } else {
      var m := |log| - 1;
      SelectedGrows(log[..m], n, q, after);
      assert log[..m][..n] == log[..n];
    }
  }

  lemma {:induction false} SelectedPrefix(l: seq<Record>, n: nat, ns: Bytes, q: Query, after: Option<Versionstamp>)
    requires n <= |l|
    ensures Selected(LogOf(l[..n], ns), q, after) <= Selected(LogOf(l, ns), q, after)
  {
    LogPrefix(l, n, ns);
    var short, long := LogOf(l[..n], ns), LogOf(l, ns);
    assert long[..|short|] == short;
    SelectedGrows(long, |short|, q, after);
  }

  lemma {:induction false} TailSorted(all: seq<StoredEvent>, n: nat)
    requires n <= |all| && StrictlySorted(Positions(all))
    ensures StrictlySorted(Positions(all[n..]))
  {
    var tail := all[n..];
    forall i, j | 0 <= i < j < |tail| ensures Less(Positions(tail)[i], Positions(tail)[j]) {
      assert Positions(all)[n + i] == tail[i].position && Positions(all)[n + j] == tail[j].position;
    }
  }

  lemma {:induction false} AroundLast(all: seq<StoredEvent>, n: nat, i: nat)
    requires StrictlySorted(Positions(all)) && 0 < n <= |all| && i < |all|
    ensures Less(all[n - 1].position, all[i].position) <==> i >= n
  {
    assert Positions(all)[n - 1] == all[n - 1].position && Positions(all)[i] == all[i].position;
    if i < n - 1 {
      LessAsymmetric(all[i].position, all[n - 1].position);
    } else if i == n - 1 {
      LessIrreflexive(all[i].position);
    }
  }

  /** The events behind the first `n` are those after the last of them. */
  lemma {:induction false} TailHas(all: seq<StoredEvent>, n: nat, se: StoredEvent)
    requires StrictlySorted(Positions(all)) && 0 < n <= |all|
    ensures se in all[n..] <==> se in all && Less(all[n - 1].position, se.position)
  {
    var tail := all[n..];
    if se in tail {
      var i :| 0 <= i < |tail| && tail[i] == se;
      assert all[n + i] == se;
      AroundLast(all, n, n + i);
    }
    if se in all && Less(all[n - 1].position, se.position) {
      var i :| 0 <= i < |all| && all[i] == se;
      AroundLast(all, n, i);
      assert tail[i - n] == se;
    }
  }

  /** Reading on from the last position of a page gives exactly what the page left. */
  lemma {:induction false} SplitAtBound(l: seq<Record>, ns: Bytes, q: Query, after: Option<Versionstamp>,
        page: seq<StoredEvent>)
    requires Ledgered(l) && page <= Selected(LogOf(l, ns), q, after)
    ensures Selected(LogOf(l, ns), q, after) == page + Selected(LogOf(l, ns), q, NextBound(after, page))
  {
    if page == [] {
      assert page + Selected(LogOf(l, ns), q, after) == Selected(LogOf(l, ns), q, after);
    } else {
      var all, n := Selected(LogOf(l, ns), q, after), |page|;
      assert page == all[..n] && NextBound(after, page) == Some(all[n - 1].position);
      SplitAfter(l, ns, q, after, n);
    }
  }

  /** The selection, split behind its n-th event. */
  lemma {:induction false} SplitAfter(l: seq<Record>, ns: Bytes, q: Query, after: Option<Versionstamp>, n: nat)
    requires Ledgered(l) && 0 < n <= |Selected(LogOf(l, ns), q, after)|
    ensures var all := Selected(LogOf(l, ns), q, after);
            all == all[..n] + Selected(LogOf(l, ns), q, Some(all[n - 1].position))
  {
    var all := Selected(LogOf(l, ns), q, after);
    var bound := Some(all[n - 1].position);
    SelectedInLog(l, ns, q, after);
    SelectedPositionsSorted(l, ns, q, after);
    SelectedPositionsSorted(l, ns, q, bound);
    forall se ensures se in all[n..] <==> se in Selected(LogOf(l, ns), q, bound) {
      TailIsRest(LogOf(l, ns), q, after, n, se);
    }
    JoinTail(l, ns, all, n, Selected(LogOf(l, ns), q, bound));
  }

  lemma {:induction false} JoinTail(l: seq<Record>, ns: Bytes, all: seq<StoredEvent>, n: nat, rest: seq<StoredEvent>)
    requires Ledgered(l) && n <= |all| && StrictlySorted(Positions(all)) && StrictlySorted(Positions(rest))
    requires (forall se :: se in all ==> se in LogOf(l, ns)) && forall se :: se in all[n..] <==> se in rest
    ensures all == all[..n] + rest
  {
    TailSorted(all, n);
    SameEvents(l, ns, all[n..], rest);
  }

  lemma {:induction false} TailIsRest(log: seq<StoredEvent>, q: Query, after: Option<Versionstamp>, n: nat,
        se: StoredEvent)
    requires 0 < n <= |Selected(log, q, after)| && StrictlySorted(Positions(Selected(log, q, after)))
    ensures var all := Selected(log, q, after);
            se in all[n..] <==> se in Selected(log, q, Some(all[n - 1].position))
  {
    var all := Selected(log, q, after);
    var last := all[n - 1];
    TailHas(all, n, se);
    SelectedHas(log, q, after, se);
    SelectedHas(log, q, after, last);
    SelectedHas(log, q, Some(last.position), se);
    StaysAfter(after, last, se);
  }

  /** Past a selected position is past the bound as well. */
  lemma {:induction false} StaysAfter(after: Option<Versionstamp>, last: StoredEvent, se: StoredEvent)
    requires After(last.position, after)
    ensures Less(last.position, se.position) ==> After(se.position, after)
  {
    if after.Some? && Less(last.position, se.position) {
      LessTransitive(after.value, last.position, se.position);
    }
  }

  // -------------------------------------------------------------------------
  // Read, decide, append
  // -------------------------------------------------------------------------

  /** If nothing stands against "nothing after the bound", the query selects nothing after it. */
  lemma {:induction false} UnblockedSelectsNone(log: seq<StoredEvent>, q: Query, after: Option<Versionstamp>)
    requires !Probing.AnyBlocks(log, Probing.ProbesOf([AppendCondition(q, after)]))
    ensures Selected(log, q, after) == []
  {
    var found := Selected(log, q, after);
    if found != [] {
      SelectedHas(log, q, after, found[0]);
      var cond := AppendCondition(q, after);
      assert cond in [cond] && Selects(cond.query, cond.after, found[0]);
      Probing.SelectedBlocks(log, [cond]);
    }
  }

  /** Nothing selected behind what was read: that is all there is. */
  lemma {:induction false} NothingBehind(before: seq<Record>, now: seq<Record>, ns: Bytes, q: Query,
        after: Option<Versionstamp>)
    requires Ledgered(now) && before <= now
    requires Selected(LogOf(now, ns), q, NextBound(after, Selected(LogOf(before, ns), q, after))) == []
    ensures Selected(LogOf(now, ns), q, after) == Selected(LogOf(before, ns), q, after)
  {
    assert now[..|before|] == before;
    SelectedPrefix(now, |before|, ns, q, after);
    SplitAtBound(now, ns, q, after, Selected(LogOf(before, ns), q, after));
  }

  /**
   What was read from a ledger is still all there is in a longer one, if nothing there
   stands against the condition "nothing new after the last event read".
   */
  lemma {:induction false} ReadStillCurrent(before: seq<Record>, now: seq<Record>, ns: Bytes, q: Query,
        after: Option<Versionstamp>)
    requires Ledgered(now) && before <= now
    requires var bound := NextBound(after, Selected(LogOf(before, ns), q, after));
             !Probing.AnyBlocks(LogOf(now, ns), Probing.ProbesOf([AppendCondition(q, bound)]))
    ensures Selected(LogOf(now, ns), q, after) == Selected(LogOf(before, ns), q, after)
  {
    UnblockedSelectsNone(LogOf(now, ns), q, NextBound(after, Selected(LogOf(before, ns), q, after)));
    NothingBehind(before, now, ns, q, after);
  }

  /** What is new in a longer ledger lies after everything that was there before. */
  lemma {:induction false} NewerPosition(l: seq<Record>, at: nat, ns: Bytes, e: StoredEvent, se: StoredEvent)
    requires Ledgered(l) && at <= |l| && e in LogOf(l[..at], ns)
    requires se in LogOf(l, ns) && se !in LogOf(l[..at], ns)
    ensures Less(e.position, se.position)
  {
    LogSuffix(l, at, ns, se);
    var j :| at <= j < |l| && se in RecordEvents(l[j], ns);
    RecordAfter(l, at, ns, j, e, se);
  }

  /** An event selected from a longer ledger was there before, or lies after all that was read. */
  lemma {:induction false} BehindRead(l: seq<Record>, at: nat, ns: Bytes, events: seq<StoredEvent>, se: StoredEvent)
    requires Ledgered(l) && at <= |l| && se in LogOf(l, ns)
    requires forall e :: e in events ==> e in LogOf(l[..at], ns)
    ensures se in LogOf(l[..at], ns) || After(se.position, NextBound(None, events))
  {
    if se !in LogOf(l[..at], ns) && events != [] {
      NewerPosition(l, at, ns, events[|events| - 1], se);
    }
  }

  /**
   For all type names: if nothing stands against "nothing after the last event read",
   an unlimited read has not missed anything that is selected by now.
   */
  lemma {:induction false} ReadMissesNothing(l: seq<Record>, at: nat, ns: Bytes, q: Query, events: seq<StoredEvent>)
    requires Ledgered(l) && at <= |l| && Dependable(l[..at], ns, q, ReadOptions(0, None, false), events)
    requires !Probing.AnyBlocks(LogOf(l, ns), Probing.ProbesOf([AppendCondition(q, NextBound(None, events))]))
    ensures Reaches(l, ns, q, None, events)
  {
    var cond := AppendCondition(q, NextBound(None, events));
    forall se | se in LogOf(l, ns) && Selects(q, None, se) ensures se in events {
      BehindRead(l, at, ns, events, se);
      if se !in LogOf(l[..at], ns) {
        assert cond in [cond] && Selects(q, cond.after, se);
        Probing.SelectedBlocks(LogOf(l, ns), [cond]);
      }
    }
  }

  lemma {:induction false} LoneCondition(cond: AppendCondition)
    ensures (forall c :: c in [cond] ==>
               && c.query.items != []
               && forall item :: item in c.query.items ==>
                    (item.types != [] || item.tags != []) && [0x5F] !in item.tags)
            <==>
            && cond.query.items != []
            && forall item :: item in cond.query.items ==>
                 (item.types != [] || item.tags != []) && [0x5F] !in item.tags
  {
    assert cond in [cond];
  }

  /** The append was tried: its events and conditions are valid. */
  ghost predicate Passes(r: Result<Versionstamp>) {
    r.Ok? || r.error.Fdb? || r.error.AppendConditionFailed?
  }

  /** Appends on one condition. */
  method AppendOnCondition(db: Fdb.Database, ns: Bytes, q: Query, bound: Option<Versionstamp>, events: seq<Event>)
    returns (r: Result<Versionstamp>, ghost applied: seq<nat>, ghost seen: nat)
    requires db.Valid()
    modifies db
    ensures db.Valid() && db.Grown() && db.own == old(db.own) + applied
    ensures AppendMethods.AppendOutcome(db, |old(db.history)|, ns, events, [AppendCondition(q, bound)],
              r, applied, seen)
    ensures Passes(r) <==>
              && 0 < |events| <= 65535
              && (forall e :: e in events ==> e.typeName != [] && |e.tags| <= 10 && [0x5F] !in e.tags)
              && q.items != []
              && forall item :: item in q.items ==> (item.types != [] || item.tags != []) && [0x5F] !in item.tags
    ensures AppendMethods.AppendReports(old(db.reports), db.reports, 100, r, applied)
  {
    var cond := AppendCondition(q, bound);
    r, applied, seen := AppendMethods.Append(db, ns, events, [cond]);
    LoneCondition(cond);
  }

  /** Appends on the condition that nothing was added to what was read at `at`. */
  method AppendOnRead(db: Fdb.Database, ns: Bytes, q: Query, events: seq<Event>, read: seq<StoredEvent>, ghost at: nat)
    returns (r: Result<Versionstamp>, ghost applied: seq<nat>, ghost seen: nat)
    requires db.Valid() && at <= |db.history|
    requires ReadPromise(db.ledger, at, ns, q, ReadOptions(0, None, false), read)
    modifies db
    ensures db.Valid() && db.Grown() && |db.history| == |db.ledger| && db.own == old(db.own) + applied
    ensures ReadPromise(db.ledger, at, ns, q, ReadOptions(0, None, false), read)
    ensures AppendMethods.AppendOutcome(db, at, ns, events, [AppendCondition(q, NextBound(None, read))],
              r, applied, seen)
    ensures forall k :: k in applied ==>
              at <= k < |db.ledger| && db.ledger[k] == Appended(ns, events, db.ledger[k].version)
    ensures forall k :: k in applied ==> Decided(db.ledger, at, k, ns, q, read)
    ensures Passes(r) <==>
              && 0 < |events| <= 65535
              && (forall e :: e in events ==> e.typeName != [] && |e.tags| <= 10 && [0x5F] !in e.tags)
              && q.items != []
              && forall item :: item in q.items ==> (item.types != [] || item.tags != []) && [0x5F] !in item.tags
    ensures AppendMethods.AppendReports(old(db.reports), db.reports, 100, r, applied)
  {
    ghost var before := db.ledger;
    r, applied, seen := AppendOnCondition(db, ns, q, NextBound(None, read), events);
    assert db.ledger[..at] == before[..at];
    OutcomeDecided(db, at, ns, q, events, read, r, applied, seen);
  }

  /**
   The pattern the store is for, run through its own methods: read everything a query
   selects, decide, and append on the condition that nothing was added since. The only
   commits of the call are at most one of its own batch, after the version that was
   read. At that moment the query selects nothing that the client has not read, for all
   type names, and with types apart exactly what it read, however others interleaved.
   */
  method ReadDecideAppend(db: Fdb.Database, ns: Bytes, q: Query, events: seq<Event>)
    returns (read: Result<seq<StoredEvent>>, r: Result<Versionstamp>, ghost applied: seq<nat>, ghost at: nat,
          ghost seen: nat)
    requires db.Valid()
    modifies db
    ensures db.Valid() && db.Grown() && |db.history| == |db.ledger| && db.own == old(db.own) + applied
    ensures |old(db.history)| <= at <= |db.ledger|
    ensures read.Ok? ==> ReadPromise(db.ledger, at, ns, q, ReadOptions(0, None, false), read.value)
    ensures read.Err? ==> r == Err(read.error) && applied == []
    ensures read.Ok? ==>
              AppendMethods.AppendOutcome(db, at, ns, events, [AppendCondition(q, NextBound(None, read.value))],
                r, applied, seen)
    ensures forall k :: k in applied ==>
              at <= k < |db.ledger| && db.ledger[k] == Appended(ns, events, db.ledger[k].version)
    ensures read.Ok? ==> forall k :: k in applied ==> Decided(db.ledger, at, k, ns, q, read.value)
    ensures read.Err? ==> ReadMethods.ReadError(q, read.error)
    ensures read.Ok? ==>
              (Passes(r) <==>
                && 0 < |events| <= 65535
                && (forall e :: e in events ==> e.typeName != [] && |e.tags| <= 10 && [0x5F] !in e.tags)
                && q.items != [])
    ensures Fdb.Blamed(old(db.reports), db.reports, Fdb.FailureOf(r))
  {
    read, at := ReadMethods.Read(db, ns, q, ReadOptions(0, None, false));
    ghost var mid := db.reports;
    Fdb.CallBlamed(old(db.reports), mid, 10, Fdb.FailureOf(read));
    if read.Err? {
      return read, Err(read.error), [], at, 0;
    }
    r, applied, seen := AppendOnRead(db, ns, q, events, read.value, at);
    AppendMethods.AppendBlamed(mid, db.reports, 100, r, applied);
    Fdb.BlamedLater(old(db.reports), mid, db.reports, Fdb.FailureOf(r));
  }

  /** Every commit of an append that was conditional on what was read was decided on it. */
  lemma {:induction false} OutcomeDecided(db: Fdb.Database, at: nat, ns: Bytes, q: Query, events: seq<Event>,
        read: seq<StoredEvent>, r: Result<Versionstamp>, applied: seq<nat>, seen: nat)
    requires db.Valid() && ReadPromise(db.ledger, at, ns, q, ReadOptions(0, None, false), read)
    requires AppendMethods.AppendOutcome(db, at, ns, events, [AppendCondition(q, NextBound(None, read))],
               r, applied, seen)
    ensures forall k :: k in applied ==>
              at <= k < |db.ledger| && db.ledger[k] == Appended(ns, events, db.ledger[k].version)
    ensures forall k :: k in applied ==> Decided(db.ledger, at, k, ns, q, read)
  {
    forall k | k in applied ensures Decided(db.ledger, at, k, ns, q, read) {
      StillDecided(db.ledger, at, k, ns, q, read);
    }
  }

  /** Just before index `k` the query selects nothing but what was read at `at`; with types
      apart, all of it. */
  ghost predicate Decided(l: seq<Record>, at: nat, k: nat, ns: Bytes, q: Query, read: seq<StoredEvent>) {
    && at <= k <= |l|
    && Reaches(l[..k], ns, q, None, read)
    && (TypesApart(l[..at], ns, q) ==> Selected(LogOf(l[..k], ns), q, None) == read)
  }

  /** What was read is what is selected just before the append that depends on it. */
  lemma {:induction false} StillDecided(l: seq<Record>, at: nat, k: nat, ns: Bytes, q: Query, read: seq<StoredEvent>)
    requires Ledgered(l) && at <= k <= |l|
    requires ReadPromise(l, at, ns, q, ReadOptions(0, None, false), read)
    requires !Probing.AnyBlocks(LogOf(l[..k], ns), Probing.ProbesOf([AppendCondition(q, NextBound(None, read))]))
    ensures Decided(l, at, k, ns, q, read)
  {
    LedgeredPrefix(l, k);
    assert l[..k][..at] == l[..at];
    ReadMissesNothing(l[..k], at, ns, q, read);
    if TypesApart(l[..at], ns, q) {
      ReadStillCurrent(l[..at], l[..k], ns, q, None);
    }
  }

  lemma {:induction false} LedgeredPrefix(l: seq<Record>, k: nat)
    requires Ledgered(l) && k <= |l|
    ensures Ledgered(l[..k])
  {
  }

  // -------------------------------------------------------------------------
  // Pages
  // -------------------------------------------------------------------------

  /** A page read at some version of the log. */
  datatype Page = Page(at: nat, limit: nat, events: seq<StoredEvent>)

  /** Each page is what a read promises after the last position of the one before. */
  ghost predicate Chained(l: seq<Record>, ns: Bytes, q: Query, after: Option<Versionstamp>, pages: seq<Page>)
    decreases |pages|
  {
    pages != [] ==>
      && ReadPromise(l, pages[0].at, ns, q, ReadOptions(pages[0].limit, after, false), pages[0].events)
      && Chained(l, ns, q, NextBound(after, pages[0].events), pages[1..])
  }

  function AllEvents(pages: seq<Page>): seq<StoredEvent> {
    if pages == [] then [] else pages[0].events + AllEvents(pages[1..])
  }

  lemma {:induction false} CutPrefix<T>(s: seq<T>, limit: nat)
    ensures Cut(s, limit) <= s
  {
  }

  lemma {:induction false} PrefixOfPrefix<T>(a: seq<T>, b: seq<T>, c: seq<T>)
    requires a <= b <= c
    ensures a <= c
  {
  }

  lemma {:induction false} PrefixUnder<T>(p: seq<T>, a: seq<T>, b: seq<T>)
    requires a <= b
    ensures p + a <= p + b
  {
  }

  /**
   Pagination has no gaps and no repeats: pages of any sizes, read one after the other
   while others append, make up an initial part of what the query selects from the
   final log.
   */
  lemma {:induction false} PagesGapFree(l: seq<Record>, ns: Bytes, q: Query, after: Option<Versionstamp>,
        pages: seq<Page>)
    requires Ledgered(l) && Chained(l, ns, q, after, pages) && TypesApart(l, ns, q)
    ensures AllEvents(pages) <= Selected(LogOf(l, ns), q, after)
    decreases |pages|
  {
    if pages != [] {
      var page := pages[0];
      PromiseKept(l, page.at, ns, q, ReadOptions(page.limit, after, false), page.events);
      var there := Selected(LogOf(l[..page.at], ns), q, after);
      CutPrefix(there, page.limit);
      SelectedPrefix(l, page.at, ns, q, after);
      PrefixOfPrefix(page.events, there, Selected(LogOf(l, ns), q, after));
      SplitAtBound(l, ns, q, after, page.events);
      PagesGapFree(l, ns, q, NextBound(after, page.events), pages[1..]);
      PrefixUnder(page.events, AllEvents(pages[1..]), Selected(LogOf(l, ns), q, NextBound(after, page.events)));
    }
  }

  lemma {:induction false} FullPageReaches(l: seq<Record>, ns: Bytes, q: Query, after: Option<Versionstamp>, page: Page)
    requires page.at <= |l| && (page.limit == 0 || |page.events| < page.limit)
    requires page.events == ReadSpec(LogOf(l[..page.at], ns), q, ReadOptions(page.limit, after, false))
    ensures Reaches(l[..page.at], ns, q, after, page.events)
  {
    forall se | se in LogOf(l[..page.at], ns) && Selects(q, after, se) ensures se in page.events {
      SelectedHas(LogOf(l[..page.at], ns), q, after, se);
    }
  }

  /** What the later pages reach, all pages reach together. */
  lemma {:induction false} PageReachesOn(l: seq<Record>, ns: Bytes, q: Query, after: Option<Versionstamp>, page: Page,
        at: nat, rest: seq<StoredEvent>)
    requires Ledgered(l) && page.at <= |l| && at <= |l|
    requires page.events == ReadSpec(LogOf(l[..page.at], ns), q, ReadOptions(page.limit, after, false))
    requires Reaches(l[..at], ns, q, NextBound(after, page.events), rest)
    ensures Reaches(l[..at], ns, q, after, page.events + rest)
  {
    forall se | se in LogOf(l[..at], ns) && Selects(q, after, se) ensures se in page.events + rest {
      LogHasPrefix(l, at, ns, se);
      PageOrBeyond(l, ns, q, after, page, se);
    }
  }

  ghost predicate EndsIn(pages: seq<Page>, last: Page) {
    pages != [] && pages[|pages| - 1] == last
  }

  ghost predicate NotFull(page: Page) {
    page.limit == 0 || |page.events| < page.limit
  }

  /** The first of the pages is what it should be, and the others follow it. */
  lemma {:induction false} ChainedNext(l: seq<Record>, ns: Bytes, q: Query, after: Option<Versionstamp>,
        pages: seq<Page>)
    requires Chained(l, ns, q, after, pages) && pages != [] && TypesApart(l, ns, q)
    ensures pages[0].at <= |l|
    ensures pages[0].events == ReadSpec(LogOf(l[..pages[0].at], ns), q, ReadOptions(pages[0].limit, after, false))
    ensures Chained(l, ns, q, NextBound(after, pages[0].events), pages[1..])
    ensures AllEvents(pages) == pages[0].events + AllEvents(pages[1..])
  {
    PromiseKept(l, pages[0].at, ns, q, ReadOptions(pages[0].limit, after, false), pages[0].events);
  }

  lemma {:induction false} OnlyPageReaches(l: seq<Record>, ns: Bytes, q: Query, after: Option<Versionstamp>,
        pages: seq<Page>)
    requires Chained(l, ns, q, after, pages) && TypesApart(l, ns, q) && |pages| == 1 && NotFull(pages[0])
    ensures pages[0].at <= |l| && Reaches(l[..pages[0].at], ns, q, after, AllEvents(pages))
  {
    ChainedNext(l, ns, q, after, pages);
    FullPageReaches(l, ns, q, after, pages[0]);
    assert AllEvents(pages) == pages[0].events;
  }

  lemma {:induction false} FirstPageReachesOn(l: seq<Record>, ns: Bytes, q: Query, after: Option<Versionstamp>,
        pages: seq<Page>, at: nat)
    requires Ledgered(l) && Chained(l, ns, q, after, pages) && TypesApart(l, ns, q) && pages != [] && at <= |l|
    requires Reaches(l[..at], ns, q, NextBound(after, pages[0].events), AllEvents(pages[1..]))
    ensures Reaches(l[..at], ns, q, after, AllEvents(pages))
  {
    ChainedNext(l, ns, q, after, pages);
    PageReachesOn(l, ns, q, after, pages[0], at, AllEvents(pages[1..]));
  }

  /** A last page that is not full has reached the end of the log it was read from. */
  lemma {:induction false} LastPageReachesEnd(l: seq<Record>, ns: Bytes, q: Query, after: Option<Versionstamp>,
        pages: seq<Page>, last: Page)
    requires Ledgered(l) && Chained(l, ns, q, after, pages) && TypesApart(l, ns, q)
    requires EndsIn(pages, last) && last.at <= |l| && NotFull(last)
    ensures Reaches(l[..last.at], ns, q, after, AllEvents(pages))
    decreases |pages|
  {
    var others := pages[1..];
    if others == [] {
      OnlyPageReaches(l, ns, q, after, pages);
    } else {
      assert others[|others| - 1] == pages[|pages| - 1];
      LastPageReachesEnd(l, ns, q, NextBound(after, pages[0].events), others, last);
      FirstPageReachesOn(l, ns, q, after, pages, last.at);
    }
  }

  /** What a page does not contain is selected from its last position on. */
  lemma {:induction false} PageOrBeyond(l: seq<Record>, ns: Bytes, q: Query, after: Option<Versionstamp>, page: Page,
        se: StoredEvent)
    requires Ledgered(l) && page.at <= |l| && se in LogOf(l, ns) && Selects(q, after, se)
    requires page.events == ReadSpec(LogOf(l[..page.at], ns), q, ReadOptions(page.limit, after, false))
    ensures se in page.events || Selects(q, NextBound(after, page.events), se)
  {
    var there, all := Selected(LogOf(l[..page.at], ns), q, after), Selected(LogOf(l, ns), q, after);
    CutPrefix(there, page.limit);
    SelectedPrefix(l, page.at, ns, q, after);
    PrefixOfPrefix(page.events, there, all);
    SplitAtBound(l, ns, q, after, page.events);
    SelectedHas(LogOf(l, ns), q, after, se);
    SelectedHas(LogOf(l, ns), q, NextBound(after, page.events), se);
  }

  lemma {:induction false} LogHasPrefix(l: seq<Record>, n: nat, ns: Bytes, se: StoredEvent)
    requires n <= |l|
    ensures se in LogOf(l[..n], ns) ==> se in LogOf(l, ns)
  {
    LogPrefix(l, n, ns);
  }

  /** One more page behind what was read before. */
  lemma {:induction false} PageFollows(before: seq<Record>, l: seq<Record>, ns: Bytes, q: Query,
        start: Option<Versionstamp>, got: seq<StoredEvent>, page: Page)
    requires Ledgered(l) && before <= l && page.at <= |l|
    requires got <= Selected(LogOf(before, ns), q, start)
    requires page.events == ReadSpec(LogOf(l[..page.at], ns), q, ReadOptions(page.limit, NextBound(start, got), false))
    ensures got + page.events <= Selected(LogOf(l, ns), q, start)
  {
    var all, bound := Selected(LogOf(l, ns), q, start), NextBound(start, got);
    assert l[..|before|] == before;
    SelectedPrefix(l, |before|, ns, q, start);
    PrefixOfPrefix(got, Selected(LogOf(before, ns), q, start), all);
    SplitAtBound(l, ns, q, start, got);
    var there := Selected(LogOf(l[..page.at], ns), q, bound);
    CutPrefix(there, page.limit);
    SelectedPrefix(l, page.at, ns, q, bound);
    PrefixOfPrefix(page.events, there, Selected(LogOf(l, ns), q, bound));
    PrefixUnder(got, page.events, Selected(LogOf(l, ns), q, bound));
  }

  /** A page that is not full reaches the end, together with what was read before. */
  lemma {:induction false} PageEnds(l: seq<Record>, ns: Bytes, q: Query, start: Option<Versionstamp>,
        got: seq<StoredEvent>, page: Page)
    requires Ledgered(l) && page.at <= |l| && (page.limit == 0 || |page.events| < page.limit)
    requires got <= Selected(LogOf(l, ns), q, start)
    requires page.events == ReadSpec(LogOf(l[..page.at], ns), q, ReadOptions(page.limit, NextBound(start, got), false))
    ensures Reaches(l[..page.at], ns, q, start, got + page.events)
  {
    FullPageReaches(l, ns, q, NextBound(start, got), page);
    SplitAtBound(l, ns, q, start, got);
    forall se | se in LogOf(l[..page.at], ns) && Selects(q, start, se) ensures se in got + page.events {
      LogHasPrefix(l, page.at, ns, se);
      SelectedHas(LogOf(l, ns), q, start, se);
      SelectedHas(LogOf(l, ns), q, NextBound(start, got), se);
    }
  }

  /** What was read so far is an initial part of what the query selects. */
  ghost predicate GapFreeSoFar(l: seq<Record>, ns: Bytes, q: Query, start: Option<Versionstamp>,
        got: seq<StoredEvent>)
  {
    TypesApart(l, ns, q) ==> got <= Selected(LogOf(l, ns), q, start)
  }

  /** What was read so far leaves out nothing of the log at version `at`. */
  ghost predicate AtEnd(l: seq<Record>, at: nat, ns: Bytes, q: Query, start: Option<Versionstamp>,
        got: seq<StoredEvent>)
  {
    at <= |l| && (TypesApart(l, ns, q) ==> Reaches(l[..at], ns, q, start, got))
  }

  /** What was read stays an initial part when the ledger grows. */
  lemma {:induction false} GapFreeGrows(before: seq<Record>, l: seq<Record>, ns: Bytes, q: Query,
        start: Option<Versionstamp>, got: seq<StoredEvent>)
    requires before <= l && GapFreeSoFar(before, ns, q, start, got)
    ensures GapFreeSoFar(l, ns, q, start, got)
  {
    if TypesApart(l, ns, q) {
      assert l[..|before|] == before;
      TypesApartBefore(l, |before|, ns, q);
      SelectedPrefix(l, |before|, ns, q, start);
      PrefixOfPrefix(got, Selected(LogOf(before, ns), q, start), Selected(LogOf(l, ns), q, start));
    }
  }

  /** A page read after `got` goes on behind it without a gap. */
  lemma {:induction false} PageGapFree(before: seq<Record>, l: seq<Record>, ns: Bytes, q: Query,
        start: Option<Versionstamp>, got: seq<StoredEvent>, page: Page)
    requires Ledgered(l) && before <= l && GapFreeSoFar(before, ns, q, start, got)
    requires ReadPromise(l, page.at, ns, q, ReadOptions(page.limit, NextBound(start, got), false), page.events)
    ensures GapFreeSoFar(l, ns, q, start, got + page.events)
    ensures page.limit == 0 || |page.events| < page.limit ==> AtEnd(l, page.at, ns, q, start, got + page.events)
  {
    GapFreeGrows(before, l, ns, q, start, got);
    if TypesApart(l, ns, q) {
      PromiseKept(l, page.at, ns, q, ReadOptions(page.limit, NextBound(start, got), false), page.events);
      PageFollows(l, l, ns, q, start, got, page);
      if page.limit == 0 || |page.events| < page.limit {
        PageEnds(l, ns, q, start, got, page);
      }
    }
  }

  /** Reads the page that follows `got`. */
  method ReadNextPage(db: Fdb.Database, ns: Bytes, q: Query, start: Option<Versionstamp>, limit: nat,
        got: seq<StoredEvent>) returns (r: Result<seq<StoredEvent>>, ghost at: nat)
    requires db.Valid() && GapFreeSoFar(db.ledger, ns, q, start, got)
    modifies db
    ensures db.Valid() && db.OnlyOthers() && |old(db.history)| <= at <= |db.history| == |db.ledger|
    ensures r.Ok? ==> GapFreeSoFar(db.ledger, ns, q, start, got + r.value)
    ensures r.Ok? ==>
              ReadPromise(db.ledger, at, ns, q, ReadOptions(limit, NextBound(start, got), false), r.value)
    ensures r.Err? ==> ReadMethods.ReadError(q, r.error)
    ensures Fdb.Blamed(old(db.reports), db.reports, Fdb.FailureOf(r))
    ensures r.Ok? && (limit == 0 || |r.value| < limit) ==> AtEnd(db.ledger, at, ns, q, start, got + r.value)
  {
    r, at := ReadMethods.Read(db, ns, q, ReadOptions(limit, NextBound(start, got), false));
    Fdb.CallBlamed(old(db.reports), db.reports, 10, Fdb.FailureOf(r));
    if r.Ok? {
      PageGapFree(old(db.ledger), db.ledger, ns, q, start, got, Page(at, limit, r.value));
    }
  }

  /** The events of `pages` full pages. */
  ghost function FullPages(pages: nat, limit: nat): nat {
    if pages == 0 then 0 else FullPages(pages - 1, limit) + limit
  }

  lemma {:induction false} FullPagesSize(pages: nat, limit: nat)
    ensures FullPages(pages, limit) == pages * limit
  {
    if pages > 0 {
      FullPagesSize(pages - 1, limit);
      assert pages * limit == (pages - 1) * limit + limit;
    }
  }

  /** Page number `i`: what was read so far is `i` full pages, and with this one `i + 1` if it is full. */
  method ReadPageOn(db: Fdb.Database, ns: Bytes, q: Query, start: Option<Versionstamp>, limit: nat,
        got: seq<StoredEvent>, ghost i: nat)
    returns (r: Result<seq<StoredEvent>>, full: bool, ghost at: nat)
    requires db.Valid() && GapFreeSoFar(db.ledger, ns, q, start, got) && |got| == FullPages(i, limit)
    modifies db
    ensures db.Valid() && db.OnlyOthers() && |old(db.history)| <= at
    ensures r.Ok? ==> GapFreeSoFar(db.ledger, ns, q, start, r.value)
    ensures r.Ok? && full ==> limit > 0 && |r.value| == FullPages(i + 1, limit)
    ensures r.Ok? && !full ==> AtEnd(db.ledger, at, ns, q, start, r.value)
    ensures r.Err? ==> ReadMethods.ReadError(q, r.error)
    ensures Fdb.Blamed(old(db.reports), db.reports, Fdb.FailureOf(r))
  {
    var page;
    page, at := ReadNextPage(db, ns, q, start, limit, got);
    if page.Err? {
      return page, false, at;
    }
    r, full := Ok(got + page.value), limit > 0 && |page.value| >= limit;
  }

  /** The loop of `ReadInPages`. */
  method PageLoop(db: Fdb.Database, ns: Bytes, q: Query, start: Option<Versionstamp>, limit: nat, rounds: nat)
    returns (r: Result<seq<StoredEvent>>, complete: bool, ghost at: nat)
    requires db.Valid()
    modifies db
    ensures db.Valid() && db.OnlyOthers()
    ensures r.Ok? ==> GapFreeSoFar(db.ledger, ns, q, start, r.value)
    ensures r.Ok? && complete ==> |old(db.history)| <= at && AtEnd(db.ledger, at, ns, q, start, r.value)
    ensures r.Ok? && !complete ==> |r.value| == FullPages(rounds, limit) && (limit == 0 ==> rounds == 0)
    ensures r.Err? ==> ReadMethods.ReadError(q, r.error)
    ensures Fdb.Blamed(old(db.reports), db.reports, Fdb.FailureOf(r))
  {
    complete, at := false, 0;
    var got: seq<StoredEvent> := [];
    for i := 0 to rounds
      invariant db.Valid() && db.OnlyOthers() && GapFreeSoFar(db.ledger, ns, q, start, got)
      invariant |got| == FullPages(i, limit) && (limit == 0 ==> i == 0)
      invariant old(db.reports) <= db.reports
    {
      ghost var before := db.reports;
      var page, full;
      page, full, at := ReadPageOn(db, ns, q, start, limit, got, i);
      Fdb.BlamedLater(old(db.reports), before, db.reports, Fdb.FailureOf(page));
      if page.Err? || !full {
        return page, page.Ok?, at;
      }
      got := page.value;
    }
    return Ok(got), false, at;
  }

  /**
   Reads page after page through the store, at most `rounds` of them, until one is not
   full. Whatever is appended meanwhile, the pages make up an initial part of what the
   query selects, and if the last one was not full they leave out nothing of the log
   that it was read from. Otherwise all of them were full.
   */
  method ReadInPages(db: Fdb.Database, ns: Bytes, q: Query, start: Option<Versionstamp>, limit: nat, rounds: nat)
    returns (r: Result<seq<StoredEvent>>, complete: bool, ghost at: nat)
    requires db.Valid()
    modifies db
    ensures db.Valid() && db.OnlyOthers()
    ensures r.Ok? && TypesApart(db.ledger, ns, q) ==> r.value <= Selected(LogOf(db.ledger, ns), q, start)
    ensures r.Ok? && complete ==> |old(db.history)| <= at && AtEnd(db.ledger, at, ns, q, start, r.value)
    ensures r.Ok? && !complete ==> |r.value| == rounds * limit && (limit == 0 ==> rounds == 0)
    ensures r.Err? ==> ReadMethods.ReadError(q, r.error)
    ensures Fdb.Blamed(old(db.reports), db.reports, Fdb.FailureOf(r))
  {
    r, complete, at := PageLoop(db, ns, q, start, limit, rounds);
    FullPagesSize(rounds, limit);
  }
}

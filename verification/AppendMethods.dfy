/** `append.rs`: the conditional append, with its probes, its writes and its retry loop. */
module AppendMethods {
  import opened Bytes
  import opened Tuples
  import opened Types
  import opened Encoding
  import opened Kv
  import opened Ledger
  import opened Probing
  import opened Fdb
  import Matching
  import QueryMethods

  const APPEND_RETRY_LIMIT: nat := 100

  // -------------------------------------------------------------------------
  // Writes
  // -------------------------------------------------------------------------

  function IndexMutation(ns: Bytes, subset: seq<Bytes>, typeName: Bytes, index: nat): Mutation {
    SetVersionstampedKey(PackWithVersionstamp(IndexHead(ns, subset, typeName), index), [])
  }

  function IndexMutations(ns: Bytes, subsets: seq<seq<Bytes>>, typeName: Bytes, index: nat): (r: seq<Mutation>)
    ensures |r| == |subsets| && forall i :: 0 <= i < |subsets| ==>
              r[i] == IndexMutation(ns, subsets[i], typeName, index)
  {
    seq(|subsets|, i requires 0 <= i < |subsets| => IndexMutation(ns, subsets[i], typeName, index))
  }

  function PrimaryMutation(ns: Bytes, e: Event, index: nat): Mutation {
    SetVersionstampedKey(PackEventKeyFdb(ns, index), EncodeEventValue(e))
  }

  function EventMutations(ns: Bytes, e: Event, index: nat): seq<Mutation> {
    [PrimaryMutation(ns, e, index)] + IndexMutations(ns, Subsets(Canonical(e.tags)), e.typeName, index)
  }

  function BatchMutations(ns: Bytes, events: seq<Event>): seq<Mutation> {
    if events == [] then []
    else
      var n := |events| - 1;
      BatchMutations(ns, events[..n]) + EventMutations(ns, events[n], n)
  }

  const SENTINEL_TEMPLATE: Template := Template([0, 0, 0, 0, 0, 0, 0, 0, 0, 0, 0, 0], 0)

  function AppendMutations(ns: Bytes, events: seq<Event>): seq<Mutation> {
    BatchMutations(ns, events) + [SetVersionstampedValue(PackSentinelKey(ns), SENTINEL_TEMPLATE)]
  }

  ghost predicate AllResolvable(ms: seq<Mutation>) {
    forall m :: m in ms ==> Resolvable(m)
  }

  /** Index keys have empty values. */
  function IndexWrites(ns: Bytes, subsets: seq<seq<Bytes>>, t: Bytes, p: Versionstamp): map<Bytes, Bytes> {
    map k | k in SubsetKeys(ns, subsets, t, p) :: []
  }

  lemma {:induction false} OneMoreIndex(ns: Bytes, subsets: seq<seq<Bytes>>, t: Bytes, p: Versionstamp,
        before: map<Bytes, Bytes>)
    requires subsets != []
    ensures var n := |subsets| - 1;
            (before + IndexWrites(ns, subsets[..n], t, p))[PackIndexKey(ns, subsets[n], t, p) := []]
                == before + IndexWrites(ns, subsets, t, p)
  {
    var n := |subsets| - 1;
    assert subsets == subsets[..n] + [subsets[n]];
    assert SubsetKeys(ns, subsets, t, p) == SubsetKeys(ns, subsets[..n], t, p) + {PackIndexKey(ns, subsets[n], t, p)};
  }

  lemma {:induction false} IndexMutationResolvable(ns: Bytes, subset: seq<Bytes>, t: Bytes, index: nat)
    ensures Resolvable(IndexMutation(ns, subset, t, index))
  {
    ResolvedKeys(ns, subset, t, index, 0);
  }

  lemma {:induction false} IndexMutationsResolvable(ms: seq<Mutation>, ns: Bytes, subsets: seq<seq<Bytes>>, t: Bytes,
        index: nat)
    requires AllResolvable(ms)
    ensures AllResolvable(ms + IndexMutations(ns, subsets, t, index))
  {
    forall m | m in IndexMutations(ns, subsets, t, index) ensures Resolvable(m) {
      var i :| 0 <= i < |subsets| && m == IndexMutation(ns, subsets[i], t, index);
      IndexMutationResolvable(ns, subsets[i], t, index);
    }
  }

  lemma {:induction false} AppliedKey(ms: seq<Mutation>, key: Template, value: Bytes, v: nat)
    requires AllResolvable(ms) && key.offset + 10 <= |key.bytes|
    ensures var more := ms + [SetVersionstampedKey(key, value)];
            AllResolvable(more) && Applied(more, v) == Applied(ms, v)[Resolve(key, v) := value]
  {
    var more := ms + [SetVersionstampedKey(key, value)];
    assert more[..|more| - 1] == ms;
  }

  /** The mutation of the last subset comes last. */
  lemma {:induction false} LastIndexMutation(ms: seq<Mutation>, ns: Bytes, subsets: seq<seq<Bytes>>, t: Bytes,
        index: nat)
    requires subsets != []
    ensures var n := |subsets| - 1;
            ms + IndexMutations(ns, subsets, t, index)
              == ms + IndexMutations(ns, subsets[..n], t, index) + [IndexMutation(ns, subsets[n], t, index)]
  {
  }

  /** Index keys of the first subsets on top of what was there. */
  lemma {:induction false} AppliedIndexes(ms: seq<Mutation>, ns: Bytes, subsets: seq<seq<Bytes>>, t: Bytes,
        index: nat, v: nat)
    requires AllResolvable(ms) && AllResolvable(ms + IndexMutations(ns, subsets, t, index))
    ensures Applied(ms + IndexMutations(ns, subsets, t, index), v)
         == Applied(ms, v) + IndexWrites(ns, subsets, t, Position(v, index))
  {
    if subsets == [] {
      assert ms + IndexMutations(ns, subsets, t, index) == ms;
    } else {
      var n := |subsets| - 1;
      IndexMutationsResolvable(ms, ns, subsets[..n], t, index);
      AppliedIndexes(ms, ns, subsets[..n], t, index, v);
      LastIndexMutation(ms, ns, subsets, t, index);
      AppliedOneIndex(ms + IndexMutations(ns, subsets[..n], t, index), ns, subsets[n], t, index, v);
      OneMoreIndex(ns, subsets, t, Position(v, index), Applied(ms, v));
    }
  }

  lemma {:induction false} AppliedOneIndex(ms: seq<Mutation>, ns: Bytes, subset: seq<Bytes>, t: Bytes, index: nat,
        v: nat)
    requires AllResolvable(ms)
    ensures var more := ms + [IndexMutation(ns, subset, t, index)];
            && AllResolvable(more)
            && Applied(more, v) == Applied(ms, v)[PackIndexKey(ns, subset, t, Position(v, index)) := []]
  {
    ResolvedKeys(ns, subset, t, index, v);
    AppliedKey(ms, PackWithVersionstamp(IndexHead(ns, subset, t), index), [], v);
  }

  lemma {:induction false} UpdateLater<K, V>(a: map<K, V>, k: K, v: V, m: map<K, V>)
    requires k !in m
    ensures a[k := v] + m == a + m[k := v]
  {
  }

  lemma {:induction false} EventWritesAre(ns: Bytes, e: Event, p: Versionstamp)
    ensures IndexWrites(ns, Subsets(Canonical(e.tags)), e.typeName, p)[PackEventKey(ns, p) := EncodeEventValue(e)]
              == EventWrites(ns, e, p)
  {
    EventKeyApart(ns, e, p);
  }

  lemma {:induction false} AppliedPrimary(ms: seq<Mutation>, ns: Bytes, e: Event, index: nat, v: nat)
    requires AllResolvable(ms)
    ensures AllResolvable(ms + [PrimaryMutation(ns, e, index)])
    ensures Applied(ms + [PrimaryMutation(ns, e, index)], v)
         == Applied(ms, v)[PackEventKey(ns, Position(v, index)) := EncodeEventValue(e)]
  {
    ResolvedKeys(ns, [], e.typeName, index, v);
    AppliedKey(ms, PackEventKeyFdb(ns, index), EncodeEventValue(e), v);
  }

  lemma {:induction false} PrimaryFirst(ms: seq<Mutation>, ns: Bytes, e: Event, index: nat)
    ensures ms + EventMutations(ns, e, index)
         == ms + [PrimaryMutation(ns, e, index)] + IndexMutations(ns, Subsets(Canonical(e.tags)), e.typeName, index)
  {
  }

  lemma {:induction false} AppliedEvent(ms: seq<Mutation>, ns: Bytes, e: Event, index: nat, v: nat)
    requires AllResolvable(ms)
    ensures AllResolvable(ms + EventMutations(ns, e, index))
    ensures Applied(ms + EventMutations(ns, e, index), v) == Applied(ms, v) + EventWrites(ns, e, Position(v, index))
  {
    var one, subsets := ms + [PrimaryMutation(ns, e, index)], Subsets(Canonical(e.tags));
    PrimaryFirst(ms, ns, e, index);
    AppliedPrimary(ms, ns, e, index, v);
    IndexMutationsResolvable(one, ns, subsets, e.typeName, index);
    AppliedIndexes(one, ns, subsets, e.typeName, index, v);
    EventWritten(Applied(ms, v), ns, e, Position(v, index));
  }

  /** The primary key, then the index keys: the writes of the event. */
  lemma {:induction false} EventWritten(before: map<Bytes, Bytes>, ns: Bytes, e: Event, p: Versionstamp)
    ensures before[PackEventKey(ns, p) := EncodeEventValue(e)]
              + IndexWrites(ns, Subsets(Canonical(e.tags)), e.typeName, p)
         == before + EventWrites(ns, e, p)
  {
    EventKeyApart(ns, e, p);
    EventWritesAre(ns, e, p);
    UpdateLater(before, PackEventKey(ns, p), EncodeEventValue(e),
        IndexWrites(ns, Subsets(Canonical(e.tags)), e.typeName, p));
  }

  lemma {:induction false} AppliedBatch(ns: Bytes, events: seq<Event>, v: nat)
    ensures AllResolvable(BatchMutations(ns, events))
    ensures Applied(BatchMutations(ns, events), v) == BatchWrites(ns, events, v)
  {
    if events != [] {
      var n := |events| - 1;
      AppliedBatch(ns, events[..n], v);
      AppliedEvent(BatchMutations(ns, events[..n]), ns, events[n], n, v);
    }
  }

  lemma {:induction false} SentinelResolves(v: nat)
    ensures Resolve(SENTINEL_TEMPLATE, v) == SentinelValue(v)
  {
    assert SENTINEL_TEMPLATE.bytes[..0] == [] && SENTINEL_TEMPLATE.bytes[10..] == [0, 0];
  }

  lemma {:induction false} AppliedValue(ms: seq<Mutation>, target: Bytes, stamped: Template, v: nat)
    requires AllResolvable(ms) && stamped.offset + 10 <= |stamped.bytes|
    ensures var more := ms + [SetVersionstampedValue(target, stamped)];
            AllResolvable(more) && Applied(more, v) == Applied(ms, v)[target := Resolve(stamped, v)]
  {
    var more := ms + [SetVersionstampedValue(target, stamped)];
    assert more[..|more| - 1] == ms;
  }

  /** The buffered mutations of a batch are its record, at any version. */
  lemma {:induction false} AppliedAppend(ns: Bytes, events: seq<Event>, v: nat)
    ensures AllResolvable(AppendMutations(ns, events))
    ensures Applied(AppendMutations(ns, events), v) == Writes(Appended(ns, events, v))
  {
    AppliedBatch(ns, events, v);
    SentinelResolves(v);
    AppliedValue(BatchMutations(ns, events), PackSentinelKey(ns), SENTINEL_TEMPLATE, v);
  }

  method WriteIndexKey(tr: Transaction, ns: Bytes, subset: seq<Bytes>, typeName: Bytes, batchIndex: nat)
    requires tr.Valid()
    modifies tr`sets
    ensures tr.Valid() && tr.sets == old(tr.sets) + [IndexMutation(ns, subset, typeName, batchIndex)]
  {
    var tagKey := PackTagIndexKeyFdb(ns, subset, typeName, batchIndex);
    IndexMutationResolvable(ns, subset, typeName, batchIndex);
    tr.AtomicOp(SetVersionstampedKey(tagKey, []));
  }

  method WritePrimaryKey(tr: Transaction, ns: Bytes, event: Event, batchIndex: nat)
    requires tr.Valid()
    modifies tr`sets
    ensures tr.Valid() && tr.sets == old(tr.sets) + [PrimaryMutation(ns, event, batchIndex)]
  {
    ResolvedKeys(ns, [], event.typeName, batchIndex, 0);
    tr.AtomicOp(SetVersionstampedKey(PackEventKeyFdb(ns, batchIndex), EncodeEventValue(event)));
  }

  lemma {:induction false} OneMoreMutation(ns: Bytes, subsets: seq<seq<Bytes>>, t: Bytes, index: nat, i: nat)
    requires i < |subsets|
    ensures IndexMutations(ns, subsets[..i + 1], t, index)
         == IndexMutations(ns, subsets[..i], t, index) + [IndexMutation(ns, subsets[i], t, index)]
  {
  }

  /** One index mutation per subset. */
  method WriteIndexKeys(tr: Transaction, ns: Bytes, subsets: seq<seq<Bytes>>, typeName: Bytes, batchIndex: nat)
    requires tr.Valid()
    modifies tr`sets
    ensures tr.Valid() && tr.sets == old(tr.sets) + IndexMutations(ns, subsets, typeName, batchIndex)
  {
    ghost var before := tr.sets;
    for i := 0 to |subsets|
      invariant tr.Valid() && tr.sets == before + IndexMutations(ns, subsets[..i], typeName, batchIndex)
    {
      WriteIndexKey(tr, ns, subsets[i], typeName, batchIndex);
      OneMoreMutation(ns, subsets, typeName, batchIndex, i);
      Regroup(before, IndexMutations(ns, subsets[..i], typeName, batchIndex),
          [IndexMutation(ns, subsets[i], typeName, batchIndex)]);
    }
    assert subsets[..|subsets|] == subsets;
  }

  method AppendSingle(tr: Transaction, ns: Bytes, event: Event, batchIndex: nat)
    requires tr.Valid()
    modifies tr`sets
    ensures tr.Valid() && tr.sets == old(tr.sets) + EventMutations(ns, event, batchIndex)
  {
    var sortedTags := SortTags(event.tags);
    WritePrimaryKey(tr, ns, event, batchIndex);
    var subsets := GenerateSupersetPresorted(sortedTags);
    WriteIndexKeys(tr, ns, subsets, event.typeName, batchIndex);
    Regroup(old(tr.sets), [PrimaryMutation(ns, event, batchIndex)],
        IndexMutations(ns, subsets, event.typeName, batchIndex));
  }

  predicate ValidBatch(events: seq<Event>) {
    0 < |events| <= MAX_BATCH && forall e :: e in events ==> ValidEvent(e)
  }

  lemma {:induction false} MeansAppend(tr: Transaction, ns: Bytes, events: seq<Event>)
    requires tr.sets == AppendMutations(ns, events) && ValidBatch(events)
    ensures AllResolvable(tr.sets) && tr.Means(Appended(ns, events, 0))
  {
    AppliedAppend(ns, events, 0);
    forall v: nat | IsTxVersion(v)
      ensures ValidRecord(WithVersion(Appended(ns, events, 0), v))
                && Applied(tr.sets, v) == Writes(WithVersion(Appended(ns, events, 0), v))
    {
      AppliedAppend(ns, events, v);
    }
  }

  /** All writes of a batch: its events and the sentinel. They mean its record. */
  method WriteBatch(tr: Transaction, ns: Bytes, events: seq<Event>)
    requires tr.Valid() && tr.sets == [] && ValidBatch(events)
    modifies tr`sets
    ensures tr.Valid() && tr.sets != [] && tr.Means(Appended(ns, events, 0))
  {
    for i := 0 to |events|
      invariant tr.Valid() && tr.sets == BatchMutations(ns, events[..i])
    {
      assert events[..i + 1][..i] == events[..i];
      AppendSingle(tr, ns, events[i], i);
    }
    assert events[..|events|] == events;
    tr.AtomicOp(SetVersionstampedValue(PackSentinelKey(ns), SENTINEL_TEMPLATE));
    MeansAppend(tr, ns, events);
  }

  // -------------------------------------------------------------------------
  // Probes
  // -------------------------------------------------------------------------

  /** Whether a stream has a first key. */
  method ConsumeFirstKv(stream: Result<seq<Bytes>>) returns (r: Result<bool>)
    ensures stream.Err? ==> r == Err(stream.error)
    ensures stream.Ok? ==> r == Ok(stream.value != [])
  {
    match stream {
      case Err(e) => return Err(e);
      case Ok(keys) => return Ok(keys != []);
    }
  }

  lemma {:induction false} FirstOfRange(kv: Store, r: Range)
    ensures GetRange(kv, r, 1, false) != [] <==> Inhabited(kv, [r])
  {
    var keys := KeysIn(kv, r);
    if keys != [] {
      assert keys[0] in keys && r in [r];
    }
    if Inhabited(kv, [r]) {
      var k :| k in kv && InRange(k, r);
      assert k in keys;
    }
  }

  /** What is known after reading the first key of each range: `read` tells whether
      the transaction has its read version. */
  ghost predicate Found(kv: Store, read: bool, ranges: seq<Range>, founds: seq<Result<bool>>) {
    && |founds| == |ranges|
    && (forall i :: 0 <= i < |founds| && founds[i].Ok? ==> read && founds[i].value == Inhabited(kv, [ranges[i]]))
    && (forall i :: 0 <= i < |founds| && founds[i].Err? ==> founds[i].error.Fdb?)
  }

  ghost predicate AllEmpty(founds: seq<Result<bool>>) {
    forall i :: 0 <= i < |founds| ==> founds[i] == Ok(false)
  }

  method ProbeRange(tr: Transaction, range: Range) returns (found: Result<bool>)
    requires tr.Valid() && tr.sets == []
    modifies tr, tr.db
    ensures tr.Valid() && tr.Reading() && old(tr.conflicts) <= tr.conflicts
    ensures found.Ok? ==> tr.readAt.Some? && found.value == Inhabited(tr.view, [range])
    ensures found == Ok(false) ==> tr.conflicts == old(tr.conflicts) + [range]
    ensures found.Err? ==> found.error.Fdb?
    ensures tr.db.Reports(FailureOf(found))
  {
    var stream, _ := tr.GetRangesKeyvalues(range, 1, false, false);
    FirstOfRange(tr.view, range);
    found := ConsumeFirstKv(stream);
  }

  lemma {:induction false} FoundNext(kv: Store, kv': Store, read: bool, read': bool, ranges: seq<Range>,
        founds: seq<Result<bool>>, range: Range, found: Result<bool>)
    requires Found(kv, read, ranges, founds) && (read ==> read' && kv' == kv)
    requires found.Ok? ==> read' && found.value == Inhabited(kv', [range])
    requires found.Err? ==> found.error.Fdb?
    ensures Found(kv', read', ranges + [range], founds + [found])
    ensures AllEmpty(founds + [found]) <==> AllEmpty(founds) && found == Ok(false)
  {
    var more := founds + [found];
    if AllEmpty(more) {
      assert more[|founds|] == found && forall i :: 0 <= i < |founds| ==> founds[i] == more[i];
    }
  }

  // What the database reported during a probe, or during several: only failures, none if
  // nothing was found and nothing failed, and the code of each result that is an error.

  ghost predicate Accounted(before: seq<Report>, now: seq<Report>, r: Result<bool>) {
    && FailuresSince(before, now) && (r == Ok(false) ==> now == before)
    && (FailureOf(r).Some? ==> Failed(FailureOf(r).value) in now[|before|..])
  }

  ghost predicate AllAccounted(before: seq<Report>, now: seq<Report>, results: seq<Result<bool>>) {
    && FailuresSince(before, now) && (AllEmpty(results) ==> now == before)
    && forall r :: r in results && FailureOf(r).Some? ==> Failed(FailureOf(r).value) in now[|before|..]
  }

  lemma {:induction false} NoneAccounted(before: seq<Report>)
    ensures AllAccounted(before, before, [])
  {
  }

  lemma {:induction false} ReportAccounted(before: seq<Report>, now: seq<Report>, r: Result<bool>)
    requires now == if FailureOf(r).Some? then before + [Failed(FailureOf(r).value)] else before
    ensures Accounted(before, now, r)
  {
    assert FailureOf(r).Some? ==> now[|before|..] == [Failed(FailureOf(r).value)];
  }

  lemma {:induction false} AccountedNext(before: seq<Report>, mid: seq<Report>, now: seq<Report>,
        results: seq<Result<bool>>, r: Result<bool>)
    requires AllAccounted(before, mid, results) && Accounted(mid, now, r)
    ensures AllAccounted(before, now, results + [r])
  {
    assert now[|before|..] == mid[|before|..] + now[|mid|..];
    if AllEmpty(results + [r]) {
      AllEmptyNext(results, r);
    }
  }

  /** Reads the first key of one more range. */
  method ProbeNextRange(tr: Transaction, range: Range, founds: seq<Result<bool>>, ghost ranges: seq<Range>,
        ghost start: seq<Report>) returns (more: seq<Result<bool>>)
    requires tr.Valid() && tr.sets == [] && Found(tr.view, tr.readAt.Some?, ranges, founds)
    requires AllAccounted(start, tr.db.reports, founds)
    modifies tr, tr.db
    ensures AllAccounted(start, tr.db.reports, more)
    ensures tr.Valid() && tr.Reading() && old(tr.conflicts) <= tr.conflicts
    ensures Found(tr.view, tr.readAt.Some?, ranges + [range], more)
    ensures AllEmpty(more) ==> AllEmpty(founds) && tr.conflicts == old(tr.conflicts) + [range]
  {
    var found := ProbeRange(tr, range);
    FoundNext(old(tr.view), tr.view, old(tr.readAt.Some?), tr.readAt.Some?, ranges, founds, range, found);
    ReportAccounted(old(tr.db.reports), tr.db.reports, found);
    AccountedNext(start, old(tr.db.reports), tr.db.reports, founds, found);
    more := founds + [found];
  }

  /** Reads the first key of every range. */
  method ProbeAll(tr: Transaction, ranges: seq<Range>) returns (founds: seq<Result<bool>>)
    requires tr.Valid() && tr.sets == []
    modifies tr, tr.db
    ensures tr.Valid() && tr.Reading() && old(tr.conflicts) <= tr.conflicts
    ensures Found(tr.view, tr.readAt.Some?, ranges, founds)
    ensures AllEmpty(founds) ==> tr.conflicts == old(tr.conflicts) + ranges
    ensures AllAccounted(old(tr.db.reports), tr.db.reports, founds)
  {
    founds := [];
    NoneAccounted(tr.db.reports);
    for i := 0 to |ranges|
      invariant AllAccounted(old(tr.db.reports), tr.db.reports, founds)
      invariant tr.Valid() && tr.Reading() && old(tr.conflicts) <= tr.conflicts && tr.sets == []
      invariant Found(tr.view, tr.readAt.Some?, ranges[..i], founds)
      invariant AllEmpty(founds) ==> tr.conflicts == old(tr.conflicts) + ranges[..i]
    {
      founds := ProbeNextRange(tr, ranges[i], founds, ranges[..i], old(tr.db.reports));
      assert ranges[..i + 1] == ranges[..i] + [ranges[i]];
    }
    assert ranges[..|ranges|] == ranges;
  }

  lemma {:induction false} InhabitedSome(kv: Store, rs: seq<Range>) returns (i: nat)
    requires Inhabited(kv, rs)
    ensures i < |rs| && Inhabited(kv, [rs[i]])
  {
    var k, r :| r in rs && k in kv && InRange(k, r);
    i :| 0 <= i < |rs| && rs[i] == r;
    assert r in [rs[i]];
  }

  /** The first range that has a key or fails decides. */
  method FirstVerdict(founds: seq<Result<bool>>) returns (r: Result<bool>)
    ensures r == Ok(false) <==> AllEmpty(founds)
    ensures r != Ok(false) ==> r in founds
  {
    for i := 0 to |founds|
      invariant forall j :: 0 <= j < i ==> founds[j] == Ok(false)
    {
      if founds[i].Err? {
        return Err(founds[i].error);
      }
      if founds[i].value {
        return Ok(true);
      }
    }
    return Ok(false);
  }

  /** The verdict on a probe's ranges tells whether any of them holds a key. */
  lemma {:induction false} VerdictMeans(kv: Store, read: bool, ranges: seq<Range>, founds: seq<Result<bool>>,
        r: Result<bool>)
    requires Found(kv, read, ranges, founds)
    requires (r == Ok(false) <==> AllEmpty(founds)) && (r != Ok(false) ==> r in founds)
    ensures r.Ok? ==> r.value == Inhabited(kv, ranges) && (ranges != [] ==> read)
    ensures r.Err? ==> r.error.Fdb?
  {
    if r == Ok(true) {
      var i :| 0 <= i < |founds| && founds[i] == Ok(true);
      var k :| k in kv && InRange(k, ranges[i]);
      assert ranges[i] in ranges;
    }
    if r == Ok(false) {
      if Inhabited(kv, ranges) {
        var i := InhabitedSome(kv, ranges);
      }
      assert ranges != [] ==> founds[0].Ok?;
    }
  }

  /** Ranges of a valid item can be built; with types they are there, and do not depend on the store. */
  lemma {:induction false} BuiltRanges(before: Store, tr: Transaction, ns: Bytes, item: QueryItem,
        after: Option<Versionstamp>)
    requires tr.Valid() && ValidItem(item)
    requires item.types == [] ==> tr.view == before
    ensures Matching.ItemRanges(tr.view, ns, item, after).Ok?
              && Matching.ItemRanges(tr.view, ns, item, after) == Matching.ItemRanges(before, ns, item, after)
    ensures item.types != [] ==> Matching.ItemRanges(tr.view, ns, item, after).value != []
  {
    tr.SeenMatches();
    HitExact(tr.SeenHistory(), tr.Seen(), ns, Probe(item, after));
    if item.types != [] {
      QueryMethods.TypedItemAnywhere(before, tr.view, ns, item, after);
      Matching.TypedRangesAre(ns, Canonical(item.tags), item.types, after);
    }
  }

  method QueryItemExists(tr: Transaction, ns: Bytes, item: QueryItem, after: Option<Versionstamp>)
    returns (r: Result<bool>)
    requires tr.Valid() && tr.sets == [] && ValidItem(item)
    modifies tr, tr.db
    ensures tr.Valid() && tr.Reading() && old(tr.conflicts) <= tr.conflicts
    ensures r.Ok? ==> tr.readAt.Some? && r.value == Hit(tr.view, ns, Probe(item, after))
    ensures r == Ok(false) ==> tr.conflicts == old(tr.conflicts) + ProbeRanges(tr.view, ns, Probe(item, after))
    ensures r.Err? ==> r.error.Fdb?
    ensures Accounted(old(tr.db.reports), tr.db.reports, r)
  {
    var ranges := QueryMethods.BuildQueryRanges(tr, ns, item, after, false);
    BuiltRanges(tr.view, tr, ns, item, after);
    if ranges.Err? {
      ReportAccounted(old(tr.db.reports), tr.db.reports, Err(ranges.error));
      return Err(ranges.error);
    }
    ghost var before := tr.view;
    var founds := ProbeAll(tr, ranges.value);
    BuiltRanges(before, tr, ns, item, after);
    r := FirstVerdict(founds);
    VerdictMeans(tr.view, tr.readAt.Some?, ranges.value, founds, r);
    Regroup(old(tr.conflicts), Matching.ScannedRanges(ns, item), ranges.value);
  }

  /** Each result is what its probe finds in the store, or a database error. */
  ghost predicate AnswersAre(kv: Store, read: bool, ns: Bytes, ps: seq<Probe>, results: seq<Result<bool>>) {
    && |results| == |ps|
    && (forall i :: 0 <= i < |ps| && results[i].Ok? ==> read && results[i].value == Hit(kv, ns, ps[i]))
    && (forall i :: 0 <= i < |ps| && results[i].Err? ==> results[i].error.Fdb?)
  }

  /** What is known once the probes `ps` have been made. */
  ghost predicate Probed(kv: Store, read: bool, conflicts: seq<Range>, ns: Bytes, ps: seq<Probe>,
        results: seq<Result<bool>>)
  {
    && AnswersAre(kv, read, ns, ps, results)
    && (AllEmpty(results) ==> conflicts == AllProbeRanges(kv, ns, ps))
  }

  lemma {:induction false} AnswersNext(kv: Store, kv': Store, read: bool, read': bool, ns: Bytes, ps: seq<Probe>,
        p: Probe, results: seq<Result<bool>>, r: Result<bool>)
    requires AnswersAre(kv, read, ns, ps, results) && (read ==> read' && kv' == kv)
    requires if r.Ok? then read' && r.value == Hit(kv', ns, p) else r.error.Fdb?
    ensures AnswersAre(kv', read', ns, ps + [p], results + [r])
  {
  }

  lemma {:induction false} AllEmptyNext(results: seq<Result<bool>>, r: Result<bool>)
    requires AllEmpty(results + [r])
    ensures AllEmpty(results) && r == Ok(false)
  {
    var more := results + [r];
    assert more[|results|] == r;
    assert forall i :: 0 <= i < |results| ==> results[i] == more[i];
  }

  lemma {:induction false} ProbedNext(kv: Store, kv': Store, read: bool, read': bool, conflicts: seq<Range>,
        conflicts': seq<Range>, ns: Bytes, ps: seq<Probe>, p: Probe, results: seq<Result<bool>>, r: Result<bool>)
    requires Probed(kv, read, conflicts, ns, ps, results) && (read ==> read' && kv' == kv)
    requires if r.Ok? then read' && r.value == Hit(kv', ns, p) else r.error.Fdb?
    requires r == Ok(false) ==> conflicts' == conflicts + ProbeRanges(kv', ns, p)
    ensures Probed(kv', read', conflicts', ns, ps + [p], results + [r])
  {
    AnswersNext(kv, kv', read, read', ns, ps, p, results, r);
    if AllEmpty(results + [r]) {
      AllEmptyNext(results, r);
      assert ps != [] ==> results[0].Ok?;
      assert (ps + [p])[..|ps|] == ps;
    }
  }

  /** One more probe. */
  method ProbeNext(tr: Transaction, ns: Bytes, item: QueryItem, after: Option<Versionstamp>,
        results: seq<Result<bool>>, ghost ps: seq<Probe>, ghost start: seq<Report>)
    returns (more: seq<Result<bool>>)
    requires tr.Valid() && tr.sets == [] && ValidItem(item) && AllAccounted(start, tr.db.reports, results)
    requires Probed(tr.view, tr.readAt.Some?, tr.conflicts, ns, ps, results)
    modifies tr, tr.db
    ensures tr.Valid() && tr.Reading()
    ensures Probed(tr.view, tr.readAt.Some?, tr.conflicts, ns, ps + [Probe(item, after)], more)
    ensures AllAccounted(start, tr.db.reports, more)
  {
    var r := QueryItemExists(tr, ns, item, after);
    AccountedNext(start, old(tr.db.reports), tr.db.reports, results, r);
    more := results + [r];
    ProbedNext(old(tr.view), tr.view, old(tr.readAt.Some?), tr.readAt.Some?, old(tr.conflicts), tr.conflicts,
               ns, ps, Probe(item, after), results, r);
  }

  /** All probes of all conditions. The source issues them together; they see one version. */
  method RunProbes(tr: Transaction, ns: Bytes, conds: seq<AppendCondition>) returns (results: seq<Result<bool>>)
    requires tr.Valid() && tr.sets == [] && tr.conflicts == [] && tr.readAt.None?
    requires forall c :: c in conds ==> ValidQuery(c.query)
    modifies tr, tr.db
    ensures tr.Valid() && tr.Reading()
    ensures Probed(tr.view, tr.readAt.Some?, tr.conflicts, ns, ProbesOf(conds), results)
    ensures AllAccounted(old(tr.db.reports), tr.db.reports, results)
  {
    results := [];
    NoneAccounted(tr.db.reports);
    for i := 0 to |conds|
      invariant tr.Valid() && tr.Reading() && tr.sets == []
      invariant AllAccounted(old(tr.db.reports), tr.db.reports, results)
      invariant Probed(tr.view, tr.readAt.Some?, tr.conflicts, ns, ProbesOf(conds[..i]), results)
    {
      var cond := conds[i];
      var items := cond.query.items;
      ghost var base := ProbesOf(conds[..i]);
      ghost var own := ItemProbes(items, cond.after);
      assert base + own[..0] == base;
      for j := 0 to |items|
        invariant tr.Valid() && tr.Reading() && tr.sets == []
        invariant AllAccounted(old(tr.db.reports), tr.db.reports, results)
        invariant Probed(tr.view, tr.readAt.Some?, tr.conflicts, ns, base + own[..j], results)
      {
        assert cond in conds && items[j] in items;
        results := ProbeNext(tr, ns, items[j], cond.after, results, base + own[..j], old(tr.db.reports));
        assert base + own[..j + 1] == base + own[..j] + [Probe(items[j], cond.after)];
      }
      assert own[..|items|] == own;
      assert conds[..i + 1][..i] == conds[..i];
    }
    assert conds[..|conds|] == conds;
  }

  /** A failed probe: in the database, or otherwise. */
  predicate Fails(r: Result<bool>, inDatabase: bool) {
    r.Err? && (r.error.Fdb? <==> inDatabase)
  }

  /** The error of the first failure of the kind, if there is one. */
  ghost predicate FirstFailure(results: seq<Result<bool>>, inDatabase: bool, e: Option<Error>) {
    if e.None? then forall j :: 0 <= j < |results| ==> !Fails(results[j], inDatabase)
    else exists i :: 0 <= i < |results| && results[i] == Err(e.value) && Fails(results[i], inDatabase)
                     && forall j :: 0 <= j < i ==> !Fails(results[j], inDatabase)
  }

  /** What one more result does to the first failure. */
  lemma {:induction false} NextFailure(results: seq<Result<bool>>, inDatabase: bool, e: Option<Error>, r: Result<bool>)
    requires FirstFailure(results, inDatabase, e)
    ensures FirstFailure(results + [r], inDatabase, if e.None? && Fails(r, inDatabase) then Some(r.error) else e)
  {
    var more := results + [r];
    assert more[|results|] == r && forall j :: 0 <= j < |results| ==> more[j] == results[j];
    if e.Some? {
      var i :| 0 <= i < |results| && results[i] == Err(e.value) && Fails(results[i], inDatabase)
               && forall j :: 0 <= j < i ==> !Fails(results[j], inDatabase);
      assert more[i] == results[i];
    }
  }

  /** The first database error, the first other error, and whether a probe found a key. */
  method Tally(results: seq<Result<bool>>) returns (fdbErr: Option<Error>, appErr: Option<Error>, matched: bool)
    ensures matched <==> Ok(true) in results
    ensures FirstFailure(results, true, fdbErr)
    ensures FirstFailure(results, false, appErr)
  {
    fdbErr, appErr, matched := None, None, false;
    for i := 0 to |results|
      invariant matched <==> Ok(true) in results[..i]
      invariant FirstFailure(results[..i], true, fdbErr)
      invariant FirstFailure(results[..i], false, appErr)
    {
      assert results[..i + 1] == results[..i] + [results[i]];
      NextFailure(results[..i], true, fdbErr, results[i]);
      NextFailure(results[..i], false, appErr, results[i]);
      match results[i] {
        case Ok(found) =>
          if found {
            matched := true;
          }
        case Err(e) =>
          if e.Fdb? {
            fdbErr := if fdbErr.None? then Some(e) else fdbErr;
          } else {
            appErr := if appErr.None? then Some(e) else appErr;
          }
      }
    }
    assert results[..|results|] == results;
  }

  // -------------------------------------------------------------------------
  // Append
  // -------------------------------------------------------------------------

  predicate ValidCondition(c: AppendCondition) {
    c.query.items != [] && ValidQuery(c.query)
  }

  predicate ValidConditions(conds: seq<AppendCondition>) {
    forall c :: c in conds ==> ValidCondition(c)
  }

  lemma {:induction false} ProbesValid(conds: seq<AppendCondition>)
    requires ValidConditions(conds)
    ensures ValidProbes(ProbesOf(conds))
  {
    forall p | p in ProbesOf(conds) ensures ValidItem(p.item) {
      ProbesHave(conds, p);
    }
  }

  predicate EventError(e: Event, error: Error) {
    if e.typeName == [] then error.MissingEventType?
    else if |e.tags| > 10 then error.TooManyTags?
    else [0x5F] in e.tags && error.ReservedTag?
  }

  /** The error of the batch as a whole, or of its first event that is not valid. */
  ghost predicate RejectsEvents(events: seq<Event>, error: Error) {
    if events == [] then error.EmptyEvents?
    else if |events| > 65535 then error.BatchTooLarge?
    else exists i :: 0 <= i < |events| && EventError(events[i], error)
                     && forall j :: 0 <= j < i ==> ValidEvent(events[j])
  }

  method ValidateEvents(events: seq<Event>) returns (r: Result<()>)
    ensures r.Ok? <==>
              && 0 < |events| <= 65535
              && forall e :: e in events ==> e.typeName != [] && |e.tags| <= 10 && [0x5F] !in e.tags
    ensures r.Ok? <==> ValidBatch(events)
    ensures r.Err? ==> RejectsEvents(events, r.error)
  {
    if events == [] {
      return Err(EmptyEvents);
    }
    if |events| > MAX_BATCH {
      return Err(BatchTooLarge);
    }
    for i := 0 to |events|
      invariant forall j :: 0 <= j < i ==> ValidEvent(events[j])
    {
      assert events[i] in events;
      if events[i].typeName == [] {
        assert EventError(events[i], MissingEventType);
        return Err(MissingEventType);
      }
      if |events[i].tags| > 10 {
        assert EventError(events[i], TooManyTags);
        return Err(TooManyTags);
      }
      if RESERVED_TAG in events[i].tags {
        assert EventError(events[i], ReservedTag);
        return Err(ReservedTag);
      }
    }
    return Ok(());
  }

  predicate ItemError(item: QueryItem, error: Error) {
    if item.types == [] && item.tags == [] then error.InvalidQuery? else [0x5F] in item.tags && error.ReservedTag?
  }

  /** The error of a condition without items, or of its first item that is not valid. */
  ghost predicate RejectsCondition(c: AppendCondition, error: Error) {
    var items := c.query.items;
    if items == [] then error.InvalidQuery?
    else exists k :: 0 <= k < |items| && ItemError(items[k], error) && forall j :: 0 <= j < k ==> ValidItem(items[j])
  }

  /** The error of the first condition that is not valid. */
  ghost predicate RejectsConditions(conds: seq<AppendCondition>, error: Error) {
    exists i :: 0 <= i < |conds| && RejectsCondition(conds[i], error)
                && forall j :: 0 <= j < i ==> ValidCondition(conds[j])
  }

  method ValidateConditions(conds: seq<AppendCondition>) returns (r: Result<()>)
    ensures r.Ok? <==>
              forall c :: c in conds ==>
                && c.query.items != []
                && forall item :: item in c.query.items ==>
                     (item.types != [] || item.tags != []) && [0x5F] !in item.tags
    ensures r.Ok? <==> ValidConditions(conds)
    ensures r.Err? ==> RejectsConditions(conds, r.error)
  {
    for i := 0 to |conds|
      invariant forall j :: 0 <= j < i ==> ValidCondition(conds[j])
    {
      var items := conds[i].query.items;
      assert conds[i] in conds;
      if items == [] {
        assert RejectsCondition(conds[i], InvalidQuery);
        return Err(InvalidQuery);
      }
      for k := 0 to |items|
        invariant forall j :: 0 <= j < k ==> ValidItem(items[j])
      {
        assert items[k] in items;
        if items[k].HasNoTypeNorTags() {
          assert ItemError(items[k], InvalidQuery) && RejectsCondition(conds[i], InvalidQuery);
          return Err(InvalidQuery);
        }
        if RESERVED_TAG in items[k].tags {
          assert ItemError(items[k], ReservedTag) && RejectsCondition(conds[i], ReservedTag);
          return Err(ReservedTag);
        }
      }
    }
    return Ok(());
  }

  /** The probes found nothing, and everything they covered is a conflict range. */
  ghost predicate Cleared(tr: Transaction, ns: Bytes, ps: seq<Probe>)
    reads tr
  {
    && (ps != [] ==> tr.readAt.Some?)
    && !AnyHit(tr.view, ns, ps)
    && tr.conflicts == AllProbeRanges(tr.view, ns, ps)
  }

  /** A probe that found a key: an event stands against it at the read version. */
  lemma {:induction false} MatchedMeans(tr: Transaction, ns: Bytes, ps: seq<Probe>, results: seq<Result<bool>>)
    requires tr.Valid() && ValidProbes(ps) && Ok(true) in results
    requires Probed(tr.view, tr.readAt.Some?, tr.conflicts, ns, ps, results)
    ensures tr.readAt.Some? && AnyBlocks(LogOf(tr.Seen(), ns), ps)
  {
    tr.SeenMatches();
    var i :| 0 <= i < |results| && results[i] == Ok(true);
    assert ps[i] in ps;
    HitExact(tr.SeenHistory(), tr.Seen(), ns, ps[i]);
  }

  lemma {:induction false} ClearedMeans(tr: Transaction, ns: Bytes, ps: seq<Probe>, results: seq<Result<bool>>)
    requires Probed(tr.view, tr.readAt.Some?, tr.conflicts, ns, ps, results)
    requires Ok(true) !in results && FirstFailure(results, true, None)
    ensures Cleared(tr, ns, ps)
  {
    forall i | 0 <= i < |results| ensures results[i] == Ok(false) {
      assert results[i] in results;
    }
    assert ps != [] ==> results[0].Ok?;
    forall p | p in ps ensures !Hit(tr.view, ns, p) {
      var i :| 0 <= i < |ps| && ps[i] == p;
      assert results[i].Ok?;
    }
  }

  /** All condition checks of one attempt. */
  method CheckConditions(tr: Transaction, ns: Bytes, conds: seq<AppendCondition>)
    returns (fdbErr: Option<Error>, appErr: Option<Error>, matched: bool, ghost results: seq<Result<bool>>)
    requires tr.Valid() && tr.sets == [] && tr.conflicts == [] && tr.readAt.None? && ValidConditions(conds)
    modifies tr, tr.db
    ensures tr.Valid() && tr.Reading()
    ensures fdbErr.Some? ==> fdbErr.value.Fdb?
    ensures appErr.None?
    ensures matched ==> tr.readAt.Some? && AnyBlocks(LogOf(tr.Seen(), ns), ProbesOf(conds))
    ensures fdbErr.None? && !matched ==> Cleared(tr, ns, ProbesOf(conds))
    ensures Probed(tr.view, tr.readAt.Some?, tr.conflicts, ns, ProbesOf(conds), results)
    ensures FirstFailure(results, true, fdbErr) && (matched <==> Ok(true) in results)
    ensures AllAccounted(old(tr.db.reports), tr.db.reports, results)
  {
    ProbesValid(conds);
    var answers := RunProbes(tr, ns, conds);
    results := answers;
    fdbErr, appErr, matched := Tally(answers);
    if matched {
      MatchedMeans(tr, ns, ProbesOf(conds), results);
    } else if fdbErr.None? {
      ClearedMeans(tr, ns, ProbesOf(conds), results);
    }
  }

  /** The batch entered the log at ledger index `at`, with nothing standing against its conditions. */
  ghost predicate CommittedAt(db: Database, at: nat, ns: Bytes, events: seq<Event>, conds: seq<AppendCondition>)
    reads db
  {
    && at < |db.ledger|
    && db.ledger[at] == Appended(ns, events, db.ledger[at].version)
    && !AnyBlocks(LogOf(db.ledger[..at], ns), ProbesOf(conds))
  }

  /** Nothing hit at version `n` and no conflict before `at`: nothing stands against the probes there. */
  lemma {:induction false} UnblockedUntil(h: seq<Commit>, l: seq<Record>, n: nat, at: nat, ns: Bytes, ps: seq<Probe>)
    requires Matches(h, l) && n <= at <= |h| && ValidProbes(ps)
    requires !AnyHit(Replay(h[..n]), ns, ps)
    requires !Conflicts(h[..at], n, AllProbeRanges(Replay(h[..n]), ns, ps))
    ensures !AnyBlocks(LogOf(l[..at], ns), ps)
  {
    MatchesPrefix(h, l, at);
    assert h[..at][..n] == h[..n];
    OptimisticCheck(h[..at], l[..at], n, ns, ps);
  }

  /** What is applied without a conflict is applied to a log that the conditions allow. */
  lemma {:induction false} AppliedUnblocked(tr: Transaction, at: nat, ns: Bytes, events: seq<Event>, v: nat,
        conds: seq<AppendCondition>)
    requires tr.Valid() && ValidConditions(conds) && Cleared(tr, ns, ProbesOf(conds))
    requires tr.AppliedAt(at, Appended(ns, events, v))
    ensures CommittedAt(tr.db, at, ns, events, conds)
  {
    ProbesValid(conds);
    if ProbesOf(conds) != [] {
      UnblockedUntil(tr.db.history, tr.db.ledger, tr.readAt.value, at, ns, ProbesOf(conds));
    }
  }

  /** Commits the buffered batch. With idempotency on, a failed commit did not happen. */
  method CommitCleared(tr: Transaction, ns: Bytes, ghost events: seq<Event>, ghost conds: seq<AppendCondition>)
    returns (r: Result<nat>, ghost at: Option<nat>)
    requires tr.Valid() && tr.sets != [] && tr.idempotent && tr.Means(Appended(ns, events, 0))
    requires ValidConditions(conds) && Cleared(tr, ns, ProbesOf(conds))
    modifies tr.db
    ensures tr.Valid() && tr.db.Grown()
    ensures at.Some? ==> |old(tr.db.history)| <= at.value && CommittedAt(tr.db, at.value, ns, events, conds)
    ensures r.Ok? ==> at.Some? && at.value < |tr.db.ledger| && r.value == tr.db.ledger[at.value].version
    ensures r.Err? ==> r.error.Fdb? && at.None?
    ensures tr.db.own == old(tr.db.own) + Indices(at) && tr.db.Reports(FailureOf(r))
  {
    ghost var v;
    r, at, v := tr.Commit(Appended(ns, events, 0));
    if at.Some? {
      AppliedUnblocked(tr, at.value, ns, events, v, conds);
    }
  }

  method CommitBatch(tr: Transaction, ns: Bytes, events: seq<Event>, ghost conds: seq<AppendCondition>)
    returns (r: Result<nat>, ghost at: Option<nat>)
    requires tr.Valid() && tr.sets == [] && tr.idempotent && ValidBatch(events)
    requires ValidConditions(conds) && Cleared(tr, ns, ProbesOf(conds))
    modifies tr`sets, tr.db
    ensures tr.Valid() && tr.db.Grown()
    ensures at.Some? ==> |old(tr.db.history)| <= at.value && CommittedAt(tr.db, at.value, ns, events, conds)
    ensures r.Ok? ==> at.Some? && at.value < |tr.db.ledger| && r.value == tr.db.ledger[at.value].version
    ensures r.Err? ==> r.error.Fdb? && at.None?
    ensures tr.db.own == old(tr.db.own) + Indices(at) && tr.db.Reports(FailureOf(r))
  {
    WriteBatch(tr, ns, events);
    r, at := CommitCleared(tr, ns, events, conds);
  }

  /** The error that the condition checks end the attempt with: a database error goes first. */
  method Refusal(tr: Transaction, ns: Bytes, conds: seq<AppendCondition>)
    returns (refusal: Option<Error>, ghost results: seq<Result<bool>>)
    requires tr.Valid() && tr.sets == [] && tr.conflicts == [] && tr.readAt.None? && ValidConditions(conds)
    modifies tr, tr.db
    ensures tr.Valid() && tr.Reading()
    ensures refusal.Some? ==> refusal.value.Fdb? || refusal.value.AppendConditionFailed?
    ensures refusal == Some(AppendConditionFailed) ==>
              tr.readAt.Some? && AnyBlocks(LogOf(tr.Seen(), ns), ProbesOf(conds))
    ensures refusal.None? ==> Cleared(tr, ns, ProbesOf(conds)) && tr.db.reports == old(tr.db.reports)
    ensures Probed(tr.view, tr.readAt.Some?, tr.conflicts, ns, ProbesOf(conds), results)
    ensures refusal == Some(AppendConditionFailed) ==> Ok(true) in results && forall r :: r in results ==> r.Ok?
    ensures refusal.Some? && refusal.value.Fdb? ==> FirstFailure(results, true, refusal)
    ensures FailuresSince(old(tr.db.reports), tr.db.reports)
    ensures refusal.Some? && refusal.value.Fdb? ==>
              Failed(refusal.value.code) in tr.db.reports[|old(tr.db.reports)|..]
  {
    var fdbErr, appErr, matched;
    fdbErr, appErr, matched, results := CheckConditions(tr, ns, conds);
    VerdictAccounted(old(tr.db.reports), tr.db.reports, results, fdbErr);
    if fdbErr.Some? {
      return fdbErr, results;
    }
    match appErr {
      case Some(e) =>
        assert false;
        return appErr, results;
      case None =>
    }
    refusal := if matched then Some(AppendConditionFailed) else None;
  }

  /** What the results of the probes say about what was reported. */
  lemma {:induction false} VerdictAccounted(before: seq<Report>, now: seq<Report>, results: seq<Result<bool>>,
        fdbErr: Option<Error>)
    requires AllAccounted(before, now, results) && FirstFailure(results, true, fdbErr)
    requires forall r :: r in results && r.Err? ==> r.error.Fdb?
    ensures fdbErr.Some? ==> fdbErr.value.Fdb? && Failed(fdbErr.value.code) in now[|before|..]
    ensures fdbErr.None? ==> forall r :: r in results ==> r.Ok?
    ensures fdbErr.None? && Ok(true) !in results ==> now == before
  {
    if fdbErr.Some? {
      assert Err(fdbErr.value) in results;
    } else {
      forall r | r in results ensures r.Ok? {
        var i :| 0 <= i < |results| && results[i] == r;
        assert !Fails(results[i], true);
      }
      if Ok(true) !in results {
        forall i | 0 <= i < |results| ensures results[i] == Ok(false) {
          assert results[i] in results;
          assert results[i].Ok?;
          var found := results[i].value;
          assert results[i] == Ok(found);
        }
      }
    }
  }

  /** What is known after an attempt whose outcome is final. */
  ghost predicate Final(tr: Transaction, ns: Bytes, events: seq<Event>, conds: seq<AppendCondition>,
        attempt: Result<nat>, at: Option<nat>)
    reads tr, tr.db
    requires tr.Valid()
  {
    && events != []
    && (at.Some? ==> tr.floor <= at.value && CommittedAt(tr.db, at.value, ns, events, conds))
    && (attempt.Ok? ==> at.Some? && at.value < |tr.db.ledger| && attempt.value == tr.db.ledger[at.value].version)
    && (attempt.Err? ==>
          && at.None? && attempt == Err(AppendConditionFailed)
          && tr.readAt.Some? && AnyBlocks(LogOf(tr.Seen(), ns), ProbesOf(conds)))
  }

  /** One attempt: the checks, then the writes and the commit. */
  method Attempt(tr: Transaction, ns: Bytes, events: seq<Event>, conds: seq<AppendCondition>)
    returns (r: Result<nat>, ghost at: Option<nat>)
    requires tr.Valid() && ValidBatch(events) && ValidConditions(conds)
    requires tr.sets == [] && tr.conflicts == [] && tr.readAt.None? && tr.idempotent
    modifies tr, tr.db
    ensures tr.Valid() && tr.db.Grown() && tr.floor == old(tr.floor) && tr.retries == old(tr.retries)
    ensures at.Some? ==> |old(tr.db.history)| <= at.value && CommittedAt(tr.db, at.value, ns, events, conds)
    ensures r.Ok? ==> at.Some? && at.value < |tr.db.ledger| && r.value == tr.db.ledger[at.value].version
    ensures r.Err? ==> at.None? && (r.error.Fdb? || r.error.AppendConditionFailed?)
    ensures r.Err? && r.error.AppendConditionFailed? ==>
              tr.readAt.Some? && AnyBlocks(LogOf(tr.Seen(), ns), ProbesOf(conds))
    ensures FailureOf(r).None? ==> Final(tr, ns, events, conds, r, at)
    ensures tr.db.own == old(tr.db.own) + Indices(at)
    ensures AttemptTold(old(tr.db.reports), tr.db.reports, r)
  {
    var refusal, _ := Refusal(tr, ns, conds);
    if refusal.Some? {
      return Err(refusal.value), None;
    }
    ghost var before := tr.db.reports;
    r, at := CommitBatch(tr, ns, events, conds);
    CommitTold(before, tr.db.reports, r);
  }

  /** What the database reported during an attempt: failures if it failed, else nothing, but
      that a probe that found a key may have failed in other ranges. */
  ghost predicate AttemptTold(before: seq<Report>, now: seq<Report>, r: Result<nat>) {
    && FailuresSince(before, now)
    && (r.Ok? ==> now == before)
    && (FailureOf(r).Some? ==> Failed(FailureOf(r).value) in now[|before|..])
  }

  lemma {:induction false} CommitTold(before: seq<Report>, now: seq<Report>, r: Result<nat>)
    requires now == if FailureOf(r).Some? then before + [Failed(FailureOf(r).value)] else before
    ensures AttemptTold(before, now, r)
  {
    assert FailureOf(r).Some? ==> now[|before|..] == [Failed(FailureOf(r).value)];
  }

  /**
   What a call that began at history length `start` has done when it returns `r`, where
   `applied` lists the indices of its own commits:
   - the batch entered the log at most once, and exactly once on success, at a moment
     during the call when nothing stood against its conditions;
   - the returned position is that of its last event;
   - a condition failure means that at version `seen`, during the call, an event stood
     against a condition, and that nothing was written.
   */
  ghost predicate AppendOutcome(db: Database, start: nat, ns: Bytes, events: seq<Event>, conds: seq<AppendCondition>,
        r: Result<Versionstamp>, applied: seq<nat>, seen: nat)
    reads db
  {
    && |applied| <= 1
    && (forall at :: at in applied ==> start <= at && CommittedAt(db, at, ns, events, conds))
    && (r.Ok? ==>
          && |applied| == 1 && events != [] && applied[0] < |db.ledger|
          && r.value == Position(db.ledger[applied[0]].version, |events| - 1))
    && (r.Err? && !r.error.Fdb? ==> applied == [])
    && (r.Err? && r.error.AppendConditionFailed? ==>
          start <= seen <= |db.ledger| && AnyBlocks(LogOf(db.ledger[..seen], ns), ProbesOf(conds)))
  }

  /** The reply after a commit: the position of the last event, if the stamp can be had. */
  method Reply(tr: Transaction, version: nat, n: nat) returns (r: Result<Versionstamp>)
    requires tr.Valid() && n > 0
    modifies tr.db`reports
    ensures tr.Valid()
    ensures r.Ok? ==> r.value == Position(version, n - 1) && tr.db.reports == old(tr.db.reports)
    ensures r.Err? ==> r.error.Fdb? && tr.db.reports == old(tr.db.reports) + [StampFailed(r.error.code)]
  {
    var fdbSlice := tr.AwaitVersionstamp(version);
    if fdbSlice.Err? {
      return Err(fdbSlice.error);
    }
    var lastVs: Versionstamp := fdbSlice.value + BigEndian(n - 1, 2);
    return Ok(lastVs);
  }

  /** A transaction on which nothing has been done yet. */
  ghost predicate Pristine(tr: Transaction)
    reads tr, tr.db
  {
    tr.Valid() && tr.sets == [] && tr.conflicts == [] && tr.readAt.None?
  }

  /** The replies that end the call, and what the attempt before them has done. */
  lemma {:induction false} EndsWell(tr: Transaction, start: nat, ns: Bytes, events: seq<Event>,
        conds: seq<AppendCondition>, attempt: Result<nat>, at: Option<nat>, r: Result<Versionstamp>)
    requires tr.Valid() && start <= tr.floor && events != []
    requires at.Some? ==> start <= at.value && CommittedAt(tr.db, at.value, ns, events, conds)
    requires attempt.Ok? ==> at.Some? && at.value < |tr.db.ledger| && attempt.value == tr.db.ledger[at.value].version
    requires attempt.Ok? ==> if r.Ok? then r.value == Position(attempt.value, |events| - 1) else r.error.Fdb?
    requires attempt.Err? ==> at.None? && r == Err(AppendConditionFailed)
    requires attempt.Err? ==> tr.readAt.Some? && AnyBlocks(LogOf(tr.Seen(), ns), ProbesOf(conds))
    ensures AppendOutcome(tr.db, start, ns, events, conds, r, Indices(at), tr.ReadVersion())
  {
  }

  /** A database error that ends the call before anything was written. */
  lemma {:induction false} RecoverEnds(db: Database, start: nat, ns: Bytes, events: seq<Event>,
        conds: seq<AppendCondition>, reply: Option<Result<Versionstamp>>, seen: nat)
    requires reply.Some? ==> reply.value.Err? && reply.value.error.Fdb?
    ensures reply.Some? ==> AppendOutcome(db, start, ns, events, conds, reply.value, [], seen)
  {
  }

  /** What is told after an attempt that is not repeated. */
  method FinalReply(tr: Transaction, attempt: Result<nat>, n: nat) returns (reply: Option<Result<Versionstamp>>)
    requires tr.Valid() && n > 0
    modifies tr.db`reports
    ensures tr.Valid() && reply.Some?
    ensures attempt.Err? ==> reply == Some(Err(attempt.error)) && tr.db.reports == old(tr.db.reports)
    ensures attempt.Ok? ==>
              if reply.value.Ok?
              then reply.value.value == Position(attempt.value, n - 1) && tr.db.reports == old(tr.db.reports)
              else reply.value.error.Fdb?
                   && tr.db.reports == old(tr.db.reports) + [StampFailed(reply.value.error.code)]
  {
    if attempt.Err? {
      return Some(Err(attempt.error));
    }
    var r := Reply(tr, attempt.value, n);
    return Some(r);
  }

  /** What the database reported during a round: an attempt that was reset, an attempt that was
      given up, a stamp that could not be had after a commit, or nothing; and failed ranges of
      a probe that found a key in another. */
  ghost predicate RoundTold(before: seq<Report>, now: seq<Report>, had: nat, left: nat,
        reply: Option<Result<Versionstamp>>, applied: seq<nat>)
  {
    if reply.None? then AttemptReset(before, now) && had > 0 && left == had - 1
    else match FailureOf(reply.value)
      case Some(code) =>
        if applied == [] then AttemptGaveUp(before, now, code, had) else now == before + [StampFailed(code)]
      case None => if reply.value.Ok? then now == before else FailuresSince(before, now)
  }

  lemma {:induction false} ResetAfter(before: seq<Report>, mid: seq<Report>, now: seq<Report>, code: int)
    requires FailuresSince(before, mid) && Failed(code) in mid[|before|..] && now == mid + [Reset]
    ensures AttemptReset(before, now)
  {
    assert now[|before|..|now| - 1] == mid[|before|..];
  }

  lemma {:induction false} GaveUpAfter(before: seq<Report>, mid: seq<Report>, now: seq<Report>, code: int,
        retryable: bool, retries: nat)
    requires FailuresSince(before, mid) && Failed(code) in mid[|before|..]
    requires now == mid + [GaveUp(code, retryable)] && (retryable ==> retries == 0)
    ensures AttemptGaveUp(before, now, code, retries)
  {
    assert now[|before|..|now| - 1] == mid[|before|..];
  }

  /** Asks the error handler about the failure of an attempt that began with reports `before`. */
  method Recover(tr: Transaction, e: Error, ghost before: seq<Report>) returns (reply: Option<Result<Versionstamp>>)
    requires tr.Valid() && e.Fdb?
    requires FailuresSince(before, tr.db.reports) && Failed(e.code) in tr.db.reports[|before|..]
    modifies tr, tr.db
    ensures tr.Valid() && tr.db.OnlyOthers()
    ensures reply.None? ==> Pristine(tr) && tr.floor >= |old(tr.db.history)|
    ensures reply.None? || reply == Some(Err(e))
    ensures RoundTold(before, tr.db.reports, old(tr.retries), tr.retries, reply, [])
  {
    var retry := tr.OnError(e);
    if retry.Ok? {
      ResetAfter(before, old(tr.db.reports), tr.db.reports, e.code);
      return None;
    }
    GaveUpAfter(before, old(tr.db.reports), tr.db.reports, e.code, tr.db.reports[|tr.db.reports| - 1].retryable,
      old(tr.retries));
    return Some(Err(retry.error));
  }

  /** Ends the call after an attempt that is not repeated. */
  method Conclude(tr: Transaction, ns: Bytes, events: seq<Event>, ghost conds: seq<AppendCondition>,
        attempt: Result<nat>, ghost at: Option<nat>, ghost start: nat, ghost before: seq<Report>)
    returns (reply: Option<Result<Versionstamp>>)
    requires tr.Valid() && Final(tr, ns, events, conds, attempt, at) && start <= tr.floor
    requires AttemptTold(before, tr.db.reports, attempt)
    modifies tr.db`reports
    ensures tr.Valid() && reply.Some?
    ensures AppendOutcome(tr.db, start, ns, events, conds, reply.value, Indices(at), tr.ReadVersion())
    ensures reply.value.Err? ==> reply.value.error.Fdb? || reply.value.error.AppendConditionFailed?
    ensures RoundTold(before, tr.db.reports, tr.retries, tr.retries, reply, Indices(at))
  {
    reply := FinalReply(tr, attempt, |events|);
    EndsWell(tr, start, ns, events, conds, attempt, at, reply.value);
  }

  /** One round: an attempt that ends the call, or one more retry used up. */
  method TryOnce(tr: Transaction, ns: Bytes, events: seq<Event>, conds: seq<AppendCondition>, ghost start: nat)
    returns (reply: Option<Result<Versionstamp>>, ghost applied: seq<nat>, ghost seen: nat)
    requires Pristine(tr) && start <= tr.floor && ValidBatch(events) && ValidConditions(conds)
    modifies tr, tr.db
    ensures tr.Valid() && tr.db.Grown() && tr.db.own == old(tr.db.own) + applied
    ensures reply.Some? ==> AppendOutcome(tr.db, start, ns, events, conds, reply.value, applied, seen)
    ensures reply.Some? && reply.value.Err? ==> reply.value.error.Fdb? || reply.value.error.AppendConditionFailed?
    ensures reply.None? ==> applied == [] && Pristine(tr) && start <= tr.floor
    ensures RoundTold(old(tr.db.reports), tr.db.reports, old(tr.retries), tr.retries, reply, applied)
  {
    tr.SetAutomaticIdempotency();
    var attempt;
    ghost var at;
    attempt, at := Attempt(tr, ns, events, conds);
    applied, seen := Indices(at), tr.ReadVersion();
    if attempt.Err? && attempt.error.Fdb? {
      reply := Recover(tr, attempt.error, old(tr.db.reports));
      RecoverEnds(tr.db, start, ns, events, conds, reply, seen);
    } else {
      reply := Conclude(tr, ns, events, conds, attempt, at, start, old(tr.db.reports));
    }
  }

  /**
   What the database has told a call with a budget of `limit` retries: only failures and
   retries if it ended without a database error, and then no failure of the last attempt
   on success; else that the error handler gave up on the error, or that the stamp of the
   commit could not be had.
   */
  ghost predicate AppendReports(start: seq<Report>, now: seq<Report>, limit: nat, r: Result<Versionstamp>,
        applied: seq<nat>)
  {
    && start <= now
    && var s := now[|start|..];
       && Resets(s) <= limit
       && match FailureOf(r)
          case Some(code) =>
            if applied == [] then GaveUpOn(s, limit, code)
            else s != [] && Retried(s[..|s| - 1]) && s[|s| - 1] == StampFailed(code)
          case None => if r.Ok? then Retried(s) else Failing(s)
  }

  lemma {:induction false} AppendBlamed(start: seq<Report>, now: seq<Report>, limit: nat, r: Result<Versionstamp>,
        applied: seq<nat>)
    requires AppendReports(start, now, limit, r, applied)
    ensures Blamed(start, now, FailureOf(r))
  {
    if FailureOf(r).Some? {
      var s := now[|start|..];
      assert now[|now| - 1] == s[|s| - 1] && s[|s| - 1].Tells(FailureOf(r).value);
    }
  }

  lemma {:induction false} FailuresEnd(start: seq<Report>, before: seq<Report>, now: seq<Report>)
    requires start <= before && Retried(before[|start|..]) && FailuresSince(before, now)
    ensures Failing(now[|start|..]) && Resets(now[|start|..]) == Resets(before[|start|..])
  {
    var past, mid := before[|start|..], now[|before|..];
    assert now[|start|..] == past + mid;
    FailingMore(past, mid);
    ResetsConcat(past, mid);
    FailuresReset(mid);
  }

  lemma {:induction false} StampEnd(start: seq<Report>, before: seq<Report>, now: seq<Report>, code: int)
    requires start <= before && now == before + [StampFailed(code)]
    ensures var s, past := now[|start|..], before[|start|..];
            s != [] && s[..|s| - 1] == past && s[|s| - 1] == StampFailed(code) && Resets(s) == Resets(past)
  {
    assert now[|start|..] == before[|start|..] + [StampFailed(code)];
  }

  /** One more round of a call: another retry, or the end of it. */
  lemma {:induction false} TrailRound(start: seq<Report>, before: seq<Report>, now: seq<Report>, limit: nat, had: nat,
        left: nat, reply: Option<Result<Versionstamp>>, applied: seq<nat>)
    requires Trail(start, before, limit, had) && RoundTold(before, now, had, left, reply, applied)
    ensures reply.None? ==> left < had && Trail(start, now, limit, left)
    ensures reply.Some? ==> AppendReports(start, now, limit, reply.value, applied)
  {
    if reply.None? {
      TrailNext(start, before, now, limit, had);
    } else if FailureOf(reply.value).Some? {
      if applied == [] {
        TrailGaveUp(start, before, now, limit, had, FailureOf(reply.value).value);
      } else {
        StampEnd(start, before, now, FailureOf(reply.value).value);
      }
    } else if reply.value.Err? {
      FailuresEnd(start, before, now);
    }
  }

  /** The retry loop; the retry budget bounds it. */
  method AppendLoop(tr: Transaction, ns: Bytes, events: seq<Event>, conds: seq<AppendCondition>)
    returns (r: Result<Versionstamp>, ghost applied: seq<nat>, ghost seen: nat)
    requires Pristine(tr) && ValidBatch(events) && ValidConditions(conds)
    modifies tr, tr.db
    ensures tr.db.Valid() && tr.db.Grown() && tr.db.own == old(tr.db.own) + applied
    ensures AppendOutcome(tr.db, old(tr.floor), ns, events, conds, r, applied, seen)
    ensures r.Err? ==> r.error.Fdb? || r.error.AppendConditionFailed?
    ensures AppendReports(old(tr.db.reports), tr.db.reports, old(tr.retries), r, applied)
  {
    TrailBegins(tr.db.reports, tr.retries);
    while true
      invariant Pristine(tr) && tr.db.OnlyOthers() && old(tr.floor) <= tr.floor
      invariant Trail(old(tr.db.reports), tr.db.reports, old(tr.retries), tr.retries)
      decreases tr.retries
    {
      ghost var before, retries := tr.db.reports, tr.retries;
      var reply;
      reply, applied, seen := TryOnce(tr, ns, events, conds, old(tr.floor));
      TrailRound(old(tr.db.reports), before, tr.db.reports, old(tr.retries), retries, tr.retries, reply, applied);
      if reply.Some? {
        return reply.value, applied, seen;
      }
    }
  }

  /** The conditional append, whatever other clients do meanwhile. An invalid call gets the
      error of its first invalid part and changes nothing. */
  method Append(db: Database, ns: Bytes, events: seq<Event>, conds: seq<AppendCondition>)
    returns (r: Result<Versionstamp>, ghost applied: seq<nat>, ghost seen: nat)
    requires db.Valid()
    modifies db
    ensures db.Valid() && db.Grown() && db.own == old(db.own) + applied
    ensures AppendOutcome(db, |old(db.history)|, ns, events, conds, r, applied, seen)
    ensures (r.Ok? || r.error.Fdb? || r.error.AppendConditionFailed?) <==>
              && 0 < |events| <= 65535
              && (forall e :: e in events ==> e.typeName != [] && |e.tags| <= 10 && [0x5F] !in e.tags)
              && forall c :: c in conds ==>
                   && c.query.items != []
                   && forall item :: item in c.query.items ==>
                        (item.types != [] || item.tags != []) && [0x5F] !in item.tags
    ensures !ValidBatch(events) ==> r.Err? && RejectsEvents(events, r.error)
    ensures ValidBatch(events) && !ValidConditions(conds) ==> r.Err? && RejectsConditions(conds, r.error)
    ensures r.Ok? || r.error.Fdb? || r.error.AppendConditionFailed? || db.history == old(db.history)
    ensures AppendReports(old(db.reports), db.reports, 100, r, applied)
    ensures db.reports == old(db.reports) ==> r.Ok? || !r.error.Fdb?
  {
    applied, seen := [], 0;
    NoReports(db.reports);
    var validEvents := ValidateEvents(events);
    if validEvents.Err? {
      return Err(validEvents.error), applied, seen;
    }
    var validConditions := ValidateConditions(conds);
    if validConditions.Err? {
      return Err(validConditions.error), applied, seen;
    }
    var tr := new Transaction(db);
    tr.SetRetryLimit(APPEND_RETRY_LIMIT);
    r, applied, seen := AppendLoop(tr, ns, events, conds);
  }

  lemma {:induction false} NoReports(start: seq<Report>)
    ensures start[|start|..] == [] && Failing([]) && Resets([]) == 0
  {
  }
}

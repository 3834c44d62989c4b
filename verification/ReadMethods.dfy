/** `read.rs`: queries and the scan of all events, inside a transaction and with retries. */
module ReadMethods {
  import opened Bytes
  import opened Tuples
  import opened Types
  import opened Kv
  import opened Ledger
  import opened Merge
  import opened Reading
  import opened Fdb
  import Encoding
  import Ranges
  import Matching
  import QueryMethods
  import Scanning

  const READ_RETRY_LIMIT: nat := 10

  // -------------------------------------------------------------------------
  // Building the ranges of a query
  // -------------------------------------------------------------------------

  /** The first item that has no ranges decides the error. */
  lemma {:induction false} QueryFailsEarly(kv: Store, ns: Bytes, items: seq<QueryItem>, after: Option<Versionstamp>,
        n: nat)
    requires n <= |items| && QueryRanges(kv, ns, items[..n], after).Err?
    ensures QueryRanges(kv, ns, items, after) == Err(QueryRanges(kv, ns, items[..n], after).error)
    decreases |items|
  {
    if n == |items| {
      assert items[..n] == items;
    } else {
      var m := |items| - 1;
      assert items[..m][..n] == items[..n];
      QueryFailsEarly(kv, ns, items[..m], after, n);
    }
  }

  ghost predicate AllTyped(items: seq<QueryItem>) {
    forall item :: item in items ==> item.types != []
  }

  /** Ranges of items with types do not depend on the store. */
  lemma {:induction false} TypedQueryAnywhere(kv: Store, kv': Store, ns: Bytes, items: seq<QueryItem>,
        after: Option<Versionstamp>)
    requires AllTyped(items)
    ensures QueryRanges(kv, ns, items, after) == QueryRanges(kv', ns, items, after)
  {
    if items != [] {
      var n := |items| - 1;
      TypedQueryAnywhere(kv, kv', ns, items[..n], after);
      QueryMethods.TypedItemAnywhere(kv, kv', ns, items[n], after);
    }
  }

  /** One more item: its ranges follow, or its error decides. */
  lemma {:induction false} QueryRangesNext(kv: Store, ns: Bytes, items: seq<QueryItem>, i: nat,
        after: Option<Versionstamp>)
    requires i < |items| && QueryRanges(kv, ns, items[..i], after).Ok?
    ensures var r := Matching.ItemRanges(kv, ns, items[i], after);
            && (r.Ok? ==>
                  var before := QueryRanges(kv, ns, items[..i], after).value;
                  QueryRanges(kv, ns, items[..i + 1], after) == Ok(before + r.value))
            && (r.Err? ==> QueryRanges(kv, ns, items, after) == Err(r.error))
  {
    assert items[..i + 1][..i] == items[..i] && items[..i + 1][i] == items[i];
    if Matching.ItemRanges(kv, ns, items[i], after).Err? {
      QueryFailsEarly(kv, ns, items, after, i + 1);
    }
  }

  /** The ranges of the items so far. */
  ghost predicate BuiltSoFar(kv: Store, read: bool, ns: Bytes, items: seq<QueryItem>, after: Option<Versionstamp>,
        rs: seq<Range>)
  {
    QueryRanges(kv, ns, items, after) == Ok(rs) && (!read ==> AllTyped(items))
  }

  lemma {:induction false} BuiltAnywhere(kv: Store, kv': Store, read: bool, ns: Bytes, items: seq<QueryItem>,
        after: Option<Versionstamp>, built: seq<Range>)
    requires BuiltSoFar(kv, read, ns, items, after, built) && (read ==> kv' == kv)
    ensures BuiltSoFar(kv', read, ns, items, after, built)
  {
    if !read {
      TypedQueryAnywhere(kv, kv', ns, items, after);
    }
  }

  /** Ranges of one more item; fixing the read version meanwhile does not matter. */
  lemma {:induction false} BuiltNext(kv: Store, kv': Store, read: bool, read': bool, ns: Bytes, items: seq<QueryItem>,
        i: nat, after: Option<Versionstamp>, built: seq<Range>, more: Result<seq<Range>>)
    requires i < |items| && BuiltSoFar(kv, read, ns, items[..i], after, built) && (read ==> read' && kv' == kv)
    requires more == Matching.ItemRanges(kv', ns, items[i], after) && (more.Ok? && items[i].types == [] ==> read')
    ensures more.Ok? ==> BuiltSoFar(kv', read', ns, items[..i + 1], after, built + more.value)
    ensures more.Err? ==> more == QueryRanges(kv', ns, items, after)
  {
    BuiltAnywhere(kv, kv', read, ns, items[..i], after, built);
    QueryRangesNext(kv', ns, items, i, after);
    assert !read' ==> forall item :: item in items[..i + 1] ==> item in items[..i] || item == items[i];
  }

  method BuildNext(tr: Transaction, ns: Bytes, ghost items: seq<QueryItem>, i: nat, item: QueryItem,
        after: Option<Versionstamp>, built: seq<Range>) returns (r: Result<seq<Range>>)
    requires tr.Valid() && tr.sets == [] && i < |items| && item == items[i]
    requires BuiltSoFar(tr.view, tr.readAt.Some?, ns, items[..i], after, built)
    modifies tr, tr.db
    ensures tr.Valid() && tr.Reading() && tr.conflicts == old(tr.conflicts)
    ensures tr.db.Reports(FailureOf(r))
    ensures r.Ok? ==> BuiltSoFar(tr.view, tr.readAt.Some?, ns, items[..i + 1], after, r.value)
    ensures r.Err? ==> r.error.Fdb? || r == QueryRanges(tr.view, ns, items, after)
  {
    var ranges := QueryMethods.BuildQueryRanges(tr, ns, item, after, true);
    if ranges.Err? && ranges.error.Fdb? {
      return ranges;
    }
    BuiltNext(old(tr.view), tr.view, old(tr.readAt.Some?), tr.readAt.Some?, ns, items, i, after, built, ranges);
    r := if ranges.Ok? then Ok(built + ranges.value) else ranges;
  }

  /** The ranges of all items; the source builds them concurrently at one read version. */
  method BuildAllRanges(tr: Transaction, ns: Bytes, items: seq<QueryItem>, after: Option<Versionstamp>)
    returns (r: Result<seq<Range>>)
    requires tr.Valid() && tr.sets == []
    modifies tr, tr.db
    ensures tr.Valid() && tr.Reading() && tr.conflicts == old(tr.conflicts)
    ensures tr.db.Reports(FailureOf(r))
    ensures (r.Err? && r.error.Fdb?) || r == QueryRanges(tr.view, ns, items, after)
    ensures r.Ok? && tr.readAt.None? ==> AllTyped(items)
  {
    var allRanges: seq<Range> := [];
    for i := 0 to |items|
      invariant tr.Valid() && tr.Reading() && tr.conflicts == old(tr.conflicts) && tr.sets == []
      invariant tr.db.reports == old(tr.db.reports)
      invariant BuiltSoFar(tr.view, tr.readAt.Some?, ns, items[..i], after, allRanges)
    {
      var more := BuildNext(tr, ns, items, i, items[i], after, allRanges);
      if more.Err? {
        return more;
      }
      allRanges := more.value;
    }
    assert items[..|items|] == items;
    return Ok(allRanges);
  }

  // -------------------------------------------------------------------------
  // Reading the positions
  // -------------------------------------------------------------------------

  ghost predicate RangesStamped(kv: Store, rs: seq<Range>) {
    forall r :: r in rs ==> AllStamped(KeysIn(kv, r))
  }

  /**
   `out` holds positions of the ranges only, and all of them unless the limit is reached;
   and when every range lists its positions in order, `out` merges them all, cut at the limit.
   */
  ghost predicate Merged(kv: Store, rs: seq<Range>, opts: ReadOptions, out: seq<Versionstamp>) {
    var streams := AllRangeStamps(kv, rs, opts.reverse);
    && (forall x :: x in out ==> InSome(x, streams))
    && Exhausts(CutAll(streams, opts.limit), opts.limit, out)
    && (AllOrdered(opts.reverse, streams) ==> IsMerge(CutAll(streams, opts.limit), opts.limit, opts.reverse, out))
  }

  lemma {:induction false} SingleStream(s: seq<Bytes>, limit: nat, reverse: bool)
    requires Ordered(reverse, s)
    ensures IsMerge([Cut(s, limit)], limit, reverse, Cut(s, limit))
  {
    assert forall x :: x in Cut(s, limit) ==> x in [Cut(s, limit)][0];
  }

  lemma {:induction false} SingleExhausts(s: seq<Bytes>, limit: nat)
    ensures Exhausts([Cut(s, limit)], limit, Cut(s, limit))
  {
    assert forall x :: InSome(x, [Cut(s, limit)]) ==> x in Cut(s, limit);
  }

  lemma {:induction false} SingleMerged(kv: Store, r: Range, opts: ReadOptions, keys: seq<Bytes>)
    requires keys == GetRange(kv, r, opts.limit, opts.reverse)
    ensures Merged(kv, [r], opts, StampSeq(keys))
  {
    LimitedRead(kv, r, opts.limit, opts.reverse);
    var stream := RangeStamps(kv, r, opts.reverse);
    var streams := AllRangeStamps(kv, [r], opts.reverse);
    assert streams[0] == stream;
    forall x | x in StampSeq(keys) ensures InSome(x, streams) {
      CutHas(stream, opts.limit, x);
    }
    assert CutAll(streams, opts.limit) == [Cut(stream, opts.limit)];
    SingleExhausts(stream, opts.limit);
    if AllOrdered(opts.reverse, streams) {
      SingleStream(stream, opts.limit, opts.reverse);
    }
  }

  /** The positions of a stream of keys, up to the limit. */
  method ExtractAll(stream: seq<Bytes>, limit: nat) returns (r: Result<seq<Versionstamp>>)
    requires limit > 0 ==> |stream| <= limit
    ensures r.Ok? ==> r.value == StampSeq(stream)
    ensures r.Err? ==> r.error.TupleDecode? && !AllStamped(stream)
  {
    var orderedVses: seq<Versionstamp> := [];
    for i := 0 to |stream|
      invariant limit > 0 && i > 0 ==> i < limit
      invariant orderedVses == StampSeq(stream[..i])
    {
      var vs := ExtractVsFromKey(stream[i]);
      if vs.Err? {
        assert stream[i] in stream;
        return Err(vs.error);
      }
      orderedVses := orderedVses + [vs.value];
      assert stream[..i + 1] == stream[..i] + [stream[i]];
      if limit > 0 && |orderedVses| >= limit {
        assert stream[..i + 1] == stream;
        return Ok(orderedVses);
      }
    }
    assert stream[..|stream|] == stream;
    return Ok(orderedVses);
  }

  /** The fast path: one range, no heap. */
  method ReadSingleRange(tr: Transaction, range: Range, opts: ReadOptions) returns (r: Result<seq<Versionstamp>>)
    requires tr.Valid() && tr.sets == []
    modifies tr, tr.db
    ensures tr.Valid() && tr.Reading() && tr.conflicts == old(tr.conflicts)
    ensures tr.db.Reports(FailureOf(r))
    ensures r.Ok? ==> tr.readAt.Some? && r.value == StampSeq(GetRange(tr.view, range, opts.limit, opts.reverse))
    ensures r.Err? ==> r.error.Fdb? || !RangesStamped(tr.view, [range])
  {
    var stream, _ := tr.GetRangesKeyvalues(range, opts.limit, opts.reverse, true);
    if stream.Err? {
      return Err(stream.error);
    }
    CutLength(tr.view, range, opts.limit, opts.reverse);
    r := ExtractAll(stream.value, opts.limit);
    if r.Err? {
      UnstampedKey(tr.view, range, opts.limit, opts.reverse);
    }
  }

  lemma {:induction false} CutLength(kv: Store, r: Range, limit: nat, reverse: bool)
    ensures limit > 0 ==> |GetRange(kv, r, limit, reverse)| <= limit
  {
  }

  lemma {:induction false} UnstampedKey(kv: Store, r: Range, limit: nat, reverse: bool)
    requires !AllStamped(GetRange(kv, r, limit, reverse))
    ensures !RangesStamped(kv, [r])
  {
    LimitedRead(kv, r, limit, reverse);
    assert r in [r];
  }

  ghost predicate StreamsOf(kv: Store, read: bool, ranges: seq<Range>, opts: ReadOptions, streams: seq<seq<Bytes>>) {
    && |streams| == |ranges| && (ranges != [] ==> read)
    && forall i :: 0 <= i < |ranges| ==> streams[i] == GetRange(kv, ranges[i], opts.limit, opts.reverse)
  }

  lemma {:induction false} StreamsNext(kv: Store, ranges: seq<Range>, i: nat, opts: ReadOptions,
        streams: seq<seq<Bytes>>)
    requires i < |ranges| && StreamsOf(kv, true, ranges[..i], opts, streams)
    ensures StreamsOf(kv, true, ranges[..i + 1], opts,
              streams + [GetRange(kv, ranges[i], opts.limit, opts.reverse)])
  {
    assert forall j :: 0 <= j < i ==> ranges[..i + 1][j] == ranges[..i][j];
  }

  method OpenNext(tr: Transaction, ranges: seq<Range>, i: nat, opts: ReadOptions, streams: seq<seq<Bytes>>)
    returns (r: Result<seq<seq<Bytes>>>)
    requires tr.Valid() && tr.sets == []
    requires i < |ranges| && StreamsOf(tr.view, tr.readAt.Some?, ranges[..i], opts, streams)
    modifies tr, tr.db
    ensures tr.Valid() && tr.Reading() && tr.conflicts == old(tr.conflicts)
    ensures tr.db.Reports(FailureOf(r))
    ensures r.Ok? ==> StreamsOf(tr.view, tr.readAt.Some?, ranges[..i + 1], opts, r.value)
    ensures r.Err? ==> r.error.Fdb?
  {
    var stream, _ := tr.GetRangesKeyvalues(ranges[i], opts.limit, opts.reverse, true);
    if stream.Err? {
      return Err(stream.error);
    }
    StreamsNext(tr.view, ranges, i, opts, streams);
    return Ok(streams + [stream.value]);
  }

  /** Opens one stream per range. */
  method OpenStreams(tr: Transaction, ranges: seq<Range>, opts: ReadOptions) returns (r: Result<seq<seq<Bytes>>>)
    requires tr.Valid() && tr.sets == []
    modifies tr, tr.db
    ensures tr.Valid() && tr.Reading() && tr.conflicts == old(tr.conflicts)
    ensures tr.db.Reports(FailureOf(r))
    ensures r.Ok? ==> StreamsOf(tr.view, tr.readAt.Some?, ranges, opts, r.value)
    ensures r.Err? ==> r.error.Fdb?
  {
    var streams: seq<seq<Bytes>> := [];
    for i := 0 to |ranges|
      invariant tr.Valid() && tr.Reading() && tr.conflicts == old(tr.conflicts) && tr.sets == []
      invariant tr.db.reports == old(tr.db.reports)
      invariant StreamsOf(tr.view, tr.readAt.Some?, ranges[..i], opts, streams)
    {
      var more := OpenNext(tr, ranges, i, opts, streams);
      if more.Err? {
        return more;
      }
      streams := more.value;
    }
    assert ranges[..|ranges|] == ranges;
    return Ok(streams);
  }

  lemma {:induction false} OneStreamStamps(kv: Store, r: Range, opts: ReadOptions)
    ensures var keys := GetRange(kv, r, opts.limit, opts.reverse);
            && StampsFit(keys, Cut(RangeStamps(kv, r, opts.reverse), opts.limit))
            && (!AllStamped(keys) ==> !AllStamped(KeysIn(kv, r)))
  {
    LimitedRead(kv, r, opts.limit, opts.reverse);
  }

  lemma {:induction false} CutAllStreams(full: seq<seq<Bytes>>, limit: nat, reverse: bool)
    ensures forall x :: InSome(x, CutAll(full, limit)) ==> InSome(x, full)
    ensures AllOrdered(reverse, full) ==> AllOrdered(reverse, CutAll(full, limit))
  {
    forall x | InSome(x, CutAll(full, limit)) ensures InSome(x, full) {
      var i :| 0 <= i < |full| && x in CutAll(full, limit)[i];
      CutHas(full[i], limit, x);
    }
  }

  lemma {:induction false} StreamStamps(kv: Store, rs: seq<Range>, opts: ReadOptions, keys: seq<seq<Bytes>>)
    requires StreamsOf(kv, true, rs, opts, keys)
    ensures var stamps := CutAll(AllRangeStamps(kv, rs, opts.reverse), opts.limit);
            forall i :: 0 <= i < |keys| ==> StampsFit(keys[i], stamps[i])
    ensures SomeUnstamped(keys) ==> !RangesStamped(kv, rs)
  {
    forall i | 0 <= i < |rs|
      ensures StampsFit(keys[i], CutAll(AllRangeStamps(kv, rs, opts.reverse), opts.limit)[i])
    {
      OneStreamStamps(kv, rs[i], opts);
    }
    if i :| 0 <= i < |keys| && !AllStamped(keys[i]) {
      OneStreamStamps(kv, rs[i], opts);
      assert rs[i] in rs;
    }
  }

  /** The merge of the streams of several ranges. */
  method ReadMergedRanges(tr: Transaction, ranges: seq<Range>, opts: ReadOptions) returns (r: Result<seq<Versionstamp>>)
    requires tr.Valid() && tr.sets == [] && ranges != []
    modifies tr, tr.db
    ensures tr.Valid() && tr.Reading() && tr.conflicts == old(tr.conflicts)
    ensures tr.db.Reports(FailureOf(r))
    ensures r.Ok? ==> tr.readAt.Some? && Merged(tr.view, ranges, opts, r.value)
    ensures r.Err? ==> r.error.Fdb? || !RangesStamped(tr.view, ranges)
  {
    var streams := OpenStreams(tr, ranges, opts);
    if streams.Err? {
      return Err(streams.error);
    }
    StreamStamps(tr.view, ranges, opts, streams.value);
    CutAllStreams(AllRangeStamps(tr.view, ranges, opts.reverse), opts.limit, opts.reverse);
    ghost var stamps := CutAll(AllRangeStamps(tr.view, ranges, opts.reverse), opts.limit);
    r := MergeStreams(streams.value, opts.limit, opts.reverse, stamps);
  }

  // -------------------------------------------------------------------------
  // Fetching the events
  // -------------------------------------------------------------------------

  lemma {:induction false} FetchFailsEarly(kv: Store, ns: Bytes, vses: seq<Versionstamp>, n: nat)
    requires n <= |vses| && Fetch(kv, ns, vses[..n]).Err?
    ensures Fetch(kv, ns, vses) == Err(Fetch(kv, ns, vses[..n]).error)
    decreases |vses|
  {
    if n == |vses| {
      assert vses[..n] == vses;
    } else {
      var m := |vses| - 1;
      assert vses[..m][..n] == vses[..n];
      FetchFailsEarly(kv, ns, vses[..m], n);
    }
  }

  method FetchEvents(tr: Transaction, ns: Bytes, orderedVses: seq<Versionstamp>) returns (r: Result<seq<StoredEvent>>)
    requires tr.Valid() && tr.sets == [] && tr.readAt.Some?
    modifies tr, tr.db
    ensures tr.Valid() && tr.Reading() && tr.conflicts == old(tr.conflicts)
    ensures tr.db.Reports(FailureOf(r))
    ensures (r.Err? && r.error.Fdb?) || r == Fetch(tr.view, ns, orderedVses)
  {
    var events: seq<StoredEvent> := [];
    for i := 0 to |orderedVses|
      invariant tr.Valid() && tr.Reading() && tr.conflicts == old(tr.conflicts) && tr.sets == [] && tr.readAt.Some?
      invariant tr.db.reports == old(tr.db.reports)
      invariant Fetch(tr.view, ns, orderedVses[..i]) == Ok(events)
    {
      var vs := orderedVses[i];
      assert orderedVses[..i + 1][..i] == orderedVses[..i] && orderedVses[..i + 1][i] == vs;
      var maybeSlice := tr.Get(Encoding.PackEventKey(ns, vs), true);
      if maybeSlice.Err? {
        return Err(maybeSlice.error);
      }
      if maybeSlice.value.None? {
        FetchFailsEarly(tr.view, ns, orderedVses, i + 1);
        return Err(EventNotFound(vs));
      }
      var event := Encoding.DecodeEventValue(maybeSlice.value.value);
      if event.Err? {
        FetchFailsEarly(tr.view, ns, orderedVses, i + 1);
        return Err(event.error);
      }
      events := events + [StoredEvent(event.value, vs)];
    }
    assert orderedVses[..|orderedVses|] == orderedVses;
    return Ok(events);
  }

  // -------------------------------------------------------------------------
  // A query
  // -------------------------------------------------------------------------

  ghost predicate ReservedIn(q: Query) {
    exists item :: item in q.items && [0x5F] in item.tags
  }

  ghost predicate BlankItem(q: Query) {
    exists item :: item in q.items && item.types == [] && item.tags == []
  }

  /** The failures of a read: an invalid query, or the database. */
  ghost predicate ReadError(query: Query, error: Error) {
    && (error.ReservedTag? ==> ReservedIn(query))
    && (error.InvalidQuery? ==> BlankItem(query))
    && (error.ReservedTag? || error.InvalidQuery? || error.Fdb?)
  }

  /** Without reserved tags, building ranges fails exactly on an item with neither type nor tag. */
  lemma {:induction false} QueryRangesFail(h: seq<Commit>, l: seq<Record>, ns: Bytes, items: seq<QueryItem>,
        after: Option<Versionstamp>)
    requires Matches(h, l) && forall item :: item in items ==> RESERVED_TAG !in item.tags
    ensures QueryRanges(Replay(h), ns, items, after).Err? <==> exists item :: item in items && item.HasNoTypeNorTags()
    ensures QueryRanges(Replay(h), ns, items, after).Err? ==>
              QueryRanges(Replay(h), ns, items, after).error == InvalidQuery
  {
    if items != [] {
      var n := |items| - 1;
      assert items == items[..n] + [items[n]];
      assert items[n] in items && forall i :: i in items[..n] ==> i in items;
      QueryRangesFail(h, l, ns, items[..n], after);
      if !items[n].HasNoTypeNorTags() {
        Matching.ItemRangesOk(h, l, ns, items[n], after);
      }
    }
  }

  ghost predicate RangeLogged(kv: Store, r: Range, l: seq<Record>, ns: Bytes, reverse: bool) {
    AllStamped(KeysIn(kv, r)) && forall p :: p in RangeStamps(kv, r, reverse) ==> IsLogged(l, ns, p)
  }

  lemma {:induction false} KeysLogged(kv: Store, r: Range, l: seq<Record>, ns: Bytes, reverse: bool)
    requires AllStamped(KeysIn(kv, r)) && forall k :: k in KeysIn(kv, r) ==> IsLogged(l, ns, StampOf(k))
    ensures RangeLogged(kv, r, l, ns, reverse)
  {
    var keys := KeysIn(kv, r);
    forall p | p in RangeStamps(kv, r, reverse) ensures IsLogged(l, ns, p) {
      ReversedHas(StampSeq(keys), p);
      var i :| 0 <= i < |keys| && StampSeq(keys)[i] == p;
      assert keys[i] in keys;
    }
  }

  lemma {:induction false} RangeStampsLogged(h: seq<Commit>, l: seq<Record>, ns: Bytes, q: Query,
        after: Option<Versionstamp>, r: Range, reverse: bool)
    requires Matches(h, l) && ValidQuery(q) && QueryRanges(Replay(h), ns, q.items, after).Ok?
    requires r in QueryRanges(Replay(h), ns, q.items, after).value
    ensures RangeLogged(Replay(h), r, l, ns, reverse)
  {
    var item, t := RangeOwner(Replay(h), ns, q.items, after, r);
    TypedRangeStamped(h, l, ns, Encoding.Canonical(item.tags), t, after);
    KeysLogged(Replay(h), r, l, ns, reverse);
  }

  /** What the ranges of a valid query yield are positions of the log, in every store. */
  lemma {:induction false} StampsLogged(h: seq<Commit>, l: seq<Record>, ns: Bytes, q: Query,
        after: Option<Versionstamp>, reverse: bool)
    requires Matches(h, l) && ValidQuery(q)
    ensures QueryRanges(Replay(h), ns, q.items, after).Ok?
    ensures var rs := QueryRanges(Replay(h), ns, q.items, after).value;
            && RangesStamped(Replay(h), rs)
            && forall p :: InSome(p, AllRangeStamps(Replay(h), rs, reverse)) ==> IsLogged(l, ns, p)
  {
    QueryRangesOk(h, l, ns, q.items, after);
    var rs := QueryRanges(Replay(h), ns, q.items, after).value;
    forall r | r in rs ensures RangeLogged(Replay(h), r, l, ns, reverse) {
      RangeStampsLogged(h, l, ns, q, after, r, reverse);
    }
  }

  /** Merged positions leave out no selected event before the limit, for all type names. */
  lemma {:induction false} MergedReaches(h: seq<Commit>, l: seq<Record>, ns: Bytes, q: Query, opts: ReadOptions,
        vses: seq<Versionstamp>, se: StoredEvent)
    requires Matches(h, l) && ValidQuery(q)
    requires QueryRanges(Replay(h), ns, q.items, opts.after).Ok?
    requires Merged(Replay(h), QueryRanges(Replay(h), ns, q.items, opts.after).value, opts, vses)
    requires opts.limit == 0 || |vses| < opts.limit
    requires se in LogOf(l, ns) && Selects(q, opts.after, se)
    ensures se.position in vses
  {
    var rs := QueryRanges(Replay(h), ns, q.items, opts.after).value;
    WantedInSome(h, l, ns, q, opts.after, opts.reverse, se.position);
    var streams := AllRangeStamps(Replay(h), rs, opts.reverse);
    forall i | 0 <= i < |streams| ensures Matching.Distinct(streams[i]) {
      var item, t := RangeOwner(Replay(h), ns, q.items, opts.after, rs[i]);
      TypedStampsDistinct(h, l, ns, Encoding.Canonical(item.tags), t, opts.after, opts.reverse);
    }
    CutExhausts(streams, opts.limit, vses, se.position);
  }

  lemma {:induction false} FetchedDependable(l: seq<Record>, ns: Bytes, q: Query, opts: ReadOptions,
        vses: seq<Versionstamp>, events: seq<StoredEvent>)
    requires Ledgered(l) && FetchedAs(LogOf(l, ns), vses, events) && (opts.limit > 0 ==> |vses| <= opts.limit)
    requires opts.limit == 0 || |vses| < opts.limit ==>
               forall se :: se in LogOf(l, ns) && Selects(q, opts.after, se) ==> se.position in vses
    ensures Dependable(l, ns, q, opts, events)
  {
    if opts.limit == 0 || |vses| < opts.limit {
      forall se | se in LogOf(l, ns) && Selects(q, opts.after, se) ensures se in events {
        var i :| 0 <= i < |vses| && vses[i] == se.position;
        PositionUnique(l, ns, events[i], se);
      }
    }
  }

  /** What is fetched at merged positions is dependable, for all type names. */
  lemma {:induction false} MergedDependable(h: seq<Commit>, l: seq<Record>, ns: Bytes, q: Query, opts: ReadOptions,
        vses: seq<Versionstamp>)
    requires Matches(h, l) && ValidQuery(q)
    requires QueryRanges(Replay(h), ns, q.items, opts.after).Ok?
    requires Merged(Replay(h), QueryRanges(Replay(h), ns, q.items, opts.after).value, opts, vses)
    ensures Fetch(Replay(h), ns, vses).Ok? && Dependable(l, ns, q, opts, Fetch(Replay(h), ns, vses).value)
  {
    StampsLogged(h, l, ns, q, opts.after, opts.reverse);
    FetchLogged(h, l, ns, vses);
    if opts.limit == 0 || |vses| < opts.limit {
      forall se | se in LogOf(l, ns) && Selects(q, opts.after, se) ensures se.position in vses {
        MergedReaches(h, l, ns, q, opts, vses, se);
      }
    }
    FetchedDependable(l, ns, q, opts, vses, Fetch(Replay(h), ns, vses).value);
  }

  /** Reading positions and fetching them is filtering the log. */
  lemma {:induction false} MergedIsSpec(h: seq<Commit>, l: seq<Record>, ns: Bytes, q: Query, opts: ReadOptions,
        vses: seq<Versionstamp>)
    requires Matches(h, l) && ValidQuery(q)
    requires QueryRanges(Replay(h), ns, q.items, opts.after).Ok?
    requires Merged(Replay(h), QueryRanges(Replay(h), ns, q.items, opts.after).value, opts, vses)
    ensures Fetch(Replay(h), ns, vses).Ok?
    ensures Matching.TypesApart(l, ns, q) ==> Fetch(Replay(h), ns, vses) == Ok(ReadSpec(LogOf(l, ns), q, opts))
  {
    StampsLogged(h, l, ns, q, opts.after, opts.reverse);
    FetchLogged(h, l, ns, vses);
    if Matching.TypesApart(l, ns, q) {
      QueryStreams(h, l, ns, q, opts.after, opts.reverse);
      ReadPositions(h, l, ns, q, opts, vses);
      FetchSpecified(h, l, ns, q, opts, vses);
    }
  }

  /** A query with one range returns what the range holds, whether that is right or not. */
  ghost predicate SingleRangeRead(kv: Store, ns: Bytes, q: Query, opts: ReadOptions, r: Result<seq<StoredEvent>>) {
    var rs := QueryRanges(kv, ns, q.items, opts.after);
    rs.Ok? && |rs.value| == 1 ==> r == Fetch(kv, ns, StampSeq(GetRange(kv, rs.value[0], opts.limit, opts.reverse)))
  }

  /** Items with types have at least one range each. */
  lemma {:induction false} TypedHaveRanges(kv: Store, ns: Bytes, items: seq<QueryItem>, after: Option<Versionstamp>)
    requires AllTyped(items) && items != []
    ensures QueryRanges(kv, ns, items, after).Ok? ==> QueryRanges(kv, ns, items, after).value != []
  {
    var n := |items| - 1;
    assert items[n] in items;
    Matching.TypedRangesAre(ns, Encoding.Canonical(items[n].tags), items[n].types, after);
  }

  lemma {:induction false} NoRanges(kv: Store, opts: ReadOptions)
    ensures Merged(kv, [], opts, [])
  {
  }

  /**
   One attempt of a read: the events of the log at the read version that match, lie
   after the bound, in order and cut, whichever of the three paths is taken. The only
   failures are database errors and queries that are not valid.
   */
  method ReadEvents(tr: Transaction, ns: Bytes, query: Query, opts: ReadOptions) returns (r: Result<seq<StoredEvent>>)
    requires tr.Valid() && tr.sets == []
    modifies tr, tr.db
    ensures tr.Valid() && tr.Reading() && tr.conflicts == old(tr.conflicts)
    ensures tr.db.Reports(FailureOf(r))
    ensures r.Ok? ==> Dependable(tr.Seen(), ns, query, opts, r.value)
    ensures r.Ok? && Matching.TypesApart(tr.Seen(), ns, query) ==>
              r.value == ReadSpec(LogOf(tr.Seen(), ns), query, opts)
    ensures r.Ok? ==> SingleRangeRead(tr.view, ns, query, opts, r)
    ensures r.Ok? && tr.readAt.None? ==> query.items == []
    ensures r.Ok? ==> ValidQuery(query)
    ensures r.Err? ==> ReadError(query, r.error)
  {
    for i := 0 to |query.items|
      invariant forall j :: 0 <= j < i ==> RESERVED_TAG !in query.items[j].tags
    {
      if RESERVED_TAG in query.items[i].tags {
        assert query.items[i] in query.items;
        return Err(ReservedTag);
      }
    }
    var allRanges := BuildAllRanges(tr, ns, query.items, opts.after);
    tr.SeenMatches();
    QueryRangesFail(tr.SeenHistory(), tr.Seen(), ns, query.items, opts.after);
    if allRanges.Err? {
      return Err(allRanges.error);
    }
    r := ReadRanges(tr, ns, query, allRanges.value, opts);
  }

  /** One range is read directly, several are merged. */
  method ReadPositionsOf(tr: Transaction, ranges: seq<Range>, opts: ReadOptions) returns (r: Result<seq<Versionstamp>>)
    requires tr.Valid() && tr.sets == [] && ranges != []
    modifies tr, tr.db
    ensures tr.Valid() && tr.Reading() && tr.conflicts == old(tr.conflicts)
    ensures tr.db.Reports(FailureOf(r))
    ensures r.Ok? ==> tr.readAt.Some? && Merged(tr.view, ranges, opts, r.value)
    ensures r.Ok? && |ranges| == 1 ==> r.value == StampSeq(GetRange(tr.view, ranges[0], opts.limit, opts.reverse))
    ensures r.Err? ==> r.error.Fdb? || !RangesStamped(tr.view, ranges)
  {
    if |ranges| == 1 {
      assert ranges == [ranges[0]];
      r := ReadSingleRange(tr, ranges[0], opts);
      SingleMerged(tr.view, ranges[0], opts, GetRange(tr.view, ranges[0], opts.limit, opts.reverse));
    } else {
      r := ReadMergedRanges(tr, ranges, opts);
    }
  }

  method ReadRanges(tr: Transaction, ns: Bytes, ghost query: Query, allRanges: seq<Range>, opts: ReadOptions)
    returns (r: Result<seq<StoredEvent>>)
    requires tr.Valid() && tr.sets == [] && ValidQuery(query)
    requires QueryRanges(tr.view, ns, query.items, opts.after) == Ok(allRanges)
    requires tr.readAt.None? ==> AllTyped(query.items)
    modifies tr, tr.db
    ensures tr.Valid() && tr.Reading() && tr.conflicts == old(tr.conflicts)
    ensures tr.db.Reports(FailureOf(r))
    ensures r.Ok? ==> Dependable(tr.Seen(), ns, query, opts, r.value)
    ensures r.Ok? && Matching.TypesApart(tr.Seen(), ns, query) ==>
              r.value == ReadSpec(LogOf(tr.Seen(), ns), query, opts)
    ensures r.Ok? ==> SingleRangeRead(tr.view, ns, query, opts, r)
    ensures r.Ok? && tr.readAt.None? ==> query.items == []
    ensures r.Err? ==> r.error.Fdb?
  {
    if |allRanges| == 0 {
      NoRanges(tr.view, opts);
      tr.SeenMatches();
      MergedDependable(tr.SeenHistory(), tr.Seen(), ns, query, opts, []);
      MergedIsSpec(tr.SeenHistory(), tr.Seen(), ns, query, opts, []);
      if query.items != [] && AllTyped(query.items) {
        TypedHaveRanges(tr.view, ns, query.items, opts.after);
      }
      return Ok([]);
    }
    ghost var before := tr.view;
    var vses := ReadPositionsOf(tr, allRanges, opts);
    assert |allRanges| == 1 ==> allRanges == [allRanges[0]];
    RangesStillBuilt(before, tr, ns, query, opts.after, allRanges, old(tr.readAt));
    if vses.Err? {
      return Err(vses.error);
    }
    r := FetchMerged(tr, ns, query, allRanges, opts, vses.value);
  }

  /** The events at merged positions are the specified ones. */
  method FetchMerged(tr: Transaction, ns: Bytes, ghost query: Query, ghost allRanges: seq<Range>, opts: ReadOptions,
        vses: seq<Versionstamp>) returns (r: Result<seq<StoredEvent>>)
    requires tr.Valid() && tr.sets == [] && tr.readAt.Some? && ValidQuery(query)
    requires QueryRanges(tr.view, ns, query.items, opts.after) == Ok(allRanges)
    requires Merged(tr.view, allRanges, opts, vses)
    modifies tr, tr.db
    ensures tr.Valid() && tr.Reading() && tr.conflicts == old(tr.conflicts)
    ensures tr.db.Reports(FailureOf(r))
    ensures r.Ok? ==> Dependable(tr.Seen(), ns, query, opts, r.value)
    ensures r.Ok? && Matching.TypesApart(tr.Seen(), ns, query) ==>
              r.value == ReadSpec(LogOf(tr.Seen(), ns), query, opts)
    ensures r == Fetch(tr.view, ns, vses) || (r.Err? && r.error.Fdb?)
    ensures r.Err? ==> r.error.Fdb?
  {
    r := FetchEvents(tr, ns, vses);
    tr.SeenMatches();
    MergedDependable(tr.SeenHistory(), tr.Seen(), ns, query, opts, vses);
    MergedIsSpec(tr.SeenHistory(), tr.Seen(), ns, query, opts, vses);
  }

  /** Fixing the read version after the ranges were built does not change them. */
  lemma {:induction false} RangesStillBuilt(before: Store, tr: Transaction, ns: Bytes, q: Query,
        after: Option<Versionstamp>, rs: seq<Range>, readAt: Option<nat>)
    requires tr.Valid() && ValidQuery(q)
    requires QueryRanges(before, ns, q.items, after) == Ok(rs)
    requires readAt.None? ==> AllTyped(q.items)
    requires readAt.Some? ==> tr.view == before
    ensures QueryRanges(tr.view, ns, q.items, after) == Ok(rs) && RangesStamped(tr.view, rs)
  {
    if readAt.None? {
      TypedQueryAnywhere(before, tr.view, ns, q.items, after);
    }
    tr.SeenMatches();
    StampsLogged(tr.SeenHistory(), tr.Seen(), ns, q, after, false);
  }

  lemma {:induction false} NothingSelected(l: seq<Record>, ns: Bytes, q: Query, opts: ReadOptions)
    requires q.items == []
    ensures ReadSpec(LogOf(l, ns), q, opts) == [] && Dependable(l, ns, q, opts, [])
  {
    var found := Selected(LogOf(l, ns), q, opts.after);
    if found != [] {
      SelectedHas(LogOf(l, ns), q, opts.after, found[0]);
    }
  }

  /** What an attempt promises of the log it saw; without ranges it has seen nothing. */
  lemma {:induction false} AttemptPromise(tr: Transaction, ns: Bytes, query: Query, opts: ReadOptions,
        events: seq<StoredEvent>, at: nat)
    requires tr.Valid() && at == if tr.readAt.Some? then tr.readAt.value else |tr.db.history|
    requires Dependable(tr.Seen(), ns, query, opts, events)
    requires Matching.TypesApart(tr.Seen(), ns, query) ==> events == ReadSpec(LogOf(tr.Seen(), ns), query, opts)
    requires tr.readAt.None? ==> query.items == []
    ensures ReadPromise(tr.db.ledger, at, ns, query, opts, events)
  {
    if tr.readAt.None? {
      NothingSelected(tr.Seen(), ns, query, opts);
      NothingSelected(tr.db.ledger[..at], ns, query, opts);
    }
  }

  ghost function ReplyFailure(reply: Option<Result<seq<StoredEvent>>>): Option<int> {
    if reply.Some? then FailureOf(reply.value) else None
  }

  /** Asks the error handler about the failure of an attempt. */
  method HandleFailure(tr: Transaction, e: Error, ghost before: seq<Report>)
    returns (reply: Option<Result<seq<StoredEvent>>>)
    requires tr.Valid() && e.Fdb? && tr.db.reports == before + [Failed(e.code)]
    modifies tr, tr.db
    ensures tr.Valid() && tr.db.OnlyOthers()
    ensures reply.None? ==> tr.sets == [] && tr.readAt.None? && tr.floor >= |old(tr.db.history)|
    ensures reply.None? || reply == Some(Err(e))
    ensures AttemptReports(before, tr.db.reports, old(tr.retries), tr.retries, reply.Some?, ReplyFailure(reply))
  {
    var retry := tr.OnError(e);
    if retry.Ok? {
      FailedReset(before, tr.db.reports, e.code);
      return None;
    }
    FailedGaveUp(before, tr.db.reports, e.code, tr.db.reports[|tr.db.reports| - 1].retryable, old(tr.retries));
    return Some(Err(retry.error));
  }

  /** One attempt: a result, a final error, or one more retry used up. */
  method ReadOnce(tr: Transaction, ns: Bytes, query: Query, opts: ReadOptions)
    returns (reply: Option<Result<seq<StoredEvent>>>, ghost at: nat)
    requires tr.Valid() && tr.sets == [] && tr.readAt.None?
    modifies tr, tr.db
    ensures tr.Valid() && tr.db.OnlyOthers()
    ensures reply.Some? ==> old(tr.floor) <= at <= |tr.db.history| == |tr.db.ledger|
    ensures reply.Some? && reply.value.Ok? ==>
              ReadPromise(tr.db.ledger, at, ns, query, opts, reply.value.value) && ValidQuery(query)
    ensures reply.Some? && reply.value.Err? ==> ReadError(query, reply.value.error)
    ensures reply.None? ==> tr.sets == [] && tr.readAt.None? && tr.floor >= old(tr.floor)
    ensures AttemptReports(old(tr.db.reports), tr.db.reports, old(tr.retries), tr.retries, reply.Some?,
              ReplyFailure(reply))
  {
    var r := ReadEvents(tr, ns, query, opts);
    at := if tr.readAt.Some? then tr.readAt.value else |tr.db.history|;
    if r.Ok? {
      AttemptPromise(tr, ns, query, opts, r.value, at);
      return Some(r), at;
    }
    if !r.error.Fdb? {
      return Some(r), at;
    }
    reply := HandleFailure(tr, r.error, old(tr.db.reports));
  }

  /**
   A read with its retries. The result is the specified one for the log as it was at
   some moment between the call and the return, so a read sees every append that had
   returned before it began.
   */
  method Read(db: Database, ns: Bytes, query: Query, opts: ReadOptions)
    returns (r: Result<seq<StoredEvent>>, ghost at: nat)
    requires db.Valid()
    modifies db
    ensures db.Valid() && db.OnlyOthers()
    ensures |old(db.history)| <= at <= |db.history| == |db.ledger|
    ensures r.Ok? ==> ReadPromise(db.ledger, at, ns, query, opts, r.value)
    ensures r.Ok? ==> !ReservedIn(query) && !BlankItem(query)
    ensures r.Err? ==> ReadError(query, r.error)
    ensures CallReports(old(db.reports), db.reports, 10, FailureOf(r))
    ensures db.reports == old(db.reports) && !ReservedIn(query) && !BlankItem(query) ==> r.Ok?
  {
    var tr := new Transaction(db);
    tr.SetRetryLimit(READ_RETRY_LIMIT);
    TrailBegins(db.reports, READ_RETRY_LIMIT);
    while true
      invariant tr.Valid() && tr.db == db && fresh(tr) && tr.sets == [] && tr.readAt.None?
      invariant db.OnlyOthers() && tr.floor >= |old(db.history)|
      invariant Trail(old(db.reports), db.reports, READ_RETRY_LIMIT, tr.retries)
      decreases tr.retries
    {
      ghost var before, retries := db.reports, tr.retries;
      var reply;
      reply, at := ReadOnce(tr, ns, query, opts);
      TrailAttempt(old(db.reports), before, db.reports, READ_RETRY_LIMIT, retries, tr.retries, reply.Some?,
        ReplyFailure(reply));
      if reply.Some? {
        return reply.value, at;
      }
    }
  }

  // -------------------------------------------------------------------------
  // All events
  // -------------------------------------------------------------------------

  method DecodeAll(keys: seq<Bytes>, values: seq<Bytes>) returns (r: Result<seq<StoredEvent>>)
    requires |keys| == |values|
    ensures r == Scanning.DecodeRows(keys, values)
  {
    var results: seq<StoredEvent> := [];
    for i := 0 to |keys|
      invariant Scanning.DecodeRows(keys[..i], values[..i]) == Ok(results)
    {
      assert keys[..i + 1][..i] == keys[..i] && values[..i + 1][..i] == values[..i];
      var vs := ExtractVsFromKey(keys[i]);
      if vs.Err? {
        Scanning.RowsFailEarly(keys, values, i + 1);
        return Err(vs.error);
      }
      var event := Encoding.DecodeEventValue(values[i]);
      if event.Err? {
        Scanning.RowsFailEarly(keys, values, i + 1);
        return Err(event.error);
      }
      results := results + [StoredEvent(event.value, vs.value)];
    }
    assert keys[..|keys|] == keys && values[..|values|] == values;
    return Ok(results);
  }

  method ScanAllEvents(tr: Transaction, ns: Bytes) returns (r: Result<seq<StoredEvent>>)
    requires tr.Valid() && tr.sets == []
    modifies tr, tr.db
    ensures tr.Valid() && tr.Reading() && tr.conflicts == old(tr.conflicts)
    ensures tr.db.Reports(FailureOf(r))
    ensures r == Ok(LogOf(tr.Seen(), ns)) || (r.Err? && r.error.Fdb?)
    ensures r.Ok? ==> tr.readAt.Some?
  {
    tr.SeenMatches();
    Scanning.ScanIsLog(tr.SeenHistory(), tr.Seen(), ns);
    var range := Ranges.PrefixRange(Encoding.PackEventsPrefix(ns));
    var rows, values := tr.GetRangesKeyvalues(range.value, 0, false, true);
    tr.SeenMatches();
    Scanning.ScanIsLog(tr.SeenHistory(), tr.Seen(), ns);
    if rows.Err? {
      return Err(rows.error);
    }
    r := DecodeAll(rows.value, values);
  }

  /** One scan: the log at some moment, a final error, or one more retry used up. */
  method ScanOnce(tr: Transaction, ns: Bytes) returns (reply: Option<Result<seq<StoredEvent>>>, ghost at: nat)
    requires tr.Valid() && tr.sets == [] && tr.readAt.None?
    modifies tr, tr.db
    ensures tr.Valid() && tr.db.OnlyOthers()
    ensures reply.Some? ==> old(tr.floor) <= at <= |tr.db.history| == |tr.db.ledger|
    ensures reply.Some? ==>
              reply.value == Ok(LogOf(tr.db.ledger[..at], ns)) || (reply.value.Err? && reply.value.error.Fdb?)
    ensures reply.None? ==> tr.sets == [] && tr.readAt.None? && tr.floor >= old(tr.floor)
    ensures AttemptReports(old(tr.db.reports), tr.db.reports, old(tr.retries), tr.retries, reply.Some?,
              ReplyFailure(reply))
  {
    var r := ScanAllEvents(tr, ns);
    at := if tr.readAt.Some? then tr.readAt.value else |tr.db.history|;
    if r.Ok? {
      return Some(r), at;
    }
    reply := HandleFailure(tr, r.error, old(tr.db.reports));
  }

  /** The scan with its retries: the log as of some moment during the call. */
  method ReadAll(db: Database, ns: Bytes) returns (r: Result<seq<StoredEvent>>, ghost at: nat)
    requires db.Valid()
    modifies db
    ensures db.Valid() && db.OnlyOthers()
    ensures |old(db.history)| <= at <= |db.history| == |db.ledger|
    ensures r == Ok(LogOf(db.ledger[..at], ns)) || (r.Err? && r.error.Fdb?)
    ensures CallReports(old(db.reports), db.reports, 10, FailureOf(r))
    ensures db.reports == old(db.reports) ==> r.Ok?
  {
    var tr := new Transaction(db);
    tr.SetRetryLimit(READ_RETRY_LIMIT);
    TrailBegins(db.reports, READ_RETRY_LIMIT);
    while true
      invariant tr.Valid() && tr.db == db && fresh(tr) && tr.sets == [] && tr.readAt.None?
      invariant db.OnlyOthers() && tr.floor >= |old(db.history)|
      invariant Trail(old(db.reports), db.reports, READ_RETRY_LIMIT, tr.retries)
      decreases tr.retries
    {
      ghost var before, retries := db.reports, tr.retries;
      var reply;
      reply, at := ScanOnce(tr, ns);
      TrailAttempt(old(db.reports), before, db.reports, READ_RETRY_LIMIT, retries, tr.retries, reply.Some?,
        ReplyFailure(reply));
      if reply.Some? {
        return reply.value, at;
      }
    }
  }
}

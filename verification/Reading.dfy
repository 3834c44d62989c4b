/** What a read returns, and why ranges, merge and limit amount to it. */
module Reading {
  import opened Bytes
  import opened Tuples
  import opened Types
  import opened Encoding
  import opened Kv
  import opened Ranges
  import opened Ledger
  import opened Matching
  import opened Merge

  // -------------------------------------------------------------------------
  // Specification: filter, order, cut
  // -------------------------------------------------------------------------

  function Selected(log: seq<StoredEvent>, q: Query, after: Option<Versionstamp>): seq<StoredEvent> {
    if log == [] then []
    else
      var n := |log| - 1;
      Selected(log[..n], q, after) + if Selects(q, after, log[n]) then [log[n]] else []
  }

  function ReadSpec(log: seq<StoredEvent>, q: Query, opts: ReadOptions): seq<StoredEvent> {
    var found := Selected(log, q, opts.after);
    Cut(if opts.reverse then Reversed(found) else found, opts.limit)
  }

  /** `events` leave out nothing that the query selects from the ledger after the bound. */
  ghost predicate Reaches(l: seq<Record>, ns: Bytes, q: Query, after: Option<Versionstamp>, events: seq<StoredEvent>) {
    forall se :: se in LogOf(l, ns) && Selects(q, after, se) ==> se in events
  }

  /**
   What a read keeps to for all type names, apart or not: it returns events of the log
   only and no more than the limit, and it leaves out no selected event unless there
   are as many as the limit.
   */
  ghost predicate Dependable(l: seq<Record>, ns: Bytes, q: Query, opts: ReadOptions, events: seq<StoredEvent>) {
    && (forall se :: se in events ==> se in LogOf(l, ns))
    && (opts.limit > 0 ==> |events| <= opts.limit)
    && (opts.limit == 0 || |events| < opts.limit ==> Reaches(l, ns, q, opts.after, events))
  }

  /**
   What a read at ledger length `at` promises: a dependable result, and the specified
   one if the query's types are apart in the log that it saw.
   */
  ghost predicate ReadPromise(l: seq<Record>, at: nat, ns: Bytes, q: Query, opts: ReadOptions,
        events: seq<StoredEvent>)
  {
    && at <= |l| && Dependable(l[..at], ns, q, opts, events)
    && (TypesApart(l[..at], ns, q) ==> events == ReadSpec(LogOf(l[..at], ns), q, opts))
  }

  /** Types that are apart in a ledger were so in every earlier one, so the promise is kept. */
  lemma {:induction false} PromiseKept(l: seq<Record>, at: nat, ns: Bytes, q: Query, opts: ReadOptions,
        events: seq<StoredEvent>)
    requires TypesApart(l, ns, q) && ReadPromise(l, at, ns, q, opts, events)
    ensures events == ReadSpec(LogOf(l[..at], ns), q, opts)
  {
    TypesApartBefore(l, at, ns, q);
  }

  lemma {:induction false} SelectedHas(log: seq<StoredEvent>, q: Query, after: Option<Versionstamp>, se: StoredEvent)
    ensures se in Selected(log, q, after) <==> se in log && Selects(q, after, se)
  {
    if log != [] {
      var n := |log| - 1;
      SelectedHas(log[..n], q, after, se);
      assert se in log <==> se in log[..n] || se == log[n] by {
        assert log == log[..n] + [log[n]];
      }
    }
  }

  lemma {:induction false} SelectedSorted(log: seq<StoredEvent>, q: Query, after: Option<Versionstamp>)
    requires StrictlySorted(Positions(log))
    ensures StrictlySorted(Positions(Selected(log, q, after)))
  {
    if log != [] {
      var n := |log| - 1;
      assert forall i :: 0 <= i < n ==> Positions(log[..n])[i] == Positions(log)[i];
      SelectedSorted(log[..n], q, after);
      var found := Selected(log[..n], q, after);
      forall i | 0 <= i < |found| ensures Less(found[i].position, log[n].position) {
        SelectedHas(log[..n], q, after, found[i]);
        var j :| 0 <= j < n && log[..n][j] == found[i];
        assert Positions(log)[j] == found[i].position && Positions(log)[n] == log[n].position;
      }
      var all := Selected(log, q, after);
      forall i, j | 0 <= i < j < |all| ensures Less(all[i].position, all[j].position) {
        if j < |found| {
          assert Positions(found)[i] == found[i].position && Positions(found)[j] == found[j].position;
        }
      }
    }
  }

  // -------------------------------------------------------------------------
  // Ordered sequences
  // -------------------------------------------------------------------------

  lemma {:induction false} OrderedReversed(s: seq<Bytes>)
    requires StrictlySorted(s)
    ensures Ordered(true, Reversed(s)) && Ordered(false, s)
    ensures forall x :: x in Reversed(s) <==> x in s
  {
    forall x ensures x in Reversed(s) <==> x in s {
      ReversedHas(s, x);
    }
  }

  lemma {:induction false} OrderedDistinct(reverse: bool, s: seq<Bytes>)
    requires Ordered(reverse, s)
    ensures forall i, j :: 0 <= i < j < |s| ==> s[i] != s[j]
  {
    forall i, j | 0 <= i < j < |s| ensures s[i] != s[j] {
      BeforeIrreflexive(reverse, s[i]);
    }
  }

  /** An ordered sequence whose left-out elements all come later is an initial segment. */
  lemma {:induction false} InitialSegment(reverse: bool, want: seq<Bytes>, out: seq<Bytes>)
    requires Ordered(reverse, want) && Ordered(reverse, out)
    requires forall x :: x in out ==> x in want
    requires forall x, y :: x in want && x !in out && y in out ==> Before(reverse, y, x)
    ensures out <= want
  {
    if out != [] {
      assert out[0] in out;
      var w := want[0];
      if w != out[0] {
        var i :| 0 <= i < |want| && want[i] == out[0];
        assert Before(reverse, w, out[0]);
        if w in out {
          var j :| 0 <= j < |out| && out[j] == w;
          BeforeTransitive(reverse, w, out[0], w);
        } else {
          BeforeTransitive(reverse, w, out[0], w);
        }
        BeforeIrreflexive(reverse, w);
        assert false;
      }
      OrderedDistinct(reverse, want);
      OrderedDistinct(reverse, out);
      forall x | x in out[1..] ensures x in want[1..] {
        assert x in out && x != out[0];
      }
      forall x, y | x in want[1..] && x !in out[1..] && y in out[1..] ensures Before(reverse, y, x) {
        assert x in want && x != want[0];
      }
      InitialSegment(reverse, want[1..], out[1..]);
      assert out == [w] + out[1..] && want == [w] + want[1..];
    }
  }

  lemma {:induction false} DistinctCount(s: seq<Bytes>)
    requires Distinct(s)
    ensures |set x | x in s| == |s|
  {
    if s != [] {
      var n := |s| - 1;
      DistinctCount(s[..n]);
      assert s[n] !in s[..n];
      assert (set x | x in s) == (set x | x in s[..n]) + {s[n]};
    }
  }

  /** As many distinct elements inside a list of that length are all of it. */
  lemma {:induction false} Exhausted(reverse: bool, small: seq<Bytes>, big: seq<Bytes>, x: Bytes)
    requires Ordered(reverse, small) && Ordered(reverse, big)
    requires forall y :: y in small ==> y in big
    requires |big| <= |small| && x in big
    ensures x in small
  {
    OrderedDistinct(reverse, small);
    OrderedDistinct(reverse, big);
    DistinctCount(small);
    DistinctCount(big);
    var a, b := set y | y in small, set y | y in big;
    assert a <= b && |b| <= |a|;
    SubsetEqual(a, b);
    assert x in b && x in a;
  }

  lemma {:induction false} SubsetEqual(a: set<Bytes>, b: set<Bytes>)
    requires a <= b && |b| <= |a|
    ensures a == b
  {
    assert b == a + (b - a) && |b| == |a| + |b - a|;
    assert b - a == {};
  }

  // -------------------------------------------------------------------------
  // Pushing the limit down
  // -------------------------------------------------------------------------

  ghost function CutAll(streams: seq<seq<Bytes>>, limit: nat): (r: seq<seq<Bytes>>)
    ensures |r| == |streams| && forall i :: 0 <= i < |streams| ==> r[i] == Cut(streams[i], limit)
  {
    seq(|streams|, i requires 0 <= i < |streams| => Cut(streams[i], limit))
  }

  /** A position cut off one stream comes after everything the merge emitted. */
  lemma {:induction false} CutOffIsLater(streams: seq<seq<Bytes>>, limit: nat, reverse: bool, out: seq<Bytes>,
        i: nat, j: nat)
    requires i < |streams| && Ordered(reverse, streams[i])
    requires IsMerge(CutAll(streams, limit), limit, reverse, out)
    requires 0 < limit <= j < |streams[i]|
    ensures |out| == limit && (forall y :: y in out ==> Before(reverse, y, streams[i][j]) || y == streams[i][j])
  {
    var head, x := streams[i][..limit], streams[i][j];
    assert CutAll(streams, limit)[i] == head;
    assert forall y :: y in head ==> Before(reverse, y, x);
    if forall y :: y in head ==> y in out {
      DistinctHead(reverse, head, out);
      forall y | y in out ensures Before(reverse, y, x) {
        Exhausted(reverse, head, out, y);
      }
    } else {
      var z :| z in head && z !in out;
      assert InSome(z, CutAll(streams, limit));
      forall y | y in out ensures Before(reverse, y, x) {
        BeforeTransitive(reverse, y, z, x);
      }
    }
  }

  lemma {:induction false} DistinctHead(reverse: bool, head: seq<Bytes>, out: seq<Bytes>)
    requires Ordered(reverse, head) && Ordered(reverse, out) && forall y :: y in head ==> y in out
    ensures |out| >= |head|
  {
    OrderedDistinct(reverse, head);
    OrderedDistinct(reverse, out);
    DistinctCount(head);
    DistinctCount(out);
    var a, b := set y | y in head, set y | y in out;
    assert b == a + (b - a);
  }

  /**
   Merging streams that were each cut at the limit gives the first `limit` elements
   of the whole ordered union, duplicates across streams included.
   */
  lemma {:induction false} CutMerge(streams: seq<seq<Bytes>>, limit: nat, reverse: bool, out: seq<Bytes>,
        want: seq<Bytes>)
    requires forall i :: 0 <= i < |streams| ==> Ordered(reverse, streams[i])
    requires IsMerge(CutAll(streams, limit), limit, reverse, out)
    requires Ordered(reverse, want) && forall x :: x in want <==> InSome(x, streams)
    ensures out == Cut(want, limit)
  {
    var cut := CutAll(streams, limit);
    forall x | x in out ensures x in want {
      var i :| 0 <= i < |cut| && x in cut[i];
      assert x in streams[i];
    }
    forall x | x in want && x !in out
      ensures limit > 0 && |out| == limit && forall y :: y in out ==> Before(reverse, y, x)
    {
      var i :| 0 <= i < |streams| && x in streams[i];
      var j :| 0 <= j < |streams[i]| && streams[i][j] == x;
      if limit == 0 || j < limit {
        assert cut[i] == Cut(streams[i], limit);
        assert cut[i][j] == x;
        assert InSome(x, cut);
      } else {
        CutOffIsLater(streams, limit, reverse, out, i, j);
      }
    }
    InitialSegment(reverse, want, out);
    if |out| < |want| {
      OrderedDistinct(reverse, want);
      assert want[|out|] !in out by {
        assert out == want[..|out|];
      }
      assert want[|out|] in want;
    }
  }

  // -------------------------------------------------------------------------
  // The streams of a query
  // -------------------------------------------------------------------------

  /** All ranges of a query, item by item; the first failing item decides the error. */
  function QueryRanges(kv: Store, ns: Bytes, items: seq<QueryItem>, after: Option<Versionstamp>): Result<seq<Range>> {
    if items == [] then Ok([])
    else
      var n := |items| - 1;
      var init :- QueryRanges(kv, ns, items[..n], after);
      var last :- ItemRanges(kv, ns, items[n], after);
      Ok(init + last)
  }

  ghost function StampSeq(keys: seq<Bytes>): (r: seq<Bytes>)
    ensures StampsFit(keys, r)
  {
    seq(|keys|, i requires 0 <= i < |keys| => if Stamped(keys[i]) then StampOf(keys[i]) else Position(0, 0))
  }

  ghost function Directed(s: seq<Bytes>, reverse: bool): seq<Bytes> {
    if reverse then Reversed(s) else s
  }

  /** The positions a range yields, in the direction of the read. */
  ghost function RangeStamps(kv: Store, r: Range, reverse: bool): seq<Bytes> {
    Directed(StampSeq(KeysIn(kv, r)), reverse)
  }

  ghost function AllRangeStamps(kv: Store, rs: seq<Range>, reverse: bool): (r: seq<seq<Bytes>>)
    ensures |r| == |rs| && forall i :: 0 <= i < |rs| ==> r[i] == RangeStamps(kv, rs[i], reverse)
  {
    seq(|rs|, i requires 0 <= i < |rs| => RangeStamps(kv, rs[i], reverse))
  }

  /** A limited range read yields the cut stream. */
  lemma {:induction false} LimitedRead(kv: Store, r: Range, limit: nat, reverse: bool)
    ensures StampSeq(GetRange(kv, r, limit, reverse)) == Cut(RangeStamps(kv, r, reverse), limit)
    ensures forall k :: k in GetRange(kv, r, limit, reverse) ==> k in KeysIn(kv, r)
  {
    var keys := KeysIn(kv, r);
    OrderedReversed(keys);
    StampSeqReversed(keys);
    StampSeqCut(if reverse then Reversed(keys) else keys, limit);
  }

  lemma {:induction false} StampSeqCut(keys: seq<Bytes>, limit: nat)
    ensures StampSeq(Cut(keys, limit)) == Cut(StampSeq(keys), limit)
  {
  }

  lemma {:induction false} StampSeqReversed(keys: seq<Bytes>)
    ensures StampSeq(Reversed(keys)) == Reversed(StampSeq(keys))
  {
  }

  lemma {:induction false} IndexKeyStamp(ns: Bytes, s: seq<Bytes>, t: Bytes, p: Versionstamp)
    ensures Stamped(PackIndexKey(ns, s, t, p)) && StampOf(PackIndexKey(ns, s, t, p)) == p
  {
    IndexKeyBytes(ns, s, t, p);
  }

  /** Index keys of one type sort like their positions. */
  lemma {:induction false} IndexKeyOrder(ns: Bytes, s: seq<Bytes>, t: Bytes, p: Versionstamp, q: Versionstamp)
    requires Less(PackIndexKey(ns, s, t, p), PackIndexKey(ns, s, t, q))
    ensures Less(p, q)
  {
    IndexKeyBytes(ns, s, t, p);
    IndexKeyBytes(ns, s, t, q);
    LessPrepend(TagTypePrefix(ns, s, t), [STAMP_CODE] + p, [STAMP_CODE] + q);
    LessPrepend([STAMP_CODE], p, q);
  }

  ghost predicate TypedSelects(l: seq<Record>, ns: Bytes, s: seq<Bytes>, t: Bytes, after: Option<Versionstamp>,
        p: Bytes)
  {
    exists se :: se in LogOf(l, ns) && se.position == p && se.event.typeName == t
                 && CarriesTags(se.event, s) && After(se.position, after)
  }

  /** Every key a typed range yields ends in the position of an event of the log. */
  lemma {:induction false} TypedRangeStamped(h: seq<Commit>, l: seq<Record>, ns: Bytes, s: seq<Bytes>, t: Bytes,
        after: Option<Versionstamp>)
    requires Matches(h, l) && RESERVED_TAG !in s && TypedRange(ns, s, t, after).Ok?
    ensures var keys := KeysIn(Replay(h), TypedRange(ns, s, t, after).value);
            AllStamped(keys) && forall k :: k in keys ==> exists se :: se in LogOf(l, ns) && se.position == StampOf(k)
  {
    var keys := KeysIn(Replay(h), TypedRange(ns, s, t, after).value);
    forall k | k in keys ensures Stamped(k) && exists se :: se in LogOf(l, ns) && se.position == StampOf(k) {
      var se := TypedRangeReads(h, l, ns, s, t, after, k);
      IndexKeyStamp(ns, s, se.event.typeName, se.position);
    }
  }

  /** With the type apart, a key of a typed range is the index key of an event of that type. */
  lemma {:induction false} TypedKey(h: seq<Commit>, l: seq<Record>, ns: Bytes, s: seq<Bytes>, t: Bytes,
        after: Option<Versionstamp>, k: Bytes)
    requires Matches(h, l) && RESERVED_TAG !in s && TypedRange(ns, s, t, after).Ok?
    requires TypeApart(LogOf(l, ns), s, t)
    requires k in KeysIn(Replay(h), TypedRange(ns, s, t, after).value)
    ensures Stamped(k) && k == PackIndexKey(ns, s, t, StampOf(k)) && TypedSelects(l, ns, s, t, after, StampOf(k))
  {
    var se := TypedRangeReads(h, l, ns, s, t, after, k);
    IndexKeyStamp(ns, s, se.event.typeName, se.position);
  }

  /** Keys that are index keys of one type list their positions in order. */
  lemma {:induction false} TypedKeysSorted(ns: Bytes, s: seq<Bytes>, t: Bytes, keys: seq<Bytes>)
    requires StrictlySorted(keys) && AllStamped(keys)
    requires forall k :: k in keys ==> Stamped(k) && k == PackIndexKey(ns, s, t, StampOf(k))
    ensures StrictlySorted(StampSeq(keys))
  {
    var stamps := StampSeq(keys);
    forall i, j | 0 <= i < j < |stamps| ensures Less(stamps[i], stamps[j]) {
      assert keys[i] in keys && keys[j] in keys;
      IndexKeyOrder(ns, s, t, StampOf(keys[i]), StampOf(keys[j]));
    }
  }

  lemma {:induction false} StampSeqHas(keys: seq<Bytes>, p: Bytes)
    requires AllStamped(keys)
    ensures p in StampSeq(keys) <==> exists k :: k in keys && Stamped(k) && StampOf(k) == p
  {
    if p in StampSeq(keys) {
      var i :| 0 <= i < |keys| && StampSeq(keys)[i] == p;
      assert keys[i] in keys;
    }
    if k :| k in keys && Stamped(k) && StampOf(k) == p {
      var i :| 0 <= i < |keys| && keys[i] == k;
      assert StampSeq(keys)[i] == p;
    }
  }

  /**
   With the type apart, a typed range yields in ascending order exactly the
   positions of the events of its type that carry the tags and lie after the bound.
   */
  lemma {:induction false} TypedRangeStream(h: seq<Commit>, l: seq<Record>, ns: Bytes, s: seq<Bytes>, t: Bytes,
        after: Option<Versionstamp>)
    requires Matches(h, l) && StrictlySorted(s) && RESERVED_TAG !in s && TypedRange(ns, s, t, after).Ok?
    requires TypeApart(LogOf(l, ns), s, t)
    ensures var stamps := StampSeq(KeysIn(Replay(h), TypedRange(ns, s, t, after).value));
            StrictlySorted(stamps) && forall p :: p in stamps <==> TypedSelects(l, ns, s, t, after, p)
  {
    var keys := KeysIn(Replay(h), TypedRange(ns, s, t, after).value);
    forall k | k in keys
      ensures Stamped(k) && k == PackIndexKey(ns, s, t, StampOf(k)) && TypedSelects(l, ns, s, t, after, StampOf(k))
    {
      TypedKey(h, l, ns, s, t, after, k);
    }
    TypedKeysSorted(ns, s, t, keys);
    forall p ensures p in StampSeq(keys) <==> TypedSelects(l, ns, s, t, after, p) {
      StampSeqHas(keys, p);
      if TypedSelects(l, ns, s, t, after, p) {
        var k := TypedRangeFinds(h, l, ns, s, t, after, p);
      }
    }
  }

  lemma {:induction false} TypedRangeFinds(h: seq<Commit>, l: seq<Record>, ns: Bytes, s: seq<Bytes>, t: Bytes,
        after: Option<Versionstamp>, p: Bytes) returns (k: Bytes)
    requires Matches(h, l) && StrictlySorted(s) && RESERVED_TAG !in s && TypedRange(ns, s, t, after).Ok?
    requires TypedSelects(l, ns, s, t, after, p)
    ensures k in KeysIn(Replay(h), TypedRange(ns, s, t, after).value) && Stamped(k) && StampOf(k) == p
  {
    var se :| se in LogOf(l, ns) && se.position == p && se.event.typeName == t
              && CarriesTags(se.event, s) && After(se.position, after);
    CanonicalFixpoint(s);
    CanonicalIndexed(s, se.event);
    IndexInvariant(h, l, ns, s, t, se.position);
    assert StoredEvent(se.event, se.position) == se;
    TypedRangeExact(ns, s, t, after, s, t, se.position);
    IndexKeyStamp(ns, s, t, se.position);
    k := PackIndexKey(ns, s, t, se.position);
  }

  // -------------------------------------------------------------------------
  // All ranges together
  // -------------------------------------------------------------------------

  ghost predicate IsTypedRange(r: Range, ns: Bytes, item: QueryItem, t: Bytes, after: Option<Versionstamp>) {
    TypedRange(ns, Canonical(item.tags), t, after) == Ok(r)
  }

  /** Type `t` of item `item` contributes a range. */
  ghost predicate Contributes(kv: Store, ns: Bytes, item: QueryItem, t: Bytes) {
    EffectiveTypes(kv, ns, item).Ok? && t in EffectiveTypes(kv, ns, item).value
  }

  lemma {:induction false} QueryRangesOk(h: seq<Commit>, l: seq<Record>, ns: Bytes, items: seq<QueryItem>,
        after: Option<Versionstamp>)
    requires Matches(h, l) && forall item :: item in items ==> ValidItem(item)
    ensures QueryRanges(Replay(h), ns, items, after).Ok?
  {
    if items != [] {
      var n := |items| - 1;
      assert items[n] in items && forall i :: i in items[..n] ==> i in items;
      QueryRangesOk(h, l, ns, items[..n], after);
      ItemRangesOk(h, l, ns, items[n], after);
    }
  }

  /** A range of an item belongs to one of its types. */
  lemma {:induction false} ItemOwner(kv: Store, ns: Bytes, item: QueryItem, after: Option<Versionstamp>, r: Range)
    returns (t: Bytes)
    requires ItemRanges(kv, ns, item, after).Ok? && r in ItemRanges(kv, ns, item, after).value
    ensures Contributes(kv, ns, item, t) && IsTypedRange(r, ns, item, t, after)
  {
    var types, rs := EffectiveTypes(kv, ns, item).value, ItemRanges(kv, ns, item, after).value;
    TypedRangesAre(ns, Canonical(item.tags), types, after);
    var i :| 0 <= i < |rs| && rs[i] == r;
    t := types[i];
  }

  /** Each type of an item has its range. */
  lemma {:induction false} ItemOwned(kv: Store, ns: Bytes, item: QueryItem, after: Option<Versionstamp>, t: Bytes)
    returns (r: Range)
    requires ItemRanges(kv, ns, item, after).Ok? && Contributes(kv, ns, item, t)
    ensures r in ItemRanges(kv, ns, item, after).value && IsTypedRange(r, ns, item, t, after)
  {
    var types, rs := EffectiveTypes(kv, ns, item).value, ItemRanges(kv, ns, item, after).value;
    TypedRangesAre(ns, Canonical(item.tags), types, after);
    var i :| 0 <= i < |types| && types[i] == t;
    r := rs[i];
  }

  /** Each range of the query belongs to one item and one of its types. */
  lemma {:induction false} RangeOwner(kv: Store, ns: Bytes, items: seq<QueryItem>, after: Option<Versionstamp>,
        r: Range) returns (item: QueryItem, t: Bytes)
    requires QueryRanges(kv, ns, items, after).Ok? && r in QueryRanges(kv, ns, items, after).value
    ensures item in items && Contributes(kv, ns, item, t) && IsTypedRange(r, ns, item, t, after)
  {
    var n := |items| - 1;
    assert items == items[..n] + [items[n]];
    if r in QueryRanges(kv, ns, items[..n], after).value {
      item, t := RangeOwner(kv, ns, items[..n], after, r);
    } else {
      item := items[n];
      t := ItemOwner(kv, ns, item, after, r);
    }
  }

  /** Each type of each item has its range. */
  lemma {:induction false} OwnedRange(kv: Store, ns: Bytes, items: seq<QueryItem>, after: Option<Versionstamp>,
        item: QueryItem, t: Bytes) returns (r: Range)
    requires QueryRanges(kv, ns, items, after).Ok? && item in items && Contributes(kv, ns, item, t)
    ensures r in QueryRanges(kv, ns, items, after).value && IsTypedRange(r, ns, item, t, after)
  {
    var n := |items| - 1;
    assert items == items[..n] + [items[n]];
    if item in items[..n] {
      r := OwnedRange(kv, ns, items[..n], after, item, t);
    } else {
      r := ItemOwned(kv, ns, item, after, t);
    }
  }

  /** An item matches exactly the events of its effective types that carry its tags. */
  lemma {:induction false} EffectiveMatch(h: seq<Commit>, l: seq<Record>, ns: Bytes, item: QueryItem, se: StoredEvent)
    requires Matches(h, l) && ValidItem(item) && se in LogOf(l, ns)
    ensures EffectiveTypes(Replay(h), ns, item).Ok?
    ensures MatchesItem(se.event, item) <==>
              se.event.typeName in EffectiveTypes(Replay(h), ns, item).value
                  && CarriesTags(se.event, Canonical(item.tags))
  {
    if item.types == [] {
      DiscoverExact(h, l, ns, Canonical(item.tags));
    }
  }

  /**
   Index matching is query matching: with the item apart, the index keys of an event
   of the log meet the ranges built for it exactly when the item matches the event
   and its position lies after the bound.
   */
  lemma {:induction false} ItemTouchedExact(h: seq<Commit>, l: seq<Record>, ns: Bytes, item: QueryItem,
        after: Option<Versionstamp>, se: StoredEvent)
    requires Matches(h, l) && ValidItem(item) && ItemApart(LogOf(l, ns), item) && se in LogOf(l, ns)
    ensures ItemRanges(Replay(h), ns, item, after).Ok?
    ensures Touched(ns, se.event, se.position, ItemRanges(Replay(h), ns, item, after).value) <==>
              MatchesItem(se.event, item) && After(se.position, after)
  {
    ItemRangesOk(h, l, ns, item, after);
    EffectiveMatch(h, l, ns, item, se);
    EffectiveNames(h, l, ns, item);
    LogValid(l, ns, se);
    var types := EffectiveTypes(Replay(h), ns, item).value;
    if CarriesTags(se.event, item.tags) {
      ReachedApart(LogOf(l, ns), item, types, after, se);
    }
    TypedRangesExact(ns, item.tags, types, after, se.event, se.position);
  }

  ghost predicate Wanted(l: seq<Record>, ns: Bytes, q: Query, after: Option<Versionstamp>, p: Bytes) {
    exists se :: se in LogOf(l, ns) && se.position == p && Selects(q, after, se)
  }

  /** The streams of all ranges are ordered and together hold exactly the selected positions. */
  lemma {:induction false} QueryStreams(h: seq<Commit>, l: seq<Record>, ns: Bytes, q: Query,
        after: Option<Versionstamp>, reverse: bool)
    requires Matches(h, l) && ValidQuery(q)
    requires TypesApart(l, ns, q)
    ensures QueryRanges(Replay(h), ns, q.items, after).Ok?
    ensures var streams := AllRangeStamps(Replay(h), QueryRanges(Replay(h), ns, q.items, after).value, reverse);
            && (forall i :: 0 <= i < |streams| ==> Ordered(reverse, streams[i]))
            && (forall p :: InSome(p, streams) <==> Wanted(l, ns, q, after, p))
  {
    var kv := Replay(h);
    QueryRangesOk(h, l, ns, q.items, after);
    var rs := QueryRanges(kv, ns, q.items, after).value;
    var streams := AllRangeStamps(kv, rs, reverse);
    forall i | 0 <= i < |streams|
      ensures Ordered(reverse, streams[i]) && forall p :: p in streams[i] ==> Wanted(l, ns, q, after, p)
    {
      var item, t := RangeOwner(kv, ns, q.items, after, rs[i]);
      OneStream(h, l, ns, q, item, t, after, reverse, rs[i]);
    }
    forall p ensures InSome(p, streams) <==> Wanted(l, ns, q, after, p) {
      if Wanted(l, ns, q, after, p) {
        WantedInSome(h, l, ns, q, after, reverse, p);
      }
    }
  }

  /** Every selected position is in some stream, for all type names. */
  lemma {:induction false} WantedInSome(h: seq<Commit>, l: seq<Record>, ns: Bytes, q: Query,
        after: Option<Versionstamp>, reverse: bool, p: Bytes)
    requires Matches(h, l) && ValidQuery(q)
    requires QueryRanges(Replay(h), ns, q.items, after).Ok? && Wanted(l, ns, q, after, p)
    ensures InSome(p, AllRangeStamps(Replay(h), QueryRanges(Replay(h), ns, q.items, after).value, reverse))
  {
    var se :| se in LogOf(l, ns) && se.position == p && Selects(q, after, se);
    var item :| item in q.items && MatchesItem(se.event, item);
    EffectiveMatch(h, l, ns, item, se);
    var t := se.event.typeName;
    var r := OwnedRange(Replay(h), ns, q.items, after, item, t);
    TypedSelected(h, l, ns, Canonical(item.tags), t, after, reverse, p);
    StreamOfRange(Replay(h), QueryRanges(Replay(h), ns, q.items, after).value, r, reverse, p);
  }

  lemma {:induction false} TypedSelected(h: seq<Commit>, l: seq<Record>, ns: Bytes, s: seq<Bytes>, t: Bytes,
        after: Option<Versionstamp>, reverse: bool, p: Bytes)
    requires Matches(h, l) && StrictlySorted(s) && RESERVED_TAG !in s && TypedRange(ns, s, t, after).Ok?
    requires TypedSelects(l, ns, s, t, after, p)
    ensures p in RangeStamps(Replay(h), TypedRange(ns, s, t, after).value, reverse)
  {
    var keys := KeysIn(Replay(h), TypedRange(ns, s, t, after).value);
    var k := TypedRangeFinds(h, l, ns, s, t, after, p);
    TypedRangeStamped(h, l, ns, s, t, after);
    StampSeqHas(keys, p);
    ReversedHas(StampSeq(keys), p);
  }

  /** A typed range holds at most one key of each event, so no position comes twice. */
  lemma {:induction false} TypedStampsDistinct(h: seq<Commit>, l: seq<Record>, ns: Bytes, s: seq<Bytes>, t: Bytes,
        after: Option<Versionstamp>, reverse: bool)
    requires Matches(h, l) && RESERVED_TAG !in s && TypedRange(ns, s, t, after).Ok?
    ensures Distinct(RangeStamps(Replay(h), TypedRange(ns, s, t, after).value, reverse))
  {
    var keys := KeysIn(Replay(h), TypedRange(ns, s, t, after).value);
    SortedDistinct(keys);
    forall i, j | 0 <= i < j < |keys| ensures StampSeq(keys)[i] != StampSeq(keys)[j] {
      assert keys[i] in keys && keys[j] in keys;
      var a := TypedRangeReads(h, l, ns, s, t, after, keys[i]);
      var b := TypedRangeReads(h, l, ns, s, t, after, keys[j]);
      IndexKeyStamp(ns, s, a.event.typeName, a.position);
      IndexKeyStamp(ns, s, b.event.typeName, b.position);
      if a.position == b.position {
        PositionUnique(l, ns, a, b);
      }
    }
  }

  /** As many distinct elements as there are places leave no room for more. */
  lemma {:induction false} DistinctFit(s: seq<Bytes>, out: seq<Bytes>)
    requires Distinct(s) && forall x :: x in s ==> x in out
    ensures |s| <= |out|
  {
    DistinctCount(s);
    SetCount(out);
    SubsetCount(set x | x in s, set x | x in out);
  }

  lemma {:induction false} SetCount(s: seq<Bytes>)
    ensures |set x | x in s| <= |s|
  {
    if s != [] {
      var n := |s| - 1;
      SetCount(s[..n]);
      assert (set x | x in s) == (set x | x in s[..n]) + {s[n]};
    }
  }

  lemma {:induction false} SubsetCount(a: set<Bytes>, b: set<Bytes>)
    requires a <= b
    ensures |a| <= |b|
  {
    assert b == a + (b - a);
  }

  /** What exhausts cut streams without repetitions, and has not reached the limit, exhausts the whole streams. */
  lemma {:induction false} CutExhausts(streams: seq<seq<Bytes>>, limit: nat, out: seq<Bytes>, x: Bytes)
    requires Exhausts(CutAll(streams, limit), limit, out) && (limit == 0 || |out| < limit)
    requires forall i :: 0 <= i < |streams| ==> Distinct(streams[i])
    requires InSome(x, streams)
    ensures x in out
  {
    var i :| 0 <= i < |streams| && x in streams[i];
    var cut := Cut(streams[i], limit);
    assert CutAll(streams, limit)[i] == cut;
    assert forall y :: y in cut ==> y in CutAll(streams, limit)[i];
    assert Distinct(cut);
    DistinctFit(cut, out);
    assert cut == streams[i];
  }

  lemma {:induction false} StreamOfRange(kv: Store, rs: seq<Range>, r: Range, reverse: bool, p: Bytes)
    requires r in rs && p in RangeStamps(kv, r, reverse)
    ensures InSome(p, AllRangeStamps(kv, rs, reverse))
  {
    var i :| 0 <= i < |rs| && rs[i] == r;
    assert p in AllRangeStamps(kv, rs, reverse)[i];
  }

  lemma {:induction false} CanonicalApart(log: seq<StoredEvent>, item: QueryItem, t: Bytes)
    requires ItemApart(log, item) && EffectiveName(log, item, t)
    ensures TypeApart(log, Canonical(item.tags), t)
  {
    assert TypeApart(log, item.tags, t);
    assert forall e :: CarriesTags(e, Canonical(item.tags)) <==> CarriesTags(e, item.tags);
  }

  lemma {:induction false} OneStream(h: seq<Commit>, l: seq<Record>, ns: Bytes, q: Query, item: QueryItem, t: Bytes,
        after: Option<Versionstamp>, reverse: bool, r: Range)
    requires Matches(h, l) && ValidQuery(q) && item in q.items
    requires TypesApart(l, ns, q)
    requires EffectiveTypes(Replay(h), ns, item).Ok? && t in EffectiveTypes(Replay(h), ns, item).value
    requires IsTypedRange(r, ns, item, t, after)
    ensures Ordered(reverse, RangeStamps(Replay(h), r, reverse))
    ensures forall p :: p in RangeStamps(Replay(h), r, reverse) <==>
              TypedSelects(l, ns, Canonical(item.tags), t, after, p)
    ensures forall p :: p in RangeStamps(Replay(h), r, reverse) ==> Wanted(l, ns, q, after, p)
  {
    EffectiveNames(h, l, ns, item);
    CanonicalApart(LogOf(l, ns), item, t);
    TypedRangeStream(h, l, ns, Canonical(item.tags), t, after);
    OrderedReversed(StampSeq(KeysIn(Replay(h), r)));
    forall p | TypedSelects(l, ns, Canonical(item.tags), t, after, p) ensures Wanted(l, ns, q, after, p) {
      var se :| se in LogOf(l, ns) && se.position == p && se.event.typeName == t
                && CarriesTags(se.event, Canonical(item.tags)) && After(se.position, after);
      EffectiveMatch(h, l, ns, item, se);
    }
  }

  /** The positions of the selected events, in the direction of the read. */
  lemma {:induction false} WantedPositions(l: seq<Record>, ns: Bytes, q: Query, after: Option<Versionstamp>,
        reverse: bool)
    requires Ledgered(l)
    ensures var found := Selected(LogOf(l, ns), q, after);
            var want := Positions(if reverse then Reversed(found) else found);
            Ordered(reverse, want) && forall p :: p in want <==> Wanted(l, ns, q, after, p)
  {
    var found := Selected(LogOf(l, ns), q, after);
    LogSorted(l, ns);
    SelectedSorted(LogOf(l, ns), q, after);
    OrderedReversed(Positions(found));
    assert Positions(Reversed(found)) == Reversed(Positions(found));
    forall p ensures p in Positions(found) <==> Wanted(l, ns, q, after, p) {
      WantedPosition(l, ns, q, after, p);
    }
  }

  lemma {:induction false} WantedPosition(l: seq<Record>, ns: Bytes, q: Query, after: Option<Versionstamp>, p: Bytes)
    ensures p in Positions(Selected(LogOf(l, ns), q, after)) <==> Wanted(l, ns, q, after, p)
  {
    var found := Selected(LogOf(l, ns), q, after);
    PositionOf(found, p);
    if se :| se in found && se.position == p {
      SelectedHas(LogOf(l, ns), q, after, se);
    }
    if se :| se in LogOf(l, ns) && se.position == p && Selects(q, after, se) {
      SelectedHas(LogOf(l, ns), q, after, se);
    }
  }

  lemma {:induction false} PositionOf(s: seq<StoredEvent>, p: Bytes)
    ensures p in Positions(s) <==> exists se :: se in s && se.position == p
  {
    if p in Positions(s) {
      var i :| 0 <= i < |s| && Positions(s)[i] == p;
      assert s[i] in s;
    }
    if se :| se in s && se.position == p {
      var i :| 0 <= i < |s| && s[i] == se;
      assert Positions(s)[i] == p;
    }
  }

  /**
   The heart of a read: whatever merges the cut streams of the query's ranges is the
   list of positions that filtering, ordering and cutting the log gives.
   */
  lemma {:induction false} ReadPositions(h: seq<Commit>, l: seq<Record>, ns: Bytes, q: Query, opts: ReadOptions,
        out: seq<Bytes>)
    requires Matches(h, l) && ValidQuery(q)
    requires TypesApart(l, ns, q)
    requires QueryRanges(Replay(h), ns, q.items, opts.after).Ok?
    requires var rs := QueryRanges(Replay(h), ns, q.items, opts.after).value;
             var streams := AllRangeStamps(Replay(h), rs, opts.reverse);
             IsMerge(CutAll(streams, opts.limit), opts.limit, opts.reverse, out)
    ensures out == Positions(ReadSpec(LogOf(l, ns), q, opts))
  {
    QueryStreams(h, l, ns, q, opts.after, opts.reverse);
    WantedPositions(l, ns, q, opts.after, opts.reverse);
    var found := Selected(LogOf(l, ns), q, opts.after);
    var ordered := if opts.reverse then Reversed(found) else found;
    CutMerge(AllRangeStamps(Replay(h), QueryRanges(Replay(h), ns, q.items, opts.after).value, opts.reverse),
             opts.limit, opts.reverse, out, Positions(ordered));
    assert Positions(Cut(ordered, opts.limit)) == Cut(Positions(ordered), opts.limit);
  }

  // -------------------------------------------------------------------------
  // Fetching events
  // -------------------------------------------------------------------------

  function FetchOne(kv: Store, ns: Bytes, p: Versionstamp): Result<StoredEvent> {
    if PackEventKey(ns, p) !in kv then Err(EventNotFound(p))
    else
      var event :- DecodeEventValue(kv[PackEventKey(ns, p)]);
      Ok(StoredEvent(event, p))
  }

  /** The first missing or undecodable event decides the error. */
  function Fetch(kv: Store, ns: Bytes, vses: seq<Versionstamp>): Result<seq<StoredEvent>> {
    if vses == [] then Ok([])
    else
      var n := |vses| - 1;
      var init :- Fetch(kv, ns, vses[..n]);
      var last :- FetchOne(kv, ns, vses[n]);
      Ok(init + [last])
  }

  ghost predicate IsLogged(l: seq<Record>, ns: Bytes, p: Bytes) {
    exists se :: se in LogOf(l, ns) && se.position == p
  }

  lemma {:induction false} FetchOneLogged(h: seq<Commit>, l: seq<Record>, ns: Bytes, p: Versionstamp)
    requires Matches(h, l) && IsLogged(l, ns, p)
    ensures var r := FetchOne(Replay(h), ns, p); r.Ok? && r.value in LogOf(l, ns) && r.value.position == p
  {
    var se :| se in LogOf(l, ns) && se.position == p;
    EventInvariant(h, l, ns, p);
    assert StoredEvent(se.event, p) == se;
    DecodeEncode(se.event);
  }

  /** `events` are events of the log at the positions `vses`. */
  ghost predicate FetchedAs(log: seq<StoredEvent>, vses: seq<Versionstamp>, events: seq<StoredEvent>) {
    |events| == |vses| && forall i :: 0 <= i < |events| ==> events[i] in log && events[i].position == vses[i]
  }

  ghost predicate Fetched(kv: Store, ns: Bytes, log: seq<StoredEvent>, vses: seq<Versionstamp>) {
    Fetch(kv, ns, vses).Ok? && FetchedAs(log, vses, Fetch(kv, ns, vses).value)
  }

  lemma {:induction false} FetchedNext(kv: Store, ns: Bytes, log: seq<StoredEvent>, vses: seq<Versionstamp>,
        v: Versionstamp)
    requires Fetched(kv, ns, log, vses)
    requires FetchOne(kv, ns, v).Ok? && FetchOne(kv, ns, v).value in log && FetchOne(kv, ns, v).value.position == v
    ensures Fetched(kv, ns, log, vses + [v])
  {
    assert (vses + [v])[..|vses|] == vses;
  }

  /** Fetching positions of the log always succeeds and gives the log's events. */
  lemma {:induction false} FetchLogged(h: seq<Commit>, l: seq<Record>, ns: Bytes, vses: seq<Versionstamp>)
    requires Matches(h, l)
    requires forall i :: 0 <= i < |vses| ==> IsLogged(l, ns, vses[i])
    ensures Fetched(Replay(h), ns, LogOf(l, ns), vses)
  {
    if vses != [] {
      var init, v := vses[..|vses| - 1], vses[|vses| - 1];
      assert vses == init + [v];
      FetchLogged(h, l, ns, init);
      FetchOneLogged(h, l, ns, v);
      FetchedNext(Replay(h), ns, LogOf(l, ns), init, v);
    }
  }

  /** Events of the log are determined by their positions. */
  lemma {:induction false} SamePositions(l: seq<Record>, ns: Bytes, a: seq<StoredEvent>, b: seq<StoredEvent>)
    requires Ledgered(l) && Positions(a) == Positions(b)
    requires forall se :: se in a || se in b ==> se in LogOf(l, ns)
    ensures a == b
  {
    assert |a| == |Positions(a)| == |b|;
    forall i | 0 <= i < |a| ensures a[i] == b[i] {
      assert Positions(a)[i] == a[i].position && Positions(b)[i] == b[i].position;
      PositionUnique(l, ns, a[i], b[i]);
    }
  }

  lemma {:induction false} CutHas<T>(s: seq<T>, limit: nat, x: T)
    ensures x in Cut(s, limit) ==> x in s
  {
  }

  lemma {:induction false} ReadSpecLogged(l: seq<Record>, ns: Bytes, q: Query, opts: ReadOptions, se: StoredEvent)
    requires se in ReadSpec(LogOf(l, ns), q, opts)
    ensures se in LogOf(l, ns) && Selects(q, opts.after, se)
  {
    var found := Selected(LogOf(l, ns), q, opts.after);
    ReversedHas(found, se);
    CutHas(if opts.reverse then Reversed(found) else found, opts.limit, se);
    SelectedHas(LogOf(l, ns), q, opts.after, se);
  }

  /** Selected events in the direction of the read. */
  ghost function InDirection(log: seq<StoredEvent>, q: Query, opts: ReadOptions): seq<StoredEvent> {
    var found := Selected(log, q, opts.after);
    if opts.reverse then Reversed(found) else found
  }

  ghost predicate InOrder(reverse: bool, d: seq<StoredEvent>) {
    forall i, j :: 0 <= i < j < |d| ==> Before(reverse, d[i].position, d[j].position)
  }

  lemma {:induction false} DirectionOrder(l: seq<Record>, ns: Bytes, q: Query, opts: ReadOptions)
    requires Ledgered(l)
    ensures InOrder(opts.reverse, InDirection(LogOf(l, ns), q, opts))
  {
    var found := Selected(LogOf(l, ns), q, opts.after);
    LogSorted(l, ns);
    SelectedSorted(LogOf(l, ns), q, opts.after);
    forall i, j | 0 <= i < j < |found| ensures Less(found[i].position, found[j].position) {
      assert Positions(found)[i] == found[i].position && Positions(found)[j] == found[j].position;
    }
  }

  lemma {:induction false} CutKeeps<T>(d: seq<T>, limit: nat, k: nat)
    requires k < |d|
    ensures limit == 0 || k < limit ==> d[k] in Cut(d, limit)
  {
    if k < |Cut(d, limit)| {
      assert Cut(d, limit)[k] == d[k];
    }
  }

  /** What a limit cuts off comes later. */
  lemma {:induction false} CutOff(reverse: bool, d: seq<StoredEvent>, limit: nat, se: StoredEvent)
    requires InOrder(reverse, d) && se in d && se !in Cut(d, limit)
    ensures limit > 0 && |Cut(d, limit)| == limit
    ensures forall e :: e in Cut(d, limit) ==> Before(reverse, e.position, se.position)
  {
    var k :| 0 <= k < |d| && d[k] == se;
    CutKeeps(d, limit, k);
    forall e | e in Cut(d, limit) ensures Before(reverse, e.position, se.position) {
      var i :| 0 <= i < limit && Cut(d, limit)[i] == e;
      assert d[i] == e;
    }
  }

  /** A selected event that the specified result leaves out. */
  lemma {:induction false} LeftOutIsLater(l: seq<Record>, ns: Bytes, q: Query, opts: ReadOptions, se: StoredEvent)
    requires Ledgered(l) && se in LogOf(l, ns) && Selects(q, opts.after, se)
    requires se !in ReadSpec(LogOf(l, ns), q, opts)
    ensures opts.limit > 0 && |ReadSpec(LogOf(l, ns), q, opts)| == opts.limit
    ensures forall e :: e in ReadSpec(LogOf(l, ns), q, opts) ==> Before(opts.reverse, e.position, se.position)
  {
    DirectionOrder(l, ns, q, opts);
    SelectedHas(LogOf(l, ns), q, opts.after, se);
    ReversedHas(Selected(LogOf(l, ns), q, opts.after), se);
    CutOff(opts.reverse, InDirection(LogOf(l, ns), q, opts), opts.limit, se);
  }

  /**
   What the specified result is, apart from its definition: selected events of the log,
   in order of position, upwards or downwards; no more than the limit; and a selected
   event that is missing comes after all of them, when there are as many as the limit.
   */
  lemma {:induction false} ReadSpecMeans(l: seq<Record>, ns: Bytes, q: Query, opts: ReadOptions)
    requires Ledgered(l)
    ensures var log, r := LogOf(l, ns), ReadSpec(LogOf(l, ns), q, opts);
            && (forall se :: se in r ==> se in log && Selects(q, opts.after, se))
            && (forall i, j :: 0 <= i < j < |r| ==>
                  if opts.reverse then Less(r[j].position, r[i].position) else Less(r[i].position, r[j].position))
            && (opts.limit > 0 ==> |r| <= opts.limit)
            && forall se :: se in log && Selects(q, opts.after, se) && se !in r ==>
                 && opts.limit > 0 && |r| == opts.limit
                 && forall e :: e in r ==>
                      if opts.reverse then Less(se.position, e.position) else Less(e.position, se.position)
  {
    var log, r := LogOf(l, ns), ReadSpec(LogOf(l, ns), q, opts);
    DirectionOrder(l, ns, q, opts);
    forall se | se in r ensures se in log && Selects(q, opts.after, se) {
      ReadSpecLogged(l, ns, q, opts, se);
    }
    forall se | se in log && Selects(q, opts.after, se) && se !in r
      ensures opts.limit > 0 && |r| == opts.limit
      ensures forall e :: e in r ==> Before(opts.reverse, e.position, se.position)
    {
      LeftOutIsLater(l, ns, q, opts, se);
    }
  }

  /** Fetching the positions of the specified result gives the specified result. */
  lemma {:induction false} FetchSpecified(h: seq<Commit>, l: seq<Record>, ns: Bytes, q: Query, opts: ReadOptions,
        vses: seq<Versionstamp>)
    requires Matches(h, l) && vses == Positions(ReadSpec(LogOf(l, ns), q, opts))
    ensures Fetch(Replay(h), ns, vses) == Ok(ReadSpec(LogOf(l, ns), q, opts))
  {
    var spec := ReadSpec(LogOf(l, ns), q, opts);
    forall i | 0 <= i < |vses| ensures IsLogged(l, ns, vses[i]) {
      assert spec[i] in spec && spec[i].position == vses[i];
      ReadSpecLogged(l, ns, q, opts, spec[i]);
    }
    FetchLogged(h, l, ns, vses);
    var r := Fetch(Replay(h), ns, vses).value;
    assert Positions(r) == vses;
    forall se | se in r || se in spec ensures se in LogOf(l, ns) {
      if se in spec {
        ReadSpecLogged(l, ns, q, opts, se);
      } else {
        var i :| 0 <= i < |r| && r[i] == se;
      }
    }
    SamePositions(l, ns, r, spec);
  }
}

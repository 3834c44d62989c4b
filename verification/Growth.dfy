/** What one commit does to the database: how many keys it adds, and what it leaves alone. */
module Growth {
  import opened Bytes
  import opened Tuples
  import opened Types
  import opened Encoding
  import opened Kv
  import opened Ledger
  import opened Matching
  import opened Reading
  import Ranges
  import Scanning
  import Probing
  import SubscribeMethods

  // -------------------------------------------------------------------------
  // Key counts
  // -------------------------------------------------------------------------

  lemma {:induction false} IndexKeyCount(ns: Bytes, subsets: seq<seq<Bytes>>, t: Bytes, p: Versionstamp)
    requires forall i, j :: 0 <= i < j < |subsets| ==> subsets[i] != subsets[j]
    ensures |SubsetKeys(ns, subsets, t, p)| == |subsets|
  {
    if subsets != [] {
      var n := |subsets| - 1;
      var last := subsets[n];
      IndexKeyCount(ns, subsets[..n], t, p);
      assert subsets == subsets[..n] + [last];
      var before := SubsetKeys(ns, subsets[..n], t, p);
      forall s | s in subsets[..n] ensures PackIndexKey(ns, s, t, p) != PackIndexKey(ns, last, t, p) {
        KeysDistinct(IndexKey(ns, s, t, p), IndexKey(ns, last, t, p));
      }
      assert SubsetKeys(ns, subsets, t, p) == before + {PackIndexKey(ns, last, t, p)};
    }
  }

  /** One primary key, and one index key per subset of the distinct tags. */
  function EventKeyCount(e: Event): nat {
    1 + Pow2(|Canonical(e.tags)|)
  }

  function BatchKeyCount(events: seq<Event>): nat {
    if events == [] then 0 else BatchKeyCount(events[..|events| - 1]) + EventKeyCount(events[|events| - 1])
  }

  lemma {:induction false} EventWriteCount(ns: Bytes, e: Event, p: Versionstamp)
    ensures |EventWrites(ns, e, p).Keys| == EventKeyCount(e)
  {
    SubsetsArePowerset(Canonical(e.tags));
    IndexKeyCount(ns, Subsets(Canonical(e.tags)), e.typeName, p);
    EventKeyApart(ns, e, p);
    EventKeysAre(ns, e, p);
  }

  lemma {:induction false} EventKeysAre(ns: Bytes, e: Event, p: Versionstamp)
    ensures EventWrites(ns, e, p).Keys == IndexKeys(ns, e, p) + {PackEventKey(ns, p)}
  {
  }

  /** Events at different positions write different keys. */
  lemma {:induction false} EventWritesApart(ns: Bytes, e: Event, p: Versionstamp, f: Event, q: Versionstamp)
    requires p != q
    ensures EventWrites(ns, e, p).Keys !! EventWrites(ns, f, q).Keys
  {
    forall k | k in EventWrites(ns, e, p).Keys ensures k !in EventWrites(ns, f, q).Keys {
      var key := EventKeyOf(ns, e, p, k);
      EventWritesHas(ns, f, q, key);
    }
  }

  /** A written key of an event as one of its layer keys. */
  lemma {:induction false} EventKeyOf(ns: Bytes, e: Event, p: Versionstamp, k: Bytes) returns (key: LayerKey)
    requires k in EventWrites(ns, e, p)
    ensures k == KeyBytes(key) && EventHas(ns, e, p, key)
  {
    if k == PackEventKey(ns, p) {
      key := EventKey(ns, p);
    } else {
      var s :| s in Subsets(Canonical(e.tags)) && k == PackIndexKey(ns, s, e.typeName, p);
      key := IndexKey(ns, s, e.typeName, p);
    }
  }

  /** The last event of a batch writes keys that the events before it do not. */
  lemma {:induction false} LastWritesApart(ns: Bytes, events: seq<Event>, version: nat)
    requires IsTxVersion(version) && 0 < |events| <= MAX_BATCH
    ensures var n := |events| - 1;
            BatchWrites(ns, events[..n], version).Keys !! EventWrites(ns, events[n], Position(version, n)).Keys
  {
    var n := |events| - 1;
    forall k | k in BatchWrites(ns, events[..n], version)
      ensures k !in EventWrites(ns, events[n], Position(version, n))
    {
      var i := BatchFrom(ns, events[..n], version, k);
      PositionOrder(version, i, version, n);
      EventWritesApart(ns, events[i], Position(version, i), events[n], Position(version, n));
    }
  }

  lemma {:induction false} UnionCount(a: set<Bytes>, b: set<Bytes>)
    requires a !! b
    ensures |a + b| == |a| + |b|
  {
  }

  lemma {:induction false} BatchWriteCount(ns: Bytes, events: seq<Event>, version: nat)
    requires IsTxVersion(version) && |events| <= MAX_BATCH
    ensures |BatchWrites(ns, events, version).Keys| == BatchKeyCount(events)
  {
    if events != [] {
      var n := |events| - 1;
      var before, last := BatchWrites(ns, events[..n], version), EventWrites(ns, events[n], Position(version, n));
      BatchWriteCount(ns, events[..n], version);
      EventWriteCount(ns, events[n], Position(version, n));
      LastWritesApart(ns, events, version);
      UnionCount(before.Keys, last.Keys);
      assert (before + last).Keys == before.Keys + last.Keys;
    }
  }

  /** Event and index keys of an append were never in the database before. */
  lemma {:induction false} BatchKeysFresh(h: seq<Commit>, l: seq<Record>, ns: Bytes, events: seq<Event>,
        version: nat, k: Bytes)
    requires Matches(h, l) && IsTxVersion(version) && |events| <= MAX_BATCH
    requires forall i :: 0 <= i < |l| ==> l[i].version < version
    requires k in BatchWrites(ns, events, version)
    ensures k !in Replay(h) && k != PackSentinelKey(ns)
  {
    var i := BatchFrom(ns, events, version, k);
    var p := Position(version, i);
    var key := EventKeyOf(ns, events[i], p, k);
    NewPosition(l, ns, version, i);
    KeysDistinct(key, SentinelKey(ns));
    NewKey(h, l, ns, p, key);
  }

  lemma {:induction false} NewPosition(l: seq<Record>, ns: Bytes, version: nat, i: nat)
    requires Ledgered(l) && IsTxVersion(version) && i <= MAX_BATCH
    requires forall j :: 0 <= j < |l| ==> l[j].version < version
    ensures forall se :: se in LogOf(l, ns) ==> se.position != Position(version, i)
  {
    LogBelow(l, ns, version, i);
    LessIrreflexive(Position(version, i));
  }

  /** At a position that the log does not have, no key is stored. */
  lemma {:induction false} NewKey(h: seq<Commit>, l: seq<Record>, ns: Bytes, p: Versionstamp, key: LayerKey)
    requires Matches(h, l) && forall se :: se in LogOf(l, ns) ==> se.position != p
    requires key == EventKey(ns, p) || (key.IndexKey? && key == IndexKey(ns, key.tags, key.typeName, p))
    ensures KeyBytes(key) !in Replay(h)
  {
    if key.EventKey? {
      EventInvariant(h, l, ns, p);
    } else {
      IndexInvariant(h, l, ns, key.tags, key.typeName, p);
    }
  }

  lemma {:induction false} GrowthCount(before: set<Bytes>, batch: set<Bytes>, sentinel: Bytes)
    requires before !! batch && sentinel !in batch
    ensures |before + batch + {sentinel}| == |before| + |batch| + if sentinel in before then 0 else 1
  {
    assert |before + batch| == |before| + |batch|;
    if sentinel in before {
      assert before + batch + {sentinel} == before + batch;
    }
  }

  lemma {:induction false} KeysAfter(h: seq<Commit>, rec: Record)
    requires rec.Appended?
    ensures Replay(h + [CommitOf(rec)]).Keys
         == Replay(h).Keys + BatchWrites(rec.ns, rec.events, rec.version).Keys + {PackSentinelKey(rec.ns)}
  {
    assert (h + [CommitOf(rec)])[..|h|] == h;
  }

  /**
   The size of the database: an append adds one key per event and per subset of its
   distinct tags, all of them new, and the first append of a namespace its sentinel.
   */
  lemma {:induction false} StoreGrowth(h: seq<Commit>, l: seq<Record>, ns: Bytes, events: seq<Event>, version: nat)
    requires Matches(h, l) && ValidRecord(Appended(ns, events, version))
    requires forall i :: 0 <= i < |l| ==> l[i].version < version
    ensures |Replay(h + [CommitOf(Appended(ns, events, version))]).Keys|
         == |Replay(h).Keys| + BatchKeyCount(events) + if PackSentinelKey(ns) in Replay(h) then 0 else 1
  {
    var before, batch := Replay(h).Keys, BatchWrites(ns, events, version).Keys;
    forall k | k in batch ensures k !in before && k != PackSentinelKey(ns) {
      BatchKeysFresh(h, l, ns, events, version, k);
    }
    BatchWriteCount(ns, events, version);
    KeysAfter(h, Appended(ns, events, version));
    GrowthCount(before, batch, PackSentinelKey(ns));
  }

  // -------------------------------------------------------------------------
  // Positions
  // -------------------------------------------------------------------------

  /** The position an append returns is that of its last event, and the greatest in the log. */
  lemma {:induction false} ReturnedIsGreatest(l: seq<Record>, rec: Record)
    requires Ledgered(l + [rec]) && rec.Appended? && rec.events != []
    ensures var last := Position(rec.version, |rec.events| - 1);
            && (exists se ::
                  se in LogOf(l + [rec], rec.ns) && se.position == last && se.event == rec.events[|rec.events| - 1])
            && forall se :: se in LogOf(l + [rec], rec.ns) ==> se.position == last || Less(se.position, last)
  {
    var n, all := |rec.events| - 1, l + [rec];
    assert all[|l|] == rec && all[..|l|] == l;
    var batch := Batch(rec.events, rec.version);
    assert batch[n] in LogOf(all, rec.ns);
    assert forall i :: 0 <= i < |l| ==> all[i] == l[i];
    LogBelow(l, rec.ns, rec.version, n);
    forall se | se in LogOf(all, rec.ns)
      ensures se.position == Position(rec.version, n) || Less(se.position, Position(rec.version, n))
    {
      if se !in LogOf(l, rec.ns) {
        var i :| 0 <= i < |batch| && batch[i] == se;
        PositionOrder(rec.version, i, rec.version, n);
      }
    }
  }

  // -------------------------------------------------------------------------
  // Isolation
  // -------------------------------------------------------------------------

  /** A record's keys start with its own namespace. */
  lemma {:induction false} ForeignKey(rec: Record, k: Bytes, ss: seq<Bytes>)
    requires ValidRecord(rec) && k in Writes(rec) && |ss| >= 2 && Pack(Strs(ss)) <= k
    ensures ss[0] == rec.ns
  {
    var es := WrittenKey(rec, k);
    PackPrefix(ss, es);
    var n := |ss| - 1;
    assert Strs(ss[..n])[0] == es[..n][0];
  }

  /** None of the written keys lies in one of the ranges. */
  ghost predicate Untouched(rec: Record, rs: seq<Range>) {
    forall k, r :: k in Writes(rec) && r in rs ==> !InRange(k, r)
  }

  lemma {:induction false} SameKeys(kv: Store, rec: Record, r: Range)
    requires Untouched(rec, [r])
    ensures KeysIn(kv + Writes(rec), r) == KeysIn(kv, r)
  {
    assert r in [r];
    SortedUnique(KeysIn(kv + Writes(rec), r), KeysIn(kv, r));
  }

  lemma {:induction false} TypedRangeForeign(rec: Record, ns: Bytes, s: seq<Bytes>, t: Bytes,
        after: Option<Versionstamp>, r: Range)
    requires ValidRecord(rec) && rec.ns != ns && Ranges.TypedRange(ns, s, t, after) == Ok(r)
    ensures Untouched(rec, [r])
  {
    var ss := Ranges.SentinelStrings(ns, s) + [t];
    forall k | k in Writes(rec) ensures !InRange(k, r) {
      Ranges.StringPackEnds(ss);
      Ranges.PackedRangeExact(Ranges.TagTypePrefix(ns, s, t), after, k);
      if Pack(Strs(ss)) <= k {
        ForeignKey(rec, k, ss);
      }
    }
  }

  lemma {:induction false} DiscoveryForeign(kv: Store, rec: Record, ns: Bytes, s: seq<Bytes>)
    requires ValidRecord(rec) && rec.ns != ns
    ensures Discover(kv + Writes(rec), ns, s) == Discover(kv, ns, s)
  {
    var ss := Ranges.SentinelStrings(ns, s);
    Ranges.StringPackEnds(ss);
    Ranges.PackedRangeExact(Ranges.EventsInTagPrefix(ns, s), None, []);
    var r := Ranges.DiscoveryRange(ns, s).value;
    forall k | k in Writes(rec) ensures !InRange(k, r) {
      Ranges.PackedRangeExact(Ranges.EventsInTagPrefix(ns, s), None, k);
      if Pack(Strs(ss)) <= k {
        ForeignKey(rec, k, ss);
      }
    }
    SameKeys(kv, rec, r);
  }

  lemma {:induction false} TypedRangesForeign(rec: Record, ns: Bytes, s: seq<Bytes>, types: seq<Bytes>,
        after: Option<Versionstamp>)
    requires ValidRecord(rec) && rec.ns != ns
    ensures TypedRanges(ns, s, types, after).Ok? && Untouched(rec, TypedRanges(ns, s, types, after).value)
  {
    TypedRangesAre(ns, s, types, after);
    var rs := TypedRanges(ns, s, types, after).value;
    forall k, r | k in Writes(rec) && r in rs ensures !InRange(k, r) {
      var i :| 0 <= i < |rs| && rs[i] == r;
      TypedRangeForeign(rec, ns, s, types[i], after, r);
      assert r in [r];
    }
  }

  lemma {:induction false} EffectiveForeign(kv: Store, rec: Record, ns: Bytes, item: QueryItem)
    requires ValidRecord(rec) && rec.ns != ns
    ensures EffectiveTypes(kv + Writes(rec), ns, item) == EffectiveTypes(kv, ns, item)
  {
    DiscoveryForeign(kv, rec, ns, Canonical(item.tags));
  }

  lemma {:induction false} ItemRangesForeign(kv: Store, rec: Record, ns: Bytes, item: QueryItem,
        after: Option<Versionstamp>)
    requires ValidRecord(rec) && rec.ns != ns
    ensures ItemRanges(kv + Writes(rec), ns, item, after) == ItemRanges(kv, ns, item, after)
    ensures ItemRanges(kv, ns, item, after).Ok? ==> Untouched(rec, ItemRanges(kv, ns, item, after).value)
  {
    EffectiveForeign(kv, rec, ns, item);
    if EffectiveTypes(kv, ns, item).Ok? {
      TypedRangesForeign(rec, ns, Canonical(item.tags), EffectiveTypes(kv, ns, item).value, after);
    }
  }

  /** The ranges of a query are built alike, and none of them holds a key of the record. */
  lemma {:induction false} QueryRangesForeign(kv: Store, rec: Record, ns: Bytes, items: seq<QueryItem>,
        after: Option<Versionstamp>)
    requires ValidRecord(rec) && rec.ns != ns
    ensures QueryRanges(kv + Writes(rec), ns, items, after) == QueryRanges(kv, ns, items, after)
    ensures QueryRanges(kv, ns, items, after).Ok? ==> Untouched(rec, QueryRanges(kv, ns, items, after).value)
  {
    if items != [] {
      var n := |items| - 1;
      QueryRangesForeign(kv, rec, ns, items[..n], after);
      ItemRangesForeign(kv, rec, ns, items[n], after);
    }
  }

  lemma {:induction false} FetchForeign(kv: Store, rec: Record, ns: Bytes, vses: seq<Versionstamp>)
    requires ValidRecord(rec) && rec.ns != ns
    ensures Fetch(kv + Writes(rec), ns, vses) == Fetch(kv, ns, vses)
  {
    if vses != [] {
      var n := |vses| - 1;
      FetchForeign(kv, rec, ns, vses[..n]);
      EventKeyForeign(rec, ns, vses[n]);
    }
  }

  lemma {:induction false} EventKeyForeign(rec: Record, ns: Bytes, p: Versionstamp)
    requires ValidRecord(rec) && rec.ns != ns
    ensures PackEventKey(ns, p) !in Writes(rec)
  {
    WritesHave(rec, EventKey(ns, p));
  }

  /** Everything that a read of the items looks at: its ranges, what each of them yields
      under any limit and direction, and the events at any positions. */
  ghost predicate SameReads(now: Store, before: Store, ns: Bytes, items: seq<QueryItem>, after: Option<Versionstamp>) {
    var rs := QueryRanges(before, ns, items, after);
    && QueryRanges(now, ns, items, after) == rs
    && (rs.Ok? ==> forall r, limit, reverse :: r in rs.value ==>
          GetRange(now, r, limit, reverse) == GetRange(before, r, limit, reverse))
    && forall vses :: Fetch(now, ns, vses) == Fetch(before, ns, vses)
  }

  /** A write of another namespace changes no read, whatever is in the database. */
  lemma {:induction false} ReadsIsolated(kv: Store, rec: Record, ns: Bytes, items: seq<QueryItem>,
        after: Option<Versionstamp>)
    requires ValidRecord(rec) && rec.ns != ns
    ensures SameReads(kv + Writes(rec), kv, ns, items, after)
  {
    QueryRangesForeign(kv, rec, ns, items, after);
    var rs := QueryRanges(kv, ns, items, after);
    if rs.Ok? {
      forall r | r in rs.value ensures KeysIn(kv + Writes(rec), r) == KeysIn(kv, r) {
        SameKeys(kv, rec, r);
      }
    }
    forall vses ensures Fetch(kv + Writes(rec), ns, vses) == Fetch(kv, ns, vses) {
      FetchForeign(kv, rec, ns, vses);
    }
  }

  lemma {:induction false} ReplayNext(h: seq<Commit>, rec: Record)
    ensures Replay(h + [CommitOf(rec)]) == Replay(h) + Writes(rec)
  {
    assert (h + [CommitOf(rec)])[..|h|] == h;
  }

  /**
   A commit of another namespace changes nothing here: no read, not the scan of all
   events, not the cursors, not the sentinel, no probe; and it conflicts with none.
   */
  lemma {:induction false} NamespacesIsolated(h: seq<Commit>, l: seq<Record>, rec: Record, ns: Bytes, name: Bytes,
        items: seq<QueryItem>, after: Option<Versionstamp>, p: Probing.Probe)
    requires Matches(h, l) && Matches(h + [CommitOf(rec)], l + [rec]) && rec.ns != ns && ValidItem(p.item)
    ensures var now, before := Replay(h + [CommitOf(rec)]), Replay(h);
            && SameReads(now, before, ns, items, after)
            && Scanning.ScanOf(now, ns) == Scanning.ScanOf(before, ns)
            && SubscribeMethods.CursorOf(now, ns, name) == SubscribeMethods.CursorOf(before, ns, name)
            && SubscribeMethods.ValueOf(now, PackSentinelKey(ns))
                == SubscribeMethods.ValueOf(before, PackSentinelKey(ns))
            && (Probing.Hit(now, ns, p) <==> Probing.Hit(before, ns, p))
    ensures !Probing.WritesInto(rec, Probing.ProbeRanges(Replay(h), ns, p))
  {
    var h', l' := h + [CommitOf(rec)], l + [rec];
    assert l'[..|l|] == l && l'[|l|] == rec;
    ReplayNext(h, rec);
    ReadsIsolated(Replay(h), rec, ns, items, after);
    Scanning.ScanIsLog(h, l, ns);
    Scanning.ScanIsLog(h', l', ns);
    SubscribeMethods.CursorExact(h, l, ns, name);
    SubscribeMethods.CursorExact(h', l', ns, name);
    SubscribeMethods.SentinelExact(h, l, ns);
    SubscribeMethods.SentinelExact(h', l', ns);
    Probing.HitExact(h, l, ns, p);
    Probing.HitExact(h', l', ns, p);
    assert LogOf(l', ns) == LogOf(l, ns);
    if Probing.WritesInto(rec, Probing.ProbeRanges(Replay(h), ns, p)) {
      var se := Probing.WritesDisturb(h, l, ns, p, rec);
    }
  }
}

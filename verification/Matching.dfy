/**
 Query items as key ranges: the specification of `query.rs`, and how the ranges
 relate to the events of the log.
 */
module Matching {
  import opened Bytes
  import opened Tuples
  import opened Types
  import opened Encoding
  import opened Kv
  import opened Ranges
  import opened Ledger

  // -------------------------------------------------------------------------
  // Specification functions
  // -------------------------------------------------------------------------

  /** The second-to-last element of each key that is long enough, each type once. */
  function TypesIn(keys: seq<Bytes>, minLen: nat): Result<seq<Bytes>>
    requires minLen >= 2
  {
    if keys == [] then Ok([])
    else
      var n := |keys| - 1;
      var types :- TypesIn(keys[..n], minLen);
      match Unpack(keys[n])
      case None => Err(TupleDecode)
      case Some(elements) =>
        if |elements| < minLen || !elements[|elements| - 2].Str? then Ok(types)
        else
          var typeName := elements[|elements| - 2].s;
          Ok(if typeName in types then types else types + [typeName])
  }

  function Discover(kv: Store, ns: Bytes, sortedTags: seq<Bytes>): Result<seq<Bytes>> {
    var r :- DiscoveryRange(ns, sortedTags);
    TypesIn(KeysIn(kv, r), |sortedTags| + 5)
  }

  function EffectiveTypes(kv: Store, ns: Bytes, item: QueryItem): Result<seq<Bytes>> {
    if item.types != [] then Ok(item.types) else Discover(kv, ns, Canonical(item.tags))
  }

  function TypedRanges(ns: Bytes, sortedTags: seq<Bytes>, types: seq<Bytes>,
        after: Option<Versionstamp>): Result<seq<Range>>
  {
    if types == [] then Ok([])
    else
      var n := |types| - 1;
      var init :- TypedRanges(ns, sortedTags, types[..n], after);
      var last :- TypedRange(ns, sortedTags, types[n], after);
      Ok(init + [last])
  }

  function ItemRanges(kv: Store, ns: Bytes, item: QueryItem, after: Option<Versionstamp>): Result<seq<Range>> {
    if item.HasNoTypeNorTags() then Err(InvalidQuery)
    else
      var types :- EffectiveTypes(kv, ns, item);
      TypedRanges(ns, Canonical(item.tags), types, after)
  }

  /** The discovery scan of a tags-only item is a read as well. */
  function ScannedRanges(ns: Bytes, item: QueryItem): seq<Range> {
    if item.types == [] && DiscoveryRange(ns, Canonical(item.tags)).Ok?
    then [DiscoveryRange(ns, Canonical(item.tags)).value] else []
  }

  // -------------------------------------------------------------------------
  // Keys inside the ranges
  // -------------------------------------------------------------------------

  ghost predicate IsIndexKey(k: Bytes, ns: Bytes, s: seq<Bytes>, t: Bytes, p: Versionstamp) {
    k == PackIndexKey(ns, s, t, p) && RESERVED_TAG !in s
  }

  lemma {:induction false} SubsetsUnreserved(e: Event, s: seq<Bytes>)
    requires RESERVED_TAG !in e.tags && s in Subsets(Canonical(e.tags))
    ensures RESERVED_TAG !in s
  {
    SubsetsArePowerset(Canonical(e.tags));
  }

  /** A layer key as a tuple: its namespace, then one of the four subspace names;
      under "i" there are only index keys, under "e" only event keys. */
  ghost predicate LayerTuple(k: Bytes, ns: Bytes, es: seq<Element>) {
    && k == Pack(es) && |es| >= 2 && es[0] == Str(ns)
    && (es[1] == Str(INDEXES_SUB) || es[1] == Str(EVENTS_SUB) || es[1] == Str(SENTINEL_SUB) || es[1] == Str(SUBS_SUB))
    && (es[1] == Str(INDEXES_SUB) ==> exists s, t, p :: IsIndexKey(k, ns, s, t, p))
    && (es[1] == Str(EVENTS_SUB) ==> exists p :: k == PackEventKey(ns, p))
  }

  lemma {:induction false} IndexKeyTuple(ns: Bytes, s: seq<Bytes>, t: Bytes, p: Versionstamp)
    requires RESERVED_TAG !in s
    ensures LayerTuple(PackIndexKey(ns, s, t, p), ns, IndexElems(ns, s, t, p))
  {
    var es := IndexElems(ns, s, t, p);
    assert |es| == |s| + 5 && es[0] == Str(ns) && es[1] == Str(INDEXES_SUB);
    assert IsIndexKey(Pack(es), ns, s, t, p);
  }

  lemma {:induction false} EventWrittenKey(ns: Bytes, e: Event, p: Versionstamp, k: Bytes) returns (es: seq<Element>)
    requires RESERVED_TAG !in e.tags && k in EventWrites(ns, e, p)
    ensures LayerTuple(k, ns, es)
  {
    if k == PackEventKey(ns, p) {
      es := EventElems(ns, p);
    } else {
      var s :| s in Subsets(Canonical(e.tags)) && k == PackIndexKey(ns, s, e.typeName, p);
      SubsetsUnreserved(e, s);
      IndexKeyTuple(ns, s, e.typeName, p);
      es := IndexElems(ns, s, e.typeName, p);
    }
  }

  lemma {:induction false} WrittenKey(rec: Record, k: Bytes) returns (es: seq<Element>)
    requires ValidRecord(rec) && k in Writes(rec)
    ensures LayerTuple(k, rec.ns, es)
  {
    match rec {
      case CursorSet(ns, name, _, _) =>
        es := CursorElems(ns, name);
      case Appended(ns, events, version) =>
        if k == PackSentinelKey(ns) {
          es := SentinelElems(ns);
        } else {
          var i := BatchFrom(ns, events, version, k);
          assert events[i] in events;
          es := EventWrittenKey(ns, events[i], Position(version, i), k);
        }
    }
  }

  /** Only index keys of the namespace start with `[ns, "i", ...]`. */
  lemma {:induction false} IndexSubspace(h: seq<Commit>, l: seq<Record>, ns: Bytes, rest: seq<Bytes>, k: Bytes)
    requires Matches(h, l) && k in Replay(h) && rest != []
    requires Pack(Strs([ns, INDEXES_SUB] + rest)) <= k
    ensures exists s, t, p :: IsIndexKey(k, ns, s, t, p)
  {
    ReplayHas(h, k);
    var j :| 0 <= j < |h| && k in h[j].writes;
    var es := WrittenKey(l[j], k);
    var ss := [ns, INDEXES_SUB] + rest;
    PackPrefix(ss, es);
    var n := |ss| - 1;
    assert Strs(ss[..n])[0] == es[..n][0] && Strs(ss[..n])[1] == es[..n][1];
  }

  lemma {:induction false} TypedRangesAre(ns: Bytes, s: seq<Bytes>, types: seq<Bytes>, after: Option<Versionstamp>)
    ensures TypedRanges(ns, s, types, after).Ok?
    ensures var rs := TypedRanges(ns, s, types, after).value;
            |rs| == |types| &&
            forall i :: 0 <= i < |types| ==> TypedRange(ns, s, types[i], after) == Ok(rs[i])
  {
    if types != [] {
      var n := |types| - 1;
      TypedRangesAre(ns, s, types[..n], after);
      assert forall i :: 0 <= i < n ==> types[..n][i] == types[i];
      StringPackEnds(SentinelStrings(ns, s) + [types[n]]);
      PackedRangeExact(TagTypePrefix(ns, s, types[n]), after, []);
    }
  }

  /** What a typed range reads from the database, with its event. */
  lemma {:induction false} TypedRangeReads(h: seq<Commit>, l: seq<Record>, ns: Bytes, s: seq<Bytes>, t: Bytes,
        after: Option<Versionstamp>, k: Bytes) returns (se: StoredEvent)
    requires Matches(h, l) && RESERVED_TAG !in s
    requires TypedRange(ns, s, t, after).Ok?
    requires k in Replay(h) && InRange(k, TypedRange(ns, s, t, after).value)
    ensures se in LogOf(l, ns) && CarriesTags(se.event, s)
    ensures k == PackIndexKey(ns, s, se.event.typeName, se.position)
    ensures (se.event.typeName == t && After(se.position, after)) || NulExtends(se.event.typeName, t)
  {
    var ss := SentinelStrings(ns, s) + [t];
    StringPackEnds(ss);
    PackedRangeExact(TagTypePrefix(ns, s, t), after, k);
    var rest := s + [EVENTS_IN_INDEXES_SUB, t];
    assert [ns, INDEXES_SUB] + rest == ss;
    IndexSubspace(h, l, ns, rest, k);
    var s', u, p :| IsIndexKey(k, ns, s', u, p);
    TypedRangeExact(ns, s, t, after, s', u, p);
    se := IndexedEvent(h, l, ns, s', u, p);
  }

  /** The event of an index key in the database. */
  lemma {:induction false} IndexedEvent(h: seq<Commit>, l: seq<Record>, ns: Bytes, s: seq<Bytes>, t: Bytes,
        p: Versionstamp) returns (se: StoredEvent)
    requires Matches(h, l) && PackIndexKey(ns, s, t, p) in Replay(h)
    ensures se in LogOf(l, ns) && se.event.typeName == t && se.position == p && CarriesTags(se.event, s)
  {
    IndexInvariant(h, l, ns, s, t, p);
    var e :| StoredEvent(e, p) in LogOf(l, ns) && e.typeName == t && s in Subsets(Canonical(e.tags));
    SubsetsArePowerset(Canonical(e.tags));
    se := StoredEvent(e, p);
  }

  // -------------------------------------------------------------------------
  // Type discovery
  // -------------------------------------------------------------------------

  ghost predicate KeyOfType(k: Bytes, t: Bytes, minLen: nat)
    requires minLen >= 2
  {
    exists es :: k == Pack(es) && |es| >= minLen && es[|es| - 2] == Str(t)
  }

  ghost predicate Distinct(s: seq<Bytes>) {
    forall i, j :: 0 <= i < j < |s| ==> s[i] != s[j]
  }

  /** The type of a key that has one. */
  lemma {:induction false} KeyTypeRead(k: Bytes, t: Bytes, minLen: nat)
    requires minLen >= 2 && KeyOfType(k, t, minLen)
    ensures Unpack(k).Some? && |Unpack(k).value| >= minLen && Unpack(k).value[|Unpack(k).value| - 2] == Str(t)
  {
    var es :| k == Pack(es) && |es| >= minLen && es[|es| - 2] == Str(t);
    UnpackPack(es);
  }

  /** What one more key adds. */
  lemma {:induction false} TypesInNext(keys: seq<Bytes>, k: Bytes, t: Bytes, minLen: nat)
    requires minLen >= 2 && TypesIn(keys, minLen).Ok?
    requires Unpack(k).Some? && |Unpack(k).value| >= minLen && Unpack(k).value[|Unpack(k).value| - 2] == Str(t)
    ensures var types := TypesIn(keys, minLen).value;
            TypesIn(keys + [k], minLen) == Ok(if t in types then types else types + [t])
  {
    assert (keys + [k])[..|keys|] == keys;
  }

  ghost predicate ListsTypes(types: seq<Bytes>, keys: seq<Bytes>, minLen: nat)
    requires minLen >= 2
  {
    Distinct(types) && forall t :: t in types <==> exists k :: k in keys && KeyOfType(k, t, minLen)
  }

  lemma {:induction false} TypesInExact(keys: seq<Bytes>, minLen: nat)
    requires minLen >= 2
    requires forall k :: k in keys ==> exists t :: KeyOfType(k, t, minLen)
    ensures TypesIn(keys, minLen).Ok? && ListsTypes(TypesIn(keys, minLen).value, keys, minLen)
  {
    if keys != [] {
      var n := |keys| - 1;
      var init, k := keys[..n], keys[n];
      assert k in keys && keys == init + [k];
      assert forall x :: x in init ==> x in keys;
      TypesInExact(init, minLen);
      var t :| KeyOfType(k, t, minLen);
      KeyTypeRead(k, t, minLen);
      TypesInNext(init, k, t, minLen);
      ListsOneMore(TypesIn(init, minLen).value, init, k, t, minLen);
    }
  }

  lemma {:induction false} ListsOneMore(types: seq<Bytes>, keys: seq<Bytes>, k: Bytes, t: Bytes, minLen: nat)
    requires minLen >= 2 && ListsTypes(types, keys, minLen) && KeyOfType(k, t, minLen)
    ensures ListsTypes(if t in types then types else types + [t], keys + [k], minLen)
  {
    var more, all := if t in types then types else types + [t], keys + [k];
    forall u ensures u in more <==> exists x :: x in all && KeyOfType(x, u, minLen) {
      if u in types {
        var x :| x in keys && KeyOfType(x, u, minLen);
        assert x in all;
      } else if u == t {
        assert k in all;
      }
      if x :| x in all && KeyOfType(x, u, minLen) {
        if x == k {
          KeyTypeUnique(k, t, u, minLen);
        } else {
          assert x in keys;
        }
      }
    }
  }

  /**
   Type discovery is exact: it lists, each once, the types that have an event with
   all the tags. A scanned key may have further tags than `s`; its event still
   carries `s`, so this needs no assumption on 0x00 bytes.
   */
  lemma {:induction false} DiscoverExact(h: seq<Commit>, l: seq<Record>, ns: Bytes, s: seq<Bytes>)
    requires Matches(h, l) && StrictlySorted(s) && RESERVED_TAG !in s
    ensures Discover(Replay(h), ns, s).Ok?
    ensures Distinct(Discover(Replay(h), ns, s).value)
    ensures forall t :: t in Discover(Replay(h), ns, s).value <==> HasTyped(l, ns, s, t)
  {
    DiscoveryRangeExact(ns, s, s, [], Position(0, 0));
    var keys, minLen := KeysIn(Replay(h), DiscoveryRange(ns, s).value), |s| + 5;
    forall k | k in keys ensures exists t :: KeyOfType(k, t, minLen) {
      var se := DiscoveryReads(h, l, ns, s, k);
    }
    TypesInExact(keys, minLen);
    forall t ensures t in Discover(Replay(h), ns, s).value <==> HasTyped(l, ns, s, t) {
      ScannedType(h, l, ns, s, t, keys, minLen);
    }
  }

  /** Some event of type `t` carries the tags. */
  ghost predicate HasTyped(l: seq<Record>, ns: Bytes, s: seq<Bytes>, t: Bytes) {
    exists se :: se in LogOf(l, ns) && se.event.typeName == t && CarriesTags(se.event, s)
  }

  /** The scanned keys have a type exactly when an event with the tags has it. */
  lemma {:induction false} ScannedType(h: seq<Commit>, l: seq<Record>, ns: Bytes, s: seq<Bytes>, t: Bytes,
        keys: seq<Bytes>, minLen: nat)
    requires Matches(h, l) && StrictlySorted(s) && RESERVED_TAG !in s && DiscoveryRange(ns, s).Ok?
    requires keys == KeysIn(Replay(h), DiscoveryRange(ns, s).value) && minLen == |s| + 5
    ensures (exists k :: k in keys && KeyOfType(k, t, minLen)) <==> HasTyped(l, ns, s, t)
  {
    if k :| k in keys && KeyOfType(k, t, minLen) {
      var se := DiscoveryReads(h, l, ns, s, k);
      KeyTypeUnique(k, t, se.event.typeName, minLen);
    }
    if se :| se in LogOf(l, ns) && se.event.typeName == t && CarriesTags(se.event, s) {
      var k := DiscoveryFinds(h, l, ns, s, se);
      assert k in keys;
    }
  }

  lemma {:induction false} KeyTypeUnique(k: Bytes, t: Bytes, u: Bytes, minLen: nat)
    requires minLen >= 2 && KeyOfType(k, t, minLen) && KeyOfType(k, u, minLen)
    ensures t == u
  {
    var es :| k == Pack(es) && |es| >= minLen && es[|es| - 2] == Str(t);
    var fs :| k == Pack(fs) && |fs| >= minLen && fs[|fs| - 2] == Str(u);
    PackInjective(es, fs);
  }

  lemma {:induction false} DiscoveryReads(h: seq<Commit>, l: seq<Record>, ns: Bytes, s: seq<Bytes>, k: Bytes)
    returns (se: StoredEvent)
    requires Matches(h, l) && StrictlySorted(s) && RESERVED_TAG !in s
    requires DiscoveryRange(ns, s).Ok?
    requires k in Replay(h) && InRange(k, DiscoveryRange(ns, s).value)
    ensures se in LogOf(l, ns) && CarriesTags(se.event, s) && KeyOfType(k, se.event.typeName, |s| + 5)
  {
    var ss := SentinelStrings(ns, s);
    StringPackEnds(ss);
    PackedRangeExact(EventsInTagPrefix(ns, s), None, k);
    var rest := s + [EVENTS_IN_INDEXES_SUB];
    assert [ns, INDEXES_SUB] + rest == ss;
    IndexSubspace(h, l, ns, rest, k);
    var s', u, p :| IsIndexKey(k, ns, s', u, p);
    se := DiscoveredEvent(h, l, ns, s, s', u, p);
  }

  lemma {:induction false} DiscoveredEvent(h: seq<Commit>, l: seq<Record>, ns: Bytes, s: seq<Bytes>, s': seq<Bytes>,
        u: Bytes, p: Versionstamp) returns (se: StoredEvent)
    requires Matches(h, l) && StrictlySorted(s) && RESERVED_TAG !in s && RESERVED_TAG !in s'
    requires DiscoveryRange(ns, s).Ok? && PackIndexKey(ns, s', u, p) in Replay(h)
    requires InRange(PackIndexKey(ns, s', u, p), DiscoveryRange(ns, s).value)
    ensures se in LogOf(l, ns) && CarriesTags(se.event, s)
    ensures KeyOfType(PackIndexKey(ns, s', u, p), se.event.typeName, |s| + 5)
  {
    DiscoveryRangeExact(ns, s, s', u, p);
    se := IndexedEvent(h, l, ns, s', u, p);
    assert forall t :: t in s ==> t in s';
    IndexKeyType(ns, s', u, p, |s| + 5);
  }

  lemma {:induction false} IndexKeyType(ns: Bytes, s: seq<Bytes>, t: Bytes, p: Versionstamp, minLen: nat)
    requires 2 <= minLen <= |s| + 5
    ensures KeyOfType(PackIndexKey(ns, s, t, p), t, minLen)
  {
    var es := IndexElems(ns, s, t, p);
    assert |es| == |s| + 5 && es[|es| - 2] == Str(t);
  }

  lemma {:induction false} DiscoveryFinds(h: seq<Commit>, l: seq<Record>, ns: Bytes, s: seq<Bytes>, se: StoredEvent)
    returns (k: Bytes)
    requires Matches(h, l) && StrictlySorted(s) && RESERVED_TAG !in s
    requires DiscoveryRange(ns, s).Ok?
    requires se in LogOf(l, ns) && CarriesTags(se.event, s)
    ensures k in Replay(h) && InRange(k, DiscoveryRange(ns, s).value) && KeyOfType(k, se.event.typeName, |s| + 5)
  {
    var t, p := se.event.typeName, se.position;
    CanonicalFixpoint(s);
    CanonicalIndexed(s, se.event);
    IndexInvariant(h, l, ns, s, t, p);
    assert StoredEvent(se.event, p) == se;
    DiscoveryRangeExact(ns, s, s, t, p);
    k := PackIndexKey(ns, s, t, p);
    IndexKeyType(ns, s, t, p, |s| + 5);
  }

  // -------------------------------------------------------------------------
  // Ranges of a whole item
  // -------------------------------------------------------------------------

  /** Some index key written for event `e` at `p` falls into one of the ranges. */
  ghost predicate Touched(ns: Bytes, e: Event, p: Versionstamp, rs: seq<Range>) {
    exists s, r :: s in Subsets(Canonical(e.tags)) && r in rs && InRange(PackIndexKey(ns, s, e.typeName, p), r)
  }

  /** Some type of the list reaches type `u` at position `p` by its byte range. */
  ghost predicate Reached(types: seq<Bytes>, after: Option<Versionstamp>, u: Bytes, p: Versionstamp) {
    exists t :: t in types && ((u == t && After(p, after)) || NulExtends(u, t))
  }

  /**
   The index keys of an event meet the ranges of a list of types exactly when the
   event carries the tags and its type is reached. With no 0x00 continuation among
   the types this is: type listed, tags carried, position after the bound.
   */
  lemma {:induction false} TypedRangesExact(ns: Bytes, tags: seq<Bytes>, types: seq<Bytes>, after: Option<Versionstamp>,
        e: Event, p: Versionstamp)
    requires RESERVED_TAG !in tags && RESERVED_TAG !in e.tags
    ensures TypedRanges(ns, Canonical(tags), types, after).Ok?
    ensures Touched(ns, e, p, TypedRanges(ns, Canonical(tags), types, after).value) <==>
              CarriesTags(e, tags) && Reached(types, after, e.typeName, p)
  {
    var s := Canonical(tags);
    TypedRangesAre(ns, s, types, after);
    var rs := TypedRanges(ns, s, types, after).value;
    if Touched(ns, e, p, rs) {
      TouchedReaches(ns, tags, types, after, e, p);
    }
    if CarriesTags(e, tags) && Reached(types, after, e.typeName, p) {
      CanonicalIndexed(tags, e);
      var t :| t in types && ((e.typeName == t && After(p, after)) || NulExtends(e.typeName, t));
      var i :| 0 <= i < |types| && types[i] == t;
      TypedRangeExact(ns, s, t, after, s, e.typeName, p);
      assert rs[i] in rs && InRange(PackIndexKey(ns, s, e.typeName, p), rs[i]);
    }
  }

  lemma {:induction false} TouchedReaches(ns: Bytes, tags: seq<Bytes>, types: seq<Bytes>, after: Option<Versionstamp>,
        e: Event, p: Versionstamp)
    requires RESERVED_TAG !in tags && RESERVED_TAG !in e.tags
    requires TypedRanges(ns, Canonical(tags), types, after).Ok?
    requires Touched(ns, e, p, TypedRanges(ns, Canonical(tags), types, after).value)
    ensures CarriesTags(e, tags) && Reached(types, after, e.typeName, p)
  {
    var s := Canonical(tags);
    TypedRangesAre(ns, s, types, after);
    var rs := TypedRanges(ns, s, types, after).value;
    var s', r :| s' in Subsets(Canonical(e.tags)) && r in rs && InRange(PackIndexKey(ns, s', e.typeName, p), r);
    var i :| 0 <= i < |rs| && rs[i] == r;
    SubsetsUnreserved(e, s');
    TypedRangeExact(ns, s, types[i], after, s', e.typeName, p);
    CanonicalIndexed(tags, e);
    assert types[i] in types;
  }

  /** An event meets the discovery scan exactly when it carries the tags. */
  lemma {:induction false} DiscoveryTouched(ns: Bytes, tags: seq<Bytes>, e: Event, p: Versionstamp)
    requires RESERVED_TAG !in tags && RESERVED_TAG !in e.tags
    ensures DiscoveryRange(ns, Canonical(tags)).Ok?
    ensures Touched(ns, e, p, [DiscoveryRange(ns, Canonical(tags)).value]) <==> CarriesTags(e, tags)
  {
    var s := Canonical(tags);
    DiscoveryRangeExact(ns, s, s, e.typeName, p);
    var r := DiscoveryRange(ns, s).value;
    if s' :| s' in Subsets(Canonical(e.tags)) && InRange(PackIndexKey(ns, s', e.typeName, p), r) {
      SubsetsUnreserved(e, s');
      DiscoveryRangeExact(ns, s, s', e.typeName, p);
      LongerTagsCarried(tags, e, s');
    }
    if CarriesTags(e, tags) {
      CanonicalIndexed(tags, e);
      assert r in [r] && InRange(PackIndexKey(ns, s, e.typeName, p), r);
    }
  }

  lemma {:induction false} LongerTagsCarried(tags: seq<Bytes>, e: Event, s': seq<Bytes>)
    requires s' in Subsets(Canonical(e.tags)) && Canonical(tags) <= s'
    ensures CarriesTags(e, tags)
  {
    SubsetsArePowerset(Canonical(e.tags));
    forall t | t in tags ensures t in e.tags {
      assert t in Canonical(tags) && t in s';
    }
  }

  /** Every range of a valid item can be built. */
  lemma {:induction false} ItemRangesOk(h: seq<Commit>, l: seq<Record>, ns: Bytes, item: QueryItem,
        after: Option<Versionstamp>)
    requires Matches(h, l) && ValidItem(item)
    ensures EffectiveTypes(Replay(h), ns, item).Ok?
    ensures ItemRanges(Replay(h), ns, item, after).Ok?
    ensures ItemRanges(Replay(h), ns, item, after) ==
              TypedRanges(ns, Canonical(item.tags), EffectiveTypes(Replay(h), ns, item).value, after)
  {
    if item.types == [] {
      DiscoverExact(h, l, ns, Canonical(item.tags));
    }
    TypedRangesAre(ns, Canonical(item.tags), EffectiveTypes(Replay(h), ns, item).value, after);
  }

  /** Completeness: the ranges built at a snapshot meet every matching event of that snapshot. */
  lemma {:induction false} ItemRangesFind(h: seq<Commit>, l: seq<Record>, ns: Bytes, item: QueryItem,
        after: Option<Versionstamp>, se: StoredEvent)
    requires Matches(h, l) && ValidItem(item)
    requires se in LogOf(l, ns) && MatchesItem(se.event, item) && After(se.position, after)
    ensures ItemRanges(Replay(h), ns, item, after).Ok?
    ensures exists k, r :: r in ItemRanges(Replay(h), ns, item, after).value && k in Replay(h) && InRange(k, r)
  {
    ItemRangesOk(h, l, ns, item, after);
    var types := EffectiveTypes(Replay(h), ns, item).value;
    var e, p := se.event, se.position;
    if item.types == [] {
      DiscoverExact(h, l, ns, Canonical(item.tags));
    }
    assert e.typeName in types;
    assert Reached(types, after, e.typeName, p);
    LogValid(l, ns, se);
    TypedRangesExact(ns, item.tags, types, after, e, p);
    var s, r :| s in Subsets(Canonical(e.tags)) && r in ItemRanges(Replay(h), ns, item, after).value
                && InRange(PackIndexKey(ns, s, e.typeName, p), r);
    IndexInvariant(h, l, ns, s, e.typeName, p);
    assert StoredEvent(e, p) == se;
    assert PackIndexKey(ns, s, e.typeName, p) in Replay(h);
  }

  lemma {:induction false} LogValid(l: seq<Record>, ns: Bytes, se: StoredEvent)
    requires Ledgered(l) && se in LogOf(l, ns)
    ensures ValidEvent(se.event)
  {
    LogHas(l, ns, se);
    var j :| 0 <= j < |l| && se in RecordEvents(l[j], ns);
    var i :| 0 <= i < |l[j].events| && se == Batch(l[j].events, l[j].version)[i];
    assert l[j].events[i] in l[j].events;
  }

  // -------------------------------------------------------------------------
  // When byte ranges and queries agree
  // -------------------------------------------------------------------------

  /** The types an item stands for: those listed, or those found with its tags. */
  ghost predicate EffectiveName(log: seq<StoredEvent>, item: QueryItem, t: Bytes) {
    if item.types != [] then t in item.types
    else exists se :: se in log && se.event.typeName == t && CarriesTags(se.event, item.tags)
  }

  /** The effective types of an item, read from the store, are those of the log. */
  lemma {:induction false} EffectiveNames(h: seq<Commit>, l: seq<Record>, ns: Bytes, item: QueryItem)
    requires Matches(h, l) && ValidItem(item)
    ensures EffectiveTypes(Replay(h), ns, item).Ok?
    ensures forall t :: t in EffectiveTypes(Replay(h), ns, item).value <==> EffectiveName(LogOf(l, ns), item, t)
  {
    if item.types == [] {
      DiscoverExact(h, l, ns, Canonical(item.tags));
      assert forall e :: CarriesTags(e, Canonical(item.tags)) <==> CarriesTags(e, item.tags);
    }
  }

  /** No event of the log that carries the tags has a type that continues `t` with a 0x00 byte. */
  ghost predicate TypeApart(log: seq<StoredEvent>, tags: seq<Bytes>, t: Bytes) {
    forall se :: se in log && CarriesTags(se.event, tags) ==> !NulExtends(se.event.typeName, t)
  }

  /** The item's byte ranges hold no event of a longer type name. */
  ghost predicate ItemApart(log: seq<StoredEvent>, item: QueryItem) {
    forall t :: EffectiveName(log, item, t) ==> TypeApart(log, item.tags, t)
  }

  ghost predicate TypesApart(l: seq<Record>, ns: Bytes, q: Query) {
    forall item :: item in q.items ==> ItemApart(LogOf(l, ns), item)
  }

  /** An item that is apart in a log is apart in any part of it. */
  lemma {:induction false} ApartShrinks(log: seq<StoredEvent>, log': seq<StoredEvent>, item: QueryItem)
    requires ItemApart(log', item) && forall se :: se in log ==> se in log'
    ensures ItemApart(log, item)
  {
    forall t | EffectiveName(log, item, t) ensures TypeApart(log, item.tags, t) {
      assert EffectiveName(log', item, t);
    }
  }

  lemma {:induction false} TypesApartBefore(l: seq<Record>, n: nat, ns: Bytes, q: Query)
    requires n <= |l| && TypesApart(l, ns, q)
    ensures TypesApart(l[..n], ns, q)
  {
    LogPrefix(l, n, ns);
    forall item | item in q.items ensures ItemApart(LogOf(l[..n], ns), item) {
      ApartShrinks(LogOf(l[..n], ns), LogOf(l, ns), item);
    }
  }

  /** No logged name continues a queried one with a 0x00 byte. */
  ghost predicate NamesApart(logged: iset<Bytes>, queried: iset<Bytes>) {
    forall t, u :: t in queried && u in logged ==> !NulExtends(u, t)
  }

  lemma {:induction false} NulExtensionHasNul(u: Bytes, t: Bytes)
    requires NulExtends(u, t)
    ensures END in u
  {
    assert u[|t|] == (t + [END])[|t|] == END;
  }

  /** Logged names without 0x00 bytes are apart from all names. */
  lemma {:induction false} NulFreeApart(logged: iset<Bytes>, queried: iset<Bytes>)
    requires forall t :: t in logged ==> END !in t
    ensures NamesApart(logged, queried)
  {
    forall t, u | t in queried && u in logged ensures !NulExtends(u, t) {
      if NulExtends(u, t) {
        NulExtensionHasNul(u, t);
      }
    }
  }

  ghost predicate LogTypesIn(log: seq<StoredEvent>, names: iset<Bytes>) {
    forall se :: se in log ==> se.event.typeName in names
  }

  ghost predicate ItemTypesIn(log: seq<StoredEvent>, item: QueryItem, names: iset<Bytes>) {
    forall t :: EffectiveName(log, item, t) ==> t in names
  }

  lemma {:induction false} NamesApartItem(log: seq<StoredEvent>, item: QueryItem, logged: iset<Bytes>,
        queried: iset<Bytes>)
    requires NamesApart(logged, queried) && LogTypesIn(log, logged) && ItemTypesIn(log, item, queried)
    ensures ItemApart(log, item)
  {
    forall t | EffectiveName(log, item, t) ensures TypeApart(log, item.tags, t) {
      assert t in queried;
    }
  }

  /** With the item apart, its types reach exactly the events it matches, after the bound. */
  lemma {:induction false} ReachedApart(log: seq<StoredEvent>, item: QueryItem, types: seq<Bytes>,
        after: Option<Versionstamp>, se: StoredEvent)
    requires ItemApart(log, item) && se in log && CarriesTags(se.event, item.tags)
    requires forall t :: t in types <==> EffectiveName(log, item, t)
    ensures Reached(types, after, se.event.typeName, se.position) <==>
              se.event.typeName in types && After(se.position, after)
  {
    forall t | t in types ensures !NulExtends(se.event.typeName, t) {
      assert TypeApart(log, item.tags, t);
    }
  }
}

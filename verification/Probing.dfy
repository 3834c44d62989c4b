/**
 The probes of an append: what a set of conditions looks at, what a hit means, and
 what the recorded ranges protect.
 */
module Probing {
  import opened Bytes
  import opened Tuples
  import opened Types
  import opened Encoding
  import opened Kv
  import opened Ledger
  import opened Matching
  import Ranges
  import Reading

  /** One existence check: a query item with its bound. */
  datatype Probe = Probe(item: QueryItem, after: Option<Versionstamp>)

  function ItemProbes(items: seq<QueryItem>, after: Option<Versionstamp>): (r: seq<Probe>)
    ensures |r| == |items| && forall i :: 0 <= i < |items| ==> r[i] == Probe(items[i], after)
  {
    seq(|items|, i requires 0 <= i < |items| => Probe(items[i], after))
  }

  /** One probe per item of each condition. */
  function ProbesOf(conds: seq<AppendCondition>): seq<Probe> {
    if conds == [] then []
    else
      var n := |conds| - 1;
      ProbesOf(conds[..n]) + ItemProbes(conds[n].query.items, conds[n].after)
  }

  predicate ValidProbes(ps: seq<Probe>) {
    forall p :: p in ps ==> ValidItem(p.item)
  }

  /** A probe of the list belongs to a condition, and each item of a condition is probed. */
  lemma {:induction false} ProbesHave(conds: seq<AppendCondition>, p: Probe)
    ensures p in ProbesOf(conds) <==> exists c :: c in conds && p.item in c.query.items && p.after == c.after
  {
    if conds != [] {
      var n := |conds| - 1;
      var c := conds[n];
      assert conds == conds[..n] + [c];
      ProbesHave(conds[..n], p);
      var last := ItemProbes(c.query.items, c.after);
      if p.item in c.query.items && p.after == c.after {
        var i :| 0 <= i < |c.query.items| && c.query.items[i] == p.item;
        assert last[i] == p;
      }
      assert p in last <==> p.item in c.query.items && p.after == c.after;
    }
  }

  // -------------------------------------------------------------------------
  // What probes read
  // -------------------------------------------------------------------------

  /** The discovery scan, then one range per type. */
  function ProbeRanges(kv: Store, ns: Bytes, p: Probe): seq<Range> {
    var r := ItemRanges(kv, ns, p.item, p.after);
    ScannedRanges(ns, p.item) + if r.Ok? then r.value else []
  }

  function AllProbeRanges(kv: Store, ns: Bytes, ps: seq<Probe>): seq<Range> {
    if ps == [] then []
    else
      var n := |ps| - 1;
      AllProbeRanges(kv, ns, ps[..n]) + ProbeRanges(kv, ns, ps[n])
  }

  lemma {:induction false} AllProbeRangesHave(kv: Store, ns: Bytes, ps: seq<Probe>, r: Range)
    ensures r in AllProbeRanges(kv, ns, ps) <==> exists p :: p in ps && r in ProbeRanges(kv, ns, p)
  {
    if ps != [] {
      var n := |ps| - 1;
      assert ps == ps[..n] + [ps[n]];
      AllProbeRangesHave(kv, ns, ps[..n], r);
    }
  }

  /** Some key lies in one of the ranges. */
  ghost predicate Inhabited(kv: Store, rs: seq<Range>) {
    exists k, r :: r in rs && k in kv && InRange(k, r)
  }

  ghost predicate Hit(kv: Store, ns: Bytes, p: Probe) {
    var r := ItemRanges(kv, ns, p.item, p.after);
    r.Ok? && Inhabited(kv, r.value)
  }

  ghost predicate AnyHit(kv: Store, ns: Bytes, ps: seq<Probe>) {
    exists p :: p in ps && Hit(kv, ns, p)
  }

  // -------------------------------------------------------------------------
  // What probes mean for the log
  // -------------------------------------------------------------------------

  /** The byte range of type `t` reaches the event. */
  ghost predicate ReachedBy(t: Bytes, after: Option<Versionstamp>, se: StoredEvent) {
    (se.event.typeName == t && After(se.position, after)) || NulExtends(se.event.typeName, t)
  }

  ghost predicate BlockedBy(log: seq<StoredEvent>, p: Probe, se: StoredEvent) {
    CarriesTags(se.event, p.item.tags) && exists t :: EffectiveName(log, p.item, t) && ReachedBy(t, p.after, se)
  }

  /** An event of the log stands against the probe. */
  ghost predicate Blocks(log: seq<StoredEvent>, p: Probe) {
    exists se :: se in log && BlockedBy(log, p, se)
  }

  ghost predicate AnyBlocks(log: seq<StoredEvent>, ps: seq<Probe>) {
    exists p :: p in ps && Blocks(log, p)
  }

  /** A matching event after the bound always stands against the probe. */
  lemma {:induction false} MatchBlocks(log: seq<StoredEvent>, p: Probe, se: StoredEvent)
    requires se in log && MatchesItem(se.event, p.item) && After(se.position, p.after)
    ensures Blocks(log, p)
  {
    assert EffectiveName(log, p.item, se.event.typeName) && ReachedBy(se.event.typeName, p.after, se);
  }

  /** A matching event of the log after the bound. */
  ghost predicate FindsMatch(log: seq<StoredEvent>, p: Probe) {
    exists se :: se in log && MatchesItem(se.event, p.item) && After(se.position, p.after)
  }

  /**
   What stands against a probe, exactly: an event that the item matches after the
   bound, or an event with the item's tags whose type continues one of its types with
   a 0x00 byte.
   */
  lemma {:induction false} BlocksExact(log: seq<StoredEvent>, p: Probe)
    ensures Blocks(log, p) <==> FindsMatch(log, p) || !ItemApart(log, p.item)
  {
    if Blocks(log, p) {
      var se :| se in log && BlockedBy(log, p, se);
      var t :| EffectiveName(log, p.item, t) && ReachedBy(t, p.after, se);
      if ItemApart(log, p.item) {
        assert TypeApart(log, p.item.tags, t);
        assert MatchesItem(se.event, p.item);
      }
    }
    if se :| se in log && MatchesItem(se.event, p.item) && After(se.position, p.after) {
      MatchBlocks(log, p, se);
    }
    if !ItemApart(log, p.item) {
      ContinuationBlocks(log, p);
    }
  }

  lemma {:induction false} ContinuationBlocks(log: seq<StoredEvent>, p: Probe)
    requires !ItemApart(log, p.item)
    ensures Blocks(log, p)
  {
    var t :| EffectiveName(log, p.item, t) && !TypeApart(log, p.item.tags, t);
    var se :| se in log && CarriesTags(se.event, p.item.tags) && NulExtends(se.event.typeName, t);
    assert ReachedBy(t, p.after, se);
    assert BlockedBy(log, p, se);
  }

  /** More events never lift a block. */
  lemma {:induction false} BlocksGrow(log: seq<StoredEvent>, log': seq<StoredEvent>, p: Probe)
    requires Blocks(log, p) && forall se :: se in log ==> se in log'
    ensures Blocks(log', p)
  {
    var se :| se in log && BlockedBy(log, p, se);
    var t :| EffectiveName(log, p.item, t) && ReachedBy(t, p.after, se);
    assert EffectiveName(log', p.item, t);
    assert BlockedBy(log', p, se);
  }

  /** A probe finds a key exactly when an event of the log stands against it. */
  lemma {:induction false} HitExact(h: seq<Commit>, l: seq<Record>, ns: Bytes, p: Probe)
    requires Matches(h, l) && ValidItem(p.item)
    ensures ItemRanges(Replay(h), ns, p.item, p.after).Ok?
    ensures Hit(Replay(h), ns, p) <==> Blocks(LogOf(l, ns), p)
  {
    ItemRangesOk(h, l, ns, p.item, p.after);
    EffectiveNames(h, l, ns, p.item);
    if Hit(Replay(h), ns, p) {
      HitBlocks(h, l, ns, p);
    }
    if Blocks(LogOf(l, ns), p) {
      BlocksHit(h, l, ns, p);
    }
  }

  lemma {:induction false} HitBlocks(h: seq<Commit>, l: seq<Record>, ns: Bytes, p: Probe)
    requires Matches(h, l) && ValidItem(p.item) && Hit(Replay(h), ns, p)
    ensures Blocks(LogOf(l, ns), p)
  {
    ItemRangesOk(h, l, ns, p.item, p.after);
    EffectiveNames(h, l, ns, p.item);
    var s, types := Canonical(p.item.tags), EffectiveTypes(Replay(h), ns, p.item).value;
    var k, r :| r in ItemRanges(Replay(h), ns, p.item, p.after).value && k in Replay(h) && InRange(k, r);
    TypedRangesAre(ns, s, types, p.after);
    var i :| 0 <= i < |types| && Ranges.TypedRange(ns, s, types[i], p.after) == Ok(r);
    var se := TypedRangeReads(h, l, ns, s, types[i], p.after, k);
    assert types[i] in types && EffectiveName(LogOf(l, ns), p.item, types[i]) && ReachedBy(types[i], p.after, se);
    assert BlockedBy(LogOf(l, ns), p, se);
  }

  lemma {:induction false} BlocksHit(h: seq<Commit>, l: seq<Record>, ns: Bytes, p: Probe)
    requires Matches(h, l) && ValidItem(p.item) && Blocks(LogOf(l, ns), p)
    ensures Hit(Replay(h), ns, p)
  {
    ItemRangesOk(h, l, ns, p.item, p.after);
    EffectiveNames(h, l, ns, p.item);
    var types := EffectiveTypes(Replay(h), ns, p.item).value;
    var se :| se in LogOf(l, ns) && BlockedBy(LogOf(l, ns), p, se);
    var t :| EffectiveName(LogOf(l, ns), p.item, t) && ReachedBy(t, p.after, se);
    assert t in types;
    assert Reached(types, p.after, se.event.typeName, se.position);
    LogValid(l, ns, se);
    TypedRangesExact(ns, p.item.tags, types, p.after, se.event, se.position);
    var s, r :| s in Subsets(Canonical(se.event.tags)) && r in ItemRanges(Replay(h), ns, p.item, p.after).value
                && InRange(PackIndexKey(ns, s, se.event.typeName, se.position), r);
    IndexInvariant(h, l, ns, s, se.event.typeName, se.position);
    assert StoredEvent(se.event, se.position) == se;
    assert PackIndexKey(ns, s, se.event.typeName, se.position) in Replay(h);
  }

  /** Some condition selects an event of the log. */
  ghost predicate SomeSelected(log: seq<StoredEvent>, conds: seq<AppendCondition>) {
    exists c, se :: c in conds && se in log && Selects(c.query, c.after, se)
  }

  ghost predicate CondsApart(log: seq<StoredEvent>, conds: seq<AppendCondition>) {
    forall c, item :: c in conds && item in c.query.items ==> ItemApart(log, item)
  }

  /** An event that a condition selects stands against one of the probes. */
  lemma {:induction false} SelectedBlocks(log: seq<StoredEvent>, conds: seq<AppendCondition>)
    requires SomeSelected(log, conds)
    ensures AnyBlocks(log, ProbesOf(conds))
  {
    var c, se :| c in conds && se in log && Selects(c.query, c.after, se);
    var item :| item in c.query.items && MatchesItem(se.event, item);
    var p := Probe(item, c.after);
    ProbesHave(conds, p);
    MatchBlocks(log, p, se);
  }

  /**
   The probes check the conditions: something stands against them exactly when some
   condition selects an event of the log, or an item is not apart in it.
   */
  lemma {:induction false} ConditionsExact(log: seq<StoredEvent>, conds: seq<AppendCondition>)
    ensures AnyBlocks(log, ProbesOf(conds)) <==> SomeSelected(log, conds) || !CondsApart(log, conds)
  {
    if SomeSelected(log, conds) {
      SelectedBlocks(log, conds);
    }
    if !CondsApart(log, conds) {
      var c, item :| c in conds && item in c.query.items && !ItemApart(log, item);
      ProbesHave(conds, Probe(item, c.after));
      BlocksExact(log, Probe(item, c.after));
    }
    if AnyBlocks(log, ProbesOf(conds)) {
      BlockedConditions(log, conds);
    }
  }

  lemma {:induction false} BlockedConditions(log: seq<StoredEvent>, conds: seq<AppendCondition>)
    requires AnyBlocks(log, ProbesOf(conds))
    ensures SomeSelected(log, conds) || !CondsApart(log, conds)
  {
    var p :| p in ProbesOf(conds) && Blocks(log, p);
    ProbesHave(conds, p);
    var c :| c in conds && p.item in c.query.items && p.after == c.after;
    BlocksExact(log, p);
    if se :| se in log && MatchesItem(se.event, p.item) && After(se.position, p.after) {
      assert Selects(c.query, c.after, se);
    }
  }

  // -------------------------------------------------------------------------
  // What the recorded ranges protect
  // -------------------------------------------------------------------------

  /** Committing the event conflicts with a transaction that made the probe: its tags are
      there, and its type is reached, except that a tags-only probe has no bound. */
  ghost predicate Disturbs(se: StoredEvent, p: Probe) {
    CarriesTags(se.event, p.item.tags)
        && (p.item.types == [] || Reached(p.item.types, p.after, se.event.typeName, se.position))
  }

  /** Record `rec` writes into one of the ranges. */
  ghost predicate WritesInto(rec: Record, rs: seq<Range>) {
    exists k, r :: k in Writes(rec) && r in rs && InRange(k, r)
  }

  lemma {:induction false} LoneRecordMatches(rec: Record, ns: Bytes)
    requires ValidRecord(rec)
    ensures Matches([CommitOf(rec)], [rec])
    ensures Replay([CommitOf(rec)]) == Writes(rec)
    ensures LogOf([rec], ns) == RecordEvents(rec, ns)
  {
    assert [CommitOf(rec)][..0] == [] && Replay([CommitOf(rec)][..0]) == map[];
    assert [rec][..0] == [] && LogOf([rec][..0], ns) == [];
  }

  /** Touching index keys of an event of the record is writing into the ranges. */
  lemma {:induction false} TouchedWrites(rec: Record, ns: Bytes, se: StoredEvent, rs: seq<Range>)
    requires se in RecordEvents(rec, ns) && Touched(ns, se.event, se.position, rs)
    ensures WritesInto(rec, rs)
  {
    var s, r :| s in Subsets(Canonical(se.event.tags)) && r in rs
                && InRange(PackIndexKey(ns, s, se.event.typeName, se.position), r);
    assert StoredEvent(se.event, se.position) == se && Stores(rec, ns, se.event, se.position);
    RecordIndexKey(rec, ns, s, se.event.typeName, se.position);
    assert PackIndexKey(ns, s, se.event.typeName, se.position) in Writes(rec);
  }

  lemma {:induction false} RecordEventValid(rec: Record, ns: Bytes, se: StoredEvent)
    requires ValidRecord(rec) && se in RecordEvents(rec, ns)
    ensures ValidEvent(se.event)
  {
    LoneRecordMatches(rec, ns);
    LogValid([rec], ns, se);
  }

  /** A disturbing event writes into the ranges that the probe recorded. */
  lemma {:induction false} DisturbsWrites(h: seq<Commit>, l: seq<Record>, ns: Bytes, p: Probe, rec: Record,
        se: StoredEvent)
    requires Matches(h, l) && ValidItem(p.item) && ValidRecord(rec)
    requires se in RecordEvents(rec, ns) && Disturbs(se, p)
    ensures WritesInto(rec, ProbeRanges(Replay(h), ns, p))
  {
    RecordEventValid(rec, ns, se);
    ItemRangesOk(h, l, ns, p.item, p.after);
    var rs := ProbeRanges(Replay(h), ns, p);
    var part: seq<Range>;
    if p.item.types == [] {
      DiscoveryTouched(ns, p.item.tags, se.event, se.position);
      part := [Ranges.DiscoveryRange(ns, Canonical(p.item.tags)).value];
      assert part == ScannedRanges(ns, p.item);
    } else {
      TypedRangesExact(ns, p.item.tags, p.item.types, p.after, se.event, se.position);
      part := ItemRanges(Replay(h), ns, p.item, p.after).value;
    }
    TouchedWrites(rec, ns, se, part);
    var k, r :| k in Writes(rec) && r in part && InRange(k, r);
    assert r in rs;
  }

  /** A key of the record in the discovery range is the key of an event with the tags. */
  lemma {:induction false} ScannedWrite(ns: Bytes, p: Probe, rec: Record, k: Bytes, r: Range)
    returns (se: StoredEvent)
    requires ValidItem(p.item) && ValidRecord(rec) && k in Writes(rec)
    requires r in ScannedRanges(ns, p.item) && InRange(k, r)
    ensures se in RecordEvents(rec, ns) && Disturbs(se, p)
  {
    LoneRecordMatches(rec, ns);
    se := DiscoveryReads([CommitOf(rec)], [rec], ns, Canonical(p.item.tags), k);
  }

  /** A key of the record in a typed range is the key of an event that reaches the type. */
  lemma {:induction false} TypedWrite(ns: Bytes, p: Probe, rec: Record, k: Bytes, t: Bytes) returns (se: StoredEvent)
    requires ValidItem(p.item) && ValidRecord(rec) && k in Writes(rec) && (p.item.types != [] ==> t in p.item.types)
    requires Ranges.TypedRange(ns, Canonical(p.item.tags), t, p.after).Ok?
    requires InRange(k, Ranges.TypedRange(ns, Canonical(p.item.tags), t, p.after).value)
    ensures se in RecordEvents(rec, ns) && Disturbs(se, p)
  {
    LoneRecordMatches(rec, ns);
    se := TypedRangeReads([CommitOf(rec)], [rec], ns, Canonical(p.item.tags), t, p.after, k);
  }

  /** Each range of an item is the range of one of its effective types. */
  lemma {:induction false} TypeOfRange(h: seq<Commit>, l: seq<Record>, ns: Bytes, p: Probe, r: Range) returns (t: Bytes)
    requires Matches(h, l) && ValidItem(p.item)
    requires ItemRanges(Replay(h), ns, p.item, p.after).Ok? && r in ItemRanges(Replay(h), ns, p.item, p.after).value
    ensures p.item.types != [] ==> t in p.item.types
    ensures Ranges.TypedRange(ns, Canonical(p.item.tags), t, p.after) == Ok(r)
  {
    ItemRangesOk(h, l, ns, p.item, p.after);
    var types := EffectiveTypes(Replay(h), ns, p.item).value;
    TypedRangesAre(ns, Canonical(p.item.tags), types, p.after);
    var i :| 0 <= i < |types| && Ranges.TypedRange(ns, Canonical(p.item.tags), types[i], p.after) == Ok(r);
    t := types[i];
  }

  /** Only a disturbing event does. */
  lemma {:induction false} WritesDisturb(h: seq<Commit>, l: seq<Record>, ns: Bytes, p: Probe, rec: Record)
    returns (se: StoredEvent)
    requires Matches(h, l) && ValidItem(p.item) && ValidRecord(rec)
    requires WritesInto(rec, ProbeRanges(Replay(h), ns, p))
    ensures se in RecordEvents(rec, ns) && Disturbs(se, p)
  {
    var k, r :| k in Writes(rec) && r in ProbeRanges(Replay(h), ns, p) && InRange(k, r);
    if r in ScannedRanges(ns, p.item) {
      se := ScannedWrite(ns, p, rec, k, r);
    } else {
      ItemRangesOk(h, l, ns, p.item, p.after);
      var t := TypeOfRange(h, l, ns, p, r);
      se := TypedWrite(ns, p, rec, k, t);
    }
  }

  /** From ledger index `n` on, some event disturbs one of the probes. */
  ghost predicate Disturbed(l: seq<Record>, n: nat, ns: Bytes, ps: seq<Probe>) {
    exists j, se, p :: n <= j < |l| && se in RecordEvents(l[j], ns) && p in ps && Disturbs(se, p)
  }

  lemma {:induction false} ConflictDisturbs(h: seq<Commit>, l: seq<Record>, n: nat, ns: Bytes, ps: seq<Probe>)
    requires Matches(h, l) && n <= |h| && ValidProbes(ps)
    requires Conflicts(h, n, AllProbeRanges(Replay(h[..n]), ns, ps))
    ensures Disturbed(l, n, ns, ps)
  {
    var kv := Replay(h[..n]);
    MatchesPrefix(h, l, n);
    var j, k, r :| n <= j < |h| && k in h[j].writes && r in AllProbeRanges(kv, ns, ps) && InRange(k, r);
    AllProbeRangesHave(kv, ns, ps, r);
    var p :| p in ps && r in ProbeRanges(kv, ns, p);
    var se := WritesDisturb(h[..n], l[..n], ns, p, l[j]) by {
      assert k in Writes(l[j]) && r in ProbeRanges(kv, ns, p) && InRange(k, r);
    }
  }

  lemma {:induction false} DisturbanceConflicts(h: seq<Commit>, l: seq<Record>, n: nat, ns: Bytes, ps: seq<Probe>)
    requires Matches(h, l) && n <= |h| && ValidProbes(ps) && Disturbed(l, n, ns, ps)
    ensures Conflicts(h, n, AllProbeRanges(Replay(h[..n]), ns, ps))
  {
    var kv := Replay(h[..n]);
    MatchesPrefix(h, l, n);
    var j, se, p :| n <= j < |l| && se in RecordEvents(l[j], ns) && p in ps && Disturbs(se, p);
    DisturbsWrites(h[..n], l[..n], ns, p, l[j], se);
    var k, r :| k in Writes(l[j]) && r in ProbeRanges(kv, ns, p) && InRange(k, r);
    AllProbeRangesHave(kv, ns, ps, r);
    assert k in h[j].writes;
  }

  /**
   Conflict detection is complete and precise: a later commit falls into the ranges
   recorded at version `n` exactly when one of its events disturbs a probe.
   */
  lemma {:induction false} ConflictExact(h: seq<Commit>, l: seq<Record>, n: nat, ns: Bytes, ps: seq<Probe>)
    requires Matches(h, l) && n <= |h| && ValidProbes(ps)
    ensures Conflicts(h, n, AllProbeRanges(Replay(h[..n]), ns, ps)) <==> Disturbed(l, n, ns, ps)
  {
    if Disturbed(l, n, ns, ps) {
      DisturbanceConflicts(h, l, n, ns, ps);
    } else if Conflicts(h, n, AllProbeRanges(Replay(h[..n]), ns, ps)) {
      ConflictDisturbs(h, l, n, ns, ps);
    }
  }

  /** Without a disturbance since `n`, what stands against a probe stood against it at `n`. */
  lemma {:induction false} BlockedBefore(l: seq<Record>, n: nat, ns: Bytes, ps: seq<Probe>, p: Probe)
    requires n <= |l| && p in ps && Blocks(LogOf(l, ns), p) && !Disturbed(l, n, ns, ps)
    ensures Blocks(LogOf(l[..n], ns), p)
  {
    var before, now := LogOf(l[..n], ns), LogOf(l, ns);
    var se :| se in now && BlockedBy(now, p, se);
    var t :| EffectiveName(now, p.item, t) && ReachedBy(t, p.after, se);
    Undisturbed(l, n, ns, ps, p, se);
    if p.item.types == [] {
      var se' :| se' in now && se'.event.typeName == t && CarriesTags(se'.event, p.item.tags);
      Undisturbed(l, n, ns, ps, p, se');
    }
    assert EffectiveName(before, p.item, t);
    assert BlockedBy(before, p, se);
  }

  /** An event of the log that could disturb the probe was there before. */
  lemma {:induction false} Undisturbed(l: seq<Record>, n: nat, ns: Bytes, ps: seq<Probe>, p: Probe, se: StoredEvent)
    requires n <= |l| && p in ps && !Disturbed(l, n, ns, ps) && se in LogOf(l, ns)
    ensures Disturbs(se, p) ==> se in LogOf(l[..n], ns)
  {
    if se !in LogOf(l[..n], ns) {
      LogSuffix(l, n, ns, se);
      var j :| n <= j < |l| && se in RecordEvents(l[j], ns);
    }
  }

  /**
   The optimistic check is an atomic one: if the probes found nothing at their read
   version and no later commit conflicts, nothing stands against them at commit.
   */
  lemma {:induction false} OptimisticCheck(h: seq<Commit>, l: seq<Record>, n: nat, ns: Bytes, ps: seq<Probe>)
    requires Matches(h, l) && n <= |h| && ValidProbes(ps)
    requires !AnyHit(Replay(h[..n]), ns, ps)
    requires !Conflicts(h, n, AllProbeRanges(Replay(h[..n]), ns, ps))
    ensures !AnyBlocks(LogOf(l, ns), ps)
  {
    ConflictExact(h, l, n, ns, ps);
    MatchesPrefix(h, l, n);
    forall p | p in ps ensures !Blocks(LogOf(l, ns), p) {
      HitExact(h[..n], l[..n], ns, p);
      if Blocks(LogOf(l, ns), p) {
        BlockedBefore(l, n, ns, ps, p);
      }
    }
  }

  /** The bound lies below everything that is appended from index `n` on. */
  ghost predicate BoundBelow(l: seq<Record>, n: nat, ns: Bytes, p: Probe) {
    forall j, se :: n <= j < |l| && se in RecordEvents(l[j], ns) ==> After(se.position, p.after)
  }

  /** A position that is in the log already is such a bound. */
  lemma {:induction false} LoggedBoundBelow(l: seq<Record>, n: nat, ns: Bytes, p: Probe)
    requires Ledgered(l) && n <= |l|
    requires p.after.Some? ==> Reading.IsLogged(l[..n], ns, p.after.value)
    ensures BoundBelow(l, n, ns, p)
  {
    if p.after.Some? {
      var se0 :| se0 in LogOf(l[..n], ns) && se0.position == p.after.value;
      forall j, se | n <= j < |l| && se in RecordEvents(l[j], ns) ensures After(se.position, p.after) {
        RecordAfter(l, n, ns, j, se0, se);
      }
    }
  }

  /** A tags-only probe is disturbed by an event that does not lie after its bound:
      the discovery scan that it recorded has no bound. */
  ghost predicate Overcautious(l: seq<Record>, n: nat, ns: Bytes, ps: seq<Probe>) {
    exists j, se, p :: n <= j < |l| && se in RecordEvents(l[j], ns) && p in ps && p.item.types == []
                       && CarriesTags(se.event, p.item.tags) && !After(se.position, p.after)
  }

  /** Bounds of tags-only probes that lie below what is appended later are never overcautious. */
  lemma {:induction false} BelowNotOvercautious(l: seq<Record>, n: nat, ns: Bytes, ps: seq<Probe>)
    requires forall p :: p in ps && p.item.types == [] ==> BoundBelow(l, n, ns, p)
    ensures !Overcautious(l, n, ns, ps)
  {
  }

  /**
   When a transaction whose probes found nothing conflicts: exactly when, by now, an
   event stands against one of its probes, or a tags-only probe was overcautious.
   Otherwise independent writers never abort each other.
   */
  lemma {:induction false} ConflictIffBlocked(h: seq<Commit>, l: seq<Record>, n: nat, ns: Bytes, ps: seq<Probe>)
    requires Matches(h, l) && n <= |h| && ValidProbes(ps)
    requires !AnyHit(Replay(h[..n]), ns, ps)
    ensures Conflicts(h, n, AllProbeRanges(Replay(h[..n]), ns, ps)) <==>
              AnyBlocks(LogOf(l, ns), ps) || Overcautious(l, n, ns, ps)
  {
    ConflictExact(h, l, n, ns, ps);
    if Disturbed(l, n, ns, ps) {
      DisturbedBlocks(l, n, ns, ps);
    } else {
      OptimisticCheck(h, l, n, ns, ps);
    }
    if Overcautious(l, n, ns, ps) {
      OvercautiousDisturbed(l, n, ns, ps);
    }
  }

  lemma {:induction false} OvercautiousDisturbed(l: seq<Record>, n: nat, ns: Bytes, ps: seq<Probe>)
    requires Overcautious(l, n, ns, ps)
    ensures Disturbed(l, n, ns, ps)
  {
    var j, se, p :| n <= j < |l| && se in RecordEvents(l[j], ns) && p in ps && p.item.types == []
                    && CarriesTags(se.event, p.item.tags) && !After(se.position, p.after);
    assert Disturbs(se, p);
  }

  lemma {:induction false} DisturbedBlocks(l: seq<Record>, n: nat, ns: Bytes, ps: seq<Probe>)
    requires Disturbed(l, n, ns, ps)
    ensures AnyBlocks(LogOf(l, ns), ps) || Overcautious(l, n, ns, ps)
  {
    var j, se, p :| n <= j < |l| && se in RecordEvents(l[j], ns) && p in ps && Disturbs(se, p);
    LogHas(l, ns, se);
    if p.item.types != [] || After(se.position, p.after) {
      DisturbsBlocks(LogOf(l, ns), p, se);
    }
  }

  lemma {:induction false} DisturbsBlocks(log: seq<StoredEvent>, p: Probe, se: StoredEvent)
    requires se in log && Disturbs(se, p) && (p.item.types == [] ==> After(se.position, p.after))
    ensures Blocks(log, p)
  {
    var t := se.event.typeName;
    if p.item.types == [] {
      assert EffectiveName(log, p.item, t) && ReachedBy(t, p.after, se);
    } else {
      var u :| u in p.item.types && ((t == u && After(se.position, p.after)) || NulExtends(t, u));
      assert EffectiveName(log, p.item, u) && ReachedBy(u, p.after, se);
    }
    assert BlockedBy(log, p, se);
  }

  /**
   In terms of queries: an append whose probes found nothing conflicts exactly when, by
   now, one of its conditions selects an event, unless an item is not apart in the log
   or a tags-only item has a bound ahead of it. This is the byte-level, concurrent form
   of "conflict if and only if match".
   */
  lemma {:induction false} ConflictIffSelected(h: seq<Commit>, l: seq<Record>, n: nat, ns: Bytes,
        conds: seq<AppendCondition>)
    requires Matches(h, l) && n <= |h| && ValidProbes(ProbesOf(conds))
    requires !AnyHit(Replay(h[..n]), ns, ProbesOf(conds))
    ensures Conflicts(h, n, AllProbeRanges(Replay(h[..n]), ns, ProbesOf(conds))) <==>
              || SomeSelected(LogOf(l, ns), conds)
              || !CondsApart(LogOf(l, ns), conds)
              || Overcautious(l, n, ns, ProbesOf(conds))
  {
    ConflictIffBlocked(h, l, n, ns, ProbesOf(conds));
    ConditionsExact(LogOf(l, ns), conds);
  }

  lemma {:induction false} NothingToHit(ns: Bytes, p: Probe)
    requires ValidItem(p.item)
    ensures !AnyHit(map[], ns, [p])
  {
    HitExact([], [], ns, p);
  }

  /** A first append of one event. */
  lemma {:induction false} FirstAppend(ns: Bytes, e: Event)
    requires ValidEvent(e)
    ensures var rec, se := Appended(ns, [e], 0), StoredEvent(e, Position(0, 0));
            Matches([CommitOf(rec)], [rec]) && RecordEvents(rec, ns) == [se] == LogOf([rec], ns)
  {
    LoneRecordMatches(Appended(ns, [e], 0), ns);
  }

  /** A tags-only probe is blocked by a lone event only after its bound. */
  lemma {:induction false} LoneBlocks(se: StoredEvent, p: Probe)
    requires p.item.types == [] && !After(se.position, p.after)
    ensures !AnyBlocks([se], [p])
  {
    forall t | EffectiveName([se], p.item, t) ensures TypeApart([se], p.item.tags, t) {
      assert t == se.event.typeName;
    }
    BlocksExact([se], p);
  }

  /**
   An overcautious conflict: nothing in an empty database is found by a tags-only probe
   with the bound (5, 0), then an event with its tag commits at version 0. The event lies
   before the bound, so nothing stands against the probe, and yet the commit conflicts.
   */
  lemma {:induction false} FalseConflict(ns: Bytes, tag: Bytes, e: Event)
    requires ValidEvent(e) && tag in e.tags
    ensures var p, rec := Probe(QueryItem([], [tag]), Some(Position(5, 0))), Appended(ns, [e], 0);
            && Matches([CommitOf(rec)], [rec])
            && !AnyHit(map[], ns, [p]) && !AnyBlocks(LogOf([rec], ns), [p])
            && Conflicts([CommitOf(rec)], 0, AllProbeRanges(map[], ns, [p]))
  {
    var p, rec := Probe(QueryItem([], [tag]), Some(Position(5, 0))), Appended(ns, [e], 0);
    var se := StoredEvent(e, Position(0, 0));
    FirstAppend(ns, e);
    NothingToHit(ns, p);
    PositionOrder(0, 0, 5, 0);
    LessAsymmetric(se.position, Position(5, 0));
    LoneBlocks(se, p);
    OneDisturbance(rec, ns, p, se);
  }

  lemma {:induction false} OneDisturbance(rec: Record, ns: Bytes, p: Probe, se: StoredEvent)
    requires ValidRecord(rec) && ValidItem(p.item) && se in RecordEvents(rec, ns) && Disturbs(se, p)
    ensures Conflicts([CommitOf(rec)], 0, AllProbeRanges(map[], ns, [p]))
  {
    LoneRecordMatches(rec, ns);
    var h, l := [CommitOf(rec)], [rec];
    assert h[..0] == [] && Replay(h[..0]) == map[];
    assert se in RecordEvents(l[0], ns) && p in [p];
    ConflictExact(h, l, 0, ns, [p]);
  }
}

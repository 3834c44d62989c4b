/**
 What the store's transactions leave in the database. The ledger lists the
 committed operations; the log of a namespace is the sequence of its events.
 */
module Ledger {
  import opened Bytes
  import opened Tuples
  import opened Types
  import opened Encoding
  import opened Kv

  datatype Record =
    | Appended(ns: Bytes, events: seq<Event>, version: nat)
    | CursorSet(ns: Bytes, name: Bytes, position: Versionstamp, version: nat)

  // -------------------------------------------------------------------------
  // Writes
  // -------------------------------------------------------------------------

  function SubsetKeys(ns: Bytes, subsets: seq<seq<Bytes>>, t: Bytes, p: Versionstamp): set<Bytes> {
    set s | s in subsets :: PackIndexKey(ns, s, t, p)
  }

  function IndexKeys(ns: Bytes, e: Event, p: Versionstamp): set<Bytes> {
    SubsetKeys(ns, Subsets(Canonical(e.tags)), e.typeName, p)
  }

  /** The primary key and one index key per subset of the event's tags. */
  function EventWrites(ns: Bytes, e: Event, p: Versionstamp): map<Bytes, Bytes> {
    (map k | k in IndexKeys(ns, e, p) :: [])[PackEventKey(ns, p) := EncodeEventValue(e)]
  }

  function BatchWrites(ns: Bytes, events: seq<Event>, version: nat): map<Bytes, Bytes> {
    if events == [] then map[]
    else
      var n := |events| - 1;
      BatchWrites(ns, events[..n], version) + EventWrites(ns, events[n], Position(version, n))
  }

  /** Ten bytes of transaction version and two of zero. */
  function SentinelValue(version: nat): Bytes {
    BigEndian(version, 10) + [0, 0]
  }

  function Writes(rec: Record): map<Bytes, Bytes> {
    match rec
    case Appended(ns, events, version) =>
      BatchWrites(ns, events, version)[PackSentinelKey(ns) := SentinelValue(version)]
    case CursorSet(ns, name, position, _) => map[PackCursorKey(ns, name) := position]
  }

  function CommitOf(rec: Record): Commit {
    Commit(rec.version, Writes(rec))
  }

  predicate ValidEvent(e: Event) {
    e.typeName != [] && |e.tags| <= 10 && RESERVED_TAG !in e.tags
  }

  predicate ValidRecord(rec: Record) {
    && IsTxVersion(rec.version)
    && (rec.Appended? ==> 0 < |rec.events| <= MAX_BATCH && forall e :: e in rec.events ==> ValidEvent(e))
  }

  /** The history is the bytes of the ledger, at strictly increasing versions. */
  ghost predicate Matches(h: seq<Commit>, l: seq<Record>) {
    && |h| == |l|
    && (forall i :: 0 <= i < |l| ==> h[i] == CommitOf(l[i]))
    && (forall i :: 0 <= i < |l| ==> ValidRecord(l[i]))
    && (forall i, j :: 0 <= i < j < |l| ==> l[i].version < l[j].version)
  }

  lemma {:induction false} MatchesPrefix(h: seq<Commit>, l: seq<Record>, n: nat)
    requires Matches(h, l) && n <= |h|
    ensures Matches(h[..n], l[..n])
  {
  }

  /** One more valid record at a later version. */
  lemma {:induction false} MatchesExtend(h: seq<Commit>, l: seq<Record>, rec: Record)
    requires Matches(h, l) && ValidRecord(rec)
    requires l != [] ==> l[|l| - 1].version < rec.version
    ensures Matches(h + [CommitOf(rec)], l + [rec])
  {
    var n, h', l' := |l|, h + [CommitOf(rec)], l + [rec];
    assert h'[n] == CommitOf(rec) && l'[n] == rec;
    assert forall i :: 0 <= i < n ==> h'[i] == h[i] && l'[i] == l[i];
    VersionsExtend(l, rec);
  }

  lemma {:induction false} VersionsExtend(l: seq<Record>, rec: Record)
    requires forall i, j :: 0 <= i < j < |l| ==> l[i].version < l[j].version
    requires l != [] ==> l[|l| - 1].version < rec.version
    ensures var l' := l + [rec]; forall i, j :: 0 <= i < j < |l'| ==> l'[i].version < l'[j].version
  {
  }

  // -------------------------------------------------------------------------
  // The log
  // -------------------------------------------------------------------------

  function Batch(events: seq<Event>, version: nat): seq<StoredEvent> {
    seq(|events|, i requires 0 <= i < |events| => StoredEvent(events[i], Position(version, i)))
  }

  function RecordEvents(rec: Record, ns: Bytes): seq<StoredEvent> {
    if rec.Appended? && rec.ns == ns then Batch(rec.events, rec.version) else []
  }

  function LogOf(l: seq<Record>, ns: Bytes): seq<StoredEvent> {
    if l == [] then [] else LogOf(l[..|l| - 1], ns) + RecordEvents(l[|l| - 1], ns)
  }

  /** What an append adds to the log: its events in their order, numbered from 0. */
  lemma {:induction false} AppendedLog(l: seq<Record>, ns: Bytes, events: seq<Event>, version: nat)
    ensures var log, more := LogOf(l, ns), LogOf(l + [Appended(ns, events, version)], ns);
            && log <= more && |more| == |log| + |events|
            && forall i :: 0 <= i < |events| ==>
                 && more[|log| + i].event == events[i]
                 && more[|log| + i].position == BigEndian(version, 10) + BigEndian(i, 2)
  {
    var rec := Appended(ns, events, version);
    assert (l + [rec])[..|l|] == l;
    assert LogOf(l + [rec], ns) == LogOf(l, ns) + Batch(events, version);
  }

  lemma {:induction false} LogHas(l: seq<Record>, ns: Bytes, se: StoredEvent)
    ensures se in LogOf(l, ns) <==> exists j :: 0 <= j < |l| && se in RecordEvents(l[j], ns)
  {
    if l != [] {
      var n := |l| - 1;
      LogHas(l[..n], ns, se);
      assert forall j :: 0 <= j < n ==> l[..n][j] == l[j];
    }
  }

  lemma {:induction false} LogPrefix(l: seq<Record>, n: nat, ns: Bytes)
    requires n <= |l|
    ensures LogOf(l[..n], ns) <= LogOf(l, ns)
    decreases |l|
  {
    if n == |l| {
      assert l[..n] == l;
    } else {
      var m := |l| - 1;
      LogPrefix(l[..m], n, ns);
      assert l[..m][..n] == l[..n];
    }
  }

  /** Events after index `n` come from records after index `n`. */
  lemma {:induction false} LogSuffix(l: seq<Record>, n: nat, ns: Bytes, se: StoredEvent)
    requires n <= |l| && se in LogOf(l, ns) && se !in LogOf(l[..n], ns)
    ensures exists j :: n <= j < |l| && se in RecordEvents(l[j], ns)
  {
    LogHas(l, ns, se);
    LogHas(l[..n], ns, se);
    assert forall j :: 0 <= j < n ==> l[..n][j] == l[j];
  }

  function Positions(s: seq<StoredEvent>): (r: seq<Bytes>)
    ensures |r| == |s|
  {
    seq(|s|, i requires 0 <= i < |s| => s[i].position)
  }

  ghost predicate Ledgered(l: seq<Record>) {
    && (forall i :: 0 <= i < |l| ==> ValidRecord(l[i]))
    && (forall i, j :: 0 <= i < j < |l| ==> l[i].version < l[j].version)
  }

  /** Everything logged so far lies below any position of a later version. */
  lemma {:induction false} LogBelow(l: seq<Record>, ns: Bytes, version: nat, k: nat)
    requires Ledgered(l) && IsTxVersion(version) && k <= MAX_BATCH
    requires forall i :: 0 <= i < |l| ==> l[i].version < version
    ensures forall se :: se in LogOf(l, ns) ==> Less(se.position, Position(version, k))
  {
    forall se | se in LogOf(l, ns) ensures Less(se.position, Position(version, k)) {
      LogHas(l, ns, se);
      var j :| 0 <= j < |l| && se in RecordEvents(l[j], ns);
      var i :| 0 <= i < |l[j].events| && se == Batch(l[j].events, l[j].version)[i];
      PositionOrder(l[j].version, i, version, k);
    }
  }

  /** A later record's events lie after everything logged before. */
  lemma {:induction false} RecordAfter(l: seq<Record>, n: nat, ns: Bytes, j: nat, e: StoredEvent, se: StoredEvent)
    requires Ledgered(l) && n <= j < |l| && e in LogOf(l[..n], ns) && se in RecordEvents(l[j], ns)
    ensures Less(e.position, se.position)
  {
    LogHas(l[..n], ns, e);
    var i :| 0 <= i < n && e in RecordEvents(l[..n][i], ns);
    RecordsOrdered(l[i], l[j], ns, e, se);
  }

  lemma {:induction false} RecordsOrdered(a: Record, b: Record, ns: Bytes, e: StoredEvent, se: StoredEvent)
    requires ValidRecord(a) && ValidRecord(b) && a.version < b.version
    requires e in RecordEvents(a, ns) && se in RecordEvents(b, ns)
    ensures Less(e.position, se.position)
  {
    var i :| 0 <= i < |a.events| && e == Batch(a.events, a.version)[i];
    var j :| 0 <= j < |b.events| && se == Batch(b.events, b.version)[j];
    PositionOrder(a.version, i, b.version, j);
  }

  /** Two sorted parts of a log, the first below the second. */
  lemma {:induction false} SortedConcat(a: seq<StoredEvent>, b: seq<StoredEvent>)
    requires StrictlySorted(Positions(a)) && StrictlySorted(Positions(b))
    requires forall x, y :: x in a && y in b ==> Less(x.position, y.position)
    ensures StrictlySorted(Positions(a + b))
  {
    var all := Positions(a + b);
    forall i, j | 0 <= i < j < |all| ensures Less(all[i], all[j]) {
      if j < |a| {
        assert all[i] == Positions(a)[i] && all[j] == Positions(a)[j];
      } else if i >= |a| {
        assert all[i] == Positions(b)[i - |a|] && all[j] == Positions(b)[j - |a|];
      } else {
        assert a[i] in a && b[j - |a|] in b;
      }
    }
  }

  lemma {:induction false} BatchSorted(events: seq<Event>, version: nat)
    requires IsTxVersion(version) && |events| <= MAX_BATCH
    ensures StrictlySorted(Positions(Batch(events, version)))
  {
    forall i, j | 0 <= i < j < |events| ensures Less(Position(version, i), Position(version, j)) {
      PositionOrder(version, i, version, j);
    }
  }

  /** Positions in the log are strictly increasing, across and within batches. */
  lemma {:induction false} LogSorted(l: seq<Record>, ns: Bytes)
    requires Ledgered(l)
    ensures StrictlySorted(Positions(LogOf(l, ns)))
  {
    if l != [] {
      var n := |l| - 1;
      LogSorted(l[..n], ns);
      var added := RecordEvents(l[n], ns);
      if added != [] {
        BatchSorted(l[n].events, l[n].version);
        forall x, y | x in LogOf(l[..n], ns) && y in added ensures Less(x.position, y.position) {
          var j :| 0 <= j < |added| && added[j] == y;
          LogBelow(l[..n], ns, l[n].version, j);
        }
      }
      SortedConcat(LogOf(l[..n], ns), added);
    }
  }

  /** A position names at most one event. */
  lemma {:induction false} PositionUnique(l: seq<Record>, ns: Bytes, a: StoredEvent, b: StoredEvent)
    requires Ledgered(l) && a in LogOf(l, ns) && b in LogOf(l, ns) && a.position == b.position
    ensures a == b
  {
    LogSorted(l, ns);
    var log := LogOf(l, ns);
    var i :| 0 <= i < |log| && log[i] == a;
    var j :| 0 <= j < |log| && log[j] == b;
    LessIrreflexive(a.position);
    assert Positions(log)[i] == a.position && Positions(log)[j] == b.position;
  }

  // -------------------------------------------------------------------------
  // Which key is which
  // -------------------------------------------------------------------------

  /** The four kinds of keys. */
  datatype LayerKey =
    | EventKey(ns: Bytes, position: Versionstamp)
    | IndexKey(ns: Bytes, tags: seq<Bytes>, typeName: Bytes, position: Versionstamp)
    | SentinelKey(ns: Bytes)
    | CursorKey(ns: Bytes, name: Bytes)

  function KeyElems(k: LayerKey): seq<Element> {
    match k
    case EventKey(ns, p) => EventElems(ns, p)
    case IndexKey(ns, s, t, p) => IndexElems(ns, s, t, p)
    case SentinelKey(ns) => SentinelElems(ns)
    case CursorKey(ns, name) => CursorElems(ns, name)
  }

  function KeyBytes(k: LayerKey): Bytes {
    match k
    case EventKey(ns, p) => PackEventKey(ns, p)
    case IndexKey(ns, s, t, p) => PackIndexKey(ns, s, t, p)
    case SentinelKey(ns) => PackSentinelKey(ns)
    case CursorKey(ns, name) => PackCursorKey(ns, name)
  }

  /** The second element of a key, which tells its kind. */
  function Subspace(k: LayerKey): Bytes {
    match k
    case EventKey(_, _) => EVENTS_SUB
    case IndexKey(_, _, _, _) => INDEXES_SUB
    case SentinelKey(_) => SENTINEL_SUB
    case CursorKey(_, _) => SUBS_SUB
  }

  lemma {:induction false} KeyHead(k: LayerKey)
    ensures |KeyElems(k)| >= 2 && KeyElems(k)[0] == Str(k.ns) && KeyElems(k)[1] == Str(Subspace(k))
  {
  }

  lemma {:induction false} IndexElemsInjective(ns: Bytes, s: seq<Bytes>, s': seq<Bytes>, t: Bytes, t': Bytes,
        p: Versionstamp, p': Versionstamp)
    requires IndexElems(ns, s, t, p) == IndexElems(ns, s', t', p')
    ensures s == s' && t == t' && p == p'
  {
    var a, b := IndexElems(ns, s, t, p), IndexElems(ns, s', t', p');
    assert |a| == |s| + 5 && |b| == |s'| + 5;
    assert a[|s| + 3] == Str(t) && b[|s'| + 3] == Str(t');
    assert a[|s| + 4] == Stamp(p) && b[|s'| + 4] == Stamp(p');
    forall i: nat | i < |s| ensures s[i] == s'[i] {
      assert a[i + 2] == Str(s[i]) && b[i + 2] == Str(s'[i]);
    }
  }

  /** Keys of different kinds or parts have different bytes: the four kinds of keys of any
      two namespaces never collide. */
  lemma {:induction false} KeysDistinct(a: LayerKey, b: LayerKey)
    ensures KeyBytes(a) == KeyBytes(b) <==> a == b
  {
    PackInjective(KeyElems(a), KeyElems(b));
    if KeyElems(a) == KeyElems(b) {
      KeyHead(a);
      KeyHead(b);
      match (a, b) {
        case (EventKey(ns, p), EventKey(_, p')) =>
          assert EventElems(ns, p)[2] == Stamp(p) && EventElems(ns, p')[2] == Stamp(p');
        case (IndexKey(ns, s, t, p), IndexKey(_, s', t', p')) => IndexElemsInjective(ns, s, s', t, t', p, p');
        case (SentinelKey(_), SentinelKey(_)) =>
        case (CursorKey(ns, name), CursorKey(_, name')) =>
          assert CursorElems(ns, name)[2] == Str(name) && CursorElems(ns, name')[2] == Str(name');
        case _ =>
      }
    }
  }

  /** The primary key of an event is none of its index keys. */
  lemma {:induction false} EventKeyApart(ns: Bytes, e: Event, p: Versionstamp)
    ensures PackEventKey(ns, p) !in IndexKeys(ns, e, p)
  {
    forall s ensures PackEventKey(ns, p) != PackIndexKey(ns, s, e.typeName, p) {
      KeysDistinct(EventKey(ns, p), IndexKey(ns, s, e.typeName, p));
    }
  }

  // -------------------------------------------------------------------------
  // Contents of the database
  // -------------------------------------------------------------------------

  /** What the last event of a batch adds. */
  lemma {:induction false} BatchNext(ns: Bytes, events: seq<Event>, version: nat, k: Bytes)
    requires events != []
    ensures var n := |events| - 1;
            k in BatchWrites(ns, events, version) <==>
              k in BatchWrites(ns, events[..n], version) || k in EventWrites(ns, events[n], Position(version, n))
  {
  }

  lemma {:induction false} BatchAt(ns: Bytes, events: seq<Event>, version: nat, i: nat, k: Bytes)
    requires i < |events| && k in EventWrites(ns, events[i], Position(version, i))
    ensures k in BatchWrites(ns, events, version)
  {
    if i < |events| - 1 {
      var init := events[..|events| - 1];
      assert init[i] == events[i];
      BatchAt(ns, init, version, i, k);
      BatchNext(ns, events, version, k);
    } else {
      BatchNext(ns, events, version, k);
    }
  }

  lemma {:induction false} BatchFrom(ns: Bytes, events: seq<Event>, version: nat, k: Bytes) returns (i: nat)
    requires k in BatchWrites(ns, events, version)
    ensures i < |events| && k in EventWrites(ns, events[i], Position(version, i))
  {
    var n := |events| - 1;
    if k in EventWrites(ns, events[n], Position(version, n)) {
      i := n;
    } else {
      i := BatchFrom(ns, events[..n], version, k);
    }
  }

  /** The keys of one event. */
  ghost predicate EventHas(ns: Bytes, e: Event, p: Versionstamp, k: LayerKey) {
    || k == EventKey(ns, p)
    || (k.IndexKey? && k == IndexKey(ns, k.tags, e.typeName, p) && k.tags in Subsets(Canonical(e.tags)))
  }

  lemma {:induction false} EventWritesHas(ns: Bytes, e: Event, p: Versionstamp, k: LayerKey)
    ensures KeyBytes(k) in EventWrites(ns, e, p) <==> EventHas(ns, e, p, k)
  {
    if KeyBytes(k) in EventWrites(ns, e, p) {
      KeysDistinct(k, EventKey(ns, p));
      if KeyBytes(k) != PackEventKey(ns, p) {
        var s :| s in Subsets(Canonical(e.tags)) && KeyBytes(k) == PackIndexKey(ns, s, e.typeName, p);
        KeysDistinct(k, IndexKey(ns, s, e.typeName, p));
      }
    }
    if EventHas(ns, e, p, k) && k.IndexKey? {
      assert KeyBytes(k) in IndexKeys(ns, e, p);
    }
  }

  /** The keys of a record. */
  ghost predicate RecordHas(rec: Record, k: LayerKey) {
    match rec
    case CursorSet(ns, name, _, _) => k == CursorKey(ns, name)
    case Appended(ns, events, version) =>
      || k == SentinelKey(ns)
      || exists i :: 0 <= i < |events| && EventHas(ns, events[i], Position(version, i), k)
  }

  /** A record writes its keys and no others. */
  lemma {:induction false} WritesHave(rec: Record, k: LayerKey)
    ensures KeyBytes(k) in Writes(rec) <==> RecordHas(rec, k)
  {
    match rec {
      case CursorSet(ns, name, _, _) => KeysDistinct(k, CursorKey(ns, name));
      case Appended(ns, events, version) => AppendHas(ns, events, version, k);
    }
  }

  lemma {:induction false} AppendHas(ns: Bytes, events: seq<Event>, version: nat, k: LayerKey)
    ensures KeyBytes(k) in Writes(Appended(ns, events, version)) <==> RecordHas(Appended(ns, events, version), k)
  {
    KeysDistinct(k, SentinelKey(ns));
    if KeyBytes(k) in BatchWrites(ns, events, version) {
      var i := BatchFrom(ns, events, version, KeyBytes(k));
      EventWritesHas(ns, events[i], Position(version, i), k);
    }
    if i :| 0 <= i < |events| && EventHas(ns, events[i], Position(version, i), k) {
      EventWritesHas(ns, events[i], Position(version, i), k);
      BatchAt(ns, events, version, i, KeyBytes(k));
    }
  }

  lemma {:induction false} BatchValue(ns: Bytes, events: seq<Event>, version: nat, i: nat)
    requires i < |events| <= MAX_BATCH && IsTxVersion(version)
    ensures PackEventKey(ns, Position(version, i)) in BatchWrites(ns, events, version)
    ensures BatchWrites(ns, events, version)[PackEventKey(ns, Position(version, i))] == EncodeEventValue(events[i])
  {
    var n := |events| - 1;
    if i < n {
      BatchValue(ns, events[..n], version, i);
      PositionOrder(version, i, version, n);
      EventWritesHas(ns, events[n], Position(version, n), EventKey(ns, Position(version, i)));
    }
  }

  /** The event at position `p` in the record's batch. */
  ghost predicate Stores(rec: Record, ns: Bytes, e: Event, p: Versionstamp) {
    StoredEvent(e, p) in RecordEvents(rec, ns)
  }

  lemma {:induction false} StoresAt(rec: Record, ns: Bytes, e: Event, p: Versionstamp)
    ensures Stores(rec, ns, e, p) <==>
              && rec.Appended? && rec.ns == ns
              && exists i :: 0 <= i < |rec.events| && rec.events[i] == e && Position(rec.version, i) == p
  {
    if Stores(rec, ns, e, p) {
      var i :| 0 <= i < |rec.events| && Batch(rec.events, rec.version)[i] == StoredEvent(e, p);
      assert rec.events[i] == e;
    }
    if rec.Appended? && rec.ns == ns {
      if i :| 0 <= i < |rec.events| && rec.events[i] == e && Position(rec.version, i) == p {
        assert Batch(rec.events, rec.version)[i] == StoredEvent(e, p);
      }
    }
  }

  /** An index key is written by exactly the records that store its event. */
  lemma {:induction false} RecordIndexKey(rec: Record, ns: Bytes, s: seq<Bytes>, t: Bytes, p: Versionstamp)
    ensures PackIndexKey(ns, s, t, p) in Writes(rec) <==>
              exists e :: Stores(rec, ns, e, p) && e.typeName == t && s in Subsets(Canonical(e.tags))
  {
    var k := IndexKey(ns, s, t, p);
    WritesHave(rec, k);
    if RecordHas(rec, k) {
      var i :| 0 <= i < |rec.events| && EventHas(rec.ns, rec.events[i], Position(rec.version, i), k);
      StoresAt(rec, ns, rec.events[i], p);
      assert Stores(rec, ns, rec.events[i], p);
    }
    if e :| Stores(rec, ns, e, p) && e.typeName == t && s in Subsets(Canonical(e.tags)) {
      StoresAt(rec, ns, e, p);
      var i :| 0 <= i < |rec.events| && rec.events[i] == e && Position(rec.version, i) == p;
      assert EventHas(rec.ns, rec.events[i], Position(rec.version, i), k);
    }
  }

  lemma {:induction false} RecordEventKey(rec: Record, ns: Bytes, p: Versionstamp)
    requires ValidRecord(rec)
    ensures PackEventKey(ns, p) in Writes(rec) <==> exists e :: Stores(rec, ns, e, p)
    ensures forall e :: Stores(rec, ns, e, p) ==> Writes(rec)[PackEventKey(ns, p)] == EncodeEventValue(e)
  {
    var k := EventKey(ns, p);
    WritesHave(rec, k);
    if RecordHas(rec, k) {
      var i :| 0 <= i < |rec.events| && EventHas(rec.ns, rec.events[i], Position(rec.version, i), k);
      StoresAt(rec, ns, rec.events[i], p);
      assert Stores(rec, ns, rec.events[i], p);
    }
    forall e | Stores(rec, ns, e, p) ensures RecordHas(rec, k) && Writes(rec)[KeyBytes(k)] == EncodeEventValue(e) {
      StoredValue(rec, ns, e, p);
    }
  }

  lemma {:induction false} StoredValue(rec: Record, ns: Bytes, e: Event, p: Versionstamp)
    requires ValidRecord(rec) && Stores(rec, ns, e, p)
    ensures RecordHas(rec, EventKey(ns, p)) && PackEventKey(ns, p) in Writes(rec)
    ensures Writes(rec)[PackEventKey(ns, p)] == EncodeEventValue(e)
  {
    StoresAt(rec, ns, e, p);
    var i :| 0 <= i < |rec.events| && rec.events[i] == e && Position(rec.version, i) == p;
    assert EventHas(rec.ns, rec.events[i], Position(rec.version, i), EventKey(ns, p));
    BatchValue(ns, rec.events, rec.version, i);
    KeysDistinct(EventKey(ns, p), SentinelKey(ns));
  }

  lemma {:induction false} RecordSentinel(rec: Record, ns: Bytes)
    ensures PackSentinelKey(ns) in Writes(rec) <==> rec.Appended? && rec.ns == ns
    ensures rec.Appended? && rec.ns == ns ==> Writes(rec)[PackSentinelKey(ns)] == SentinelValue(rec.version)
  {
    WritesHave(rec, SentinelKey(ns));
  }

  lemma {:induction false} RecordCursor(rec: Record, ns: Bytes, name: Bytes)
    ensures PackCursorKey(ns, name) in Writes(rec) <==> rec.CursorSet? && rec.ns == ns && rec.name == name
  {
    WritesHave(rec, CursorKey(ns, name));
  }

  /**
   The index invariant: an index key (tags `s`, type `t`, position `p`) exists
   exactly when the log has an event of type `t` at `p` and `s` is one of the
   subsets of its canonical tags.
   */
  lemma {:induction false} IndexInvariant(h: seq<Commit>, l: seq<Record>, ns: Bytes, s: seq<Bytes>, t: Bytes,
        p: Versionstamp)
    requires Matches(h, l)
    ensures PackIndexKey(ns, s, t, p) in Replay(h) <==>
              exists e :: StoredEvent(e, p) in LogOf(l, ns) && e.typeName == t && s in Subsets(Canonical(e.tags))
  {
    var k := PackIndexKey(ns, s, t, p);
    ReplayHas(h, k);
    if k in Replay(h) {
      var j :| 0 <= j < |h| && k in h[j].writes;
      RecordIndexKey(l[j], ns, s, t, p);
      var e :| Stores(l[j], ns, e, p) && e.typeName == t && s in Subsets(Canonical(e.tags));
      LogHas(l, ns, StoredEvent(e, p));
    }
    if e :| StoredEvent(e, p) in LogOf(l, ns) && e.typeName == t && s in Subsets(Canonical(e.tags)) {
      LogHas(l, ns, StoredEvent(e, p));
      var j :| 0 <= j < |l| && StoredEvent(e, p) in RecordEvents(l[j], ns);
      assert Stores(l[j], ns, e, p);
      RecordIndexKey(l[j], ns, s, t, p);
      assert k in h[j].writes;
    }
  }

  /** The primary invariant: an event key exists exactly for the positions of the
      log, with the encoded event as its value. */
  lemma {:induction false} EventInvariant(h: seq<Commit>, l: seq<Record>, ns: Bytes, p: Versionstamp)
    requires Matches(h, l)
    ensures PackEventKey(ns, p) in Replay(h) <==> exists e :: StoredEvent(e, p) in LogOf(l, ns)
    ensures forall e :: StoredEvent(e, p) in LogOf(l, ns) ==>
              PackEventKey(ns, p) in Replay(h) && Replay(h)[PackEventKey(ns, p)] == EncodeEventValue(e)
  {
    var k := PackEventKey(ns, p);
    ReplayHas(h, k);
    if k in Replay(h) {
      var j :| 0 <= j < |h| && k in h[j].writes;
      RecordEventKey(l[j], ns, p);
      var e :| Stores(l[j], ns, e, p);
      LogHas(l, ns, StoredEvent(e, p));
    }
    forall e | StoredEvent(e, p) in LogOf(l, ns) ensures k in Replay(h) && Replay(h)[k] == EncodeEventValue(e) {
      LogHas(l, ns, StoredEvent(e, p));
      var j :| 0 <= j < |l| && StoredEvent(e, p) in RecordEvents(l[j], ns);
      assert Stores(l[j], ns, e, p);
      RecordEventKey(l[j], ns, p);
      forall i | j < i < |h| ensures k !in h[i].writes {
        StoresOnce(l, j, i, ns, e, p);
        RecordEventKey(l[i], ns, p);
      }
      ReplayLast(h, j, k);
    }
  }

  /** No two records share a position. */
  lemma {:induction false} StoresOnce(l: seq<Record>, j: nat, i: nat, ns: Bytes, e: Event, p: Versionstamp)
    requires Ledgered(l) && j < i < |l| && Stores(l[j], ns, e, p)
    ensures forall e' :: !Stores(l[i], ns, e', p)
  {
    var a :| 0 <= a < |l[j].events| && Batch(l[j].events, l[j].version)[a] == StoredEvent(e, p);
    forall e' ensures !Stores(l[i], ns, e', p) {
      if Stores(l[i], ns, e', p) {
        var b :| 0 <= b < |l[i].events| && Batch(l[i].events, l[i].version)[b] == StoredEvent(e', p);
        PositionOrder(l[j].version, a, l[i].version, b);
        assert false;
      }
    }
  }
}

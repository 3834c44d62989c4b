/** `subscribe.rs`: durable cursors and the watch on the sentinel key. */
module SubscribeMethods {
  import opened Bytes
  import opened Tuples
  import opened Types
  import opened Encoding
  import opened Ledger
  import opened Fdb
  import Kv

  // -------------------------------------------------------------------------
  // Cursors
  // -------------------------------------------------------------------------

  predicate SetsCursor(rec: Record, ns: Bytes, name: Bytes) {
    rec.CursorSet? && rec.ns == ns && rec.name == name
  }

  /** The last position stored under the name. */
  function CursorAt(l: seq<Record>, ns: Bytes, name: Bytes): Option<Versionstamp> {
    if l == [] then None
    else
      var n := |l| - 1;
      if SetsCursor(l[n], ns, name) then Some(l[n].position) else CursorAt(l[..n], ns, name)
  }

  function DecodeCursor(val: Bytes): Result<Option<Versionstamp>> {
    if |val| != 12 then Err(TupleDecode)
    else
      var vs: Versionstamp := val;
      Ok(Some(vs))
  }

  function CursorOf(kv: Kv.Store, ns: Bytes, name: Bytes): Result<Option<Versionstamp>> {
    var key := PackCursorKey(ns, name);
    if key !in kv then Ok(None) else DecodeCursor(kv[key])
  }

  /** The cursor key holds the last position that was stored. */
  lemma {:induction false} CursorExact(h: seq<Kv.Commit>, l: seq<Record>, ns: Bytes, name: Bytes)
    requires Matches(h, l)
    ensures CursorOf(Kv.Replay(h), ns, name) == Ok(CursorAt(l, ns, name))
  {
    if l != [] {
      var n := |l| - 1;
      MatchesPrefix(h, l, n);
      CursorExact(h[..n], l[..n], ns, name);
      RecordCursor(l[n], ns, name);
    }
  }

  method GetCursor(db: Database, ns: Bytes, name: Bytes) returns (r: Result<Option<Versionstamp>>, ghost at: nat)
    requires db.Valid()
    modifies db
    ensures db.Valid() && db.OnlyOthers() && |old(db.history)| <= at <= |db.history| == |db.ledger|
    ensures r == Ok(CursorAt(db.ledger[..at], ns, name)) || (r.Err? && r.error.Fdb?)
    ensures db.Reports(FailureOf(r))
    ensures db.reports == old(db.reports) ==> r.Ok?
  {
    var key := PackCursorKey(ns, name);
    var tr := new Transaction(db);
    var found := tr.Get(key, false);
    at := if tr.readAt.Some? then tr.readAt.value else |db.history|;
    if found.Err? {
      return Err(found.error), at;
    }
    tr.SeenMatches();
    CursorExact(tr.SeenHistory(), tr.Seen(), ns, name);
    match found.value {
      case None => return Ok(None), at;
      case Some(val) => return DecodeCursor(val), at;
    }
  }

  lemma {:induction false} MeansCursor(tr: Transaction, ns: Bytes, name: Bytes, position: Versionstamp)
    requires tr.sets == [SetValue(PackCursorKey(ns, name), position)]
    ensures (forall m :: m in tr.sets ==> Resolvable(m)) && tr.Means(CursorSet(ns, name, position, 0))
  {
    assert tr.sets[..0] == [];
    forall v: nat | IsTxVersion(v)
      ensures Applied(tr.sets, v) == Writes(WithVersion(CursorSet(ns, name, position, 0), v))
    {
      assert Applied(tr.sets[..0], v) == map[];
    }
  }

  /** The position was stored at ledger index `at`, no earlier than `start`. */
  ghost predicate StoredAt(l: seq<Record>, start: nat, at: nat, ns: Bytes, name: Bytes, position: Versionstamp) {
    start <= at < |l| && l[at] == CursorSet(ns, name, position, l[at].version)
  }

  /** All the indices are of writes of the position. */
  ghost predicate AllStored(l: seq<Record>, start: nat, indices: seq<nat>, ns: Bytes, name: Bytes,
        position: Versionstamp)
  {
    forall at :: at in indices ==> StoredAt(l, start, at, ns, name, position)
  }

  lemma {:induction false} AllStoredGrows(before: seq<Record>, l: seq<Record>, start: nat, indices: seq<nat>, ns: Bytes,
        name: Bytes, position: Versionstamp)
    requires before <= l && AllStored(before, start, indices, ns, name, position)
    ensures AllStored(l, start, indices, ns, name, position)
  {
  }

  /** One attempt to store a position. */
  method StoreOnce(tr: Transaction, ns: Bytes, name: Bytes, position: Versionstamp)
    returns (committed: Result<nat>, ghost at: Option<nat>)
    requires tr.Valid() && tr.sets == []
    modifies tr`sets, tr.db
    ensures tr.Valid() && tr.db.Grown() && tr.db.own == old(tr.db.own) + Indices(at)
    ensures AllStored(tr.db.ledger, |old(tr.db.history)|, Indices(at), ns, name, position)
    ensures if committed.Ok? then at.Some? else committed.error.Fdb?
    ensures tr.db.Reports(FailureOf(committed))
  {
    tr.AtomicOp(SetValue(PackCursorKey(ns, name), position));
    MeansCursor(tr, ns, name, position);
    ghost var v;
    committed, at, v := tr.Commit(CursorSet(ns, name, position, 0));
  }

  ghost function StoreFailure(done: Option<Result<()>>): Option<int> {
    if done.Some? then FailureOf(done.value) else None
  }

  /** One attempt, and what the error handler makes of its failure. */
  method StoreRound(tr: Transaction, ns: Bytes, name: Bytes, position: Versionstamp)
    returns (done: Option<Result<()>>, ghost at: Option<nat>)
    requires tr.Valid() && tr.sets == []
    modifies tr, tr.db
    ensures tr.Valid() && tr.db.Grown() && tr.db.own == old(tr.db.own) + Indices(at)
    ensures AllStored(tr.db.ledger, |old(tr.db.history)|, Indices(at), ns, name, position)
    ensures done.Some? && done.value.Ok? ==> at.Some?
    ensures done.Some? && done.value.Err? ==> done.value.error.Fdb?
    ensures done.None? ==> tr.sets == []
    ensures AttemptReports(old(tr.db.reports), tr.db.reports, old(tr.retries), tr.retries, done.Some?,
              StoreFailure(done))
  {
    var committed;
    committed, at := StoreOnce(tr, ns, name, position);
    if committed.Ok? {
      return Some(Ok(())), at;
    }
    ghost var before, retries := tr.db.ledger, tr.retries;
    var retry := tr.OnError(committed.error);
    AllStoredGrows(before, tr.db.ledger, |old(tr.db.history)|, Indices(at), ns, name, position);
    if retry.Ok? {
      FailedReset(old(tr.db.reports), tr.db.reports, committed.error.code);
      return None, at;
    }
    FailedGaveUp(old(tr.db.reports), tr.db.reports, committed.error.code,
      tr.db.reports[|tr.db.reports| - 1].retryable, retries);
    return Some(Err(retry.error)), at;
  }

  /** Stores a position. A retry after an unknown result may store it again: last writer wins.
      The call's only commits are writes of that position. It fails only with an error that
      the error handler gave up on. */
  method SetCursor(db: Database, ns: Bytes, name: Bytes, position: Versionstamp)
    returns (r: Result<()>, ghost applied: seq<nat>)
    requires db.Valid()
    modifies db
    ensures db.Valid() && db.Grown() && db.own == old(db.own) + applied
    ensures r.Ok? ==> applied != []
    ensures AllStored(db.ledger, |old(db.history)|, applied, ns, name, position)
    ensures r.Err? ==> r.error.Fdb?
    ensures old(db.reports) <= db.reports
    ensures CallReports(old(db.reports), db.reports, Resets(db.reports[|old(db.reports)|..]), FailureOf(r))
    ensures db.reports == old(db.reports) ==> r.Ok?
  {
    var tr := new Transaction(db);
    applied := [];
    ghost var limit := tr.retries;
    TrailBegins(db.reports, limit);
    while true
      invariant tr.Valid() && tr.db == db && fresh(tr) && tr.sets == []
      invariant db.Grown() && db.own == old(db.own) + applied
      invariant AllStored(db.ledger, |old(db.history)|, applied, ns, name, position)
      invariant Trail(old(db.reports), db.reports, limit, tr.retries)
      decreases tr.retries
    {
      ghost var past, before, retries := db.ledger, db.reports, tr.retries;
      var done;
      ghost var at;
      done, at := StoreRound(tr, ns, name, position);
      AllStoredGrows(past, db.ledger, |old(db.history)|, applied, ns, name, position);
      TrailAttempt(old(db.reports), before, db.reports, limit, retries, tr.retries, done.Some?, StoreFailure(done));
      applied := applied + Indices(at);
      if done.Some? {
        return done.value, applied;
      }
    }
  }

  /** With one consumer per name, a stored cursor is read back exactly. */
  lemma {:induction false} CursorRoundTrip(l: seq<Record>, at: nat, ns: Bytes, name: Bytes, position: Versionstamp)
    requires at < |l| && SetsCursor(l[at], ns, name) && l[at].position == position
    requires forall j :: at < j < |l| && SetsCursor(l[j], ns, name) ==> l[j].position == position
    ensures CursorAt(l, ns, name) == Some(position)
    decreases |l|
  {
    var n := |l| - 1;
    if at < n && !SetsCursor(l[n], ns, name) {
      CursorRoundTrip(l[..n], at, ns, name, position);
    }
  }

  // -------------------------------------------------------------------------
  // The sentinel
  // -------------------------------------------------------------------------

  predicate AppendsTo(rec: Record, ns: Bytes) {
    rec.Appended? && rec.ns == ns
  }

  /** The value of the sentinel key: the stamp of the last append of the namespace. */
  function SentinelAt(l: seq<Record>, ns: Bytes): Option<Bytes> {
    if l == [] then None
    else
      var n := |l| - 1;
      if AppendsTo(l[n], ns) then Some(SentinelValue(l[n].version)) else SentinelAt(l[..n], ns)
  }

  function ValueOf(kv: Kv.Store, key: Bytes): Option<Bytes> {
    if key in kv then Some(kv[key]) else None
  }

  lemma {:induction false} SentinelExact(h: seq<Kv.Commit>, l: seq<Record>, ns: Bytes)
    requires Matches(h, l)
    ensures ValueOf(Kv.Replay(h), PackSentinelKey(ns)) == SentinelAt(l, ns)
  {
    if l != [] {
      var n := |l| - 1;
      MatchesPrefix(h, l, n);
      SentinelExact(h[..n], l[..n], ns);
      RecordSentinel(l[n], ns);
    }
  }

  lemma {:induction false} SentinelInjective(v: nat, w: nat)
    requires IsTxVersion(v) && IsTxVersion(w)
    ensures SentinelValue(v) == SentinelValue(w) <==> v == w
  {
    BigEndianOrder(v, w, 10);
    assert SentinelValue(v)[..10] == BigEndian(v, 10) && SentinelValue(w)[..10] == BigEndian(w, 10);
  }

  /** A sentinel value was written by an append with that version. */
  lemma {:induction false} SentinelFrom(l: seq<Record>, ns: Bytes) returns (j: nat)
    requires SentinelAt(l, ns).Some?
    ensures j < |l| && AppendsTo(l[j], ns) && SentinelAt(l, ns) == Some(SentinelValue(l[j].version))
    ensures forall i :: j < i < |l| ==> !AppendsTo(l[i], ns)
  {
    var n := |l| - 1;
    if AppendsTo(l[n], ns) {
      j := n;
    } else {
      j := SentinelFrom(l[..n], ns);
      forall i | j < i < |l| ensures !AppendsTo(l[i], ns) {
        assert i < n ==> l[..n][i] == l[i];
      }
    }
  }

  lemma {:induction false} SentinelUnset(l: seq<Record>, ns: Bytes)
    ensures SentinelAt(l, ns).None? <==> forall i :: 0 <= i < |l| ==> !AppendsTo(l[i], ns)
  {
    if l != [] {
      var n := |l| - 1;
      SentinelUnset(l[..n], ns);
      assert forall i :: 0 <= i < n ==> l[..n][i] == l[i];
    }
  }

  /**
   Every append writes a value that the sentinel never had before, so it has the same
   value at two versions exactly when nothing was appended between them: a change
   cannot be undone.
   */
  lemma {:induction false} SentinelNeverRepeats(l: seq<Record>, n: nat, ns: Bytes)
    requires Ledgered(l) && n <= |l|
    ensures SentinelAt(l, ns) == SentinelAt(l[..n], ns) <==> forall j :: n <= j < |l| ==> !AppendsTo(l[j], ns)
  {
    SentinelUnset(l, ns);
    SentinelUnset(l[..n], ns);
    assert forall i :: 0 <= i < n ==> l[..n][i] == l[i];
    if SentinelAt(l, ns).Some? && SentinelAt(l[..n], ns).Some? {
      var j := SentinelFrom(l, ns);
      var i := SentinelFrom(l[..n], ns);
      SentinelInjective(l[i].version, l[j].version);
      assert j < n ==> l[..n][j] == l[j];
      assert i == j || i < j;
    }
  }

  /** Without an append there is nothing new in the log. */
  lemma {:induction false} QuietLog(l: seq<Record>, n: nat, ns: Bytes)
    requires n <= |l| && forall j :: n <= j < |l| ==> !AppendsTo(l[j], ns)
    ensures LogOf(l, ns) == LogOf(l[..n], ns)
    decreases |l|
  {
    if n == |l| {
      assert l[..n] == l;
    } else {
      var m := |l| - 1;
      QuietRecord(l, ns);
      QuietLog(l[..m], n, ns);
      assert l[..m][..n] == l[..n];
    }
  }

  lemma {:induction false} QuietRecord(l: seq<Record>, ns: Bytes)
    requires l != [] && !AppendsTo(l[|l| - 1], ns)
    ensures LogOf(l, ns) == LogOf(l[..|l| - 1], ns)
  {
  }

  /** A watch: the key, and its value at the version where it was armed. It is due once
      the key has another value; until then it may stay silent. */
  datatype Watch = Watch(key: Bytes, value: Option<Bytes>)

  predicate Due(w: Watch, kv: Kv.Store) {
    ValueOf(kv, w.key) != w.value
  }

  /** A silent watch on the sentinel means that the log is as it was when it was armed. */
  lemma {:induction false} SilentMeansQuiet(h: seq<Kv.Commit>, l: seq<Record>, n: nat, ns: Bytes)
    requires Matches(h, l) && n <= |l|
    ensures Due(Watch(PackSentinelKey(ns), SentinelAt(l[..n], ns)), Kv.Replay(h)) <==>
              exists j :: n <= j < |l| && AppendsTo(l[j], ns)
    ensures !Due(Watch(PackSentinelKey(ns), SentinelAt(l[..n], ns)), Kv.Replay(h)) ==> LogOf(l, ns) == LogOf(l[..n], ns)
  {
    SentinelExact(h, l, ns);
    SentinelNeverRepeats(l, n, ns);
    if forall j :: n <= j < |l| ==> !AppendsTo(l[j], ns) {
      QuietLog(l, n, ns);
    }
  }

  /** Arms a watch: it holds the sentinel of some version during the call, or a later one fires it. */
  method RegisterSentinelWatch(db: Database, ns: Bytes) returns (r: Result<Watch>, ghost at: nat)
    requires db.Valid()
    modifies db
    ensures db.Valid() && db.OnlyOthers() && |old(db.history)| <= at <= |db.history| == |db.ledger|
    ensures r.Ok? ==> r.value == Watch(PackSentinelKey(ns), SentinelAt(db.ledger[..at], ns))
    ensures r.Ok? ==> (Due(r.value, Kv.Replay(db.history)) <==>
              exists j :: at <= j < |db.ledger| && AppendsTo(db.ledger[j], ns))
    ensures r.Err? ==> r.error.Fdb?
    ensures db.Reports(FailureOf(r))
    ensures db.reports == old(db.reports) ==> r.Ok?
  {
    var sentinelKey := PackSentinelKey(ns);
    var tr := new Transaction(db);
    var value := tr.Get(sentinelKey, true);
    at := if tr.readAt.Some? then tr.readAt.value else |db.history|;
    if value.Err? {
      return Err(value.error), at;
    }
    tr.SeenMatches();
    SentinelExact(tr.SeenHistory(), tr.Seen(), ns);
    SilentMeansQuiet(db.history, db.ledger, at, ns);
    return Ok(Watch(sentinelKey, value.value)), at;
  }
}

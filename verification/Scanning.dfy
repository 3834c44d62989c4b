/** The scan of the primary subspace, `read_all`: it is the log. */
module Scanning {
  import opened Bytes
  import opened Tuples
  import opened Types
  import opened Encoding
  import opened Kv
  import opened Ledger
  import Ranges
  import Matching
  import Merge

  function DecodeRow(key: Bytes, value: Bytes): Result<StoredEvent> {
    var vs :- Merge.ExtractVsFromKey(key);
    var event :- DecodeEventValue(value);
    Ok(StoredEvent(event, vs))
  }

  /** The first row that does not decode decides the error. */
  function DecodeRows(keys: seq<Bytes>, values: seq<Bytes>): Result<seq<StoredEvent>>
    requires |keys| == |values|
  {
    if keys == [] then Ok([])
    else
      var n := |keys| - 1;
      var init :- DecodeRows(keys[..n], values[..n]);
      var last :- DecodeRow(keys[n], values[n]);
      Ok(init + [last])
  }

  function ScanOf(kv: Store, ns: Bytes): Result<seq<StoredEvent>> {
    var r :- Ranges.PrefixRange(PackEventsPrefix(ns));
    var keys := KeysIn(kv, r);
    DecodeRows(keys, ValuesOf(kv, keys))
  }

  lemma {:induction false} RowsFailEarly(keys: seq<Bytes>, values: seq<Bytes>, n: nat)
    requires |keys| == |values| && n <= |keys| && DecodeRows(keys[..n], values[..n]).Err?
    ensures DecodeRows(keys, values) == Err(DecodeRows(keys[..n], values[..n]).error)
    decreases |keys|
  {
    if n == |keys| {
      assert keys[..n] == keys && values[..n] == values;
    } else {
      var m := |keys| - 1;
      assert keys[..m][..n] == keys[..n] && values[..m][..n] == values[..n];
      RowsFailEarly(keys[..m], values[..m], n);
    }
  }

  lemma {:induction false} EventKeyBytes(ns: Bytes, p: Versionstamp)
    ensures PackEventKey(ns, p) == PackEventsPrefix(ns) + [STAMP_CODE] + p
    ensures Merge.Stamped(PackEventKey(ns, p)) && Merge.StampOf(PackEventKey(ns, p)) == p
  {
    PackStamp([Str(ns), Str(EVENTS_SUB)], p);
    assert EventElems(ns, p) == [Str(ns), Str(EVENTS_SUB)] + [Stamp(p)];
  }

  lemma {:induction false} EventsPrefixRange(ns: Bytes, k: Bytes)
    ensures Ranges.PrefixRange(PackEventsPrefix(ns)).Ok?
    ensures InRange(k, Ranges.PrefixRange(PackEventsPrefix(ns)).value) <==> PackEventsPrefix(ns) <= k
  {
    Ranges.StringPackEnds([ns, EVENTS_SUB]);
    assert Strs([ns, EVENTS_SUB]) == [Str(ns), Str(EVENTS_SUB)];
    Ranges.PackedRangeExact(PackEventsPrefix(ns), None, k);
  }

  lemma {:induction false} NotNulExtended()
    ensures !NulExtends(INDEXES_SUB, EVENTS_SUB) && !NulExtends(SENTINEL_SUB, EVENTS_SUB)
              && !NulExtends(SUBS_SUB, EVENTS_SUB)
    ensures !NulExtends(EVENTS_SUB, EVENTS_SUB)
  {
    assert (EVENTS_SUB + [END])[0] == 0x65 && |EVENTS_SUB + [END]| == 2;
  }

  /** The scanned range holds the primary keys of the log and nothing else. */
  lemma {:induction false} ScannedKey(h: seq<Commit>, l: seq<Record>, ns: Bytes, k: Bytes)
    requires Matches(h, l)
    requires Ranges.PrefixRange(PackEventsPrefix(ns)).Ok?
    ensures k in KeysIn(Replay(h), Ranges.PrefixRange(PackEventsPrefix(ns)).value) <==>
              exists se :: se in LogOf(l, ns) && k == PackEventKey(ns, se.position)
  {
    EventsPrefixRange(ns, k);
    if k in Replay(h) && PackEventsPrefix(ns) <= k {
      var se := ScannedEvent(h, l, ns, k);
    }
    if se :| se in LogOf(l, ns) && k == PackEventKey(ns, se.position) {
      EventInvariant(h, l, ns, se.position);
      assert StoredEvent(se.event, se.position) == se;
      EventKeyBytes(ns, se.position);
    }
  }

  /** A written key under the primary prefix is the primary key of some position. */
  lemma {:induction false} WrittenUnder(rec: Record, ns: Bytes, k: Bytes) returns (p: Versionstamp)
    requires ValidRecord(rec) && k in Writes(rec) && PackEventsPrefix(ns) <= k
    ensures k == PackEventKey(ns, p)
  {
    var es := Matching.WrittenKey(rec, k);
    var ss := [ns, EVENTS_SUB];
    assert Strs(ss) == [Str(ns), Str(EVENTS_SUB)];
    PackPrefix(ss, es);
    assert Strs(ss[..1])[0] == es[..1][0];
    NotNulExtended();
    p :| k == PackEventKey(ns, p);
  }

  lemma {:induction false} ScannedEvent(h: seq<Commit>, l: seq<Record>, ns: Bytes, k: Bytes) returns (se: StoredEvent)
    requires Matches(h, l) && k in Replay(h) && PackEventsPrefix(ns) <= k
    ensures se in LogOf(l, ns) && k == PackEventKey(ns, se.position)
  {
    ReplayHas(h, k);
    var j :| 0 <= j < |h| && k in h[j].writes;
    var p := WrittenUnder(l[j], ns, k);
    EventInvariant(h, l, ns, p);
    var e :| StoredEvent(e, p) in LogOf(l, ns);
    se := StoredEvent(e, p);
  }

  lemma {:induction false} RowsAre(keys: seq<Bytes>, values: seq<Bytes>, ns: Bytes, log: seq<StoredEvent>)
    requires |keys| == |values| == |log|
    requires forall i :: 0 <= i < |log| ==> keys[i] == PackEventKey(ns, log[i].position)
    requires forall i :: 0 <= i < |log| ==> values[i] == EncodeEventValue(log[i].event)
    ensures DecodeRows(keys, values) == Ok(log)
  {
    if keys != [] {
      var n := |keys| - 1;
      RowsAre(keys[..n], values[..n], ns, log[..n]);
      EventKeyBytes(ns, log[n].position);
      DecodeEncode(log[n].event);
      assert log == log[..n] + [log[n]];
    }
  }

  function EventKeys(ns: Bytes, log: seq<StoredEvent>): (r: seq<Bytes>)
    ensures |r| == |log| && forall i :: 0 <= i < |log| ==> r[i] == PackEventKey(ns, log[i].position)
  {
    seq(|log|, i requires 0 <= i < |log| => PackEventKey(ns, log[i].position))
  }

  lemma {:induction false} EventKeysSorted(l: seq<Record>, ns: Bytes)
    requires Ledgered(l)
    ensures StrictlySorted(EventKeys(ns, LogOf(l, ns)))
  {
    var log := LogOf(l, ns);
    LogSorted(l, ns);
    forall i, j | 0 <= i < j < |log| ensures Less(EventKeys(ns, log)[i], EventKeys(ns, log)[j]) {
      EventKeyBytes(ns, log[i].position);
      EventKeyBytes(ns, log[j].position);
      assert Positions(log)[i] == log[i].position && Positions(log)[j] == log[j].position;
      LessPrepend(PackEventsPrefix(ns) + [STAMP_CODE], log[i].position, log[j].position);
    }
  }

  lemma {:induction false} ScannedKeys(h: seq<Commit>, l: seq<Record>, ns: Bytes)
    requires Matches(h, l)
    ensures Ranges.PrefixRange(PackEventsPrefix(ns)).Ok?
    ensures KeysIn(Replay(h), Ranges.PrefixRange(PackEventsPrefix(ns)).value) == EventKeys(ns, LogOf(l, ns))
  {
    EventsPrefixRange(ns, []);
    var keys, log := KeysIn(Replay(h), Ranges.PrefixRange(PackEventsPrefix(ns)).value), LogOf(l, ns);
    EventKeysSorted(l, ns);
    forall k ensures k in keys <==> k in EventKeys(ns, log) {
      ScannedKey(h, l, ns, k);
      EventKeysHave(ns, log, k);
    }
    SortedUnique(keys, EventKeys(ns, log));
  }

  lemma {:induction false} EventKeysHave(ns: Bytes, log: seq<StoredEvent>, k: Bytes)
    ensures k in EventKeys(ns, log) <==> exists se :: se in log && k == PackEventKey(ns, se.position)
  {
    if se :| se in log && k == PackEventKey(ns, se.position) {
      var i :| 0 <= i < |log| && log[i] == se;
      assert EventKeys(ns, log)[i] == k;
    }
  }

  lemma {:induction false} ScannedValue(h: seq<Commit>, l: seq<Record>, ns: Bytes, se: StoredEvent)
    requires Matches(h, l) && se in LogOf(l, ns)
    ensures PackEventKey(ns, se.position) in Replay(h)
    ensures Replay(h)[PackEventKey(ns, se.position)] == EncodeEventValue(se.event)
  {
    EventInvariant(h, l, ns, se.position);
    assert StoredEvent(se.event, se.position) == se;
  }

  /** The scan returns the whole log, in order; it never fails on what appends wrote. */
  lemma {:induction false} ScanIsLog(h: seq<Commit>, l: seq<Record>, ns: Bytes)
    requires Matches(h, l)
    ensures ScanOf(Replay(h), ns) == Ok(LogOf(l, ns))
  {
    var kv, log := Replay(h), LogOf(l, ns);
    ScannedKeys(h, l, ns);
    var keys := EventKeys(ns, log);
    forall i | 0 <= i < |log| ensures keys[i] in kv && kv[keys[i]] == EncodeEventValue(log[i].event) {
      ScannedValue(h, l, ns, log[i]);
    }
    RowsAre(keys, ValuesOf(kv, keys), ns, log);
  }
}

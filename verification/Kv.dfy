/** An ordered key-value store as a history of committed write sets. */
module Kv {
  import opened Bytes

  type Store = map<Bytes, Bytes>

  /** Half-open key range. */
  datatype Range = Range(begin: Bytes, end: Bytes)

  predicate InRange(k: Bytes, r: Range) {
    !Less(k, r.begin) && Less(k, r.end)
  }

  function KeysIn(kv: Store, r: Range): (keys: seq<Bytes>)
    ensures StrictlySorted(keys)
    ensures forall k :: k in keys <==> k in kv && InRange(k, r)
  {
    Ascending(set k | k in kv && InRange(k, r))
  }

  /** A range read; limit 0 means no limit. */
  function GetRange(kv: Store, r: Range, limit: nat, reverse: bool): seq<Bytes> {
    Cut(if reverse then Reversed(KeysIn(kv, r)) else KeysIn(kv, r), limit)
  }

  /** What a range read returns is in the store and in the range. */
  lemma {:induction false} GetRangeHas(kv: Store, r: Range, limit: nat, reverse: bool)
    ensures forall k :: k in GetRange(kv, r, limit, reverse) ==> k in kv && InRange(k, r)
  {
    var keys := KeysIn(kv, r);
    forall k | k in GetRange(kv, r, limit, reverse) ensures k in keys {
      ReversedHas(keys, k);
    }
  }

  function ValuesOf(kv: Store, keys: seq<Bytes>): seq<Bytes>
    requires forall k :: k in keys ==> k in kv
  {
    seq(|keys|, i requires 0 <= i < |keys| => kv[keys[i]])
  }

  /** One committed transaction: its version and what it set. */
  datatype Commit = Commit(version: nat, writes: map<Bytes, Bytes>)

  /** The store after a history of commits. */
  function Replay(h: seq<Commit>): Store {
    if h == [] then map[] else Replay(h[..|h| - 1]) + h[|h| - 1].writes
  }

  /** Some commit from index `readAt` on wrote into one of the ranges. */
  predicate Conflicts(h: seq<Commit>, readAt: nat, ranges: seq<Range>) {
    exists j, k, r :: readAt <= j < |h| && k in h[j].writes && r in ranges && InRange(k, r)
  }

  lemma {:induction false} ReplayHas(h: seq<Commit>, k: Bytes)
    ensures k in Replay(h) <==> exists j :: 0 <= j < |h| && k in h[j].writes
  {
    if h != [] {
      var n := |h| - 1;
      ReplayHas(h[..n], k);
      assert forall j :: 0 <= j < n ==> h[..n][j] == h[j];
    }
  }

  /** Commits after index `n` that do not write `k` leave it as it was. */
  lemma {:induction false} ReplayUnchanged(h: seq<Commit>, n: nat, k: Bytes)
    requires n <= |h|
    requires forall j :: n <= j < |h| ==> k !in h[j].writes
    ensures k in Replay(h) <==> k in Replay(h[..n])
    ensures k in Replay(h) ==> Replay(h)[k] == Replay(h[..n])[k]
    decreases |h|
  {
    if n == |h| {
      assert h[..n] == h;
    } else {
      var m := |h| - 1;
      ReplayUnchanged(h[..m], n, k);
      assert h[..m][..n] == h[..n];
    }
  }

  /** The last commit that writes `k` decides its value. */
  lemma {:induction false} ReplayLast(h: seq<Commit>, j: nat, k: Bytes)
    requires j < |h| && k in h[j].writes
    requires forall i :: j < i < |h| ==> k !in h[i].writes
    ensures k in Replay(h) && Replay(h)[k] == h[j].writes[k]
  {
    ReplayUnchanged(h, j + 1, k);
    assert h[..j + 1][..j] == h[..j];
  }
}

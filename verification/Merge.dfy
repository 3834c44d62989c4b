/** The k-way merge of `read.rs`: heap items, the heap, and the merge loop. */
module Merge {
  import opened Bytes
  import opened Tuples
  import opened Types

  datatype HeapItem = HeapItem(vs: Versionstamp, iterIdx: nat)

  /** The position first, then the index of the stream. */
  predicate ItemLess(a: HeapItem, b: HeapItem) {
    Less(a.vs, b.vs) || (a.vs == b.vs && a.iterIdx < b.iterIdx)
  }

  /** `a` is popped before `b`: the smaller one first, or the larger one backwards. */
  predicate Ahead(reverse: bool, a: HeapItem, b: HeapItem) {
    if reverse then ItemLess(b, a) else ItemLess(a, b)
  }

  predicate Before(reverse: bool, a: Bytes, b: Bytes) {
    if reverse then Less(b, a) else Less(a, b)
  }

  ghost predicate Ordered(reverse: bool, s: seq<Bytes>) {
    forall i, j :: 0 <= i < j < |s| ==> Before(reverse, s[i], s[j])
  }

  lemma {:induction false} BeforeTransitive(reverse: bool, a: Bytes, b: Bytes, c: Bytes)
    requires Before(reverse, a, b) && Before(reverse, b, c)
    ensures Before(reverse, a, c)
  {
    if reverse {
      LessTransitive(c, b, a);
    } else {
      LessTransitive(a, b, c);
    }
  }

  lemma {:induction false} BeforeIrreflexive(reverse: bool, a: Bytes)
    ensures !Before(reverse, a, a)
  {
    LessIrreflexive(a);
  }

  lemma {:induction false} AheadTotal(reverse: bool, a: HeapItem, b: HeapItem)
    ensures a == b || Ahead(reverse, a, b) || Ahead(reverse, b, a)
  {
    LessTotal(a.vs, b.vs);
  }

  lemma {:induction false} AheadTransitive(reverse: bool, a: HeapItem, b: HeapItem, c: HeapItem)
    requires Ahead(reverse, a, b) && Ahead(reverse, b, c)
    ensures Ahead(reverse, a, c)
  {
    if Before(reverse, a.vs, b.vs) && Before(reverse, b.vs, c.vs) {
      BeforeTransitive(reverse, a.vs, b.vs, c.vs);
    }
  }

  // -------------------------------------------------------------------------
  // The heap
  // -------------------------------------------------------------------------

  predicate IsTop(reverse: bool, top: HeapItem, items: multiset<HeapItem>) {
    top in items && forall x :: x in items ==> x == top || Ahead(reverse, top, x)
  }

  lemma {:induction false} TopExists(reverse: bool, items: multiset<HeapItem>) returns (top: HeapItem)
    requires items != multiset{}
    ensures IsTop(reverse, top, items)
    decreases |items|
  {
    var y :| y in items;
    var rest := items - multiset{y};
    assert forall x :: x in items ==> x == y || x in rest;
    if rest == multiset{} {
      top := y;
    } else {
      var z := TopExists(reverse, rest);
      AheadTotal(reverse, y, z);
      top := if Ahead(reverse, y, z) then y else z;
      forall x | x in items ensures x == top || Ahead(reverse, top, x) {
        if Ahead(reverse, y, z) && Ahead(reverse, z, x) {
          AheadTransitive(reverse, y, z, x);
        }
      }
    }
  }

  class MergeHeap {
    const reverse: bool
    var items: multiset<HeapItem>

    constructor (reverse: bool)
      ensures this.reverse == reverse && items == multiset{}
    {
      this.reverse := reverse;
      items := multiset{};
    }

    method Push(item: HeapItem)
      modifies this
      ensures items == old(items) + multiset{item}
    {
      items := items + multiset{item};
    }

    method Pop() returns (top: Option<HeapItem>)
      modifies this
      ensures top.None? <==> old(items) == multiset{}
      ensures top.None? ==> items == old(items)
      ensures top.Some? ==> IsTop(reverse, top.value, old(items)) && items == old(items) - multiset{top.value}
    {
      if items == multiset{} {
        return None;
      }
      assert exists t :: IsTop(reverse, t, items) by {
        var t := TopExists(reverse, items);
      }
      var item :| IsTop(reverse, item, items);
      items := items - multiset{item};
      return Some(item);
    }
  }

  // -------------------------------------------------------------------------
  // Streams of keys
  // -------------------------------------------------------------------------

  /** The last 13 bytes are a stamp element. */
  predicate Stamped(key: Bytes) {
    |key| >= 13 && key[|key| - 13] == STAMP_CODE
  }

  function StampOf(key: Bytes): Versionstamp
    requires Stamped(key)
  {
    key[|key| - 12..]
  }

  function ExtractVsFromKey(key: Bytes): Result<Versionstamp> {
    if |key| < 13 || key[|key| - 13] != STAMP_CODE then Err(TupleDecode) else Ok(StampOf(key))
  }

  ghost predicate AllStamped(keys: seq<Bytes>) {
    forall k :: k in keys ==> Stamped(k)
  }

  ghost predicate SomeUnstamped(streams: seq<seq<Bytes>>) {
    exists i :: 0 <= i < |streams| && !AllStamped(streams[i])
  }

  /** `stamps` are the positions of `keys`, wherever a key has one. */
  ghost predicate StampsFit(keys: seq<Bytes>, stamps: seq<Bytes>) {
    |stamps| == |keys| && forall i :: 0 <= i < |keys| ==>
        |stamps[i]| == 12 && (Stamped(keys[i]) ==> stamps[i] == StampOf(keys[i]))
  }

  /** The next position of a stream, and the rest of the stream. */
  method NextVs(stream: seq<Bytes>) returns (r: Result<Option<Versionstamp>>, rest: seq<Bytes>)
    ensures stream == [] ==> r == Ok(None) && rest == []
    ensures stream != [] ==> rest == stream[1..]
    ensures stream != [] && Stamped(stream[0]) ==> r == Ok(Some(StampOf(stream[0])))
    ensures stream != [] && !Stamped(stream[0]) ==> r == Err(TupleDecode)
  {
    if stream == [] {
      return Ok(None), [];
    }
    rest := stream[1..];
    var vs := ExtractVsFromKey(stream[0]);
    if vs.Err? {
      return Err(vs.error), rest;
    }
    return Ok(Some(vs.value)), rest;
  }

  // -------------------------------------------------------------------------
  // What a merge is
  // -------------------------------------------------------------------------

  ghost predicate InSome(x: Bytes, streams: seq<seq<Bytes>>) {
    exists i :: 0 <= i < |streams| && x in streams[i]
  }

  /**
   `out` is the duplicate-free ordered union of the streams, or its first `limit`
   elements: everything left out comes after everything in it.
   */
  ghost predicate IsMerge(streams: seq<seq<Bytes>>, limit: nat, reverse: bool, out: seq<Bytes>) {
    && Ordered(reverse, out)
    && (limit > 0 ==> |out| <= limit)
    && (forall x :: x in out ==> InSome(x, streams))
    && (forall x :: InSome(x, streams) && x !in out ==>
          limit > 0 && |out| == limit && forall y :: y in out ==> Before(reverse, y, x))
  }

  /** No more than `limit` elements, and unless there are that many, all of the streams. */
  ghost predicate Exhausts(streams: seq<seq<Bytes>>, limit: nat, out: seq<Bytes>) {
    && (limit > 0 ==> |out| <= limit)
    && (limit == 0 || |out| < limit ==> forall x :: InSome(x, streams) ==> x in out)
  }

  // -------------------------------------------------------------------------
  // The merge loop
  // -------------------------------------------------------------------------

  ghost function TotalLeft(streams: seq<seq<Bytes>>, p: seq<nat>): int
    requires |p| == |streams|
  {
    if streams == [] then 0
    else
      var n := |streams| - 1;
      TotalLeft(streams[..n], p[..n]) + |streams[n]| - p[n]
  }

  lemma {:induction false} TotalLeftStep(streams: seq<seq<Bytes>>, p: seq<nat>, i: nat)
    requires |p| == |streams| && i < |p|
    ensures TotalLeft(streams, p[i := p[i] + 1]) == TotalLeft(streams, p) - 1
  {
    var n := |streams| - 1;
    if i < n {
      TotalLeftStep(streams[..n], p[..n], i);
      assert p[i := p[i] + 1][..n] == p[..n][i := p[i] + 1];
    } else {
      assert p[i := p[i] + 1][..n] == p[..n];
    }
  }

  lemma {:induction false} TotalLeftPositive(streams: seq<seq<Bytes>>, p: seq<nat>)
    requires |p| == |streams| && forall i :: 0 <= i < |p| ==> p[i] <= |streams[i]|
    ensures TotalLeft(streams, p) >= 0
  {
    if streams != [] {
      TotalLeftPositive(streams[..|streams| - 1], p[..|streams| - 1]);
    }
  }

  /** The heap holds the first unpopped position of every stream that has one. */
  ghost predicate HoldsHeads(items: multiset<HeapItem>, streams: seq<seq<Bytes>>, p: seq<nat>)
    requires |p| == |streams|
  {
    forall item: HeapItem :: items[item] ==
      if item.iterIdx < |streams| && p[item.iterIdx] < |streams[item.iterIdx]|
         && item.vs == streams[item.iterIdx][p[item.iterIdx]]
      then 1 else 0
  }

  ghost predicate PoppedAreOut(streams: seq<seq<Bytes>>, p: seq<nat>, out: seq<Bytes>)
    requires |p| == |streams| && forall i :: 0 <= i < |p| ==> p[i] <= |streams[i]|
  {
    forall i, j :: 0 <= i < |streams| && 0 <= j < p[i] ==> streams[i][j] in out
  }

  ghost predicate OutBeforeHeads(reverse: bool, streams: seq<seq<Bytes>>, p: seq<nat>, out: seq<Bytes>)
    requires |p| == |streams|
  {
    forall i, x :: 0 <= i < |streams| && p[i] < |streams[i]| && x in out ==>
      x == streams[i][p[i]] || Before(reverse, x, streams[i][p[i]])
  }

  /** Emitting a head that no other head precedes keeps the loop's facts. */
  lemma {:induction false} EmitHead(reverse: bool, streams: seq<seq<Bytes>>, p: seq<nat>, out: seq<Bytes>, vs: Bytes,
        idx: nat)
    requires |p| == |streams| && idx < |p| && p[idx] < |streams[idx]| && vs == streams[idx][p[idx]]
    requires Ordered(reverse, out) && OutBeforeHeads(reverse, streams, p, out) && vs !in out
    requires forall i :: 0 <= i < |streams| && p[i] < |streams[i]| ==>
               vs == streams[i][p[i]] || Before(reverse, vs, streams[i][p[i]])
    ensures Ordered(reverse, out + [vs]) && OutBeforeHeads(reverse, streams, p, out + [vs])
  {
    forall i | 0 <= i < |out| ensures Before(reverse, out[i], vs) {
      assert out[i] in out;
    }
  }

  /** Popping an emitted head keeps them too. */
  lemma {:induction false} PopHead(reverse: bool, streams: seq<seq<Bytes>>, p: seq<nat>, out: seq<Bytes>, idx: nat)
    requires |p| == |streams| && idx < |p| && p[idx] < |streams[idx]|
    requires Ordered(reverse, streams[idx])
    requires OutBeforeHeads(reverse, streams, p, out)
    ensures OutBeforeHeads(reverse, streams, p[idx := p[idx] + 1], out)
  {
    var q := p[idx := p[idx] + 1];
    if q[idx] < |streams[idx]| {
      forall x | x in out ensures Before(reverse, x, streams[idx][q[idx]]) {
        if x != streams[idx][p[idx]] {
          BeforeTransitive(reverse, x, streams[idx][p[idx]], streams[idx][q[idx]]);
        }
      }
    }
  }

  ghost predicate AllOrdered(reverse: bool, streams: seq<seq<Bytes>>) {
    forall i :: 0 <= i < |streams| ==> Ordered(reverse, streams[i])
  }

  /** What holds between two rounds of the loop, with more to say if the streams are ordered. */
  ghost predicate LoopState(reverse: bool, streams: seq<seq<Bytes>>, p: seq<nat>, out: seq<Bytes>) {
    && |p| == |streams|
    && (forall i :: 0 <= i < |p| ==> p[i] <= |streams[i]|)
    && (forall x :: x in out ==> InSome(x, streams))
    && PoppedAreOut(streams, p, out)
    && (AllOrdered(reverse, streams) ==> Ordered(reverse, out) && OutBeforeHeads(reverse, streams, p, out))
  }

  ghost predicate IsFirstHead(reverse: bool, streams: seq<seq<Bytes>>, p: seq<nat>, vs: Bytes, idx: nat)
    requires |p| == |streams|
  {
    && idx < |p| && p[idx] < |streams[idx]| && vs == streams[idx][p[idx]]
    && forall i :: 0 <= i < |streams| && p[i] < |streams[i]| ==>
         vs == streams[i][p[i]] || Before(reverse, vs, streams[i][p[i]])
  }

  /** A round that drops a position already emitted. */
  lemma {:induction false} SkipStep(reverse: bool, streams: seq<seq<Bytes>>, p: seq<nat>, out: seq<Bytes>, idx: nat)
    requires LoopState(reverse, streams, p, out)
    requires idx < |p| && p[idx] < |streams[idx]| && streams[idx][p[idx]] in out
    ensures LoopState(reverse, streams, p[idx := p[idx] + 1], out)
  {
    if AllOrdered(reverse, streams) {
      PopHead(reverse, streams, p, out, idx);
    }
  }

  /** A round that emits a position, before its stream moves on. */
  lemma {:induction false} EmitStep(reverse: bool, streams: seq<seq<Bytes>>, p: seq<nat>, out: seq<Bytes>, vs: Bytes,
        idx: nat)
    requires LoopState(reverse, streams, p, out) && IsFirstHead(reverse, streams, p, vs, idx)
    requires out == [] || out[|out| - 1] != vs
    ensures LoopState(reverse, streams, p, out + [vs])
  {
    if AllOrdered(reverse, streams) {
      NotYetOut(reverse, streams, p, out, vs, idx);
      EmitHead(reverse, streams, p, out, vs, idx);
    }
    assert vs in streams[idx];
  }

  /** All streams popped, or the limit reached with the remaining heads ahead. */
  lemma {:induction false} LoopEnds(reverse: bool, streams: seq<seq<Bytes>>, p: seq<nat>, out: seq<Bytes>, limit: nat)
    requires LoopState(reverse, streams, p, out) && AllOrdered(reverse, streams)
    requires (limit > 0 && |out| == limit) || (forall i :: 0 <= i < |p| ==> p[i] == |streams[i]|)
    requires limit > 0 ==> |out| <= limit
    ensures IsMerge(streams, limit, reverse, out)
  {
    forall x | InSome(x, streams) && x !in out
      ensures limit > 0 && |out| == limit && forall y :: y in out ==> Before(reverse, y, x)
    {
      var i :| 0 <= i < |streams| && x in streams[i];
      var j :| 0 <= j < |streams[i]| && streams[i][j] == x;
      assert j >= p[i];
      forall y | y in out ensures Before(reverse, y, x) {
        var head := streams[i][p[i]];
        if y != head && head != x {
          BeforeTransitive(reverse, y, head, x);
        }
      }
    }
  }

  /** When all streams are used up, nothing is left out, in whatever order they were. */
  lemma {:induction false} PoppedExhausts(reverse: bool, streams: seq<seq<Bytes>>, p: seq<nat>, out: seq<Bytes>,
        limit: nat)
    requires LoopState(reverse, streams, p, out) && (limit > 0 ==> |out| <= limit)
    requires (limit > 0 && |out| == limit) || AllPopped(streams, p)
    ensures Exhausts(streams, limit, out)
  {
    if limit == 0 || |out| < limit {
      forall x | InSome(x, streams) ensures x in out {
        var i :| 0 <= i < |streams| && x in streams[i];
        var j :| 0 <= j < |streams[i]| && streams[i][j] == x;
      }
    }
  }

  ghost predicate AllStamps(streams: seq<seq<Bytes>>) {
    forall i, x :: 0 <= i < |streams| && x in streams[i] ==> |x| == 12
  }

  lemma {:induction false} HeadHeld(items: multiset<HeapItem>, streams: seq<seq<Bytes>>, p: seq<nat>, i: nat)
    requires |p| == |streams| && HoldsHeads(items, streams, p) && AllStamps(streams)
    requires i < |p| && p[i] < |streams[i]|
    ensures |streams[i][p[i]]| == 12 && items[HeapItem(streams[i][p[i]], i)] == 1
  {
    assert streams[i][p[i]] in streams[i];
  }

  /** An empty heap: every stream is used up. */
  lemma {:induction false} NothingHeld(streams: seq<seq<Bytes>>, p: seq<nat>)
    requires |p| == |streams| && forall i :: 0 <= i < |p| ==> p[i] <= |streams[i]|
    requires AllStamps(streams) && HoldsHeads(multiset{}, streams, p)
    ensures forall i :: 0 <= i < |p| ==> p[i] == |streams[i]|
  {
    forall i | 0 <= i < |p| ensures p[i] == |streams[i]| {
      if p[i] < |streams[i]| {
        HeadHeld(multiset{}, streams, p, i);
      }
    }
  }

  /** The popped item is the head of its stream and no other head precedes it. */
  lemma {:induction false} TopIsFirst(reverse: bool, items: multiset<HeapItem>, streams: seq<seq<Bytes>>,
        p: seq<nat>, top: HeapItem)
    requires |p| == |streams| && HoldsHeads(items, streams, p) && IsTop(reverse, top, items)
    requires AllStamps(streams)
    ensures IsFirstHead(reverse, streams, p, top.vs, top.iterIdx) && items[top] == 1
  {
    forall i | 0 <= i < |streams| && p[i] < |streams[i]|
      ensures top.vs == streams[i][p[i]] || Before(reverse, top.vs, streams[i][p[i]])
    {
      HeadHeld(items, streams, p, i);
      assert HeapItem(streams[i][p[i]], i) in items;
    }
  }

  /** The heap after popping a head and pushing the one behind it, if any. */
  ghost function Advanced(items: multiset<HeapItem>, streams: seq<seq<Bytes>>, p: seq<nat>,
        top: HeapItem): multiset<HeapItem>
    requires top.iterIdx < |p| == |streams|
    requires AllStamps(streams)
  {
    var i := top.iterIdx;
    var rest := items - multiset{top};
    if p[i] + 1 < |streams[i]| then
      assert streams[i][p[i] + 1] in streams[i];
      rest + multiset{HeapItem(streams[i][p[i] + 1], i)}
    else rest
  }

  lemma {:induction false} AdvancedHolds(items: multiset<HeapItem>, streams: seq<seq<Bytes>>, p: seq<nat>,
        top: HeapItem)
    requires |p| == |streams| && HoldsHeads(items, streams, p) && items[top] == 1
    requires AllStamps(streams)
    requires top.iterIdx < |p| && p[top.iterIdx] < |streams[top.iterIdx]|
              && top.vs == streams[top.iterIdx][p[top.iterIdx]]
    ensures HoldsHeads(Advanced(items, streams, p, top), streams, p[top.iterIdx := p[top.iterIdx] + 1])
  {
    var i := top.iterIdx;
    var q := p[i := p[i] + 1];
    var after := Advanced(items, streams, p, top);
    forall item: HeapItem ensures after[item] ==
      if item.iterIdx < |streams| && q[item.iterIdx] < |streams[item.iterIdx]|
         && item.vs == streams[item.iterIdx][q[item.iterIdx]]
      then 1 else 0
    {
      if item.iterIdx == i && item != top {
        assert items[item] == 0;
      }
    }
  }

  /** What is left of a stream once its head went to the heap. */
  ghost function RestOf(keys: seq<Bytes>, popped: nat): seq<Bytes>
    requires popped <= |keys|
  {
    if popped == |keys| then [] else keys[popped + 1..]
  }

  /** The streams and the heap agree with the numbers of popped positions. */
  ghost predicate Aligned(keys: seq<seq<Bytes>>, streams: seq<seq<Bytes>>, items: multiset<HeapItem>,
        stamps: seq<seq<Bytes>>, p: seq<nat>)
  {
    && |keys| == |streams| == |stamps| == |p|
    && (forall i :: 0 <= i < |p| ==> p[i] <= |keys[i]| && streams[i] == RestOf(keys[i], p[i]))
    && HoldsHeads(items, stamps, p)
  }

  /** The heads of the first `n` streams are in the heap, the other streams are whole. */
  ghost predicate Seeded(keys: seq<seq<Bytes>>, streams: seq<seq<Bytes>>, items: multiset<HeapItem>,
        stamps: seq<seq<Bytes>>, n: nat)
    requires n <= |keys| == |stamps|
  {
    && |streams| == |keys|
    && (forall i :: 0 <= i < n ==> streams[i] == RestOf(keys[i], 0))
    && (forall i :: n <= i < |keys| ==> streams[i] == keys[i])
    && forall item: HeapItem :: items[item] ==
         if item.iterIdx < n && stamps[item.iterIdx] != [] && item.vs == stamps[item.iterIdx][0] then 1 else 0
  }

  /** One more stream gives its head. */
  lemma {:induction false} SeededNext(keys: seq<seq<Bytes>>, streams: seq<seq<Bytes>>, items: multiset<HeapItem>,
        stamps: seq<seq<Bytes>>, n: nat, rest: seq<Bytes>, more: multiset<HeapItem>)
    requires n < |keys| == |stamps| && Seeded(keys, streams, items, stamps, n) && rest == RestOf(keys[n], 0)
    requires stamps[n] != [] ==> |stamps[n][0]| == 12
    requires more == if stamps[n] != [] then items + multiset{HeapItem(stamps[n][0], n)} else items
    ensures Seeded(keys, streams[n := rest], more, stamps, n + 1)
  {
  }

  /** Takes the head of stream `n` into the heap. */
  method SeedOne(keys: seq<seq<Bytes>>, streams: seq<seq<Bytes>>, heap: MergeHeap, ghost stamps: seq<seq<Bytes>>,
        n: nat)
    returns (r: Result<()>, seeded: seq<seq<Bytes>>)
    requires n < |keys| == |stamps| && StampsFit(keys[n], stamps[n])
    requires Seeded(keys, streams, heap.items, stamps, n)
    modifies heap
    ensures r.Err? ==> r.error.TupleDecode? && !AllStamped(keys[n])
    ensures r.Ok? ==> Seeded(keys, seeded, heap.items, stamps, n + 1)
    ensures |seeded| == |keys|
  {
    ghost var held := heap.items;
    assert keys[n] != [] ==> keys[n][0] in keys[n];
    var head, rest := NextVs(streams[n]);
    seeded := streams[n := rest];
    if head.Err? {
      return Err(head.error), seeded;
    }
    if head.value.Some? {
      heap.Push(HeapItem(head.value.value, n));
    }
    SeededNext(keys, streams, held, stamps, n, rest, heap.items);
    r := Ok(());
  }

  /** Seeds the heap with the head of every stream. */
  method SeedHeap(keys: seq<seq<Bytes>>, heap: MergeHeap, ghost stamps: seq<seq<Bytes>>)
    returns (r: Result<()>, streams: seq<seq<Bytes>>)
    requires |stamps| == |keys| && forall i :: 0 <= i < |keys| ==> StampsFit(keys[i], stamps[i])
    requires heap.items == multiset{}
    modifies heap
    ensures r.Err? ==> r.error.TupleDecode? && SomeUnstamped(keys)
    ensures |streams| == |keys|
    ensures r.Ok? ==> Aligned(keys, streams, heap.items, stamps, seq(|keys|, _ => 0))
  {
    streams := keys;
    for i := 0 to |keys|
      invariant Seeded(keys, streams, heap.items, stamps, i)
    {
      var seeded;
      seeded, streams := SeedOne(keys, streams, heap, stamps, i);
      if seeded.Err? {
        return Err(seeded.error), streams;
      }
    }
    return Ok(()), streams;
  }

  function LastOf(out: seq<Bytes>): Option<Bytes> {
    if |out| == 0 then None else Some(out[|out| - 1])
  }

  /** The same after the head `top` was popped and its stream advanced. */
  lemma {:induction false} AlignedStep(keys: seq<seq<Bytes>>, streams: seq<seq<Bytes>>, held: multiset<HeapItem>,
        stamps: seq<seq<Bytes>>, p: seq<nat>, top: HeapItem, rest: seq<Bytes>, items: multiset<HeapItem>)
    requires Aligned(keys, streams, held, stamps, p) && held[top] == 1
    requires forall i :: 0 <= i < |keys| ==> StampsFit(keys[i], stamps[i])
    requires top.iterIdx < |p| && p[top.iterIdx] < |stamps[top.iterIdx]|
              && top.vs == stamps[top.iterIdx][p[top.iterIdx]]
    requires var stream := streams[top.iterIdx];
             if stream == [] then rest == [] && items == held - multiset{top}
             else rest == stream[1..] && Stamped(stream[0]) &&
                  items == held - multiset{top} + multiset{HeapItem(StampOf(stream[0]), top.iterIdx)}
    ensures Aligned(keys, streams[top.iterIdx := rest], items, stamps, p[top.iterIdx := p[top.iterIdx] + 1])
  {
    var i := top.iterIdx;
    FitStamps(keys, stamps);
    AdvancedHolds(held, stamps, p, top);
    RestHead(keys[i], stamps[i], p[i]);
    assert items == Advanced(held, stamps, p, top);
    var q := p[i := p[i] + 1];
    forall j | 0 <= j < |q| ensures q[j] <= |keys[j]| && streams[i := rest][j] == RestOf(keys[j], q[j]) {
      if j != i {
        assert q[j] == p[j] && streams[i := rest][j] == streams[j];
      }
    }
  }

  lemma {:induction false} RestHead(keys: seq<Bytes>, stamps: seq<Bytes>, popped: nat)
    requires popped < |keys| && StampsFit(keys, stamps)
    ensures var rest := RestOf(keys, popped);
            && (rest == [] <==> popped + 1 == |stamps|)
            && (rest != [] ==> rest[0] == keys[popped + 1] && rest[0] in keys && RestOf(keys, popped + 1) == rest[1..])
            && (rest != [] && Stamped(rest[0]) ==> stamps[popped + 1] == StampOf(rest[0]))
            && (rest == [] ==> RestOf(keys, popped + 1) == [])
  {
  }

  /** Takes the next position of the stream of the popped item, if any, into the heap. */
  method AdvanceAndRepush(streams: seq<seq<Bytes>>, top: HeapItem, heap: MergeHeap, ghost held: multiset<HeapItem>,
        ghost keys: seq<seq<Bytes>>, ghost stamps: seq<seq<Bytes>>, ghost p: seq<nat>)
    returns (r: Result<()>, advanced: seq<seq<Bytes>>)
    requires Aligned(keys, streams, held, stamps, p) && held[top] == 1
    requires forall i :: 0 <= i < |keys| ==> StampsFit(keys[i], stamps[i])
    requires top.iterIdx < |p| && p[top.iterIdx] < |stamps[top.iterIdx]|
              && top.vs == stamps[top.iterIdx][p[top.iterIdx]]
    requires heap.items == held - multiset{top}
    modifies heap
    ensures r.Ok? ==> Aligned(keys, advanced, heap.items, stamps, p[top.iterIdx := p[top.iterIdx] + 1])
    ensures r.Err? ==> r.error.TupleDecode? && SomeUnstamped(keys)
  {
    var idx := top.iterIdx;
    RestHead(keys[idx], stamps[idx], p[idx]);
    var head, rest := NextVs(streams[idx]);
    if head.Err? {
      return Err(head.error), streams;
    }
    if head.value.Some? {
      heap.Push(HeapItem(head.value.value, idx));
    }
    AlignedStep(keys, streams, held, stamps, p, top, rest, heap.items);
    return Ok(()), streams[idx := rest];
  }

  lemma {:induction false} FitStamps(keys: seq<seq<Bytes>>, stamps: seq<seq<Bytes>>)
    requires |stamps| == |keys| && forall i :: 0 <= i < |keys| ==> StampsFit(keys[i], stamps[i])
    ensures AllStamps(stamps)
  {
  }

  /** What holds between two rounds. */
  ghost predicate MergeState(keys: seq<seq<Bytes>>, streams: seq<seq<Bytes>>, reverse: bool, items: multiset<HeapItem>,
        stamps: seq<seq<Bytes>>, p: seq<nat>, out: seq<Bytes>)
  {
    && LoopState(reverse, stamps, p, out)
    && Aligned(keys, streams, items, stamps, p)
  }

  /** One more position of some stream is popped. */
  ghost predicate Moved(stamps: seq<seq<Bytes>>, p: seq<nat>, q: seq<nat>) {
    exists i :: 0 <= i < |p| == |stamps| && p[i] < |stamps[i]| && q == p[i := p[i] + 1]
  }

  lemma {:induction false} MovedDecreases(stamps: seq<seq<Bytes>>, p: seq<nat>, q: seq<nat>)
    requires |p| == |stamps| && forall i :: 0 <= i < |p| ==> p[i] <= |stamps[i]|
    requires Moved(stamps, p, q)
    ensures |q| == |stamps| && 0 <= TotalLeft(stamps, q) < TotalLeft(stamps, p)
  {
    var i :| 0 <= i < |p| && p[i] < |stamps[i]| && q == p[i := p[i] + 1];
    TotalLeftStep(stamps, p, i);
    TotalLeftPositive(stamps, q);
  }

  ghost predicate AllPopped(stamps: seq<seq<Bytes>>, p: seq<nat>) {
    |p| == |stamps| && forall i :: 0 <= i < |p| ==> p[i] == |stamps[i]|
  }

  function Emit(out: seq<Versionstamp>, vs: Versionstamp): seq<Versionstamp> {
    if LastOf(out) == Some(vs) then out else out + [vs]
  }

  lemma {:induction false} RoundState(reverse: bool, stamps: seq<seq<Bytes>>, p: seq<nat>, out: seq<Versionstamp>,
        vs: Versionstamp, idx: nat)
    requires LoopState(reverse, stamps, p, out) && IsFirstHead(reverse, stamps, p, vs, idx)
    ensures LoopState(reverse, stamps, p, Emit(out, vs))
    ensures LoopState(reverse, stamps, p[idx := p[idx] + 1], Emit(out, vs))
  {
    if LastOf(out) == Some(vs) {
      assert out[|out| - 1] == vs;
    } else {
      EmitStep(reverse, stamps, p, out, vs, idx);
    }
    assert vs in Emit(out, vs);
    SkipStep(reverse, stamps, p, Emit(out, vs), idx);
  }

  /** Everything a round needs to know about the popped item. */
  lemma {:induction false} RoundReady(reverse: bool, items: multiset<HeapItem>, keys: seq<seq<Bytes>>,
        stamps: seq<seq<Bytes>>, p: seq<nat>, out: seq<Versionstamp>, top: HeapItem)
    requires |keys| == |stamps| && forall i :: 0 <= i < |keys| ==> StampsFit(keys[i], stamps[i])
    requires LoopState(reverse, stamps, p, out) && HoldsHeads(items, stamps, p) && IsTop(reverse, top, items)
    ensures top.iterIdx < |p| && p[top.iterIdx] < |stamps[top.iterIdx]| && top.vs == stamps[top.iterIdx][p[top.iterIdx]]
    ensures items[top] == 1
    ensures LoopState(reverse, stamps, p, Emit(out, top.vs))
    ensures LoopState(reverse, stamps, p[top.iterIdx := p[top.iterIdx] + 1], Emit(out, top.vs))
    ensures Moved(stamps, p, p[top.iterIdx := p[top.iterIdx] + 1])
  {
    FitStamps(keys, stamps);
    TopIsFirst(reverse, items, stamps, p, top);
    RoundState(reverse, stamps, p, out, top.vs, top.iterIdx);
  }

  /**
   One round of the merge loop, for a popped item: a position already emitted is
   skipped, any other is emitted; unless that reaches the limit (`full`), the
   stream of the item moves on.
   */
  method MergeRound(top: HeapItem, streams: seq<seq<Bytes>>, heap: MergeHeap, limit: nat, out: seq<Versionstamp>,
        lastEmitted: Option<Bytes>, ghost held: multiset<HeapItem>, ghost keys: seq<seq<Bytes>>,
        ghost stamps: seq<seq<Bytes>>, ghost p: seq<nat>)
    returns (full: Result<bool>, advanced: seq<seq<Bytes>>, emitted: seq<Versionstamp>, ghost q: seq<nat>)
    requires MergeState(keys, streams, heap.reverse, held, stamps, p, out)
    requires forall i :: 0 <= i < |keys| ==> StampsFit(keys[i], stamps[i])
    requires heap.items == held - multiset{top} && IsTop(heap.reverse, top, held)
    requires lastEmitted == LastOf(out) && (limit > 0 ==> |out| < limit)
    modifies heap
    ensures full.Err? ==> full.error.TupleDecode? && SomeUnstamped(keys)
    ensures full == Ok(true) ==> limit > 0 && |emitted| == limit && LoopState(heap.reverse, stamps, q, emitted)
    ensures full == Ok(false) ==>
              MergeState(keys, advanced, heap.reverse, heap.items, stamps, q, emitted) && Moved(stamps, p, q)
    ensures full == Ok(false) && limit > 0 ==> |emitted| < limit
  {
    RoundReady(heap.reverse, held, keys, stamps, p, out, top);
    var vs := top.vs;
    emitted, advanced, q := out, streams, p;
    if lastEmitted != Some(vs) {
      emitted := out + [vs];
      if limit > 0 && |emitted| >= limit {
        return Ok(true), advanced, emitted, q;
      }
    }
    q := p[top.iterIdx := p[top.iterIdx] + 1];
    var done;
    done, advanced := AdvanceAndRepush(streams, top, heap, held, keys, stamps, p);
    if done.Err? {
      return Err(done.error), advanced, emitted, q;
    }
    return Ok(false), advanced, emitted, q;
  }

  /** The loop, from a seeded heap. */
  method MergeLoop(seeded: seq<seq<Bytes>>, heap: MergeHeap, limit: nat, ghost keys: seq<seq<Bytes>>,
        ghost stamps: seq<seq<Bytes>>, ghost start: seq<nat>)
    returns (r: Result<seq<Versionstamp>>, ghost p: seq<nat>)
    requires |keys| == |stamps| && forall i :: 0 <= i < |keys| ==> StampsFit(keys[i], stamps[i])
    requires MergeState(keys, seeded, heap.reverse, heap.items, stamps, start, [])
    modifies heap
    ensures r.Err? ==> r.error.TupleDecode? && SomeUnstamped(keys)
    ensures r.Ok? ==> LoopState(heap.reverse, stamps, p, r.value)
    ensures r.Ok? ==> (limit > 0 && |r.value| == limit) || AllPopped(stamps, p)
    ensures r.Ok? && limit > 0 ==> |r.value| <= limit
  {
    var streams := seeded;
    var orderedVses: seq<Versionstamp> := [];
    var lastEmitted: Option<Bytes> := None;
    p := start;
    while true
      invariant MergeState(keys, streams, heap.reverse, heap.items, stamps, p, orderedVses)
      invariant lastEmitted == LastOf(orderedVses)
      invariant limit > 0 ==> |orderedVses| < limit
      decreases TotalLeft(stamps, p)
    {
      ghost var held, before := heap.items, p;
      var top := heap.Pop();
      if top.None? {
        FitStamps(keys, stamps);
        NothingHeld(stamps, p);
        return Ok(orderedVses), p;
      }
      var full;
      full, streams, orderedVses, p := MergeRound(top.value, streams, heap, limit, orderedVses, lastEmitted,
                                                  held, keys, stamps, p);
      if full.Err? {
        return Err(full.error), p;
      }
      if full.value {
        return Ok(orderedVses), p;
      }
      lastEmitted := LastOf(orderedVses);
      MovedDecreases(stamps, before, p);
    }
  }

  /**
   The merge: it terminates, it only fails on a key without a stamp, it leaves nothing
   out before the limit is reached, and for ordered streams its result is their ordered
   union without duplicates, cut at `limit`.
   */
  method MergeStreams(keys: seq<seq<Bytes>>, limit: nat, reverse: bool, ghost stamps: seq<seq<Bytes>>)
    returns (r: Result<seq<Versionstamp>>)
    requires |stamps| == |keys| && forall i :: 0 <= i < |keys| ==> StampsFit(keys[i], stamps[i])
    ensures r.Err? ==> r.error.TupleDecode? && SomeUnstamped(keys)
    ensures r.Ok? ==> forall x :: x in r.value ==> InSome(x, stamps)
    ensures r.Ok? ==> Exhausts(stamps, limit, r.value)
    ensures r.Ok? && AllOrdered(reverse, stamps) ==> IsMerge(stamps, limit, reverse, r.value)
  {
    var heap := new MergeHeap(reverse);
    var seeded, streams := SeedHeap(keys, heap, stamps);
    if seeded.Err? {
      return Err(seeded.error);
    }
    ghost var p: seq<nat> := seq(|keys|, _ => 0);
    r, p := MergeLoop(streams, heap, limit, keys, stamps, p);
    if r.Ok? {
      PoppedExhausts(reverse, stamps, p, r.value, limit);
      if AllOrdered(reverse, stamps) {
        LoopEnds(reverse, stamps, p, r.value, limit);
      }
    }
  }

  /** A head other than the last emitted position was never emitted. */
  lemma {:induction false} NotYetOut(reverse: bool, streams: seq<seq<Bytes>>, p: seq<nat>, out: seq<Bytes>,
        vs: Bytes, idx: nat)
    requires |p| == |streams| && idx < |p| && p[idx] < |streams[idx]| && vs == streams[idx][p[idx]]
    requires Ordered(reverse, out) && OutBeforeHeads(reverse, streams, p, out)
    requires out == [] || out[|out| - 1] != vs
    ensures vs !in out
  {
    if vs in out {
      var i :| 0 <= i < |out| && out[i] == vs;
      var last := out[|out| - 1];
      assert last in out;
      BeforeTransitive(reverse, vs, last, vs);
      BeforeIrreflexive(reverse, vs);
      assert false;
    }
  }
}

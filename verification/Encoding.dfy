/** `encoding.rs`: canonical tags, tag subsets, stamps, keys and event values. */
module Encoding {
  import opened Bytes
  import opened Tuples
  import opened Types

  const EVENTS_SUB: Bytes := [0x65] // "e"
  const INDEXES_SUB: Bytes := [0x69] // "i"
  const EVENTS_IN_INDEXES_SUB: Bytes := RESERVED_TAG // "_"
  const SENTINEL_SUB: Bytes := [0x6C, 0x61, 0x73, 0x74, 0x76, 0x73] // "lastvs"
  const SUBS_SUB: Bytes := [0x73, 0x75, 0x62, 0x73] // "subs"

  // -------------------------------------------------------------------------
  // Canonical tag lists
  // -------------------------------------------------------------------------

  predicate Sorted(s: seq<Bytes>) {
    forall i, j :: 0 <= i < j < |s| ==> s[i] == s[j] || Less(s[i], s[j])
  }

  /** The set of tags as a list: strictly sorted, so order and repetition are gone. */
  function Canonical(tags: seq<Bytes>): (r: seq<Bytes>)
    ensures StrictlySorted(r)
    ensures forall t :: t in r <==> t in tags
  {
    Ascending(set t | t in tags)
  }

  function InsertSorted(s: seq<Bytes>, x: Bytes): (r: seq<Bytes>)
    ensures multiset(r) == multiset(s) + multiset{x}
  {
    if s == [] then [x]
    else
      assert s == [s[0]] + s[1..];
      if Less(s[0], x) then [s[0]] + InsertSorted(s[1..], x) else [x] + s
  }

  lemma {:induction false} SortedCons(x: Bytes, s: seq<Bytes>)
    requires Sorted(s) && forall y :: y in s ==> y == x || Less(x, y)
    ensures Sorted([x] + s)
  {
  }

  lemma {:induction false} InsertKeepsSorted(s: seq<Bytes>, x: Bytes)
    requires Sorted(s)
    ensures Sorted(InsertSorted(s, x))
  {
    if s != [] {
      if Less(s[0], x) {
        InsertKeepsSorted(s[1..], x);
        var r := InsertSorted(s[1..], x);
        forall y | y in r ensures y == s[0] || Less(s[0], y) {
          assert y in multiset(s[1..]) + multiset{x};
        }
        SortedCons(s[0], r);
      } else {
        LessTotal(s[0], x);
        SortedFront(s, x);
      }
    }
  }

  lemma {:induction false} SortedFront(s: seq<Bytes>, x: Bytes)
    requires s != [] && Sorted(s) && (x == s[0] || Less(x, s[0]))
    ensures Sorted([x] + s)
  {
    forall y | y in s ensures y == x || Less(x, y) {
      if x != s[0] && y != s[0] {
        LessTransitive(x, s[0], y);
      }
    }
    SortedCons(x, s);
  }

  /** The library sort: some sorted permutation (there is only one). */
  function SortUnstable(s: seq<Bytes>): (r: seq<Bytes>)
    ensures multiset(r) == multiset(s)
  {
    if s == [] then [] else
      assert s == s[..|s| - 1] + [s[|s| - 1]];
      InsertSorted(SortUnstable(s[..|s| - 1]), s[|s| - 1])
  }

  lemma {:induction false} SortUnstableSorts(s: seq<Bytes>)
    ensures Sorted(SortUnstable(s))
  {
    if s != [] {
      SortUnstableSorts(s[..|s| - 1]);
      InsertKeepsSorted(SortUnstable(s[..|s| - 1]), s[|s| - 1]);
    }
  }

  /** The library `dedup`: drops consecutive repetitions. */
  function Dedup(s: seq<Bytes>): (r: seq<Bytes>)
    ensures forall x :: x in r <==> x in s
    ensures s != [] ==> r != [] && r[|r| - 1] == s[|s| - 1]
  {
    if |s| <= 1 then s
    else
      var n := |s| - 1;
      assert s == s[..n] + [s[n]];
      if s[n - 1] == s[n] then Dedup(s[..n]) else Dedup(s[..n]) + [s[n]]
  }

  lemma {:induction false} DedupStrict(s: seq<Bytes>)
    requires Sorted(s)
    ensures StrictlySorted(Dedup(s))
  {
    if |s| > 1 {
      var n := |s| - 1;
      var init := s[..n];
      DedupStrict(init);
      if s[n - 1] != s[n] {
        forall x | x in init ensures Less(x, s[n]) {
          var i :| 0 <= i < n && init[i] == x;
          assert s[i] == x;
          if i < n - 1 && x != s[n - 1] {
            LessTransitive(x, s[n - 1], s[n]);
          }
        }
        assert forall x :: x in Dedup(init) ==> Less(x, s[n]);
      }
    }
  }

  method SortTags(tags: seq<Bytes>) returns (sorted: seq<Bytes>)
    ensures sorted == Canonical(tags)
  {
    sorted := tags;
    SortUnstableSorts(sorted);
    sorted := SortUnstable(sorted);
    forall x ensures x in sorted <==> x in tags {
      assert x in sorted <==> x in multiset(sorted);
      assert x in tags <==> x in multiset(tags);
    }
    DedupStrict(sorted);
    sorted := Dedup(sorted);
    SortedUnique(sorted, Canonical(tags));
  }

  lemma {:induction false} CanonicalFixpoint(s: seq<Bytes>)
    requires StrictlySorted(s)
    ensures Canonical(s) == s
  {
    SortedUnique(s, Canonical(s));
  }

  // -------------------------------------------------------------------------
  // The powerset of a tag list, one bitmask per subset
  // -------------------------------------------------------------------------

  function Pow2(n: nat): (r: nat)
    ensures r > 0
  {
    if n == 0 then 1 else 2 * Pow2(n - 1)
  }

  /** The sub-list that keeps `tags[i]` when bit i of `mask` is set. */
  function SubsetAt(tags: seq<Bytes>, mask: nat): (r: seq<Bytes>)
    requires mask < Pow2(|tags|)
    ensures forall t :: t in r ==> t in tags
  {
    if tags == [] then []
    else
      var n := |tags| - 1;
      var init := tags[..n];
      if mask >= Pow2(n) then SubsetAt(init, mask - Pow2(n)) + [tags[n]] else SubsetAt(init, mask)
  }

  function Subsets(tags: seq<Bytes>): (r: seq<seq<Bytes>>)
    ensures |r| == Pow2(|tags|)
  {
    seq(Pow2(|tags|), mask requires 0 <= mask < Pow2(|tags|) => SubsetAt(tags, mask))
  }

  /** `mask & (1 << i) != 0` */
  predicate BitSet(mask: nat, i: nat) {
    (mask / Pow2(i)) % 2 == 1
  }

  lemma {:induction false} MulStep(a: nat, b: nat, d: nat)
    ensures a < b ==> a * d + d <= b * d
    decreases b
  {
    if a < b {
      MulStep(a, b - 1, d);
      assert b * d == (b - 1) * d + d;
    }
  }

  lemma {:induction false} DivModUnique(k: nat, d: nat, r: nat)
    requires r < d
    ensures (k * d + r) / d == k && (k * d + r) % d == r
  {
    var m := k * d + r;
    var q := m / d;
    assert m == q * d + m % d;
    MulStep(q, k, d);
    MulStep(k, q, d);
  }

  lemma {:induction false} DivParts(m: nat, d: nat)
    requires d > 0
    ensures m == (m / d) * d + m % d && m % d < d
  {
  }

  lemma {:induction false} HalfSum(k: nat, b: nat, h: nat)
    requires b < 2
    ensures (2 * k + b) * h == k * (2 * h) + if b == 1 then h else 0
  {
  }

  /** One more bit of a number. */
  lemma {:induction false} ModSplit(m: nat, h: nat)
    requires h > 0
    ensures m % (2 * h) == m % h + (if (m / h) % 2 == 1 then h else 0)
  {
    var q := m / h;
    DivParts(m, h);
    HalfSum(q / 2, q % 2, h);
    DivModUnique(q / 2, 2 * h, if q % 2 == 1 then h + m % h else m % h);
  }

  /** A tag is kept exactly when its bit of the mask is set. */
  lemma {:induction false} SubsetBits(tags: seq<Bytes>, mask: nat, i: nat)
    requires StrictlySorted(tags) && mask < Pow2(|tags|) && i < |tags|
    ensures tags[i] in SubsetAt(tags, mask) <==> (mask / Pow2(i)) % 2 == 1
  {
    var n := |tags| - 1;
    var init := tags[..n];
    var high := mask >= Pow2(n);
    var rest := if high then mask - Pow2(n) else mask;
    SortedDistinct(tags);
    assert tags[n] !in init;
    if i == n {
      DivModUnique(if high then 1 else 0, Pow2(n), rest);
    } else {
      SubsetBits(init, rest, i);
      assert init[i] == tags[i];
      if high {
        HighBitApart(rest, i, n);
      }
    }
  }

  /** A higher bit does not change a lower one. */
  lemma {:induction false} HighBitApart(m: nat, i: nat, n: nat)
    requires i < n
    ensures ((m + Pow2(n)) / Pow2(i)) % 2 == (m / Pow2(i)) % 2
  {
    Pow2Split(i, n);
    EvenMultiple(m, Pow2(n - i - 1), Pow2(i));
  }

  lemma {:induction false} EvenMultiple(m: nat, k: nat, d: nat)
    requires d > 0
    ensures ((m + (2 * k) * d) / d) % 2 == (m / d) % 2
  {
    var q, r := m / d, m % d;
    DivParts(m, d);
    MulSum(q, 2 * k, d);
    DivModUnique(q + 2 * k, d, r);
    SameParity(q, k);
  }

  lemma {:induction false} SameParity(q: nat, k: nat)
    ensures (q + 2 * k) % 2 == q % 2
  {
  }

  lemma {:induction false} MulSum(a: nat, b: nat, d: nat)
    ensures (a + b) * d == a * d + b * d
  {
  }

  lemma {:induction false} Pow2Split(i: nat, n: nat)
    requires i < n
    ensures Pow2(n) == (2 * Pow2(n - i - 1)) * Pow2(i)
  {
    if i == 0 {
    } else {
      Pow2Split(i - 1, n - 1);
      assert Pow2(n) == 2 * Pow2(n - 1) && Pow2(i) == 2 * Pow2(i - 1);
      var k := 2 * Pow2(n - i - 1);
      assert 2 * (k * Pow2(i - 1)) == k * (2 * Pow2(i - 1));
    }
  }

  method GenerateSupersetPresorted(sortedTags: seq<Bytes>) returns (result: seq<seq<Bytes>>)
    ensures result == Subsets(sortedTags)
    ensures |result| == Pow2(|sortedTags|)
    ensures StrictlySorted(sortedTags) ==>
              forall mask, i :: 0 <= mask < |result| && 0 <= i < |sortedTags| ==>
                (sortedTags[i] in result[mask] <==> (mask / Pow2(i)) % 2 == 1)
  {
    var n := |sortedTags|;
    var total := Pow2(n) - 1;
    result := [];
    for mask := 0 to total + 1
      invariant |result| == mask
      invariant forall m :: 0 <= m < mask ==> result[m] == SubsetAt(sortedTags, m)
    {
      var subset: seq<Bytes> := [];
      for i := 0 to n
        invariant mask % Pow2(i) < Pow2(i)
        invariant subset == SubsetAt(sortedTags[..i], mask % Pow2(i))
      {
        ModSplit(mask, Pow2(i));
        assert Pow2(i + 1) == 2 * Pow2(i);
        assert sortedTags[..i + 1][..i] == sortedTags[..i];
        if BitSet(mask, i) {
          subset := subset + [sortedTags[i]];
        }
      }
      DivModUnique(0, Pow2(n), mask);
      assert sortedTags[..n] == sortedTags;
      result := result + [subset];
    }
    if StrictlySorted(sortedTags) {
      forall mask, i | 0 <= mask < |result| && 0 <= i < |sortedTags|
        ensures sortedTags[i] in result[mask] <==> (mask / Pow2(i)) % 2 == 1
      {
        SubsetBits(sortedTags, mask, i);
      }
    }
  }

  lemma {:induction false} SubsetSorted(tags: seq<Bytes>, mask: nat)
    requires StrictlySorted(tags) && mask < Pow2(|tags|)
    ensures StrictlySorted(SubsetAt(tags, mask))
  {
    if tags != [] {
      var n := |tags| - 1;
      SubsetSorted(tags[..n], if mask >= Pow2(n) then mask - Pow2(n) else mask);
      assert forall t :: t in tags[..n] ==> Less(t, tags[n]);
    }
  }

  /** Different masks, different sub-lists. */
  lemma {:induction false} SubsetInjective(tags: seq<Bytes>, m1: nat, m2: nat)
    requires StrictlySorted(tags) && m1 < Pow2(|tags|) && m2 < Pow2(|tags|)
    requires SubsetAt(tags, m1) == SubsetAt(tags, m2)
    ensures m1 == m2
  {
    if tags != [] {
      var n := |tags| - 1;
      var init := tags[..n];
      SortedDistinct(tags);
      assert tags[n] !in init;
      var s := SubsetAt(tags, m1);
      assert m1 >= Pow2(n) <==> tags[n] in s;
      assert m2 >= Pow2(n) <==> tags[n] in s;
      if m1 >= Pow2(n) {
        assert SubsetAt(init, m1 - Pow2(n)) == s[..|s| - 1] == SubsetAt(init, m2 - Pow2(n));
        SubsetInjective(init, m1 - Pow2(n), m2 - Pow2(n));
      } else {
        SubsetInjective(init, m1, m2);
      }
    }
  }

  lemma {:induction false} GreatestIsLast(tags: seq<Bytes>, s: seq<Bytes>)
    requires tags != [] && StrictlySorted(tags) && StrictlySorted(s)
    requires tags[|tags| - 1] in s && forall t :: t in s ==> t in tags
    ensures s[|s| - 1] == tags[|tags| - 1]
  {
    var n := |tags| - 1;
    var j :| 0 <= j < |s| && s[j] == tags[n];
    assert s[|s| - 1] in tags;
    var i :| 0 <= i <= n && tags[i] == s[|s| - 1];
    if i < n && j < |s| - 1 {
      LessAsymmetric(tags[i], tags[n]);
      assert false;
    }
  }

  lemma {:induction false} EmptyOrInhabited(s: seq<Bytes>)
    ensures s == [] || exists t :: t in s
  {
    if s != [] {
      assert s[0] in s;
    }
  }

  /** A sub-list with the greatest tag is a sub-list of the other tags, then that tag. */
  lemma {:induction false} SplitGreatest(tags: seq<Bytes>, s: seq<Bytes>)
    requires tags != [] && StrictlySorted(tags) && StrictlySorted(s)
    requires tags[|tags| - 1] in s && forall t :: t in s ==> t in tags
    ensures var m := |s| - 1;
            && s == s[..m] + [tags[|tags| - 1]] && StrictlySorted(s[..m])
            && StrictlySorted(tags[..|tags| - 1]) && forall t :: t in s[..m] ==> t in tags[..|tags| - 1]
  {
    GreatestIsLast(tags, s);
    SortedDistinct(s);
    var m, n := |s| - 1, |tags| - 1;
    assert tags == tags[..n] + [tags[n]];
    forall t | t in s[..m] ensures t in tags[..n] {
      var i :| 0 <= i < m && s[..m][i] == t;
      assert s[i] == t && t != tags[n] && t in tags;
    }
  }

  /** A list of the tags without the greatest is a list of the other tags. */
  lemma {:induction false} LeaveGreatest(tags: seq<Bytes>, s: seq<Bytes>)
    requires tags != [] && StrictlySorted(tags) && tags[|tags| - 1] !in s && forall t :: t in s ==> t in tags
    ensures StrictlySorted(tags[..|tags| - 1]) && forall t :: t in s ==> t in tags[..|tags| - 1]
  {
    var n := |tags| - 1;
    assert tags == tags[..n] + [tags[n]];
  }

  /** Every strictly sorted list of tags out of `tags` has its mask. */
  lemma {:induction false} SubsetFound(tags: seq<Bytes>, s: seq<Bytes>) returns (mask: nat)
    requires StrictlySorted(tags) && StrictlySorted(s)
    requires forall t :: t in s ==> t in tags
    ensures mask < Pow2(|tags|) && SubsetAt(tags, mask) == s
  {
    if tags == [] {
      EmptyOrInhabited(s);
      mask := 0;
    } else {
      var n := |tags| - 1;
      if tags[n] in s {
        SplitGreatest(tags, s);
        mask := SubsetFound(tags[..n], s[..|s| - 1]);
        mask := mask + Pow2(n);
      } else {
        LeaveGreatest(tags, s);
        mask := SubsetFound(tags[..n], s);
      }
    }
  }

  /**
   The bitmask enumeration is the powerset: of a strictly sorted list it has 2^n
   entries, all different, and they are exactly the strictly sorted lists of its tags.
   */
  lemma {:induction false} SubsetsArePowerset(tags: seq<Bytes>)
    requires StrictlySorted(tags)
    ensures |Subsets(tags)| == Pow2(|tags|)
    ensures forall i, j :: 0 <= i < j < |Subsets(tags)| ==> Subsets(tags)[i] != Subsets(tags)[j]
    ensures forall s :: s in Subsets(tags) <==> StrictlySorted(s) && (forall t :: t in s ==> t in tags)
  {
    var subs := Subsets(tags);
    forall i, j | 0 <= i < j < |subs| ensures subs[i] != subs[j] {
      if subs[i] == subs[j] {
        SubsetInjective(tags, i, j);
      }
    }
    forall s ensures s in subs <==> StrictlySorted(s) && (forall t :: t in s ==> t in tags) {
      if s in subs {
        var mask :| 0 <= mask < |subs| && subs[mask] == s;
        SubsetSorted(tags, mask);
      }
      if StrictlySorted(s) && (forall t :: t in s ==> t in tags) {
        var mask := SubsetFound(tags, s);
        assert subs[mask] == s;
      }
    }
  }

  /**
   The canonical form of a query's tags is indexed for an event exactly when the
   event carries all of them, whatever the order and repetition on either side.
   */
  lemma {:induction false} CanonicalIndexed(query: seq<Bytes>, e: Event)
    ensures Canonical(query) in Subsets(Canonical(e.tags)) <==> CarriesTags(e, query)
  {
    SubsetsArePowerset(Canonical(e.tags));
  }

  // -------------------------------------------------------------------------
  // Positions
  // -------------------------------------------------------------------------

  function Pow256(w: nat): (r: nat)
    ensures r > 0
  {
    if w == 0 then 1 else 256 * Pow256(w - 1)
  }

  function BigEndian(n: nat, w: nat): (r: Bytes)
    ensures |r| == w
  {
    if w == 0 then [] else BigEndian(n / 256, w - 1) + [n % 256]
  }

  lemma {:induction false} BigEndianOrder(m: nat, n: nat, w: nat)
    requires m < Pow256(w) && n < Pow256(w)
    ensures BigEndian(m, w) == BigEndian(n, w) <==> m == n
    ensures Less(BigEndian(m, w), BigEndian(n, w)) <==> m < n
  {
    if w > 0 {
      var a, b := BigEndian(m / 256, w - 1), BigEndian(n / 256, w - 1);
      var x, y := m % 256, n % 256;
      assert BigEndian(m, w) == a + [x] && BigEndian(n, w) == b + [y];
      BigEndianOrder(m / 256, n / 256, w - 1);
      assert (a + [x])[..w - 1] == a && (b + [y])[..w - 1] == b;
      assert (a + [x])[w - 1] == x && (b + [y])[w - 1] == y;
      if a == b {
        LessPrepend(a, [x], [y]);
      } else {
        LessAppend(a, b, [x], [y]);
      }
    }
  }

  /** Transaction versions fit ten bytes, batch indexes two. */
  predicate IsTxVersion(v: nat) { v < Pow256(10) }

  const MAX_BATCH: nat := 65535

  /** Ten bytes of transaction version, then two bytes of batch index, both big-endian. */
  function Position(version: nat, index: nat): Versionstamp {
    BigEndian(version, 10) + BigEndian(index, 2)
  }

  /** Byte order of stamps is the order of (transaction version, batch index). */
  lemma {:induction false} PositionOrder(v: nat, i: nat, w: nat, j: nat)
    requires IsTxVersion(v) && IsTxVersion(w) && i <= MAX_BATCH && j <= MAX_BATCH
    ensures Less(Position(v, i), Position(w, j)) <==> v < w || (v == w && i < j)
    ensures Position(v, i) == Position(w, j) <==> v == w && i == j
  {
    assert Pow256(2) == 65536 by {
      assert Pow256(1) == 256 * Pow256(0);
    }
    BigEndianOrder(v, w, 10);
    BigEndianOrder(i, j, 2);
    var a, b := BigEndian(v, 10), BigEndian(w, 10);
    var x, y := BigEndian(i, 2), BigEndian(j, 2);
    assert (a + x)[..10] == a && (b + y)[..10] == b && (a + x)[10..] == x && (b + y)[10..] == y;
    if v == w {
      LessPrepend(a, x, y);
    } else {
      LessAppend(a, b, x, y);
    }
  }

  // -------------------------------------------------------------------------
  // Versionstamp templates
  // -------------------------------------------------------------------------

  /** A packed key with a placeholder stamp, and where the ten version bytes go. */
  datatype Template = Template(bytes: Bytes, offset: nat)

  const PLACEHOLDER: Bytes := [0xFF, 0xFF, 0xFF, 0xFF, 0xFF, 0xFF, 0xFF, 0xFF, 0xFF, 0xFF]

  /** An incomplete stamp: only the batch index is known before the commit. */
  function Incomplete(index: nat): Versionstamp {
    PLACEHOLDER + BigEndian(index, 2)
  }

  function PackWithVersionstamp(es: seq<Element>, index: nat): Template {
    var bytes := Pack(es + [Stamp(Incomplete(index))]);
    PackConcat(es, [Stamp(Incomplete(index))]);
    Template(bytes, |bytes| - 12)
  }

  /** What the database stores for a template once the commit has its version. */
  function Resolve(t: Template, version: nat): Bytes
    requires t.offset + 10 <= |t.bytes|
  {
    t.bytes[..t.offset] + BigEndian(version, 10) + t.bytes[t.offset + 10..]
  }

  lemma {:induction false} PackStamp(es: seq<Element>, p: Versionstamp)
    ensures Pack(es + [Stamp(p)]) == Pack(es) + [STAMP_CODE] + p
  {
    PackConcat(es, [Stamp(p)]);
    assert Pack([Stamp(p)]) == PackElement(Stamp(p)) + Pack([]) == [STAMP_CODE] + p;
  }

  /** A resolved template is the key packed with the complete stamp. */
  lemma {:induction false} ResolvePacked(es: seq<Element>, index: nat, version: nat)
    ensures var t := PackWithVersionstamp(es, index);
            && t.offset + 10 <= |t.bytes|
            && Resolve(t, version) == Pack(es + [Stamp(Position(version, index))])
  {
    PackStamp(es, Incomplete(index));
    PackStamp(es, Position(version, index));
    var head, user := Pack(es) + [STAMP_CODE], BigEndian(index, 2);
    var t := PackWithVersionstamp(es, index);
    assert t.bytes == head + PLACEHOLDER + user;
    assert t.bytes[..t.offset] == head && t.bytes[t.offset + 10..] == user;
  }

  // -------------------------------------------------------------------------
  // Keys
  // -------------------------------------------------------------------------

  function SentinelElems(ns: Bytes): seq<Element> { [Str(ns), Str(SENTINEL_SUB)] }

  function CursorElems(ns: Bytes, name: Bytes): seq<Element> { [Str(ns), Str(SUBS_SUB), Str(name)] }

  function EventElems(ns: Bytes, p: Versionstamp): seq<Element> { [Str(ns), Str(EVENTS_SUB), Stamp(p)] }

  /** `[ns, "i", tag1..tagN, "_", type]`, what an index key has before its stamp. */
  function IndexHead(ns: Bytes, tags: seq<Bytes>, typeName: Bytes): seq<Element> {
    [Str(ns), Str(INDEXES_SUB)] + Strs(tags) + [Str(EVENTS_IN_INDEXES_SUB), Str(typeName)]
  }

  function IndexElems(ns: Bytes, tags: seq<Bytes>, typeName: Bytes, p: Versionstamp): seq<Element> {
    IndexHead(ns, tags, typeName) + [Stamp(p)]
  }

  function PackSentinelKey(ns: Bytes): Bytes { Pack(SentinelElems(ns)) }

  function PackCursorKey(ns: Bytes, name: Bytes): Bytes { Pack(CursorElems(ns, name)) }

  function PackEventsPrefix(ns: Bytes): Bytes { Pack([Str(ns), Str(EVENTS_SUB)]) }

  function PackEventKey(ns: Bytes, p: Versionstamp): Bytes { Pack(EventElems(ns, p)) }

  function PackIndexKey(ns: Bytes, tags: seq<Bytes>, typeName: Bytes, p: Versionstamp): Bytes {
    Pack(IndexElems(ns, tags, typeName, p))
  }

  function PackEventKeyFdb(ns: Bytes, index: nat): Template {
    PackWithVersionstamp([Str(ns), Str(EVENTS_SUB)], index)
  }

  method PackTagIndexKeyFdb(ns: Bytes, sortedTags: seq<Bytes>, typeName: Bytes, index: nat)
    returns (key: Template)
    ensures key == PackWithVersionstamp(IndexHead(ns, sortedTags, typeName), index)
  {
    var elems: seq<Element> := [];
    elems := elems + [Str(ns)];
    elems := elems + [Str(INDEXES_SUB)];
    for i := 0 to |sortedTags|
      invariant elems == [Str(ns), Str(INDEXES_SUB)] + Strs(sortedTags[..i])
    {
      elems := elems + [Str(sortedTags[i])];
      assert Strs(sortedTags[..i + 1]) == Strs(sortedTags[..i]) + [Str(sortedTags[i])];
    }
    assert sortedTags[..|sortedTags|] == sortedTags;
    elems := elems + [Str(EVENTS_IN_INDEXES_SUB)];
    elems := elems + [Str(typeName)];
    assert elems == IndexHead(ns, sortedTags, typeName);
    key := PackWithVersionstamp(elems, index);
  }

  /** What a stamp template of the write path becomes. */
  lemma {:induction false} ResolvedKeys(ns: Bytes, tags: seq<Bytes>, typeName: Bytes, index: nat, version: nat)
    ensures var t := PackEventKeyFdb(ns, index);
            t.offset + 10 <= |t.bytes| && Resolve(t, version) == PackEventKey(ns, Position(version, index))
    ensures var t := PackWithVersionstamp(IndexHead(ns, tags, typeName), index);
            && t.offset + 10 <= |t.bytes|
            && Resolve(t, version) == PackIndexKey(ns, tags, typeName, Position(version, index))
  {
    ResolvePacked([Str(ns), Str(EVENTS_SUB)], index, version);
    assert [Str(ns), Str(EVENTS_SUB)] + [Stamp(Position(version, index))] == EventElems(ns, Position(version, index));
    ResolvePacked(IndexHead(ns, tags, typeName), index, version);
  }

  /** A string as stored: 0x02, its bytes with 0x00 as 0x00 0xFF, and 0x00. */
  ghost function StringBytes(s: Bytes): Bytes {
    [0x02] + Escape(s) + [0x00]
  }

  lemma {:induction false} PackFirst(s: Bytes, es: seq<Element>)
    ensures Pack([Str(s)] + es) == StringBytes(s) + Pack(es)
    ensures Pack([Str(s)]) == StringBytes(s)
  {
    PackCons(Str(s), es);
  }

  lemma {:induction false} PlainBytes(s: Bytes)
    requires 0x00 !in s
    ensures StringBytes(s) == [0x02] + s + [0x00]
  {
    EscapePlain(s);
  }

  lemma {:induction false} PackTwo(s: Bytes, t: Bytes, es: seq<Element>)
    ensures Pack([Str(s), Str(t)] + es) == StringBytes(s) + (StringBytes(t) + Pack(es))
    ensures Pack([Str(s), Str(t)]) == StringBytes(s) + StringBytes(t)
  {
    assert [Str(s), Str(t)] + es == [Str(s)] + ([Str(t)] + es);
    PackFirst(s, [Str(t)] + es);
    PackFirst(t, es);
    assert [Str(s), Str(t)] == [Str(s)] + [Str(t)];
    PackFirst(s, [Str(t)]);
  }

  /** "e", "i", "_", "subs" and "lastvs". */
  lemma {:induction false} SubspaceBytes()
    ensures StringBytes(EVENTS_SUB) == [0x02, 0x65, 0x00]
    ensures StringBytes(INDEXES_SUB) == [0x02, 0x69, 0x00]
    ensures StringBytes(EVENTS_IN_INDEXES_SUB) == [0x02, 0x5F, 0x00]
    ensures StringBytes(SUBS_SUB) == [0x02, 0x73, 0x75, 0x62, 0x73, 0x00]
    ensures StringBytes(SENTINEL_SUB) == [0x02, 0x6C, 0x61, 0x73, 0x74, 0x76, 0x73, 0x00]
  {
    PlainBytes(EVENTS_SUB);
    PlainBytes(INDEXES_SUB);
    PlainBytes(EVENTS_IN_INDEXES_SUB);
    PlainBytes(SUBS_SUB);
    PlainBytes(SENTINEL_SUB);
  }

  lemma {:induction false} PackThree(s: Bytes, t: Bytes, u: Element)
    ensures Pack([Str(s), Str(t), u]) == StringBytes(s) + (StringBytes(t) + Pack([u]))
  {
    PackTwo(s, t, [u]);
    assert [Str(s), Str(t), u] == [Str(s), Str(t)] + [u];
  }

  lemma {:induction false} PackTagged(s: Bytes, t: Bytes, es: seq<Element>, u: Bytes, v: Bytes, w: Element)
    ensures Pack([Str(s), Str(t)] + es + [Str(u), Str(v)] + [w])
            == StringBytes(s) + (StringBytes(t) + (Pack(es) + (StringBytes(u) + (StringBytes(v) + Pack([w])))))
  {
    var tail := [Str(u), Str(v)] + [w];
    assert [Str(s), Str(t)] + es + [Str(u), Str(v)] + [w] == [Str(s), Str(t)] + (es + tail);
    PackTwo(s, t, es + tail);
    PackConcat(es, tail);
    PackTwo(u, v, [w]);
  }

  lemma {:induction false} PackLone(p: Versionstamp)
    ensures Pack([Stamp(p)]) == [0x33] + p
  {
    PackStamp([], p);
    assert [] + [Stamp(p)] == [Stamp(p)];
  }

  /** The bytes of the sentinel, cursor and event keys. */
  lemma {:induction false} KeyLayout(ns: Bytes, name: Bytes, p: Versionstamp)
    ensures PackSentinelKey(ns) == StringBytes(ns) + [0x02, 0x6C, 0x61, 0x73, 0x74, 0x76, 0x73, 0x00]
    ensures PackCursorKey(ns, name) == StringBytes(ns) + ([0x02, 0x73, 0x75, 0x62, 0x73, 0x00] + StringBytes(name))
    ensures PackEventKey(ns, p) == StringBytes(ns) + ([0x02, 0x65, 0x00] + ([0x33] + p))
  {
    SubspaceBytes();
    PackTwo(ns, SENTINEL_SUB, []);
    PackFirst(name, []);
    PackThree(ns, SUBS_SUB, Str(name));
    PackLone(p);
    PackThree(ns, EVENTS_SUB, Stamp(p));
  }

  /** The bytes of an index key: the tags, then "_" and the type, then the stamp. */
  lemma {:induction false} IndexLayout(ns: Bytes, tags: seq<Bytes>, typeName: Bytes, p: Versionstamp)
    ensures PackIndexKey(ns, tags, typeName, p)
            == StringBytes(ns) + ([0x02, 0x69, 0x00]
               + (Pack(Strs(tags)) + ([0x02, 0x5F, 0x00] + (StringBytes(typeName) + ([0x33] + p)))))
  {
    SubspaceBytes();
    PackLone(p);
    PackTagged(ns, INDEXES_SUB, Strs(tags), EVENTS_IN_INDEXES_SUB, typeName, Stamp(p));
  }

  // -------------------------------------------------------------------------
  // Event values
  // -------------------------------------------------------------------------

  function EncodeEventValue(e: Event): Bytes {
    Pack([Str(e.typeName), Nested(Strs(e.tags)), Bin(e.data)])
  }

  /** Type, tags, data, in this order: a string, a tuple of strings, and a byte string. */
  lemma {:induction false} EventValueFields(e: Event)
    ensures var v := Unpack(EncodeEventValue(e));
            && v.Some? && |v.value| == 3
            && v.value[0] == Str(e.typeName) && v.value[2] == Bin(e.data)
            && v.value[1].Nested? && |v.value[1].elems| == |e.tags|
            && forall i :: 0 <= i < |e.tags| ==> v.value[1].elems[i] == Str(e.tags[i])
  {
    UnpackPack([Str(e.typeName), Nested(Strs(e.tags)), Bin(e.data)]);
  }

  function TagStrings(es: seq<Element>): (r: Result<seq<Bytes>>)
    ensures r.Err? ==> r.error.TupleDecode?
  {
    if es == [] then Ok([])
    else if !es[0].Str? then Err(TupleDecode)
    else
      var rest :- TagStrings(es[1..]);
      Ok([es[0].s] + rest)
  }

  function DecodeEventValue(b: Bytes): (r: Result<Event>)
    ensures r.Err? ==> r.error.TupleDecode?
  {
    match Unpack(b)
    case None => Err(TupleDecode)
    case Some(elems) =>
      if |elems| != 3 then Err(TupleDecode)
      else if !elems[0].Str? then Err(TupleDecode)
      else if !elems[1].Nested? then Err(TupleDecode)
      else
        var tags :- TagStrings(elems[1].elems);
        if !elems[2].Bin? then Err(TupleDecode)
        else Ok(Event(elems[0].s, tags, elems[2].b))
  }

  lemma {:induction false} TagStringsBack(tags: seq<Bytes>)
    ensures TagStrings(Strs(tags)) == Ok(tags)
  {
    if tags != [] {
      TagStringsBack(tags[1..]);
      assert Strs(tags)[1..] == Strs(tags[1..]);
      assert tags == [tags[0]] + tags[1..];
    }
  }

  /** Decoding gives the event back, tag order and duplicates included. */
  lemma {:induction false} DecodeEncode(e: Event)
    ensures DecodeEventValue(EncodeEventValue(e)) == Ok(e)
  {
    UnpackPack([Str(e.typeName), Nested(Strs(e.tags)), Bin(e.data)]);
    TagStringsBack(e.tags);
  }
}

/** Byte strings and their lexicographic order, the order of keys in the store. */
module Bytes {

  type byte = x: int | 0 <= x < 256

  type Bytes = seq<byte>

  /** Strict lexicographic order. Note that `<=` on sequences is Dafny's prefix relation. */
  predicate Less(a: Bytes, b: Bytes) {
    b != [] && (a == [] || a[0] < b[0] || (a[0] == b[0] && Less(a[1..], b[1..])))
  }

  lemma {:induction false} LessIrreflexive(a: Bytes)
    ensures !Less(a, a)
  {
    if a != [] {
      LessIrreflexive(a[1..]);
    }
  }

  lemma {:induction false} LessTransitive(a: Bytes, b: Bytes, c: Bytes)
    requires Less(a, b) && Less(b, c)
    ensures Less(a, c)
  {
    if a != [] && a[0] == b[0] == c[0] {
      LessTransitive(a[1..], b[1..], c[1..]);
    }
  }

  lemma {:induction false} LessTotal(a: Bytes, b: Bytes)
    ensures a == b || Less(a, b) || Less(b, a)
  {
    if a != [] && b != [] && a[0] == b[0] {
      LessTotal(a[1..], b[1..]);
      assert a == [a[0]] + a[1..] && b == [b[0]] + b[1..];
    }
  }

  lemma {:induction false} LessAsymmetric(a: Bytes, b: Bytes)
    requires Less(a, b)
    ensures !Less(b, a) && a != b
  {
    LessIrreflexive(a);
    if Less(b, a) {
      LessTransitive(a, b, a);
    }
  }

  /** A common prefix does not matter. */
  lemma {:induction false} LessPrepend(p: Bytes, a: Bytes, b: Bytes)
    ensures Less(p + a, p + b) == Less(a, b)
  {
    if p == [] {
      assert p + a == a && p + b == b;
    } else {
      LessPrepend(p[1..], a, b);
      assert (p + a)[1..] == p[1..] + a && (p + b)[1..] == p[1..] + b;
    }
  }

  /** Two strings of one length are ordered before anything is appended to them. */
  lemma {:induction false} LessAppend(a: Bytes, b: Bytes, r: Bytes, t: Bytes)
    requires |a| == |b| && a != b
    ensures Less(a + r, b + t) == Less(a, b)
  {
    if a[0] == b[0] {
      assert a == [a[0]] + a[1..] && b == [b[0]] + b[1..];
      LessAppend(a[1..], b[1..], r, t);
      assert (a + r)[1..] == a[1..] + r && (b + t)[1..] == b[1..] + t;
    }
  }

  lemma {:induction false} PrefixNotGreater(p: Bytes, k: Bytes)
    requires p <= k
    ensures !Less(k, p)
  {
    LessPrepend(p, k[|p|..], []);
    assert p + k[|p|..] == k && p + [] == p;
  }

  /** The same for the prefix relation. */
  lemma {:induction false} PrefixPrepend(p: Bytes, a: Bytes, b: Bytes)
    ensures p + a <= p + b <==> a <= b
  {
    if p + a <= p + b {
      assert (p + b)[|p|..] == b && (p + a)[|p|..] == a;
      assert p + b == (p + a) + (p + b)[|p + a|..];
      assert b == a + (p + b)[|p + a|..];
    }
    if a <= b {
      assert b == a + b[|a|..];
      assert p + b == (p + a) + b[|a|..];
    }
  }

  lemma {:induction false} PrefixTransitive(a: Bytes, b: Bytes, c: Bytes)
    ensures a <= b && b <= c ==> a <= c
  {
  }

  /** A key without the prefix `p` compares in the same way with everything that has it. */
  lemma {:induction false} LessOutsidePrefix(k: Bytes, p: Bytes, a: Bytes, b: Bytes)
    requires !(p <= k)
    ensures Less(k, p + a) == Less(k, p + b)
  {
    assert (p + a)[1..] == p[1..] + a && (p + b)[1..] == p[1..] + b;
    if k != [] && k[0] == p[0] {
      assert p == [p[0]] + p[1..] && k == [k[0]] + k[1..];
      assert !(p[1..] <= k[1..]);
      LessOutsidePrefix(k[1..], p[1..], a, b);
    }
  }

  // -------------------------------------------------------------------------
  // Strictly ordered sequences
  // -------------------------------------------------------------------------

  predicate StrictlySorted(s: seq<Bytes>) {
    forall i, j :: 0 <= i < j < |s| ==> Less(s[i], s[j])
  }

  /** Elements of a strictly sorted sequence are distinct. */
  lemma {:induction false} SortedDistinct(s: seq<Bytes>)
    requires StrictlySorted(s)
    ensures forall i, j :: 0 <= i < j < |s| ==> s[i] != s[j]
  {
    forall i, j | 0 <= i < j < |s| ensures s[i] != s[j] {
      LessIrreflexive(s[i]);
    }
  }

  /** A strictly sorted sequence is determined by its elements. */
  lemma {:induction false} SortedUnique(s: seq<Bytes>, t: seq<Bytes>)
    requires StrictlySorted(s) && StrictlySorted(t)
    requires forall x :: x in s <==> x in t
    ensures s == t
  {
    assert t != [] ==> t[0] in t;
    if s != [] {
      assert s[0] in t && t != [] && t[0] in s;
      SortedDistinct(s);
      SortedDistinct(t);
      if s[0] != t[0] {
        LessAsymmetric(s[0], t[0]);
      }
      forall x ensures x in s[1..] <==> x in t[1..] {
        assert x in s[1..] ==> x in s && x != s[0];
        assert x in t[1..] ==> x in t && x != t[0];
      }
      SortedUnique(s[1..], t[1..]);
      assert s == [s[0]] + s[1..] && t == [t[0]] + t[1..];
    }
  }

  // -------------------------------------------------------------------------
  // Listing a finite set in order
  // -------------------------------------------------------------------------

  predicate IsLeast(m: Bytes, s: set<Bytes>) {
    m in s && forall x :: x in s ==> x == m || Less(m, x)
  }

  lemma {:induction false} LeastExists(s: set<Bytes>) returns (m: Bytes)
    requires s != {}
    ensures IsLeast(m, s)
    decreases |s|
  {
    var y :| y in s;
    var rest := s - {y};
    assert forall x :: x in s ==> x == y || x in rest;
    if rest == {} {
      m := y;
    } else {
      var z := LeastExists(rest);
      LessTotal(y, z);
      m := if Less(y, z) then y else z;
      forall x | x in s ensures x == m || Less(m, x) {
        if m == y && Less(z, x) {
          LessTransitive(y, z, x);
        }
      }
    }
  }

  lemma {:induction false} LeastUnique(s: set<Bytes>, m: Bytes, n: Bytes)
    requires IsLeast(m, s) && IsLeast(n, s)
    ensures m == n
  {
    if Less(m, n) {
      LessAsymmetric(m, n);
    }
  }

  lemma {:induction false} LeastIsOne(s: set<Bytes>)
    requires s != {}
    ensures exists m :: IsLeast(m, s)
    ensures forall m, n :: IsLeast(m, s) && IsLeast(n, s) ==> m == n
  {
    var m := LeastExists(s);
    forall m, n | IsLeast(m, s) && IsLeast(n, s) ensures m == n {
      LeastUnique(s, m, n);
    }
  }

  function Least(s: set<Bytes>): (m: Bytes)
    requires s != {}
    ensures IsLeast(m, s)
  {
    LeastIsOne(s);
    var m :| IsLeast(m, s);
    m
  }

  /** The elements of a finite set in ascending order. */
  function Ascending(s: set<Bytes>): (r: seq<Bytes>)
    ensures StrictlySorted(r)
    ensures forall x :: x in r <==> x in s
    ensures |r| == |s|
    decreases |s|
  {
    if s == {} then [] else
      var m := Least(s);
      var rest := Ascending(s - {m});
      assert forall x :: x in rest ==> Less(m, x);
      [m] + rest
  }

  lemma {:induction false} Regroup<T>(a: seq<T>, b: seq<T>, c: seq<T>)
    ensures a + (b + c) == (a + b) + c
  {
  }

  function Reversed<T>(s: seq<T>): (r: seq<T>)
    ensures |r| == |s|
    ensures forall i :: 0 <= i < |s| ==> r[i] == s[|s| - 1 - i]
  {
    seq(|s|, i requires 0 <= i < |s| => s[|s| - 1 - i])
  }

  lemma {:induction false} ReversedHas<T>(s: seq<T>, x: T)
    ensures x in Reversed(s) <==> x in s
  {
    if x in s {
      var i :| 0 <= i < |s| && s[i] == x;
      assert Reversed(s)[|s| - 1 - i] == x;
    }
  }

  /** The first `limit` elements; 0 means all of them. */
  function Cut<T>(s: seq<T>, limit: nat): seq<T> {
    if 0 < limit < |s| then s[..limit] else s
  }
}

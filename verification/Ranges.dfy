/** The key ranges of `query.rs`, and exactly which byte strings they hold. */
module Ranges {
  import opened Bytes
  import opened Tuples
  import opened Types
  import opened Encoding
  import opened Kv

  // -------------------------------------------------------------------------
  // strinc
  // -------------------------------------------------------------------------

  /** The least byte string above everything that starts with `key`. */
  function StrincOf(key: Bytes): (r: Result<Bytes>)
    ensures r.Err? ==> r.error.AllFfKey?
  {
    if key == [] then Err(AllFfKey)
    else
      var n := |key| - 1;
      if key[n] != 0xFF then Ok(key[..n] + [key[n] + 1]) else StrincOf(key[..n])
  }

  method Strinc(input: Bytes) returns (r: Result<Bytes>)
    ensures r == StrincOf(input)
  {
    var key := input;
    var i := |key|;
    assert input[..i] == input;
    while i > 0
      invariant 0 <= i <= |key| && key == input
      invariant StrincOf(input) == StrincOf(input[..i])
    {
      i := i - 1;
      assert input[..i + 1][..i] == input[..i];
      if key[i] != 0xFF {
        key := key[i := key[i] + 1];
        key := key[..i + 1];
        assert key == input[..i] + [input[i] + 1];
        return Ok(key);
      }
    }
    return Err(AllFfKey);
  }

  /** The error case: nothing but 0xFF bytes, the empty key included. */
  lemma {:induction false} StrincFails(key: Bytes)
    ensures StrincOf(key).Err? <==> forall x :: x in key ==> x == 0xFF
  {
    if key != [] {
      var n := |key| - 1;
      StrincFails(key[..n]);
      var init := key[..n];
      assert key == init + [key[n]];
      assert key[n] in key && forall x :: x in init ==> x in key;
    }
  }

  /** `[p, strinc(p))` holds exactly the byte strings that start with `p`. */
  lemma {:induction false} StrincExact(p: Bytes, k: Bytes)
    requires StrincOf(p).Ok?
    ensures p <= k <==> InRange(k, Range(p, StrincOf(p).value))
  {
    var n := |p| - 1;
    var init, x := p[..n], p[n];
    assert p == init + [x];
    if x != 0xFF {
      var end := init + [x + 1];
      if init <= k {
        var t := k[n..];
        assert k == init + t;
        LessPrepend(init, t, [x]);
        LessPrepend(init, t, [x + 1]);
        PrefixPrepend(init, [x], t);
        assert [x] <= t <==> t != [] && t[0] == x;
      } else {
        LessOutsidePrefix(k, init, [x], [x + 1]);
        PrefixTransitive(init, p, k);
      }
    } else {
      StrincExact(init, k);
      if init <= k {
        var t := k[n..];
        assert k == init + t;
        LessPrepend(init, t, [x]);
        PrefixPrepend(init, [x], t);
        assert [x] <= t <==> t != [] && t[0] == x;
      } else {
        LessOutsidePrefix(k, init, [x], []);
        assert init + [] == init;
        PrefixTransitive(init, p, k);
      }
    }
  }

  // -------------------------------------------------------------------------
  // Prefix ranges and ranges after a position
  // -------------------------------------------------------------------------

  function PrefixRange(prefix: Bytes): (r: Result<Range>)
    ensures r.Err? ==> r.error.AllFfKey?
  {
    var end :- StrincOf(prefix);
    Ok(Range(prefix, end))
  }

  function AfterRange(prefix: Bytes, after: Versionstamp): Result<Range> {
    var begin := prefix + Pack([Stamp(after)]) + [0x00];
    var end :- StrincOf(prefix);
    Ok(Range(begin, end))
  }

  function BoundedRange(prefix: Bytes, after: Option<Versionstamp>): Result<Range> {
    match after
    case Some(p) => AfterRange(prefix, p)
    case None => PrefixRange(prefix)
  }

  /** Past its prefix, a key lies beyond the stamp of `after`. */
  ghost predicate Beyond(suffix: Bytes, after: Option<Versionstamp>) {
    after.None? || !Less(suffix, [STAMP_CODE] + after.value + [0x00])
  }

  /** A bounded range can be built exactly when the prefix has a byte other than 0xFF, and
      then holds the keys with the prefix whose rest lies beyond the stamp. */
  lemma {:induction false} BoundedRangeExact(prefix: Bytes, after: Option<Versionstamp>, k: Bytes)
    ensures BoundedRange(prefix, after).Ok? <==> exists x :: x in prefix && x != 0xFF
    ensures BoundedRange(prefix, after).Ok? ==>
              (InRange(k, BoundedRange(prefix, after).value) <==> prefix <= k && Beyond(k[|prefix|..], after))
  {
    StrincFails(prefix);
    if StrincOf(prefix).Ok? {
      BuiltRangeExact(prefix, after, k);
    }
  }

  /** The prefix of packed strings ends in 0x00, so its range can be built. */
  lemma {:induction false} PackedRangeExact(prefix: Bytes, after: Option<Versionstamp>, k: Bytes)
    requires prefix != [] && prefix[|prefix| - 1] == END
    ensures BoundedRange(prefix, after).Ok?
    ensures InRange(k, BoundedRange(prefix, after).value) <==> prefix <= k && Beyond(k[|prefix|..], after)
  {
    BoundedRangeExact(prefix, after, k);
  }

  lemma {:induction false} BuiltRangeExact(prefix: Bytes, after: Option<Versionstamp>, k: Bytes)
    requires StrincOf(prefix).Ok?
    ensures InRange(k, BoundedRange(prefix, after).value) <==> prefix <= k && Beyond(k[|prefix|..], after)
  {
    StrincExact(prefix, k);
    match after
    case None =>
    case Some(p) =>
      var mark := [STAMP_CODE] + p + [0x00];
      assert Pack([Stamp(p)]) == PackElement(Stamp(p)) + Pack([]) == [STAMP_CODE] + p;
      assert prefix + Pack([Stamp(p)]) + [0x00] == prefix + mark;
      if prefix <= k {
        assert k == prefix + k[|prefix|..];
        LessPrepend(prefix, k[|prefix|..], mark);
        PrefixNotGreater(prefix, k);
      } else {
        LessOutsidePrefix(k, prefix, mark, []);
        assert prefix + [] == prefix;
      }
  }

  /** A stamp lies beyond another exactly when it is greater. */
  lemma {:induction false} StampBeyond(p: Versionstamp, after: Option<Versionstamp>)
    ensures Beyond([STAMP_CODE] + p, after) <==> After(p, after)
  {
    if after.Some? {
      var a := after.value;
      LessPrepend([STAMP_CODE], p, a + [0x00]);
      assert [STAMP_CODE] + a + [0x00] == [STAMP_CODE] + (a + [0x00]);
      if p == a {
        LessPrepend(p, [], [0x00]);
        assert p + [] == p;
        LessIrreflexive(p);
      } else {
        LessAppend(p, a, [], [0x00]);
        assert p + [] == p;
        LessTotal(p, a);
        if Less(p, a) {
          LessAsymmetric(p, a);
        }
      }
    }
  }

  // -------------------------------------------------------------------------
  // Ranges over the index
  // -------------------------------------------------------------------------

  /** The strings before the type: `[ns, "i", tag1..tagN, "_"]`. */
  function SentinelStrings(ns: Bytes, tags: seq<Bytes>): seq<Bytes> {
    [ns, INDEXES_SUB] + tags + [EVENTS_IN_INDEXES_SUB]
  }

  function EventsInTagPrefix(ns: Bytes, tags: seq<Bytes>): Bytes {
    Pack(Strs(SentinelStrings(ns, tags)))
  }

  function TagTypePrefix(ns: Bytes, tags: seq<Bytes>, typeName: Bytes): Bytes {
    Pack(Strs(SentinelStrings(ns, tags) + [typeName]))
  }

  function DiscoveryRange(ns: Bytes, tags: seq<Bytes>): Result<Range> {
    PrefixRange(EventsInTagPrefix(ns, tags))
  }

  function TypedRange(ns: Bytes, tags: seq<Bytes>, typeName: Bytes, after: Option<Versionstamp>): Result<Range> {
    BoundedRange(TagTypePrefix(ns, tags, typeName), after)
  }

  lemma {:induction false} StringPackEnds(ss: seq<Bytes>)
    requires ss != []
    ensures var b := Pack(Strs(ss)); b != [] && b[|b| - 1] == END
  {
    assert Strs(ss)[1..] == Strs(ss[1..]);
    if |ss| > 1 {
      StringPackEnds(ss[1..]);
    }
  }

  lemma {:induction false} IndexHeadStrings(ns: Bytes, tags: seq<Bytes>, typeName: Bytes)
    ensures IndexHead(ns, tags, typeName) == Strs(SentinelStrings(ns, tags) + [typeName])
  {
  }

  /** The bytes of an index key: its head, the stamp code, the stamp. */
  lemma {:induction false} IndexKeyBytes(ns: Bytes, tags: seq<Bytes>, typeName: Bytes, p: Versionstamp)
    ensures PackIndexKey(ns, tags, typeName, p) == TagTypePrefix(ns, tags, typeName) + ([STAMP_CODE] + p)
  {
    IndexHeadStrings(ns, tags, typeName);
    PackStamp(IndexHead(ns, tags, typeName), p);
  }

  /** With no reserved tag on either side, the first "_" marks the end of the tags. */
  lemma {:induction false} TagsDelimited(ns: Bytes, s: seq<Bytes>, s': seq<Bytes>, u: Bytes)
    requires RESERVED_TAG !in s && RESERVED_TAG !in s'
    requires |SentinelStrings(ns, s)| <= |SentinelStrings(ns, s') + [u]|
    requires SentinelStrings(ns, s) == (SentinelStrings(ns, s') + [u])[..|s| + 3]
    ensures s == s'
  {
    var a, b := SentinelStrings(ns, s), SentinelStrings(ns, s') + [u];
    var m, m' := |s|, |s'|;
    assert forall i :: 2 <= i < m + 2 ==> a[i] in s;
    assert forall i :: 2 <= i < m' + 2 ==> b[i] in s';
    assert a[m + 2] == b[m + 2] == RESERVED_TAG;
    assert m' <= m;
    assert b[m' + 2] == RESERVED_TAG == a[m' + 2];
    assert m == m';
    assert s == a[2..m + 2] && s' == b[2..m + 2];
  }

  /** Which index keys start with the bytes of a tags-and-type prefix. */
  lemma {:induction false} TypePrefixExact(ns: Bytes, s: seq<Bytes>, t: Bytes, s': seq<Bytes>, u: Bytes,
        p: Versionstamp)
    requires RESERVED_TAG !in s && RESERVED_TAG !in s'
    ensures TagTypePrefix(ns, s, t) <= PackIndexKey(ns, s', u, p) <==> s' == s && (u == t || NulExtends(u, t))
  {
    var ss, fs := SentinelStrings(ns, s) + [t], IndexElems(ns, s', u, p);
    var n := |ss| - 1;
    PackPrefix(ss, fs);
    assert ss[..n] == SentinelStrings(ns, s);
    var gs := SentinelStrings(ns, s') + [u];
    assert forall i :: 0 <= i < |gs| ==> fs[i] == Str(gs[i]);
    assert |fs| == |gs| + 1 && fs[|gs|].Stamp?;
    if s' == s {
      assert Strs(ss[..n]) == fs[..n];
      assert fs[n] == Str(u);
    } else if TagTypePrefix(ns, s, t) <= PackIndexKey(ns, s', u, p) {
      assert n < |gs|;
      forall i: nat | i < n ensures ss[i] == gs[i] {
        assert Strs(ss[..n])[i] == fs[..n][i];
      }
      assert ss[..n] == gs[..n];
      TagsDelimited(ns, s, s', u);
    }
  }

  /**
   Byte-exact index matching. A typed range holds, of all index keys of its
   namespace, those with the same tags that have either the same type and a
   position after the bound, or a type that continues with a 0x00 byte. The
   latter are held at every position: 0xFF sorts after the stamp code.
   */
  lemma {:induction false} TypedRangeExact(ns: Bytes, s: seq<Bytes>, t: Bytes, after: Option<Versionstamp>,
        s': seq<Bytes>, u: Bytes, p: Versionstamp)
    requires RESERVED_TAG !in s && RESERVED_TAG !in s'
    ensures TypedRange(ns, s, t, after).Ok?
    ensures InRange(PackIndexKey(ns, s', u, p), TypedRange(ns, s, t, after).value) <==>
              s' == s && ((u == t && After(p, after)) || NulExtends(u, t))
  {
    var prefix, k := TagTypePrefix(ns, s, t), PackIndexKey(ns, s', u, p);
    StringPackEnds(SentinelStrings(ns, s) + [t]);
    PackedRangeExact(prefix, after, k);
    TypePrefixExact(ns, s, t, s', u, p);
    if s' == s && u == t {
      IndexKeyBytes(ns, s, t, p);
      assert k[|prefix|..] == [STAMP_CODE] + p;
      StampBeyond(p, after);
      assert |t + [END]| > |t|;
    } else if s' == s && NulExtends(u, t) {
      NulExtensionBytes(ns, s, t, u, p);
      assert k[|prefix|] == ESCAPE;
    }
  }

  /** The packed longer name goes on with 0xFF where the shorter one ends. */
  lemma {:induction false} ContinuedName(t: Bytes, u: Bytes, tail: Bytes)
    requires NulExtends(u, t)
    ensures var a, b := [STRING_CODE] + Escape(t) + [END], [STRING_CODE] + Escape(u) + [END] + tail;
            |a| < |b| && b[|a|] == ESCAPE
  {
    var rest := u[|t| + 1..];
    assert u == t + ([END] + rest);
    EscapeConcat(t, [END] + rest);
    assert ([END] + rest)[1..] == rest;
    assert Escape([END] + rest) == [END, ESCAPE] + Escape(rest);
    assert Escape(u) == Escape(t) + [END, ESCAPE] + Escape(rest);
  }

  /** A 0x00 continuation of the type shows as 0xFF right after the prefix. */
  lemma {:induction false} NulExtensionBytes(ns: Bytes, s: seq<Bytes>, t: Bytes, u: Bytes, p: Versionstamp)
    requires NulExtends(u, t)
    ensures var prefix, k := TagTypePrefix(ns, s, t), PackIndexKey(ns, s, u, p);
            |prefix| < |k| && k[|prefix|] == ESCAPE
  {
    var head, tail := Strs(SentinelStrings(ns, s)), Pack([Stamp(p)]);
    assert Strs(SentinelStrings(ns, s) + [t]) == head + [Str(t)];
    assert IndexElems(ns, s, u, p) == head + ([Str(u)] + [Stamp(p)]);
    PackConcat(head, [Str(t)]);
    PackConcat(head, [Str(u)] + [Stamp(p)]);
    PackCons(Str(t), []);
    PackCons(Str(u), [Stamp(p)]);
    ContinuedName(t, u, tail);
    assert [Str(t)] + [] == [Str(t)];
    assert Pack([Str(u)] + [Stamp(p)]) == [STRING_CODE] + Escape(u) + [END] + tail;
  }

  /** The tags start with `s`, and next comes their end or a tag "_" continued by 0x00. */
  ghost predicate Scanned(s: seq<Bytes>, s': seq<Bytes>) {
    s <= s' && (s' == s || NulExtends(s'[|s|], RESERVED_TAG))
  }

  /** The strings of an index key before its stamp. */
  lemma {:induction false} IndexStrings(ns: Bytes, s: seq<Bytes>, u: Bytes, p: Versionstamp)
    ensures var gs, fs := SentinelStrings(ns, s) + [u], IndexElems(ns, s, u, p);
            |fs| == |gs| + 1 && fs[|gs|] == Stamp(p) && forall i :: 0 <= i < |gs| ==> fs[i] == Str(gs[i])
  {
  }

  lemma {:induction false} ScannedHasPrefix(ns: Bytes, s: seq<Bytes>, s': seq<Bytes>, u: Bytes, p: Versionstamp)
    requires Scanned(s, s')
    ensures EventsInTagPrefix(ns, s) <= PackIndexKey(ns, s', u, p)
  {
    var ss, gs, fs := SentinelStrings(ns, s), SentinelStrings(ns, s') + [u], IndexElems(ns, s', u, p);
    var n := |ss| - 1;
    IndexStrings(ns, s', u, p);
    assert s == s'[..|s|];
    assert ss[..n] == [ns, INDEXES_SUB] + s == gs[..n];
    assert Strs(ss[..n]) == fs[..n];
    assert fs[n] == Str(if s' == s then RESERVED_TAG else s'[|s|]);
    PackPrefix(ss, fs);
  }

  lemma {:induction false} PrefixIsScanned(ns: Bytes, s: seq<Bytes>, s': seq<Bytes>, u: Bytes, p: Versionstamp)
    requires RESERVED_TAG !in s && RESERVED_TAG !in s'
    requires EventsInTagPrefix(ns, s) <= PackIndexKey(ns, s', u, p)
    ensures Scanned(s, s')
  {
    var ss, gs, fs := SentinelStrings(ns, s), SentinelStrings(ns, s') + [u], IndexElems(ns, s', u, p);
    var n := |ss| - 1;
    IndexStrings(ns, s', u, p);
    PackPrefix(ss, fs);
    forall i: nat | i < n ensures ss[i] == gs[i] {
      assert Strs(ss[..n])[i] == fs[..n][i];
    }
    assert forall i :: 2 <= i < n ==> ss[i] in s;
    assert gs[|s'| + 2] == RESERVED_TAG;
    assert |s| <= |s'|;
    forall i: nat | i < |s| ensures s[i] == s'[i] {
      assert ss[i + 2] == gs[i + 2];
    }
    assert s == s'[..|s|];
  }

  /** Which index keys the scan for types reads. */
  lemma {:induction false} DiscoveryRangeExact(ns: Bytes, s: seq<Bytes>, s': seq<Bytes>, u: Bytes, p: Versionstamp)
    requires RESERVED_TAG !in s && RESERVED_TAG !in s'
    ensures DiscoveryRange(ns, s).Ok?
    ensures InRange(PackIndexKey(ns, s', u, p), DiscoveryRange(ns, s).value) <==> Scanned(s, s')
  {
    StringPackEnds(SentinelStrings(ns, s));
    PackedRangeExact(EventsInTagPrefix(ns, s), None, PackIndexKey(ns, s', u, p));
    if Scanned(s, s') {
      ScannedHasPrefix(ns, s, s', u, p);
    } else if EventsInTagPrefix(ns, s) <= PackIndexKey(ns, s', u, p) {
      PrefixIsScanned(ns, s, s', u, p);
    }
  }
}

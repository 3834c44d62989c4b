/** `query.rs`: ranges built inside a transaction, discovery reads included. */
module QueryMethods {
  import opened Bytes
  import opened Tuples
  import opened Types
  import Encoding
  import Kv
  import Ranges
  import Matching
  import Fdb

  /** `[ns, "i", tag1..tagN, "_"]` */
  method TagSentinelElems(ns: Bytes, sortedTags: seq<Bytes>) returns (elems: seq<Element>)
    ensures elems == Strs(Ranges.SentinelStrings(ns, sortedTags))
  {
    elems := [];
    elems := elems + [Str(ns)];
    elems := elems + [Str(Encoding.INDEXES_SUB)];
    for i := 0 to |sortedTags|
      invariant elems == Strs([ns, Encoding.INDEXES_SUB] + sortedTags[..i])
    {
      elems := elems + [Str(sortedTags[i])];
      assert sortedTags[..i + 1] == sortedTags[..i] + [sortedTags[i]];
    }
    assert sortedTags[..|sortedTags|] == sortedTags;
    elems := elems + [Str(Encoding.EVENTS_IN_INDEXES_SUB)];
  }

  /** The distinct types of the keys, in the order they were found. */
  method CollectTypes(keys: seq<Bytes>, minLen: nat) returns (r: Result<seq<Bytes>>)
    requires minLen >= 2
    ensures r == Matching.TypesIn(keys, minLen)
    ensures r.Err? ==> r.error.TupleDecode?
  {
    var types: seq<Bytes> := [];
    var seen: set<Bytes> := {};
    for i := 0 to |keys|
      invariant Matching.TypesIn(keys[..i], minLen) == Ok(types)
      invariant seen == set t | t in types
    {
      assert keys[..i + 1][..i] == keys[..i];
      var elements := Unpack(keys[i]);
      if elements.None? {
        FailsEarly(keys, i + 1, minLen);
        return Err(TupleDecode);
      }
      if |elements.value| < minLen {
        continue;
      }
      var typeElement := elements.value[|elements.value| - 2];
      if typeElement.Str? {
        var typeName := typeElement.s;
        if typeName !in seen {
          seen := seen + {typeName};
          types := types + [typeName];
        }
      }
    }
    assert keys[..|keys|] == keys;
    return Ok(types);
  }

  /** A key that does not decode makes the whole collection fail. */
  lemma {:induction false} FailsEarly(keys: seq<Bytes>, n: nat, minLen: nat)
    requires minLen >= 2 && n <= |keys| && Matching.TypesIn(keys[..n], minLen) == Err(TupleDecode)
    ensures Matching.TypesIn(keys, minLen) == Err(TupleDecode)
    decreases |keys|
  {
    if n == |keys| {
      assert keys[..n] == keys;
    } else {
      var m := |keys| - 1;
      assert keys[..m][..n] == keys[..n];
      FailsEarly(keys[..m], n, minLen);
    }
  }

  /** The types of all keys in the range. */
  method CollectInRange(tr: Fdb.Transaction, range: Kv.Range, minLen: nat, snapshot: bool)
    returns (r: Result<seq<Bytes>>)
    requires tr.Valid() && tr.sets == [] && minLen >= 2
    modifies tr, tr.db
    ensures tr.Valid() && tr.Reading() && old(tr.conflicts) <= tr.conflicts
    ensures (r.Err? && r.error.Fdb?) || r == Matching.TypesIn(Kv.KeysIn(tr.view, range), minLen)
    ensures r.Ok? ==> tr.readAt.Some?
    ensures tr.db.Reports(Fdb.FailureOf(r))
    ensures snapshot ==> tr.conflicts == old(tr.conflicts)
    ensures r.Ok? && !snapshot ==> tr.conflicts == old(tr.conflicts) + [range]
  {
    var keys, _ := tr.GetRangesKeyvalues(range, 0, false, snapshot);
    if keys.Err? {
      return Err(keys.error);
    }
    r := CollectTypes(keys.value, minLen);
  }

  method DiscoverTypesInTagSubspace(tr: Fdb.Transaction, ns: Bytes, sortedTags: seq<Bytes>, snapshot: bool)
    returns (r: Result<seq<Bytes>>)
    requires tr.Valid() && tr.sets == []
    modifies tr, tr.db
    ensures tr.Valid() && tr.Reading() && old(tr.conflicts) <= tr.conflicts
    ensures (r.Err? && r.error.Fdb?) || r == Matching.Discover(tr.view, ns, sortedTags)
    ensures r.Ok? ==> tr.readAt.Some? && Ranges.DiscoveryRange(ns, sortedTags).Ok?
    ensures tr.db.Reports(Fdb.FailureOf(r))
    ensures snapshot ==> tr.conflicts == old(tr.conflicts)
    ensures r.Ok? ==>
              tr.conflicts == old(tr.conflicts) + if snapshot then [] else [Ranges.DiscoveryRange(ns, sortedTags).value]
  {
    var elems := TagSentinelElems(ns, sortedTags);
    var range := Ranges.PrefixRange(Pack(elems));
    if range.Err? {
      return Err(range.error);
    }
    r := CollectInRange(tr, range.value, |sortedTags| + 5, snapshot);
  }

  /** One bounded range per type. */
  method TypedRangesFor(ns: Bytes, sortedTags: seq<Bytes>, types: seq<Bytes>, after: Option<Versionstamp>)
    returns (r: Result<seq<Kv.Range>>)
    ensures r == Matching.TypedRanges(ns, sortedTags, types, after) && r.Ok?
  {
    Matching.TypedRangesAre(ns, sortedTags, types, after);
    var ranges: seq<Kv.Range> := [];
    for i := 0 to |types|
      invariant Matching.TypedRanges(ns, sortedTags, types[..i], after) == Ok(ranges)
    {
      assert types[..i + 1][..i] == types[..i];
      var prefix := Ranges.TagTypePrefix(ns, sortedTags, types[i]);
      var range := match after case Some(vs) => Ranges.AfterRange(prefix, vs) case None => Ranges.PrefixRange(prefix);
      assert range == Ranges.TypedRange(ns, sortedTags, types[i], after);
      match range {
        case Err(e) =>
          assert false;
          return Err(e);
        case Ok(r) =>
          ranges := ranges + [r];
      }
    }
    assert types[..|types|] == types;
    return Ok(ranges);
  }

  /** Only a tags-only item looks at the store. */
  lemma {:induction false} TypedItemAnywhere(kv: Kv.Store, kv': Kv.Store, ns: Bytes, item: QueryItem,
        after: Option<Versionstamp>)
    requires item.types != []
    ensures Matching.ItemRanges(kv, ns, item, after) == Matching.ItemRanges(kv', ns, item, after)
  {
  }

  lemma {:induction false} NoTags()
    ensures Encoding.Canonical([]) == []
  {
    Encoding.CanonicalFixpoint([]);
  }

  method BuildQueryRanges(tr: Fdb.Transaction, ns: Bytes, item: QueryItem, after: Option<Versionstamp>, snapshot: bool)
    returns (r: Result<seq<Kv.Range>>)
    requires tr.Valid() && tr.sets == []
    modifies tr, tr.db
    ensures tr.Valid() && tr.Reading() && old(tr.conflicts) <= tr.conflicts
    ensures (r.Err? && r.error.Fdb?) || r == Matching.ItemRanges(tr.view, ns, item, after)
    ensures r.Ok? ==> (item.types == [] ==> tr.readAt.Some?)
    ensures tr.db.Reports(Fdb.FailureOf(r))
    ensures snapshot ==> tr.conflicts == old(tr.conflicts)
    ensures r.Ok? ==> tr.conflicts == old(tr.conflicts) + if snapshot then [] else Matching.ScannedRanges(ns, item)
  {
    if item.HasNoTypeNorTags() {
      return Err(InvalidQuery);
    }
    if item.HasTypesOnly() {
      NoTags();
      r := TypedRangesFor(ns, [], item.types, after);
      return;
    }
    var sortedTags := Encoding.SortTags(item.tags);
    var types: seq<Bytes>;
    if item.HasTypesAndTags() {
      types := item.types;
    } else {
      var discovered := DiscoverTypesInTagSubspace(tr, ns, sortedTags, snapshot);
      if discovered.Err? {
        return Err(discovered.error);
      }
      types := discovered.value;
    }
    r := TypedRangesFor(ns, sortedTags, types, after);
  }
}

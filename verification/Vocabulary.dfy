/**
 Reads and condition checks are right for a vocabulary of type names exactly when no
 logged name continues a queried one with a 0x00 byte.
 */
module Vocabulary {
  import opened Bytes
  import opened Tuples
  import opened Types
  import opened Kv
  import opened Probing
  import opened Ledger
  import opened Matching
  import opened Reading
  import Encoding
  import Ranges
  import ReadMethods

  /** Whatever order-respecting merge of the query's ranges a read comes up with, the
      events at its positions are the specified ones. */
  ghost predicate ReadsRight(h: seq<Commit>, l: seq<Record>, ns: Bytes, q: Query, opts: ReadOptions) {
    var rs := QueryRanges(Replay(h), ns, q.items, opts.after);
    rs.Ok? && forall out :: ReadMethods.Merged(Replay(h), rs.value, opts, out) ==>
        Fetch(Replay(h), ns, out) == Ok(ReadSpec(LogOf(l, ns), q, opts))
  }

  /** The log's type names are from one vocabulary, those its items stand for from another. */
  ghost predicate Speaks(log: seq<StoredEvent>, q: Query, logged: iset<Bytes>, queried: iset<Bytes>) {
    LogTypesIn(log, logged) && forall item :: item in q.items ==> ItemTypesIn(log, item, queried)
  }

  ghost predicate Spoken(logged: iset<Bytes>, queried: iset<Bytes>, h: seq<Commit>, l: seq<Record>, ns: Bytes,
        q: Query)
  {
    Matches(h, l) && ValidQuery(q) && Speaks(LogOf(l, ns), q, logged, queried)
  }

  /** All reads over the vocabularies are right. */
  ghost predicate Readable(logged: iset<Bytes>, queried: iset<Bytes>) {
    forall h, l, ns, q, opts :: Spoken(logged, queried, h, l, ns, q) ==> ReadsRight(h, l, ns, q, opts)
  }

  const ANY_OPTIONS: ReadOptions := ReadOptions(0, None, false)

  /** One event of type `u` with no tags. */
  function LoneEvent(u: Bytes): Event { Event(u, [], []) }

  function LoneStored(u: Bytes): StoredEvent { StoredEvent(LoneEvent(u), Encoding.Position(0, 0)) }

  function LoneRecord(u: Bytes): Record { Appended([], [LoneEvent(u)], 0) }

  function LoneQuery(t: Bytes): Query { Query([QueryItem([t], [])]) }

  /** The query for type `t` has one range, and it holds the key of the event of type `u`. */
  lemma {:induction false} LoneRange(t: Bytes, u: Bytes) returns (r: Range)
    requires NulExtends(u, t)
    ensures QueryRanges(Replay([CommitOf(LoneRecord(u))]), [], LoneQuery(t).items, None) == Ok([r])
    ensures KeysIn(Replay([CommitOf(LoneRecord(u))]), r) != []
  {
    var l, h, item := [LoneRecord(u)], [CommitOf(LoneRecord(u))], QueryItem([t], []);
    var se := LoneStored(u);
    LoneLedger(u);
    Encoding.CanonicalFixpoint([]);
    ItemRangesOk(h, l, [], item, None);
    TypedRangesAre([], [], [t], None);
    var rs := ItemRanges(Replay(h), [], item, None).value;
    r := rs[0];
    assert LoneQuery(t).items[..0] == [] && QueryRanges(Replay(h), [], [], None) == Ok([]);
    assert [] + rs == [r];
    Ranges.TypedRangeExact([], [], t, None, [], u, se.position);
    Encoding.CanonicalIndexed([], se.event);
    IndexInvariant(h, l, [], [], u, se.position);
    assert StoredEvent(se.event, se.position) in LogOf(l, []);
    assert Encoding.PackIndexKey([], [], u, se.position) in KeysIn(Replay(h), r);
  }

  /** What a store with one range to read fetches from it is wrong: it is not empty. */
  lemma {:induction false} LoneFetch(t: Bytes, u: Bytes, r: Range)
    requires NulExtends(u, t) && KeysIn(Replay([CommitOf(LoneRecord(u))]), r) != []
    ensures var kv := Replay([CommitOf(LoneRecord(u))]);
            Fetch(kv, [], StampSeq(GetRange(kv, r, 0, false)))
            != Ok(ReadSpec(LogOf([LoneRecord(u)], []), LoneQuery(t), ANY_OPTIONS))
  {
    var kv := Replay([CommitOf(LoneRecord(u))]);
    LoneLedger(u);
    SelectsNothing(t, u);
    FetchCount(kv, [], StampSeq(GetRange(kv, r, 0, false)));
  }

  /**
   When `u` is `t`, 0x00 and more, the query for type `t` finds an event of type `u`:
   no right merge gives the specified (empty) result, and what `ReadEvents` returns
   for a query with one range is wrong.
   */
  lemma {:induction false} Misread(t: Bytes, u: Bytes)
    requires NulExtends(u, t)
    ensures !ReadsRight([CommitOf(LoneRecord(u))], [LoneRecord(u)], [], LoneQuery(t), ANY_OPTIONS)
    ensures forall r ::
              ReadMethods.SingleRangeRead(Replay([CommitOf(LoneRecord(u))]), [], LoneQuery(t), ANY_OPTIONS, r) ==>
              r != Ok(ReadSpec(LogOf([LoneRecord(u)], []), LoneQuery(t), ANY_OPTIONS))
  {
    var kv := Replay([CommitOf(LoneRecord(u))]);
    var r := LoneRange(t, u);
    LoneFetch(t, u, r);
    ReadMethods.SingleMerged(kv, r, ANY_OPTIONS, GetRange(kv, r, 0, false));
  }

  lemma {:induction false} LoneLedger(u: Bytes)
    requires u != []
    ensures Matches([CommitOf(LoneRecord(u))], [LoneRecord(u)])
    ensures LogOf([LoneRecord(u)], []) == [LoneStored(u)]
  {
    var l := [LoneRecord(u)];
    assert l[..0] == [] && LogOf(l[..0], []) == [];
    assert RecordEvents(l[0], []) == [LoneStored(u)];
  }

  lemma {:induction false} SelectsNothing(t: Bytes, u: Bytes)
    requires NulExtends(u, t)
    ensures ReadSpec([LoneStored(u)], Query([QueryItem([t], [])]), ANY_OPTIONS) == []
  {
    var log := [LoneStored(u)];
    var q := Query([QueryItem([t], [])]);
    assert |u| > |t| && u !in [t];
    assert !MatchesQuery(log[0].event, q);
    assert log[..0] == [] && Selected(log[..0], q, None) == [];
    assert Selected(log, q, None) == [];
  }

  lemma {:induction false} FetchCount(kv: Store, ns: Bytes, vses: seq<Versionstamp>)
    ensures Fetch(kv, ns, vses).Ok? ==> |Fetch(kv, ns, vses).value| == |vses|
  {
    if vses != [] {
      FetchCount(kv, ns, vses[..|vses| - 1]);
    }
  }

  /** Reads are right if and only if no logged name continues a queried one. */
  lemma {:induction false} VocabularyExact(logged: iset<Bytes>, queried: iset<Bytes>)
    ensures Readable(logged, queried) <==> NamesApart(logged, queried)
  {
    if NamesApart(logged, queried) {
      ApartReadable(logged, queried);
    } else {
      NotApartUnreadable(logged, queried);
    }
  }

  lemma {:induction false} ApartReadable(logged: iset<Bytes>, queried: iset<Bytes>)
    requires NamesApart(logged, queried)
    ensures Readable(logged, queried)
  {
    forall h, l, ns, q, opts | Spoken(logged, queried, h, l, ns, q) ensures ReadsRight(h, l, ns, q, opts) {
      ApartReadsRight(logged, queried, h, l, ns, q, opts);
    }
  }

  lemma {:induction false} NotApartUnreadable(logged: iset<Bytes>, queried: iset<Bytes>)
    requires !NamesApart(logged, queried)
    ensures !Readable(logged, queried)
  {
    var t, u :| t in queried && u in logged && NulExtends(u, t);
    Misread(t, u);
    MisreadSpoken(logged, queried, t, u);
    if Readable(logged, queried) {
      ReadableAt(logged, queried, [CommitOf(LoneRecord(u))], [LoneRecord(u)], [], LoneQuery(t), ANY_OPTIONS);
    }
  }

  lemma {:induction false} MisreadSpoken(logged: iset<Bytes>, queried: iset<Bytes>, t: Bytes, u: Bytes)
    requires t in queried && u in logged && u != []
    ensures Spoken(logged, queried, [CommitOf(LoneRecord(u))], [LoneRecord(u)], [], LoneQuery(t))
  {
    LoneLedger(u);
  }

  lemma {:induction false} ReadableAt(logged: iset<Bytes>, queried: iset<Bytes>, h: seq<Commit>, l: seq<Record>,
        ns: Bytes, q: Query, opts: ReadOptions)
    requires Readable(logged, queried) && Spoken(logged, queried, h, l, ns, q)
    ensures ReadsRight(h, l, ns, q, opts)
  {
  }

  lemma {:induction false} SpeaksApart(logged: iset<Bytes>, queried: iset<Bytes>, l: seq<Record>, ns: Bytes, q: Query)
    requires NamesApart(logged, queried) && Speaks(LogOf(l, ns), q, logged, queried)
    ensures TypesApart(l, ns, q)
  {
    forall item | item in q.items ensures ItemApart(LogOf(l, ns), item) {
      NamesApartItem(LogOf(l, ns), item, logged, queried);
    }
  }

  lemma {:induction false} ApartReadsRight(logged: iset<Bytes>, queried: iset<Bytes>, h: seq<Commit>, l: seq<Record>,
        ns: Bytes, q: Query, opts: ReadOptions)
    requires NamesApart(logged, queried) && Spoken(logged, queried, h, l, ns, q)
    ensures ReadsRight(h, l, ns, q, opts)
  {
    QueryRangesOk(h, l, ns, q.items, opts.after);
    SpeaksApart(logged, queried, l, ns, q);
    var rs := QueryRanges(Replay(h), ns, q.items, opts.after).value;
    forall out | ReadMethods.Merged(Replay(h), rs, opts, out)
      ensures Fetch(Replay(h), ns, out) == Ok(ReadSpec(LogOf(l, ns), q, opts))
    {
      ReadMethods.MergedIsSpec(h, l, ns, q, opts, out);
    }
  }

  // -------------------------------------------------------------------------
  // Appends
  // -------------------------------------------------------------------------

  ghost predicate CondsSpoken(logged: iset<Bytes>, queried: iset<Bytes>, l: seq<Record>, ns: Bytes,
        conds: seq<AppendCondition>)
  {
    && Ledgered(l)
    && forall c :: c in conds ==> ValidQuery(c.query) && Speaks(LogOf(l, ns), c.query, logged, queried)
  }

  /** The probes of all conditions over the vocabularies find what the conditions select. */
  ghost predicate Checkable(logged: iset<Bytes>, queried: iset<Bytes>) {
    forall l, ns, conds :: CondsSpoken(logged, queried, l, ns, conds) ==> ChecksRight(l, ns, conds)
  }

  ghost predicate ChecksRight(l: seq<Record>, ns: Bytes, conds: seq<AppendCondition>) {
    AnyBlocks(LogOf(l, ns), ProbesOf(conds)) <==> SomeSelected(LogOf(l, ns), conds)
  }

  function LoneCondition(t: Bytes): seq<AppendCondition> { [AppendCondition(LoneQuery(t), None)] }

  /** When `u` is `t`, 0x00 and more, an event of type `u` makes the condition "no event of
      type `t`" fail: a probe finds its key, and nothing is selected. */
  lemma {:induction false} Misrefused(t: Bytes, u: Bytes)
    requires NulExtends(u, t)
    ensures AnyHit(Replay([CommitOf(LoneRecord(u))]), [], ProbesOf(LoneCondition(t)))
    ensures AnyBlocks(LogOf([LoneRecord(u)], []), ProbesOf(LoneCondition(t)))
    ensures !SomeSelected(LogOf([LoneRecord(u)], []), LoneCondition(t))
  {
    var p := Probe(QueryItem([t], []), None);
    LoneLedger(u);
    ProbesHave(LoneCondition(t), p);
    LoneContinuation(t, u, p);
    HitExact([CommitOf(LoneRecord(u))], [LoneRecord(u)], [], p);
  }

  lemma {:induction false} LoneContinuation(t: Bytes, u: Bytes, p: Probe)
    requires NulExtends(u, t) && p == Probe(QueryItem([t], []), None)
    ensures Blocks([LoneStored(u)], p)
    ensures !SomeSelected([LoneStored(u)], LoneCondition(t))
  {
    var log := [LoneStored(u)];
    assert log[0] in log && EffectiveName(log, p.item, t) && !TypeApart(log, [], t);
    BlocksExact(log, p);
    assert |u| > |t| && u !in p.item.types;
  }

  /** Condition checks are right if and only if no logged name continues a queried one. */
  lemma {:induction false} ConditionVocabularyExact(logged: iset<Bytes>, queried: iset<Bytes>)
    ensures Checkable(logged, queried) <==> NamesApart(logged, queried)
  {
    if NamesApart(logged, queried) {
      ApartCheckable(logged, queried);
    } else {
      NotApartUncheckable(logged, queried);
    }
  }

  lemma {:induction false} ApartCheckable(logged: iset<Bytes>, queried: iset<Bytes>)
    requires NamesApart(logged, queried)
    ensures Checkable(logged, queried)
  {
    forall l, ns, conds | CondsSpoken(logged, queried, l, ns, conds) ensures ChecksRight(l, ns, conds) {
      ConditionsExact(LogOf(l, ns), conds);
      forall c: AppendCondition, item | c in conds && item in c.query.items ensures ItemApart(LogOf(l, ns), item) {
        NamesApartItem(LogOf(l, ns), item, logged, queried);
      }
    }
  }

  lemma {:induction false} NotApartUncheckable(logged: iset<Bytes>, queried: iset<Bytes>)
    requires !NamesApart(logged, queried)
    ensures !Checkable(logged, queried)
  {
    var t, u :| t in queried && u in logged && NulExtends(u, t);
    Misrefused(t, u);
    MisrefusedSpoken(logged, queried, t, u);
    if Checkable(logged, queried) {
      CheckableAt(logged, queried, [LoneRecord(u)], [], LoneCondition(t));
    }
  }

  lemma {:induction false} MisrefusedSpoken(logged: iset<Bytes>, queried: iset<Bytes>, t: Bytes, u: Bytes)
    requires t in queried && u in logged && u != []
    ensures CondsSpoken(logged, queried, [LoneRecord(u)], [], LoneCondition(t))
  {
    LoneLedger(u);
  }

  lemma {:induction false} CheckableAt(logged: iset<Bytes>, queried: iset<Bytes>, l: seq<Record>, ns: Bytes,
        conds: seq<AppendCondition>)
    requires Checkable(logged, queried) && CondsSpoken(logged, queried, l, ns, conds)
    ensures ChecksRight(l, ns, conds)
  {
  }
}

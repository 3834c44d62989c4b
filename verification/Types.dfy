/** The public data model. Strings are their UTF-8 bytes, which is also how Rust orders them. */
module Types {
  import opened Bytes
  import opened Tuples

  datatype Event = Event(typeName: Bytes, tags: seq<Bytes>, data: Bytes)

  datatype StoredEvent = StoredEvent(event: Event, position: Versionstamp)

  datatype QueryItem = QueryItem(types: seq<Bytes>, tags: seq<Bytes>) {
    predicate HasNoTypeNorTags() { types == [] && tags == [] }
    predicate HasTypesOnly() { types != [] && tags == [] }
    predicate HasTypesAndTags() { types != [] && tags != [] }
  }

  datatype Query = Query(items: seq<QueryItem>)

  datatype AppendCondition = AppendCondition(query: Query, after: Option<Versionstamp>)

  datatype ReadOptions = ReadOptions(limit: nat, after: Option<Versionstamp>, reverse: bool)

  datatype Error =
    | EmptyEvents
    | AppendConditionFailed
    | InvalidQuery
    | MissingEventType
    | BatchTooLarge
    | TooManyTags
    | ReservedTag
    | AllFfKey
    | Fdb(code: int)
    | TupleDecode
    | EventNotFound(position: Versionstamp)

  datatype Result<+T> = Ok(value: T) | Err(error: Error) {
    predicate IsFailure() { Err? }
    function PropagateFailure<U>(): Result<U>
      requires Err?
    {
      Err(error)
    }
    function Extract(): T
      requires Ok?
    {
      value
    }
  }

  /** The tag value that separates tags from the type in index keys: "_". */
  const RESERVED_TAG: Bytes := [0x5F]

  // -------------------------------------------------------------------------
  // What queries mean
  // -------------------------------------------------------------------------

  predicate CarriesTags(e: Event, tags: seq<Bytes>) {
    forall t :: t in tags ==> t in e.tags
  }

  predicate MatchesItem(e: Event, item: QueryItem) {
    (item.types == [] || e.typeName in item.types) && CarriesTags(e, item.tags)
  }

  predicate MatchesQuery(e: Event, q: Query) {
    exists item :: item in q.items && MatchesItem(e, item)
  }

  predicate After(position: Versionstamp, after: Option<Versionstamp>) {
    after.None? || Less(after.value, position)
  }

  /** An event that a query with bound `after` selects. */
  predicate Selects(q: Query, after: Option<Versionstamp>, se: StoredEvent) {
    After(se.position, after) && MatchesQuery(se.event, q)
  }

  /** Query items the store accepts: at least one type or tag, and no reserved tag. */
  predicate ValidItem(item: QueryItem) {
    !item.HasNoTypeNorTags() && RESERVED_TAG !in item.tags
  }

  predicate ValidQuery(q: Query) {
    forall item :: item in q.items ==> ValidItem(item)
  }
}

/**
 FoundationDB as the store uses it: a database shared with other clients, and
 optimistic transactions on it. The bodies are the assumptions of the project
 about the database:

 - all reads of a transaction see one version, fixed at its first read and not
   older than what was committed when the transaction (or its reset) began;
 - a non-snapshot range read records the part of the range it has covered, which
   is the whole range when the read ended before its limit;
 - a commit is applied only if no later commit wrote into a recorded range;
 - commit versions strictly increase and fit ten bytes;
 - a commit may report an unknown result after having been applied, but not when
   the automatic idempotency option is set;
 - other clients may commit between any two steps, all of them through this layer.
 */
module Fdb {
  import opened Bytes
  import opened Tuples
  import opened Types
  import opened Kv
  import opened Ledger
  import Encoding

  datatype Mutation =
    | SetVersionstampedKey(key: Encoding.Template, value: Bytes)
    | SetVersionstampedValue(target: Bytes, stamped: Encoding.Template)
    | SetValue(target: Bytes, value: Bytes)

  predicate Resolvable(m: Mutation) {
    match m
    case SetVersionstampedKey(key, _) => key.offset + 10 <= |key.bytes|
    case SetVersionstampedValue(_, stamped) => stamped.offset + 10 <= |stamped.bytes|
    case SetValue(_, _) => true
  }

  /** The writes of a list of mutations once the commit version is known. */
  function Applied(ms: seq<Mutation>, version: nat): map<Bytes, Bytes>
    requires forall m :: m in ms ==> Resolvable(m)
  {
    if ms == [] then map[]
    else
      var n := |ms| - 1;
      var before := Applied(ms[..n], version);
      assert Resolvable(ms[n]);
      match ms[n]
      case SetVersionstampedKey(key, value) => before[Encoding.Resolve(key, version) := value]
      case SetVersionstampedValue(target, stamped) => before[target := Encoding.Resolve(stamped, version)]
      case SetValue(target, value) => before[target := value]
  }

  function WithVersion(rec: Record, version: nat): Record {
    rec.(version := version)
  }

  // Error codes of the database: conflict, and commit_unknown_result.
  const NOT_COMMITTED := 1020
  const COMMIT_UNKNOWN_RESULT := 1021

  /** No index, or one. */
  ghost function Indices(at: Option<nat>): seq<nat> {
    if at.Some? then [at.value] else []
  }

  // -------------------------------------------------------------------------
  // What the database tells a client
  // -------------------------------------------------------------------------

  /** A failed operation of a transaction, a failed wait for the stamp of a commit, and what
      the error handler then did: another attempt, or none. It gives up on an error that
      cannot be retried, and on a retryable one when the budget is used up. */
  datatype Report =
    | Failed(code: int)
    | StampFailed(code: int)
    | Reset
    | GaveUp(code: int, retryable: bool)
  {
    predicate Tells(c: int) {
      match this
      case Failed(code) => code == c
      case StampFailed(code) => code == c
      case Reset => false
      case GaveUp(code, _) => code == c
    }
  }

  /** The failure of the database that ended an operation with this result. */
  ghost function FailureOf<T>(r: Result<T>): Option<int> {
    if r.Err? && r.error.Fdb? then Some(r.error.code) else None
  }

  ghost predicate Failures(s: seq<Report>) {
    forall r :: r in s ==> r.Failed?
  }

  /** Nothing but failures was reported since `before`. */
  ghost predicate FailuresSince(before: seq<Report>, now: seq<Report>) {
    before <= now && Failures(now[|before|..])
  }

  ghost function Resets(s: seq<Report>): nat {
    if s == [] then 0 else Resets(s[..|s| - 1]) + if s[|s| - 1].Reset? then 1 else 0
  }

  lemma {:induction false} ResetsConcat(s: seq<Report>, t: seq<Report>)
    ensures Resets(s + t) == Resets(s) + Resets(t)
  {
    if t == [] {
      assert s + t == s;
    } else {
      var n := |t| - 1;
      ResetsConcat(s, t[..n]);
      assert (s + t)[..|s| + n] == s + t[..n] && (s + t)[|s| + n] == t[n];
    }
  }

  lemma {:induction false} FailuresReset(s: seq<Report>)
    requires Failures(s)
    ensures Resets(s) == 0
  {
    if s != [] {
      var n := |s| - 1;
      assert s[n] in s && forall r :: r in s[..n] ==> r in s;
      FailuresReset(s[..n]);
    }
  }

  ghost predicate FailedOrReset(s: seq<Report>, i: nat)
    requires i < |s|
  {
    s[i].Failed? || (s[i].Reset? && i > 0 && s[i - 1].Failed?)
  }

  /** Failures and resets, no reset without a failure just before it. */
  ghost predicate Failing(s: seq<Report>) {
    forall i :: 0 <= i < |s| ==> FailedOrReset(s, i)
  }

  /** Every attempt that was reported failed and was reset. */
  ghost predicate Retried(s: seq<Report>) {
    Failing(s) && (s == [] || s[|s| - 1].Reset?)
  }

  /** Report `i` is a failure with this code, and only failures follow it. */
  ghost predicate LastFailures(s: seq<Report>, i: nat, code: int) {
    i < |s| && s[i] == Failed(code) && forall j :: i < j < |s| ==> s[j].Failed?
  }

  /** The last attempt, not reset yet, failed with this code. */
  ghost predicate LastFailed(s: seq<Report>, code: int) {
    exists i :: LastFailures(s, i, code)
  }

  /** The error handler was asked last, about a failure of the last attempt, and gave up:
      for lack of budget only after `limit` resets. */
  ghost predicate GaveUpOn(s: seq<Report>, limit: nat, code: int) {
    && |s| >= 2 && Failing(s[..|s| - 1]) && LastFailed(s[..|s| - 1], code)
    && s[|s| - 1].GaveUp? && s[|s| - 1].code == code
    && (s[|s| - 1].retryable ==> Resets(s) == limit)
  }

  /** What a call with a budget of `limit` retries was told, from `start` on: retries only, and
      with a failure, that the error handler gave up on it. */
  ghost predicate CallReports(start: seq<Report>, now: seq<Report>, limit: nat, failure: Option<int>) {
    && start <= now
    && var s := now[|start|..];
       && Resets(s) <= limit
       && if failure.Some? then GaveUpOn(s, limit, failure.value) else Retried(s)
  }

  /** Between two attempts: `retries` of `limit` are left. */
  ghost predicate Trail(start: seq<Report>, now: seq<Report>, limit: nat, retries: nat) {
    start <= now && Retried(now[|start|..]) && Resets(now[|start|..]) + retries == limit
  }

  /** One attempt failed and was reset. */
  ghost predicate AttemptReset(before: seq<Report>, now: seq<Report>) {
    && before <= now && |before| + 2 <= |now|
    && Failures(now[|before|..|now| - 1]) && now[|now| - 1].Reset?
  }

  /** One attempt failed, and the error handler gave up on its failure. */
  ghost predicate AttemptGaveUp(before: seq<Report>, now: seq<Report>, code: int, retries: nat) {
    && before <= now && |before| + 2 <= |now|
    && Failures(now[|before|..|now| - 1]) && Failed(code) in now[|before|..|now| - 1]
    && now[|now| - 1].GaveUp? && now[|now| - 1].code == code && (now[|now| - 1].retryable ==> retries == 0)
  }

  lemma {:induction false} TrailBegins(start: seq<Report>, limit: nat)
    ensures Trail(start, start, limit, limit)
  {
    assert start[|start|..] == [];
  }

  /** Failures after retried attempts, and what follows them. */
  lemma {:induction false} TrailParts(start: seq<Report>, before: seq<Report>, now: seq<Report>, last: Report)
    requires start <= before <= now && |before| + 2 <= |now| && now[|now| - 1] == last
    requires Retried(before[|start|..]) && Failures(now[|before|..|now| - 1])
    ensures var s := now[|start|..];
            && |s| >= 2 && Failing(s[..|s| - 1]) && s[|s| - 2].Failed? && s[|s| - 1] == last
            && Resets(s) == Resets(before[|start|..]) + (if last.Reset? then 1 else 0)
            && s[..|s| - 1] == before[|start|..] + now[|before|..|now| - 1]
  {
    var s, past, mid := now[|start|..], before[|start|..], now[|before|..|now| - 1];
    assert s == past + mid + [last];
    assert s[..|s| - 1] == past + mid;
    assert mid[|mid| - 1] in mid;
    ResetsConcat(past, mid);
    FailuresReset(mid);
    FailingMore(past, mid);
  }

  lemma {:induction false} FailingMore(past: seq<Report>, mid: seq<Report>)
    requires Failing(past) && Failures(mid)
    ensures Failing(past + mid)
  {
    var s := past + mid;
    forall i | 0 <= i < |s| ensures FailedOrReset(s, i) {
      if i < |past| {
        assert FailedOrReset(past, i);
        assert s[i] == past[i] && (i > 0 ==> s[i - 1] == past[i - 1]);
      } else {
        assert s[i] == mid[i - |past|] && s[i] in mid;
      }
    }
  }

  lemma {:induction false} FailingReset(s: seq<Report>)
    requires |s| >= 2 && Failing(s[..|s| - 1]) && s[|s| - 2].Failed? && s[|s| - 1].Reset?
    ensures Retried(s)
  {
    var init := s[..|s| - 1];
    forall i | 0 <= i < |s| ensures FailedOrReset(s, i) {
      if i < |s| - 1 {
        assert FailedOrReset(init, i);
        assert init[i] == s[i] && (i > 0 ==> init[i - 1] == s[i - 1]);
      }
    }
  }

  /** One more attempt that was reset. */
  lemma {:induction false} TrailNext(start: seq<Report>, before: seq<Report>, now: seq<Report>, limit: nat,
        retries: nat)
    requires retries > 0 && Trail(start, before, limit, retries) && AttemptReset(before, now)
    ensures Trail(start, now, limit, retries - 1)
  {
    TrailParts(start, before, now, Reset);
    FailingReset(now[|start|..]);
  }

  /** The attempt that the error handler gave up on. */
  lemma {:induction false} TrailGaveUp(start: seq<Report>, before: seq<Report>, now: seq<Report>, limit: nat,
        retries: nat, code: int)
    requires Trail(start, before, limit, retries) && AttemptGaveUp(before, now, code, retries)
    ensures CallReports(start, now, limit, Some(code))
  {
    TrailParts(start, before, now, now[|now| - 1]);
    LastFailedMore(before[|start|..], now[|before|..|now| - 1], code);
  }

  lemma {:induction false} LastFailedMore(past: seq<Report>, mid: seq<Report>, code: int)
    requires Failures(mid) && Failed(code) in mid
    ensures LastFailed(past + mid, code)
  {
    var k :| 0 <= k < |mid| && mid[k] == Failed(code);
    var s, i := past + mid, |past| + k;
    forall j | i < j < |s| ensures s[j].Failed? {
      assert s[j] == mid[j - |past|] && s[j] in mid;
    }
    assert LastFailures(s, i, code);
  }

  /** The database told something about the error since `start`. */
  ghost predicate ToldSince(start: seq<Report>, now: seq<Report>, code: int) {
    start <= now && exists i :: |start| <= i < |now| && now[i].Tells(code)
  }

  lemma {:induction false} CallTold(start: seq<Report>, now: seq<Report>, limit: nat, code: int)
    requires CallReports(start, now, limit, Some(code))
    ensures ToldSince(start, now, code)
  {
    var s := now[|start|..];
    assert now[|now| - 1] == s[|s| - 1] && s[|s| - 1].Tells(code);
  }

  lemma {:induction false} ToldAround(first: seq<Report>, start: seq<Report>, now: seq<Report>, last: seq<Report>,
        code: int)
    requires first <= start && now <= last && ToldSince(start, now, code)
    ensures ToldSince(first, last, code)
  {
    var i :| |start| <= i < |now| && now[i].Tells(code);
    assert last[i] == now[i];
  }

  /** If something failed, the database told so since `start`. */
  ghost predicate Blamed(start: seq<Report>, now: seq<Report>, failure: Option<int>) {
    start <= now && (failure.Some? ==> ToldSince(start, now, failure.value))
  }

  lemma {:induction false} BlamedLater(first: seq<Report>, start: seq<Report>, now: seq<Report>, failure: Option<int>)
    requires first <= start && Blamed(start, now, failure)
    ensures Blamed(first, now, failure)
  {
    if failure.Some? {
      ToldAround(first, start, now, now, failure.value);
    }
  }

  lemma {:induction false} CallBlamed(start: seq<Report>, now: seq<Report>, limit: nat, failure: Option<int>)
    requires CallReports(start, now, limit, failure)
    ensures Blamed(start, now, failure)
  {
    if failure.Some? {
      CallTold(start, now, limit, failure.value);
    }
  }

  lemma {:induction false} FailedBlamed(start: seq<Report>, now: seq<Report>, failure: Option<int>)
    requires now == if failure.Some? then start + [Failed(failure.value)] else start
    ensures Blamed(start, now, failure)
  {
    assert failure.Some? ==> now[|start|].Tells(failure.value);
  }

  /** What an attempt with at most one failure was told: nothing without one; else its failure,
      and then that it was reset, or that the error handler gave up. */
  ghost predicate AttemptReports(before: seq<Report>, now: seq<Report>, had: nat, left: nat, ended: bool,
        failure: Option<int>)
  {
    if !ended then AttemptReset(before, now) && had > 0 && left == had - 1
    else if failure.Some? then AttemptGaveUp(before, now, failure.value, had)
    else now == before
  }

  lemma {:induction false} FailedReset(before: seq<Report>, now: seq<Report>, code: int)
    requires now == before + [Failed(code)] + [Reset]
    ensures AttemptReset(before, now)
  {
    assert now[|before|..|now| - 1] == [Failed(code)];
  }

  lemma {:induction false} FailedGaveUp(before: seq<Report>, now: seq<Report>, code: int, retryable: bool, retries: nat)
    requires now == before + [Failed(code)] + [GaveUp(code, retryable)] && (retryable ==> retries == 0)
    ensures AttemptGaveUp(before, now, code, retries)
  {
    assert now[|before|..|now| - 1] == [Failed(code)];
  }

  /** One more attempt of a call: another retry, or the end of it. */
  lemma {:induction false} TrailAttempt(start: seq<Report>, before: seq<Report>, now: seq<Report>, limit: nat, had: nat,
        left: nat, ended: bool, failure: Option<int>)
    requires Trail(start, before, limit, had) && AttemptReports(before, now, had, left, ended, failure)
    ensures !ended ==> left < had && Trail(start, now, limit, left)
    ensures ended ==> CallReports(start, now, limit, failure)
  {
    if !ended {
      TrailNext(start, before, now, limit, had);
    } else if failure.Some? {
      TrailGaveUp(start, before, now, limit, had, failure.value);
    }
  }

  class Database {
    var history: seq<Commit>
    ghost var ledger: seq<Record>
    /** Which commits are this client's own, by their index in the history: all that its
        transactions applied, in order. The others are those of other clients. */
    ghost var own: seq<nat>
    /** Everything that the database has told this client's transactions, in order. */
    ghost var reports: seq<Report>

    ghost predicate Valid()
      reads this
    {
      Matches(history, ledger)
    }

    constructor ()
      ensures Valid() && history == [] && ledger == [] && own == [] && reports == []
    {
      history := [];
      ledger := [];
      own := [];
      reports := [];
    }

    twostate predicate Grown()
      reads this
    {
      old(history) <= history && old(ledger) <= ledger
    }

    /** Nothing was committed but by other clients. */
    twostate predicate OnlyOthers()
      reads this
    {
      Grown() && own == old(own)
    }

    /** Exactly this failure was reported, or nothing. */
    twostate predicate Reports(failure: Option<int>)
      reads this
    {
      reports == if failure.Some? then old(reports) + [Failed(failure.value)] else old(reports)
    }

    /** One more commit at the end of the history: the writes of `rec`, this client's own or not. */
    method Push(commit: Commit, ghost rec: Record, ghost mine: bool)
      requires Valid() && ValidRecord(rec) && commit == CommitOf(rec)
      requires history != [] ==> history[|history| - 1].version < rec.version
      modifies this`history, this`ledger, this`own
      ensures Valid() && history == old(history) + [CommitOf(rec)] && ledger == old(ledger) + [rec]
      ensures own == old(own) + if mine then [|old(history)|] else []
    {
      MatchesExtend(history, ledger, rec);
      own := own + if mine then [|history|] else [];
      history := history + [commit];
      ledger := ledger + [rec];
    }

    /** Any number of commits by other clients. */
    method Interfere()
      requires Valid()
      modifies this`history, this`ledger, this`own
      ensures Valid() && OnlyOthers()
    {
      var steps: nat := *;
      while steps > 0
        invariant Valid() && OnlyOthers()
      {
        var rec: Record := *;
        if ValidRecord(rec) && (history == [] || history[|history| - 1].version < rec.version) {
          Push(CommitOf(rec), rec, false);
        }
        steps := steps - 1;
      }
    }
  }

  class Transaction {
    const db: Database
    /** Length of the history when the transaction, or its last reset, began. */
    var floor: nat
    var readAt: Option<nat>
    ghost var view: Store
    var conflicts: seq<Range>
    var sets: seq<Mutation>
    var idempotent: bool
    var retries: nat

    ghost predicate Valid()
      reads this, db
    {
      && db.Valid()
      && floor <= |db.history|
      && (readAt.Some? ==> floor <= readAt.value <= |db.history|)
      && view == Replay(db.history[..ReadVersion()])
      && (conflicts != [] ==> readAt.Some?)
      && (forall m :: m in sets ==> Resolvable(m))
    }

    /** Length of the history that the transaction sees: nothing before its first read. */
    ghost function ReadVersion(): nat
      reads this
    {
      if readAt.Some? then readAt.value else 0
    }

    ghost function Seen(): seq<Record>
      reads this, db
      requires Valid()
    {
      db.ledger[..ReadVersion()]
    }

    ghost function SeenHistory(): seq<Commit>
      reads this, db
      requires Valid()
    {
      db.history[..ReadVersion()]
    }

    lemma {:induction false} SeenMatches()
      requires Valid()
      ensures Matches(SeenHistory(), Seen()) && view == Replay(SeenHistory())
    {
      MatchesPrefix(db.history, db.ledger, ReadVersion());
    }

    /** Nothing but the read side changed, and a read version once chosen stays. */
    twostate predicate Reading()
      reads this, db
    {
      && db.OnlyOthers()
      && floor == old(floor) && sets == old(sets) && idempotent == old(idempotent) && retries == old(retries)
      && (old(readAt).Some? ==> readAt == old(readAt) && view == old(view))
    }

    /** A transaction retries as often as the environment allows, unless limited. */
    constructor (db: Database)
      requires db.Valid()
      ensures Valid() && this.db == db && fresh(this)
      ensures readAt.None? && conflicts == [] && sets == [] && !idempotent
      ensures floor == |db.history|
    {
      this.db := db;
      floor := |db.history|;
      readAt := None;
      view := map[];
      conflicts := [];
      sets := [];
      idempotent := false;
      retries := *;
    }

    method SetRetryLimit(limit: nat)
      modifies this`retries
      ensures retries == limit
    {
      retries := limit;
    }

    method SetAutomaticIdempotency()
      modifies this`idempotent
      ensures idempotent
    {
      idempotent := true;
    }

    /** Lets other clients commit; the transaction does not notice. */
    method Wait()
      requires Valid()
      modifies db`history, db`ledger, db`own
      ensures Valid() && db.OnlyOthers()
    {
      db.Interfere();
      assert db.history[..ReadVersion()] == old(db.history)[..ReadVersion()];
    }

    /** Chooses the read version: not before the transaction, or its last reset, began. */
    method ChooseVersion()
      requires Valid() && readAt.None?
      modifies this`readAt, this`view
      ensures Valid() && readAt.Some?
    {
      var at: nat := *;
      readAt := Some(if floor <= at <= |db.history| then at else |db.history|);
      view := Replay(db.history[..readAt.value]);
    }

    /** Fixes the read version at the first read. */
    method GetReadVersion()
      requires Valid()
      modifies this, db`history, db`ledger, db`own
      ensures Valid() && Reading() && readAt.Some? && conflicts == old(conflicts)
    {
      Wait();
      if readAt.None? {
        ChooseVersion();
      }
    }

    /** The database reports a failure. */
    method Fail(code: int)
      requires Valid()
      modifies db`reports
      ensures Valid() && db.reports == old(db.reports) + [Failed(code)]
    {
      db.reports := db.reports + [Failed(code)];
    }

    /** A range read, with limit 0 for none; it may fail with a database error. */
    method GetRangesKeyvalues(range: Range, limit: nat, reverse: bool, snapshot: bool)
      returns (r: Result<seq<Bytes>>, values: seq<Bytes>)
      requires Valid() && sets == []
      modifies this, db
      ensures Valid() && Reading()
      ensures r.Ok? ==> readAt.Some? && r.value == GetRange(view, range, limit, reverse)
      ensures r.Ok? ==> (forall k :: k in r.value ==> k in view) && values == ValuesOf(view, r.value)
      ensures snapshot ==> conflicts == old(conflicts)
      ensures r.Ok? && !snapshot && (limit == 0 || |r.value| < limit) ==> conflicts == old(conflicts) + [range]
      ensures old(conflicts) <= conflicts
      ensures r.Err? ==> r.error.Fdb?
      ensures db.Reports(FailureOf(r))
    {
      GetReadVersion();
      var failed: bool := *;
      if failed {
        var code: int := *;
        Fail(code);
        return Err(Error.Fdb(code)), [];
      }
      var kv := Replay(db.history[..readAt.value]);
      var keys := GetRange(kv, range, limit, reverse);
      GetRangeHas(kv, range, limit, reverse);
      if !snapshot {
        conflicts := conflicts + [Covered(range, limit, reverse, keys)];
      }
      return Ok(keys), ValuesOf(kv, keys);
    }

    /** The part of the range that a limited read has looked at. */
    static function Covered(range: Range, limit: nat, reverse: bool, keys: seq<Bytes>): Range {
      if limit == 0 || |keys| < limit then range
      else if reverse then Range(keys[|keys| - 1], range.end)
      else Range(range.begin, keys[|keys| - 1] + [0x00])
    }

    method Get(key: Bytes, snapshot: bool) returns (r: Result<Option<Bytes>>)
      requires Valid() && sets == []
      modifies this, db
      ensures Valid() && Reading() && old(conflicts) <= conflicts
      ensures r.Ok? ==> readAt.Some? && r.value == if key in view then Some(view[key]) else None
      ensures snapshot ==> conflicts == old(conflicts)
      ensures r.Err? ==> r.error.Fdb?
      ensures db.Reports(FailureOf(r))
    {
      GetReadVersion();
      var failed: bool := *;
      if failed {
        var code: int := *;
        Fail(code);
        return Err(Error.Fdb(code));
      }
      var kv := Replay(db.history[..readAt.value]);
      if !snapshot {
        conflicts := conflicts + [Range(key, key + [0x00])];
      }
      return Ok(if key in kv then Some(kv[key]) else None);
    }

    method AtomicOp(m: Mutation)
      requires Valid() && Resolvable(m)
      modifies this`sets
      ensures Valid() && sets == old(sets) + [m]
    {
      sets := sets + [m];
    }

    /** The buffered mutations are those of `intent`, whatever the version will be. */
    ghost predicate Means(intent: Record)
      reads this
      requires forall m :: m in sets ==> Resolvable(m)
    {
      forall v: nat :: Encoding.IsTxVersion(v) ==>
          ValidRecord(WithVersion(intent, v)) && Applied(sets, v) == Writes(WithVersion(intent, v))
    }

    /** The record `rec` was applied at `at`, unless something read had changed by then. */
    ghost predicate AppliedAt(at: nat, rec: Record)
      reads this, db
    {
      && at < |db.history| == |db.ledger|
      && db.ledger[at] == rec
      && db.history[at] == CommitOf(rec)
      && (readAt.Some? ==> readAt.value <= at && !Conflicts(db.history[..at], readAt.value, conflicts))
    }

    /** Adds the buffered writes to the history. */
    method Apply(version: nat, ghost intent: Record)
      requires Valid() && Means(intent) && Encoding.IsTxVersion(version)
      requires db.history != [] ==> db.history[|db.history| - 1].version < version
      modifies db`history, db`ledger, db`own
      ensures Valid() && db.own == old(db.own) + [|old(db.history)|]
      ensures db.history == old(db.history) + [CommitOf(WithVersion(intent, version))]
      ensures db.ledger == old(db.ledger) + [WithVersion(intent, version)]
    {
      db.Push(Kv.Commit(version, Applied(sets, version)), WithVersion(intent, version), true);
      assert db.history[..ReadVersion()] == old(db.history)[..ReadVersion()];
    }

    /** What was applied stays so while others commit. */
    method WaitApplied(ghost at: nat, ghost rec: Record)
      requires Valid() && AppliedAt(at, rec)
      modifies db`history, db`ledger, db`own
      ensures Valid() && db.OnlyOthers() && AppliedAt(at, rec)
    {
      Wait();
      assert db.history[..at] == old(db.history)[..at];
    }

    /** Applies the writes, and other clients go on. */
    method ApplyAndWait(version: nat, ghost intent: Record) returns (ghost at: nat)
      requires Valid() && Means(intent) && Encoding.IsTxVersion(version)
      requires db.history != [] ==> db.history[|db.history| - 1].version < version
      requires readAt.Some? ==> !Conflicts(db.history, readAt.value, conflicts)
      modifies db`history, db`ledger, db`own
      ensures Valid() && db.Grown() && db.own == old(db.own) + [at]
      ensures at == |old(db.history)| && AppliedAt(at, WithVersion(intent, version))
    {
      at := |db.history|;
      ghost var before := db.history;
      Apply(version, intent);
      assert db.history[..at] == before;
      WaitApplied(at, WithVersion(intent, version));
    }

    /** A version above all earlier ones, unless the database fails. */
    method NewVersion() returns (version: Option<nat>)
      requires Valid()
      ensures version.Some? ==>
                && Encoding.IsTxVersion(version.value)
                && (db.history != [] ==> db.history[|db.history| - 1].version < version.value)
    {
      var fails: bool := *;
      var v: nat := *;
      if fails || !Encoding.IsTxVersion(v) || (db.history != [] && v <= db.history[|db.history| - 1].version) {
        return None;
      }
      return Some(v);
    }

    /** The database refuses the commit, or gives it a version above all earlier ones. */
    method Certify() returns (refusal: Option<int>, version: nat)
      requires Valid()
      ensures refusal.None? ==>
                Encoding.IsTxVersion(version) && (db.history != [] ==> db.history[|db.history| - 1].version < version)
      ensures refusal.None? && readAt.Some? ==> !Conflicts(db.history, readAt.value, conflicts)
    {
      var chosen := NewVersion();
      if chosen.None? {
        var code: int := *;
        return Some(code), 0;
      }
      if readAt.Some? && Conflicts(db.history, readAt.value, conflicts) {
        return Some(NOT_COMMITTED), 0;
      }
      return None, chosen.value;
    }

    /** Applies the writes; without idempotency the result may stay unknown. */
    method CommitAt(version: nat, ghost intent: Record) returns (r: Result<nat>, ghost at: nat)
      requires Valid() && Means(intent) && Encoding.IsTxVersion(version)
      requires db.history != [] ==> db.history[|db.history| - 1].version < version
      requires readAt.Some? ==> !Conflicts(db.history, readAt.value, conflicts)
      modifies db
      ensures Valid() && db.Grown() && db.own == old(db.own) + [at]
      ensures at >= |old(db.history)| && AppliedAt(at, WithVersion(intent, version))
      ensures r.Ok? ==> r.value == version
      ensures r.Err? ==> r.error.Fdb? && !idempotent
      ensures db.Reports(FailureOf(r))
    {
      at := ApplyAndWait(version, intent);
      var unknown: bool := *;
      if unknown && !idempotent {
        Fail(COMMIT_UNKNOWN_RESULT);
        return Err(Error.Fdb(COMMIT_UNKNOWN_RESULT)), at;
      }
      return Ok(version), at;
    }

    /**
     Commits the buffered writes. `at` is where they were applied: always on
     success; on failure only if the result is unknown and idempotency is off.
     */
    method Commit(ghost intent: Record) returns (r: Result<nat>, ghost at: Option<nat>, ghost v: nat)
      requires Valid() && sets != [] && Means(intent)
      modifies db
      ensures Valid() && db.Grown() && db.own == old(db.own) + Indices(at)
      ensures at.Some? ==> at.value >= |old(db.history)| && AppliedAt(at.value, WithVersion(intent, v))
      ensures r.Ok? ==> at.Some? && v == r.value
      ensures r.Err? ==> r.error.Fdb? && (idempotent ==> at.None?)
      ensures db.Reports(FailureOf(r))
    {
      Wait();
      var refusal, version := Certify();
      at, v := None, version;
      if refusal.Some? {
        Fail(refusal.value);
        return Err(Error.Fdb(refusal.value)), at, v;
      }
      ghost var index;
      r, index := CommitAt(version, intent);
      at := Some(index);
    }

    /** The future of the commit version, awaited after the commit; it may fail on its own. */
    method AwaitVersionstamp(version: nat) returns (r: Result<Bytes>)
      modifies db`reports
      ensures r.Ok? ==> r.value == Encoding.BigEndian(version, 10) && db.reports == old(db.reports)
      ensures r.Err? ==> r.error.Fdb? && db.reports == old(db.reports) + [StampFailed(r.error.code)]
    {
      var failed: bool := *;
      if failed {
        var code: int := *;
        db.reports := db.reports + [StampFailed(code)];
        return Err(Error.Fdb(code));
      }
      return Ok(Encoding.BigEndian(version, 10));
    }

    /**
     After an error: gives up on an error that cannot be retried or when the retries
     are used up, else resets the transaction, options included, for another attempt.
     */
    method OnError(e: Error) returns (r: Result<()>)
      requires Valid() && e.Fdb?
      modifies this, db
      ensures Valid() && db.OnlyOthers()
      ensures r.Err? ==> r.error == e
      ensures r.Ok? ==> db.reports == old(db.reports) + [Reset]
      ensures r.Err? ==> db.reports == old(db.reports) + [GaveUp(e.code, false)]
                         || (old(retries) == 0 && db.reports == old(db.reports) + [GaveUp(e.code, true)])
      ensures r.Ok? ==> readAt.None? && conflicts == [] && sets == [] && !idempotent
      ensures r.Ok? ==> old(retries) > 0 && retries == old(retries) - 1 && floor >= |old(db.history)|
    {
      Wait();
      var retryable: bool := *;
      if !retryable || retries == 0 {
        db.reports := db.reports + [GaveUp(e.code, retryable)];
        return Err(e);
      }
      db.reports := db.reports + [Reset];
      retries := retries - 1;
      floor := |db.history|;
      readAt, conflicts, sets, idempotent := None, [], [], false;
      view := map[];
      return Ok(());
    }
  }
}

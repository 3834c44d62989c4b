/**
 Any number of clients appending concurrently through optimistic transactions, as a
 state machine over the bytes of the database; and a machine with an atomic
 append-only log, which it refines.
 */
module Protocol {
  import opened Bytes
  import opened Tuples
  import opened Types
  import opened Kv
  import opened Ledger
  import opened Probing
  import Encoding
  import Fdb
  import AppendMethods

  datatype Call = Call(ns: Bytes, events: seq<Event>, conds: seq<AppendCondition>)

  datatype Reply = Committed(position: Versionstamp) | Refused | Failed

  predicate ValidCall(call: Call) {
    AppendMethods.ValidBatch(call.events) && AppendMethods.ValidConditions(call.conds)
  }

  function Probes(call: Call): seq<Probe> { ProbesOf(call.conds) }

  // -------------------------------------------------------------------------
  // The concurrent system
  // -------------------------------------------------------------------------

  /** A client inside a call: the history length when its attempt began, its read
      version, how many probes it has made, their ranges, and whether one hit. */
  datatype Client =
    | Idle
    | Running(call: Call, floor: nat, readAt: Option<nat>, probed: nat, conflicts: seq<Range>, found: bool,
        retries: nat)
    | Finished(call: Call, reply: Reply)

  datatype System = System(history: seq<Commit>, clients: map<nat, Client>)

  function Fresh(call: Call, floor: nat, retries: nat): Client {
    Running(call, floor, None, 0, [], false, retries)
  }

  ghost predicate Changes(s: System, s': System, c: nat, from: Client, to: Client) {
    c in s.clients && s.clients[c] == from && s' == s.(clients := s.clients[c := to])
  }

  ghost predicate Invoke(s: System, s': System, c: nat, call: Call) {
    c in s.clients && !s.clients[c].Running? && ValidCall(call)
    && Changes(s, s', c, s.clients[c], Fresh(call, |s.history|, AppendMethods.APPEND_RETRY_LIMIT))
  }

  ghost predicate PickVersion(s: System, s': System, c: nat, at: nat) {
    c in s.clients && var r := s.clients[c];
    r.Running? && r.readAt.None? && r.floor <= at <= |s.history| && Changes(s, s', c, r, r.(readAt := Some(at)))
  }

  /** One probe at the read version; what it covers becomes a conflict range. */
  ghost predicate ProbeOnce(s: System, s': System, c: nat) {
    c in s.clients && var r := s.clients[c];
    && r.Running? && r.readAt.Some? && r.readAt.value <= |s.history| && r.probed < |Probes(r.call)|
    && var kv, p := Replay(s.history[..r.readAt.value]), Probes(r.call)[r.probed];
       Changes(s, s', c, r, r.(probed := r.probed + 1, found := r.found || Hit(kv, r.call.ns, p),
                               conflicts := r.conflicts + ProbeRanges(kv, r.call.ns, p)))
  }

  /** The position of the last event of the batch, or a failure to learn it. */
  ghost predicate IsReply(call: Call, version: nat, reply: Reply) {
    reply == Failed || (call.events != [] && reply == Committed(Encoding.Position(version, |call.events| - 1)))
  }

  /** All probes made, none hit, no conflict since the read version: the batch is applied. */
  ghost predicate CommitAppend(s: System, s': System, c: nat, version: nat) {
    c in s.clients && var r := s.clients[c];
    && r.Running? && r.probed == |Probes(r.call)| && !r.found
    && (r.readAt.Some? ==> !Conflicts(s.history, r.readAt.value, r.conflicts))
    && Encoding.IsTxVersion(version) && (s.history != [] ==> s.history[|s.history| - 1].version < version)
    && AppendMethods.AllResolvable(AppendMethods.AppendMutations(r.call.ns, r.call.events))
    && s'.history == s.history
        + [Kv.Commit(version, Fdb.Applied(AppendMethods.AppendMutations(r.call.ns, r.call.events), version))]
    && exists reply :: IsReply(r.call, version, reply) && s'.clients == s.clients[c := Finished(r.call, reply)]
  }

  ghost predicate Refuse(s: System, s': System, c: nat) {
    c in s.clients && var r := s.clients[c];
    r.Running? && r.probed == |Probes(r.call)| && r.found && Changes(s, s', c, r, Finished(r.call, Refused))
  }

  /** A conflict or another retryable error: everything read is forgotten. */
  ghost predicate Retry(s: System, s': System, c: nat) {
    c in s.clients && var r := s.clients[c];
    r.Running? && r.retries > 0 && Changes(s, s', c, r, Fresh(r.call, |s.history|, r.retries - 1))
  }

  /** A database error that ends the call. */
  ghost predicate Fail(s: System, s': System, c: nat) {
    c in s.clients && var r := s.clients[c];
    r.Running? && Changes(s, s', c, r, Finished(r.call, Failed))
  }

  /** Someone stores a cursor. */
  ghost predicate StoreCursor(s: System, s': System, rec: Record) {
    && rec.CursorSet? && ValidRecord(rec) && (s.history != [] ==> s.history[|s.history| - 1].version < rec.version)
    && s' == s.(history := s.history + [CommitOf(rec)])
  }

  ghost predicate Init(s: System) {
    s.history == [] && forall c :: c in s.clients ==> s.clients[c].Idle?
  }

  ghost predicate Next(s: System, s': System) {
    || (exists c, call :: Invoke(s, s', c, call))
    || (exists c, at :: PickVersion(s, s', c, at))
    || (exists c, version :: CommitAppend(s, s', c, version))
    || (exists c :: ProbeOnce(s, s', c) || Refuse(s, s', c) || Retry(s, s', c) || Fail(s, s', c))
    || (exists rec :: StoreCursor(s, s', rec))
  }

  // -------------------------------------------------------------------------
  // The atomic log
  // -------------------------------------------------------------------------

  datatype Caller = Waiting | Pending(call: Call) | Answered(call: Call, reply: Reply)

  /** A ledger, and for each client what it asked and what it was told. */
  datatype Atomic = Atomic(ledger: seq<Record>, callers: map<nat, Caller>)

  ghost predicate Tells(a: Atomic, a': Atomic, c: nat, from: Caller, to: Caller) {
    c in a.callers && a.callers[c] == from && a'.callers == a.callers[c := to]
  }

  ghost predicate AtomicInvoke(a: Atomic, a': Atomic, c: nat, call: Call) {
    c in a.callers && !a.callers[c].Pending? && Tells(a, a', c, a.callers[c], Pending(call)) && a'.ledger == a.ledger
  }

  /** In one step: nothing stands against the conditions, and the batch is at the end of the log. */
  ghost predicate AtomicAppend(a: Atomic, a': Atomic, c: nat, call: Call, version: nat, reply: Reply) {
    && Tells(a, a', c, Pending(call), Answered(call, reply))
    && !AnyBlocks(LogOf(a.ledger, call.ns), Probes(call))
    && a'.ledger == a.ledger + [Appended(call.ns, call.events, version)] && Ledgered(a'.ledger)
    && IsReply(call, version, reply)
  }

  /** In one step: something stands against the conditions, and nothing is written. */
  ghost predicate AtomicRefuse(a: Atomic, a': Atomic, c: nat, call: Call) {
    && Tells(a, a', c, Pending(call), Answered(call, Refused))
    && AnyBlocks(LogOf(a.ledger, call.ns), Probes(call)) && a'.ledger == a.ledger
  }

  ghost predicate AtomicFail(a: Atomic, a': Atomic, c: nat, call: Call) {
    Tells(a, a', c, Pending(call), Answered(call, Failed)) && a'.ledger == a.ledger
  }

  ghost predicate AtomicCursor(a: Atomic, a': Atomic, rec: Record) {
    rec.CursorSet? && a'.ledger == a.ledger + [rec] && Ledgered(a'.ledger) && a'.callers == a.callers
  }

  ghost predicate AtomicInit(a: Atomic) {
    a.ledger == [] && forall c :: c in a.callers ==> a.callers[c].Waiting?
  }

  ghost predicate AtomicNext(a: Atomic, a': Atomic) {
    || (exists c, call :: AtomicInvoke(a, a', c, call))
    || (exists c, call, version, reply :: AtomicAppend(a, a', c, call, version, reply))
    || (exists c, call :: AtomicRefuse(a, a', c, call) || AtomicFail(a, a', c, call))
    || (exists rec :: AtomicCursor(a, a', rec))
  }

  // -------------------------------------------------------------------------
  // Refinement
  // -------------------------------------------------------------------------

  function CallerOf(r: Client): Caller {
    match r
    case Idle => Waiting
    case Running(call, _, _, _, _, _, _) => Pending(call)
    case Finished(call, reply) => Answered(call, reply)
  }

  /** What a running client knows is what its probes say about the history at its read version. */
  ghost predicate ClientInv(h: seq<Commit>, r: Client) {
    r.Running? ==>
      && ValidCall(r.call) && r.probed <= |Probes(r.call)|
      && (r.readAt.Some? ==> r.readAt.value <= |h|)
      && (r.readAt.None? ==> r.probed == 0)
      && (r.probed == 0 ==> r.conflicts == [] && !r.found)
      && (r.readAt.Some? ==>
            var kv, ps := Replay(h[..r.readAt.value]), Probes(r.call)[..r.probed];
            r.conflicts == AllProbeRanges(kv, r.call.ns, ps) && (r.found <==> AnyHit(kv, r.call.ns, ps)))
  }

  /** The atomic state that a system state stands for. */
  ghost predicate Stands(s: System, a: Atomic) {
    && Matches(s.history, a.ledger)
    && a.callers.Keys == s.clients.Keys
    && forall c :: c in s.clients ==> a.callers[c] == CallerOf(s.clients[c]) && ClientInv(s.history, s.clients[c])
  }

  /** What a client knows survives later commits. */
  lemma {:induction false} ClientInvStays(h: seq<Commit>, commit: Commit, r: Client)
    requires ClientInv(h, r)
    ensures ClientInv(h + [commit], r)
  {
    if r.Running? && r.readAt.Some? {
      assert (h + [commit])[..r.readAt.value] == h[..r.readAt.value];
    }
  }

  /** One client changes on the system's side and its caller on the other. */
  lemma {:induction false} StandsAfter(s: System, a: Atomic, s': System, a': Atomic, c: nat, to: Client)
    requires Stands(s, a) && c in s.clients
    requires s' == s.(clients := s.clients[c := to]) && a' == a.(callers := a.callers[c := CallerOf(to)])
    requires ClientInv(s.history, to)
    ensures Stands(s', a')
  {
  }

  lemma {:induction false} ProbeKeepsInv(h: seq<Commit>, r: Client)
    requires ClientInv(h, r) && r.Running? && r.readAt.Some? && r.probed < |Probes(r.call)|
    ensures var kv, p := Replay(h[..r.readAt.value]), Probes(r.call)[r.probed];
            ClientInv(h, r.(probed := r.probed + 1, found := r.found || Hit(kv, r.call.ns, p),
                            conflicts := r.conflicts + ProbeRanges(kv, r.call.ns, p)))
  {
    var ps, n := Probes(r.call), r.probed;
    assert ps[..n + 1] == ps[..n] + [ps[n]];
    OneMoreProbe(Replay(h[..r.readAt.value]), r.call.ns, ps[..n], ps[n]);
  }

  lemma {:induction false} OneMoreProbe(kv: Store, ns: Bytes, ps: seq<Probe>, p: Probe)
    ensures AllProbeRanges(kv, ns, ps + [p]) == AllProbeRanges(kv, ns, ps) + ProbeRanges(kv, ns, p)
    ensures AnyHit(kv, ns, ps + [p]) <==> AnyHit(kv, ns, ps) || Hit(kv, ns, p)
  {
    assert (ps + [p])[..|ps|] == ps;
    assert p in ps + [p] && forall x :: x in ps + [p] <==> x in ps || x == p;
  }

  /** A client that may commit: nothing stands against its conditions now. */
  lemma {:induction false} CommitUnblocked(h: seq<Commit>, l: seq<Record>, r: Client)
    requires Matches(h, l) && ClientInv(h, r) && r.Running? && r.probed == |Probes(r.call)| && !r.found
    requires r.readAt.Some? ==> !Conflicts(h, r.readAt.value, r.conflicts)
    ensures !AnyBlocks(LogOf(l, r.call.ns), Probes(r.call))
  {
    AppendMethods.ProbesValid(r.call.conds);
    if Probes(r.call) != [] {
      assert Probes(r.call)[..r.probed] == Probes(r.call);
      OptimisticCheck(h, l, r.readAt.value, r.call.ns, Probes(r.call));
    }
  }

  /** A client whose probe hit: something stands against its conditions, still. */
  lemma {:induction false} RefuseBlocked(h: seq<Commit>, l: seq<Record>, r: Client)
    requires Matches(h, l) && ClientInv(h, r) && r.Running? && r.probed == |Probes(r.call)| && r.found
    ensures AnyBlocks(LogOf(l, r.call.ns), Probes(r.call))
  {
    var n, ps, ns := r.readAt.value, Probes(r.call), r.call.ns;
    assert ps[..r.probed] == ps;
    AppendMethods.ProbesValid(r.call.conds);
    MatchesPrefix(h, l, n);
    var p :| p in ps && Hit(Replay(h[..n]), ns, p);
    HitExact(h[..n], l[..n], ns, p);
    LogPrefix(l, n, ns);
    BlocksGrow(LogOf(l[..n], ns), LogOf(l, ns), p);
  }

  /** A commit is the next record of the ledger; what running clients know stays. */
  lemma {:induction false} StandsAfterCommit(s: System, a: Atomic, s': System, a': Atomic, rec: Record)
    requires Stands(s, a) && ValidRecord(rec)
    requires s.history != [] ==> s.history[|s.history| - 1].version < rec.version
    requires s'.history == s.history + [CommitOf(rec)] && a'.ledger == a.ledger + [rec]
    requires a'.callers.Keys == s'.clients.Keys == s.clients.Keys
    requires forall c :: c in s'.clients ==> a'.callers[c] == CallerOf(s'.clients[c])
    requires forall c :: c in s'.clients && s'.clients[c].Running? ==> s'.clients[c] == s.clients[c]
    ensures Stands(s', a')
  {
    MatchesExtend(s.history, a.ledger, rec);
    forall c | c in s'.clients ensures ClientInv(s'.history, s'.clients[c]) {
      if s'.clients[c].Running? {
        ClientInvStays(s.history, CommitOf(rec), s.clients[c]);
      }
    }
  }

  /** What a commit adds is the record of the batch. */
  lemma {:induction false} CommitsRecord(s: System, s': System, c: nat, version: nat) returns (reply: Reply)
    requires CommitAppend(s, s', c, version) && ValidCall(s.clients[c].call)
    ensures var call := s.clients[c].call;
            && IsReply(call, version, reply) && s'.clients == s.clients[c := Finished(call, reply)]
            && ValidRecord(Appended(call.ns, call.events, version))
            && s'.history == s.history + [CommitOf(Appended(call.ns, call.events, version))]
  {
    var call := s.clients[c].call;
    reply :| IsReply(call, version, reply) && s'.clients == s.clients[c := Finished(call, reply)];
    AppendMethods.AppliedAppend(call.ns, call.events, version);
  }

  lemma {:induction false} CommitStands(s: System, a: Atomic, s': System, a': Atomic, c: nat, reply: Reply, rec: Record)
    requires Stands(s, a) && c in s.clients && s.clients[c].Running? && ValidRecord(rec)
    requires s.history != [] ==> s.history[|s.history| - 1].version < rec.version
    requires s'.history == s.history + [CommitOf(rec)] && a'.ledger == a.ledger + [rec]
    requires s'.clients == s.clients[c := Finished(s.clients[c].call, reply)]
    requires a'.callers == a.callers[c := Answered(s.clients[c].call, reply)]
    ensures Stands(s', a')
  {
    StandsAfterCommit(s, a, s', a', rec);
  }

  lemma {:induction false} CommitStep(s: System, a: Atomic, s': System, c: nat, version: nat) returns (a': Atomic)
    requires Stands(s, a) && CommitAppend(s, s', c, version)
    ensures Stands(s', a') && AtomicNext(a, a')
  {
    var call := s.clients[c].call;
    var rec := Appended(call.ns, call.events, version);
    var reply := CommitsRecord(s, s', c, version);
    a' := Atomic(a.ledger + [rec], a.callers[c := Answered(call, reply)]);
    CommitStands(s, a, s', a', c, reply, rec);
    CommitUnblocked(s.history, a.ledger, s.clients[c]);
    AppendIsNext(a, a', c, call, version, reply);
  }

  lemma {:induction false} AppendIsNext(a: Atomic, a': Atomic, c: nat, call: Call, version: nat, reply: Reply)
    requires AtomicAppend(a, a', c, call, version, reply)
    ensures AtomicNext(a, a')
  {
  }

  lemma {:induction false} CursorStep(s: System, a: Atomic, s': System, rec: Record) returns (a': Atomic)
    requires Stands(s, a) && StoreCursor(s, s', rec)
    ensures Stands(s', a') && AtomicNext(a, a')
  {
    a' := a.(ledger := a.ledger + [rec]);
    StandsAfterCommit(s, a, s', a', rec);
    assert AtomicCursor(a, a', rec);
  }

  lemma {:induction false} RefuseStep(s: System, a: Atomic, s': System, c: nat) returns (a': Atomic)
    requires Stands(s, a) && Refuse(s, s', c)
    ensures Stands(s', a') && AtomicNext(a, a')
  {
    var r := s.clients[c];
    RefuseBlocked(s.history, a.ledger, r);
    a' := a.(callers := a.callers[c := Answered(r.call, Refused)]);
    StandsAfter(s, a, s', a', c, Finished(r.call, Refused));
    assert AtomicRefuse(a, a', c, r.call);
  }

  /** A step that only the client notices. */
  lemma {:induction false} SilentStep(s: System, a: Atomic, s': System, c: nat, to: Client) returns (a': Atomic)
    requires Stands(s, a) && c in s.clients && s.clients[c].Running? && to.Running? && to.call == s.clients[c].call
    requires s' == s.(clients := s.clients[c := to]) && ClientInv(s.history, to)
    ensures a' == a && Stands(s', a')
  {
    a' := a;
    assert a == a.(callers := a.callers[c := CallerOf(to)]);
    StandsAfter(s, a, s', a, c, to);
  }

  lemma {:induction false} InvokeStep(s: System, a: Atomic, s': System, c: nat, call: Call) returns (a': Atomic)
    requires Stands(s, a) && Invoke(s, s', c, call)
    ensures Stands(s', a') && AtomicNext(a, a')
  {
    a' := a.(callers := a.callers[c := Pending(call)]);
    StandsAfter(s, a, s', a', c, Fresh(call, |s.history|, AppendMethods.APPEND_RETRY_LIMIT));
    assert AtomicInvoke(a, a', c, call);
  }

  lemma {:induction false} FailStep(s: System, a: Atomic, s': System, c: nat) returns (a': Atomic)
    requires Stands(s, a) && Fail(s, s', c)
    ensures Stands(s', a') && AtomicNext(a, a')
  {
    var call := s.clients[c].call;
    a' := a.(callers := a.callers[c := Answered(call, Failed)]);
    StandsAfter(s, a, s', a', c, Finished(call, Failed));
    assert AtomicFail(a, a', c, call);
  }

  lemma {:induction false} ProbeStep(s: System, a: Atomic, s': System, c: nat) returns (a': Atomic)
    requires Stands(s, a) && ProbeOnce(s, s', c)
    ensures Stands(s', a') && a' == a
  {
    ProbeKeepsInv(s.history, s.clients[c]);
    a' := SilentStep(s, a, s', c, s'.clients[c]);
  }

  lemma {:induction false} PickStep(s: System, a: Atomic, s': System, c: nat, at: nat) returns (a': Atomic)
    requires Stands(s, a) && PickVersion(s, s', c, at)
    ensures Stands(s', a') && a' == a
  {
    var r := s.clients[c];
    assert Probes(r.call)[..0] == [];
    a' := SilentStep(s, a, s', c, r.(readAt := Some(at)));
  }

  lemma {:induction false} FreshInv(h: seq<Commit>, call: Call, floor: nat, retries: nat)
    requires ValidCall(call)
    ensures ClientInv(h, Fresh(call, floor, retries))
  {
  }

  /** A client that starts over is running the same call, and knows nothing. */
  lemma {:induction false} RetryTo(s: System, s': System, c: nat)
    requires Retry(s, s', c) && ClientInv(s.history, s.clients[c])
    ensures c in s'.clients && s'.clients[c].Running? && s'.clients[c].call == s.clients[c].call
    ensures s' == s.(clients := s.clients[c := s'.clients[c]]) && ClientInv(s.history, s'.clients[c])
  {
    var r := s.clients[c];
    FreshInv(s.history, r.call, |s.history|, r.retries - 1);
  }

  lemma {:induction false} RetryStep(s: System, a: Atomic, s': System, c: nat) returns (a': Atomic)
    requires Stands(s, a) && Retry(s, s', c)
    ensures Stands(s', a') && a' == a
  {
    RetryTo(s, s', c);
    a' := SilentStep(s, a, s', c, s'.clients[c]);
  }

  /** Every step of the system is a step of the atomic log, or none. */
  lemma {:induction false} StepRefines(s: System, a: Atomic, s': System) returns (a': Atomic)
    requires Stands(s, a) && Next(s, s')
    ensures Stands(s', a') && (a' == a || AtomicNext(a, a'))
  {
    if c, call :| Invoke(s, s', c, call) {
      a' := InvokeStep(s, a, s', c, call);
    } else if c, at :| PickVersion(s, s', c, at) {
      a' := PickStep(s, a, s', c, at);
    } else if c, version :| CommitAppend(s, s', c, version) {
      a' := CommitStep(s, a, s', c, version);
    } else if rec :| StoreCursor(s, s', rec) {
      a' := CursorStep(s, a, s', rec);
    } else if c :| ProbeOnce(s, s', c) {
      a' := ProbeStep(s, a, s', c);
    } else if c :| Refuse(s, s', c) {
      a' := RefuseStep(s, a, s', c);
    } else if c :| Retry(s, s', c) {
      a' := RetryStep(s, a, s', c);
    } else {
      var c :| Fail(s, s', c);
      a' := FailStep(s, a, s', c);
    }
  }

  ghost predicate Run(run: seq<System>) {
    run != [] && Init(run[0]) && forall i :: 0 <= i < |run| - 1 ==> Next(run[i], run[i + 1])
  }

  ghost predicate AtomicRun(run: seq<Atomic>) {
    && run != [] && AtomicInit(run[0])
    && forall i :: 0 <= i < |run| - 1 ==> run[i] == run[i + 1] || AtomicNext(run[i], run[i + 1])
  }

  /**
   Every run of any number of concurrent clients is a run of the atomic log: state by
   state, the database holds the bytes of the ledger, and every client has been told
   what the atomic log would have told it.
   */
  lemma {:induction false} RunRefines(run: seq<System>) returns (atomic: seq<Atomic>)
    requires Run(run)
    ensures AtomicRun(atomic) && |atomic| == |run|
    ensures forall i :: 0 <= i < |run| ==> Stands(run[i], atomic[i])
    decreases |run|
  {
    var n := |run| - 1;
    if n == 0 {
      var first := InitRefines(run[0]);
      atomic := [first];
    } else {
      assert Run(run[..n]) && Next(run[n - 1], run[n]);
      var before := RunRefines(run[..n]);
      var last := StepRefines(run[n - 1], before[n - 1], run[n]);
      AtomicRunNext(before, last);
      atomic := before + [last];
    }
  }

  lemma {:induction false} InitRefines(s: System) returns (a: Atomic)
    requires Init(s)
    ensures AtomicInit(a) && Stands(s, a)
  {
    a := Atomic([], map c | c in s.clients :: Waiting);
  }

  lemma {:induction false} AtomicRunNext(run: seq<Atomic>, a: Atomic)
    requires AtomicRun(run) && (a == run[|run| - 1] || AtomicNext(run[|run| - 1], a))
    ensures AtomicRun(run + [a])
  {
  }

  /** The only conflicts a cleared client meets are events that stand against its own
      conditions, and events that its tags-only probes guard without their bounds. */
  lemma {:induction false} CommitEnabled(h: seq<Commit>, l: seq<Record>, r: Client)
    requires Matches(h, l) && ClientInv(h, r) && r.Running? && r.probed == |Probes(r.call)| && !r.found
              && r.readAt.Some?
    ensures Conflicts(h, r.readAt.value, r.conflicts) <==>
              || AnyBlocks(LogOf(l, r.call.ns), Probes(r.call))
              || Overcautious(l, r.readAt.value, r.call.ns, Probes(r.call))
  {
    AppendMethods.ProbesValid(r.call.conds);
    assert Probes(r.call)[..r.probed] == Probes(r.call);
    ConflictIffBlocked(h, l, r.readAt.value, r.call.ns, Probes(r.call));
  }
}

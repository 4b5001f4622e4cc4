// The locks an operation takes, in order: the backup file lock
// (packages/engine/src/backup.ts), a place in the store's write queue
// (packages/engine/src/state.ts) and the apply file lock
// (packages/engine/src/apply.ts). Any number of operations run interleaved.
module LockOrder {
  datatype Lock = BackupLock | WriteQueue | ApplyLock

  // `update` first joins the promise chain, then waits for its turn.
  datatype Instr = Acquire(lock: Lock) | Release(lock: Lock) | Enqueue | Enter | Leave | Work

  datatype Kind =
    | PlainUpdate                     // createPeer, revokePeer, sweepExpired, ...
    | BackupCreate | BackupImport | BackupDelete
    | BackupThrown                    // any of these, or a restore, that throws before its update or reconcile
    | BackupRestore(toHost: bool)     // toHost: the reconcile inside reaches executeApply
    | ReconcileRequest(toHost: bool)
    | StatusRequest(toHost: bool)     // a sweep, then a reconcile outside the queue

  const UPDATE := [Enqueue, Enter, Work, Leave]

  function Reconciling(toHost: bool): seq<Instr> {
    if toHost then [Acquire(ApplyLock), Work, Release(ApplyLock)] else [Work]
  }

  function Program(kind: Kind): seq<Instr> {
    match kind
    case PlainUpdate => UPDATE
    case BackupCreate => [Acquire(BackupLock), Work] + UPDATE + [Release(BackupLock)]
    case BackupImport => [Acquire(BackupLock), Work] + UPDATE + [Release(BackupLock)]
    case BackupDelete => [Acquire(BackupLock), Work] + UPDATE + [Release(BackupLock)]
    case BackupThrown => [Acquire(BackupLock), Work, Release(BackupLock)]
    case BackupRestore(toHost) => [Acquire(BackupLock), Work] + Reconciling(toHost) + [Release(BackupLock)]
    case ReconcileRequest(toHost) => [Enqueue, Enter] + Reconciling(toHost) + [Leave]
    case StatusRequest(toHost) => UPDATE + Reconciling(toHost)
  }

  function Level(lock: Lock): nat {
    match lock
    case BackupLock => 0
    case WriteQueue => 1
    case ApplyLock => 2
  }

  // ── One operation ────────────────────────────────────────────────────────

  // What is left of the program, the locks held or queued for, and whether the
  // operation is past its wait for the queue.
  datatype Op = Op(rest: seq<Instr>, claims: set<Lock>, entered: bool)

  function Begin(kind: Kind): Op { Op(Program(kind), {}, false) }

  function After(op: Op): Op
    requires op.rest != []
  {
    var rest := op.rest[1..];
    match op.rest[0]
    case Acquire(lock) => Op(rest, op.claims + {lock}, op.entered)
    case Release(lock) => Op(rest, op.claims - {lock}, op.entered)
    case Enqueue => Op(rest, op.claims + {WriteQueue}, op.entered)
    case Enter => Op(rest, op.claims, true)
    case Leave => Op(rest, op.claims - {WriteQueue}, false)
    case Work => Op(rest, op.claims, op.entered)
  }

  predicate Below(claims: set<Lock>, level: nat) {
    forall c | c in claims :: Level(c) < level
  }

  // Every lock is claimed above everything claimed before it, a turn in the
  // queue is awaited with nothing above the queue in hand, and the program
  // ends holding nothing.
  ghost predicate Disciplined(op: Op)
    decreases |op.rest|
  {
    if op.rest == [] then op.claims == {} && !op.entered
    else
      && (match op.rest[0]
          case Acquire(lock) => lock != WriteQueue && Below(op.claims, Level(lock))
          case Release(lock) => lock in op.claims && lock != WriteQueue
          case Enqueue => Below(op.claims, Level(WriteQueue))
          case Enter => WriteQueue in op.claims && !op.entered && Below(op.claims, Level(ApplyLock))
          case Leave => WriteQueue in op.claims && op.entered
          case Work => true)
      && Disciplined(After(op))
  }

  // Any operation that follows the discipline may arrive, holding nothing;
  // the operations of the engine are such.
  ghost predicate Arriving(op: Op) { Disciplined(op) && op.claims == {} && !op.entered }

  lemma UpdateDisciplined(claims: set<Lock>, rest: seq<Instr>)
    requires Below(claims, Level(WriteQueue)) && Disciplined(Op(rest, claims, false))
    ensures Disciplined(Op(UPDATE + rest, claims, false))
  {
    var op := Op(UPDATE + rest, claims, false);
    var op1 := After(op);
    var op2 := After(op1);
    var op3 := After(op2);
    assert WriteQueue !in claims;
    assert After(op3) == Op(rest, claims, false);
    assert Disciplined(op3) && Disciplined(op2) && Disciplined(op1);
  }

  lemma ReconcileDisciplined(toHost: bool, claims: set<Lock>, entered: bool, rest: seq<Instr>)
    requires Below(claims, Level(ApplyLock)) && Disciplined(Op(rest, claims, entered))
    ensures Disciplined(Op(Reconciling(toHost) + rest, claims, entered))
  {
    var op := Op(Reconciling(toHost) + rest, claims, entered);
    if toHost {
      var op3 := After(After(After(op)));
      assert op3.rest == rest && op3.claims == claims;
    } else {
      assert After(op).rest == rest;
    }
  }

  // Every operation of the engine takes its locks in the one order and ends
  // with none.
  lemma ProgramsDisciplined(kind: Kind)
    ensures Arriving(Begin(kind))
  {
    var tail := [Release(BackupLock)];
    Endings();
    hide Disciplined, After;
    match kind
    case PlainUpdate =>
      UpdateDisciplined({}, []);
      assert UPDATE + [] == UPDATE;
    case BackupThrown =>
      BackupPrefix(tail);
      assert Program(kind) == [Acquire(BackupLock), Work] + tail;
    case BackupRestore(toHost) =>
      ReconcileDisciplined(toHost, {BackupLock}, false, tail);
      BackupPrefix(Reconciling(toHost) + tail);
      assert Program(kind) == [Acquire(BackupLock), Work] + (Reconciling(toHost) + tail);
    case ReconcileRequest(toHost) => ReconcileRequestDisciplined(toHost);
    case StatusRequest(toHost) =>
      ReconcileDisciplined(toHost, {}, false, []);
      assert Reconciling(toHost) + [] == Reconciling(toHost);
      UpdateDisciplined({}, Reconciling(toHost));
    case _ =>
      UpdateDisciplined({BackupLock}, tail);
      BackupPrefix(UPDATE + tail);
      assert Program(kind) == [Acquire(BackupLock), Work] + (UPDATE + tail);
  }

  // What an operation holds or queues for each time it does its work.
  function ClaimsAtWork(op: Op): seq<set<Lock>>
    decreases |op.rest|
  {
    if op.rest == [] then []
    else (if op.rest[0] == Work then [op.claims] else []) + ClaimsAtWork(After(op))
  }

  lemma WorkOfUpdate(claims: set<Lock>, rest: seq<Instr>)
    requires WriteQueue !in claims
    ensures ClaimsAtWork(Op(UPDATE + rest, claims, false)) ==
            [claims + {WriteQueue}] + ClaimsAtWork(Op(rest, claims, false))
  {
    var op := Op(UPDATE + rest, claims, false);
    var op1 := After(op);
    var op2 := After(op1);
    var op3 := After(op2);
    assert After(op3) == Op(rest, claims, false);
    assert ClaimsAtWork(op2) == [claims + {WriteQueue}] + ClaimsAtWork(op3);
  }

  lemma WorkOfReconcile(toHost: bool, claims: set<Lock>, entered: bool, rest: seq<Instr>)
    requires ApplyLock !in claims
    ensures ClaimsAtWork(Op(Reconciling(toHost) + rest, claims, entered)) ==
            [if toHost then claims + {ApplyLock} else claims] + ClaimsAtWork(Op(rest, claims, entered))
  {
    var op := Op(Reconciling(toHost) + rest, claims, entered);
    if toHost {
      var op1 := After(op);
      var op2 := After(op1);
      assert After(op2) == Op(rest, claims, entered);
      assert ClaimsAtWork(op1) == [claims + {ApplyLock}] + ClaimsAtWork(op2);
    } else {
      assert After(op) == Op(rest, claims, entered);
    }
  }

  lemma WorkOfBackup(rest: seq<Instr>)
    ensures ClaimsAtWork(Op([Acquire(BackupLock), Work] + rest, {}, false)) ==
            [{BackupLock}] + ClaimsAtWork(Op(rest, {BackupLock}, false))
  {
    var op := Op([Acquire(BackupLock), Work] + rest, {}, false);
    var op1 := After(op);
    assert After(op1) == Op(rest, {BackupLock}, false);
  }

  lemma WorkOfEntry(rest: seq<Instr>)
    ensures ClaimsAtWork(Op([Enqueue, Enter] + rest, {}, false)) == ClaimsAtWork(Op(rest, {WriteQueue}, true))
  {
    var op := Op([Enqueue, Enter] + rest, {}, false);
    var op1 := After(op);
    assert After(op1) == Op(rest, {WriteQueue}, true);
    assert ClaimsAtWork(op) == ClaimsAtWork(op1);
  }

  lemma WorkOfEnding(lock: Lock)
    ensures ClaimsAtWork(Op([Release(lock)], {lock}, false)) == [] && ClaimsAtWork(Op([], {}, false)) == []
    ensures ClaimsAtWork(Op([Leave], {WriteQueue}, true)) == []
  {
    assert ClaimsAtWork(After(Op([Leave], {WriteQueue}, true))) == [];
    assert ClaimsAtWork(After(Op([Release(lock)], {lock}, false))) == [];
  }

  // The state file is changed under the write queue, the host under the apply
  // lock, snapshots under the backup lock; a restore changes the state file
  // under the backup lock alone, and a status request applies outside the
  // queue.
  lemma LocksAtWork(toHost: bool)
    ensures ClaimsAtWork(Begin(PlainUpdate)) == [{WriteQueue}]
    ensures forall kind | kind in [BackupCreate, BackupImport, BackupDelete] ::
              ClaimsAtWork(Begin(kind)) == [{BackupLock}, {BackupLock, WriteQueue}]
    ensures ClaimsAtWork(Begin(BackupThrown)) == [{BackupLock}]
    ensures ClaimsAtWork(Begin(BackupRestore(toHost))) ==
            [{BackupLock}, if toHost then {BackupLock, ApplyLock} else {BackupLock}]
    ensures ClaimsAtWork(Begin(ReconcileRequest(toHost))) == [if toHost then {WriteQueue, ApplyLock} else {WriteQueue}]
    ensures ClaimsAtWork(Begin(StatusRequest(toHost))) == [{WriteQueue}, if toHost then {ApplyLock} else {}]
  {
    hide ClaimsAtWork, Reconciling;
    var tail := [Release(BackupLock)];
    WorkOfEnding(BackupLock);
    WorkOfUpdate({}, []);
    assert UPDATE + [] == UPDATE && {} + {WriteQueue} == {WriteQueue};
    WorkOfUpdate({BackupLock}, tail);
    assert {BackupLock} + {WriteQueue} == {BackupLock, WriteQueue};
    WorkOfBackup(UPDATE + tail);
    assert [Acquire(BackupLock), Work] + UPDATE + tail == [Acquire(BackupLock), Work] + (UPDATE + tail);
    WorkOfBackup(tail);
    assert Program(BackupThrown) == [Acquire(BackupLock), Work] + tail;
    WorkOfRestore(toHost);
    WorkOfRequests(toHost);
  }

  lemma WorkOfRestore(toHost: bool)
    ensures ClaimsAtWork(Begin(BackupRestore(toHost))) ==
            [{BackupLock}, if toHost then {BackupLock, ApplyLock} else {BackupLock}]
  {
    hide ClaimsAtWork, Reconciling;
    var tail := [Release(BackupLock)];
    WorkOfEnding(BackupLock);
    WorkOfReconcile(toHost, {BackupLock}, false, tail);
    assert {BackupLock} + {ApplyLock} == {BackupLock, ApplyLock};
    WorkOfBackup(Reconciling(toHost) + tail);
    assert Program(BackupRestore(toHost)) == [Acquire(BackupLock), Work] + (Reconciling(toHost) + tail);
  }

  lemma WorkOfRequests(toHost: bool)
    ensures ClaimsAtWork(Begin(ReconcileRequest(toHost))) == [if toHost then {WriteQueue, ApplyLock} else {WriteQueue}]
    ensures ClaimsAtWork(Begin(StatusRequest(toHost))) == [{WriteQueue}, if toHost then {ApplyLock} else {}]
  {
    hide ClaimsAtWork, Reconciling;
    WorkOfEnding(BackupLock);
    WorkOfReconcile(toHost, {}, false, []);
    WorkOfReconcile(toHost, {WriteQueue}, true, [Leave]);
    WorkOfUpdate({}, Reconciling(toHost));
    assert Reconciling(toHost) + [] == Reconciling(toHost);
    assert {} + {WriteQueue} == {WriteQueue} && {} + {ApplyLock} == {ApplyLock};
    assert {WriteQueue} + {ApplyLock} == {WriteQueue, ApplyLock};
    WorkOfEntry(Reconciling(toHost) + [Leave]);
    assert Program(ReconcileRequest(toHost)) == [Enqueue, Enter] + (Reconciling(toHost) + [Leave]);
  }

  lemma Endings()
    ensures Disciplined(Op([], {}, false)) && Disciplined(Op([Release(BackupLock)], {BackupLock}, false))
  {
    assert After(Op([Release(BackupLock)], {BackupLock}, false)) == Op([], {}, false);
  }

  lemma ReconcileRequestDisciplined(toHost: bool)
    ensures Disciplined(Begin(ReconcileRequest(toHost)))
  {
    assert After(Op([Leave], {WriteQueue}, true)) == Op([], {}, false);
    ReconcileDisciplined(toHost, {WriteQueue}, true, [Leave]);
    var op := Begin(ReconcileRequest(toHost));
    var op1 := After(op);
    assert After(op1) == Op(Reconciling(toHost) + [Leave], {WriteQueue}, true);
    assert Disciplined(op1);
  }

  lemma BackupPrefix(rest: seq<Instr>)
    requires Disciplined(Op(rest, {BackupLock}, false))
    ensures Disciplined(Op([Acquire(BackupLock), Work] + rest, {}, false))
  {
    var op := Op([Acquire(BackupLock), Work] + rest, {}, false);
    assert After(After(op)) == Op(rest, {BackupLock}, false);
  }

  // ── Many operations ──────────────────────────────────────────────────────

  datatype System = System(ops: seq<Op>, queue: seq<nat>)

  ghost predicate Enabled(sys: System, i: nat) {
    && i < |sys.ops| && sys.ops[i].rest != []
    && match sys.ops[i].rest[0]
       case Acquire(lock) => forall j | 0 <= j < |sys.ops| :: lock !in sys.ops[j].claims
       case Enter => sys.queue != [] && sys.queue[0] == i
       case _ => true
  }

  function Step(sys: System, i: nat): System
    requires Enabled(sys, i)
  {
    var ops := sys.ops[i := After(sys.ops[i])];
    match sys.ops[i].rest[0]
    case Enqueue => System(ops, sys.queue + [i])
    case Leave => System(ops, if sys.queue == [] then [] else sys.queue[1..])
    case _ => System(ops, sys.queue)
  }

  function Arrive(sys: System, op: Op): System { sys.(ops := sys.ops + [op]) }

  ghost predicate Exclusive(ops: seq<Op>) {
    forall i, j, lock | 0 <= i < j < |ops| && lock in ops[i].claims && lock in ops[j].claims :: lock == WriteQueue
  }

  ghost predicate QueueOk(sys: System) {
    && (forall k, l | 0 <= k < l < |sys.queue| :: sys.queue[k] != sys.queue[l])
    && (forall i | 0 <= i < |sys.ops| :: WriteQueue in sys.ops[i].claims <==> i in sys.queue)
    && (forall k | 0 <= k < |sys.queue| :: sys.queue[k] < |sys.ops|)
    && (forall i | 0 <= i < |sys.ops| && sys.ops[i].entered :: sys.queue != [] && sys.queue[0] == i)
  }

  ghost predicate Inv(sys: System) {
    && (forall i | 0 <= i < |sys.ops| :: Disciplined(sys.ops[i]))
    && Exclusive(sys.ops)
    && QueueOk(sys)
  }

  lemma ArriveKeepsInv(sys: System, op: Op)
    requires Inv(sys) && Arriving(op)
    ensures Inv(Arrive(sys, op))
  {
    hide Disciplined;
  }

  // Whoever steps, each file lock keeps at most one holder and only the head
  // of the queue is past its wait.
  lemma StepKeepsInv(sys: System, i: nat)
    requires Inv(sys) && Enabled(sys, i)
    ensures Inv(Step(sys, i))
  {
    assert Disciplined(sys.ops[i]) && Disciplined(After(sys.ops[i]));
    hide Disciplined;
    StepKeepsExclusive(sys, i);
    StepKeepsQueue(sys, i);
  }

  lemma StepKeepsExclusive(sys: System, i: nat)
    requires Enabled(sys, i) && Exclusive(sys.ops)
    ensures Exclusive(Step(sys, i).ops)
  {
  }

  lemma StepKeepsQueue(sys: System, i: nat)
    requires Inv(sys) && Enabled(sys, i)
    ensures QueueOk(Step(sys, i))
  {
    assert Disciplined(sys.ops[i]);
    var t := Step(sys, i);
    match sys.ops[i].rest[0]
    case Enqueue =>
      assert WriteQueue !in sys.ops[i].claims;
    case Leave =>
      assert forall k | 0 <= k < |t.queue| :: t.queue[k] == sys.queue[k + 1];
      forall j | 0 <= j < |t.ops| ensures WriteQueue in t.ops[j].claims <==> j in t.queue {
        if j in sys.queue && j != i {
          var k :| 0 <= k < |sys.queue| && sys.queue[k] == j;
          assert t.queue[k - 1] == j;
        }
      }
    case _ =>
  }

  // ── No deadlock ──────────────────────────────────────────────────────────

  ghost predicate Blocked(sys: System, i: nat) {
    i < |sys.ops| && sys.ops[i].rest != [] && !Enabled(sys, i)
  }

  function WantedLevel(op: Op): nat {
    if op.rest != [] && op.rest[0].Acquire? then Level(op.rest[0].lock) else Level(WriteQueue)
  }

  // i waits for j: j holds the lock i wants, or is at the head of the queue.
  ghost predicate WaitsFor(sys: System, i: nat, j: nat) {
    && Blocked(sys, i) && j < |sys.ops| && j != i
    && match sys.ops[i].rest[0]
       case Acquire(lock) => lock in sys.ops[j].claims
       case Enter => sys.queue != [] && sys.queue[0] == j
       case _ => false
  }

  lemma BlockedWaits(sys: System, i: nat) returns (j: nat)
    requires Inv(sys) && Blocked(sys, i)
    ensures WaitsFor(sys, i, j) && sys.ops[j].rest != []
  {
    assert Disciplined(sys.ops[i]);
    match sys.ops[i].rest[0]
    case Acquire(lock) =>
      j :| 0 <= j < |sys.ops| && lock in sys.ops[j].claims;
      assert lock !in sys.ops[i].claims;
      assert Disciplined(sys.ops[j]);
    case Enter =>
      assert i in sys.queue;
      j := sys.queue[0];
      assert j in sys.queue;
      assert Disciplined(sys.ops[j]);
  }

  // Along a wait the wanted level rises.
  lemma WaitsRise(sys: System, i: nat, j: nat)
    requires Inv(sys) && WaitsFor(sys, i, j) && Blocked(sys, j)
    ensures WantedLevel(sys.ops[i]) < WantedLevel(sys.ops[j])
  {
    assert Disciplined(sys.ops[i]) && Disciplined(sys.ops[j]);
    if sys.ops[i].rest[0] == Enter { assert j in sys.queue; }
  }

  ghost predicate WaitPath(sys: System, path: seq<nat>) {
    forall k | 0 <= k < |path| - 1 :: WaitsFor(sys, path[k], path[k + 1])
  }

  // The wait-for graph has no cycle.
  lemma {:induction false} NoWaitCycle(sys: System, path: seq<nat>)
    requires Inv(sys) && |path| >= 2 && WaitPath(sys, path) && Blocked(sys, path[|path| - 1])
    ensures path[0] < |sys.ops| && path[|path| - 1] < |sys.ops|
    ensures WantedLevel(sys.ops[path[0]]) < WantedLevel(sys.ops[path[|path| - 1]])
    ensures path[0] != path[|path| - 1]
  {
    hide Inv, WantedLevel;
    assert WaitsFor(sys, path[0], path[1]);
    if |path| == 2 {
      WaitsRise(sys, path[0], path[1]);
    } else {
      assert WaitsFor(sys, path[1], path[2]);
      WaitsRise(sys, path[0], path[1]);
      var rest := path[1..];
      forall k | 0 <= k < |rest| - 1 ensures WaitsFor(sys, rest[k], rest[k + 1]) {
        assert WaitsFor(sys, path[k + 1], path[k + 2]);
      }
      NoWaitCycle(sys, rest);
    }
  }

  // While any operation is unfinished, some operation can step.
  lemma {:induction false} Progress(sys: System, i: nat) returns (j: nat)
    requires Inv(sys) && i < |sys.ops| && sys.ops[i].rest != []
    ensures Enabled(sys, j)
    decreases Level(ApplyLock) + 1 - WantedLevel(sys.ops[i]), if Enabled(sys, i) then 0 else 1
  {
    if Enabled(sys, i) {
      j := i;
    } else {
      var next := BlockedWaits(sys, i);
      if Enabled(sys, next) {
        j := next;
      } else {
        WaitsRise(sys, i, next);
        j := Progress(sys, next);
      }
    }
  }

  // ── Whole runs ───────────────────────────────────────────────────────────

  datatype Event = Start(op: Op) | Take(i: nat)

  ghost predicate IsRun(trace: seq<System>, events: seq<Event>) {
    && |trace| == |events| + 1 && trace[0] == System([], [])
    && forall k | 0 <= k < |events| ::
         && (events[k].Start? ==> Arriving(events[k].op) && trace[k + 1] == Arrive(trace[k], events[k].op))
         && (events[k].Take? ==> Enabled(trace[k], events[k].i) && trace[k + 1] == Step(trace[k], events[k].i))
  }

  lemma {:induction false} RunKeepsInv(trace: seq<System>, events: seq<Event>, k: nat)
    requires IsRun(trace, events) && k < |trace|
    ensures Inv(trace[k])
  {
    hide Inv, Step, Arrive, Arriving;
    if k == 0 {
      EmptyInv();
    } else {
      RunKeepsInv(trace, events, k - 1);
      if events[k - 1].Take? {
        TakenStep(trace, events, k - 1);
        StepKeepsInv(trace[k - 1], events[k - 1].i);
      } else {
        StartedStep(trace, events, k - 1);
        ArriveKeepsInv(trace[k - 1], events[k - 1].op);
      }
    }
  }

  lemma TakenStep(trace: seq<System>, events: seq<Event>, k: nat)
    requires IsRun(trace, events) && k < |events| && events[k].Take?
    ensures Enabled(trace[k], events[k].i) && trace[k + 1] == Step(trace[k], events[k].i)
  {
  }

  lemma StartedStep(trace: seq<System>, events: seq<Event>, k: nat)
    requires IsRun(trace, events) && k < |events| && events[k].Start?
    ensures Arriving(events[k].op) && trace[k + 1] == Arrive(trace[k], events[k].op)
  {
  }

  lemma EmptyInv()
    ensures Inv(System([], []))
  {
  }

  // In every reachable state of any number of operations, an unfinished one
  // means that one can step: no interleaving deadlocks.
  lemma NeverDeadlocks(trace: seq<System>, events: seq<Event>, k: nat, i: nat)
    requires IsRun(trace, events) && k < |trace| && i < |trace[k].ops| && trace[k].ops[i].rest != []
    ensures exists j :: Enabled(trace[k], j)
  {
    RunKeepsInv(trace, events, k);
    var j := Progress(trace[k], i);
  }
}

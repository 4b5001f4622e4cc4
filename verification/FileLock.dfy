// `withFileLock` step by step (packages/engine/src/state.ts): any number of
// callers on one path, a global clock, and every await a point where others
// may run. The lock file is created with "wx", its age is judged from a `stat`
// that may have been answered earlier, and it is removed by path.
module FileLock {
  import opened Wrappers

  const LOCK_STALE_AFTER_MS: nat := 300_000

  datatype Phase =
    | Opening                                  // about to open(lockPath, "wx")
    | Stamping(since: nat)                     // created the file, writing the pid
    | InBody(since: nat)                       // running fn
    | Unlinking(since: nat)                    // fn settled, finally block
    | Statting                                 // open failed with EEXIST
    | Judging(mtime: Option<nat>, at: nat)     // stat answered at that time
    | Reclaiming                               // found the lock stale, about to unlink
    | Sleeping
    | Done | TimedOut | Crashed

  datatype Caller = Caller(phase: Phase, deadline: nat, bodies: nat)

  datatype LockFile = LockFile(owner: nat, mtime: nat)

  datatype System = System(now: nat, file: Option<LockFile>, callers: seq<Caller>)

  datatype Action =
    | Arrive(timeoutMs: nat)
    | TryOpen(i: nat)
    | Stamp(i: nat, written: bool)
    | FinishBody(i: nat)
    | Unlink(i: nat, fault: bool)
    | Stat(i: nat)
    | Judge(i: nat)
    | Reclaim(i: nat)
    | Wake(i: nat)
    | Tick(elapsed: nat)
    | Crash(i: nat)

  // How long a holder keeps the file, from creating to removing it, and how
  // long a `stat` answer waits before the code compares it with the clock.
  datatype Timing = Timing(hold: nat, delay: nat)

  predicate Holds(phase: Phase) { phase.Stamping? || phase.InBody? || phase.Unlinking? }

  ghost predicate InTime(timing: Timing, sys: System, now: nat) {
    forall i | 0 <= i < |sys.callers| ::
      && (Holds(sys.callers[i].phase) ==> now <= sys.callers[i].phase.since + timing.hold)
      && (sys.callers[i].phase.Judging? ==> now <= sys.callers[i].phase.at + timing.delay)
  }

  ghost predicate Enabled(timing: Timing, sys: System, a: Action) {
    match a
    case Arrive(_) => true
    case TryOpen(i) => i < |sys.callers| && sys.callers[i].phase.Opening?
    case Stamp(i, _) => i < |sys.callers| && sys.callers[i].phase.Stamping?
    case FinishBody(i) => i < |sys.callers| && sys.callers[i].phase.InBody?
    case Unlink(i, _) => i < |sys.callers| && sys.callers[i].phase.Unlinking?
    case Stat(i) => i < |sys.callers| && sys.callers[i].phase.Statting?
    case Judge(i) => i < |sys.callers| && sys.callers[i].phase.Judging?
    case Reclaim(i) => i < |sys.callers| && sys.callers[i].phase.Reclaiming?
    case Wake(i) => i < |sys.callers| && sys.callers[i].phase.Sleeping?
    case Tick(elapsed) => InTime(timing, sys, sys.now + elapsed)
    case Crash(i) => i < |sys.callers| && Holds(sys.callers[i].phase)
  }

  function At(sys: System, i: nat, phase: Phase): System
    requires i < |sys.callers|
  {
    sys.(callers := sys.callers[i := sys.callers[i].(phase := phase)])
  }

  function Verdict(now: nat, deadline: nat, mtime: Option<nat>): Phase {
    if mtime.Some? && now - mtime.value > LOCK_STALE_AFTER_MS then Reclaiming
    else if now >= deadline then TimedOut
    else Sleeping
  }

  function Next(timing: Timing, sys: System, a: Action): System
    requires Enabled(timing, sys, a)
  {
    match a
    case Arrive(timeoutMs) => sys.(callers := sys.callers + [Caller(Opening, sys.now + timeoutMs, 0)])
    case TryOpen(i) =>
      if sys.file.None? then At(sys, i, Stamping(sys.now)).(file := Some(LockFile(i, sys.now)))
      else At(sys, i, Statting)
    case Stamp(i, written) =>
      var c := sys.callers[i];
      var file := if written && sys.file.Some? && sys.file.value.owner == i
                  then Some(LockFile(i, sys.now)) else sys.file;
      sys.(file := file, callers := sys.callers[i := c.(phase := InBody(c.phase.since), bodies := c.bodies + 1)])
    case FinishBody(i) => At(sys, i, Unlinking(sys.callers[i].phase.since))
    case Unlink(i, fault) => At(sys, i, Done).(file := if fault then sys.file else None)
    case Stat(i) => At(sys, i, Judging(if sys.file.Some? then Some(sys.file.value.mtime) else None, sys.now))
    case Judge(i) => At(sys, i, Verdict(sys.now, sys.callers[i].deadline, sys.callers[i].phase.mtime))
    case Reclaim(i) => At(sys, i, Opening).(file := None)
    case Wake(i) => At(sys, i, Opening)
    case Tick(elapsed) => sys.(now := sys.now + elapsed)
    case Crash(i) => At(sys, i, Crashed)
  }

  const START := System(0, None, [])

  ghost predicate IsRun(timing: Timing, trace: seq<System>, actions: seq<Action>) {
    && |trace| == |actions| + 1
    && trace[0] == START
    && forall k | 0 <= k < |actions| ::
         Enabled(timing, trace[k], actions[k]) && trace[k + 1] == Next(timing, trace[k], actions[k])
  }

  // Neither a crashed holder nor a failed unlink leaves the file behind.
  predicate CleanExit(a: Action) { !a.Crash? && !(a.Unlink? && a.fault) }

  ghost predicate Clean(actions: seq<Action>) {
    forall k | 0 <= k < |actions| :: CleanExit(actions[k])
  }

  ghost predicate AtMostOneBody(sys: System) {
    forall i, j | 0 <= i < |sys.callers| && 0 <= j < |sys.callers| &&
      sys.callers[i].phase.InBody? && sys.callers[j].phase.InBody? :: i == j
  }

  // ── Who ran its body ─────────────────────────────────────────────────────

  function BodiesOf(phase: Phase): Option<nat> {
    match phase
    case InBody(_) => Some(1)
    case Unlinking(_) => Some(1)
    case Done => Some(1)
    case Crashed => None
    case _ => Some(0)
  }

  ghost predicate BodiesOk(sys: System) {
    forall i | 0 <= i < |sys.callers| ::
      BodiesOf(sys.callers[i].phase).Some? ==> sys.callers[i].bodies == BodiesOf(sys.callers[i].phase).value
  }

  // A caller that timed out never ran its body, one that returned ran it
  // exactly once, with no assumption on timing or crashes.
  lemma {:induction false} BodiesRunOnce(timing: Timing, trace: seq<System>, actions: seq<Action>, k: nat)
    requires IsRun(timing, trace, actions) && k < |trace|
    ensures BodiesOk(trace[k])
  {
    if k > 0 {
      BodiesRunOnce(timing, trace, actions, k - 1);
      BodiesStep(timing, trace[k - 1], actions[k - 1]);
    }
  }

  lemma BodiesStep(timing: Timing, sys: System, a: Action)
    requires Enabled(timing, sys, a) && BodiesOk(sys)
    ensures BodiesOk(Next(timing, sys, a))
  {
    hide InTime;
  }

  // ── The deadline ─────────────────────────────────────────────────────────

  // A caller waits until `timeoutMs` after its arrival, no step moves that.
  lemma DeadlineIsFixed(timing: Timing, sys: System, a: Action)
    requires Enabled(timing, sys, a)
    ensures var t := Next(timing, sys, a);
            && |sys.callers| <= |t.callers| && sys.now <= t.now
            && (forall i | 0 <= i < |sys.callers| :: t.callers[i].deadline == sys.callers[i].deadline)
            && (a.Arrive? ==>
                 |t.callers| == |sys.callers| + 1 && t.callers[|sys.callers|].deadline == sys.now + a.timeoutMs)
            && (!a.Arrive? ==> |t.callers| == |sys.callers|)
  {
    hide InTime;
  }

  // What follows from a `stat` answer: a lock older than the stale age is
  // reclaimed; else the caller sleeps before its deadline and gives up at it.
  lemma JudgementExactly(timing: Timing, sys: System, i: nat)
    requires Enabled(timing, sys, Judge(i))
    ensures var c, next := sys.callers[i], Next(timing, sys, Judge(i)).callers[i].phase;
            var stale := c.phase.mtime.Some? && sys.now > c.phase.mtime.value + 300_000;
            && (next == Reclaiming <==> stale)
            && (next == TimedOut <==> !stale && sys.now >= c.deadline)
            && (next == Sleeping <==> !stale && sys.now < c.deadline)
  {
  }

  ghost predicate GaveUpInTime(sys: System) {
    forall i | 0 <= i < |sys.callers| && sys.callers[i].phase.TimedOut? :: sys.now >= sys.callers[i].deadline
  }

  lemma GivingUpStep(timing: Timing, sys: System, a: Action)
    requires Enabled(timing, sys, a) && GaveUpInTime(sys)
    ensures GaveUpInTime(Next(timing, sys, a))
  {
    hide InTime;
  }

  // In every run a caller that timed out has reached its deadline.
  lemma {:induction false} DeadlineIsReached(timing: Timing, trace: seq<System>, actions: seq<Action>, k: nat)
    requires IsRun(timing, trace, actions) && k < |trace|
    ensures GaveUpInTime(trace[k])
  {
    if k > 0 {
      DeadlineIsReached(timing, trace, actions, k - 1);
      GivingUpStep(timing, trace[k - 1], actions[k - 1]);
    }
  }

  // And nobody starts another wait at or past the deadline: a judgement then
  // ends in giving up, or in reclaiming a stale lock.
  lemma DeadlineIsKept(timing: Timing, trace: seq<System>, actions: seq<Action>, l: nat, i: nat)
    requires IsRun(timing, trace, actions) && l < |actions| && actions[l] == Judge(i)
    ensures i < |trace[l].callers| && i < |trace[l + 1].callers|
    ensures trace[l + 1].callers[i].phase in [TimedOut, Reclaiming, Sleeping]
    ensures trace[l + 1].callers[i].phase == Sleeping ==> trace[l].now < trace[l].callers[i].deadline
    ensures trace[l + 1].callers[i].phase == TimedOut ==> trace[l].now >= trace[l].callers[i].deadline
  {
    hide InTime;
    assert Enabled(timing, trace[l], actions[l]) && trace[l + 1] == Next(timing, trace[l], actions[l]);
    JudgementExactly(timing, trace[l], i);
  }

  // ── Mutual exclusion under the timing assumption ─────────────────────────

  ghost predicate HolderOk(timing: Timing, sys: System, i: nat)
    requires i < |sys.callers|
  {
    var phase := sys.callers[i].phase;
    Holds(phase) ==>
      && sys.file.Some? && sys.file.value.owner == i
      && phase.since <= sys.file.value.mtime <= sys.now <= phase.since + timing.hold
  }

  ghost predicate JudgeOk(timing: Timing, sys: System, i: nat)
    requires i < |sys.callers|
  {
    var phase := sys.callers[i].phase;
    && !phase.Reclaiming?
    && (phase.Judging? ==>
          && sys.now <= phase.at + timing.delay
          && (phase.mtime.Some? ==> phase.at <= phase.mtime.value + timing.hold))
  }

  ghost predicate LockInv(timing: Timing, sys: System) {
    && (sys.file.Some? ==> sys.file.value.owner < |sys.callers| && Holds(sys.callers[sys.file.value.owner].phase))
    && forall i {:trigger sys.callers[i]} | 0 <= i < |sys.callers| ::
         HolderOk(timing, sys, i) && JudgeOk(timing, sys, i)
  }

  lemma InvAt(timing: Timing, sys: System, i: nat)
    requires LockInv(timing, sys) && i < |sys.callers|
    ensures HolderOk(timing, sys, i) && JudgeOk(timing, sys, i)
  {
  }

  predicate HasCaller(a: Action) { !a.Arrive? && !a.Tick? }

  lemma CallerStep(timing: Timing, sys: System, a: Action, i: nat)
    requires timing.hold + timing.delay <= LOCK_STALE_AFTER_MS
    requires LockInv(timing, sys) && Enabled(timing, sys, a) && CleanExit(a)
    requires i < |Next(timing, sys, a).callers|
    ensures HolderOk(timing, Next(timing, sys, a), i) && JudgeOk(timing, Next(timing, sys, a), i)
  {
    if i < |sys.callers| { InvAt(timing, sys, i); }
    if sys.file.Some? { InvAt(timing, sys, sys.file.value.owner); }
    if HasCaller(a) { InvAt(timing, sys, a.i); }
    hide LockInv;
    match a
    case TryOpen(_) =>
    case Stat(_) =>
    case Judge(_) =>
    case _ =>
  }

  lemma LockStep(timing: Timing, sys: System, a: Action)
    requires timing.hold + timing.delay <= LOCK_STALE_AFTER_MS
    requires LockInv(timing, sys) && Enabled(timing, sys, a) && CleanExit(a)
    ensures LockInv(timing, Next(timing, sys, a))
  {
    hide HolderOk, JudgeOk, InTime;
    var t := Next(timing, sys, a);
    forall i | 0 <= i < |t.callers| ensures HolderOk(timing, t, i) && JudgeOk(timing, t, i) {
      CallerStep(timing, sys, a, i);
    }
    OwnerStep(timing, sys, a);
  }

  lemma OwnerStep(timing: Timing, sys: System, a: Action)
    requires LockInv(timing, sys) && Enabled(timing, sys, a) && CleanExit(a)
    ensures var t := Next(timing, sys, a);
            t.file.Some? ==> t.file.value.owner < |t.callers| && Holds(t.callers[t.file.value.owner].phase)
  {
    if HasCaller(a) { InvAt(timing, sys, a.i); }
    hide LockInv;
    match a
    case TryOpen(_) =>
    case Unlink(_, _) =>
    case _ =>
  }

  // While holders are quick and clean, the body runs under an existing lock
  // file that is its own, alone, and the stale branch is never taken.
  lemma {:induction false} LockIsExclusive(timing: Timing, trace: seq<System>, actions: seq<Action>, k: nat)
    requires timing.hold + timing.delay <= LOCK_STALE_AFTER_MS
    requires IsRun(timing, trace, actions) && Clean(actions) && k < |trace|
    ensures LockInv(timing, trace[k])
    ensures AtMostOneBody(trace[k])
    ensures forall i | 0 <= i < |trace[k].callers| ::
              && !trace[k].callers[i].phase.Reclaiming?
              && (trace[k].callers[i].phase.InBody? ==> trace[k].file.Some? && trace[k].file.value.owner == i)
  {
    if k > 0 {
      LockIsExclusive(timing, trace, actions, k - 1);
      LockStep(timing, trace[k - 1], actions[k - 1]);
    }
  }

  // ── When the assumption fails ────────────────────────────────────────────

  ghost predicate Broken(timing: Timing, trace: seq<System>, actions: seq<Action>) {
    IsRun(timing, trace, actions) && !AtMostOneBody(trace[|actions|])
  }

  function Far(phase: Phase, bodies: nat): Caller { Caller(phase, LOCK_STALE_AFTER_MS * 2, bodies) }

  lemma Extend(timing: Timing, trace: seq<System>, actions: seq<Action>, a: Action, t: System)
    returns (trace': seq<System>, actions': seq<Action>)
    requires IsRun(timing, trace, actions)
    requires Enabled(timing, trace[|actions|], a) && t == Next(timing, trace[|actions|], a)
    ensures IsRun(timing, trace', actions') && trace' == trace + [t] && actions' == actions + [a]
  {
    trace', actions' := trace + [t], actions + [a];
  }

  // A caller about to reclaim while another runs its body: the two run together.
  lemma ReclaimOverlaps(timing: Timing, trace: seq<System>, actions: seq<Action>, i: nat, j: nat)
    returns (trace': seq<System>, actions': seq<Action>)
    requires IsRun(timing, trace, actions)
    requires i < |trace[|actions|].callers| && j < |trace[|actions|].callers|
    requires trace[|actions|].callers[i].phase.InBody? && trace[|actions|].callers[j].phase.Reclaiming?
    ensures Broken(timing, trace', actions') && actions' == actions + [Reclaim(j), TryOpen(j), Stamp(j, false)]
  {
    hide InTime;
    var s := trace[|actions|];
    var s1 := Next(timing, s, Reclaim(j));
    var s2 := Next(timing, s1, TryOpen(j));
    var s3 := Next(timing, s2, Stamp(j, false));
    trace', actions' := Extend(timing, trace, actions, Reclaim(j), s1);
    trace', actions' := Extend(timing, trace', actions', TryOpen(j), s2);
    trace', actions' := Extend(timing, trace', actions', Stamp(j, false), s3);
    assert s3.callers[i].phase.InBody? && s3.callers[j].phase.InBody?;
  }

  // Caller 0 holds from time 0 and caller 1 has met its file.
  lemma Contended(timing: Timing) returns (trace: seq<System>, actions: seq<Action>)
    ensures IsRun(timing, trace, actions) && Clean(actions)
    ensures trace[|actions|] == System(0, Some(LockFile(0, 0)), [Far(InBody(0), 1), Far(Statting, 0)])
  {
    hide InTime;
    var far := LOCK_STALE_AFTER_MS * 2;
    trace, actions := [START], [];
    trace, actions := Extend(timing, trace, actions, Arrive(far), System(0, None, [Far(Opening, 0)]));
    trace, actions := Extend(timing, trace, actions, Arrive(far), System(0, None, [Far(Opening, 0), Far(Opening, 0)]));
    trace, actions := Extend(timing, trace, actions, TryOpen(0),
      System(0, Some(LockFile(0, 0)), [Far(Stamping(0), 0), Far(Opening, 0)]));
    trace, actions := Extend(timing, trace, actions, Stamp(0, false),
      System(0, Some(LockFile(0, 0)), [Far(InBody(0), 1), Far(Opening, 0)]));
    trace, actions := Extend(timing, trace, actions, TryOpen(1),
      System(0, Some(LockFile(0, 0)), [Far(InBody(0), 1), Far(Statting, 0)]));
  }

  // A holder that outlives the stale age loses its file to a waiter.
  lemma SlowHolder(timing: Timing) returns (trace: seq<System>, actions: seq<Action>)
    requires timing.hold > LOCK_STALE_AFTER_MS
    ensures Broken(timing, trace, actions) && Clean(actions)
  {
    var late := LOCK_STALE_AFTER_MS + 1;
    var file := Some(LockFile(0, 0));
    trace, actions := Contended(timing);
    trace, actions := Extend(timing, trace, actions, Tick(late),
      System(late, file, [Far(InBody(0), 1), Far(Statting, 0)]));
    trace, actions := Extend(timing, trace, actions, Stat(1),
      System(late, file, [Far(InBody(0), 1), Far(Judging(Some(0), late), 0)]));
    trace, actions := Extend(timing, trace, actions, Judge(1),
      System(late, file, [Far(InBody(0), 1), Far(Reclaiming, 0)]));
    trace, actions := ReclaimOverlaps(timing, trace, actions, 0, 1);
  }

  // A waiter whose stat answer is old by the time it is judged removes the
  // file of the next holder, even though no holder was slow.
  lemma SlowJudge(timing: Timing) returns (trace: seq<System>, actions: seq<Action>)
    requires timing.hold <= LOCK_STALE_AFTER_MS < timing.hold + timing.delay
    ensures Broken(timing, trace, actions) && Clean(actions)
  {
    var h, late := timing.hold, LOCK_STALE_AFTER_MS + 1;
    var waiting := Far(Judging(Some(0), h), 0);
    trace, actions := Answered(timing);
    trace, actions := Extend(timing, trace, actions, Tick(late - h), System(late, None, [Far(Done, 1), waiting]));
    trace, actions := NextHolder(timing, trace, actions, waiting);
    trace, actions := Extend(timing, trace, actions, Judge(1),
      System(late, Some(LockFile(2, late)), [Far(Done, 1), Far(Reclaiming, 0), Caller(InBody(late), late, 1)]));
    trace, actions := ReclaimOverlaps(timing, trace, actions, 2, 1);
  }

  // Caller 0 held as long as it may and is done; caller 1 has an answer about
  // its file.
  lemma Answered(timing: Timing) returns (trace: seq<System>, actions: seq<Action>)
    ensures IsRun(timing, trace, actions) && Clean(actions)
    ensures trace[|actions|] == System(timing.hold, None, [Far(Done, 1), Far(Judging(Some(0), timing.hold), 0)])
  {
    var h := timing.hold;
    var file := Some(LockFile(0, 0));
    var waiting := Far(Judging(Some(0), h), 0);
    trace, actions := Contended(timing);
    trace, actions := Extend(timing, trace, actions, Tick(h), System(h, file, [Far(InBody(0), 1), Far(Statting, 0)]));
    hide InTime;
    trace, actions := Extend(timing, trace, actions, Stat(1), System(h, file, [Far(InBody(0), 1), waiting]));
    trace, actions := Extend(timing, trace, actions, FinishBody(0), System(h, file, [Far(Unlinking(0), 1), waiting]));
    trace, actions := Extend(timing, trace, actions, Unlink(0, false), System(h, None, [Far(Done, 1), waiting]));
  }

  lemma NextHolder(timing: Timing, trace: seq<System>, actions: seq<Action>, waiting: Caller)
    returns (trace': seq<System>, actions': seq<Action>)
    requires IsRun(timing, trace, actions) && Clean(actions)
    requires trace[|actions|].file == None && trace[|actions|].callers == [Far(Done, 1), waiting]
    ensures var now := trace[|actions|].now;
            && IsRun(timing, trace', actions') && Clean(actions')
            && trace'[|actions'|] ==
               System(now, Some(LockFile(2, now)), [Far(Done, 1), waiting, Caller(InBody(now), now, 1)])
  {
    hide InTime;
    var now := trace[|actions|].now;
    trace', actions' := Extend(timing, trace, actions, Arrive(0),
      System(now, None, [Far(Done, 1), waiting, Caller(Opening, now, 0)]));
    trace', actions' := Extend(timing, trace', actions', TryOpen(2),
      System(now, Some(LockFile(2, now)), [Far(Done, 1), waiting, Caller(Stamping(now), now, 0)]));
    trace', actions' := Extend(timing, trace', actions', Stamp(2, false),
      System(now, Some(LockFile(2, now)), [Far(Done, 1), waiting, Caller(InBody(now), now, 1)]));
  }

  // Exactly when holders keep the file and stat answers wait for no more than
  // the stale age together, every clean run keeps the bodies apart.
  lemma ExclusionExactly(timing: Timing)
    ensures (forall trace, actions | IsRun(timing, trace, actions) && Clean(actions) ::
               AtMostOneBody(trace[|actions|]))
            <==> timing.hold + timing.delay <= LOCK_STALE_AFTER_MS
  {
    if timing.hold + timing.delay <= LOCK_STALE_AFTER_MS {
      forall trace, actions | IsRun(timing, trace, actions) && Clean(actions)
        ensures AtMostOneBody(trace[|actions|])
      {
        LockIsExclusive(timing, trace, actions, |actions|);
      }
    } else if timing.hold > LOCK_STALE_AFTER_MS {
      var trace, actions := SlowHolder(timing);
      assert IsRun(timing, trace, actions) && Clean(actions) && !AtMostOneBody(trace[|actions|]);
    } else {
      var trace, actions := SlowJudge(timing);
      assert IsRun(timing, trace, actions) && Clean(actions) && !AtMostOneBody(trace[|actions|]);
    }
  }

  // A crashed holder costs more than a wait: two waiters that both judge its
  // file stale can end up running together, however quick everyone is.
  lemma CrashBreaksExclusion(timing: Timing) returns (trace: seq<System>, actions: seq<Action>)
    ensures Broken(timing, trace, actions)
    ensures forall k | 0 <= k < |actions| && !CleanExit(actions[k]) :: actions[k] == Crash(0)
  {
    var file := Some(LockFile(0, 0));
    trace, actions := Contended(timing);
    trace, actions := Extend(timing, trace, actions, Crash(0), System(0, file, [Far(Crashed, 1), Far(Statting, 0)]));
    trace, actions := LeftBehind(timing, trace, actions, Far(Crashed, 1), Crash(0));
  }

  // So does an unlink that fails when the body is done, an error the code
  // swallows.
  lemma FailedUnlinkBreaksExclusion(timing: Timing) returns (trace: seq<System>, actions: seq<Action>)
    ensures Broken(timing, trace, actions)
    ensures forall k | 0 <= k < |actions| && !CleanExit(actions[k]) :: actions[k] == Unlink(0, true)
  {
    var file := Some(LockFile(0, 0));
    trace, actions := Contended(timing);
    trace, actions :=
        Extend(timing, trace, actions, FinishBody(0), System(0, file, [Far(Unlinking(0), 1), Far(Statting, 0)]));
    trace, actions :=
        Extend(timing, trace, actions, Unlink(0, true), System(0, file, [Far(Done, 1), Far(Statting, 0)]));
    trace, actions := LeftBehind(timing, trace, actions, Far(Done, 1), Unlink(0, true));
  }

  // A file that nobody will remove, and two waiters that find it too old.
  lemma LeftBehind(timing: Timing, trace: seq<System>, actions: seq<Action>, gone: Caller, cause: Action)
    returns (trace': seq<System>, actions': seq<Action>)
    requires IsRun(timing, trace, actions) && !Holds(gone.phase) && !gone.phase.Judging?
    requires trace[|actions|] == System(0, Some(LockFile(0, 0)), [gone, Far(Statting, 0)])
    requires forall k | 0 <= k < |actions| && !CleanExit(actions[k]) :: actions[k] == cause
    ensures Broken(timing, trace', actions')
    ensures forall k | 0 <= k < |actions'| && !CleanExit(actions'[k]) :: actions'[k] == cause
  {
    var late := LOCK_STALE_AFTER_MS + 1;
    var file := Some(LockFile(0, 0));
    var judging, second := Far(Judging(Some(0), late), 0), Caller(Opening, late, 0);
    trace', actions' := Extend(timing, trace, actions, Tick(late), System(late, file, [gone, Far(Statting, 0)]));
    trace', actions' := Extend(timing, trace', actions', Stat(1), System(late, file, [gone, judging]));
    trace', actions' := Extend(timing, trace', actions', Arrive(0), System(late, file, [gone, judging, second]));
    trace', actions' := Extend(timing, trace', actions', TryOpen(2),
      System(late, file, [gone, judging, Caller(Statting, late, 0)]));
    trace', actions' := Extend(timing, trace', actions', Stat(2),
      System(late, file, [gone, judging, Caller(Judging(Some(0), late), late, 0)]));
    trace', actions' := BothReclaim(timing, trace', actions', gone, cause);
  }

  lemma BothReclaim(timing: Timing, trace: seq<System>, actions: seq<Action>, gone: Caller, cause: Action)
    returns (trace': seq<System>, actions': seq<Action>)
    requires IsRun(timing, trace, actions)
    requires forall k | 0 <= k < |actions| && !CleanExit(actions[k]) :: actions[k] == cause
    requires var late := LOCK_STALE_AFTER_MS + 1;
             trace[|actions|] == System(late, Some(LockFile(0, 0)),
               [gone, Far(Judging(Some(0), late), 0), Caller(Judging(Some(0), late), late, 0)])
    ensures Broken(timing, trace', actions')
    ensures forall k | 0 <= k < |actions'| && !CleanExit(actions'[k]) :: actions'[k] == cause
  {
    hide InTime;
    var late := LOCK_STALE_AFTER_MS + 1;
    var file := Some(LockFile(0, 0));
    var both := [gone, Far(Reclaiming, 0), Caller(Reclaiming, late, 0)];
    trace', actions' := Extend(timing, trace, actions, Judge(1),
      System(late, file, [gone, Far(Reclaiming, 0), Caller(Judging(Some(0), late), late, 0)]));
    trace', actions' := Extend(timing, trace', actions', Judge(2), System(late, file, both));
    trace', actions' := Extend(timing, trace', actions', Reclaim(1), System(late, None, both[1 := Far(Opening, 0)]));
    var mine := Some(LockFile(1, late));
    trace', actions' :=
        Extend(timing, trace', actions', TryOpen(1), System(late, mine, both[1 := Far(Stamping(late), 0)]));
    trace', actions' :=
        Extend(timing, trace', actions', Stamp(1, false), System(late, mine, both[1 := Far(InBody(late), 1)]));
    trace', actions' := ReclaimOverlaps(timing, trace', actions', 1, 2);
  }
}

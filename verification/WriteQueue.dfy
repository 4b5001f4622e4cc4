// `StateStore.update` step by step (packages/engine/src/state.ts): any number
// of callers, each waiting for the promise chain, loading, mutating, saving
// through a temporary file and releasing, interleaved with each other and with
// loads made outside the queue. A fault is possible at every I/O step.
module WriteQueue {
  import opened Wrappers

  // state.json: creation writes in place, so a reader can meet a partial file;
  // every later save replaces the file by rename.
  datatype Content<S> = Absent | Partial | Whole(value: S)

  datatype Phase<S> =
    | Queued                 // awaiting the previous promise
    | Loading
    | Missing                // read ENOENT, generating the initial state
    | Creating(initial: S)   // opened state.json with "wx", payload not complete
    | Mutating(input: S)
    | Writing(output: S)     // writing the temporary file
    | Renaming(output: S)
    | Settled(ok: bool)      // in the finally block
    | Released(ok: bool)

  type Mutator<!S> = S -> Option<S>

  datatype System<!S> = System(
    disk: Content<S>,
    outsideCreates: bool,          // a load outside the queue holds the new file open
    mutators: seq<Mutator<S>>,     // in call order
    phases: seq<Phase<S>>,
    temps: seq<bool>,              // whose temporary file exists
    origin: Option<S>,             // history: the initial state that was written
    committed: seq<nat>)           // history: callers whose rename went through, in order

  datatype Action<!S> =
    | Call(mutate: Mutator<S>)
    | Proceed(i: nat)
    | Load(i: nat, fault: bool)
    | Open(i: nat, fault: bool, initial: S)
    | FinishCreate(i: nat, fault: bool)
    | Mutate(i: nat)
    | WriteTemp(i: nat, fault: bool)
    | Rename(i: nat, fault: bool)
    | Release(i: nat)
    | OutsideCleanup
    | OutsideOpen
    | OutsideFinish(fault: bool, value: S)

  function Start<S>(): System<S> { System(Absent, false, [], [], [], None, []) }

  // The promise `writeQueue` that caller i awaited: the chain through i - 1
  // resolved and i - 1 has released.
  ghost predicate Resolved<S>(phases: seq<Phase<S>>, i: nat)
    requires i <= |phases|
  {
    i == 0 || (Resolved(phases, i - 1) && phases[i - 1].Released?)
  }

  ghost predicate Enabled<S>(sys: System<S>, a: Action<S>) {
    match a
    case Call(_) => true
    case Proceed(i) => i < |sys.phases| && sys.phases[i].Queued? && Resolved(sys.phases, i)
    case Load(i, _) => i < |sys.phases| && sys.phases[i].Loading?
    case Open(i, _, _) => i < |sys.phases| && sys.phases[i].Missing?
    case FinishCreate(i, _) => i < |sys.phases| && sys.phases[i].Creating?
    case Mutate(i) => i < |sys.phases| && sys.phases[i].Mutating?
    case WriteTemp(i, _) => i < |sys.phases| && sys.phases[i].Writing?
    case Rename(i, _) => i < |sys.phases| && sys.phases[i].Renaming?
    case Release(i) => i < |sys.phases| && sys.phases[i].Settled?
    case OutsideCleanup => true
    case OutsideOpen => sys.disk.Absent?
    case OutsideFinish(_, _) => sys.outsideCreates
  }

  ghost predicate WellFormed<S>(sys: System<S>) {
    |sys.mutators| == |sys.phases| == |sys.temps|
  }

  function At<S>(sys: System<S>, i: nat, phase: Phase<S>): System<S>
    requires i < |sys.phases|
  {
    sys.(phases := sys.phases[i := phase])
  }

  // `cleanupStrayTempFiles` at the start of every load removes all of them.
  function NoTemps(n: nat): (r: seq<bool>)
    ensures |r| == n && forall i | 0 <= i < n :: !r[i]
  {
    seq(n, _ => false)
  }

  function AfterRead<S>(disk: Content<S>): Phase<S> {
    match disk
    case Whole(v) => Mutating(v)
    case Partial => Settled(false)   // JSON.parse throws
    case Absent => Missing
  }

  function Next<S>(sys: System<S>, a: Action<S>): System<S>
    requires WellFormed(sys) && Enabled(sys, a)
  {
    match a
    case Call(mutate) =>
      sys.(mutators := sys.mutators + [mutate], phases := sys.phases + [Queued], temps := sys.temps + [false])
    case Proceed(i) => At(sys, i, Loading)
    case Load(i, fault) =>
      At(sys, i, if fault then Settled(false) else AfterRead(sys.disk)).(temps := NoTemps(|sys.temps|))
    case Open(i, fault, initial) =>
      if fault then At(sys, i, Settled(false))
      else if sys.disk.Absent? then At(sys, i, Creating(initial)).(disk := Partial)
      else At(sys, i, AfterRead(sys.disk))
    case FinishCreate(i, fault) =>
      if fault then At(sys, i, Settled(false))
      else
        var initial := sys.phases[i].initial;
        At(sys, i, Mutating(initial)).(disk := Whole(initial), origin := Some(initial))
    case Mutate(i) =>
      (match sys.mutators[i](sys.phases[i].input)
       case Some(output) => At(sys, i, Writing(output))
       case None => At(sys, i, Settled(false)))
    case WriteTemp(i, fault) =>
      if fault then At(sys, i, Settled(false))
      else At(sys, i, Renaming(sys.phases[i].output)).(temps := sys.temps[i := true])
    case Rename(i, fault) =>
      // Renaming a temporary file that a load outside the queue removed fails.
      if fault || !sys.temps[i] then At(sys, i, Settled(false)).(temps := sys.temps[i := false])
      else At(sys, i, Settled(true)).(disk := Whole(sys.phases[i].output),
                                      temps := sys.temps[i := false], committed := sys.committed + [i])
    case Release(i) => At(sys, i, Released(sys.phases[i].ok))
    case OutsideCleanup => sys.(temps := NoTemps(|sys.temps|))
    case OutsideOpen => sys.(disk := Partial, outsideCreates := true)
    case OutsideFinish(fault, value) =>
      if fault then sys.(outsideCreates := false)
      else sys.(outsideCreates := false, disk := Whole(value), origin := Some(value))
  }

  // ── The invariant ────────────────────────────────────────────────────────

  // The mutators of the listed callers applied one after the other.
  ghost function Fold<S>(base: S, mutators: seq<Mutator<S>>, order: seq<nat>): S
    requires forall k | 0 <= k < |order| :: order[k] < |mutators|
  {
    if order == [] then base
    else
      var before := Fold(base, mutators, order[..|order| - 1]);
      mutators[order[|order| - 1]](before).GetOr(before)
  }

  ghost predicate Succeeded<S>(phase: Phase<S>) { phase == Settled(true) || phase == Released(true) }

  // Whoever has passed `await previous` found every earlier caller released.
  ghost predicate InTurn<S>(phases: seq<Phase<S>>) {
    forall i, j | 0 <= i < j < |phases| && !phases[j].Queued? :: phases[i].Released?
  }

  ghost predicate Ascending(order: seq<nat>) {
    forall k, l | 0 <= k < l < |order| :: order[k] < order[l]
  }

  ghost predicate CommittedOk<S>(sys: System<S>) {
    && Ascending(sys.committed)
    && (forall k | 0 <= k < |sys.committed| :: sys.committed[k] < |sys.phases|)
    && (forall i | 0 <= i < |sys.phases| :: Succeeded(sys.phases[i]) <==> i in sys.committed)
  }

  // The file holds exactly the successful mutators, applied in call order to
  // the state the file was created with; it is partial only before that.
  ghost predicate DiskOk<S>(sys: System<S>)
    requires CommittedOk(sys) && WellFormed(sys)
  {
    match sys.origin
    case None => !sys.disk.Whole? && sys.committed == []
    case Some(base) => sys.disk == Whole(Fold(base, sys.mutators, sys.committed)) && !sys.outsideCreates
  }

  // What each caller holds in memory agrees with the file.
  ghost predicate PhaseOk<S>(sys: System<S>, i: nat)
    requires i < |sys.phases| == |sys.mutators|
  {
    match sys.phases[i]
    case Creating(_) => sys.disk.Partial? && !sys.outsideCreates && sys.origin.None?
    case Mutating(input) => sys.disk == Whole(input)
    case Writing(output) => sys.disk.Whole? && sys.mutators[i](sys.disk.value) == Some(output)
    case Renaming(output) => sys.disk.Whole? && sys.mutators[i](sys.disk.value) == Some(output)
    case _ => true
  }

  ghost predicate Inv<S>(sys: System<S>) {
    && WellFormed(sys)
    && InTurn(sys.phases)
    && CommittedOk(sys)
    && DiskOk(sys)
    && (sys.outsideCreates ==> sys.disk.Partial?)
    && forall i | 0 <= i < |sys.phases| :: PhaseOk(sys, i)
  }

  lemma {:induction false} ResolvedMeansAllReleased<S>(phases: seq<Phase<S>>, i: nat)
    requires i <= |phases|
    ensures Resolved(phases, i) <==> forall j | 0 <= j < i :: phases[j].Released?
  {
    if i > 0 { ResolvedMeansAllReleased(phases, i - 1); }
  }

  lemma {:induction false} FoldOfMore<S>(base: S, mutators: seq<Mutator<S>>, more: seq<Mutator<S>>, order: seq<nat>)
    requires forall k | 0 <= k < |order| :: order[k] < |mutators|
    ensures Fold(base, mutators + more, order) == Fold(base, mutators, order)
  {
    if order != [] { FoldOfMore(base, mutators, more, order[..|order| - 1]); }
  }

  lemma InitInv<S>()
    ensures Inv(Start<S>())
  {
  }

  // ── Preservation ─────────────────────────────────────────────────────────

  ghost predicate InSection<S>(phase: Phase<S>) { !phase.Queued? && !phase.Released? }

  lemma TurnKept<S>(phases: seq<Phase<S>>, i: nat, phase: Phase<S>)
    requires InTurn(phases) && i < |phases| && !phases[i].Released? && !phase.Queued?
    requires phases[i].Queued? ==> Resolved(phases, i)
    ensures InTurn(phases[i := phase])
    ensures forall j | 0 <= j < |phases| && j != i :: phases[j].Queued? || phases[j].Released?
  {
    ResolvedMeansAllReleased(phases, i);
  }

  // A step of caller i that leaves the file alone.
  lemma PhaseChange<S>(sys: System<S>, i: nat, phase: Phase<S>, temps: seq<bool>)
    requires Inv(sys) && i < |sys.phases| && |temps| == |sys.temps|
    requires !sys.phases[i].Released? && !phase.Queued? && (sys.phases[i].Queued? ==> Resolved(sys.phases, i))
    requires Succeeded(phase) <==> Succeeded(sys.phases[i])
    requires PhaseOk(At(sys, i, phase), i)
    ensures Inv(At(sys, i, phase).(temps := temps))
  {
    TurnKept(sys.phases, i, phase);
    var t := At(sys, i, phase).(temps := temps);
    forall j | 0 <= j < |t.phases| ensures PhaseOk(t, j) {
      if j != i { assert t.phases[j] == sys.phases[j]; }
    }
    assert CommittedOk(t) && DiskOk(t);
  }

  // A step of caller i that writes the file, with everyone else at rest.
  lemma DiskChange<S>(sys: System<S>, t: System<S>, i: nat, phase: Phase<S>)
    requires Inv(sys) && i < |sys.phases| && InSection(sys.phases[i]) && !phase.Queued?
    requires t == At(sys, i, phase).(disk := t.disk, temps := t.temps, origin := t.origin, committed := t.committed)
    requires |t.temps| == |sys.temps|
    requires CommittedOk(t) && DiskOk(t) && (t.outsideCreates ==> t.disk.Partial?) && PhaseOk(t, i)
    ensures Inv(t)
  {
    TurnKept(sys.phases, i, phase);
    forall j | 0 <= j < |t.phases| ensures PhaseOk(t, j) {
      if j != i { assert t.phases[j] == sys.phases[j]; }
    }
  }

  lemma CommitExtends<S>(sys: System<S>, i: nat)
    requires CommittedOk(sys) && InTurn(sys.phases) && i < |sys.phases| && sys.phases[i].Renaming?
    ensures CommittedOk(sys.(phases := sys.phases[i := Settled(true)], committed := sys.committed + [i]))
  {
    forall k | 0 <= k < |sys.committed| ensures sys.committed[k] < i {
      assert sys.committed[k] in sys.committed;
    }
  }

  lemma FoldExtends<S>(base: S, mutators: seq<Mutator<S>>, order: seq<nat>, i: nat)
    requires i < |mutators| && forall k | 0 <= k < |order| :: order[k] < |mutators|
    ensures Fold(base, mutators, order + [i]) ==
            mutators[i](Fold(base, mutators, order)).GetOr(Fold(base, mutators, order))
  {
    assert (order + [i])[..|order|] == order;
  }

  lemma RenameCommits<S>(sys: System<S>, i: nat)
    requires Inv(sys) && i < |sys.phases| && sys.phases[i].Renaming? && sys.temps[i]
    ensures Inv(Next(sys, Rename(i, false)))
  {
    hide Fold;
    assert PhaseOk(sys, i);
    FoldExtends(sys.origin.value, sys.mutators, sys.committed, i);
    CommitExtends(sys, i);
    hide InTurn, CommittedOk;
    DiskChange(sys, Next(sys, Rename(i, false)), i, Settled(true));
  }

  lemma CreationWrites<S>(sys: System<S>, i: nat)
    requires Inv(sys) && i < |sys.phases| && sys.phases[i].Creating?
    ensures Inv(Next(sys, FinishCreate(i, false)))
  {
    assert PhaseOk(sys, i);
    var t := Next(sys, FinishCreate(i, false));
    assert CommittedOk(t);
    DiskChange(sys, t, i, Mutating(sys.phases[i].initial));
  }

  lemma OpenCreates<S>(sys: System<S>, i: nat, initial: S)
    requires Inv(sys) && i < |sys.phases| && sys.phases[i].Missing? && sys.disk.Absent?
    ensures Inv(Next(sys, Open(i, false, initial)))
  {
    var t := Next(sys, Open(i, false, initial));
    assert CommittedOk(t);
    DiskChange(sys, t, i, Creating(initial));
  }

  lemma CallArrives<S>(sys: System<S>, mutate: Mutator<S>)
    requires Inv(sys)
    ensures Inv(Next(sys, Call(mutate)))
  {
    var t := Next(sys, Call(mutate));
    assert forall i | 0 <= i < |sys.phases| :: t.phases[i] == sys.phases[i] && t.mutators[i] == sys.mutators[i];
    if sys.origin.Some? { FoldOfMore(sys.origin.value, sys.mutators, [mutate], sys.committed); }
    assert CommittedOk(t) && DiskOk(t);
    forall i | 0 <= i < |t.phases| ensures PhaseOk(t, i) {
      if i < |sys.phases| { assert PhaseOk(sys, i); }
    }
  }

  lemma OutsideStep<S>(sys: System<S>, a: Action<S>)
    requires Inv(sys) && Enabled(sys, a) && (a.OutsideCleanup? || a.OutsideOpen? || a.OutsideFinish?)
    ensures Inv(Next(sys, a))
  {
    var t := Next(sys, a);
    assert CommittedOk(t) && DiskOk(t);
    forall i | 0 <= i < |t.phases| ensures PhaseOk(t, i) {
      assert PhaseOk(sys, i);
    }
  }

  // Every step, by a caller or by a load outside the queue, with or without a
  // fault, keeps the invariant.
  lemma StepKeepsInv<S>(sys: System<S>, a: Action<S>)
    requires Inv(sys) && Enabled(sys, a)
    ensures Inv(Next(sys, a))
  {
    hide InTurn, CommittedOk, DiskOk;
    match a
    case Call(mutate) => CallArrives(sys, mutate);
    case Proceed(i) => PhaseChange(sys, i, Loading, sys.temps);
    case Load(i, fault) =>
      PhaseChange(sys, i, if fault then Settled(false) else AfterRead(sys.disk), NoTemps(|sys.temps|));
    case Open(i, fault, initial) =>
      if !fault && sys.disk.Absent? { OpenCreates(sys, i, initial); }
      else { PhaseChange(sys, i, if fault then Settled(false) else AfterRead(sys.disk), sys.temps); }
    case FinishCreate(i, fault) =>
      if fault { PhaseChange(sys, i, Settled(false), sys.temps); } else { CreationWrites(sys, i); }
    case Mutate(i) =>
      assert PhaseOk(sys, i);
      PhaseChange(sys, i, Next(sys, a).phases[i], sys.temps);
    case WriteTemp(i, fault) =>
      assert PhaseOk(sys, i);
      PhaseChange(sys, i, Next(sys, a).phases[i], if fault then sys.temps else sys.temps[i := true]);
    case Rename(i, fault) =>
      if fault || !sys.temps[i] { PhaseChange(sys, i, Settled(false), sys.temps[i := false]); }
      else { RenameCommits(sys, i); }
    case Release(i) => PhaseChange(sys, i, Released(sys.phases[i].ok), sys.temps);
    case OutsideCleanup => OutsideStep(sys, a);
    case OutsideOpen => OutsideStep(sys, a);
    case OutsideFinish(_, _) => OutsideStep(sys, a);
  }

  // ── Runs ─────────────────────────────────────────────────────────────────

  ghost predicate IsRun<S>(trace: seq<System<S>>, actions: seq<Action<S>>) {
    && |trace| == |actions| + 1
    && trace[0] == Start()
    && forall k | 0 <= k < |actions| ::
         WellFormed(trace[k]) && Enabled(trace[k], actions[k]) && trace[k + 1] == Next(trace[k], actions[k])
  }

  lemma {:induction false} RunKeepsInv<S>(trace: seq<System<S>>, actions: seq<Action<S>>, k: nat)
    requires IsRun(trace, actions) && k < |trace|
    ensures Inv(trace[k])
  {
    hide Inv, Enabled, Next;
    if k == 0 {
      InitInv<S>();
    } else {
      RunKeepsInv(trace, actions, k - 1);
      StepKeepsInv(trace[k - 1], actions[k - 1]);
    }
  }

  // At every moment of every run: at most one caller is past `await previous`
  // and not released, nobody overtakes an earlier caller, and the file is the
  // fold, in call order, of exactly the mutators whose update succeeded.
  lemma UpdatesAreSerial<S>(trace: seq<System<S>>, actions: seq<Action<S>>, k: nat)
    requires IsRun(trace, actions) && k < |trace|
    ensures var sys := trace[k];
            && (forall i, j | 0 <= i < j < |sys.phases| && !sys.phases[j].Queued? :: sys.phases[i].Released?)
            && (forall i, j | 0 <= i < |sys.phases| && 0 <= j < |sys.phases| &&
                  InSection(sys.phases[i]) && InSection(sys.phases[j]) :: i == j)
    ensures var sys := trace[k];
            && Ascending(sys.committed)
            && (forall i | 0 <= i < |sys.phases| :: Succeeded(sys.phases[i]) <==> i in sys.committed)
            && (forall l | 0 <= l < |sys.committed| :: sys.committed[l] < |sys.mutators|)
            && (sys.disk.Whole? ==>
                 sys.origin.Some? && sys.disk.value == Fold(sys.origin.value, sys.mutators, sys.committed))
  {
    RunKeepsInv(trace, actions, k);
  }

  // ── What a step may do to the file ───────────────────────────────────────

  // The file changes only when it is created or when a save goes through; a
  // failed load, a throwing mutator, a failed write or a failed rename leaves
  // it alone, and once complete it stays complete.
  lemma OnlySavesWrite<S>(sys: System<S>, a: Action<S>)
    requires Inv(sys) && Enabled(sys, a)
    ensures var t := Next(sys, a);
            && (t.disk != sys.disk ==>
                  || (sys.disk.Absent? && t.disk.Partial?)
                  || (sys.disk.Partial? && t.disk.Whole?)
                  || (sys.disk.Whole? && t.disk.Whole? && t.committed == sys.committed + [a.i] &&
                     t.phases[a.i] == Settled(true)))
            && (sys.disk.Whole? ==> t.disk.Whole? && t.origin == sys.origin)
    ensures forall i | 0 <= i < |sys.phases| && Next(sys, a).phases[i] == Settled(false) ::
              Next(sys, a).committed == sys.committed && (sys.disk.Whole? ==> Next(sys, a).disk == sys.disk)
  {
    hide Fold;
    if ByCaller(a) {
      assert PhaseOk(sys, a.i);
    }
  }

  // ── Progress ─────────────────────────────────────────────────────────────

  // A caller's next step, were nothing to go wrong.
  function OwnStep<S>(phase: Phase<S>, i: nat, initial: S): Action<S> {
    match phase
    case Queued => Proceed(i)
    case Loading => Load(i, false)
    case Missing => Open(i, false, initial)
    case Creating(_) => FinishCreate(i, false)
    case Mutating(_) => Mutate(i)
    case Writing(_) => WriteTemp(i, false)
    case Renaming(_) => Rename(i, false)
    case _ => Release(i)
  }

  // The first unreleased caller can always take its next step, whatever became
  // of the callers before it: a failure never blocks the queue.
  lemma SomeoneCanStep<S>(sys: System<S>, i: nat, initial: S)
    requires Inv(sys) && i < |sys.phases| && !sys.phases[i].Released?
    requires forall j | 0 <= j < i :: sys.phases[j].Released?
    ensures Enabled(sys, OwnStep(sys.phases[i], i, initial))
  {
    ResolvedMeansAllReleased(sys.phases, i);
  }

  function StepsLeft<S>(phase: Phase<S>): nat {
    match phase
    case Queued => 8
    case Loading => 7
    case Missing => 6
    case Creating(_) => 5
    case Mutating(_) => 4
    case Writing(_) => 3
    case Renaming(_) => 2
    case Settled(_) => 1
    case Released(_) => 0
  }

  function WorkLeft<S>(phases: seq<Phase<S>>): nat {
    if phases == [] then 0 else StepsLeft(phases[0]) + WorkLeft(phases[1..])
  }

  lemma {:induction false} WorkOfUpdate<S>(phases: seq<Phase<S>>, i: nat, phase: Phase<S>)
    requires i < |phases|
    ensures WorkLeft(phases[i := phase]) == WorkLeft(phases) - StepsLeft(phases[i]) + StepsLeft(phase)
  {
    if i > 0 {
      WorkOfUpdate(phases[1..], i - 1, phase);
      assert phases[i := phase][1..] == phases[1..][i - 1 := phase];
    } else {
      assert phases[0 := phase][1..] == phases[1..];
    }
  }

  predicate ByCaller<S>(a: Action<S>) {
    !a.Call? && !a.OutsideCleanup? && !a.OutsideOpen? && !a.OutsideFinish?
  }

  // Every step of a caller, failing or not, brings the queue closer to empty,
  // and loads outside the queue never push it back: every update returns.
  lemma UpdatesFinish<S>(sys: System<S>, a: Action<S>)
    requires WellFormed(sys) && Enabled(sys, a)
    ensures ByCaller(a) ==> WorkLeft(Next(sys, a).phases) < WorkLeft(sys.phases)
    ensures !ByCaller(a) && !a.Call? ==> Next(sys, a).phases == sys.phases
  {
    if ByCaller(a) {
      CallerAdvances(sys, a);
      hide Next;
      WorkOfUpdate(sys.phases, a.i, Next(sys, a).phases[a.i]);
    }
  }

  lemma CallerAdvances<S>(sys: System<S>, a: Action<S>)
    requires WellFormed(sys) && Enabled(sys, a) && ByCaller(a)
    ensures a.i < |sys.phases| == |Next(sys, a).phases|
    ensures Next(sys, a).phases == sys.phases[a.i := Next(sys, a).phases[a.i]]
    ensures StepsLeft(Next(sys, a).phases[a.i]) < StepsLeft(sys.phases[a.i])
  {
    hide Resolved;
  }

  // ── Why an update fails ──────────────────────────────────────────────────

  ghost predicate Failed<S>(phase: Phase<S>) { phase == Settled(false) || phase == Released(false) }

  predicate OwnFault<S>(a: Action<S>, i: nat) {
    match a
    case Load(j, fault) => j == i && fault
    case Open(j, fault, _) => j == i && fault
    case FinishCreate(j, fault) => j == i && fault
    case WriteTemp(j, fault) => j == i && fault
    case Rename(j, fault) => j == i && fault
    case _ => false
  }

  // What can make caller i's update fail: a fault at one of its own steps, a
  // mutator that throws on what was loaded, a state file that was not
  // completed, or a clean-up outside the queue between its write and its
  // rename.
  ghost predicate Cause<S>(sys: System<S>, a: Action<S>, i: nat) {
    || OwnFault(a, i)
    || (a == Mutate(i) && i < |sys.phases| == |sys.mutators| && sys.phases[i].Mutating? &&
        sys.mutators[i](sys.phases[i].input).None?)
    || ((a.Load? || a.Open?) && a.i == i && sys.disk.Partial?)
    || (a.OutsideCleanup? && i < |sys.phases| && sys.phases[i].Renaming?)
  }

  // Failed, or bound to fail at its rename.
  ghost predicate Doomed<S>(sys: System<S>, i: nat)
    requires |sys.phases| == |sys.temps|
  {
    i < |sys.phases| && (Failed(sys.phases[i]) || (sys.phases[i].Renaming? && !sys.temps[i]))
  }

  lemma FailureIsCaused<S>(sys: System<S>, a: Action<S>, i: nat)
    requires Inv(sys) && Enabled(sys, a) && !Doomed(sys, i)
    ensures Doomed(Next(sys, a), i) ==> Cause(sys, a, i)
  {
    hide Fold, Resolved, DiskOk, CommittedOk;
    if ByCaller(a) { assert PhaseOk(sys, a.i); }
  }

  lemma CauseIsFatal<S>(sys: System<S>, a: Action<S>, i: nat)
    requires Inv(sys) && Enabled(sys, a)
    ensures Cause(sys, a, i) ==> Doomed(Next(sys, a), i)
    ensures Doomed(sys, i) ==> Doomed(Next(sys, a), i)
  {
    hide Fold, Resolved, DiskOk, CommittedOk;
    if ByCaller(a) { assert PhaseOk(sys, a.i); }
  }

  lemma {:induction false} DoomedExactly<S>(trace: seq<System<S>>, actions: seq<Action<S>>, k: nat, i: nat)
    requires IsRun(trace, actions) && k < |trace|
    ensures WellFormed(trace[k])
    ensures Doomed(trace[k], i) <==> exists l | 0 <= l < k :: Cause(trace[l], actions[l], i)
  {
    hide Inv, Enabled, Next, Doomed, Cause;
    if k == 0 {
      NobodyDoomed<S>(i);
    } else {
      DoomedExactly(trace, actions, k - 1, i);
      RunKeepsInv(trace, actions, k - 1);
      RunKeepsInv(trace, actions, k);
      InvIsWellFormed(trace[k]);
      CauseIsFatal(trace[k - 1], actions[k - 1], i);
      if !Doomed(trace[k - 1], i) { FailureIsCaused(trace[k - 1], actions[k - 1], i); }
    }
  }

  lemma InvIsWellFormed<S>(sys: System<S>)
    requires Inv(sys)
    ensures WellFormed(sys)
  {
  }

  lemma NobodyDoomed<S>(i: nat)
    ensures !Doomed(Start<S>(), i)
  {
  }

  // In every run a finished update failed if and only if one of those causes
  // came before; any other is committed.
  lemma UpdateFailsExactly<S>(trace: seq<System<S>>, actions: seq<Action<S>>, k: nat, i: nat)
    requires IsRun(trace, actions) && k < |trace| && i < |trace[k].phases|
    requires trace[k].phases[i].Settled? || trace[k].phases[i].Released?
    ensures !trace[k].phases[i].ok <==> exists l | 0 <= l < k :: Cause(trace[l], actions[l], i)
    ensures trace[k].phases[i].ok <==> i in trace[k].committed
  {
    hide Cause, Fold;
    DoomedExactly(trace, actions, k, i);
    RunKeepsInv(trace, actions, k);
  }

  // ── Interrupted creation ─────────────────────────────────────────────────

  // The file was opened for creation and nobody is going to complete it.
  ghost predicate Abandoned<S>(sys: System<S>) {
    && sys.disk.Partial? && !sys.outsideCreates
    && forall i | 0 <= i < |sys.phases| :: !sys.phases[i].Creating?
  }

  // Creation is the one save that is not atomic: once it is cut short, no step
  // repairs the file and no update ever succeeds again.
  lemma AbandonedForever<S>(sys: System<S>, a: Action<S>)
    requires Inv(sys) && Enabled(sys, a) && Abandoned(sys)
    ensures Abandoned(Next(sys, a)) && Next(sys, a).committed == sys.committed == []
  {
    hide Fold;
    if ByCaller(a) { assert PhaseOk(sys, a.i); }
  }

  // A fault between opening the new file and completing its payload.
  predicate CutsCreation<S>(a: Action<S>) { (a.FinishCreate? || a.OutsideFinish?) && a.fault }

  lemma CutAbandons<S>(sys: System<S>, a: Action<S>)
    requires Inv(sys) && Enabled(sys, a) && CutsCreation(a)
    ensures Abandoned(Next(sys, a))
  {
    hide Fold, Resolved;
    if a.FinishCreate? { assert PhaseOk(sys, a.i); }
    forall i | 0 <= i < |sys.phases| && sys.phases[i].Creating? ensures a.FinishCreate? && i == a.i {
      assert PhaseOk(sys, i);
    }
  }

  // Without a cut a partial file keeps whoever is completing it.
  lemma UncutStaysAttended<S>(sys: System<S>, a: Action<S>)
    requires Inv(sys) && Enabled(sys, a) && !CutsCreation(a) && !Abandoned(sys)
    ensures !Abandoned(Next(sys, a))
  {
    hide Fold, Resolved;
    var t := Next(sys, a);
    if t.disk.Partial? && !t.outsideCreates {
      if a.Open? && sys.disk.Absent? {
        assert t.phases[a.i].Creating?;
      } else if sys.disk.Partial? {
        var i :| 0 <= i < |sys.phases| && sys.phases[i].Creating?;
        assert t.phases[i].Creating?;
      }
    }
  }

  // In every run the file is abandoned exactly when a creation was cut short,
  // by a caller or by a load outside the queue.
  lemma {:induction false} AbandonedExactly<S>(trace: seq<System<S>>, actions: seq<Action<S>>, k: nat)
    requires IsRun(trace, actions) && k < |trace|
    ensures Abandoned(trace[k]) <==> exists l | 0 <= l < k :: CutsCreation(actions[l])
  {
    hide Inv, Enabled, Next, Abandoned, CutsCreation;
    if k == 0 {
      NothingAbandoned<S>();
    } else {
      AbandonedExactly(trace, actions, k - 1);
      RunKeepsInv(trace, actions, k - 1);
      var sys, a := trace[k - 1], actions[k - 1];
      if Abandoned(sys) {
        AbandonedForever(sys, a);
      } else if CutsCreation(a) {
        CutAbandons(sys, a);
      } else {
        UncutStaysAttended(sys, a);
      }
    }
  }

  lemma NothingAbandoned<S>()
    ensures !Abandoned(Start<S>())
  {
  }

  lemma CreationCanBeAbandoned<S>(mutate: Mutator<S>, initial: S)
    returns (trace: seq<System<S>>, actions: seq<Action<S>>)
    ensures IsRun(trace, actions) && Abandoned(trace[|actions|])
  {
    actions := [Call(mutate), Proceed(0), Load(0, false), Open(0, false, initial), FinishCreate(0, true)];
    var s0: System<S> := Start();
    var s1 := Next(s0, actions[0]);
    assert Resolved(s1.phases, 0);
    var s2 := Next(s1, actions[1]);
    var s3 := Next(s2, actions[2]);
    var s4 := Next(s3, actions[3]);
    var s5 := Next(s4, actions[4]);
    trace := [s0, s1, s2, s3, s4, s5];
  }
}

// The write queue running the operations of the store: under any interleaving
// and any faults the file holds a state that the store's own rules reach.
module StoreQueue {
  import opened Wrappers
  import opened Records
  import opened StoreRules
  import opened StoreRuns
  import StoreInvariants
  import opened WriteQueue

  // An operation as the callback of `update`: throwing is None.
  function OpMutator(op: Op): Mutator<State> {
    s => match Apply(s, op) case Success(effect) => Some(effect.state) case Failure(_) => None
  }

  ghost predicate Runs(mutators: seq<Mutator<State>>, ops: seq<Op>) {
    |mutators| == |ops| && forall i | 0 <= i < |ops| :: mutators[i] == OpMutator(ops[i])
  }

  function Picked(ops: seq<Op>, order: seq<nat>): seq<Op>
    requires forall k | 0 <= k < |order| :: order[k] < |ops|
  {
    if order == [] then [] else Picked(ops, order[..|order| - 1]) + [ops[order[|order| - 1]]]
  }

  lemma {:induction false} RunOfOneMore(s: State, ops: seq<Op>, op: Op)
    ensures Run(s, ops + [op]) == Step(Run(s, ops), op)
    decreases |ops|
  {
    hide Step;
    if ops == [] {
      assert ops + [op] == [op];
      assert [op][1..] == [];
    } else {
      RunOfOneMore(Step(s, ops[0]), ops[1..], op);
      assert (ops + [op])[1..] == ops[1..] + [op];
    }
  }

  lemma MutatorIsStep(s: State, op: Op)
    ensures OpMutator(op)(s).GetOr(s) == Step(s, op)
  {
    hide Apply;
  }

  lemma {:induction false} FoldIsRun(base: State, mutators: seq<Mutator<State>>, ops: seq<Op>, order: seq<nat>)
    requires Runs(mutators, ops) && forall k | 0 <= k < |order| :: order[k] < |ops|
    ensures Fold(base, mutators, order) == Run(base, Picked(ops, order))
  {
    hide Step, OpMutator;
    if order != [] {
      var init, op := order[..|order| - 1], ops[order[|order| - 1]];
      FoldIsRun(base, mutators, ops, init);
      RunOfOneMore(base, Picked(ops, init), op);
      MutatorIsStep(Run(base, Picked(ops, init)), op);
    }
  }

  // Whatever the callers, the interleaving, the faults and the loads outside
  // the queue, a complete state file holds exactly the run of the successful
  // operations in call order, and so satisfies the store's invariant.
  lemma FileIsAlwaysReachable(trace: seq<System<State>>, actions: seq<Action<State>>, k: nat, ops: seq<Op>)
    requires IsRun(trace, actions) && k < |trace| && Runs(trace[k].mutators, ops)
    requires trace[k].origin.Some? ==> StoreInvariants.Inv(trace[k].origin.value)
    requires trace[k].origin.Some? && (forall l | 0 <= l < |trace[k].committed| :: trace[k].committed[l] < |ops|) ==>
               FreshRun(trace[k].origin.value, Picked(ops, trace[k].committed))
    ensures trace[k].disk.Whole? ==>
              && trace[k].origin.Some?
              && (forall l | 0 <= l < |trace[k].committed| :: trace[k].committed[l] < |ops|)
              && Ascending(trace[k].committed)
              && trace[k].disk.value == Run(trace[k].origin.value, Picked(ops, trace[k].committed))
              && StoreInvariants.Inv(trace[k].disk.value)
  {
    hide IsRun, StoreInvariants.Inv, Fold, OpMutator;
    UpdatesAreSerial(trace, actions, k);
    if trace[k].disk.Whole? {
      FoldIsRun(trace[k].origin.value, trace[k].mutators, ops, trace[k].committed);
      RunKeepsInvariant(trace[k].origin.value, Picked(ops, trace[k].committed));
    }
  }
}

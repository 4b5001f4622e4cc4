// Events emitted outside the store while a reconcile holds the state
// (packages/engine/src/apply.ts, packages/engine/src/networking.ts): appended at
// the revision the state has then, under the same cap.
module HostAudit {
  import opened Wrappers
  import opened Records
  import Rules = StoreRules
  import Store = StateStore

  ghost predicate Recorded(before: seq<AuditEvent>, after: seq<AuditEvent>, actions: seq<AuditAction>, revision: nat,
                           now: Millis) {
    after == Rules.Appended(before, Rules.HostEvents(actions, revision, now))
  }

  lemma RecordedNone(events: seq<AuditEvent>, revision: nat, now: Millis)
    ensures Recorded(events, events, [], revision, now)
  {
    Store.AppendNothing(events);
    assert Rules.HostEvents([], revision, now) == [];
  }

  lemma RecordedThen(a: seq<AuditEvent>, b: seq<AuditEvent>, c: seq<AuditEvent>,
                     first: seq<AuditAction>, second: seq<AuditAction>, revision: nat, now: Millis)
    requires Recorded(a, b, first, revision, now) && Recorded(b, c, second, revision, now)
    ensures Recorded(a, c, first + second, revision, now)
  {
    hide Rules.Appended;
    Store.AppendedTwice(a, Rules.HostEvents(first, revision, now), Rules.HostEvents(second, revision, now));
    assert Rules.HostEvents(first + second, revision, now) ==
           Rules.HostEvents(first, revision, now) + Rules.HostEvents(second, revision, now);
  }

  // emitAudit
  method Emit(state: Store.EngineState, action: AuditAction, now: Millis)
    modifies state`events
    ensures Recorded(old(state.events), state.events, [action], state.revision, now)
  {
    hide Rules.Appended;
    var e := AuditEvent(action, "engine", None, None, state.revision, now);
    state.AppendEvent(e);
    assert Rules.HostEvents([action], state.revision, now) == [e];
  }
}

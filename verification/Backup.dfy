// Restoring a snapshot (packages/engine/src/backup.ts) with a fault possible
// at every file operation. JSON text and SHA-256 are functions of which only
// one law is used: what was printed reads back.
module Backup {
  import opened Wrappers
  import opened Records
  import Rules = StoreRules

  type Bytes = string
  type Digest = string

  datatype Codec = Codec(encode: State -> Bytes, decode: Bytes -> Option<State>, sha: Bytes -> Digest)

  ghost predicate Lawful(c: Codec) {
    forall s: State :: c.decode(c.encode(s)) == Some(s)
  }

  datatype Manifest = NotJson | Manifest(sha256: Option<Digest>)

  // One `snap-<id>` directory; either file may be missing.
  datatype Snapshot = Snapshot(manifest: Option<Manifest>, state: Option<Bytes>)

  datatype RestoreError = SnapshotNotFound | IoError | ChecksumMismatch | RestoreFailed

  datatype RestoreResult = RestoreResult(applied: bool, reconciled: bool, safetySnapshotId: Option<Id>,
                                         fromRevision: Option<nat>)

  // How a restore ended, for the statements about it.
  datatype Recovery = NotTried | Recovered | RecoveryBroke

  // ── What the state file may hold ─────────────────────────────────────────

  // What `load` reads; a missing file is created with the initial state.
  function Loaded(c: Codec, file: Option<Bytes>, initial: State): Option<State> {
    if file.None? then Some(initial) else c.decode(file.value)
  }

  // The file as `load` leaves it.
  function Opened(c: Codec, file: Option<Bytes>, initial: State): Option<Bytes> {
    if file.None? then Some(c.encode(initial)) else file
  }

  function WithEvent(s: State, action: AuditAction, actor: string, id: Id, now: Millis): State {
    s.(events := Rules.Appended(s.events, [AuditEvent(action, actor, Some(id), None, s.revision, now)]))
  }

  // The state before the restore, as it was or printed afresh; a file created
  // from nothing may also be torn.
  ghost predicate Untouched(c: Codec, before: Option<Bytes>, initial: State, file: Option<Bytes>) {
    || file == before
    || (Loaded(c, before, initial).Some? && file == Some(c.encode(Loaded(c, before, initial).value)))
    || (before.None? && file.Some? && c.decode(file.value).None?)
  }

  ghost predicate FailureNoted(c: Codec, before: Option<Bytes>, initial: State, q: Request, file: Option<Bytes>) {
    && Loaded(c, before, initial).Some?
    && file == Some(c.encode(WithEvent(Loaded(c, before, initial).value, BackupRestoreFailed, q.actor, q.id, q.now)))
  }

  ghost predicate RestoreNoted(c: Codec, snapshot: Bytes, q: Request, file: Option<Bytes>) {
    && c.decode(snapshot).Some?
    && file == Some(c.encode(WithEvent(c.decode(snapshot).value, BackupRestored, q.actor, q.id, q.now)))
  }

  ghost predicate Expected(c: Codec, before: Option<Bytes>, initial: State, snapshot: Bytes, q: Request,
                           file: Option<Bytes>) {
    || Untouched(c, before, initial, file)
    || FailureNoted(c, before, initial, q, file)
    || file == Some(snapshot)
    || RestoreNoted(c, snapshot, q, file)
  }

  // A restore request; `safetyId` is the identifier `randomUUID` would draw.
  datatype Request = Request(id: Id, apply: bool, force: bool, actor: string, safetyId: Id, now: Millis)

  predicate Verified(c: Codec, snapshots: map<Id, Snapshot>, id: Id) {
    && id in snapshots && snapshots[id].manifest.Some? && snapshots[id].state.Some?
    && snapshots[id].manifest.value.Manifest?
    && snapshots[id].manifest.value.sha256 == Some(c.sha(snapshots[id].state.value))
    && c.sha(snapshots[id].state.value) != ""
  }

  predicate Mismatched(c: Codec, snapshots: map<Id, Snapshot>, id: Id) {
    && id in snapshots && snapshots[id].manifest.Some? && snapshots[id].state.Some?
    && snapshots[id].manifest.value.Manifest?
    && !Verified(c, snapshots, id)
  }

  function SafetySnapshot(c: Codec, s: State): Snapshot {
    Snapshot(Some(Manifest(Some(c.sha(c.encode(s))))), Some(c.encode(s)))
  }

  // The snapshot is there, with the digest of exactly its bytes, and its bytes
  // read as the given state: a restore of it can go through.
  ghost predicate Restorable(c: Codec, snapshots: map<Id, Snapshot>, id: Id, s: State) {
    && id in snapshots && snapshots[id].state.Some?
    && snapshots[id].manifest == Some(Manifest(Some(c.sha(snapshots[id].state.value))))
    && (Lawful(c) ==> c.decode(snapshots[id].state.value) == Some(s))
  }

  lemma RestorableVerified(c: Codec, snapshots: map<Id, Snapshot>, id: Id, s: State)
    requires Lawful(c) && Restorable(c, snapshots, id, s) && c.sha(snapshots[id].state.value) != ""
    ensures Verified(c, snapshots, id) && c.decode(snapshots[id].state.value) == Some(s)
  {
  }

  // The file reads as that state with one more event, at the state's own
  // revision.
  ghost predicate HoldsWith(c: Codec, file: Option<Bytes>, s: State, action: AuditAction, q: Request) {
    && file.Some? && c.decode(file.value).Some?
    && var t := c.decode(file.value).value;
    && t == s.(events := t.events)
    && Latest(s.events + [AuditEvent(action, q.actor, Some(q.id), None, s.revision, q.now)], t.events)
  }

  lemma NotedMeaning(c: Codec, before: Option<Bytes>, initial: State, snapshot: Bytes, q: Request,
                     file: Option<Bytes>)
    requires Lawful(c)
    ensures RestoreNoted(c, snapshot, q, file) ==>
              c.decode(snapshot).Some? && HoldsWith(c, file, c.decode(snapshot).value, BackupRestored, q)
    ensures FailureNoted(c, before, initial, q, file) && before.Some? ==>
              c.decode(before.value).Some? && HoldsWith(c, file, c.decode(before.value).value, BackupRestoreFailed, q)
    ensures FailureNoted(c, before, initial, q, file) && before.None? ==>
              HoldsWith(c, file, initial, BackupRestoreFailed, q)
  {
  }

  // What is left after a verified snapshot was to be applied.
  ghost predicate Ending(c: Codec, before: Option<Bytes>, initial: State, snapshot: Bytes, q: Request,
                         file: Option<Bytes>, r: Result<RestoreResult, RestoreError>, recovery: Recovery) {
    && Expected(c, before, initial, snapshot, q, file)
    && (r.Success? ==>
          && RestoreNoted(c, snapshot, q, file) && Loaded(c, before, initial).Some?
          && r.value.applied && r.value.fromRevision == Some(Loaded(c, before, initial).value.revision)
          && r.value.safetySnapshotId == if q.force then None else Some(q.safetyId))
    && (r.Failure? && recovery.Recovered? ==> FailureNoted(c, before, initial, q, file))
    && (r.Failure? && recovery.NotTried? && (!q.force || Loaded(c, before, initial).None?) ==>
         Untouched(c, before, initial, file))
    && (recovery.RecoveryBroke? || recovery.Recovered? ==> r.Failure? && !q.force)
  }

  // Without faults a restore succeeds exactly when both the current state and
  // the snapshot can be read; if only the snapshot cannot, the safety snapshot
  // is put back, or, when the restore was forced, the unreadable bytes stay.
  ghost predicate FaultFree(c: Codec, before: Option<Bytes>, initial: State, snapshot: Bytes, q: Request,
                            file: Option<Bytes>, r: Result<RestoreResult, RestoreError>) {
    && (r.Success? <==> !q.apply || (Loaded(c, before, initial).Some? && c.decode(snapshot).Some?))
    && (q.apply && Loaded(c, before, initial).Some? && c.decode(snapshot).None? ==>
          if q.force then file == Some(snapshot) else FailureNoted(c, before, initial, q, file))
    && (q.apply && Loaded(c, before, initial).None? ==> file == before)
  }

  // A forced restore without faults leaves a readable file exactly when both
  // the file before it and the snapshot were readable.
  lemma ForcedRestoreReadable(c: Codec, before: Option<Bytes>, initial: State, snapshot: Bytes, q: Request,
                              file: Option<Bytes>, r: Result<RestoreResult, RestoreError>, recovery: Recovery)
    requires Lawful(c) && q.force && q.apply
    requires FaultFree(c, before, initial, snapshot, q, file, r) &&
             Ending(c, before, initial, snapshot, q, file, r, recovery)
    ensures Loaded(c, file, initial).Some? <==> Loaded(c, before, initial).Some? && c.decode(snapshot).Some?
  {
    hide WithEvent, Expected;
  }

  // A snapshot that carries its right digest and does not parse: a checksum
  // says nothing about that, and a wrapper whose state is a JSON text without
  // fields can be imported. A forced restore replaces a good file by it.
  lemma UnreadableSnapshotRestored(c: Codec, before: Option<Bytes>, initial: State, text: Bytes, q: Request,
                                   file: Option<Bytes>, r: Result<RestoreResult, RestoreError>, recovery: Recovery)
    requires Lawful(c) && q.force && q.apply && Loaded(c, before, initial).Some?
    requires c.decode(text).None? && c.sha(text) != ""
    requires FaultFree(c, before, initial, text, q, file, r) && Ending(c, before, initial, text, q, file, r, recovery)
    ensures Verified(c, map[q.id := Snapshot(Some(Manifest(Some(c.sha(text)))), Some(text))], q.id)
    ensures r.Failure? && file == Some(text) && Loaded(c, file, initial).None?
  {
    ForcedRestoreReadable(c, before, initial, text, q, file, r, recovery);
  }

  // One fault, wherever it strikes, never costs an unforced restore the old
  // state: it either completes or leaves what was there.
  ghost predicate OneFault(c: Codec, before: Option<Bytes>, initial: State, snapshot: Bytes, q: Request,
                           file: Option<Bytes>, r: Result<RestoreResult, RestoreError>) {
    !q.force && c.decode(snapshot).Some? && r.Failure? ==>
      Untouched(c, before, initial, file) || FailureNoted(c, before, initial, q, file)
  }

  lemma OpenedReadsSame(c: Codec, file: Option<Bytes>, initial: State)
    requires Lawful(c)
    ensures Loaded(c, Opened(c, file, initial), initial) == Loaded(c, file, initial)
  {
  }

  class BackupStorage {
    const codec: Codec
    var file: Option<Bytes>
    var snapshots: map<Id, Snapshot>
    ghost var faults: nat
    // Every content the state file has had, so also what a crash would leave.
    ghost var seen: set<Option<Bytes>>

    constructor (codec: Codec, file: Option<Bytes>, snapshots: map<Id, Snapshot>)
      ensures this.codec == codec && this.file == file && this.snapshots == snapshots
      ensures faults == 0 && seen == {file}
    {
      this.codec, this.file, this.snapshots, faults, seen := codec, file, snapshots, 0, {file};
    }

    // Any file operation.
    method Io() returns (ok: bool)
      modifies this`faults
      ensures faults == old(faults) + (if ok then 0 else 1)
    {
      var fault: bool := *;
      if fault { faults := faults + 1; }
      ok := !fault;
    }

    // atomicWriteFile on the state file: all or nothing.
    method WriteFile(bytes: Bytes) returns (ok: bool)
      modifies this`file, this`faults, this`seen
      ensures faults == old(faults) + (if ok then 0 else 1)
      ensures file == (if ok then Some(bytes) else old(file)) && seen == old(seen) + {file}
    {
      ok := Io();
      if ok { file := Some(bytes); }
      seen := seen + {file};
    }

    // StateStore.load
    method Load(initial: State) returns (r: Option<State>)
      modifies this`file, this`faults, this`seen
      ensures faults >= old(faults)
      ensures r.Some? ==>
                r == Loaded(codec, old(file), initial) && file == Opened(codec, old(file), initial) &&
                  faults == old(faults)
      ensures r.None? ==> faults > old(faults) || Loaded(codec, old(file), initial).None?
      ensures old(file).Some? && faults == old(faults) ==> r == codec.decode(old(file).value)
      ensures old(file).None? && faults == old(faults) ==>
                r == Some(initial) && file.Some? && (Lawful(codec) ==> codec.decode(file.value) == r)
      ensures Untouched(codec, old(file), initial, file) && seen == old(seen) + {file}
      ensures old(file).Some? ==> file == old(file)
    {
      var ok := Io();
      if !ok {
        r := None;
      } else if file.Some? {
        r := codec.decode(file.value);
      } else {
        // createInitialStateIfMissing writes the file in place.
        ok := Io();
        if ok {
          file, r := Some(codec.encode(initial)), Some(initial);
        } else {
          var torn: Bytes := *;
          if codec.decode(torn).None? { file := Some(torn); }
          r := None;
        }
      }
      seen := seen + {file};
    }

    // `load`, an event, `save`.
    method Note(initial: State, action: AuditAction, q: Request) returns (ok: bool)
      requires file.Some?
      modifies this`file, this`faults, this`seen
      ensures ok ==> codec.decode(old(file).value).Some? && faults == old(faults)
      ensures ok ==>
                file == Some(codec.encode(WithEvent(codec.decode(old(file).value).value, action, q.actor, q.id, q.now)))
      ensures !ok ==> file == old(file) && (faults > old(faults) || codec.decode(file.value).None?)
      ensures faults >= old(faults) && seen == old(seen) + {old(file)} + {file}
    {
      var state := Load(initial);
      if state.None? { return false; }
      ok := WriteFile(codec.encode(WithEvent(state.value, action, q.actor, q.id, q.now)));
    }

    // Manifest, bytes, checksum.
    method ReadVerified(id: Id) returns (r: Result<Bytes, RestoreError>)
      modifies this`faults
      ensures faults >= old(faults)
      ensures r.Success? ==>
                Verified(codec, snapshots, id) && r.value == snapshots[id].state.value && faults == old(faults)
      ensures r.Failure? ==> faults > old(faults) || !Verified(codec, snapshots, id)
      ensures r == Failure(ChecksumMismatch) ==> Mismatched(codec, snapshots, id)
      ensures r == Failure(SnapshotNotFound) ==>
                id !in snapshots || snapshots[id].manifest.None? || snapshots[id].state.None?
      ensures r != Failure(RestoreFailed)
      ensures faults == old(faults) && id in snapshots && snapshots[id].state.Some? ==>
                forall digest | snapshots[id].manifest == Some(Manifest(digest)) ::
                    var bytes := snapshots[id].state.value;
                    r == if digest == Some(codec.sha(bytes)) && codec.sha(bytes) != "" then Success(bytes)
                         else Failure(ChecksumMismatch)
      ensures Mismatched(codec, snapshots, id) && faults == old(faults) ==> r == Failure(ChecksumMismatch)
    {
      var ok := Io();
      if !ok { return Failure(IoError); }
      if id !in snapshots || snapshots[id].manifest.None? { return Failure(SnapshotNotFound); }
      if snapshots[id].manifest.value.NotJson? { return Failure(IoError); }
      ok := Io();
      if !ok { return Failure(IoError); }
      if snapshots[id].state.None? { return Failure(SnapshotNotFound); }
      var bytes := snapshots[id].state.value;
      var expected := snapshots[id].manifest.value.sha256;
      if expected.None? || expected.value == "" || expected.value != codec.sha(bytes) {
        return Failure(ChecksumMismatch);
      }
      return Success(bytes);
    }

    // snapshotInternal: the directory appears whole or not at all; reading it
    // back for the summary may still fail after that.
    method TakeSafetySnapshot(id: Id, initial: State) returns (ok: bool)
      requires id !in snapshots
      modifies this`file, this`faults, this`seen, this`snapshots
      ensures faults >= old(faults) && (ok ==> faults == old(faults))
      ensures ok ==> Loaded(codec, old(file), initial).Some? && file == Opened(codec, old(file), initial)
      ensures ok ==> id in snapshots && Restorable(codec, snapshots, id, Loaded(codec, old(file), initial).value)
      ensures snapshots == old(snapshots) ||
              (Loaded(codec, old(file), initial).Some? &&
               snapshots == old(snapshots)[id := SafetySnapshot(codec, Loaded(codec, old(file), initial).value)])
      ensures !ok ==> faults > old(faults) || Loaded(codec, old(file), initial).None?
      ensures Untouched(codec, old(file), initial, file) && seen == old(seen) + {file}
      ensures old(file).Some? ==> file == old(file)
    {
      var state := Load(initial);
      if state.None? { return false; }
      ok := Io();
      if !ok { return; }
      snapshots := snapshots[id := SafetySnapshot(codec, state.value)];
      ok := Io();
    }

    // The recovery branch.
    method Recover(q: Request, initial: State) returns (recovery: Recovery)
      requires q.safetyId in snapshots && snapshots[q.safetyId].state.Some? && file.Some?
      modifies this`file, this`faults, this`seen
      ensures recovery.Recovered? || (recovery.RecoveryBroke? && file.Some?)
      ensures var safe := snapshots[q.safetyId].state.value;
              && (recovery.Recovered? ==> codec.decode(safe).Some?)
              && (recovery.Recovered? ==>
                    file == Some(codec.encode(WithEvent(codec.decode(safe).value, BackupRestoreFailed, q.actor, q.id,
                      q.now))))
              && (recovery.RecoveryBroke? ==> file == old(file) || file == Some(safe))
              && (recovery.RecoveryBroke? ==> faults > old(faults) || codec.decode(safe).None?)
              && faults >= old(faults)
              && seen <= old(seen) + {old(file), Some(safe), file}
    {
      var ok := Io();
      if !ok { return RecoveryBroke; }
      var safe := snapshots[q.safetyId].state.value;
      ok := WriteFile(safe);
      if !ok { return RecoveryBroke; }
      ok := Note(initial, BackupRestoreFailed, q);
      recovery := if ok then Recovered else RecoveryBroke;
    }

    // From loading the current state to the saved event; `wg-quick down` does
    // not touch files.
    method Overwrite(q: Request, snapshot: Bytes, initial: State) returns (fromRevision: Option<nat>, ok: bool)
      modifies this`file, this`faults, this`seen
      ensures faults >= old(faults) && (ok ==> faults == old(faults))
      ensures ok ==> RestoreNoted(codec, snapshot, q, file)
      ensures ok ==>
                Loaded(codec, old(file), initial).Some? &&
                  fromRevision == Some(Loaded(codec, old(file), initial).value.revision)
      ensures !ok ==>
                Untouched(codec, old(file), initial, file) ||
                  (file == Some(snapshot) && Loaded(codec, old(file), initial).Some?)
      ensures !ok ==> faults > old(faults) || Loaded(codec, old(file), initial).None? || codec.decode(snapshot).None?
      ensures !ok && faults == old(faults) && Loaded(codec, old(file), initial).Some? ==> file == Some(snapshot)
      ensures old(file).Some? ==> file.Some?
      ensures forall x | x in seen && x !in old(seen) ::
                Untouched(codec, old(file), initial, x) || x == Some(snapshot) || RestoreNoted(codec, snapshot, q, x)
    {
      hide WithEvent;
      var current := Load(initial);
      if current.None? { return None, false; }
      fromRevision := Some(current.value.revision);
      ok := WriteFile(snapshot);
      if !ok { return; }
      ok := Note(initial, BackupRestored, q);
    }

    // The body of backupRestore under the backup lock. `reconcileOk` is the
    // outcome of the reconcile that follows; its errors are only reported.
    method BackupRestore(q: Request, initial: State, reconcileOk: bool)
      returns (r: Result<RestoreResult, RestoreError>, recovery: Recovery)
      requires Lawful(codec) && q.safetyId !in snapshots
      modifies this
      ensures !Verified(codec, old(snapshots), q.id) || !q.apply || (r.Failure? && r.error != RestoreFailed) ==>
                file == old(file) && snapshots == old(snapshots) && seen == old(seen)
      ensures !Verified(codec, old(snapshots), q.id) ==> r.Failure?
      ensures Mismatched(codec, old(snapshots), q.id) && faults == old(faults) ==> r == Failure(ChecksumMismatch)
      ensures r.Success? && !q.apply ==> r.value == RestoreResult(false, false, None, None)
      ensures Verified(codec, old(snapshots), q.id) && q.apply ==>
                Ending(codec, old(file), initial, old(snapshots)[q.id].state.value, q, file, r, recovery)
      ensures Verified(codec, old(snapshots), q.id) ==>
                forall x | x in seen && x !in old(seen) ::
                    Expected(codec, old(file), initial, old(snapshots)[q.id].state.value, q, x)
      ensures r.Success? && q.apply && !q.force ==>
                && Loaded(codec, old(file), initial).Some?
                && Restorable(codec, snapshots, q.safetyId, Loaded(codec, old(file), initial).value)
      ensures r.Success? && q.apply ==>
                && Verified(codec, old(snapshots), q.id) && codec.decode(old(snapshots)[q.id].state.value).Some?
                && HoldsWith(codec, file, codec.decode(old(snapshots)[q.id].state.value).value, BackupRestored, q)
      ensures recovery.Recovered? && old(file).Some? ==>
                && codec.decode(old(file).value).Some?
                && HoldsWith(codec, file, codec.decode(old(file).value).value, BackupRestoreFailed, q)
      ensures r.Success? && q.apply ==> r.value.reconciled == reconcileOk
      ensures r == Failure(RestoreFailed) ==> Verified(codec, old(snapshots), q.id) && q.apply
      ensures r == Failure(ChecksumMismatch) ==> Mismatched(codec, old(snapshots), q.id)
      ensures r.Success? || r.error != RestoreFailed ==> recovery.NotTried?
      ensures faults >= old(faults)
      ensures Verified(codec, old(snapshots), q.id) && faults == old(faults) ==>
                FaultFree(codec, old(file), initial, old(snapshots)[q.id].state.value, q, file, r)
      ensures Verified(codec, old(snapshots), q.id) && faults == old(faults) + 1 ==>
                OneFault(codec, old(file), initial, old(snapshots)[q.id].state.value, q, file, r)
      ensures recovery.RecoveryBroke? ==> r.Failure? && !q.force && faults > old(faults)
      ensures recovery.RecoveryBroke? && codec.decode(old(snapshots)[q.id].state.value).Some? ==>
                faults >= old(faults) + 2
      ensures snapshots == old(snapshots) ||
              (!q.force && Loaded(codec, old(file), initial).Some? &&
               snapshots == old(snapshots)[q.safetyId :=
                   SafetySnapshot(codec, Loaded(codec, old(file), initial).value)])
    {
      hide WithEvent, Latest, HoldsWith, RestoreNoted, Restorable;
      var checked := ReadVerified(q.id);
      if checked.Failure? { return Failure(checked.error), NotTried; }
      var snapshot := checked.value;
      if !q.apply { return Success(RestoreResult(false, false, None, None)), NotTried; }
      ghost var before := file;
      OpenedReadsSame(codec, before, initial);
      var safety: Option<Id> := None;
      var ok := true;
      if !q.force {
        ok := TakeSafetySnapshot(q.safetyId, initial);
        if ok { safety := Some(q.safetyId); }
      }
      var fromRevision := None;
      if ok { fromRevision, ok := Overwrite(q, snapshot, initial); }
      if ok {
        NotedMeaning(codec, before, initial, snapshot, q, file);
        return Success(RestoreResult(true, reconcileOk, safety, fromRevision)), NotTried;
      }
      recovery := NotTried;
      if safety.Some? { recovery := Recover(q, initial); }
      NotedMeaning(codec, before, initial, snapshot, q, file);
      r := Failure(RestoreFailed);
    }

    // A restore and then a restore of the safety snapshot it took, without
    // faults: the state is what it was before the two, with one more event.
    method RestoreAndUndo(q: Request, undo: Request, initial: State)
      returns (r: Result<RestoreResult, RestoreError>, back: Result<RestoreResult, RestoreError>)
      requires Lawful(codec) && forall bytes :: codec.sha(bytes) != ""
      requires q.safetyId !in snapshots && undo.safetyId !in snapshots && undo.safetyId != q.safetyId
      requires q.apply && !q.force && undo.apply && undo.id == q.safetyId
      modifies this
      ensures faults == old(faults) && r.Success? ==>
                && r.value.safetySnapshotId == Some(undo.id) && back.Success? && back.value.applied
                && (old(file).None? ==> HoldsWith(codec, file, initial, BackupRestored, undo))
                && (old(file).Some? ==>
                      && codec.decode(old(file).value).Some?
                      && HoldsWith(codec, file, codec.decode(old(file).value).value, BackupRestored, undo))
    {
      hide WithEvent, Latest;
      var recovery;
      r, recovery := BackupRestore(q, initial, true);
      if r.Failure? { return r, r; }
      RestorableVerified(codec, snapshots, q.safetyId, Loaded(codec, old(file), initial).value);
      back, recovery := BackupRestore(undo, initial, true);
    }
  }
}

/**
  Swapping the agent's binary with rollback (update_swap.go).

  `Machine` is the host: a file system whose operations may fail, and a service manager
  whose operations may fail after having had their effect.  Its history records every
  state the machine passes through, the partly copied file included, so what is proved of
  all of them also holds if the host loses power at any point.
*/
module UpdateSwap {
  import opened Options

  type Path = string
  type Bytes = seq<int>

  const BACKUP_SUFFIX := ".old.exe"

  /** The files, the binary the service is running, and whether it was seen to be ready
      since it was last started. */
  datatype Moment = Moment(files: map<Path, Bytes>, image: Option<Bytes>, ready: bool)

  datatype Outcome =
    | Done
    | IncompleteOps                    // a service operation is missing
    | NotStopped                       // the service did not stop; nothing was changed
    | StaleBackupStuck                 // an older backup could not be removed
    | NotBackedUp(restarted: bool)     // the live binary could not be moved
    | RolledBack(restarted: bool)
    | RollbackFailed

  /** An operation that did not work. */
  datatype Failure = Stopping | Removing(stopped: bool) | Moving | Copying | Starting | Waiting

  /** What each outcome says about the operations that failed, in order: the first decides it.
      Clearing away after a success may fail. */
  predicate Explains(failed: seq<Failure>, r: Outcome) {
    match r
    case Done => |failed| <= 2 && forall i :: 0 <= i < |failed| ==> failed[i] == Removing(false)
    case IncompleteOps => failed == []
    case NotStopped => failed == [Stopping]
    case StaleBackupStuck => failed == [Removing(true)]
    case NotBackedUp(restarted) => failed == if restarted then [Moving] else [Moving, Starting]
    case RolledBack(restarted) =>
      |failed| == (if restarted then 1 else 2) && NotLaunched(failed[0]) && (!restarted ==> failed[1] == Starting)
    case RollbackFailed =>
      |failed| == 2 && NotLaunched(failed[0]) && (failed[1] == Stopping || failed[1] == Removing(true) || failed[1] == Moving)
  }

  predicate Undoes(failed: seq<Failure>, r: Outcome) {
    match r
    case RolledBack(restarted) => failed == if restarted then [] else [Starting]
    case RollbackFailed => failed == [Stopping] || failed == [Removing(true)] || failed == [Moving]
    case _ => false
  }

  lemma UndoneExplains(launch: seq<Failure>, undoing: seq<Failure>, r: Outcome)
    requires |launch| == 1 && NotLaunched(launch[0]) && Undoes(undoing, r)
    ensures Explains(launch + undoing, r)
  {
  }

  predicate NotLaunched(f: Failure) { f == Copying || f == Starting || f == Waiting }

  predicate Holds(m: Moment, path: Path, bytes: Bytes) { path in m.files && m.files[path] == bytes }

  /** The files outside these paths are the same. */
  predicate SameBut(was: map<Path, Bytes>, now: map<Path, Bytes>, paths: set<Path>) {
    forall p :: p in was.Keys + now.Keys && p !in paths ==> p in was && p in now && was[p] == now[p]
  }

  /** The old binary is at the live path or at the backup, or the new one is live and was
      seen to be ready. */
  predicate Recoverable(m: Moment, current: Path, older: Bytes, newer: Option<Bytes>) {
    || Holds(m, current, older) || Holds(m, current + BACKUP_SUFFIX, older)
    || (newer.Some? && Holds(m, current, newer.value) && m.image == newer && m.ready)
  }

  /** All that happened since `past` was recoverable. */
  predicate Kept(past: seq<Moment>, history: seq<Moment>, current: Path, older: Bytes, newer: Option<Bytes>) {
    && past <= history
    && forall i :: |past| <= i < |history| ==> Recoverable(history[i], current, older, newer)
  }

  /** Since `past`, only the file being written has changed. */
  predicate OnlyWrites(past: seq<Moment>, history: seq<Moment>, dst: Path, start: Moment) {
    && past <= history
    && forall i :: |past| <= i < |history| ==>
         SameBut(start.files, history[i].files, {dst}) && history[i].image == start.image
  }

  lemma KeptOn(past: seq<Moment>, history: seq<Moment>, m: Moment, current: Path, older: Bytes, newer: Option<Bytes>)
    requires Kept(past, history, current, older, newer) && Recoverable(m, current, older, newer)
    ensures Kept(past, history + [m], current, older, newer)
  {
  }

  lemma KeptSoFar(past: seq<Moment>, current: Path, older: Option<Bytes>, newer: Option<Bytes>)
    ensures older.Some? ==> Kept(past, past, current, older.value, newer)
  {
  }

  lemma KeptMaybe(past: seq<Moment>, history: seq<Moment>, m: Moment, current: Path, older: Option<Bytes>, newer: Option<Bytes>)
    requires older.Some? ==> Kept(past, history, current, older.value, newer) && Recoverable(m, current, older.value, newer)
    ensures older.Some? ==> Kept(past, history + [m], current, older.value, newer)
  {
  }

  lemma NothingWritten(history: seq<Moment>, dst: Path, start: Moment)
    ensures OnlyWrites(history, history, dst, start)
  {
  }

  lemma WritesOn(past: seq<Moment>, history: seq<Moment>, m: Moment, dst: Path, start: Moment)
    requires OnlyWrites(past, history, dst, start) && SameBut(start.files, m.files, {dst}) && m.image == start.image
    ensures OnlyWrites(past, history + [m], dst, start)
  {
  }

  lemma WritesKeep(past: seq<Moment>, middle: seq<Moment>, history: seq<Moment>, start: Moment, current: Path,
                   older: Bytes, newer: Option<Bytes>)
    requires Kept(past, middle, current, older, newer) && OnlyWrites(middle, history, current, start)
    requires Holds(start, current + BACKUP_SUFFIX, older)
    ensures Kept(past, history, current, older, newer)
  {
    assert current != current + BACKUP_SUFFIX by { assert |current| < |current + BACKUP_SUFFIX|; }
  }

  class Machine {
    var files: map<Path, Bytes>
    var image: Option<Bytes>
    var ready: bool
    const current: Path
    ghost var history: seq<Moment>
    ghost var starts: nat            // how often a start was attempted
    ghost var failed: seq<Failure>

    ghost function Now(): Moment reads this { Moment(files, image, ready) }

    ghost predicate Valid() reads this { history != [] && history[|history| - 1] == Now() }

    function Backup(): Path { current + BACKUP_SUFFIX }

    ghost method Record()
      modifies this`history
      ensures history == old(history) + [Now()] && Valid()
    {
      history := history + [Now()];
    }

    // --------------------------------------------------------------- the service

    /** nil means that the service has stopped; an error says nothing. */
    method StopAndWait() returns (ok: bool)
      requires Valid()
      modifies this`image, this`ready, this`history, this`failed
      ensures ok ==> image.None?
      ensures failed == old(failed) + if ok then [] else [Stopping]
      ensures history == old(history) + [Now()] && Valid()
      ensures !ready
    {
      var stops: bool := *;
      ok := *;
      ready := false;
      if ok || stops { image := None; }
      if !ok { failed := failed + [Stopping]; }
      Record();
    }

    /** A start launches whatever is at the live path; it may also fail having done so. */
    method Start() returns (ok: bool)
      requires Valid()
      modifies this`image, this`ready, this`history, this`starts, this`failed
      ensures failed == old(failed) + if ok then [] else [Starting]
      ensures history == old(history) + [Now()] && Valid() && !ready && starts == old(starts) + 1
      ensures old(image).None? ==> image.None? || (current in files && image == Some(files[current]))
      ensures ok && old(image).None? ==> image.Some?
    {
      ok := *;
      ready := false;
      starts := starts + 1;
      var launches: bool := *;
      if image.None? {
        if current !in files { ok := false; } else if ok || launches { image := Some(files[current]); }
      }
      if !ok { failed := failed + [Starting]; }
      Record();
    }

    /** Poll until the agent answers.  It may crash meanwhile. */
    method WaitReady() returns (ok: bool)
      requires Valid()
      modifies this`image, this`ready, this`history, this`failed
      ensures history == old(history) + [Now()] && Valid()
      ensures failed == old(failed) + if ok then [] else [Waiting]
      ensures image == old(image) || image.None?
      ensures ready == ok && (ok ==> image.Some?)
    {
      var crashes: bool := *;
      ok := *;
      if crashes { image := None; }
      ok := ok && image.Some?;
      ready := ok;
      if !ok { failed := failed + [Waiting]; }
      Record();
    }

    // ------------------------------------------------------------- the file system

    /** The live binary may be touched only while the service is known to be stopped. */
    ghost predicate Free(path: Path) reads this { path == current ==> image.None? }

    /** os.Remove, with a missing file counted as success. */
    method RemoveFile(path: Path) returns (ok: bool)
      requires Valid() && Free(path)
      modifies this`files, this`history, this`failed
      ensures history == old(history) + [Now()] && Valid()
      ensures failed == old(failed) + if ok then [] else [Removing(image.None?)]
      ensures files == (if ok then old(files) - {path} else old(files)) && (!ok ==> path in files)
    {
      ok := *;
      if path !in files { ok := true; }
      if ok { files := files - {path}; } else { failed := failed + [Removing(image.None?)]; }
      Record();
    }

    /** os.Rename. */
    method Rename(from: Path, to: Path) returns (ok: bool)
      requires Valid() && Free(from) && Free(to) && from != to
      modifies this`files, this`history, this`failed
      ensures history == old(history) + [Now()] && Valid()
      ensures failed == old(failed) + if ok then [] else [Moving]
      ensures ok ==> from in old(files) && files == (old(files) - {from})[to := old(files)[from]]
      ensures !ok ==> files == old(files)
    {
      ok := *;
      if from !in files { ok := false; }
      if ok { files := (files - {from})[to := files[from]]; } else { failed := failed + [Moving]; }
      Record();
    }

    /** The file now holds this much. */
    method Write(dst: Path, bytes: Bytes, ghost past: seq<Moment>, ghost start: Moment)
      requires Valid() && Free(dst) && OnlyWrites(past, history, dst, start)
      requires SameBut(start.files, files, {dst}) && image == start.image
      modifies this`files, this`history
      ensures Valid() && OnlyWrites(past, history, dst, start) && files == old(files)[dst := bytes]
    {
      files := files[dst := bytes];
      WritesOn(past, history, Now(), dst, start);
      Record();
    }

    /** copyFileContents: truncate, copy piece by piece, flush and close.  It may fail at
        any point and leave any part of the file behind. */
    method CopyFileContents(src: Path, dst: Path) returns (ok: bool)
      requires Valid() && Free(dst) && src != dst
      modifies this`files, this`history, this`failed
      ensures Valid() && OnlyWrites(old(history), history, dst, old(Now()))
      ensures failed == old(failed) + if ok then [] else [Copying]
      ensures SameBut(old(files), files, {dst})
      ensures ok ==> src in old(files) && Holds(Now(), dst, old(files)[src])
      ensures files == old(files) || (src in old(files) && dst in files && files[dst] <= old(files)[src])
    {
      hide OnlyWrites;
      ghost var start := Now();
      assert OnlyWrites(history, history, dst, start) by { NothingWritten(history, dst, start); }
      ok := *;
      if src !in files || !ok {
        failed := failed + [Copying];
        return false;
      }
      var whole := files[src];
      Write(dst, [], history, start);
      var done := 0;
      while ok && done < |whole|
        invariant 0 <= done <= |whole| && Valid()
        invariant files == old(files)[dst := whole[..done]] && failed == old(failed)
        invariant OnlyWrites(old(history), history, dst, start)
        decreases |whole| - done, ok
      {
        var more: nat :| 1 <= more <= |whole| - done;
        ok := *;
        if ok {
          done := done + more;
          Write(dst, whole[..done], old(history), start);
        }
      }
      var flushed: bool := *;
      ok := ok && flushed;
      if !ok { failed := failed + [Copying]; }
    }

    // -------------------------------------------------------------------- the swap

    /** rollback. */
    method Rollback(ghost past: seq<Moment>, ghost older: Bytes, ghost newer: Option<Bytes>)
      returns (r: Outcome, ghost more: seq<Failure>)
      requires Valid() && Kept(past, history, current, older, newer) && Holds(Now(), Backup(), older)
      modifies this
      ensures Valid() && Kept(past, history, current, older, newer)
      ensures r == RollbackFailed || r.RolledBack?
      ensures r == RollbackFailed ==> Holds(Now(), Backup(), older)
      ensures r.RolledBack? ==> Holds(Now(), current, older) && Backup() !in files
      ensures r == RolledBack(true) ==> image == Some(older)
      ensures SameBut(old(files), files, {current, Backup()})
      ensures r.RolledBack? ==> starts > old(starts)
      ensures failed == old(failed) + more && Undoes(more, r)
      ensures r == RollbackFailed && current in files ==> current in old(files) && files[current] == old(files)[current]
    {
      hide Kept;
      var ok := StopAndWait();
      KeptOn(past, old(history), Now(), current, older, newer);
      if !ok { return RollbackFailed, [Stopping]; }
      ghost var h := history;
      ok := RemoveFile(current);
      KeptOn(past, h, Now(), current, older, newer);
      if !ok { return RollbackFailed, [Removing(true)]; }
      h := history;
      ok := Rename(Backup(), current);
      KeptOn(past, h, Now(), current, older, newer);
      if !ok { return RollbackFailed, [Moving]; }
      h := history;
      ok := Start();
      KeptOn(past, h, Now(), current, older, newer);
      r, more := RolledBack(ok), if ok then [] else [Starting];
    }

    /** The rest, with the live binary in the backup's place. */
    method Install(verified: Path, ghost past: seq<Moment>, ghost older: Bytes)
      returns (r: Outcome, ghost more: seq<Failure>)
      requires Valid() && image.None? && verified != current && verified != Backup()
      requires Holds(Now(), Backup(), older) && current !in files
      requires Kept(past, history, current, older, Staged(verified))
      modifies this
      ensures Valid() && Kept(past, history, current, older, old(Staged(verified)))
      ensures r == Done || r == RollbackFailed || r.RolledBack?
      ensures r == Done ==> verified in old(files) && Holds(Now(), current, old(files)[verified])
      ensures r == Done ==> image == Some(old(files)[verified]) && ready
      ensures r == RollbackFailed ==> Holds(Now(), Backup(), older)
      ensures r.RolledBack? ==> Holds(Now(), current, older) && Backup() !in files
      ensures r == RolledBack(true) ==> image == Some(older)
      ensures r == Done && Backup() in files ==> Holds(Now(), Backup(), older)
      ensures r != Done ==> SameBut(old(files), files, {current, Backup()})
      ensures verified in files ==> verified in old(files) && files[verified] == old(files)[verified]
      ensures SameBut(old(files), files, {current, Backup(), verified})
      ensures r != RollbackFailed ==> starts > old(starts)
      ensures failed == old(failed) + more && Explains(more, r)
      ensures r == Done && more == [] ==> Backup() !in files && verified !in files
      ensures r == RollbackFailed && current in files ==> verified in old(files) && files[current] <= old(files)[verified]
    {
      ghost var newer := Staged(verified);
      hide Kept, OnlyWrites;
      hide Explains;
      var ok, launch := Launch(verified, past, older);
      if !ok {
        r, more := Rollback(past, older, newer);
        UndoneExplains(launch, more, r);
        more := launch + more;
        return;
      }
      more := Tidy(verified, past, older, newer);
      r := Done;
    }

    /** Clear away the backup and the staged file, as far as possible. */
    method Tidy(verified: Path, ghost past: seq<Moment>, ghost older: Bytes, ghost newer: Option<Bytes>)
      returns (ghost more: seq<Failure>)
      requires Valid() && Kept(past, history, current, older, newer) && verified != current && verified != Backup()
      requires newer.Some? && Holds(Now(), current, newer.value) && image == newer && ready
      modifies this`files, this`history, this`failed
      ensures Valid() && Kept(past, history, current, older, newer) && SameBut(old(files), files, {Backup(), verified})
      ensures Backup() in files ==> Backup() in old(files) && files[Backup()] == old(files)[Backup()]
      ensures verified in files ==> verified in old(files) && files[verified] == old(files)[verified]
      ensures failed == old(failed) + more && Explains(more, Done)
      ensures more == [] ==> Backup() !in files && verified !in files
    {
      hide Kept;
      ghost var h := history;
      var ok := RemoveFile(Backup());
      KeptOn(past, h, Now(), current, older, newer);
      more := if ok then [] else [Removing(false)];
      h := history;
      ok := RemoveFile(verified);
      KeptOn(past, h, Now(), current, older, newer);
      more := more + if ok then [] else [Removing(false)];
    }

    /** Steps 3 to 5: copy, start, wait until ready. */
    method Launch(verified: Path, ghost past: seq<Moment>, ghost older: Bytes) returns (ok: bool, ghost more: seq<Failure>)
      requires Valid() && image.None? && verified != current && verified != Backup()
      requires Holds(Now(), Backup(), older) && current !in files
      requires Kept(past, history, current, older, Staged(verified))
      modifies this
      ensures Valid() && Kept(past, history, current, older, old(Staged(verified))) && SameBut(old(files), files, {current})
      ensures current in files ==> verified in old(files) && files[current] <= old(files)[verified]
      ensures ok ==> verified in old(files) && Holds(Now(), current, old(files)[verified])
      ensures ok ==> image == Some(old(files)[verified]) && ready && starts > old(starts)
      ensures starts >= old(starts)
      ensures failed == old(failed) + more && if ok then more == [] else |more| == 1 && NotLaunched(more[0])
    {
      ghost var newer := Staged(verified);
      hide Kept, OnlyWrites;
      ghost var start, h := Now(), history;
      ok := CopyFileContents(verified, current);
      WritesKeep(past, h, history, start, current, older, newer);
      if !ok { return ok, [Copying]; }
      h := history;
      ok := Start();
      KeptOn(past, h, Now(), current, older, newer);
      if !ok { return ok, [Starting]; }
      h := history;
      ok := WaitReady();
      KeptOn(past, h, Now(), current, older, newer);
      more := if ok then [] else [Waiting];
    }

    /** applyVerifiedSwap.  Starting with a live binary, the old one can be found at its own
        path or at the backup at every moment, until the new one is live and was seen to be
        ready; each outcome says where both are. */
    method ApplyVerifiedSwap(verified: Path, opsComplete: bool) returns (r: Outcome, ghost more: seq<Failure>)
      requires Valid() && verified != current && verified != Backup()
      modifies this
      ensures Valid() && SameBut(old(files), files, {current, Backup(), verified})
      ensures current in old(files) ==>
                Kept(old(history), history, current, old(files)[current], old(Staged(verified)))
      ensures r == Done ==> verified in old(files) && Holds(Now(), current, old(files)[verified])
      ensures r == Done ==> image == Some(old(files)[verified]) && ready
      ensures r == Done && Backup() in files ==> current in old(files) && Holds(Now(), Backup(), old(files)[current])
      ensures verified in files ==> verified in old(files) && files[verified] == old(files)[verified]
      ensures r != Done && verified in old(files) ==> Holds(Now(), verified, old(files)[verified])
      ensures r == IncompleteOps ==> history == old(history)
      ensures r == NotStopped ==> files == old(files)
      ensures r == StaleBackupStuck ==> files == old(files) && Backup() in files && image.None?
      ensures r.NotBackedUp? ==> files == old(files) - {Backup()}
      ensures r == NotBackedUp(true) ==> current in old(files) && image == Some(old(files)[current])
      ensures r.RolledBack? ==> current in old(files) && Holds(Now(), current, old(files)[current]) && Backup() !in files
      ensures r == RolledBack(true) ==> image == Some(old(files)[current])
      ensures r == RollbackFailed ==> current in old(files) && Holds(Now(), Backup(), old(files)[current])
      ensures StaysDown(old(starts), old(Live()), old(Staged(verified)), r)
      // The outcome is what the failed operations make of it; without any, it is success.
      ensures failed == old(failed) + more && Explains(more, r)
      ensures r == IncompleteOps <==> !opsComplete
      ensures opsComplete && more == [] ==> r == Done && Backup() !in files && verified !in files
    {
      hide Kept;
      if !opsComplete {
        KeptSoFar(history, current, Live(), Staged(verified));
        return IncompleteOps, [];
      }
      var ok;
      ok, r, more := MoveAside(Staged(verified));
      if ok { r, more := Install(verified, old(history), old(files)[current]); }
    }

    ghost function Live(): Option<Bytes> reads this { if current in files then Some(files[current]) else None }

    ghost function Staged(verified: Path): Option<Bytes> reads this {
      if verified in files then Some(files[verified]) else None
    }

    /** Once the service has stopped, a stale backup that cannot be removed is the only way to
        end with the old binary at its path and no start attempted.  (A binary that is the
        beginning of the new one can also be what a failed copy leaves behind.) */
    ghost predicate StaysDown(starts0: nat, older: Option<Bytes>, newer: Option<Bytes>, r: Outcome) reads this {
      && (r == StaleBackupStuck ==> starts == starts0)
      && (older.Some? && r != IncompleteOps && r != NotStopped && !(newer.Some? && older.value <= newer.value) ==>
            (r == StaleBackupStuck <==> Holds(Now(), current, older.value) && starts == starts0))
    }

    /** Steps 1 and 2: stop the service and move the live binary into the backup's place. */
    method MoveAside(ghost newer: Option<Bytes>) returns (ok: bool, r: Outcome, ghost more: seq<Failure>)
      requires Valid()
      modifies this
      ensures Valid() && (old(Live()).Some? ==> Kept(old(history), history, current, old(Live()).value, newer))
      ensures ok ==> image.None? && current in old(files) && files == (old(files) - {current})[Backup() := old(files)[current]]
      ensures !ok ==> r == NotStopped || r == StaleBackupStuck || r.NotBackedUp?
      ensures !ok && !r.NotBackedUp? ==> files == old(files)
      ensures ok || !r.NotBackedUp? ==> starts == old(starts)
      ensures failed == old(failed) + more && if ok then more == [] else Explains(more, r)
      ensures !ok && r == StaleBackupStuck ==> Backup() in files && image.None?
      ensures !ok && r.NotBackedUp? ==> files == old(files) - {Backup()} && starts > old(starts)
      ensures !ok && r == NotBackedUp(true) ==> current in old(files) && image == Some(old(files)[current])
    {
      hide Kept;
      ghost var older, h := Live(), history;
      KeptSoFar(h, current, older, newer);
      ok := StopAndWait();
      KeptMaybe(old(history), h, Now(), current, older, newer);
      if !ok { return ok, NotStopped, [Stopping]; }
      h := history;
      ok := RemoveFile(Backup());
      KeptMaybe(old(history), h, Now(), current, older, newer);
      if !ok { return ok, StaleBackupStuck, [Removing(true)]; }
      h := history;
      ok := Rename(current, Backup());
      KeptMaybe(old(history), h, Now(), current, older, newer);
      r, more := NotBackedUp(false), [];
      if !ok {
        h := history;
        var started := Start();
        r, more := NotBackedUp(started), if started then [Moving] else [Moving, Starting];
        KeptMaybe(old(history), h, Now(), current, older, newer);
      }
    }
  }

  /** The swap trusts the live binary.  After a failed rollback the good one is at the
      backup; another swap then deletes it, whatever comes of the new binary, once it gets
      past stopping the service and clearing the backup.  (A failed rollback may leave any
      part of the new binary at the live path.) */
  method SwapAfterFailedRollback(m: Machine, verified: Path, good: Bytes) returns (r: Outcome)
    requires m.Valid() && verified != m.current && verified != m.Backup()
    requires Holds(m.Now(), m.Backup(), good)
    requires forall p :: p in m.files && m.files[p] == good ==> p == m.Backup()
    modifies m
    ensures r == NotStopped || r == StaleBackupStuck ==> Holds(m.Now(), m.Backup(), good)
    ensures r == Done || r.RolledBack? || r.NotBackedUp? || r == RollbackFailed ==>
              !Holds(m.Now(), m.Backup(), good) && !Holds(m.Now(), verified, good)
              && (r == RollbackFailed || !Holds(m.Now(), m.current, good))
  {
    ghost var more;
    r, more := m.ApplyVerifiedSwap(verified, true);
  }
}

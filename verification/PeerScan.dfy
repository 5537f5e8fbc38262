/**
  When the peer registry scans (peers.go): host lists and lookups may ask for a scan at
  any moment, one goroutine at a time runs it, and its end and the release of its channel
  are separate steps.
*/
module PeerScan {
  import opened Options

  const SCAN_TTL := 300_000_000_000
  const RESCAN_MIN_INTERVAL := 10_000_000_000
  const LOCAL_ID := "local"

  datatype Event =
    | Started(at: int)    // the scan goroutine was launched
    | Applied(at: int)    // applyScan stored its result and its time
    | Released(at: int)   // the channel was closed and forgotten

  datatype Phase = Idle | Checking | Stored

  function PhaseOf(log: seq<Event>): Phase {
    if log == [] then Idle
    else match log[|log| - 1] case Started(_) => Checking case Applied(_) => Stored case Released(_) => Idle
  }

  /** When the last result was stored. */
  function Result(log: seq<Event>): Option<int> {
    if log == [] then None
    else if log[|log| - 1].Applied? then Some(log[|log| - 1].at)
    else Result(log[..|log| - 1])
  }

  /** Scans never overlap, and one starts only when the last result is older than the
      minimum interval. */
  predicate Follows(log: seq<Event>, e: Event) {
    && (log != [] ==> log[|log| - 1].at <= e.at)
    && match e
       case Started(at) =>
         PhaseOf(log) == Idle && (Result(log).Some? ==> at - Result(log).value > RESCAN_MIN_INTERVAL)
       case Applied(_) => PhaseOf(log) == Checking
       case Released(_) => PhaseOf(log) == Stored
  }

  predicate Disciplined(log: seq<Event>) {
    log == [] || (Disciplined(log[..|log| - 1]) && Follows(log[..|log| - 1], log[|log| - 1]))
  }

  /** Scans begun and not yet released. */
  function Running(log: seq<Event>): int {
    if log == [] then 0
    else
      var e := log[|log| - 1];
      Running(log[..|log| - 1]) + (if e.Started? then 1 else if e.Released? then -1 else 0)
  }

  /** At every moment of a disciplined run at most one scan is under way. */
  lemma {:induction false} AtMostOneScan(log: seq<Event>, k: nat)
    requires Disciplined(log) && k <= |log|
    ensures 0 <= Running(log[..k]) <= 1 && (Running(log[..k]) == 0 <==> PhaseOf(log[..k]) == Idle)
    decreases |log|, k
  {
    if k < |log| {
      AtMostOneScan(log[..|log| - 1], k);
      assert log[..|log| - 1][..k] == log[..k];
    } else if k > 0 {
      AtMostOneScan(log, k - 1);
      assert log[..k][..k - 1] == log[..k - 1] && log[..k] == log;
    }
  }

  function Scans(log: seq<Event>): nat {
    if log == [] then 0 else Scans(log[..|log| - 1]) + (if log[|log| - 1].Started? then 1 else 0)
  }

  /** However often hosts are listed or looked up, n scans after the first take more than n
      minimum intervals. */
  lemma {:induction false} ScansAreSpaced(log: seq<Event>)
    requires Disciplined(log) && log != []
    ensures log[|log| - 1].at - log[0].at >= (Scans(log) - 1) * (RESCAN_MIN_INTERVAL + 1)
    ensures PhaseOf(log) != Checking ==>
              Result(log).Some? && Result(log).value - log[0].at >= (Scans(log) - 1) * (RESCAN_MIN_INTERVAL + 1)
  {
    if |log| == 1 {
      assert log[..0] == [];
    } else {
      ScansAreSpaced(log[..|log| - 1]);
    }
  }

  /** When the scan under way, or the last one, was launched. */
  function LastStart(log: seq<Event>): int {
    if log == [] then 0
    else if log[|log| - 1].Started? then log[|log| - 1].at
    else LastStart(log[..|log| - 1])
  }

  lemma {:induction false} StoredIsFresh(log: seq<Event>)
    requires Disciplined(log) && PhaseOf(log) == Stored
    ensures Result(log).Some? && Result(log).value >= LastStart(log)
  {
    assert PhaseOf(log[..|log| - 1]) == Checking;
  }

  class ScanGate {
    const active: bool
    var scannedAt: Option<int>
    var scan: Option<nat>          // the channel of the scan under way
    var channels: nat              // how many channels have been made; they are numbered from 0
    ghost var log: seq<Event>

    ghost predicate Valid() reads this {
      && Disciplined(log)
      && channels == Scans(log) && scannedAt == Result(log)
      && scan == if PhaseOf(log) == Idle then None else Some(channels - 1)
    }

    /** The clock has not gone back. */
    ghost predicate Now(at: int) reads this { log != [] ==> log[|log| - 1].at <= at }

    /** A scan is due: there was none, or the last result is older than this. */
    predicate Older(now: int, interval: int) reads this {
      scannedAt.None? || now - scannedAt.value > interval
    }

    constructor (active: bool)
      ensures Valid() && log == [] && scannedAt == None && scan == None && this.active == active
    {
      this.active := active;
      scannedAt, scan, channels, log := None, None, 0, [];
    }

    /** Join the scan under way, or start one. */
    method StartScanLocked(now: int) returns (done: nat)
      requires Valid() && Now(now) && Older(now, RESCAN_MIN_INTERVAL)
      modifies this
      ensures Valid() && Now(now) && scannedAt == old(scannedAt) && scan == Some(done)
      ensures if old(scan).Some? then scan == old(scan) && log == old(log)
              else done == old(channels) && log == old(log) + [Started(now)]
    {
      if scan.Some? { return scan.value; }
      done := channels;
      scan, channels := Some(done), channels + 1;
      log := log + [Started(now)];
    }

    /** The state part of Hosts: which scan, if any, the caller waits for.  A first call
        always waits for one; a refresh waits for the one under way or due; any other call
        never waits. */
    method Hosts(now: int, refresh: bool) returns (wait: Option<nat>)
      requires Valid() && Now(now)
      modifies this
      ensures Valid() && scannedAt == old(scannedAt)
      ensures log == old(log) || log == old(log) + [Started(now)]
      ensures log != old(log) <==>
                active && old(scan).None? && old(Older(now, if refresh then RESCAN_MIN_INTERVAL else SCAN_TTL))
      ensures wait == if active && (old(scannedAt).None? || refresh) then scan else None
      ensures active && scannedAt.None? ==> wait.Some?
    {
      if !active { return None; }
      var never := scannedAt.None?;
      var done: Option<nat> := None;
      if never || now - scannedAt.value > SCAN_TTL || (refresh && now - scannedAt.value > RESCAN_MIN_INTERVAL) {
        var d := StartScanLocked(now);
        done := Some(d);
      }
      var waits := never || refresh;
      if waits && done.None? { done := scan; }
      wait := if waits then done else None;
    }

    /** The state part of resolve, up to the wait: a host that is not listed sets off a scan
        at most once an interval, and the caller waits for the one under way. */
    method Resolve(now: int, id: string, listed: bool) returns (found: bool, wait: Option<nat>)
      requires Valid() && Now(now)
      modifies this
      ensures Valid() && scannedAt == old(scannedAt)
      ensures found <==> active && id != "" && id != LOCAL_ID && listed
      ensures log == old(log) || log == old(log) + [Started(now)]
      ensures log != old(log) <==>
                active && id != "" && id != LOCAL_ID && !listed && old(scan).None? && old(Older(now, RESCAN_MIN_INTERVAL))
      ensures wait == if active && id != "" && id != LOCAL_ID && !listed then scan else None
    {
      if !active || id == "" || id == LOCAL_ID { return false, None; }
      if listed { return true, None; }
      found := false;
      if scannedAt.None? || now - scannedAt.value > RESCAN_MIN_INTERVAL {
        var d := StartScanLocked(now);
        wait := Some(d);
      } else {
        wait := scan;
      }
    }

    /** The goroutine's applyScan. */
    method Apply(now: int)
      requires Valid() && Now(now) && PhaseOf(log) == Checking
      modifies this
      ensures Valid() && scan == old(scan) && scannedAt == Some(now) && log == old(log) + [Applied(now)]
    {
      scannedAt := Some(now);
      log := log + [Applied(now)];
    }

    /** The goroutine's end: whoever waited for this channel finds a result no older than
        the scan's start. */
    method Release(now: int)
      requires Valid() && Now(now) && PhaseOf(log) == Stored
      modifies this
      ensures Valid() && scan.None? && scannedAt == old(scannedAt) && log == old(log) + [Released(now)]
      ensures scannedAt.Some? && scannedAt.value >= LastStart(log)
    {
      StoredIsFresh(log);
      scan := None;
      log := log + [Released(now)];
    }
  }
}

/**
  The client of the LibreHardwareMonitor bridge daemon (lhm_bridge_windows.go).

  `Machine` is the operating system: it starts and kills bridge processes, carries
  request and answer lines, and supplies a clock that never runs backwards; any of its
  operations may fail or time out.  Its log is watched by monitors (`Verdict`) that
  remember whether anything forbidden ever happened; the `...Means` lemmas say what each
  monitor rules out over a whole run, and `Daemon.Valid` keeps all of them silent.
*/
module LhmDaemon {
  import opened Options

  // Milliseconds.
  const COLD_READ_TIMEOUT := 25_000
  const WARM_READ_TIMEOUT := 6_000
  const RESTART_BACKOFF := 2_000
  const RESCAN_AGE := 1_800_000
  const DISABLE_FAILURES := 6
  const RESCAN_READS := 240

  datatype Request = Read | Osd | Rescan

  /** A line of the bridge protocol: the i-th answer a process writes is its answer to the
      i-th request written to it, so an answer carries the request it belongs to. */
  datatype Line = Line(pid: nat, serial: nat, request: Request)

  /** The requests written to one process, how many of its answers have been taken from
      the pipe, and whether any of them was ever accepted. */
  datatype Pipe = Pipe(written: seq<Line>, taken: nat, warm: bool)

  datatype Event =
    | StartTried(at: int, pid: nat, started: bool)
    | Wrote(line: Line, deadline: int)
    | Took(pid: nat)
    | Delivered(call: nat, line: Line)
    | Killed(pid: nat)
    | Closed

  /** What must never have happened: two live processes; two starts too close together; a
      request sent while another is unanswered; an answer handed to another call; a
      process given the warm deadline for its first answer or for a rescan; too many plain
      reads without re-enumerating the hardware; a start after Close. */
  datatype Verdict = Verdict(
    crowded: bool, hasty: bool, jammed: bool, stale: bool, rushed: bool, overdue: bool, revived: bool)

  const CLEAN := Verdict(false, false, false, false, false, false, false)

  datatype World = World(
    live: set<nat>, wire: map<nat, Pipe>, serial: nat, lastStart: Option<int>,
    plain: nat, answered: bool, closed: bool, verdict: Verdict)

  const BOOT := World({}, map[], 0, None, 0, false, false, CLEAN)

  function PipeOf(w: World, pid: nat): Pipe { if pid in w.wire then w.wire[pid] else Pipe([], 0, false) }

  predicate Plain(e: Event) { e.Delivered? && e.line.request == Read }

  /** A start or an answered rescan lists the hardware anew. */
  predicate Enumerates(e: Event) {
    (e.StartTried? && e.started) || (e.Delivered? && e.line.request == Rescan)
  }

  function Judge(w: World, e: Event): Verdict {
    var v := w.verdict;
    match e
    case StartTried(at, _, started) =>
      v.(crowded := v.crowded || (started && w.live != {}),
         hasty := v.hasty || (w.lastStart.Some? && at < w.lastStart.value + RESTART_BACKOFF),
         revived := v.revived || w.closed)
    case Wrote(line, deadline) =>
      var pipe := PipeOf(w, line.pid);
      v.(jammed := v.jammed || pipe.taken < |pipe.written|,
         rushed := v.rushed || ((!pipe.warm || line.request == Rescan) && deadline < COLD_READ_TIMEOUT))
    case Delivered(call, line) =>
      v.(stale := v.stale || line.serial != call,
         overdue := v.overdue || (Plain(e) && w.plain >= RESCAN_READS))
    case _ => v
  }

  function Advance(w: World, e: Event): World {
    match e
    case StartTried(at, pid, started) =>
      if started then
        w.(lastStart := Some(at), live := w.live + {pid}, wire := w.wire[pid := Pipe([], 0, false)], plain := 0)
      else
        w.(lastStart := Some(at))
    case Wrote(line, _) =>
      var pipe := PipeOf(w, line.pid);
      w.(wire := w.wire[line.pid := pipe.(written := pipe.written + [line])], serial := w.serial + 1)
    case Took(pid) =>
      var pipe := PipeOf(w, pid);
      w.(wire := w.wire[pid := pipe.(taken := pipe.taken + 1)])
    case Delivered(_, line) =>
      w.(wire := w.wire[line.pid := PipeOf(w, line.pid).(warm := true)], answered := true,
         plain := match line.request case Read => w.plain + 1 case Rescan => 0 case Osd => w.plain)
    case Killed(pid) => w.(live := w.live - {pid})
    case Closed => w.(closed := true)
  }

  function Step(w: World, e: Event): World { Advance(w, e).(verdict := Judge(w, e)) }

  function Replay(es: seq<Event>): World {
    if es == [] then BOOT else Step(Replay(es[..|es| - 1]), es[|es| - 1])
  }

  // -------------------------------------------------- what the monitors rule out

  lemma {:induction false} VerdictsStay(es: seq<Event>, k: nat)
    requires k <= |es| && Replay(es).verdict == CLEAN
    ensures Replay(es[..k]).verdict == CLEAN
  {
    hide Advance;
    if k < |es| {
      VerdictsStay(es[..|es| - 1], k);
      assert es[..|es| - 1][..k] == es[..k];
    } else {
      assert es[..k] == es;
    }
  }

  /** At every instant at most one bridge process is alive. */
  lemma {:induction false} CrowdedMeans(es: seq<Event>, k: nat)
    requires k <= |es| && Replay(es).verdict == CLEAN
    ensures |Replay(es[..k]).live| <= 1
  {
    hide Advance, Judge;
    VerdictsStay(es, k);
    if k > 0 {
      CrowdedMeans(es, k - 1);
      assert es[..k][..k - 1] == es[..k - 1];
      CrowdedStep(Replay(es[..k - 1]), es[k - 1]);
    }
  }

  lemma CrowdedStep(w: World, e: Event)
    requires |w.live| <= 1 && Judge(w, e) == CLEAN
    ensures |Step(w, e).live| <= 1
  {
    if e.StartTried? && e.started { assert w.live == {}; }
    if e.Killed? { Shrinks(w.live, e.pid); }
  }

  lemma Shrinks(s: set<nat>, x: nat)
    ensures |s - {x}| <= |s|
  {
    if x in s { assert s == (s - {x}) + {x}; } else { assert s - {x} == s; }
  }

  /** At every instant each process has at most one unanswered request. */
  lemma {:induction false} JammedMeans(es: seq<Event>, k: nat, pid: nat)
    requires k <= |es| && Replay(es).verdict == CLEAN
    ensures |PipeOf(Replay(es[..k]), pid).written| <= PipeOf(Replay(es[..k]), pid).taken + 1
  {
    hide Advance;
    hide Judge;
    VerdictsStay(es, k);
    if k > 0 {
      JammedMeans(es, k - 1, pid);
      assert es[..k][..k - 1] == es[..k - 1];
      JammedStep(Replay(es[..k - 1]), es[k - 1], pid);
    }
  }

  lemma JammedStep(w: World, e: Event, pid: nat)
    requires |PipeOf(w, pid).written| <= PipeOf(w, pid).taken + 1
    requires Judge(w, e) == CLEAN
    ensures |PipeOf(Step(w, e), pid).written| <= PipeOf(Step(w, e), pid).taken + 1
  {
    var other := match e case Wrote(line, _) => line.pid case Took(p) => p case Delivered(_, line) => line.pid
                         case StartTried(_, p, _) => p case _ => pid;
    if other != pid { assert PipeOf(Step(w, e), pid) == PipeOf(w, pid); }
  }

  /** Any two start attempts are at least the restart backoff apart. */
  lemma {:induction false} HastyMeans(es: seq<Event>, i: nat, j: nat)
    requires i < j < |es| && Replay(es).verdict == CLEAN && es[i].StartTried? && es[j].StartTried?
    ensures es[j].at >= es[i].at + RESTART_BACKOFF
  {
    VerdictsStay(es, j + 1);
    assert es[..j + 1][..j] == es[..j];
    LastStartAtLeast(es, i, j);
  }

  lemma {:induction false} LastStartAtLeast(es: seq<Event>, i: nat, j: nat)
    requires i < j < |es| && Replay(es).verdict == CLEAN && es[i].StartTried?
    ensures Replay(es[..j]).lastStart.Some? && Replay(es[..j]).lastStart.value >= es[i].at
  {
    assert es[..j][..j - 1] == es[..j - 1];
    VerdictsStay(es, j);
    if i < j - 1 { LastStartAtLeast(es, i, j - 1); }
  }

  function PlainReads(es: seq<Event>): nat {
    if es == [] then 0 else PlainReads(es[..|es| - 1]) + if Plain(es[|es| - 1]) then 1 else 0
  }

  /** However other reads interleave, at most RESCAN_READS plain full reads are answered
      between two enumerations of the hardware. */
  lemma OverdueMeans(es: seq<Event>, i: nat, j: nat)
    requires i <= j <= |es| && Replay(es).verdict == CLEAN
    requires forall k :: i <= k < j ==> !Enumerates(es[k])
    ensures PlainReads(es[i..j]) <= RESCAN_READS
  {
    PlainReadsCounted(es, i, j);
    PlainBounded(es, j);
  }

  lemma {:induction false} PlainReadsCounted(es: seq<Event>, i: nat, j: nat)
    requires i <= j <= |es| && forall k :: i <= k < j ==> !Enumerates(es[k])
    ensures PlainReads(es[i..j]) <= Replay(es[..j]).plain
  {
    hide Judge;
    if i < j {
      PlainReadsCounted(es, i, j - 1);
      assert es[i..j][..j - 1 - i] == es[i..j - 1];
      assert es[..j][..j - 1] == es[..j - 1];
    }
  }

  lemma {:induction false} PlainBounded(es: seq<Event>, j: nat)
    requires j <= |es| && Replay(es).verdict == CLEAN
    ensures Replay(es[..j]).plain <= RESCAN_READS
  {
    if j > 0 {
      PlainBounded(es, j - 1);
      VerdictsStay(es, j);
      assert es[..j][..j - 1] == es[..j - 1];
    }
  }

  /** Every delivered answer belongs to the call it was delivered to, and no start follows
      a Close. */
  lemma {:induction false} StaleMeans(es: seq<Event>, i: nat)
    requires i < |es| && Replay(es).verdict == CLEAN
    ensures es[i].Delivered? ==> es[i].line.serial == es[i].call
    ensures es[i].StartTried? ==> forall k :: 0 <= k < i ==> es[k] != Closed
  {
    VerdictsStay(es, i + 1);
    assert es[..i + 1][..i] == es[..i];
    if es[i].StartTried? {
      forall k | 0 <= k < i ensures es[k] != Closed {
        if es[k] == Closed { ClosedStays(es, k, i); }
      }
    }
  }

  lemma {:induction false} ClosedStays(es: seq<Event>, k: nat, i: nat)
    requires k < i <= |es| && es[k] == Closed
    ensures Replay(es[..i]).closed
  {
    assert es[..i][..i - 1] == es[..i - 1];
    if k < i - 1 { ClosedStays(es, k, i - 1); }
  }

  // ------------------------------------------------------------ the operating system

  datatype Outcome = Answer(line: Line) | TimedOut | Cancelled | Eof

  class Machine {
    var clock: int
    var now: World
    ghost var log: seq<Event>
    ghost var faults: nat        // operations that did not do what they were asked

    ghost predicate Valid() reads this {
      && Replay(log) == now
      && (forall pid :: pid in now.live ==> pid in now.wire)
      && (now.lastStart.Some? ==> now.lastStart.value <= clock)
    }

    constructor ()
      ensures Valid() && log == [] && now == BOOT
    {
      log, now, faults := [], BOOT, 0;
    }

    /** An operation of the system works, or does not. */
    method Works() returns (ok: bool)
      modifies this`faults
      ensures faults == old(faults) + if ok then 0 else 1
    {
      ok := *;
      if !ok { faults := faults + 1; }
    }

    method Log(e: Event)
      requires Replay(log) == now
      modifies this`log, this`now
      ensures Replay(log) == now && log == old(log) + [e] && now == Step(old(now), e)
    {
      assert (log + [e])[..|log|] == log;
      log := log + [e];
      now := Step(now, e);
    }

    /** time.Now(): never runs backwards. */
    method Clock() returns (t: int)
      modifies this`clock
      ensures t == clock >= old(clock)
    {
      var elapsed: int :| elapsed >= 0;
      clock := clock + elapsed;
      t := clock;
    }

    /** Start a bridge process, or fail to. */
    method Start() returns (pid: nat, ok: bool)
      requires Valid()
      modifies this
      ensures Valid() && clock >= old(clock) && faults == old(faults) + if ok then 0 else 1
      ensures exists at :: old(clock) <= at <= clock
                && log == old(log) + [StartTried(at, pid, ok)] && now == Step(old(now), StartTried(at, pid, ok))
    {
      hide Replay;
      ok := Works();
      pid := *;
      var at := Clock();
      Log(StartTried(at, pid, ok));
      var _ := Clock();
    }

    /** Kill closes the pipe and waits until the process is gone. */
    method Kill(pid: nat)
      requires Valid()
      modifies this
      ensures Valid() && clock >= old(clock) && faults == old(faults)
      ensures log == old(log) + [Killed(pid)] && now == Step(old(now), Killed(pid))
    {
      hide Replay;
      Log(Killed(pid));
      var _ := Clock();
    }

    /** Write one request line; the call is identified by the serial number it used. */
    method Write(pid: nat, request: Request, deadline: int) returns (ok: bool, line: Line)
      requires Valid() && pid in now.live
      modifies this`log, this`now, this`faults
      ensures Valid() && line == Line(pid, old(now).serial, request) && faults == old(faults) + if ok then 0 else 1
      ensures log == old(log) + [Wrote(line, deadline)] && now == Step(old(now), Wrote(line, deadline))
    {
      hide Replay;
      ok := Works();
      line := Line(pid, now.serial, request);
      Log(Wrote(line, deadline));
    }

    /** Wait for the next line of the process: an answer to its oldest unanswered request.
        On a timeout or a cancelled context the abandoned reader may still swallow one. */
    method ReadLine(pid: nat) returns (r: Outcome)
      requires Valid() && pid in now.live && |now.wire[pid].written| > now.wire[pid].taken
      modifies this
      ensures Valid() && clock >= old(clock) && faults == old(faults) + if r.Answer? then 0 else 1
      ensures r.Answer? ==> r.line == old(now).wire[pid].written[old(now).wire[pid].taken]
      ensures || (log == old(log) + [Took(pid)] && now == Step(old(now), Took(pid)))
              || (!r.Answer? && log == old(log) && now == old(now))
    {
      hide Replay;
      var _ := Clock();
      var swallowed: bool := *;
      var arrives := Works();
      if arrives {
        r := Answer(now.wire[pid].written[now.wire[pid].taken]);
        Log(Took(pid));
        return;
      }
      if swallowed { Log(Took(pid)); }
      r := *;
      if r.Answer? { r := TimedOut; }
    }
  }

  // ------------------------------------------------------------------- the client

  datatype Reply =
    | Result(line: Line)
    | Disabled
    | Backoff
    | NoScript
    | NotStarted
    | Failed

  class Daemon {
    const machine: Machine
    var resolved: bool            // the daemon script could be located
    var pid: Option<nat>          // stdin, stdout and kill of the running process
    var alive: bool
    var disabled: bool
    var coldRead: bool
    var everSucceeded: bool
    var readCount: nat
    var scannedAt: int
    var rescanDue: bool
    var consecFailures: nat
    var nextRestartAt: Option<int>

    ghost predicate Valid() reads this, machine {
      var now := machine.now;
      && machine.Valid() && now.verdict == CLEAN
      && now.live == (if pid.Some? then {pid.value} else {})
      && alive == pid.Some?
      // Before Close only a daemon that never worked is disabled; disabled, it is not alive.
      && (disabled ==> !alive)
      && (now.closed ==> disabled)
      && everSucceeded == now.answered
      && (everSucceeded || alive ==> resolved)
      && (disabled ==> now.closed || !resolved || (!everSucceeded && consecFailures >= DISABLE_FAILURES))
      && (!disabled && !everSucceeded ==> consecFailures < DISABLE_FAILURES)
      // Between calls no request is outstanding.
      && (alive ==> var pipe := now.wire[pid.value]; pipe.taken == |pipe.written| && (coldRead <==> !pipe.warm))
      // The next start waits for the backoff.
      && (!alive && !disabled && now.lastStart.Some? ==>
            nextRestartAt.Some? && nextRestartAt.value >= now.lastStart.value + RESTART_BACKOFF)
      && (alive ==> readCount == now.plain <= RESCAN_READS && (readCount == RESCAN_READS ==> rescanDue))
    }

    constructor (machine: Machine)
      requires machine.Valid() && machine.now == BOOT
      ensures Valid() && this.machine == machine && !disabled && !alive
    {
      this.machine := machine;
      resolved, pid, alive, disabled := false, None, false, false;
      coldRead, everSucceeded, readCount, scannedAt := false, false, 0, 0;
      rescanDue, consecFailures, nextRestartAt := false, 0, None;
    }

    method Teardown()
      requires machine.Valid() && alive == pid.Some?
      modifies this, machine
      ensures machine.Valid() && !alive && pid == None && machine.clock >= old(machine.clock)
      ensures old(machine.log) <= machine.log && machine.faults == old(machine.faults)
      ensures machine.now == if old(alive) then Step(old(machine.now), Killed(old(pid).value)) else old(machine.now)
      ensures unchanged(`resolved, `disabled, `coldRead, `everSucceeded, `readCount, `scannedAt, `rescanDue,
                `consecFailures, `nextRestartAt)
    {
      hide Replay;
      alive := false;
      if pid.Some? { machine.Kill(pid.value); }
      pid := None;
    }

    method RecordFailure()
      modifies this`consecFailures, this`disabled
      ensures consecFailures == old(consecFailures) + 1
      ensures disabled == (old(disabled) || (!everSucceeded && consecFailures >= DISABLE_FAILURES))
    {
      consecFailures := consecFailures + 1;
      if !everSucceeded && consecFailures >= DISABLE_FAILURES { disabled := true; }
    }

    /** What a failure leaves behind: one more in the streak, and a backoff from now on. */
    ghost predicate BacksOff(failures: nat) reads this, machine {
      consecFailures == failures && nextRestartAt == Some(machine.clock + RESTART_BACKOFF)
    }

    /** A fresh process: cold, and its start counts as an enumeration. */
    ghost predicate Fresh() reads this, machine {
      alive && coldRead && readCount == 0 && !rescanDue && scannedAt == machine.clock
    }

    /** It answers `Backoff` only while the clock is short of the backoff, and otherwise tries
        to start a process that is not there. */
    method EnsureAlive() returns (r: Reply)
      requires Valid() && !disabled
      modifies this, machine
      ensures Valid() && old(machine.log) <= machine.log && machine.clock >= old(machine.clock)
      ensures alive <==> !r.Backoff? && !r.NoScript? && !r.NotStarted?
      ensures alive ==> !disabled && consecFailures == old(consecFailures) && everSucceeded == old(everSucceeded)
      ensures alive ==> nextRestartAt == old(nextRestartAt) && machine.faults == old(machine.faults)
      ensures old(alive) ==> alive && machine.log == old(machine.log) && unchanged(this)
      ensures r.Backoff? ==>
                && !old(alive) && old(nextRestartAt).Some? && machine.clock < old(nextRestartAt).value
                && machine.log == old(machine.log) && unchanged(this)
      ensures r.NoScript? ==> !old(alive) && !old(resolved) && disabled && machine.log == old(machine.log)
      ensures !old(alive) && (alive || r.NotStarted?) ==> Tries(old(machine.log), old(machine.clock), alive)
      ensures !old(alive) && alive ==> Fresh()
      ensures r.NotStarted? ==> BacksOff(old(consecFailures) + 1) && everSucceeded == old(everSucceeded)
      ensures r.NotStarted? || r.NoScript? ==> machine.faults > old(machine.faults)
    {
      hide Replay;
      r := Failed;
      if alive { return; }
      if nextRestartAt.Some? {
        var t := machine.Clock();
        if t < nextRestartAt.value { return Backoff; }
      }
      if !resolved {
        resolved := machine.Works();
        if !resolved {
          disabled := true;
          return NoScript;
        }
      }
      r := StartLocked();
    }

    /** Exactly one start was tried since then, and it went this way. */
    ghost predicate Tries(was: seq<Event>, clock: int, started: bool) reads machine {
      && |machine.log| == |was| + 1 && was == machine.log[..|was|]
      && machine.log[|was|].StartTried? && machine.log[|was|].at >= clock && machine.log[|was|].started == started
    }

    method StartLocked() returns (r: Reply)
      requires Valid() && !alive && !disabled && resolved
      requires nextRestartAt.Some? ==> machine.clock >= nextRestartAt.value
      modifies this, machine
      ensures Valid() && old(machine.log) <= machine.log && machine.clock >= old(machine.clock)
      ensures alive <==> !r.NotStarted?
      ensures !r.Backoff? && !r.NoScript?
      ensures Tries(old(machine.log), old(machine.clock), alive) && everSucceeded == old(everSucceeded)
      ensures alive ==> !disabled && Fresh() && consecFailures == old(consecFailures)
      ensures alive ==> nextRestartAt == old(nextRestartAt) && machine.faults == old(machine.faults)
      ensures !alive ==> BacksOff(old(consecFailures) + 1) && machine.faults > old(machine.faults)
    {
      hide Replay;
      var started, ok := machine.Start();
      if !ok {
        RecordFailure();
        var t := machine.Clock();
        nextRestartAt := Some(t + RESTART_BACKOFF);
        return NotStarted;
      }
      r := Failed;
      pid, alive, coldRead := Some(started), true, true;
      scannedAt := machine.Clock();
      readCount, rescanDue := 0, false;
    }

    /** Write one request and take the line that comes back, within the deadline. */
    method RequestLocked(deadline: int, request: Request) returns (r: Option<Line>)
      requires machine.Valid() && pid.Some? && pid.value in machine.now.live
      requires var pipe := machine.now.wire[pid.value]; pipe.taken == |pipe.written|
      modifies machine
      ensures machine.Valid() && machine.clock >= old(machine.clock)
      ensures r.None? <==> machine.faults > old(machine.faults)
      ensures r.Some? ==>
                && r.value == Line(pid.value, old(machine.now).serial, request)
                && machine.log == old(machine.log) + [Wrote(r.value, deadline), Took(pid.value)]
                && machine.now == Step(Step(old(machine.now), Wrote(r.value, deadline)), Took(pid.value))
      ensures r.None? ==>
                && old(machine.log) < machine.log
                && machine.log[|old(machine.log)|] == Wrote(Line(pid.value, old(machine.now).serial, request), deadline)
                && machine.now == Step(old(machine.now), Wrote(Line(pid.value, old(machine.now).serial, request), deadline))
                                  .(wire := machine.now.wire)
    {
      hide Replay;
      var ok, line := machine.Write(pid.value, request, deadline);
      if !ok { return None; }
      var answer := machine.ReadLine(pid.value);
      if !answer.Answer? { return None; }
      var parses := machine.Works();
      r := if parses then Some(answer.line) else None;
    }

    method HandleFailure()
      requires machine.Valid() && alive == pid.Some?
      modifies this, machine
      ensures machine.Valid() && !alive && pid == None && old(machine.log) <= machine.log
      ensures machine.clock >= old(machine.clock) && machine.faults == old(machine.faults)
      ensures machine.now == if old(alive) then Step(old(machine.now), Killed(old(pid).value)) else old(machine.now)
      ensures BacksOff(old(consecFailures) + 1)
      ensures disabled == (old(disabled) || (!everSucceeded && consecFailures >= DISABLE_FAILURES))
      ensures unchanged(`resolved, `coldRead, `everSucceeded, `readCount, `scannedAt, `rescanDue)
    {
      hide Replay;
      Teardown();
      RecordFailure();
      var t := machine.Clock();
      nextRestartAt := Some(t + RESTART_BACKOFF);
    }

    /** When the hardware is listed anew: after that many plain reads, or that long. */
    ghost predicate Counts(request: Request, count: nat, due: bool, at: int) reads this, machine {
      match request
      case Osd => readCount == count && rescanDue == due && scannedAt == at
      case Rescan => readCount == 0 && !rescanDue && scannedAt == machine.clock
      case Read =>
        && readCount == count + 1 && scannedAt == at
        && (rescanDue <==> due || readCount >= RESCAN_READS || machine.clock - scannedAt >= RESCAN_AGE)
    }

    method HandleSuccess(request: Request)
      modifies this, machine`clock
      ensures everSucceeded && consecFailures == 0 && !coldRead && machine.clock >= old(machine.clock)
      ensures Counts(request, old(readCount), old(rescanDue), old(scannedAt))
      ensures unchanged(`resolved, `pid, `alive, `disabled, `nextRestartAt)
    {
      everSucceeded, consecFailures, coldRead := true, 0, false;
      match request
      case Osd =>
      case Rescan =>
        readCount := 0;
        scannedAt := machine.Clock();
        rescanDue := false;
      case Read =>
        readCount := readCount + 1;
        var t := machine.Clock();
        if readCount >= RESCAN_READS || t - scannedAt >= RESCAN_AGE { rescanDue := true; }
    }

    /** One read of the bridge.  A result is the answer to the very request this call
        wrote; every failure leaves no process and no request behind; and only a failed
        operation or an unexpired backoff keeps a daemon that is not disabled from a result. */
    method ReadRequest(request: Request) returns (r: Reply)
      requires Valid()
      modifies this, machine
      ensures Valid() && old(machine.log) <= machine.log
      ensures old(disabled) <==> r == Disabled
      ensures old(disabled) ==> disabled && machine.log == old(machine.log)
      // A process that was there is asked at once, a fresh one after its start.
      ensures r.Result? || r.Failed? ==>
                if old(alive) then Asked(|old(machine.log)|, Sent(request, old(rescanDue)), old(coldRead))
                else Asked(|old(machine.log)| + 1, request, true)
      ensures r.Result? ==> Answers(|old(machine.log)| + (if old(alive) then 0 else 1), r.line) && !disabled && consecFailures == 0
      ensures r.Result? && old(alive) ==> Counts(r.line.request, old(readCount), old(rescanDue), old(scannedAt))
      ensures r.Failed? ==> machine.now.live == {} && machine.faults > old(machine.faults)
      ensures r.Failed? || r.NotStarted? ==> BacksOff(old(consecFailures) + 1)
      ensures r.Backoff? ==>
                && !old(alive) && old(nextRestartAt).Some? && machine.clock < old(nextRestartAt).value
                && machine.log == old(machine.log) && unchanged(this)
      ensures r.NoScript? ==> !old(alive) && !old(resolved) && disabled && machine.log == old(machine.log)
      ensures !old(alive) && (r.Result? || r.Failed? || r.NotStarted?) ==>
                |machine.log| > |old(machine.log)| && machine.log[|old(machine.log)|].StartTried?
      ensures machine.faults == old(machine.faults) && !old(disabled) ==> r.Result? || r.Backoff?
    {
      hide Replay;
      if disabled { return Disabled; }
      r := EnsureAlive();
      if !alive { return; }
      r := Ask(request);
    }

    function Sent(request: Request, due: bool): Request { if request == Read && due then Rescan else request }

    function Patience(cold: bool, sent: Request): int {
      if cold || sent == Rescan then COLD_READ_TIMEOUT else WARM_READ_TIMEOUT
    }

    /** The n-th event is this request, written with the patience it is due. */
    ghost predicate Asked(n: nat, sent: Request, cold: bool) reads machine {
      && n < |machine.log| && machine.log[n].Wrote?
      && machine.log[n].line.request == sent && machine.log[n].deadline == Patience(cold, sent)
    }

    /** ... and the log ends with the answer to it. */
    ghost predicate Answers(n: nat, line: Line) reads machine {
      && |machine.log| == n + 3 && machine.log[n].Wrote? && machine.log[n].line == line
      && machine.log[n + 2] == Delivered(line.serial, line)
    }

    /** The rest of a read, with a process. */
    method Ask(request: Request) returns (r: Reply)
      requires Valid() && alive
      modifies this, machine
      ensures Valid() && old(machine.log) <= machine.log && (r.Result? || r.Failed?)
      ensures Asked(|old(machine.log)|, Sent(request, old(rescanDue)), old(coldRead))
      ensures r.Result? ==>
                && Answers(|old(machine.log)|, r.line) && !disabled && consecFailures == 0
                && Counts(r.line.request, old(readCount), old(rescanDue), old(scannedAt))
      ensures r.Failed? ==> machine.now.live == {} && BacksOff(old(consecFailures) + 1)
      ensures r.Failed? <==> machine.faults > old(machine.faults)
    {
      hide Replay;
      var sent := if request == Read && rescanDue then Rescan else request;
      var deadline := if coldRead || sent == Rescan then COLD_READ_TIMEOUT else WARM_READ_TIMEOUT;
      var serial := machine.now.serial;
      var answer := RequestLocked(deadline, sent);
      if answer.None? {
        HandleFailure();
        return Failed;
      }
      Accept(serial, answer.value);
      r := Result(answer.value);
    }

    /** Hand the answer that was just read to the call that wrote its request. */
    method Accept(serial: nat, line: Line)
      requires Valid() && alive && line.serial == serial && line.pid == pid.value
      requires |machine.log| >= 2 && machine.log[|machine.log| - 2].Wrote? && machine.log[|machine.log| - 2].line == line
      requires line.request == Read ==> !rescanDue
      modifies this, machine
      ensures Valid() && machine.log == old(machine.log) + [Delivered(serial, line)] && !disabled
      ensures Counts(line.request, old(readCount), old(rescanDue), old(scannedAt)) && consecFailures == 0
      ensures machine.faults == old(machine.faults)
    {
      hide Replay;
      machine.Log(Delivered(serial, line));
      HandleSuccess(line.request);
    }

    /** Shut down for good. */
    method Close()
      requires Valid()
      modifies this, machine
      ensures Valid() && disabled && !alive && machine.now.live == {} && machine.now.closed
      ensures old(machine.log) <= machine.log
    {
      hide Replay;
      disabled := true;
      machine.Log(Closed);
      Teardown();
    }
  }
}

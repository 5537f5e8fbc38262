/**
  How the sampler's lanes merge into one snapshot (sampler.go, with the field ownership of
  collector_linux.go and collector_windows_fast.go).  A lane patches the working snapshot under the lock,
  copies it, and stores its copy in a second critical section; other lanes may run in
  between.
*/
module Lanes {
  import opened Options

  datatype Lane = Fast | Slow | Device

  datatype Field =
    | Cpu | CpuCores | Memory | MemorySwap
    | PlatformName | MemoryCommit | Pressure | CpuName | MemoryName | MemorySpeed | CpuPower | CpuPowerRails | CpuClocks
    | CpuTemperature | CpuTemperatureSensor | PsuOutputPower | Disks | Storage | Network | Tailscale | Temperatures
    | Gpu | Processes
    | DeviceActivity

  datatype Platform = Linux | Windows

  /** The lane whose patches assign the field. */
  function Owner(os: Platform, f: Field): Lane {
    match f
    case Cpu | CpuCores | Memory => Fast
    case MemorySwap => if os.Linux? then Fast else Slow
    case MemoryCommit | Pressure => if os.Windows? then Fast else Slow
    case DeviceActivity => Device
    case _ => Slow
  }

  /** The slow fields that the patch after a panic of the slow collector leaves alone. */
  predicate Kept(os: Platform, f: Field) {
    f.PlatformName? || f.CpuName? || f.MemoryName? || f.MemorySpeed? || (f.MemoryCommit? && os.Linux?)
  }

  type Reading = int

  /** One pass of a lane: the readings its patch writes, whether it is the patch of a slow
      collector that panicked, and when it took the lock. */
  datatype Pass = Pass(lane: Lane, degraded: bool, at: int, readings: map<Field, Reading>)

  /** The patch closures assign every field of their lane and no other; the one after a
      panic, which only the slow lane abridges, leaves some out. */
  predicate OwnFields(os: Platform, p: Pass) {
    && (p.degraded ==> p.lane == Slow)
    && forall f: Field :: f in p.readings <==> Owner(os, f) == p.lane && !(p.degraded && Kept(os, f))
  }

  datatype Snapshot = Snapshot(timestamp: int, fields: map<Field, Reading>)

  /** The working snapshot after these passes, in the order they took the lock. */
  function Merged(initial: Snapshot, log: seq<Pass>): Snapshot {
    if log == [] then initial
    else
      var p := log[|log| - 1];
      Snapshot(p.at, Merged(initial, log[..|log| - 1]).fields + p.readings)
  }

  /** The last pass of a lane, or the last one whose collector did not panic. */
  function LastOf(log: seq<Pass>, lane: Lane, whole: bool): (r: Option<nat>)
    ensures r.Some? ==> r.value < |log| && log[r.value].lane == lane && !(whole && log[r.value].degraded)
  {
    if log == [] then None
    else if log[|log| - 1].lane == lane && !(whole && log[|log| - 1].degraded) then Some(|log| - 1)
    else LastOf(log[..|log| - 1], lane, whole)
  }

  lemma {:induction false} LastIsLast(log: seq<Pass>, lane: Lane, whole: bool, i: nat)
    requires i < |log| && log[i].lane == lane && !(whole && log[i].degraded)
    ensures LastOf(log, lane, whole).Some? && i <= LastOf(log, lane, whole).value
  {
    if i < |log| - 1 { LastIsLast(log[..|log| - 1], lane, whole, i); }
  }

  predicate AllOwn(os: Platform, log: seq<Pass>) { forall i :: 0 <= i < |log| ==> OwnFields(os, log[i]) }

  /** The pass a field's reading comes from. */
  function Source(os: Platform, log: seq<Pass>, f: Field): Option<nat> { LastOf(log, Owner(os, f), Kept(os, f)) }

  /** A field comes from the last pass of its own lane that set it, whatever other passes
      lie between. */
  lemma {:induction false} FromOnePass(os: Platform, initial: Snapshot, log: seq<Pass>, f: Field)
    requires AllOwn(os, log) && f in initial.fields
    ensures Source(os, log, f).Some? ==> f in log[Source(os, log, f).value].readings
    ensures var from := Source(os, log, f);
      f in Merged(initial, log).fields
      && Merged(initial, log).fields[f] == if from.None? then initial.fields[f] else log[from.value].readings[f]
  {
    if log != [] {
      assert OwnFields(os, log[|log| - 1]);
      FromOnePass(os, initial, log[..|log| - 1], f);
    }
  }

  /** All the fields of a lane come from one and the same pass. */
  predicate Untorn(os: Platform, log: seq<Pass>, lane: Lane) {
    forall f, g :: Owner(os, f) == lane && Owner(os, g) == lane ==> Source(os, log, f) == Source(os, log, g)
  }

  /** No torn lanes, exactly as long as the lane's last pass did not panic: after a panic
      the names and the platform are an older pass's. */
  lemma UntornIff(os: Platform, log: seq<Pass>, lane: Lane)
    requires AllOwn(os, log)
    ensures Untorn(os, log, lane) <==>
              LastOf(log, lane, false).None? || !log[LastOf(log, lane, false).value].degraded
  {
    SameUnlessDegraded(log, lane);
    var last := LastOf(log, lane, false);
    if last.Some? && log[last.value].degraded {
      assert OwnFields(os, log[last.value]);
      assert Source(os, log, CpuName) != Source(os, log, Gpu);
    }
  }

  lemma {:induction false} SameUnlessDegraded(log: seq<Pass>, lane: Lane)
    ensures var last := LastOf(log, lane, false);
      LastOf(log, lane, true) == last <==> last.None? || !log[last.value].degraded
  {
    if log != [] {
      assert LastOf(log[..|log| - 1], lane, true) != Some(|log| - 1);
      SameUnlessDegraded(log[..|log| - 1], lane);
    }
  }

  /** This snapshot is the initial one with the first k passes. */
  predicate IsPrefix(initial: Snapshot, log: seq<Pass>, k: nat, s: Snapshot) {
    k <= |log| && s == Merged(initial, log[..k])
  }

  predicate Sorted(s: seq<nat>) { forall i, j :: 0 <= i < j < |s| ==> s[i] <= s[j] }

  class Sampler {
    const os: Platform
    const initial: Snapshot
    const slowEvery: int
    var working: Snapshot
    var lastSlowAt: Option<int>
    var snapshot: Option<Snapshot>
    var copies: map<Lane, Snapshot>   // what each lane's goroutine carries between its two critical sections
    ghost var log: seq<Pass>          // passes, in the order they took the lock
    ghost var from: map<Lane, nat>    // how many passes each copy contains
    ghost var published: seq<Snapshot>
    ghost var shown: seq<nat>         // how many passes each published snapshot contains

    /** Every snapshot ever published is the initial one with some prefix of the passes. */
    ghost predicate Valid() reads this {
      && AllOwn(os, log) && working == Merged(initial, log)
      && (forall l :: l in copies ==> l in from && IsPrefix(initial, log, from[l], copies[l]))
      && |published| == |shown|
      && (forall i :: 0 <= i < |shown| ==> IsPrefix(initial, log, shown[i], published[i]))
      && snapshot == (if published == [] then None else Some(published[|published| - 1]))
      && lastSlowAt == var last := LastOf(log, Slow, false); if last.None? then None else Some(log[last.value].at)
    }

    constructor (os: Platform, initial: Snapshot, slowEvery: int)
      ensures Valid() && this.os == os && this.initial == initial && this.slowEvery == slowEvery
      ensures log == [] && published == [] && shown == [] && copies == map[]
    {
      this.os, this.initial, this.slowEvery := os, initial, slowEvery;
      working, lastSlowAt, snapshot, copies := initial, None, None, map[];
      log, from, published, shown := [], map[], [], [];
    }

    function SlowFreshWindow(): int { 2 * slowEvery + 5_000 }

    /** First critical section of applyLaneAndPublish.  History takes the slow fields of the
        copy for current exactly when the slow pass they come from took the lock within the
        window. */
    method Patch(p: Pass) returns (slowFresh: bool)
      requires Valid() && OwnFields(os, p) && p.lane !in copies
      modifies this
      ensures Valid() && log == old(log) + [p] && snapshot == old(snapshot) && published == old(published) && shown == old(shown)
      ensures copies == old(copies)[p.lane := working] && from == old(from)[p.lane := |log|] && working.timestamp == p.at
      ensures slowFresh <==> var last := LastOf(log, Slow, false); last.Some? && p.at - log[last.value].at <= 2 * slowEvery + 5_000
    {
      hide Merged, LastOf, OwnFields, IsPrefix;
      Appended(os, initial, log, p);
      working := Snapshot(p.at, working.fields + p.readings);
      if p.lane == Slow { lastSlowAt := Some(p.at); }
      slowFresh := lastSlowAt.Some? && p.at - lastSlowAt.value <= SlowFreshWindow();
      copies := copies[p.lane := working];
      log := log + [p];
      from := from[p.lane := |log|];
    }

    /** Second critical section: the lane's copy becomes the snapshot, even when a snapshot
        with more passes is already there. */
    method Publish(lane: Lane)
      requires Valid() && lane in copies
      modifies this
      ensures Valid() && log == old(log) && working == old(working)
      ensures copies == old(copies) - {lane} && from == old(from)
      ensures snapshot == Some(old(copies)[lane]) && published == old(published) + [old(copies)[lane]]
      ensures shown == old(shown) + [from[lane]]
      ensures old(InOrder()) ==> (InOrder() <==> forall l :: l in copies ==> from[lane] <= from[l])
    {
      hide Merged, LastOf, AllOwn, IsPrefix;
      snapshot := Some(copies[lane]);
      published, shown := published + [copies[lane]], shown + [from[lane]];
      copies := copies - {lane};
    }

    /** The copy of a lane that cannot be encoded is never stored; its readings stay in the
        working snapshot. */
    method Abandon(lane: Lane)
      requires Valid() && lane in copies
      modifies this`copies
      ensures Valid() && copies == old(copies) - {lane}
    {
      hide Merged, LastOf, AllOwn, IsPrefix;
      copies := copies - {lane};
    }

    /** In every snapshot ever published each field has the reading of the last pass of its
        lane, among a prefix of the passes, that set it. */
    lemma PublishedFromOnePass(i: nat, f: Field)
      requires Valid() && i < |published| && f in initial.fields
      ensures shown[i] <= |log| && f in published[i].fields
      ensures var from := Source(os, log[..shown[i]], f);
        && (from.Some? ==> f in log[from.value].readings)
        && published[i].fields[f] == if from.None? then initial.fields[f] else log[from.value].readings[f]
    {
      hide Merged, LastOf;
      var front := log[..shown[i]];
      assert IsPrefix(initial, log, shown[i], published[i]);
      assert forall k :: 0 <= k < |front| ==> front[k] == log[k];
      FromOnePass(os, initial, front, f);
    }

    /** Published snapshots gain passes only, and no copy under way could undo that. */
    ghost predicate InOrder() reads this {
      && Sorted(shown)
      && forall l, i :: l in copies && l in from && 0 <= i < |shown| ==> shown[i] <= from[l]
    }
  }

  lemma Appended(os: Platform, initial: Snapshot, log: seq<Pass>, p: Pass)
    ensures Merged(initial, log + [p]) == Snapshot(p.at, Merged(initial, log).fields + p.readings)
    ensures LastOf(log + [p], Slow, false) == if p.lane == Slow then Some(|log|) else LastOf(log, Slow, false)
    ensures AllOwn(os, log) && OwnFields(os, p) ==> AllOwn(os, log + [p])
    ensures IsPrefix(initial, log + [p], |log| + 1, Merged(initial, log + [p]))
    ensures forall k, s :: IsPrefix(initial, log, k, s) ==> IsPrefix(initial, log + [p], k, s)
  {
    assert (log + [p])[..|log|] == log && (log + [p])[..|log| + 1] == log + [p];
    assert forall k: nat :: k <= |log| ==> (log + [p])[..k] == log[..k];
  }

  /** Snapshots can go back: the fast lane copies, the slow lane copies and publishes, and
      then the fast lane publishes a snapshot without the slow pass and with an older time. */
  method Overtaken(os: Platform, fast: Pass, slow: Pass, initial: Snapshot) returns (s: Sampler)
    requires OwnFields(os, fast) && OwnFields(os, slow) && fast.lane == Fast && slow.lane == Slow && fast.at < slow.at
    ensures s.Valid() && s.shown == [2, 1] && !s.InOrder()
    ensures s.published[1].timestamp < s.published[0].timestamp
  {
    hide Merged, LastOf, AllOwn, IsPrefix, OwnFields;
    s := new Sampler(os, initial, 1_500);
    var a := s.Patch(fast);
    var b := s.Patch(slow);
    s.Publish(Slow);
    s.Publish(Fast);
    assert s.shown[0] == 2 && s.shown[1] == 1;
  }

  /** A slow pass that panicked publishes its message beside the names of the pass before. */
  method Torn(os: Platform, good: Pass, bad: Pass, initial: Snapshot) returns (s: Sampler)
    requires OwnFields(os, good) && OwnFields(os, bad) && good.lane == bad.lane == Slow && !good.degraded && bad.degraded
    requires CpuName in initial.fields && Gpu in initial.fields
    ensures s.Valid() && |s.published| == 2
    ensures CpuName in s.published[1].fields && s.published[1].fields[CpuName] == good.readings[CpuName]
    ensures Gpu in s.published[1].fields && s.published[1].fields[Gpu] == bad.readings[Gpu]
  {
    hide Merged, LastOf, AllOwn, IsPrefix, OwnFields, Sampler.Valid;
    s := new Sampler(os, initial, 1_500);
    var a := s.Patch(good);
    s.Publish(Slow);
    var b := s.Patch(bad);
    s.Publish(Slow);
    assert s.log == [good, bad] && s.shown == [1, 2];
    assert s.log[..s.shown[1]] == [good, bad];
    SlowTwice(good, bad);
    s.PublishedFromOnePass(1, CpuName);
    s.PublishedFromOnePass(1, Gpu);
  }

  lemma SlowTwice(good: Pass, bad: Pass)
    requires good.lane == Slow && !good.degraded && bad.lane == Slow && bad.degraded
    ensures LastOf([good, bad], Slow, true) == Some(0) && LastOf([good, bad], Slow, false) == Some(1)
  {
    assert [good, bad][..1] == [good];
  }
}

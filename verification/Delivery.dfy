/**
  Newest-wins delivery (sampler.go): each subscriber has a channel with room for one
  value; the sampler replaces a value that was not taken in time, and never waits.
*/
module Delivery {
  import opened Options

  // ------------------------------------------------------------ publishing, as a run

  /** A goroutine that publishes. */
  type Lane = nat

  /** Storing a snapshot and broadcasting it are separate critical sections. */
  datatype Event = Stores(lane: Lane) | Broadcasts(lane: Lane)

  /** Snapshots are numbered in the order they were stored: how many there are, which of them
      a lane has stored and is still to broadcast, and which were broadcast, in order. */
  datatype State = State(stores: nat, carried: map<Lane, nat>, broadcasts: seq<nat>) {
    function Latest(): Option<nat> { if stores == 0 then None else Some(stores - 1) }
  }

  /** A lane broadcasts what it stored before it stores again. */
  predicate Allowed(s: State, e: Event) { if e.Stores? then e.lane !in s.carried else e.lane in s.carried }

  function Step(s: State, e: Event): State {
    match e
    case Stores(lane) => s.(stores := s.stores + 1, carried := s.carried[lane := s.stores])
    case Broadcasts(lane) =>
      if lane in s.carried then s.(carried := s.carried - {lane}, broadcasts := s.broadcasts + [s.carried[lane]]) else s
  }

  function Replay(log: seq<Event>): State {
    if log == [] then State(0, map[], []) else Step(Replay(log[..|log| - 1]), log[|log| - 1])
  }

  predicate AllowedRun(log: seq<Event>) {
    log == [] || (AllowedRun(log[..|log| - 1]) && Allowed(Replay(log[..|log| - 1]), log[|log| - 1]))
  }

  lemma OneMore(log: seq<Event>, e: Event)
    ensures Replay(log + [e]) == Step(Replay(log), e)
    ensures AllowedRun(log + [e]) <==> AllowedRun(log) && Allowed(Replay(log), e)
  {
    assert (log + [e])[..|log|] == log;
  }

  predicate Distinct<T(==)>(s: seq<T>) { forall i, j :: 0 <= i < j < |s| ==> s[i] != s[j] }

  /** Each stored snapshot is either on its way, in the hands of one lane, or was broadcast,
      once. */
  ghost predicate Tracked(s: State) {
    && Distinct(s.broadcasts) && (forall i: nat :: i in s.broadcasts ==> i < s.stores)
    && (forall l :: l in s.carried ==> s.carried[l] < s.stores && s.carried[l] !in s.broadcasts)
    && (forall l, m :: l in s.carried && m in s.carried && l != m ==> s.carried[l] != s.carried[m])
    && (forall i: nat :: i < s.stores && i !in s.broadcasts ==> OnItsWay(s, i))
  }

  ghost predicate OnItsWay(s: State, i: nat) { exists l :: l in s.carried && s.carried[l] == i }

  lemma TrackedStep(s: State, e: Event)
    requires Tracked(s) && Allowed(s, e)
    ensures Tracked(Step(s, e))
  {
    hide OnItsWay;
    var t := Step(s, e);
    forall i: nat | i < t.stores && i !in t.broadcasts ensures OnItsWay(t, i) { StillOnItsWay(s, e, i); }
  }

  lemma StillOnItsWay(s: State, e: Event, i: nat)
    requires Allowed(s, e) && (if e.Stores? && i == s.stores then true else OnItsWay(s, i)) && i !in Step(s, e).broadcasts
    ensures OnItsWay(Step(s, e), i)
  {
    var t := Step(s, e);
    if e.Stores? && i == s.stores {
      assert t.carried[e.lane] == i;
    } else {
      var l :| l in s.carried && s.carried[l] == i;
      assert l in t.carried && t.carried[l] == i;
    }
  }

  lemma {:induction false} AllTracked(log: seq<Event>)
    requires AllowedRun(log)
    ensures Tracked(Replay(log))
  {
    hide Tracked;
    if log == [] {
      assert Tracked(Replay(log)) by { NothingStored(); }
    } else {
      AllTracked(log[..|log| - 1]);
      TrackedStep(Replay(log[..|log| - 1]), log[|log| - 1]);
    }
  }

  lemma NothingStored()
    ensures Tracked(State(0, map[], []))
  {
  }

  /** What holds after the first k events and later on. */
  lemma {:induction false} Grows(log: seq<Event>, k: nat)
    requires AllowedRun(log) && k <= |log|
    ensures AllowedRun(log[..k]) && Replay(log[..k]).stores <= Replay(log).stores
    ensures Replay(log[..k]).broadcasts <= Replay(log).broadcasts
  {
    if k == |log| {
      assert log[..k] == log;
    } else {
      var front := log[..|log| - 1];
      Grows(front, k);
      assert front[..k] == log[..k];
    }
  }

  // ------------------------------------------------------ what a subscriber is sent

  /** What a subscriber that came after the first k events has been sent: the snapshot it
      found, if any, and every broadcast since. */
  function SentTo(log: seq<Event>, k: nat): seq<nat>
    requires k <= |log|
  {
    SentBetween(Replay(log[..k]), Replay(log))
  }

  function SentBetween(came: State, now: State): seq<nat> {
    (if came.stores == 0 then [] else [came.stores - 1])
    + if |came.broadcasts| <= |now.broadcasts| then now.broadcasts[|came.broadcasts|..] else []
  }

  function Last(ids: seq<nat>): Option<nat> { if ids == [] then None else Some(ids[|ids| - 1]) }

  /** A subscriber is sent a snapshot twice exactly if the snapshot it found was still on its
      way when it came, between its store and its broadcast, and no longer is. */
  lemma SentTwiceIff(log: seq<Event>, k: nat)
    requires AllowedRun(log) && k <= |log|
    ensures var found := Replay(log[..k]).Latest();
      !Distinct(SentTo(log, k)) <==>
        found.Some? && OnItsWay(Replay(log[..k]), found.value) && !OnItsWay(Replay(log), found.value)
  {
    hide Replay, AllowedRun, Tracked;
    Grows(log, k);
    AllTracked(log);
    AllTracked(log[..k]);
    var (came, now) := (Replay(log[..k]), Replay(log));
    BroadcastSince(came, now);
    if came.stores > 0 { FirstDistinct(came.stores - 1, now.broadcasts[|came.broadcasts|..]); }
  }

  lemma FirstDistinct(x: nat, rest: seq<nat>)
    requires Distinct(rest)
    ensures Distinct([x] + rest) <==> x !in rest
  {
    if x in rest {
      var i :| 0 <= i < |rest| && rest[i] == x;
      assert ([x] + rest)[i + 1] == ([x] + rest)[0];
    }
  }

  lemma BroadcastSince(s: State, t: State)
    requires Tracked(s) && Tracked(t) && s.broadcasts <= t.broadcasts && s.stores <= t.stores
    ensures Distinct(t.broadcasts[|s.broadcasts|..])
    ensures s.stores > 0 ==>
              (s.stores - 1 in t.broadcasts[|s.broadcasts|..] <==> OnItsWay(s, s.stores - 1) && !OnItsWay(t, s.stores - 1))
    ensures forall i :: i in t.broadcasts && i !in s.broadcasts ==> i in t.broadcasts[|s.broadcasts|..]
  {
    var more := t.broadcasts[|s.broadcasts|..];
    assert t.broadcasts == s.broadcasts + more;
    forall i | i in more ensures i !in s.broadcasts {
      var j :| 0 <= j < |more| && more[j] == i;
      assert t.broadcasts[|s.broadcasts| + j] == i;
    }
  }

  /** Once nothing is on its way, what a subscriber was sent last is the stored snapshot
      exactly if nothing was broadcast since it came or the last store was broadcast last. */
  lemma AtRestIff(log: seq<Event>, k: nat)
    requires AllowedRun(log) && k <= |log| && Replay(log).carried == map[]
    ensures var (came, now) := (Replay(log[..k]), Replay(log));
      Last(SentTo(log, k)) == now.Latest() <==>
        |now.broadcasts| == |came.broadcasts| || Last(now.broadcasts) == now.Latest()
  {
    hide Replay, AllowedRun, Tracked;
    Grows(log, k);
    AllTracked(log);
    AllTracked(log[..k]);
    AllBroadcast(Replay(log[..k]), Replay(log));
  }

  lemma AllBroadcast(s: State, t: State)
    requires Tracked(s) && Tracked(t) && s.broadcasts <= t.broadcasts && s.stores <= t.stores && t.carried == map[]
    ensures t.broadcasts == s.broadcasts ==> t.stores == s.stores
  {
    if s.stores < t.stores { assert t.stores - 1 in t.broadcasts && t.stores - 1 !in s.broadcasts; }
  }

  /** ... and that it was exactly if no other snapshot was on its way when it was
      broadcast. */
  lemma LastStoreLastIff(log: seq<Event>, k: nat)
    requires AllowedRun(log) && k < |log| && log[k].Broadcasts? && Replay(log).carried == map[]
    requires log[k].lane in Replay(log[..k]).carried && Some(Replay(log[..k]).carried[log[k].lane]) == Replay(log).Latest()
    ensures Last(Replay(log).broadcasts) == Replay(log).Latest() <==> Replay(log[..k]).carried.Keys == {log[k].lane}
  {
    hide Replay, AllowedRun, Tracked;
    Grows(log, k + 1);
    Grows(log, k);
    StepAt(log, k);
    AllTracked(log);
    if Replay(log[..k + 1]).stores == Replay(log).stores { OnlyBroadcasts(log, k + 1); }
    AllTracked(log[..k]);
    LastIsLast(Replay(log[..k]), Replay(log), log[k].lane);
  }

  lemma StepAt(log: seq<Event>, k: nat)
    requires k < |log|
    ensures Replay(log[..k + 1]) == Step(Replay(log[..k]), log[k])
  {
    assert log[..k + 1][..k] == log[..k];
  }

  lemma LastIsLast(s: State, t: State, lane: Lane)
    requires Tracked(s) && Tracked(t) && lane in s.carried && s.carried[lane] == t.stores - 1 && t.carried == map[]
    requires var next := Step(s, Broadcasts(lane));
      && next.broadcasts <= t.broadcasts && next.stores <= t.stores
      && (next.stores == t.stores ==> |t.broadcasts| == |next.broadcasts| + |next.carried|)
    ensures Last(t.broadcasts) == t.Latest() <==> s.carried.Keys == {lane}
  {
    var next := Step(s, Broadcasts(lane));
    assert t.broadcasts[|s.broadcasts|] == t.stores - 1;
    assert next.carried.Keys == s.carried.Keys - {lane} && |next.carried| == |next.carried.Keys|;
  }

  /** While nothing is stored, lanes only broadcast what they carry. */
  lemma {:induction false} OnlyBroadcasts(log: seq<Event>, k: nat)
    requires AllowedRun(log) && k <= |log| && Replay(log[..k]).stores == Replay(log).stores
    ensures |Replay(log).broadcasts| + |Replay(log).carried| == |Replay(log[..k]).broadcasts| + |Replay(log[..k]).carried|
  {
    if k == |log| {
      assert log[..k] == log;
    } else {
      var front := log[..|log| - 1];
      Grows(front, k);
      assert front[..k] == log[..k];
      var (s, e) := (Replay(front), log[|log| - 1]);
      if e.Broadcasts? {
        OnlyBroadcasts(front, k);
        assert s.carried.Keys == (s.carried - {e.lane}).Keys + {e.lane};
        assert |s.carried.Keys| == |(s.carried - {e.lane}).Keys| + 1;
      }
    }
  }

  /** No lane stores between another's store and broadcast. */
  predicate Serial(log: seq<Event>) {
    log == [] || (Serial(log[..|log| - 1]) && (log[|log| - 1].Stores? ==> Replay(log[..|log| - 1]).carried == map[]))
  }

  /** Then snapshots are broadcast in the order they were stored, and whenever nothing is on
      its way the last one stored was broadcast last. */
  lemma {:induction false} SerialIsInOrder(log: seq<Event>)
    requires AllowedRun(log) && Serial(log)
    ensures var s := Replay(log);
      && (forall i :: 0 <= i < |s.broadcasts| ==> s.broadcasts[i] == i)
      && (forall l :: l in s.carried ==> s.carried.Keys == {l} && s.carried[l] == |s.broadcasts| == s.stores - 1)
      && (s.carried == map[] ==> |s.broadcasts| == s.stores && Last(s.broadcasts) == s.Latest())
  {
    if log != [] {
      SerialIsInOrder(log[..|log| - 1]);
      var (s, e) := (Replay(log[..|log| - 1]), log[|log| - 1]);
      assert s.carried.Keys == {} ==> s.carried == map[];
    }
  }

  // ------------------------------------------------------------------------ the channel

  /** A channel of capacity 1.  The receiver may take the pending value at any moment. */
  class Channel<T> {
    var slot: Option<T>
    var closed: bool
    ghost var sent: seq<T>       // what the sender was asked to deliver, in order
    ghost var at: nat            // which of them is pending
    ghost var taken: seq<nat>    // which of them the receiver got, in order
    ghost var received: seq<T>

    /** The receiver gets a subsequence, in order, of what was sent. */
    ghost predicate InOrder() reads this {
      && |received| == |taken|
      && (forall i :: 0 <= i < |taken| ==> taken[i] < |sent| && received[i] == sent[taken[i]])
      && (forall i, j :: 0 <= i < j < |taken| ==> taken[i] < taken[j])
      && (slot.Some? ==> at < |sent| && slot.value == sent[at] && forall i :: 0 <= i < |taken| ==> taken[i] < at)
    }

    /** ... and the newest value is pending or was the last one received. */
    ghost predicate Valid() reads this {
      && InOrder()
      && (sent != [] ==>
            if slot.Some? then at == |sent| - 1 else taken != [] && taken[|taken| - 1] == |sent| - 1)
    }

    /** What the receiver has or will get next. */
    ghost function Newest(): Option<T> reads this {
      if slot.Some? then slot else if received == [] then None else Some(received[|received| - 1])
    }

    /** ... which is what was sent last. */
    lemma NewestIsSentLast()
      requires Valid()
      ensures Newest() == if sent == [] then None else Some(sent[|sent| - 1])
    {
    }

    constructor ()
      ensures Valid() && slot.None? && !closed && sent == [] && received == []
    {
      slot, closed, sent, at, taken, received := None, false, [], 0, [], [];
    }

    /** A receive that finds a value. */
    method Take() returns (v: T)
      requires slot.Some? && InOrder()
      modifies this
      ensures InOrder() && (old(Valid()) ==> Valid())
      ensures slot.None? && closed == old(closed) && sent == old(sent)
      ensures v == old(slot).value && received == old(received) + [v]
    {
      v := slot.value;
      received, taken := received + [v], taken + [at];
      slot := None;
    }

    /** What the receiver may do between two steps of the sender. */
    method Interfere()
      requires InOrder()
      modifies this
      ensures InOrder() && (old(Valid()) ==> Valid())
      ensures closed == old(closed) && sent == old(sent) && old(received) <= received
      ensures old(slot).None? ==> slot.None?
    {
      var takes: bool := *;
      if takes && slot.Some? { var v := Take(); }
    }

    /** A send in a select with a default; sending on a closed channel would panic. */
    method TrySend(v: T) returns (ok: bool)
      requires !closed && InOrder()
      modifies this
      ensures ok <==> old(slot).None?
      ensures !ok ==> slot == old(slot) && sent == old(sent) && at == old(at) && taken == old(taken)
      ensures ok ==> Valid() && sent == old(sent) + [v]
      ensures InOrder() && !closed && received == old(received)
    {
      if slot.Some? { return false; }
      sent := sent + [v];
      slot, at := Some(v), |sent| - 1;
      ok := true;
    }

    /** coalesceSend, with one sender at a time: it never waits, and the value is never lost
        except to a newer one. */
    method CoalesceSend(v: T)
      requires Valid() && !closed
      modifies this
      ensures Valid() && !closed && sent == old(sent) + [v] && old(received) <= received
    {
      Interfere();
      var ok := TrySend(v);
      if ok { return; }
      Interfere();
      if slot.Some? { slot := None; }
      Interfere();
      ok := TrySend(v);
      assert ok;
    }

    /** Closing twice would panic. */
    method Close()
      requires !closed
      modifies this
      ensures closed && slot == old(slot) && sent == old(sent) && at == old(at) && taken == old(taken)
      ensures received == old(received) && (old(Valid()) ==> Valid())
    {
      closed := true;
    }
  }

  // ---------------------------------------------------------------------- the sampler

  /** The subscriber side of the sampler.  Each method is one critical section. */
  class Hub<T> {
    var snapshot: Option<T>          // snapshotJSON, once there is one
    var subs: set<Channel<T>>
    var carried: map<Lane, T>        // what a lane has stored and is still to broadcast
    ghost var stored: seq<T>
    ghost var log: seq<Event>
    ghost var since: map<Channel<T>, nat>   // how many events there were when it subscribed

    ghost predicate Stored(ids: seq<nat>, values: seq<T>) reads `stored {
      |values| == |ids| && forall i :: 0 <= i < |ids| ==> ids[i] < |stored| && values[i] == stored[ids[i]]
    }

    ghost predicate Published() reads `snapshot, `carried, `stored, `log {
      var s := Replay(log);
      && AllowedRun(log) && |stored| == s.stores
      && snapshot == (if stored == [] then None else Some(stored[|stored| - 1]))
      && carried.Keys == s.carried.Keys
      && forall l :: l in carried ==> s.carried[l] < |stored| && carried[l] == stored[s.carried[l]]
    }

    /** A subscriber's channel is open, and it was sent the snapshot it found on subscribing,
        if any, and every broadcast since. */
    ghost predicate Serves(c: Channel<T>) reads `stored, `log, `since, c {
      c.Valid() && !c.closed && c in since && since[c] <= |log| && Stored(SentTo(log, since[c]), c.sent)
    }

    ghost predicate Valid() reads this, subs { Published() && forall c :: c in subs ==> Serves(c) }

    constructor ()
      ensures Valid() && fresh(this) && subs == {} && snapshot.None? && log == []
    {
      snapshot, subs, carried, stored, log, since := None, {}, map[], [], [], map[];
    }

    method Subscribe() returns (c: Channel<T>)
      requires Valid()
      modifies this`subs, this`since
      ensures Valid() && fresh(c) && subs == old(subs) + {c} && since == old(since)[c := |log|]
      ensures c.sent == if snapshot.Some? then [snapshot.value] else []
      ensures forall d :: d in old(subs) ==> unchanged(d)
    {
      hide Replay, AllowedRun, SentTo, Channel.Valid, Channel.InOrder;
      c := new Channel();
      subs := subs + {c};
      if snapshot.Some? {
        var ok := c.TrySend(snapshot.value);
      }
      since := since[c := |log|];
      SentOnComing(log);
    }

    /** Subscribe's cancel: it may be called any number of times. */
    method Cancel(c: Channel<T>)
      requires Valid()
      modifies this`subs, c
      ensures Valid() && subs == old(subs) - {c}
      ensures c in old(subs) ==> c.closed
      ensures c !in old(subs) ==> unchanged(c)
    {
      hide Replay, AllowedRun, SentTo, Channel.Valid, Channel.InOrder;
      if c in subs {
        subs := subs - {c};
        c.Close();
      }
    }

    /** The first half of publishing. */
    method Store(lane: Lane, v: T)
      requires Valid() && lane !in carried
      modifies this`snapshot, this`carried, this`stored, this`log
      ensures Valid() && snapshot == Some(v) && carried == old(carried)[lane := v]
      ensures stored == old(stored) + [v] && log == old(log) + [Stores(lane)]
    {
      hide Replay, AllowedRun, SentTo, Channel.Valid, Channel.InOrder;
      OneMore(log, Stores(lane));
      forall c | c in subs ensures SentTo(log + [Stores(lane)], since[c]) == SentTo(log, since[c]) {
        SentOn(log, Stores(lane), since[c]);
      }
      snapshot, carried := Some(v), carried[lane := v];
      stored, log := stored + [v], log + [Stores(lane)];
    }

    /** The second: every open subscriber gets the value, or a newer one later; no send can
        hit a closed channel, and no reader, however slow, holds the others up. */
    method Broadcast(lane: Lane)
      requires Valid() && lane in carried
      modifies this`log, this`carried, subs
      ensures Valid() && log == old(log) + [Broadcasts(lane)] && carried == old(carried) - {lane}
      ensures forall c :: c in subs ==> c.sent == old(c.sent) + [old(carried[lane])] && old(c.received) <= c.received
    {
      hide Replay, AllowedRun, SentTo, Channel.Valid, Channel.InOrder;
      var v := carried[lane];
      var todo := subs;
      while todo != {}
        invariant todo <= subs && log == old(log) && carried == old(carried)
        invariant forall c :: c in todo ==> unchanged(c)
        invariant forall c :: c in subs - todo ==>
                    c.Valid() && !c.closed && c.sent == old(c.sent) + [v] && old(c.received) <= c.received
        decreases todo
      {
        var c :| c in todo;
        todo := todo - {c};
        c.CoalesceSend(v);
      }
      OneMore(log, Broadcasts(lane));
      forall c | c in subs
        ensures SentTo(log + [Broadcasts(lane)], since[c]) == SentTo(log, since[c]) + [Replay(log).carried[lane]]
      {
        SentOn(log, Broadcasts(lane), since[c]);
      }
      log, carried := log + [Broadcasts(lane)], carried - {lane};
    }

    /** The newest value of a subscriber is that of the snapshot it was sent last. */
    lemma NewestIsLast(c: Channel<T>)
      requires Valid() && c in subs
      ensures var last := Last(SentTo(log, since[c]));
        c.Newest() == if last.None? then None else if last.value < |stored| then Some(stored[last.value]) else None
    {
      hide Replay, AllowedRun, SentTo;
      c.NewestIsSentLast();
    }

    /** Once nothing is on its way, when stored snapshots differ, a subscriber's newest value
        is the stored snapshot exactly if nothing was broadcast since it came or the last
        store was broadcast last ... */
    lemma NewestIsStoredIff(c: Channel<T>)
      requires Valid() && c in subs && carried == map[] && Distinct(stored)
      ensures c.Newest() == snapshot <==>
                || |Replay(log).broadcasts| == |Replay(log[..since[c]]).broadcasts|
                || Last(Replay(log).broadcasts) == Replay(log).Latest()
    {
      hide Replay, AllowedRun, SentTo;
      NewestIsLast(c);
      assert Replay(log).carried == map[];
      AtRestIff(log, since[c]);
    }

    /** ... so always while no lane stores between another's store and broadcast ... */
    lemma NewestIsStoredIfSerial(c: Channel<T>)
      requires Valid() && c in subs && carried == map[] && Serial(log)
      ensures c.Newest() == snapshot
    {
      hide Replay, AllowedRun, SentTo, Serial;
      NewestIsLast(c);
      assert Replay(log).carried == map[];
      AtRestIff(log, since[c]);
      SerialIsInOrder(log);
    }

    /** ... and it was sent a value twice exactly if it came between the store and the
        broadcast of the snapshot it found. */
    lemma RepeatsIff(c: Channel<T>)
      requires Valid() && c in subs && Distinct(stored)
      ensures var found := Replay(log[..since[c]]).Latest();
        !Distinct(c.sent) <==>
          found.Some? && OnItsWay(Replay(log[..since[c]]), found.value) && !OnItsWay(Replay(log), found.value)
    {
      hide Replay, AllowedRun, SentTo;
      SentTwiceIff(log, since[c]);
      SameRepeats(SentTo(log, since[c]), c.sent);
    }

    lemma SameRepeats(ids: seq<nat>, values: seq<T>)
      requires Stored(ids, values) && Distinct(stored)
      ensures Distinct(ids) <==> Distinct(values)
    {
    }
  }

  lemma SentOnComing(log: seq<Event>)
    ensures SentTo(log, |log|) == if Replay(log).stores == 0 then [] else [Replay(log).stores - 1]
  {
    hide Replay, SentBetween;
    assert log[..|log|] == log;
    NothingSince(Replay(log));
  }

  lemma NothingSince(s: State)
    ensures SentBetween(s, s) == if s.stores == 0 then [] else [s.stores - 1]
  {
  }

  lemma SentOn(log: seq<Event>, e: Event, k: nat)
    requires AllowedRun(log) && k <= |log|
    ensures SentTo(log + [e], k)
            == SentTo(log, k) + if e.Broadcasts? && e.lane in Replay(log).carried then [Replay(log).carried[e.lane]] else []
  {
    hide Replay, AllowedRun;
    OneMore(log, e);
    Grows(log, k);
    assert (log + [e])[..k] == log[..k];
    OneMoreSent(Replay(log[..k]), Replay(log), e);
  }

  lemma OneMoreSent(came: State, now: State, e: Event)
    requires came.broadcasts <= now.broadcasts
    ensures SentBetween(came, Step(now, e))
            == SentBetween(came, now) + if e.Broadcasts? && e.lane in now.carried then [now.carried[e.lane]] else []
  {
  }

  /** Storing a snapshot and broadcasting it are separate critical sections, so a
      subscriber that comes in between is sent the same snapshot twice ... */
  method SameSnapshotTwice<T>(hub: Hub<T>, lane: Lane, v: T) returns (c: Channel<T>)
    requires hub.Valid() && lane !in hub.carried
    modifies hub, hub.subs
    ensures hub.Valid() && c in hub.subs && c.sent == [v, v]
  {
    hide Replay, AllowedRun, SentTo, Channel.Valid, Channel.InOrder;
    hub.Store(lane, v);
    c := hub.Subscribe();
    hub.Broadcast(lane);
  }

  /** ... and when two lanes publish at once the last value broadcast may be the older. */
  method OlderSnapshotLast<T>(hub: Hub<T>, c: Channel<T>, one: Lane, two: Lane, older: T, newer: T)
    requires hub.Valid() && c in hub.subs && one != two && one !in hub.carried && two !in hub.carried
    modifies hub, hub.subs
    ensures hub.Valid() && hub.snapshot == Some(newer) && c in hub.subs
    ensures c.sent == old(c.sent) + [newer, older] && c.Newest() == Some(older)
  {
    hide Replay, AllowedRun, SentTo, Channel.Valid, Channel.InOrder;
    hub.Store(one, older);
    hub.Store(two, newer);
    hub.Broadcast(two);
    hub.Broadcast(one);
    c.NewestIsSentLast();
  }
}

/**
  One collection at a time (collector.go): a request that finds a collection under way waits
  for it and shares its result.

  The events below are the steps that other requests can observe; `Allowed` says which may
  follow which, the lemmas say what that means over a whole run, and `Collector` is proved
  to take no other step.
*/
module SingleFlight {
  import opened Options

  /** What a collection came to; a panic is reported as an error. */
  datatype Outcome = Metrics(data: int) | Failed(error: string) | Panicked(reason: string)

  type Caller = nat

  datatype Event =
    | Began(caller: Caller, id: nat)
    | Joined(caller: Caller, id: nat)
    | Ended(id: nat, outcome: Outcome)
    | Got(caller: Caller, outcome: Outcome)
    | GaveUp(caller: Caller)

  datatype State = State(running: Option<nat>, next: nat, results: map<nat, Outcome>, waiting: map<Caller, nat>)

  predicate Allowed(s: State, e: Event) {
    match e
    case Began(_, id) => s.running.None? && id == s.next
    case Joined(caller, id) => s.running == Some(id) && caller !in s.waiting
    case Ended(id, _) => s.running == Some(id)
    case Got(caller, outcome) => caller in s.waiting && s.waiting[caller] in s.results && s.results[s.waiting[caller]] == outcome
    case GaveUp(caller) => caller in s.waiting
  }

  function Step(s: State, e: Event): State {
    match e
    case Began(_, id) => s.(running := Some(id), next := id + 1)
    case Joined(caller, id) => s.(waiting := s.waiting[caller := id])
    case Ended(id, outcome) => s.(running := None, results := s.results[id := outcome])
    case Got(caller, _) => s.(waiting := s.waiting - {caller})
    case GaveUp(caller) => s.(waiting := s.waiting - {caller})
  }

  function Replay(log: seq<Event>): State {
    if log == [] then State(None, 0, map[], map[]) else Step(Replay(log[..|log| - 1]), log[|log| - 1])
  }

  predicate AllowedRun(log: seq<Event>) {
    log == [] || (AllowedRun(log[..|log| - 1]) && Allowed(Replay(log[..|log| - 1]), log[|log| - 1]))
  }

  lemma {:induction false} PrefixAllowed(log: seq<Event>, k: nat)
    requires AllowedRun(log) && k <= |log|
    ensures AllowedRun(log[..k])
    ensures k < |log| ==> Allowed(Replay(log[..k]), log[k]) && Replay(log[..k + 1]) == Step(Replay(log[..k]), log[k])
    decreases |log|
  {
    if k == |log| {
      assert log[..k] == log;
    } else {
      var front := log[..|log| - 1];
      if k == |log| - 1 {
        assert log[..k] == front && log[..k + 1] == log;
      } else {
        PrefixAllowed(front, k);
        assert front[..k] == log[..k] && front[..k + 1] == log[..k + 1];
      }
    }
  }

  /** Collections that began and have not ended. */
  function Running(log: seq<Event>): int {
    if log == [] then 0
    else
      var e := log[|log| - 1];
      Running(log[..|log| - 1]) + (if e.Began? then 1 else if e.Ended? then -1 else 0)
  }

  /** At every moment of every run at most one inner collection runs. */
  lemma {:induction false} AtMostOneCollection(log: seq<Event>)
    requires AllowedRun(log)
    ensures Running(log) == (if Replay(log).running.Some? then 1 else 0)
  {
    if log != [] { AtMostOneCollection(log[..|log| - 1]); }
  }

  lemma {:induction false} Numbered(log: seq<Event>)
    requires AllowedRun(log)
    ensures var s := Replay(log);
      && (s.running.Some? ==> s.running.value < s.next && s.running.value !in s.results)
      && (forall id :: id in s.results ==> id < s.next)
  {
    if log != [] { Numbered(log[..|log| - 1]); }
  }

  /** A result that is there later and was not there before was recorded in between. */
  lemma {:induction false} RecordedBetween(log: seq<Event>, i: nat, k: nat, id: nat)
    requires AllowedRun(log) && i <= k <= |log|
    requires id !in Replay(log[..i]).results && id in Replay(log[..k]).results
    ensures exists j :: i <= j < k && log[j] == Ended(id, Replay(log[..k]).results[id])
    decreases k - i
  {
    PrefixAllowed(log, k - 1);
    PrefixAllowed(log, i);
    var s := Replay(log[..k - 1]);
    if id in s.results {
      RecordedBetween(log, i, k - 1, id);
      Numbered(log[..k - 1]);
      var j :| i <= j < k - 1 && log[j] == Ended(id, s.results[id]);
      assert log[j] == Ended(id, Replay(log[..k]).results[id]);
    } else {
      assert log[k - 1] == Ended(id, Replay(log[..k]).results[id]);
    }
  }

  /** The call `caller` is waiting in began at i, and it has not left since. */
  predicate WaitsSince(log: seq<Event>, caller: Caller, id: nat, i: nat) {
    && i < |log| && log[i] == Joined(caller, id)
    && forall j :: i < j < |log| ==> !Leaves(log[j], caller)
  }

  predicate Leaves(e: Event, caller: Caller) { (e.Got? || e.GaveUp? || e.Joined?) && e.caller == caller }

  lemma {:induction false} WaitingJoined(log: seq<Event>, caller: Caller)
    requires AllowedRun(log) && caller in Replay(log).waiting
    ensures exists i: nat :: WaitsSince(log, caller, Replay(log).waiting[caller], i)
  {
    var (front, e) := (log[..|log| - 1], log[|log| - 1]);
    var id := Replay(log).waiting[caller];
    if e == Joined(caller, id) && !(caller in Replay(front).waiting) {
      assert WaitsSince(log, caller, id, |log| - 1);
    } else {
      WaitingJoined(front, caller);
      var i: nat :| WaitsSince(front, caller, id, i);
      assert WaitsSince(log, caller, id, i);
    }
  }

  /** It joined at i, while `id` was running, and that collection ended at j with this
      outcome. */
  predicate Served(log: seq<Event>, caller: Caller, outcome: Outcome, i: nat, j: nat, id: nat) {
    && i < j < |log| && WaitsSince(log, caller, id, i)
    && Replay(log[..i]).running == Some(id) && log[j] == Ended(id, outcome)
  }

  /** A follower gets exactly the result of the collection that was running when it joined:
      that collection ended, with this result, after the follower joined it. */
  lemma FollowerGetsTheJoinedResult(log: seq<Event>, k: nat, caller: Caller, outcome: Outcome)
    requires AllowedRun(log) && k < |log| && log[k] == Got(caller, outcome)
    ensures exists i: nat, j: nat, id: nat :: Served(log[..k], caller, outcome, i, j, id)
  {
    hide Replay, Step;
    PrefixAllowed(log, k);
    var front := log[..k];
    var id := Replay(front).waiting[caller];
    WaitingJoined(front, caller);
    var i: nat :| WaitsSince(front, caller, id, i);
    PrefixAllowed(front, i);
    Numbered(front[..i]);
    assert front[..k] == front;
    RecordedBetween(front, i, k, id);
    var j: nat :| i <= j < k && front[j] == Ended(id, outcome);
    assert Served(front, caller, outcome, i, j, id);
  }

  /** Nobody is ever stuck: whatever a collection comes to, once it has ended everyone who
      joined it can leave with its result, and the next request starts a new one. */
  lemma NeverStuck(log: seq<Event>, caller: Caller, outcome: Outcome)
    requires AllowedRun(log) && caller in Replay(log).waiting
    ensures var s := Replay(log);
      var after := if s.running == Some(s.waiting[caller]) then Step(s, Ended(s.running.value, outcome)) else s;
      && s.waiting[caller] in after.results
      && Allowed(after, Got(caller, after.results[s.waiting[caller]]))
    ensures var s := Replay(log);
      s.running.Some? ==>
        var ended := Ended(s.running.value, outcome);
        Allowed(s, ended) && Allowed(Step(s, ended), Began(caller, s.next))
  {
    WaitedForRunsOrEnded(log, caller);
  }

  lemma {:induction false} WaitedForRunsOrEnded(log: seq<Event>, caller: Caller)
    requires AllowedRun(log) && caller in Replay(log).waiting
    ensures var s := Replay(log); s.running == Some(s.waiting[caller]) || s.waiting[caller] in s.results
  {
    var (front, e) := (log[..|log| - 1], log[|log| - 1]);
    if caller in Replay(front).waiting { WaitedForRunsOrEnded(front, caller); }
  }

  // ------------------------------------------------------------------- the collector

  /** How the call of the inner collector ends. */
  datatype Ending = Returned(data: int, error: Option<string>) | Raised(reason: string)

  /** What everyone is given: a panic is recovered and becomes an error. */
  function Recovered(e: Ending): (o: Outcome)
    ensures o.Metrics? <==> e.Returned? && e.error.None?
    ensures o.Failed? <==> e.Returned? && e.error.Some?
  {
    if e.Raised? then Panicked(e.reason) else if e.error.Some? then Failed(e.error.value) else Metrics(e.data)
  }

  class Collection {
    ghost const id: nat
    var done: bool
    var outcome: Outcome

    constructor (ghost id: nat)
      ensures this.id == id && !done
    {
      this.id, done, outcome := id, false, Failed("");
    }
  }

  class Collector {
    var inFlight: Collection?
    var joined: map<Caller, Collection>    // what each waiting request holds on to
    ghost var all: seq<Collection>
    ghost var log: seq<Event>

    ghost predicate Valid() reads this, all {
      && AllowedRun(log)
      && var s := Replay(log);
      && |all| == s.next && (forall i :: 0 <= i < |all| ==> all[i].id == i && (all[i].done <==> i in s.results))
      && (forall i :: 0 <= i < |all| && all[i].done ==> all[i].outcome == s.results[i])
      && (if s.running.None? then inFlight == null else s.running.value < |all| && inFlight == all[s.running.value])
      && joined.Keys == s.waiting.Keys
      && (forall c :: c in joined ==> s.waiting[c] < |all| && joined[c] == all[s.waiting[c]])
    }

    constructor ()
      ensures Valid() && log == []
    {
      inFlight, joined, all, log := null, map[], [], [];
    }

    /** The first critical section of Collect: join the collection under way, or lead a new
        one. */
    method Enter(caller: Caller) returns (lead: Collection?)
      requires Valid() && caller !in joined
      modifies this
      ensures Valid() && old(log) <= log && |log| == |old(log)| + 1
      ensures old(inFlight) != null ==>
                && lead == null && log[|log| - 1] == Joined(caller, old(inFlight).id)
                && inFlight == old(inFlight) && all == old(all) && joined == old(joined)[caller := inFlight]
      ensures old(inFlight) == null ==>
                && lead != null && fresh(lead) && inFlight == lead && log[|log| - 1] == Began(caller, lead.id)
                && lead.id == |old(all)| && all == old(all) + [lead] && joined == old(joined)
    {
      ghost var was := log;
      if inFlight != null {
        joined := joined[caller := inFlight];
        log := log + [Joined(caller, inFlight.id)];
        assert log[..|was|] == was;
        return null;
      }
      lead := new Collection(Replay(log).next);
      Numbered(log);
      inFlight, all := lead, all + [lead];
      log := log + [Began(caller, lead.id)];
      assert log[..|was|] == was;
    }

    /** The leader's deferred function, after the inner collection returned, failed or
        panicked: the collector is free again, and the followers can go. */
    method Finish(lead: Collection, outcome: Outcome)
      requires Valid() && inFlight == lead
      modifies this, lead
      ensures Valid() && log == old(log) + [Ended(lead.id, outcome)] && inFlight == null
      ensures lead.done && lead.outcome == outcome && joined == old(joined) && all == old(all)
    {
      ghost var was := log;
      lead.outcome := outcome;
      if inFlight == lead { inFlight := null; }
      lead.done := true;
      log := log + [Ended(lead.id, outcome)];
      assert log[..|was|] == was;
      Numbered(was);
    }

    /** A follower's wait: the channel is closed, or its own request is cancelled. */
    method Leave(caller: Caller, cancelled: bool) returns (outcome: Option<Outcome>)
      requires Valid() && caller in joined && (joined[caller].done || cancelled)
      modifies this
      ensures Valid() && joined == old(joined) - {caller} && inFlight == old(inFlight) && all == old(all)
      ensures log == old(log) + [if outcome.Some? then Got(caller, outcome.value) else GaveUp(caller)]
      ensures outcome == None ==> cancelled
      ensures outcome.Some? ==> old(joined[caller].done) && outcome.value == old(joined[caller].outcome)
    {
      ghost var was := log;
      var both: bool := *;
      if joined[caller].done && (both || !cancelled) {
        outcome := Some(joined[caller].outcome);
        log := log + [Got(caller, outcome.value)];
      } else {
        outcome := None;
        log := log + [GaveUp(caller)];
      }
      assert log[..|was|] == was;
      joined := joined - {caller};
    }

    /** A whole request: whatever the inner collector does, and whatever the other requests
        do meanwhile, a leader's collection has ended and the collector is free before the
        request returns; a follower returns what it joined, or nothing when cancelled. */
    method Collect(caller: Caller) returns (outcome: Option<Outcome>)
      requires Valid() && caller !in joined
      modifies this, all
      ensures Valid() && caller !in joined && old(log) < log
      ensures old(all) <= all && (forall i :: |old(all)| <= i < |all| ==> fresh(all[i]))
      ensures old(inFlight) == null ==>
                && |old(log)| + 1 < |log| && |old(all)| < |all| && outcome.Some? && inFlight == null
                && log[|old(log)|] == Began(caller, |old(all)|)
                && log[|log| - 1] == Ended(|old(all)|, outcome.value)
                && all[|old(all)|].done && all[|old(all)|].outcome == outcome.value
      ensures old(inFlight) != null ==>
                && |old(log)| + 1 < |log| && log[|old(log)|] == Joined(caller, old(inFlight).id)
                && log[|log| - 1] == (if outcome.Some? then Got(caller, outcome.value) else GaveUp(caller))
                && (outcome.Some? ==> old(inFlight).done && outcome.value == old(inFlight).outcome)
    {
      hide Replay, AllowedRun, Allowed, Collector.Valid;
      ghost var (before, flying) := (all, inFlight);
      var lead := Enter(caller);
      assert all == before || all == before + [lead];
      if lead == null {
        var mine := joined[caller];
        assert mine == flying;
        Others(caller, null);
        var cancelled: bool := *;   // select: the channel is closed, or the request is cancelled
        outcome := Leave(caller, cancelled || !mine.done);
      } else {
        Others(caller, lead);
        var ending: Ending := *;
        Finish(lead, Recovered(ending));
        outcome := Some(lead.outcome);
        assert all[|before|] == lead;
      }
    }

    /** Any number of steps of other requests: each may arrive, leave or end a collection it
        leads, but not the one this request leads. */
    method Others(caller: Caller, lead: Collection?)
      requires Valid() && (lead != null ==> inFlight == lead)
      modifies this, all
      ensures Valid() && old(log) <= log && old(all) <= all && (forall i :: |old(all)| <= i < |all| ==> fresh(all[i]))
      ensures caller in joined <==> old(caller in joined)
      ensures caller in joined ==> joined[caller] == old(joined)[caller]
      ensures lead != null ==> inFlight == lead
    {
      var steps: nat := *;
      while steps > 0
        invariant Valid() && old(log) <= log && old(all) <= all && (forall i :: |old(all)| <= i < |all| ==> fresh(all[i]))
        invariant caller in joined <==> old(caller in joined)
        invariant caller in joined ==> joined[caller] == old(joined)[caller]
        invariant lead != null ==> inFlight == lead
      {
        Other(caller, lead);
        steps := steps - 1;
      }
    }

    /** One such step. */
    method Other(caller: Caller, lead: Collection?)
      requires Valid() && (lead != null ==> inFlight == lead)
      modifies this, all
      ensures Valid() && old(log) <= log && old(all) <= all && (forall i :: |old(all)| <= i < |all| ==> fresh(all[i]))
      ensures caller in joined <==> old(caller in joined)
      ensures caller in joined ==> joined[caller] == old(joined)[caller]
      ensures lead != null ==> inFlight == lead
    {
      hide Replay, AllowedRun, Allowed;
      var other: Caller, leaves: bool, cancelled: bool, outcome: Outcome := *, *, *, *;
      if other != caller && other !in joined {
        var _ := Enter(other);
      } else if other != caller && leaves && (joined[other].done || cancelled) {
        var _ := Leave(other, cancelled);
      } else if inFlight != null && inFlight != lead {
        Finish(inFlight, outcome);
      }
    }
  }
}

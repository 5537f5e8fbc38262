/**
  Blocking reads that may never return (bounded_reads.go): at most one outstanding per key,
  and a caller that gives up gets the last value the key produced.

  A read ends in two steps: under the lock it stops being pending and becomes the key's
  last read, and after that its channel is closed.  Callers may run in between.
*/
module BoundedReads {
  import opened Options

  /** A value, an error, or a recovered panic. */
  datatype Outcome = Value(data: int) | Failed(error: string) | Panicked(reason: string)

  type Key = string

  datatype Event =
    | Started(key: Key, id: nat)
    | Finished(key: Key, id: nat, outcome: Outcome)   // the locked step
    | Closed(key: Key, id: nat)
    | Answered(key: Key, id: nat, from: nat, outcome: Outcome)   // a caller waiting for `id` got the result of `from`
    | NoAnswer(key: Key, id: nat)

  datatype State = State(pending: map<Key, nat>, last: map<Key, nat>, results: map<nat, Outcome>, closed: set<nat>, next: nat)

  predicate Allowed(s: State, e: Event) {
    match e
    case Started(key, id) => key !in s.pending && id == s.next
    case Finished(key, id, _) => key in s.pending && s.pending[key] == id
    case Closed(key, id) => id in s.results && id !in s.closed
    case Answered(key, id, from, outcome) =>
      && from in s.results && s.results[from] == outcome
      && (if from == id then id in s.closed || (key in s.last && s.last[key] == id) else key in s.last && s.last[key] == from)
    case NoAnswer(key, _) => key !in s.last
  }

  function Step(s: State, e: Event): State {
    match e
    case Started(key, id) => s.(pending := s.pending[key := id], next := id + 1)
    case Finished(key, id, outcome) =>
      s.(pending := s.pending - {key}, last := s.last[key := id], results := s.results[id := outcome])
    case Closed(_, id) => s.(closed := s.closed + {id})
    case _ => s
  }

  function Replay(log: seq<Event>): State {
    if log == [] then State(map[], map[], map[], {}, 0) else Step(Replay(log[..|log| - 1]), log[|log| - 1])
  }

  predicate AllowedRun(log: seq<Event>) {
    log == [] || (AllowedRun(log[..|log| - 1]) && Allowed(Replay(log[..|log| - 1]), log[|log| - 1]))
  }

  lemma {:induction false} PrefixAllowed(log: seq<Event>, k: nat)
    requires AllowedRun(log) && k <= |log|
    ensures AllowedRun(log[..k])
    ensures k < |log| ==> Allowed(Replay(log[..k]), log[k]) && Replay(log[..k + 1]) == Step(Replay(log[..k]), log[k])
    decreases |log|
  {
    if k == |log| {
      assert log[..k] == log;
    } else {
      var front := log[..|log| - 1];
      if k == |log| - 1 {
        assert log[..k] == front && log[..k + 1] == log;
      } else {
        PrefixAllowed(front, k);
        assert front[..k] == log[..k] && front[..k + 1] == log[..k + 1];
      }
    }
  }

  /** Reads of a key that were started and have not finished. */
  function Outstanding(log: seq<Event>, key: Key): int {
    if log == [] then 0
    else
      var e := log[|log| - 1];
      Outstanding(log[..|log| - 1], key)
      + (if e.Started? && e.key == key then 1 else if e.Finished? && e.key == key then -1 else 0)
  }

  /** A device that hangs strands one read, however many callers ask. */
  lemma {:induction false} AtMostOneOutstanding(log: seq<Event>, key: Key)
    requires AllowedRun(log)
    ensures Outstanding(log, key) == if key in Replay(log).pending then 1 else 0
  {
    if log != [] { AtMostOneOutstanding(log[..|log| - 1], key); }
  }

  /** The most recent end of a read of this key was at i. */
  predicate LastEnd(log: seq<Event>, key: Key, i: nat) {
    && i < |log| && log[i].Finished? && log[i].key == key
    && forall j :: i < j < |log| ==> !(log[j].Finished? && log[j].key == key)
  }

  /** `last` is the most recently finished read, and there is none exactly if no read of the
      key has finished. */
  lemma {:induction false} LastIsMostRecent(log: seq<Event>, key: Key)
    requires AllowedRun(log)
    ensures var s := Replay(log);
      if key in s.last then exists i: nat :: LastEnd(log, key, i) && log[i].id == s.last[key] && s.results.Keys >= {s.last[key]}
      else forall i :: 0 <= i < |log| ==> !(log[i].Finished? && log[i].key == key)
  {
    if log != [] {
      var (front, e) := (log[..|log| - 1], log[|log| - 1]);
      LastIsMostRecent(front, key);
      if e.Finished? && e.key == key {
        assert LastEnd(log, key, |log| - 1);
      } else if key in Replay(front).last {
        var i: nat :| LastEnd(front, key, i) && front[i].id == Replay(front).last[key];
        assert LastEnd(log, key, i);
      }
    }
  }

  lemma {:induction false} PendingIsNew(log: seq<Event>, key: Key)
    requires AllowedRun(log)
    ensures var s := Replay(log);
      && (key in s.pending ==> s.pending[key] < s.next && s.pending[key] !in s.results)
      && (forall id :: id in s.results ==> id < s.next)
      && (forall other :: other in s.pending && key in s.pending && s.pending[other] == s.pending[key] ==> other == key)
      && (forall id :: id in s.closed ==> id in s.results)
  {
    if log != [] {
      var front := log[..|log| - 1];
      PendingIsNew(front, key);
      if log[|log| - 1].Finished? { PendingIsNew(front, log[|log| - 1].key); }
      if log[|log| - 1].Started? { forall other | other in Replay(front).pending { PendingIsNew(front, other); } }
    }
  }

  /** A result is what its read finished with. */
  lemma {:induction false} ResultsAreKept(log: seq<Event>, id: nat)
    requires AllowedRun(log) && id in Replay(log).results
    ensures exists i: nat :: i < |log| && log[i].Finished? && log[i].id == id && log[i].outcome == Replay(log).results[id]
  {
    var (front, e) := (log[..|log| - 1], log[|log| - 1]);
    if e.Finished? && e.id == id {
      assert log[|log| - 1] == e;
    } else {
      ResultsAreKept(front, id);
      var i: nat :| i < |front| && front[i].Finished? && front[i].id == id && front[i].outcome == Replay(front).results[id];
      assert log[i] == front[i];
    }
  }

  /** Every answer is the caller's own read's result, or else what the key's most recently
      finished read produced. */
  lemma AnswersAreOwnOrLast(log: seq<Event>, k: nat)
    requires AllowedRun(log) && k < |log| && log[k].Answered?
    ensures exists i: nat :: i < k && log[i].Finished? && log[i].id == log[k].from && log[i].outcome == log[k].outcome
    ensures log[k].from != log[k].id ==> exists i: nat :: LastEnd(log[..k], log[k].key, i) && log[i].id == log[k].from
  {
    PrefixAllowed(log, k);
    var front := log[..k];
    ResultsAreKept(front, log[k].from);
    var i: nat :| i < |front| && front[i].Finished? && front[i].id == log[k].from
      && front[i].outcome == Replay(front).results[log[k].from];
    assert log[i] == front[i];
    if log[k].from != log[k].id {
      LastIsMostRecent(front, log[k].key);
      var j: nat :| LastEnd(front, log[k].key, j) && front[j].id == Replay(front).last[log[k].key];
      assert log[j] == front[j];
    }
  }

  /** A caller is told that there is nothing only when no read of the key has finished. */
  lemma NothingMeansNone(log: seq<Event>, k: nat, i: nat)
    requires AllowedRun(log) && i < k < |log| && log[k].NoAnswer?
    ensures !(log[i].Finished? && log[i].key == log[k].key)
  {
    PrefixAllowed(log, k);
    LastIsMostRecent(log[..k], log[k].key);
    assert log[..k][i] == log[i];
  }

  lemma Extend(log: seq<Event>, e: Event)
    requires AllowedRun(log) && Allowed(Replay(log), e)
    ensures AllowedRun(log + [e]) && Replay(log + [e]) == Step(Replay(log), e)
  {
    assert (log + [e])[..|log|] == log;
  }

  lemma MayFinish(s: State, key: Key, outcome: Outcome)
    requires key in s.pending
    ensures Allowed(s, Finished(key, s.pending[key], outcome))
  {
  }

  // --------------------------------------------------------------------- the reads

  class Read {
    const key: Key
    ghost const id: nat
    var closed: bool
    var outcome: Outcome

    constructor (key: Key, ghost id: nat)
      ensures this.key == key && this.id == id && !closed
    {
      this.key, this.id, closed, outcome := key, id, false, Failed("");
    }

    ghost predicate Shows(s: State) reads this {
      (closed <==> id in s.closed) && (id in s.results ==> outcome == s.results[id])
    }
  }

  class Reads {
    var pending: map<Key, Read>
    var last: map<Key, Read>
    ghost var all: seq<Read>
    ghost var log: seq<Event>

    ghost predicate Valid() reads this, all {
      && AllowedRun(log)
      && var s := Replay(log);
      && |all| == s.next && (forall i :: 0 <= i < |all| ==> all[i].id == i && all[i].Shows(s))
      && pending.Keys == s.pending.Keys && last.Keys == s.last.Keys
      && (forall k :: k in pending ==> s.pending[k] < |all| && pending[k] == all[s.pending[k]])
      && (forall k :: k in last ==> s.last[k] < |all| && s.last[k] in s.results && last[k] == all[s.last[k]])
    }

    /** This is the n-th read ever started. */
    ghost predicate Ours(r: Read) reads this, all { r in all && r.id < |all| && all[r.id] == r }

    constructor ()
      ensures Valid() && log == []
    {
      pending, last, all, log := map[], map[], [], [];
    }

    method Start(key: Key) returns (r: Read)
      requires Valid()
      modifies this
      ensures Valid() && Ours(r) && key in pending && pending[key] == r
      ensures key in old(pending) ==> r == old(pending)[key] && log == old(log)
      ensures key !in old(pending) ==> fresh(r) && r.key == key && log == old(log) + [Started(key, r.id)]
    {
      if key in pending { return pending[key]; }
      ghost var was := log;
      PendingIsNew(log, key);
      r := new Read(key, Replay(log).next);
      pending, all := pending[key := r], all + [r];
      log := log + [Started(key, r.id)];
      assert log[..|was|] == was;
    }

    /** The background goroutine: the read returned or panicked. */
    method Return(r: Read, outcome: Outcome)
      requires Valid() && Ours(r) && r.id !in Replay(log).results
      modifies r`outcome
      ensures Valid() && r.outcome == outcome
    {
      r.outcome := outcome;
    }

    /** Its locked step. */
    method Finish(r: Read, key: Key)
      requires Valid() && Ours(r) && key in pending && pending[key] == r
      modifies this
      ensures Valid() && log == old(log) + [Finished(key, r.id, r.outcome)]
      ensures pending == old(pending) - {key} && last == old(last)[key := r]
    {
      hide Allowed, Replay, AllowedRun;
      PendingIsNew(log, key);
      assert Allowed(Replay(log), Finished(key, r.id, r.outcome)) by { MayFinish(Replay(log), key, r.outcome); }
      Extend(log, Finished(key, r.id, r.outcome));
      pending, last := pending - {key}, last[key := r];
      log := log + [Finished(key, r.id, r.outcome)];
    }

    method Close(r: Read, key: Key)
      requires Valid() && Ours(r) && r.id in Replay(log).results && !r.closed
      modifies this`log, r
      ensures Valid() && r.closed && log == old(log) + [Closed(key, r.id)]
    {
      ghost var was := log;
      r.closed := true;
      log := log + [Closed(key, r.id)];
      assert log[..|was|] == was;
    }

    /** result, when its wait is over: the read's channel is closed or the deadline passed. */
    method Result(key: Key, r: Read, late: bool) returns (answer: Option<Outcome>)
      requires Valid() && Ours(r) && (r.closed || late)
      modifies this`log
      ensures Valid() && |log| == |old(log)| + 1 && old(log) <= log
      ensures answer.None? <==> log[|log| - 1] == NoAnswer(key, r.id)
      ensures answer.Some? ==>
                var e := log[|log| - 1]; e.Answered? && e.key == key && e.id == r.id && e.outcome == answer.value
      ensures answer.None? ==> key !in last
      ensures r.closed && !late ==> answer == Some(r.outcome)
      ensures !r.closed && key in last ==> answer == Some(last[key].outcome)
    {
      ghost var was := log;
      PendingIsNew(log, key);
      var both: bool := *;
      if r.closed && (both || !late) {
        answer := Some(r.outcome);
        log := log + [Answered(key, r.id, r.id, r.outcome)];
      } else if key !in last {
        answer := None;
        log := log + [NoAnswer(key, r.id)];
      } else {
        answer := Some(last[key].outcome);
        log := log + [Answered(key, r.id, last[key].id, last[key].outcome)];
      }
      assert log[..|was|] == was;
    }
  }
}

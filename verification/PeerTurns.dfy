/**
  What one scan of the candidates does to the host list (peers.go), on values: whose turn
  lists a host, which hosts are listed twice, and who is online in the end.
*/
module PeerTurns {
  import opened PeerIds
  import Text

  datatype Candidate = Candidate(key: Key, name: string, explicit: bool, bases: seq<string>)

  datatype CheckResult = Answered(base: string, instance: string, hostname: string) | Failed(error: string)

  /** pickCheckResult: the first base, in preference order, that answered as an agent;
      failing that, the preferred base's error. */
  method PickCheckResult(perBase: seq<CheckResult>) returns (r: CheckResult)
    ensures (exists i :: 0 <= i < |perBase| && perBase[i].Answered?) ==>
              exists i :: 0 <= i < |perBase| && r == perBase[i] && r.Answered? && forall j :: 0 <= j < i ==> perBase[j].Failed?
    ensures (forall i :: 0 <= i < |perBase| ==> perBase[i].Failed?) ==>
              r == if perBase == [] then Failed("no address to try") else perBase[0]
  {
    var i := 0;
    while i < |perBase|
      invariant i <= |perBase| && forall j :: 0 <= j < i ==> perBase[j].Failed?
    {
      if perBase[i].Answered? { return perBase[i]; }
      i := i + 1;
    }
    r := if |perBase| == 0 then Failed("no address to try") else perBase[0];
  }

  /** peerDisplayName. */
  function DisplayName(c: Candidate, hostname: string, base: string): (name: string)
    ensures c.explicit || c.key.Ts? ==> name == c.name
    ensures !c.explicit && c.key.Cfg? && Text.TrimSpace(hostname) == "" ==> name == base
    ensures !c.explicit && c.key.Cfg? && Text.TrimSpace(hostname) != "" ==> name == Text.Lower(Text.TrimSpace(hostname))
  {
    var host := Text.TrimSpace(hostname);
    if c.explicit || c.key.Ts? then c.name else if host != "" then Text.Lower(host) else base
  }

  /** A candidate that answered as this agent itself, or as an instance seen before. */
  predicate Skipped(self: string, results: seq<CheckResult>, i: nat)
    requires i < |results|
  {
    && results[i].Answered? && results[i].instance != ""
    && (results[i].instance == self
        || exists j :: 0 <= j < i && results[j].Answered? && results[j].instance == results[i].instance)
  }

  /** The instances seen by the first k candidates, other than this agent. */
  function Seen(self: string, results: seq<CheckResult>, k: nat): set<string>
    requires k <= |results|
  {
    if k == 0 then {}
    else
      var r := results[k - 1];
      Seen(self, results, k - 1) + if r.Answered? && r.instance != "" && r.instance != self then {r.instance} else {}
  }

  lemma {:induction false} SeenMeans(self: string, results: seq<CheckResult>, k: nat, instance: string)
    requires k <= |results|
    ensures instance in Seen(self, results, k) <==>
              instance != "" && instance != self && exists j :: 0 <= j < k && results[j].Answered? && results[j].instance == instance
  {
    if k > 0 { SeenMeans(self, results, k - 1, instance); }
  }

  /** The candidates of one scan: every configured peer, and tailnet peers under their
      machine names.  Machine names can repeat. */
  ghost predicate Candidates(cs: seq<Candidate>, results: seq<CheckResult>, configured: nat) {
    && |cs| == |results|
    && (forall n :: 0 <= n < configured ==> exists i :: 0 <= i < |cs| && cs[i].key == Cfg(n))
    && (forall i :: 0 <= i < |cs| ==> FromSource(cs[i], results[i], configured))
  }

  ghost predicate FromSource(c: Candidate, result: CheckResult, configured: nat) {
    && (if c.key.Cfg? then c.key.index < configured else c.name == c.key.machine)
    && (c.key.Cfg? || result.Answered? ==> c.bases != [])
  }

  // ------------------------------------------------------------------------- turns

  /** The keys that the first k candidates put on the list, in order, when `known0` were
      known on entry: a candidate is listed unless it is skipped or is a tailnet peer that
      neither answered nor is known by then. */
  function Turns(self: string, cs: seq<Candidate>, results: seq<CheckResult>, known0: set<Key>, k: nat): seq<Key>
    requires k <= |cs| == |results|
  {
    if k == 0 then []
    else
      var sofar := Turns(self, cs, results, known0, k - 1);
      if Takes(self, cs, results, known0 + (set x | x in sofar), k - 1) then sofar + [cs[k - 1].key] else sofar
  }

  predicate Takes(self: string, cs: seq<Candidate>, results: seq<CheckResult>, known: set<Key>, i: nat)
    requires i < |cs| == |results|
  {
    !Skipped(self, results, i) && (cs[i].key.Cfg? || results[i].Answered? || cs[i].key in known)
  }

  /** Keys whose last turn was an answer. */
  function Up(self: string, cs: seq<Candidate>, results: seq<CheckResult>, known0: set<Key>, k: nat): set<Key>
    requires k <= |cs| == |results|
  {
    if k == 0 then {}
    else
      var (sofar, up) := (Turns(self, cs, results, known0, k - 1), Up(self, cs, results, known0, k - 1));
      if Takes(self, cs, results, known0 + (set x | x in sofar), k - 1)
      then if results[k - 1].Answered? then up + {cs[k - 1].key} else up - {cs[k - 1].key}
      else up
  }

  /** Some candidate of the first n has this key and is not skipped. */
  ghost predicate Runs(self: string, cs: seq<Candidate>, results: seq<CheckResult>, n: nat, key: Key)
    requires n <= |cs| == |results|
  {
    exists i :: 0 <= i < n && RunsAt(self, cs, results, i, key)
  }

  predicate RunsAt(self: string, cs: seq<Candidate>, results: seq<CheckResult>, i: nat, key: Key)
    requires i < |cs| == |results|
  {
    cs[i].key == key && !Skipped(self, results, i)
  }

  /** The host was a candidate, and every one of its candidates was skipped. */
  ghost predicate SkippedKey(self: string, cs: seq<Candidate>, results: seq<CheckResult>, key: Key)
    requires |cs| == |results|
  {
    (exists i :: 0 <= i < |cs| && cs[i].key == key) && !Runs(self, cs, results, |cs|, key)
  }

  /** The last of its candidates that was not skipped answered. */
  ghost predicate EndsOnline(self: string, cs: seq<Candidate>, results: seq<CheckResult>, n: nat, key: Key)
    requires n <= |cs| == |results|
  {
    exists i :: 0 <= i < n && LastRun(self, cs, results, n, key, i) && results[i].Answered?
  }

  predicate LastRun(self: string, cs: seq<Candidate>, results: seq<CheckResult>, n: nat, key: Key, i: nat)
    requires i < n <= |cs| == |results|
  {
    RunsAt(self, cs, results, i, key) && forall j :: i < j < n ==> !RunsAt(self, cs, results, j, key)
  }

  /** Two candidates that are not skipped share a key, and the first of them is listed. */
  ghost predicate SharedKey(self: string, cs: seq<Candidate>, results: seq<CheckResult>, known0: set<Key>, n: nat)
    requires n <= |cs| == |results|
  {
    exists i, j :: 0 <= i < j < n && Shared(self, cs, results, known0, i, j)
  }

  predicate Shared(self: string, cs: seq<Candidate>, results: seq<CheckResult>, known0: set<Key>, i: nat, j: nat)
    requires i < j < |cs| == |results|
  {
    ListsAt(self, cs, results, known0, i, cs[j].key) && !Skipped(self, results, j)
  }

  /** One candidate's turn. */
  lemma NextTurn(self: string, cs: seq<Candidate>, results: seq<CheckResult>, known0: set<Key>, k: nat, configured: nat)
    requires k < |cs| == |results| && Candidates(cs, results, configured)
    ensures FromSource(cs[k], results[k], configured)
    ensures Skipped(self, results, k) <==>
              results[k].Answered? && results[k].instance != ""
              && (results[k].instance == self || results[k].instance in Seen(self, results, k))
    ensures Seen(self, results, k + 1) == Seen(self, results, k)
              + if results[k].Answered? && results[k].instance != "" && results[k].instance != self then {results[k].instance} else {}
    ensures var (sofar, up) := (Turns(self, cs, results, known0, k), Up(self, cs, results, known0, k));
      if Takes(self, cs, results, known0 + (set x | x in sofar), k) then
        Turns(self, cs, results, known0, k + 1) == sofar + [cs[k].key]
        && Up(self, cs, results, known0, k + 1) == if results[k].Answered? then up + {cs[k].key} else up - {cs[k].key}
      else
        Turns(self, cs, results, known0, k + 1) == sofar && Up(self, cs, results, known0, k + 1) == up
  {
    if results[k].Answered? { SeenMeans(self, results, k, results[k].instance); }
  }

  /** A key is listed exactly if one of its candidates is not skipped and is configured,
      answered or known. */
  lemma {:induction false} TurnsMean(self: string, cs: seq<Candidate>, results: seq<CheckResult>, known0: set<Key>, k: nat, key: Key)
    requires k <= |cs| == |results|
    ensures key in Turns(self, cs, results, known0, k) <==> exists i :: 0 <= i < k && ListsAt(self, cs, results, known0, i, key)
  {
    hide Skipped;
    if k > 0 {
      TurnsMean(self, cs, results, known0, k - 1, key);
      var sofar := Turns(self, cs, results, known0, k - 1);
      if Takes(self, cs, results, known0 + (set x | x in sofar), k - 1) && cs[k - 1].key == key && key !in sofar {
        assert ListsAt(self, cs, results, known0, k - 1, key);
      }
      if ListsAt(self, cs, results, known0, k - 1, key) {
        assert Takes(self, cs, results, known0 + (set x | x in sofar), k - 1);
      }
    }
  }

  predicate ListsAt(self: string, cs: seq<Candidate>, results: seq<CheckResult>, known0: set<Key>, i: nat, key: Key)
    requires i < |cs| == |results|
  {
    cs[i].key == key && Takes(self, cs, results, known0, i)
  }

  /** The list is free of duplicates exactly if no two listed candidates share a key. */
  lemma {:induction false} DistinctTurnsIff(self: string, cs: seq<Candidate>, results: seq<CheckResult>, known0: set<Key>, k: nat)
    requires k <= |cs| == |results|
    ensures Distinct(Turns(self, cs, results, known0, k)) <==> !SharedKey(self, cs, results, known0, k)
  {
    hide Skipped;
    if k > 0 {
      DistinctTurnsIff(self, cs, results, known0, k - 1);
      TurnsMean(self, cs, results, known0, k - 1, cs[k - 1].key);
      SharedNext(self, cs, results, known0, k - 1);
      AppendDistinct(Turns(self, cs, results, known0, k - 1), cs[k - 1].key);
      if !Skipped(self, results, k - 1) && cs[k - 1].key in Turns(self, cs, results, known0, k - 1) {
        var i :| 0 <= i < k - 1 && ListsAt(self, cs, results, known0, i, cs[k - 1].key);
        assert Shared(self, cs, results, known0, i, k - 1);
      }
    }
  }

  lemma AppendDistinct<T>(s: seq<T>, x: T)
    ensures Distinct(s + [x]) <==> Distinct(s) && x !in s
  {
    if Distinct(s + [x]) {
      assert forall i :: 0 <= i < |s| ==> (s + [x])[i] == s[i];
      assert (s + [x])[|s|] == x;
    }
  }

  lemma SharedNext(self: string, cs: seq<Candidate>, results: seq<CheckResult>, known0: set<Key>, k: nat)
    requires k < |cs| == |results|
    ensures SharedKey(self, cs, results, known0, k + 1) <==>
              SharedKey(self, cs, results, known0, k) || exists i :: 0 <= i < k && Shared(self, cs, results, known0, i, k)
  {
    hide Shared;
    if SharedKey(self, cs, results, known0, k) {
      var i, j :| 0 <= i < j < k && Shared(self, cs, results, known0, i, j);
      assert Shared(self, cs, results, known0, i, j);
    }
  }

  lemma {:induction false} UpMeans(self: string, cs: seq<Candidate>, results: seq<CheckResult>, known0: set<Key>, k: nat, key: Key)
    requires k <= |cs| == |results|
    ensures key in Up(self, cs, results, known0, k) <==> EndsOnline(self, cs, results, k, key)
  {
    hide Skipped;
    if k > 0 {
      UpMeans(self, cs, results, known0, k - 1, key);
      EndsNext(self, cs, results, k - 1, key);
      UpAreTurns(self, cs, results, known0, k - 1, key);
    }
  }

  lemma {:induction false} UpAreTurns(self: string, cs: seq<Candidate>, results: seq<CheckResult>, known0: set<Key>, k: nat, key: Key)
    requires k <= |cs| == |results|
    ensures key in Up(self, cs, results, known0, k) ==> key in Turns(self, cs, results, known0, k)
  {
    if k > 0 { UpAreTurns(self, cs, results, known0, k - 1, key); }
  }

  lemma EndsNext(self: string, cs: seq<Candidate>, results: seq<CheckResult>, k: nat, key: Key)
    requires k < |cs| == |results|
    ensures EndsOnline(self, cs, results, k + 1, key) <==>
              if RunsAt(self, cs, results, k, key) then results[k].Answered? else EndsOnline(self, cs, results, k, key)
  {
    hide RunsAt;
    if RunsAt(self, cs, results, k, key) {
      assert LastRun(self, cs, results, k + 1, key, k);
    } else {
      if EndsOnline(self, cs, results, k, key) {
        var i :| 0 <= i < k && LastRun(self, cs, results, k, key, i) && results[i].Answered?;
        assert LastRun(self, cs, results, k + 1, key, i);
      }
      if EndsOnline(self, cs, results, k + 1, key) {
        var i :| 0 <= i < k + 1 && LastRun(self, cs, results, k + 1, key, i) && results[i].Answered?;
        assert i < k && LastRun(self, cs, results, k, key, i);
      }
    }
  }

  /** Who is on the list after a scan: a host known by then, unless all its candidates were
      skipped. */
  lemma WhoIsListed(self: string, cs: seq<Candidate>, results: seq<CheckResult>, known0: set<Key>, configured: nat, key: Key)
    requires Candidates(cs, results, configured) && (key.Cfg? ==> key.index < configured)
    requires key in known0 || key in Turns(self, cs, results, known0, |cs|)
    ensures var inScan := set c | c in cs :: c.key;
      && ((key in Turns(self, cs, results, known0, |cs|) || (key.Ts? && key !in inScan)) <==> !SkippedKey(self, cs, results, key))
      && (key in Turns(self, cs, results, known0, |cs|) ==> key in inScan)
      && (key !in inScan ==> !EndsOnline(self, cs, results, |cs|, key))
  {
    hide Skipped;
    TurnsMean(self, cs, results, known0, |cs|, key);
    if Runs(self, cs, results, |cs|, key) {
      var i :| 0 <= i < |cs| && RunsAt(self, cs, results, i, key);
      assert key in known0 ==> ListsAt(self, cs, results, known0, i, key);
    }
    if key in Turns(self, cs, results, known0, |cs|) {
      var i :| 0 <= i < |cs| && ListsAt(self, cs, results, known0, i, key);
      assert RunsAt(self, cs, results, i, key);
    }
    if key.Cfg? { var i :| 0 <= i < |cs| && cs[i].key == Cfg(key.index); }
    if key in set c | c in cs :: c.key { var i :| 0 <= i < |cs| && cs[i].key == key; }
  }

  // ------------------------------------------------------------------------- lists

  /** The keys of one kind, in order. */
  function Pick(keys: seq<Key>, cfg: bool): seq<Key> {
    if keys == [] then []
    else Pick(keys[..|keys| - 1], cfg) + (if keys[|keys| - 1].Cfg? == cfg then [keys[|keys| - 1]] else [])
  }

  function KeysOf(rs: seq<PeerRecord>): (r: seq<Key>)
    ensures |r| == |rs| && forall i :: 0 <= i < |rs| ==> r[i] == rs[i].key
  {
    seq(|rs|, i requires 0 <= i < |rs| => rs[i].key)
  }

  ghost predicate Known(known: map<Key, PeerRecord>, rs: seq<PeerRecord>) {
    forall i :: 0 <= i < |rs| ==> rs[i].key in known && known[rs[i].key] == rs[i]
  }

  /** The two lists hold the known records with these keys, in their order. */
  ghost predicate Holds(known: map<Key, PeerRecord>, confs: seq<PeerRecord>, discs: seq<PeerRecord>, keys: seq<Key>) {
    && KeysOf(confs) == Pick(keys, true) && KeysOf(discs) == Pick(keys, false)
    && Known(known, confs) && Known(known, discs)
  }

  lemma HoldsOneMore(was: map<Key, PeerRecord>, now: map<Key, PeerRecord>, confs: seq<PeerRecord>,
                     discs: seq<PeerRecord>, keys: seq<Key>, key: Key)
    requires Holds(was, confs, discs, keys) && key in now && now[key].key == key
    requires forall k :: k in was ==> k in now && now[k] == was[k]
    ensures Holds(now, if key.Cfg? then confs + [now[key]] else confs, if key.Cfg? then discs else discs + [now[key]],
              keys + [key])
  {
    assert (keys + [key])[..|keys|] == keys;
    assert KeysOf(confs + [now[key]]) == KeysOf(confs) + [key] && KeysOf(discs + [now[key]]) == KeysOf(discs) + [key];
  }

  lemma {:induction false} PickSplits(keys: seq<Key>)
    ensures multiset(Pick(keys, true) + Pick(keys, false)) == multiset(keys)
    ensures forall k :: k in Pick(keys, true) ==> k.Cfg?
    ensures forall k :: k in Pick(keys, false) ==> k.Ts?
  {
    if keys != [] {
      var (front, last) := (keys[..|keys| - 1], keys[|keys| - 1]);
      PickSplits(front);
      assert keys == front + [last];
      var (a, b) := (Pick(front, true), Pick(front, false));
      Regroup(a, b, last);
      if last.Cfg? {
        assert Pick(keys, true) == a + [last] && Pick(keys, false) == b;
      } else {
        assert Pick(keys, true) == a && Pick(keys, false) == b + [last];
      }
    }
  }

  lemma Regroup<T>(a: seq<T>, b: seq<T>, x: T)
    ensures multiset((a + [x]) + b) == multiset(a + b) + multiset{x} == multiset(a + (b + [x]))
    ensures a + [] == a && b + [] == b
  {
  }

  lemma {:induction false} DistinctByCount<T>(s: seq<T>)
    ensures Distinct(s) <==> forall x :: multiset(s)[x] <= 1
  {
    if s != [] {
      var (front, x) := (s[..|s| - 1], s[|s| - 1]);
      DistinctByCount(front);
      assert s == front + [x];
      AppendDistinct(front, x);
      assert x in front <==> multiset(front)[x] >= 1;
      if Distinct(s) {
        forall y ensures multiset(s)[y] <= 1 { }
      } else {
        assert !Distinct(front) || x in front;
        if !Distinct(front) {
          var y :| multiset(front)[y] > 1;
          assert multiset(s)[y] > 1;
        } else {
          assert multiset(s)[x] > 1;
        }
      }
    }
  }

  lemma SameCountDistinct<T>(a: seq<T>, b: seq<T>)
    requires multiset(a) == multiset(b)
    ensures Distinct(a) <==> Distinct(b)
    ensures forall x :: x in a <==> x in b
  {
    DistinctByCount(a);
    DistinctByCount(b);
    assert forall x :: x in a <==> x in multiset(a);
    assert forall x :: x in b <==> x in multiset(b);
  }

  lemma KnownByKey(known: map<Key, PeerRecord>, rs: seq<PeerRecord>, k: Key)
    requires Known(known, rs) && k in known && known[k].key == k
    ensures known[k] in rs <==> k in KeysOf(rs)
  {
    if known[k] in rs {
      var i :| 0 <= i < |rs| && rs[i] == known[k];
      assert KeysOf(rs)[i] == k;
    }
    if k in KeysOf(rs) {
      var i :| 0 <= i < |rs| && KeysOf(rs)[i] == k;
      assert rs[i] == known[k];
    }
  }

  lemma DistinctByKey(known: map<Key, PeerRecord>, rs: seq<PeerRecord>)
    requires Known(known, rs)
    ensures Distinct(rs) <==> Distinct(KeysOf(rs))
  {
    if Distinct(rs) {
      forall i, j | 0 <= i < j < |rs| ensures KeysOf(rs)[i] != KeysOf(rs)[j] {
        assert known[rs[i].key] == rs[i] && known[rs[j].key] == rs[j];
      }
    }
    if Distinct(KeysOf(rs)) {
      forall i, j | 0 <= i < j < |rs| ensures rs[i] != rs[j] { assert KeysOf(rs)[i] != KeysOf(rs)[j]; }
    }
  }

  /** The whole list: its records are those with the listed keys, and it is free of
      duplicates exactly if the keys are. */
  lemma WholeList(known: map<Key, PeerRecord>, confs: seq<PeerRecord>, discs: seq<PeerRecord>, sorted: seq<PeerRecord>, keys: seq<Key>)
    requires Holds(known, confs, discs, keys) && multiset(sorted) == multiset(discs)
    requires forall k :: k in known ==> known[k].key == k
    ensures forall r :: r in confs + sorted ==> r.key in known && known[r.key] == r
    ensures forall k :: k in known ==> (known[k] in confs + sorted <==> k in keys)
    ensures Distinct(confs + sorted) <==> Distinct(keys)
    ensures (forall r :: r in confs ==> r.key.Cfg?) && forall r :: r in sorted ==> r.key.Ts?
  {
    hide Distinct, Holds, Pick;
    BothLists(known, confs, discs, keys);
    SamePrefix(confs, sorted, discs);
    SameCountDistinct(confs + discs, confs + sorted);
  }

  lemma SamePrefix<T>(a: seq<T>, b: seq<T>, c: seq<T>)
    requires multiset(b) == multiset(c)
    ensures multiset(a + b) == multiset(a + c) && forall x :: x in b <==> x in c
  {
    SameCountDistinct(b, c);
  }

  lemma BothLists(known: map<Key, PeerRecord>, confs: seq<PeerRecord>, discs: seq<PeerRecord>, keys: seq<Key>)
    requires Holds(known, confs, discs, keys) && forall k :: k in known ==> known[k].key == k
    ensures forall r :: r in confs + discs ==> r.key in known && known[r.key] == r
    ensures forall k :: k in known ==> (known[k] in confs + discs <==> k in keys)
    ensures Distinct(confs + discs) <==> Distinct(keys)
    ensures (forall r :: r in confs ==> r.key.Cfg?) && forall r :: r in discs ==> r.key.Ts?
  {
    hide Distinct, Pick;
    var both := confs + discs;
    assert KeysOf(both) == Pick(keys, true) + Pick(keys, false) && Known(known, both);
    PickSplits(keys);
    SameCountDistinct(KeysOf(both), keys);
    DistinctByKey(known, both);
    forall k | k in known ensures known[k] in both <==> k in keys { KnownByKey(known, both, k); }
    forall r | r in both ensures r.key in known && known[r.key] == r { var i :| 0 <= i < |both| && both[i] == r; }
    ListKinds(confs, Pick(keys, true), true);
    ListKinds(discs, Pick(keys, false), false);
  }

  lemma ListKinds(rs: seq<PeerRecord>, keys: seq<Key>, cfg: bool)
    requires KeysOf(rs) == keys && forall k :: k in keys ==> k.Cfg? == cfg
    ensures forall r :: r in rs ==> r.key.Cfg? == cfg
  {
    forall r | r in rs ensures r.key.Cfg? == cfg {
      var i :| 0 <= i < |rs| && rs[i] == r;
      assert keys[i] == r.key;
    }
  }
}

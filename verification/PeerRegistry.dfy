/**
  The registry of peer agents (peers.go): the records it keeps, and one complete scan.
*/
module PeerRegistry {
  import opened PeerIds
  import opened PeerTurns
  import opened Text

  // ------------------------------------------------------------ listing by name

  lemma NotLessTransitive(a: string, b: string, c: string)
    requires !Less(b, a) && !Less(c, b)
    ensures !Less(c, a)
  {
    if Less(c, a) {
      LessTotal(a, b);
      LessTotal(b, c);
      if a == b { } else if b == c { } else { LessTransitive(a, b, c); LessTransitive(a, c, a); LessIrreflexive(a); }
    }
  }

  ghost predicate ByName(rs: seq<PeerRecord>)
    reads rs`name
  {
    forall i, j :: 0 <= i < j < |rs| ==> !Less(rs[j].name, rs[i].name)
  }

  /** Configured hosts first, then the discovered ones by name. */
  ghost predicate InListOrder(rs: seq<PeerRecord>)
    reads rs`name
  {
    forall i, j :: 0 <= i < j < |rs| && rs[i].key.Ts? ==> rs[j].key.Ts? && !Less(rs[j].name, rs[i].name)
  }

  lemma ListOrder(confs: seq<PeerRecord>, sorted: seq<PeerRecord>)
    requires (forall r :: r in confs ==> r.key.Cfg?) && (forall r :: r in sorted ==> r.key.Ts?) && ByName(sorted)
    ensures InListOrder(confs + sorted)
  {
    var rs := confs + sorted;
    forall i, j | 0 <= i < j < |rs| && rs[i].key.Ts? ensures rs[j].key.Ts? && !Less(rs[j].name, rs[i].name) {
      assert forall k :: 0 <= k < |confs| ==> confs[k] in confs && rs[k] == confs[k];
      assert rs[j] in sorted;
    }
  }

  /** The records with this name, in their order. */
  ghost function Named(rs: seq<PeerRecord>, name: string): seq<PeerRecord>
    reads rs`name
    decreases |rs|
  {
    if rs == [] then []
    else
      assert rs[|rs| - 1] in rs && forall r :: r in rs[..|rs| - 1] ==> r in rs;
      Named(rs[..|rs| - 1], name) + (if rs[|rs| - 1].name == name then [rs[|rs| - 1]] else [])
  }

  lemma {:induction false} NamedConcat(a: seq<PeerRecord>, b: seq<PeerRecord>, name: string)
    ensures Named(a + b, name) == Named(a, name) + Named(b, name)
    decreases |b|
  {
    if b == [] {
      assert a + b == a;
    } else {
      NamedConcat(a, b[..|b| - 1], name);
      assert (a + b)[..|a + b| - 1] == a + b[..|b| - 1];
    }
  }

  lemma {:induction false} NoneNamed(rs: seq<PeerRecord>, name: string)
    requires forall i :: 0 <= i < |rs| ==> rs[i].name != name
    ensures Named(rs, name) == []
    decreases |rs|
  {
    if rs != [] { NoneNamed(rs[..|rs| - 1], name); }
  }

  /** sort.SliceStable by name: a permutation in order that keeps the order of equal names. */
  method SortByName(rs: seq<PeerRecord>) returns (out: seq<PeerRecord>)
    ensures multiset(out) == multiset(rs) && ByName(out) && forall n :: Named(out, n) == Named(rs, n)
  {
    hide Named;
    out := [];
    var k := 0;
    assert rs[..0] == [];
    while k < |rs|
      invariant k <= |rs| && multiset(out) == multiset(rs[..k]) && ByName(out)
      invariant forall n :: Named(out, n) == Named(rs[..k], n)
    {
      assert rs[..k + 1] == rs[..k] + [rs[k]];
      ghost var was := out;
      out := InsertByName(out, rs[k]);
      forall n ensures Named(out, n) == Named(rs[..k + 1], n) {
        NamedConcat(was, [rs[k]], n);
        NamedConcat(rs[..k], [rs[k]], n);
      }
      k := k + 1;
    }
    assert rs[..|rs|] == rs;
  }

  method InsertByName(rs: seq<PeerRecord>, r: PeerRecord) returns (out: seq<PeerRecord>)
    requires ByName(rs)
    ensures multiset(out) == multiset(rs + [r]) && ByName(out) && forall n :: Named(out, n) == Named(rs + [r], n)
  {
    var p := |rs|;
    while p > 0 && Less(r.name, rs[p - 1].name)
      invariant 0 <= p <= |rs| && forall i :: p <= i < |rs| ==> Less(r.name, rs[i].name)
    {
      p := p - 1;
    }
    InsertedByName(rs, r, p);
    InsertedNamed(rs[..p], r, rs[p..]);
    assert rs == rs[..p] + rs[p..];
    out := rs[..p] + [r] + rs[p..];
  }

  lemma InsertedByName(rs: seq<PeerRecord>, r: PeerRecord, p: nat)
    requires ByName(rs) && p <= |rs| && (p > 0 ==> !Less(r.name, rs[p - 1].name))
    requires forall i :: p <= i < |rs| ==> Less(r.name, rs[i].name)
    ensures ByName(rs[..p] + [r] + rs[p..])
  {
    var out := rs[..p] + [r] + rs[p..];
    forall i | 0 <= i < p ensures !Less(r.name, rs[i].name) {
      if i < p - 1 { NotLessTransitive(rs[i].name, rs[p - 1].name, r.name); }
    }
    forall i | p <= i < |rs| ensures !Less(rs[i].name, r.name) {
      if Less(rs[i].name, r.name) { LessTransitive(r.name, rs[i].name, r.name); LessIrreflexive(r.name); }
    }
    assert forall i :: 0 <= i < |out| ==> out[i] == if i < p then rs[i] else if i == p then r else rs[i - 1];
  }

  lemma InsertedNamed(a: seq<PeerRecord>, r: PeerRecord, b: seq<PeerRecord>)
    requires forall i :: 0 <= i < |b| ==> Less(r.name, b[i].name)
    ensures forall n :: Named(a + [r] + b, n) == Named(a + b + [r], n)
    ensures multiset(a + [r] + b) == multiset(a + b + [r])
  {
    hide Named, Less;
    forall n ensures Named(a + [r] + b, n) == Named(a + b + [r], n) {
      NamedConcat(a, [r], n);
      NamedConcat(a + [r], b, n);
      NamedConcat(a, b, n);
      NamedConcat(a + b, [r], n);
      ApartByName(r, b, n);
    }
  }

  lemma ApartByName(r: PeerRecord, b: seq<PeerRecord>, n: string)
    requires forall i :: 0 <= i < |b| ==> Less(r.name, b[i].name)
    ensures Named([r], n) == [] || Named(b, n) == []
  {
    LessIrreflexive(r.name);
    if n == r.name { NoneNamed(b, n); } else { NoneNamed([r], n); }
  }

  // -------------------------------------------------------------- applying a scan

  ghost predicate ByKey(known: map<Key, PeerRecord>, configured: nat) {
    forall k :: k in known ==> known[k].key == k && (k.Cfg? ==> k.index < configured)
  }

  /** What a scan changes in a record, but for its name and id. */
  datatype Info = Info(online: bool, base: string, hostname: string, lastSeen: int)

  ghost function Details(r: PeerRecord): Info
    reads r
  {
    Info(r.online, r.base, r.hostname, r.lastSeen)
  }

  function Created(c: Candidate): Info { Info(false, if c.bases == [] then "" else c.bases[0], "", 0) }

  /** A record after its candidate's turn: an answer brings everything up to date, a failure
      only takes the host offline; the name follows from what is now known. */
  ghost predicate UpdatedRecord(c: Candidate, result: CheckResult, now: int, r: PeerRecord, was: Info)
    reads r
  {
    && Details(r) == (if result.Answered? then Info(true, result.base, result.hostname, now) else was.(online := false))
    && r.name == DisplayName(c, r.hostname, r.base)
  }

  /** The ids of these records are those assigned from `was`. */
  ghost predicate IdsFrom(rs: seq<PeerRecord>, was: seq<string>)
    reads rs`id, rs`name
  {
    |was| == |rs| && Aliased(rs, was) && Assigned(rs, was, Names(rs), Ids(rs), |rs|)
  }

  class Registry {
    const self: string
    const configured: nat
    var records: seq<PeerRecord>
    var byID: map<string, PeerRecord>
    var known: map<Key, PeerRecord>

    /** byID and the listed records are in bijection. */
    ghost predicate Bijective() reads this, records {
      && (forall r :: r in records ==> r.id in byID && byID[r.id] == r)
      && (forall id :: id in byID ==> byID[id] in records && byID[id].id == id)
    }

    ghost predicate Valid() reads this, records, known.Values {
      && ByKey(known, configured) && Bijective() && MachineNames()
      && (forall r :: r in records ==> r.key in known && known[r.key] == r)
      && (forall r :: r in records ==> r.id != "" && r.id != LOCAL_ID)
      && CleanIds()
    }

    ghost predicate CleanIds() reads `known, known.Values`id {
      forall k :: k in known ==> known[k].id == "" || Clean(known[k].id)
    }

    /** A tailnet host is shown under its machine name. */
    ghost predicate MachineNames() reads `known, known.Values`name {
      forall k :: k in known && k.Ts? ==> known[k].name == k.machine
    }

    /** Of the hosts with these keys, those in `up` are online. */
    ghost predicate OnlineAs(keys: seq<Key>, up: set<Key>) reads `known, known.Values`online {
      forall k :: k in keys ==> k in known && (known[k].online <==> k in up)
    }

    lemma NobodyYet()
      ensures OnlineAs([], {})
    {
    }

    constructor (self: string, configured: nat)
      ensures Valid() && this.self == self && this.configured == configured && records == [] && known == map[]
    {
      this.self, this.configured := self, configured;
      records, byID, known := [], map[], map[];
    }

    /** One candidate's turn: find or create its record and bring it up to date.  A tailnet
        peer that never answered as an agent stays out. */
    method Update(c: Candidate, result: CheckResult, now: int) returns (listed: bool)
      requires ByKey(known, configured) && FromSource(c, result, configured)
      modifies this`known, known.Values
      ensures ByKey(known, configured) && (old(MachineNames()) ==> MachineNames())
      ensures listed <==> c.key.Cfg? || result.Answered? || c.key in old(known)
      ensures known.Keys == old(known.Keys) + (if listed then {c.key} else {}) && (!listed ==> known == old(known))
      ensures listed ==> UpdatedRecord(c, result, now, known[c.key],
                             if c.key in old(known) then old(Details(known[c.key])) else Created(c))
      ensures forall k :: k in old(known) ==> k in known && known[k] == old(known)[k] && known[k].id == old(known[k].id)
      ensures forall k :: k in known && k !in old(known) ==> k == c.key && fresh(known[k]) && known[k].id == ""
      ensures forall k :: k in old(known) && k != c.key ==> unchanged(known[k])
    {
      listed := Find(c, result.Answered?);
      if listed { Refresh(known[c.key], c, result, now); }
    }

    /** The candidate's record, created unless it is a tailnet peer that never answered. */
    method Find(c: Candidate, answered: bool) returns (found: bool)
      requires ByKey(known, configured) && (c.key.Cfg? ==> c.key.index < configured)
      requires c.key.Cfg? || answered ==> c.bases != []
      modifies this`known
      ensures ByKey(known, configured) && (found <==> c.key.Cfg? || answered || c.key in old(known))
      ensures if found && c.key !in old(known) then
                c.key in known && known == old(known)[c.key := known[c.key]] && fresh(known[c.key])
                && known[c.key].id == "" && Details(known[c.key]) == Created(c)
              else known == old(known)
      ensures found ==> c.key in known
    {
      if c.key !in known {
        if c.key.Ts? && !answered { return false; }
        var created := new PeerRecord(c.key, c.bases[0]);
        known := known[c.key := created];
      }
      found := true;
    }

    /** ... and brought up to date. */
    method Refresh(r: PeerRecord, c: Candidate, result: CheckResult, now: int)
      modifies r`online, r`base, r`hostname, r`lastSeen, r`name
      ensures UpdatedRecord(c, result, now, r, old(Details(r)))
    {
      r.online := result.Answered?;
      if result.Answered? {
        r.base, r.hostname, r.lastSeen := result.base, result.hostname, now;
      }
      r.name := DisplayName(c, r.hostname, r.base);
    }

    /** ... and put it on its list. */
    method Place(c: Candidate, result: CheckResult, now: int,
                 confs0: seq<PeerRecord>, discs0: seq<PeerRecord>, ghost keys: seq<Key>, ghost up: set<Key>)
      returns (confs: seq<PeerRecord>, discs: seq<PeerRecord>, ghost listed: bool)
      requires ByKey(known, configured) && MachineNames() && Holds(known, confs0, discs0, keys) && OnlineAs(keys, up)
      requires FromSource(c, result, configured)
      modifies this`known, known.Values
      ensures ByKey(known, configured) && MachineNames()
      ensures Holds(known, confs, discs, if listed then keys + [c.key] else keys)
      ensures if listed then OnlineAs(keys + [c.key], if result.Answered? then up + {c.key} else up - {c.key}) else OnlineAs(keys, up)
      ensures listed <==> c.key.Cfg? || result.Answered? || c.key in old(known)
      ensures known.Keys == old(known.Keys) + if listed then {c.key} else {}
      ensures forall k :: k in old(known) ==> k in known && known[k] == old(known)[k] && known[k].id == old(known[k].id)
      ensures forall k :: k in known && k !in old(known) ==> k == c.key && fresh(known[k]) && known[k].id == ""
    {
      hide Holds;
      ghost var was := known;
      var placed := Update(c, result, now);
      confs, discs, listed := confs0, discs0, placed;
      if placed {
        HoldsOneMore(was, known, confs, discs, keys, c.key);
        if c.key.Cfg? { confs := confs + [known[c.key]]; } else { discs := discs + [known[c.key]]; }
      }
    }

    /** The candidate loop. */
    method Gather(cs: seq<Candidate>, results: seq<CheckResult>, now: int)
      returns (confs: seq<PeerRecord>, discs: seq<PeerRecord>)
      requires ByKey(known, configured) && MachineNames() && |cs| == |results| && Candidates(cs, results, configured)
      modifies this`known, known.Values
      ensures ByKey(known, configured) && MachineNames()
      ensures var turns := Turns(self, cs, results, old(known.Keys), |cs|);
        Holds(known, confs, discs, turns) && known.Keys == old(known.Keys) + (set k | k in turns)
      ensures OnlineAs(Turns(self, cs, results, old(known.Keys), |cs|), Up(self, cs, results, old(known.Keys), |cs|))
      ensures forall k :: k in old(known) ==> k in known && known[k] == old(known)[k] && known[k].id == old(known[k].id)
      ensures forall k :: k in known && k !in old(known) ==> fresh(known[k]) && known[k].id == ""
    {
      hide Turns, Up, Seen, Skipped, Holds, Candidates, MachineNames, OnlineAs;
      confs, discs := [], [];
      var seen: set<string> := {};
      ghost var known0, turns, up := known.Keys, [], {};
      NothingYet(self, cs, results, known);
      NobodyYet();
      var k := 0;
      while k < |cs|
        invariant k <= |cs| && ByKey(known, configured) && MachineNames() && seen == Seen(self, results, k)
        invariant turns == Turns(self, cs, results, known0, k) && up == Up(self, cs, results, known0, k)
        invariant Holds(known, confs, discs, turns) && known.Keys == known0 + (set x | x in turns)
        invariant OnlineAs(turns, up)
        invariant forall x :: x in old(known) ==> x in known && known[x] == old(known)[x] && known[x].id == old(known[x].id)
        invariant forall x :: x in known && x !in old(known) ==> fresh(known[x]) && known[x].id == ""
      {
        var c, result := cs[k], results[k];
        NextTurn(self, cs, results, known0, k, configured);
        k := k + 1;
        if result.Answered? && result.instance != "" {
          if result.instance == self || result.instance in seen { continue; }
          seen := seen + {result.instance};
        }
        ghost var listed;
        confs, discs, listed := Place(c, result, now, confs, discs, turns, up);
        if listed {
          assert (set x | x in turns + [c.key]) == (set x | x in turns) + {c.key};
          turns, up := turns + [c.key], if result.Answered? then up + {c.key} else up - {c.key};
        }
      }
    }

    /** Known discovered hosts that this scan did not reach stay listed, as offline. */
    method AddOffline(confs: seq<PeerRecord>, discs: seq<PeerRecord>, inScan: set<Key>, ghost keys: seq<Key>)
      returns (all: seq<PeerRecord>, ghost offline: seq<Key>)
      requires ByKey(known, configured) && Holds(known, confs, discs, keys)
      modifies known.Values`online
      ensures Holds(known, confs, all, keys + offline) && Distinct(offline)
      ensures forall k :: k in offline <==> k in known && k.Ts? && k !in inScan
      ensures forall k :: k in known ==> known[k].online == (old(known[k].online) && k !in offline)
    {
      hide Holds, Distinct;
      all, offline := discs, [];
      assert keys + offline == keys;
      NothingTwice();
      var todo := known.Keys;
      while todo != {}
        invariant todo <= known.Keys && Distinct(offline)
        invariant forall k :: k in offline <==> k in known && k !in todo && k.Ts? && k !in inScan
        invariant Holds(known, confs, all, keys + offline)
        invariant forall k :: k in known ==> known[k].online == (old(known[k].online) && k !in offline)
        decreases todo
      {
        var k :| k in todo;
        todo := todo - {k};
        if k.Ts? && k !in inScan {
          known[k].online := false;
          HoldsOneMore(known, known, confs, all, keys + offline, k);
          all := all + [known[k]];
          AppendDistinct(offline, k);
          assert keys + offline + [k] == keys + (offline + [k]);
          offline := offline + [k];
        }
      }
    }

    method IndexById(rs: seq<PeerRecord>) returns (m: map<string, PeerRecord>)
      requires forall i, j :: 0 <= i < |rs| && 0 <= j < |rs| ==> (rs[i].id == rs[j].id <==> rs[i] == rs[j])
      ensures forall r :: r in rs ==> r.id in m && m[r.id] == r
      ensures forall id :: id in m ==> m[id] in rs && m[id].id == id
    {
      m := map[];
      var k := 0;
      while k < |rs|
        invariant k <= |rs|
        invariant forall i :: 0 <= i < k ==> rs[i].id in m && m[rs[i].id] == rs[i]
        invariant forall id :: id in m ==> m[id] in rs && m[id].id == id
      {
        m := m[rs[k].id := rs[k]];
        k := k + 1;
      }
    }

    /** What a scan makes of the list: every known host, unless all its candidates were
        skipped; online exactly if the last of them that was not skipped answered; and no
        record twice exactly if no two listed candidates share a key. */
    ghost predicate Listed(rs: seq<PeerRecord>, cs: seq<Candidate>, results: seq<CheckResult>, known0: set<Key>)
      requires |cs| == |results|
      reads `known, known.Values`online, rs`name
    {
      && InListOrder(rs) && Known(known, rs)
      && known.Keys == known0 + (set k | k in Turns(self, cs, results, known0, |cs|))
      && (forall k :: k in known ==> (known[k] in rs <==> !SkippedKey(self, cs, results, k)))
      && (forall k :: k in known && known[k] in rs ==> (known[k].online <==> EndsOnline(self, cs, results, |cs|, k)))
      && (Distinct(rs) <==> !SharedKey(self, cs, results, known0, |cs|))
    }

    /** The ids of the known hosts. */
    ghost function IdMap(): map<Key, string> reads `known, known.Values`id { map k | k in known :: known[k].id }

    /** The scan's host list: configured peers, then the discovered ones by name.  It holds a
        record twice exactly if two listed candidates share its key. */
    method List(cs: seq<Candidate>, results: seq<CheckResult>, now: int) returns (rs: seq<PeerRecord>)
      requires ByKey(known, configured) && MachineNames() && |cs| == |results| && Candidates(cs, results, configured)
      modifies this`known, known.Values
      ensures ByKey(known, configured) && MachineNames() && Listed(rs, cs, results, old(known.Keys))
      ensures forall r :: r in rs ==> r in old(known).Values || fresh(r)
      ensures forall k :: k in old(known) ==> k in known && known[k] == old(known)[k]
      ensures forall k :: k in known && k !in old(known) ==> fresh(known[k])
      ensures forall k :: k in known ==> known[k].id == IdIn(old(IdMap()), k)
    {
      hide Candidates, Turns, Up, SkippedKey, EndsOnline, SharedKey, Holds, InListOrder, ByName, Less, Named, Distinct, MachineNames;
      ghost var known0 := known.Keys;
      var confs, discs := Gather(cs, results, now);
      var inScan := set c | c in cs :: c.key;
      ghost var turns := Turns(self, cs, results, known0, |cs|);
      ghost var offline;
      discs, offline := AddOffline(confs, discs, inScan, turns);
      var sorted := SortByName(discs);
      WholeList(known, confs, discs, sorted, turns + offline);
      ListOrder(confs, sorted);
      rs := confs + sorted;
      assert forall k :: k in known ==> known[k].id == IdIn(old(IdMap()), k);
      forall k | k in known
        ensures k in turns + offline <==> !SkippedKey(self, cs, results, k)
        ensures k in turns + offline ==> (known[k].online <==> EndsOnline(self, cs, results, |cs|, k))
      {
        WhoIsListed(self, cs, results, known0, configured, k);
        UpMeans(self, cs, results, known0, |cs|, k);
      }
      DistinctTurnsIff(self, cs, results, known0, |cs|);
      forall k | k in turns ensures k in inScan { WhoIsListed(self, cs, results, known0, configured, k); }
      OfflineIsApart(turns, offline);
    }

    /** The listed records get their ids; `was` are the ids they had. */
    method Identify(rs: seq<PeerRecord>) returns (ghost was: seq<string>)
      requires Known(known, rs) && ByKey(known, configured) && CleanIds()
      modifies rs`id
      ensures was == old(Ids(rs)) && IdsFrom(rs, was)
      ensures CleanIds() && forall r :: r in rs ==> r.id != "" && r.id != LOCAL_ID
      ensures forall i, j :: 0 <= i < |rs| && 0 <= j < |rs| ==> (rs[i].id == rs[j].id <==> rs[i] == rs[j])
    {
      hide Assigned, Ids, Names;
      was := Ids(rs);
      forall i | 0 <= i < |rs| ensures was[i] == "" || Clean(was[i]) { assert rs[i] in rs; }
      AssignPeerIDs(rs);
      AssignedIds(rs, was, Names(rs), Ids(rs));
      forall r | r in rs ensures r.id != "" && r.id != LOCAL_ID && Clean(r.id) {
        var i :| 0 <= i < |rs| && rs[i] == r;
        assert Ids(rs)[i] == r.id;
      }
      assert forall i :: 0 <= i < |rs| ==> Ids(rs)[i] == rs[i].id;
    }

    /** The known hosts that have an id have different ones, none of them reserved. */
    ghost predicate Settled() reads `known, known.Values`id {
      && (forall k :: k in known ==> known[k].id != LOCAL_ID)
      && (forall k, l :: k in known && l in known && k != l && known[k].id != "" ==> known[k].id != known[l].id)
    }

    /** On a list without duplicates settled ids are distinct, ... */
    lemma SettledAreDistinct(rs: seq<PeerRecord>)
      requires Known(known, rs) && Settled() && Distinct(rs)
      ensures DistinctIds(Ids(rs))
    {
      forall i | 0 <= i < |rs| && Ids(rs)[i] != "" ensures Keeps(Ids(rs), i) {
        assert rs[i].key in known;
        forall j | 0 <= j < i ensures Ids(rs)[j] != Ids(rs)[i] { assert rs[j] != rs[i] && rs[j].key in known; }
      }
    }

    /** ... and with every known host listed their ids are settled. */
    lemma AllListedIsSettled()
      requires Valid() && forall k :: k in known ==> known[k] in records
      ensures Settled()
    {
      forall k, l | k in known && l in known && k != l ensures known[k].id != known[l].id {
        assert known[k] in records && known[l] in records;
      }
    }

    /** Every listed host that had an id still has it. */
    ghost predicate AllKeep(was: seq<string>) reads this, records {
      |was| == |records| && forall i :: 0 <= i < |records| && was[i] != "" ==> records[i].id == was[i]
    }

    lemma KeepIff(was: seq<string>)
      requires IdsFrom(records, was)
      ensures AllKeep(was) <==> DistinctIds(was)
    {
      hide Ids, Names, Assigned, DistinctIds;
      StableIff(records, was, Names(records), Ids(records));
    }

    /** Of two hosts that had the same id one loses it. */
    lemma SameIdIsLost(was: seq<string>, a: PeerRecord, b: PeerRecord, id: string)
      requires IdsFrom(records, was) && a in records && b in records && a != b && a.id != "" && b.id != ""
      ensures a.id != id || b.id != id
    {
      var i :| 0 <= i < |records| && records[i] == a;
      var j :| 0 <= j < |records| && records[j] == b;
      AssignedTwo(records, was, Names(records), Ids(records), i, j);
    }

    lemma WasLength(was: seq<string>)
      requires IdsFrom(records, was)
      ensures |was| == |records|
    {
    }

    /** The first host of a list without ids is called by its slug. */
    lemma FirstIdIsSlug(was: seq<string>)
      requires IdsFrom(records, was) && (forall i :: 0 <= i < |was| ==> was[i] == "")
      requires records != [] && Slug(records[0].name) != LOCAL_ID
      ensures records[0].id == Slug(records[0].name)
    {
      assert was + Ids(records)[..0] == was;
      assert Taken(was) == {LOCAL_ID};
      var slug := Slug(records[0].name);
      assert Numbered(slug, 1) == slug;
    }

    /** A record that is listed twice loses the id it had. */
    lemma RepeatLosesItsId(was: seq<string>, i: nat, j: nat)
      requires IdsFrom(records, was) && i < j < |records| && records[i] == records[j] && was[i] != ""
      ensures records[i].id != was[i]
    {
      KeepsIff(records, was, Names(records), Ids(records), i);
      assert Sees(records, i + 1, |records|, records[i]);
    }

    method Show(rs: seq<PeerRecord>)
      requires forall i, j :: 0 <= i < |rs| && 0 <= j < |rs| ==> (rs[i].id == rs[j].id <==> rs[i] == rs[j])
      modifies this`records, this`byID
      ensures records == rs && Bijective()
    {
      records := rs;
      byID := IndexById(rs);
    }

    method Publish(rs: seq<PeerRecord>)
      requires forall i, j :: 0 <= i < |rs| && 0 <= j < |rs| ==> (rs[i].id == rs[j].id <==> rs[i] == rs[j])
      requires ByKey(known, configured) && CleanIds() && MachineNames()
      requires forall r :: r in rs ==> r.key in known && known[r.key] == r && r.id != "" && r.id != LOCAL_ID
      modifies this`records, this`byID
      ensures records == rs && Valid()
      ensures (forall k :: k in known ==> known[k] in rs) ==> Settled()
    {
      hide Clean, ByKey, CleanIds, Settled, MachineNames, Bijective;
      Show(rs);
      if forall k :: k in known ==> known[k] in rs { AllListedIsSettled(); }
    }

    /** New hosts have no ids, and the others those they had. */
    twostate lemma IdsCarryOver()
      requires old(known).Keys <= known.Keys && forall k :: k in known ==> known[k].id == IdIn(old(IdMap()), k)
      requires old(CleanIds())
      ensures CleanIds() && (old(Settled()) ==> Settled())
    {
      assert forall k :: k in old(known) ==> old(IdMap())[k] == old(known[k].id);
    }

    lemma HadThem(rs: seq<PeerRecord>, ids: map<Key, string>)
      requires Known(known, rs) && forall k :: k in known ==> known[k].id == IdIn(ids, k)
      ensures Had(KeysOf(rs), ids, Ids(rs))
    {
    }

    /** The list of one scan, with its ids assigned from those found. */
    method Draw(cs: seq<Candidate>, results: seq<CheckResult>, now: int) returns (rs: seq<PeerRecord>, ghost was: seq<string>)
      requires ByKey(known, configured) && MachineNames() && CleanIds()
      requires |cs| == |results| && Candidates(cs, results, configured)
      modifies this`known, known.Values
      ensures ByKey(known, configured) && MachineNames() && CleanIds() && Listed(rs, cs, results, old(known.Keys))
      ensures IdsFrom(rs, was) && Had(KeysOf(rs), old(IdMap()), was)
      ensures forall i, j :: 0 <= i < |rs| && 0 <= j < |rs| ==> (rs[i].id == rs[j].id <==> rs[i] == rs[j])
      ensures forall r :: r in rs ==> r.id != "" && r.id != LOCAL_ID && r.key in known && known[r.key] == r
      ensures forall k :: k in old(known) ==> k in known && known[k] == old(known)[k]
      ensures forall k :: k in known && k !in old(known) ==> fresh(known[k])
      ensures forall k :: k in known && known[k] !in rs ==> known[k].id == IdIn(old(IdMap()), k)
      ensures old(Settled()) && Distinct(rs) ==> DistinctIds(was)
    {
      hide Candidates, Settled, Distinct, Clean, CleanIds, ByKey, MachineNames, Ids, Names, Assigned, DistinctIds, Listed,
           IdMap, Had, IdsFrom;
      ghost var ids, settled := IdMap(), Settled();
      rs := List(cs, results, now);
      assert Known(known, rs) by { ListedAreKnown(rs, cs, results, old(known.Keys)); }
      IdsCarryOver();
      HadThem(rs, ids);
      if settled && Distinct(rs) { SettledAreDistinct(rs); }
      assert forall r :: r in rs ==> r.key in known && known[r.key] == r;
      was := Identify(rs);
    }

    lemma ListedAreKnown(rs: seq<PeerRecord>, cs: seq<Candidate>, results: seq<CheckResult>, known0: set<Key>)
      requires |cs| == |results| && Listed(rs, cs, results, known0)
      ensures Known(known, rs) && known0 <= known.Keys
    {
    }

    /** One complete scan, whatever the candidates: no host is forgotten, the list is as
        above, and the lookup by id and the list stay in bijection.  Every listed host keeps
        the id it had exactly if the ids found are distinct; they are if all known ids are
        settled and no record is listed twice, and all are settled after a scan that skipped
        no known host. */
    method ApplyScan(cs: seq<Candidate>, results: seq<CheckResult>, now: int) returns (ghost was: seq<string>)
      requires Valid() && |cs| == |results| && Candidates(cs, results, configured)
      modifies this, known.Values
      ensures Valid() && Listed(records, cs, results, old(known.Keys))
      ensures forall k :: k in old(known) ==> k in known && known[k] == old(known)[k]
      ensures forall k :: k in known && k !in old(known) ==> fresh(known[k])
      ensures IdsFrom(records, was) && Had(KeysOf(records), old(IdMap()), was)
      ensures AllKeep(was) <==> DistinctIds(was)
      ensures old(Settled()) && Distinct(records) ==> DistinctIds(was)
      ensures forall k :: k in known && known[k] !in records ==> known[k].id == IdIn(old(IdMap()), k)
      ensures (forall k :: k in known ==> !SkippedKey(self, cs, results, k)) ==> Settled()
    {
      hide Candidates, Settled, Distinct, Clean, CleanIds, ByKey, MachineNames, Ids, Names, Assigned, DistinctIds, Listed,
           IdMap, Had, IdsFrom, AllKeep, Bijective, SkippedKey;
      var rs;
      rs, was := Draw(cs, results, now);
      Publish(rs);
      KeepIff(was);
      NobodySkipped(rs, cs, results, old(known.Keys));
    }

    lemma NobodySkipped(rs: seq<PeerRecord>, cs: seq<Candidate>, results: seq<CheckResult>, known0: set<Key>)
      requires |cs| == |results| && Listed(rs, cs, results, known0)
      ensures (forall k :: k in known ==> !SkippedKey(self, cs, results, k)) ==> forall k :: k in known ==> known[k] in rs
    {
    }
  }

  function IdIn(ids: map<Key, string>, k: Key): string { if k in ids then ids[k] else "" }

  /** The ids that the hosts of a list had. */
  ghost predicate Had(keys: seq<Key>, ids: map<Key, string>, was: seq<string>) {
    |was| == |keys| && forall i :: 0 <= i < |keys| ==> was[i] == IdIn(ids, keys[i])
  }

  /** A tailnet machine name that two nodes share: both answer, as different agents.  The
      one record is listed twice, and at the next scan it loses its id. */
  method SharedNameChangesIds(r: Registry, c: Candidate, d: Candidate, rc: CheckResult, rd: CheckResult, now: int, later: int)
    returns (first: string, second: string)
    requires r.Valid() && r.known == map[] && r.configured == 0
    requires c.key == d.key == Ts(c.name) && d.name == c.name && c.bases != [] && d.bases != []
    requires rc.Answered? && rd.Answered? && rc.instance != r.self && rd.instance != r.self && rc.instance != rd.instance
    modifies r
    ensures r.Valid() && c.key in r.known && r.known[c.key] in r.records && !Distinct(r.records)
    ensures second == r.known[c.key].id && first != "" && second != "" && first != second
  {
    first := ScanBoth(r, c, d, rc, rd, now, "");
    second := ScanBoth(r, c, d, rc, rd, later, first);
  }

  /** One scan of the two. */
  method ScanBoth(r: Registry, c: Candidate, d: Candidate, rc: CheckResult, rd: CheckResult, now: int, had: string)
    returns (id: string)
    requires r.Valid() && r.known.Keys <= {c.key} && r.configured == 0
    requires had == if c.key in r.known then r.known[c.key].id else ""
    requires c.key == d.key == Ts(c.name) && d.name == c.name && c.bases != [] && d.bases != []
    requires rc.Answered? && rd.Answered? && rc.instance != r.self && rd.instance != r.self && rc.instance != rd.instance
    modifies r, r.known.Values
    ensures r.Valid() && r.known.Keys == {c.key} && r.known[c.key] in r.records && !Distinct(r.records)
    ensures c.key in old(r.known) ==> r.known[c.key] == old(r.known)[c.key]
    ensures c.key !in old(r.known) ==> fresh(r.known[c.key])
    ensures id == r.known[c.key].id != "" && (had != "" ==> id != had)
  {
    hide SharedKey, SkippedKey, Turns, Candidates, EndsOnline, Aliased, InListOrder, DistinctIds, Assigned, ByKey;
    hide IdsFrom, Registry.AllKeep, Registry.Settled, Registry.CleanIds, Registry.MachineNames, Registry.Bijective;
    BothListed(r.self, c, d, rc, rd, r.known.Keys);
    ghost var known0 := r.known;
    ghost var was := r.ApplyScan([c, d], [rc, rd], now);
    assert (set k | k in [c.key, c.key]) == {c.key};
    assert r.known.Keys == {c.key};
    id := r.known[c.key].id;
    ghost var i, j :| 0 <= i < j < |r.records| && r.records[i] == r.records[j];
    assert r.records[i] in r.records && r.records[i].key == c.key;
    assert |was| == |r.records| by { r.WasLength(was); }
    assert c.key in known0 ==> was[i] == had;
    if had != "" { r.RepeatLosesItsId(was, i, j); }
  }

  lemma BothListed(self: string, c: Candidate, d: Candidate, rc: CheckResult, rd: CheckResult, known0: set<Key>)
    requires c.key == d.key == Ts(c.name) && d.name == c.name && c.bases != [] && d.bases != []
    requires rc.Answered? && rd.Answered? && rc.instance != self && rd.instance != self && rc.instance != rd.instance
    requires known0 <= {c.key}
    ensures var (cs, results) := ([c, d], [rc, rd]);
      && Candidates(cs, results, 0) && SharedKey(self, cs, results, known0, 2) && !SkippedKey(self, cs, results, c.key)
      && Turns(self, cs, results, known0, 2) == [c.key, c.key]
  {
    var (cs, results) := ([c, d], [rc, rd]);
    assert RunsAt(self, cs, results, 0, c.key) && RunsAt(self, cs, results, 1, c.key);
    assert Shared(self, cs, results, known0, 0, 1);
    assert Turns(self, cs, results, known0, 0) == [] && Turns(self, cs, results, known0, 1) == [c.key];
  }

  /** A scan that lists one new host and none of the others calls it by its slug. */
  method MeetOne(r: Registry, cs: seq<Candidate>, results: seq<CheckResult>, now: int, key: Key)
    requires r.Valid() && |cs| == |results| && Candidates(cs, results, r.configured)
    requires key.Ts? && key !in r.known && Slug(key.machine) != LOCAL_ID
    requires Turns(r.self, cs, results, r.known.Keys, |cs|) == [key] && !SkippedKey(r.self, cs, results, key)
    requires forall k :: k in r.known ==> SkippedKey(r.self, cs, results, k)
    modifies r, r.known.Values
    ensures r.Valid() && r.known.Keys == old(r.known.Keys) + {key} && fresh(r.known[key])
    ensures r.known[key].id == Slug(key.machine)
    ensures forall k :: k in old(r.known) ==> r.known[k] == old(r.known)[k] && r.known[k].id == old(r.known[k].id)
  {
    hide SharedKey, SkippedKey, Turns, Candidates, EndsOnline, Aliased, InListOrder, DistinctIds, Assigned, Slug;
    hide IdsFrom, Registry.AllKeep, Registry.Settled, Registry.CleanIds, Registry.Bijective;
    ghost var known0 := r.known;
    ghost var was := r.ApplyScan(cs, results, now);
    assert (set k | k in [key]) == {key};
    assert r.known[key] in r.records;
    assert |was| == |r.records| by { r.WasLength(was); }
    forall i | 0 <= i < |r.records| ensures r.records[i].key == key && was[i] == "" {
      assert r.records[i] in r.records;
    }
    assert r.records[0] == r.known[key];
    r.FirstIdIsSlug(was);
  }

  /** Why ids are stable only while no host is skipped: while host a is skipped, as its
      address answers as this agent itself, a new host b of the same slug gets a's id; when a
      is back one of the two loses it. */
  method SkippedHostLosesItsId(r: Registry, a: Candidate, b: Candidate, ra: CheckResult, rb: CheckResult, now: int)
    returns (before: (string, string), after: (string, string))
    requires r.Valid() && r.known == map[] && r.configured == 0 && r.self != ""
    requires a.key == Ts(a.name) && b.key == Ts(b.name) && a.name != b.name && a.bases != [] && b.bases != []
    requires Slug(a.name) == Slug(b.name) != LOCAL_ID
    requires ra.Answered? && rb.Answered? && ra.instance != r.self && rb.instance != r.self && ra.instance != rb.instance
    modifies r
    ensures r.Valid() && a.key in r.known && b.key in r.known && r.known[a.key] in r.records && r.known[b.key] in r.records
    ensures after == (r.known[a.key].id, r.known[b.key].id) && before.0 == before.1 == Slug(a.name)
    ensures after.0 != before.0 || after.1 != before.1
  {
    hide SharedKey, SkippedKey, Turns, Candidates, EndsOnline, Aliased, InListOrder, DistinctIds, Assigned, Slug;
    hide IdsFrom, Registry.AllKeep, Registry.Settled, Registry.CleanIds, Registry.Bijective;
    var itself := Answered(ra.base, r.self, "");
    OneListed(r.self, a, ra);
    assert r.known.Keys == {};
    MeetOne(r, [a], [ra], now, a.key);
    OtherListed(r.self, a, b, itself, rb);
    assert r.known.Keys == {a.key};
    MeetOne(r, [a, b], [itself, rb], now, b.key);
    before := (r.known[a.key].id, r.known[b.key].id);
    TwoListed(r.self, a, b, ra, rb, r.known.Keys);
    ghost var was := r.ApplyScan([a, b], [ra, rb], now);
    after := (r.known[a.key].id, r.known[b.key].id);
    r.SameIdIsLost(was, r.known[a.key], r.known[b.key], before.0);
  }

  lemma OneListed(self: string, a: Candidate, ra: CheckResult)
    requires a.key == Ts(a.name) && a.bases != [] && ra.Answered? && ra.instance != self
    ensures Candidates([a], [ra], 0) && Turns(self, [a], [ra], {}, 1) == [a.key] && !SkippedKey(self, [a], [ra], a.key)
  {
    assert RunsAt(self, [a], [ra], 0, a.key);
    assert Turns(self, [a], [ra], {}, 0) == [];
  }

  lemma OtherListed(self: string, a: Candidate, b: Candidate, ra: CheckResult, rb: CheckResult)
    requires a.key == Ts(a.name) && b.key == Ts(b.name) && a.name != b.name && a.bases != [] && b.bases != []
    requires ra.Answered? && rb.Answered? && ra.instance == self != "" && rb.instance != self
    ensures var (cs, results) := ([a, b], [ra, rb]);
      && Candidates(cs, results, 0) && Turns(self, cs, results, {a.key}, 2) == [b.key]
      && SkippedKey(self, cs, results, a.key) && !SkippedKey(self, cs, results, b.key)
  {
    var (cs, results) := ([a, b], [ra, rb]);
    assert RunsAt(self, cs, results, 1, b.key);
    assert cs[0].key == a.key && Skipped(self, results, 0);
    assert Turns(self, cs, results, {a.key}, 0) == [] && Turns(self, cs, results, {a.key}, 1) == [];
  }

  lemma TwoListed(self: string, a: Candidate, b: Candidate, ra: CheckResult, rb: CheckResult, known0: set<Key>)
    requires a.key == Ts(a.name) && b.key == Ts(b.name) && a.name != b.name && a.bases != [] && b.bases != []
    requires ra.Answered? && rb.Answered? && ra.instance != self && rb.instance != self && ra.instance != rb.instance
    ensures var (cs, results) := ([a, b], [ra, rb]);
      && Candidates(cs, results, 0) && Turns(self, cs, results, known0, 2) == [a.key, b.key]
      && !SkippedKey(self, cs, results, a.key) && !SkippedKey(self, cs, results, b.key)
  {
    var (cs, results) := ([a, b], [ra, rb]);
    assert RunsAt(self, cs, results, 0, a.key) && RunsAt(self, cs, results, 1, b.key);
    assert Turns(self, cs, results, known0, 0) == [] && Turns(self, cs, results, known0, 1) == [a.key];
  }

  lemma NothingYet(self: string, cs: seq<Candidate>, results: seq<CheckResult>, known: map<Key, PeerRecord>)
    requires |cs| == |results|
    ensures Turns(self, cs, results, known.Keys, 0) == [] && Up(self, cs, results, known.Keys, 0) == {}
    ensures Seen(self, results, 0) == {} && Holds(known, [], [], [])
  {
  }

  lemma NothingTwice()
    ensures Distinct<Key>([])
  {
  }

  lemma {:induction false} OfflineIsApart(turns: seq<Key>, offline: seq<Key>)
    requires Distinct(offline) && forall k :: k in turns ==> k !in offline
    ensures Distinct(turns + offline) <==> Distinct(turns)
  {
    if offline == [] {
      assert turns + offline == turns;
    } else {
      var (front, k) := (offline[..|offline| - 1], offline[|offline| - 1]);
      assert offline == front + [k] && turns + offline == (turns + front) + [k];
      AppendDistinct(front, k);
      OfflineIsApart(turns, front);
      AppendDistinct(turns + front, k);
    }
  }
}

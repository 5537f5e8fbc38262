/**
  The camera toggle and its write-ahead recovery journal (device_activity.go).

  Every effect the agent has on the outside world - rewriting the journal file,
  switching a camera, preparing a restore, restarting - is one `Effect`.  A run is a
  sequence of effects, a crash may fall between any two of them, and other programs
  may replace the set of cameras at any moment.  `Allowed` says which effects the
  agent's protocol permits in which state; `Manager.Apply` is proved to perform
  nothing else, whatever fails.
*/
module CameraJournal {

  datatype Camera = Camera(id: string, identity: string, name: string, enabled: bool)
  datatype Key = Key(id: string, identity: string)

  function KeyOf(c: Camera): Key { Key(c.id, c.identity) }

  function Keys(cs: seq<Camera>): set<Key> { set c | c in cs :: KeyOf(c) }

  predicate UniqueIds(cs: seq<Camera>) {
    forall i, j :: 0 <= i < j < |cs| ==> cs[i].id != cs[j].id
  }

  /** The journal file: never written, holding records, or holding something unparseable. */
  datatype JournalFile = Absent | Records(records: seq<Camera>) | Unreadable

  function RecordsOf(f: JournalFile): seq<Camera> { if f.Records? then f.records else [] }

  predicate ValidRecord(c: Camera) { c.id != "" && c.identity != "" && c.enabled }

  /** What a starting agent makes of the file: the records, and whether control is refused. */
  function LoadError(f: JournalFile): bool {
    f.Unreadable? || exists i :: 0 <= i < |RecordsOf(f)| && !ValidRecord(RecordsOf(f)[i])
  }

  /** Records of the entries with another id (device_activity.go drops by id alone). */
  function Drop(js: seq<Camera>, id: string): (r: seq<Camera>)
    ensures forall c :: c in r <==> c in js && c.id != id
    ensures UniqueIds(js) ==> UniqueIds(r)
  {
    if js == [] then []
    else
      var rest := Drop(js[1..], id);
      assert forall c :: c in js <==> c == js[0] || c in js[1..];
      if js[0].id != id then [js[0]] + rest else rest
  }

  /** Index of the camera with this key, or -1. */
  function IndexOf(cs: seq<Camera>, k: Key): (i: int)
    ensures -1 <= i < |cs|
    ensures i >= 0 ==> KeyOf(cs[i]) == k
    ensures i < 0 ==> k !in Keys(cs)
  {
    if cs == [] then -1
    else if KeyOf(cs[0]) == k then 0
    else
      var i := IndexOf(cs[1..], k);
      if i < 0 then -1 else i + 1
  }

  function SetEnabled(cs: seq<Camera>, ks: set<Key>, on: bool): (r: seq<Camera>)
    ensures |r| == |cs|
    ensures forall i :: 0 <= i < |cs| ==> r[i] == if KeyOf(cs[i]) in ks then cs[i].(enabled := on) else cs[i]
  {
    seq(|cs|, i requires 0 <= i < |cs| => if KeyOf(cs[i]) in ks then cs[i].(enabled := on) else cs[i])
  }

  // ---------------------------------------------------------------- the protocol

  /** `mem`/`err` are the running agent's; `listed` is its last listing; `owed` are the
      cameras it has switched off (or tried to) and not since successfully re-enabled. */
  datatype State = State(
    file: JournalFile, mem: seq<Camera>, err: bool,
    cameras: seq<Camera>, listed: seq<Camera>, owed: set<Key>, past: Past)

  /** What has happened so far: the cameras the agent ever switched (or tried to) each
      way, failed effects, failed journal writes, and changes made by other programs. */
  datatype Past = Past(on: set<Key>, off: set<Key>, faults: nat, unsaved: nat, changes: nat)

  const NOTHING_YET := Past({}, {}, 0, 0, 0)

  datatype Effect =
    | Listed(ok: bool)
    | Saved(next: seq<Camera>, ok: bool)
    | Switched(key: Key, on: bool, ok: bool, reached: bool)
    | Prepared(touched: set<Key>, ok: bool)
    | Restarted(readable: bool)
    | Changed(now: seq<Camera>)

  function Bit(b: bool): nat { if b then 1 else 0 }

  predicate Failed(e: Effect) {
    match e
    case Listed(ok) => !ok
    case Saved(_, ok) => !ok
    case Switched(_, _, ok, _) => !ok
    case Prepared(_, ok) => !ok
    case _ => false
  }

  function Recall(p: Past, e: Effect): Past {
    Past(
      if e.Switched? && e.on then p.on + {e.key} else if e.Prepared? then p.on + e.touched else p.on,
      if e.Switched? && !e.on then p.off + {e.key} else p.off,
      p.faults + Bit(Failed(e)),
      p.unsaved + Bit(e.Saved? && !e.ok),
      p.changes + Bit(e.Changed?))
  }

  /** Between two moments the agent switched on only cameras in `on` and off only those in
      `off`, while `faults` effects failed, `unsaved` of them journal writes. */
  ghost predicate Since(was: Past, now: Past, on: set<Key>, off: set<Key>, faults: int, unsaved: int) {
    && was.on <= now.on <= was.on + on && was.off <= now.off <= was.off + off
    && now.faults == was.faults + faults && now.unsaved == was.unsaved + unsaved
    && faults >= unsaved >= 0 && now.changes >= was.changes
  }

  function Step(s: State, e: Effect): State {
    var s := s.(past := Recall(s.past, e));
    match e
    case Listed(ok) => if ok then s.(listed := s.cameras) else s
    case Saved(next, ok) => if ok then s.(file := Records(next), mem := next) else s
    case Switched(k, on, ok, reached) =>
      s.(cameras := SetEnabled(s.cameras, {k}, reached),
         owed := if !on then s.owed + {k} else if ok then s.owed - {k} else s.owed)
    case Prepared(touched, _) => s.(cameras := SetEnabled(s.cameras, touched, true))
    case Restarted(readable) =>
      s.(mem := if readable then RecordsOf(s.file) else [], err := !readable || LoadError(s.file))
    case Changed(now) => s.(cameras := now)
  }

  ghost predicate AddsRecord(s: State, next: seq<Camera>) {
    exists c :: c in s.listed && c.enabled && next == s.mem + [c] && (forall m :: m in s.mem ==> m.id != c.id)
  }

  ghost predicate DropsRestored(s: State, next: seq<Camera>) {
    exists k: Key :: next == Drop(s.mem, k.id) && k in Keys(s.mem) && k !in s.owed
  }

  /** What the agent may do: record a listed, enabled camera before switching it off,
      drop a record only once its camera is back on, and touch only recorded cameras. */
  ghost predicate Allowed(s: State, e: Effect) {
    match e
    case Listed(_) => true
    case Saved(next, _) => !s.err && (AddsRecord(s, next) || DropsRestored(s, next))
    case Switched(k, on, ok, reached) => !s.err && k in Keys(s.mem) && (ok ==> reached == on)
    case Prepared(touched, _) => !s.err && touched <= Keys(s.mem)
    case Restarted(_) => true
    case Changed(now) => UniqueIds(now)
  }

  ghost function Replay(s: State, es: seq<Effect>): State {
    if es == [] then s else Step(Replay(s, es[..|es| - 1]), es[|es| - 1])
  }

  ghost predicate AllowedRun(s: State, es: seq<Effect>) {
    es == [] || (AllowedRun(s, es[..|es| - 1]) && Allowed(Replay(s, es[..|es| - 1]), es[|es| - 1]))
  }

  /** Every owed camera has a record on disk, and memory mirrors the disk. */
  ghost predicate Safe(s: State) {
    && s.owed <= Keys(RecordsOf(s.file))
    && (!s.err ==> !s.file.Unreadable? && s.mem == RecordsOf(s.file))
    && UniqueIds(RecordsOf(s.file)) && UniqueIds(s.cameras) && UniqueIds(s.listed)
  }

  lemma Append(s: State, es: seq<Effect>, e: Effect)
    ensures Replay(s, es + [e]) == Step(Replay(s, es), e)
    ensures AllowedRun(s, es + [e]) <==> AllowedRun(s, es) && Allowed(Replay(s, es), e)
  {
    assert (es + [e])[..|es|] == es;
  }

  lemma SameIdSameKey(js: seq<Camera>, a: Camera, k: Key)
    requires UniqueIds(js) && a in js && k in Keys(js) && a.id == k.id
    ensures KeyOf(a) == k
  {
  }

  lemma StepKeepsSafe(s: State, e: Effect)
    requires Safe(s) && Allowed(s, e)
    ensures Safe(Step(s, e))
  {
    match e
    case Saved(next, ok) =>
      if ok && AddsRecord(s, next) {
        var c :| c in s.listed && next == s.mem + [c] && forall m :: m in s.mem ==> m.id != c.id;
        AddingKeepsUnique(s.mem, c);
      } else if ok {
        var k: Key :| next == Drop(s.mem, k.id) && k in Keys(s.mem) && k !in s.owed;
        DropKeepsOwed(s.mem, k, s.owed);
      }
    case _ =>
  }

  lemma AddingKeepsUnique(js: seq<Camera>, c: Camera)
    requires UniqueIds(js) && forall m :: m in js ==> m.id != c.id
    ensures UniqueIds(js + [c]) && Keys(js) <= Keys(js + [c])
  {
  }

  lemma DropKeepsOwed(js: seq<Camera>, k: Key, owed: set<Key>)
    requires UniqueIds(js) && k in Keys(js) && k !in owed && owed <= Keys(js)
    ensures owed <= Keys(Drop(js, k.id)) && UniqueIds(Drop(js, k.id))
  {
    forall o | o in owed ensures o in Keys(Drop(js, k.id)) {
      var c :| c in js && KeyOf(c) == o;
      if c.id == k.id { SameIdSameKey(js, c, k); }
    }
  }

  /** Crash safety over every run: at each instant - and a crash may follow any of them -
      every camera the agent has switched off and not re-enabled has a record on disk,
      and an agent that accepts commands holds exactly the records on disk. */
  lemma {:induction false} CrashSafety(s: State, es: seq<Effect>, k: nat)
    requires Safe(s) && AllowedRun(s, es) && k <= |es|
    ensures AllowedRun(s, es[..k])
    ensures Safe(Replay(s, es[..k]))
    ensures var now := Replay(s, es[..k]);
            now.owed <= Keys(RecordsOf(now.file)) && (!now.err ==> now.mem == RecordsOf(now.file))
  {
    if k < |es| {
      CrashSafety(s, es[..|es| - 1], k);
      assert es[..|es| - 1][..k] == es[..k];
    } else {
      assert es[..k] == es;
      if es != [] {
        CrashSafety(s, es[..k - 1], k - 1);
        assert es[..k - 1][..k - 1] == es[..k - 1];
        StepKeepsSafe(Replay(s, es[..k - 1]), es[k - 1]);
      }
    }
  }

  /** Cameras as a sound backend lists them. */
  predicate Named(cs: seq<Camera>) { forall c :: c in cs ==> c.id != "" && c.identity != "" }

  /** The journal file can be loaded, and so can all that may be added to it. */
  ghost predicate Loadable(s: State) {
    && !LoadError(s.file) && (forall c :: c in s.mem ==> ValidRecord(c)) && Named(s.cameras) && Named(s.listed)
  }

  ghost predicate NamedChanges(es: seq<Effect>) { forall i :: 0 <= i < |es| && es[i].Changed? ==> Named(es[i].now) }

  /** An agent never writes a journal that it would refuse: through any toggles, failures,
      restarts and changes of other programs the file can be loaded. */
  lemma {:induction false} OwnJournalLoads(s: State, es: seq<Effect>)
    requires AllowedRun(s, es) && Loadable(s) && NamedChanges(es)
    ensures Loadable(Replay(s, es))
  {
    if es != [] {
      OwnJournalLoads(s, es[..|es| - 1]);
      LoadableStep(Replay(s, es[..|es| - 1]), es[|es| - 1]);
    }
  }

  lemma LoadableStep(s: State, e: Effect)
    requires Loadable(s) && Allowed(s, e) && (e.Changed? ==> Named(e.now))
    ensures Loadable(Step(s, e))
  {
    match e
    case Saved(next, ok) =>
      assert forall c :: c in next ==> ValidRecord(c);
    case _ =>
  }

  /** An agent that crashes anywhere and restarts owns every camera it owes: after the
      reload each of them has a record in memory, unless the journal is refused, which a
      readable journal of its own making never is. */
  lemma RestartRecovers(s: State, es: seq<Effect>, k: nat, readable: bool)
    requires Safe(s) && AllowedRun(s, es) && k <= |es|
    ensures AllowedRun(s, es[..k] + [Restarted(readable)])
    ensures var now := Replay(s, es[..k] + [Restarted(readable)]);
      && (now.err || now.owed <= Keys(now.mem))
      && (readable && Loadable(s) && NamedChanges(es) ==> !now.err && now.owed <= Keys(now.mem))
  {
    CrashSafety(s, es, k);
    Append(s, es[..k], Restarted(readable));
    if Loadable(s) && NamedChanges(es) { OwnJournalLoads(s, es[..k]); }
  }

  /** Other programs never switch camera k on. */
  ghost predicate LeavesOff(es: seq<Effect>, k: Key) {
    forall i, c :: 0 <= i < |es| && es[i].Changed? && c in es[i].now && KeyOf(c) == k ==> !c.enabled
  }

  ghost predicate OffAndUnrecorded(s: State, k: Key) {
    && k !in Keys(RecordsOf(s.file)) && k !in Keys(s.mem)
    && (forall c :: c in s.cameras && KeyOf(c) == k ==> !c.enabled)
    && (forall c :: c in s.listed && KeyOf(c) == k ==> !c.enabled)
  }

  /** Restore exactness over runs: a camera that somebody else disabled is never switched
      on and never recorded, however many toggles, failures, restarts and changes of other
      cameras follow. */
  lemma {:induction false} DisabledElsewhereStaysOff(s: State, es: seq<Effect>, k: Key)
    requires AllowedRun(s, es) && LeavesOff(es, k) && OffAndUnrecorded(s, k)
    ensures OffAndUnrecorded(Replay(s, es), k)
  {
    if es != [] {
      var before := Replay(s, es[..|es| - 1]);
      var e := es[|es| - 1];
      DisabledElsewhereStaysOff(s, es[..|es| - 1], k);
      match e
      case Saved(next, ok) =>
        if AddsRecord(before, next) {
          var c :| c in before.listed && c.enabled && next == before.mem + [c] && (forall m :: m in before.mem ==> m.id != c.id);
          assert KeyOf(c) != k;
          assert Keys(next) == Keys(before.mem) + {KeyOf(c)};
        } else {
          assert Keys(next) <= Keys(before.mem);
        }
      case Switched(key, on, ok, reached) => assert key != k;
      case _ =>
    }
  }

  // ------------------------------------------------- why restore needs unique ids

  /** Dropping a restored record by id keeps every other record exactly when no two
      records share an id. */
  lemma DropKeepsOthersIff(js: seq<Camera>)
    ensures (forall a, b :: a in js && b in js && KeyOf(a) != KeyOf(b) ==> b in Drop(js, a.id))
            <==> (forall a, b :: a in js && b in js && a.id == b.id ==> KeyOf(a) == KeyOf(b))
  {
  }

  /** Without unique ids the promise fails: two cameras sharing an id are both switched
      off, the first one's restore drops both records, the second one's then fails, and it is
      left off with nothing on disk to say so. */
  lemma SharedIdLosesARecord() returns (s: State)
    ensures s.file == Records([]) && s.owed == {Key("usb", "right")}
    ensures s.cameras == [Camera("usb", "left", "", true), Camera("usb", "right", "", false)]
  {
    var a := Camera("usb", "left", "", true);
    var b := Camera("usb", "right", "", true);
    s := State(Absent, [], false, [a, b], [a, b], {}, NOTHING_YET);
    s := Step(s, Saved([a], true));
    s := Step(s, Switched(KeyOf(a), false, true, false));
    s := Step(s, Saved([a, b], true));
    s := Step(s, Switched(KeyOf(b), false, true, false));
    s := Step(s, Switched(KeyOf(a), true, true, true));
    assert [a, b][1..] == [b] && [b][1..] == [];
    assert Drop([a, b], "usb") == Drop([b], "usb") == [];
    s := Step(s, Saved(Drop([a, b], "usb"), true));
    s := Step(s, Switched(KeyOf(b), true, false, false));
    assert KeyOf(a) == Key("usb", "left") && KeyOf(b) == Key("usb", "right");
    assert s.cameras[0] == a && s.cameras[1] == b.(enabled := false);
  }

  // ------------------------------------------------------------- the running agent

  function EnabledOf(cs: seq<Camera>): (r: seq<Camera>)
    ensures forall c :: c in r <==> c in cs && c.enabled
    ensures UniqueIds(cs) ==> UniqueIds(r)
  {
    if cs == [] then []
    else
      var rest := EnabledOf(cs[..|cs| - 1]);
      assert forall c :: c in cs <==> c == cs[|cs| - 1] || c in cs[..|cs| - 1];
      if cs[|cs| - 1].enabled then rest + [cs[|cs| - 1]] else rest
  }

  ghost predicate AllOff(before: seq<Camera>, after: seq<Camera>, upTo: nat) {
    |after| == |before| && forall i :: 0 <= i < |before| ==>
      after[i] == if i < upTo then before[i].(enabled := false) else before[i]
  }

  /** Recorded cameras among `done` are on; cameras without a record are untouched. */
  ghost predicate BackOn(before: seq<Camera>, after: seq<Camera>, recorded: set<Key>, done: set<Key>) {
    |after| == |before| && forall i :: 0 <= i < |before| ==>
      && after[i] == before[i].(enabled := after[i].enabled)
      && (KeyOf(before[i]) !in recorded ==> after[i] == before[i])
      && (KeyOf(before[i]) in done ==> after[i].enabled)
  }

  lemma {:induction false} DropOne(js: seq<Camera>, c: Camera)
    requires UniqueIds(js) && c in js
    ensures |Drop(js, c.id)| == |js| - 1
  {
    if js[0] == c {
      assert forall i :: 0 <= i < |js[1..]| ==> js[1..][i].id != c.id;
      DropNone(js[1..], c.id);
    } else {
      assert c in js[1..];
      DropOne(js[1..], c);
    }
  }

  lemma {:induction false} DropNone(js: seq<Camera>, id: string)
    requires forall i :: 0 <= i < |js| ==> js[i].id != id
    ensures |Drop(js, id)| == |js|
  {
    if js != [] {
      assert forall i :: 0 <= i < |js[1..]| ==> js[1..][i] == js[i + 1];
      DropNone(js[1..], id);
    }
  }

  /** The cameras that these effects tried to switch one way, and those they did switch. */
  function Tried(es: seq<Effect>, on: bool): set<Key> {
    if es == [] then {}
    else
      var e := es[|es| - 1];
      Tried(es[..|es| - 1], on) + if e.Switched? && e.on == on then {e.key} else {}
  }

  function Did(es: seq<Effect>, on: bool): set<Key> {
    if es == [] then {}
    else
      var e := es[|es| - 1];
      Did(es[..|es| - 1], on) + if e.Switched? && e.on == on && e.ok then {e.key} else {}
  }

  lemma {:induction false} SwitchesConcat(a: seq<Effect>, b: seq<Effect>, on: bool)
    ensures Tried(a + b, on) == Tried(a, on) + Tried(b, on) && Did(a + b, on) == Did(a, on) + Did(b, on)
  {
    if b == [] {
      assert a + b == a;
    } else {
      SwitchesConcat(a, b[..|b| - 1], on);
      assert (a + b)[..|a + b| - 1] == a + b[..|b| - 1];
    }
  }

  /** No camera is switched by these effects. */
  predicate Still(es: seq<Effect>) { forall i :: 0 <= i < |es| ==> !es[i].Switched? }

  lemma {:induction false} StillSwitchesNothing(es: seq<Effect>, on: bool)
    requires Still(es)
    ensures Tried(es, on) == {} && Did(es, on) == {}
  {
    if es != [] { StillSwitchesNothing(es[..|es| - 1], on); }
  }

  /** How many of these records are of cameras that are not there. */
  function Missing(records: seq<Camera>, there: set<Key>): nat {
    if records == [] then 0
    else Missing(records[..|records| - 1], there) + (if KeyOf(records[|records| - 1]) in there then 0 else 1)
  }

  lemma OneMoreMissing(records: seq<Camera>, k: nat, there: set<Key>)
    requires k < |records|
    ensures Missing(records[..k + 1], there) == Missing(records[..k], there) + (if KeyOf(records[k]) in there then 0 else 1)
  {
    assert records[..k + 1][..k] == records[..k];
  }

  /** A record whose turn is over: its camera was tried exactly if it is listed, and the
      record is gone exactly if that worked. */
  ghost predicate Settled(record: Camera, devices: seq<Camera>, journal: seq<Camera>, es: seq<Effect>) {
    && (KeyOf(record) in Tried(es, true) <==> KeyOf(record) in Keys(devices))
    && (record in journal <==> KeyOf(record) !in Did(es, true))
  }

  /** The restore loop before its turn k: the records before it are settled, all others are
      still there, and what has failed are the cameras not listed and the effects. */
  ghost predicate RestoredUpTo(saved: seq<Camera>, devices: seq<Camera>, k: nat, journal: seq<Camera>, es: seq<Effect>,
                               failures: int, faults: int) {
    && k <= |saved| && failures == Missing(saved[..k], Keys(devices)) + faults
    && Tried(es, true) <= Keys(saved) && Did(es, true) <= Tried(es, true)
    && (forall j :: 0 <= j < k ==> Settled(saved[j], devices, journal, es))
    && (forall j :: k <= j < |saved| ==> saved[j] in journal)
    && (forall c :: c in journal ==> c in saved)
  }

  /** A whole restore: it comes to the end of the journal unless a write of it fails. */
  ghost predicate Restored(saved: seq<Camera>, devices: seq<Camera>, journal: seq<Camera>, es: seq<Effect>,
                           failures: int, faults: int, unsaved: int) {
    exists k: nat :: RestoredUpTo(saved, devices, k, journal, es, failures, faults)
                     && (k < |saved| ==> unsaved == 1 && faults >= 1) && (k == |saved| ==> unsaved == 0)
  }

  lemma NextIsThere(saved: seq<Camera>, devices: seq<Camera>, k: nat, journal: seq<Camera>, es: seq<Effect>,
                    failures: int, faults: int)
    requires RestoredUpTo(saved, devices, k, journal, es, failures, faults) && k < |saved|
    ensures saved[k] in journal && KeyOf(saved[k]) in Keys(saved)
  {
  }

  lemma StillPending(saved: seq<Camera>, devices: seq<Camera>, k: nat, journal: seq<Camera>, es: seq<Effect>,
                     failures: int, faults: int)
    requires RestoredUpTo(saved, devices, k, journal, es, failures, faults)
    ensures forall c :: c in journal ==> c in saved
  {
  }

  lemma NothingSwitched(saved: seq<Camera>, es: seq<Effect>)
    requires Still(es)
    ensures Ahead(saved, 0, es) && Did(es, true) == {} && Tried(es, true) == {}
  {
    StillSwitchesNothing(es, true);
  }

  /** The effects of a turn: one switch, and other effects before or after it. */
  lemma OneSwitch(before: seq<Effect>, after: seq<Effect>, k: Key, on: bool, ok: bool, reached: bool)
    requires before < after && after[|after| - 1] == Switched(k, on, ok, reached) && Still(after[|before|..|after| - 1])
    ensures var more := after[|before|..];
      Tried(more, on) == {k} && Did(more, on) == (if ok then {k} else {}) && Tried(more, !on) == {}
  {
    var more := after[|before|..];
    var front := after[|before|..|after| - 1];
    assert more == front + [Switched(k, on, ok, reached)];
    StillSwitchesNothing(front, on);
    StillSwitchesNothing(front, !on);
    SwitchesConcat(front, [Switched(k, on, ok, reached)], on);
    SwitchesConcat(front, [Switched(k, on, ok, reached)], !on);
  }

  lemma StillAfter(es: seq<Effect>, more: seq<Effect>)
    requires Still(more)
    ensures forall on :: Tried(es + more, on) == Tried(es, on) && Did(es + more, on) == Did(es, on)
  {
    forall on ensures Tried(es + more, on) == Tried(es, on) && Did(es + more, on) == Did(es, on) {
      SwitchesConcat(es, more, on);
      StillSwitchesNothing(more, on);
    }
  }

  lemma RestoredAround(saved: seq<Camera>, devices: seq<Camera>, journal: seq<Camera>, es: seq<Effect>, whole: seq<Effect>,
                       failures: int, faults: int, unsaved: int, more: nat)
    requires Restored(saved, devices, journal, es, failures, faults, unsaved)
    requires Tried(whole, true) == Tried(es, true) && Did(whole, true) == Did(es, true)
    ensures Restored(saved, devices, journal, whole, failures + more, faults + more, unsaved)
  {
    hide Tried, Did;
    var k: nat :| RestoredUpTo(saved, devices, k, journal, es, failures, faults)
                  && (k < |saved| ==> unsaved == 1 && faults >= 1) && (k == |saved| ==> unsaved == 0);
    assert RestoredUpTo(saved, devices, k, journal, whole, failures + more, faults + more);
  }

  lemma StillBefore(es: seq<Effect>, more: seq<Effect>)
    requires Still(es)
    ensures forall on :: Tried(es + more, on) == Tried(more, on) && Did(es + more, on) == Did(more, on)
    ensures forall on :: Tried(es, on) == {} && Did(es, on) == {}
  {
    forall on ensures Tried(es + more, on) == Tried(more, on) && Did(es + more, on) == Did(more, on)
      ensures Tried(es, on) == {} && Did(es, on) == {}
    {
      SwitchesConcat(es, more, on);
      StillSwitchesNothing(es, on);
    }
  }

  lemma RestoreStarts(saved: seq<Camera>, devices: seq<Camera>, es: seq<Effect>, faults: nat)
    requires Still(es)
    ensures RestoredUpTo(saved, devices, 0, saved, es, faults, faults)
  {
    StillSwitchesNothing(es, true);
  }

  /** What one turn adds. */
  ghost predicate TurnTried(turn: Turn, key: Key, more: seq<Effect>) {
    && Tried(more, true) == (if turn == Unlisted then {} else {key})
    && Did(more, true) == (if turn == Unsaved || turn == Done then {key} else {})
  }

  /** None of the cameras recorded from k on was tried. */
  ghost predicate Ahead(saved: seq<Camera>, k: nat, es: seq<Effect>) {
    forall j :: k <= j < |saved| ==> KeyOf(saved[j]) !in Tried(es, true)
  }

  lemma AheadOfTurn(saved: seq<Camera>, k: nat, es: seq<Effect>, turn: Turn, more: seq<Effect>)
    requires UniqueIds(saved) && k < |saved| && Ahead(saved, k, es) && TurnTried(turn, KeyOf(saved[k]), more)
    ensures Ahead(saved, k + 1, es + more) && KeyOf(saved[k]) !in Did(es, true)
    ensures Did(es, true) <= Tried(es, true)
    ensures Did(es + more, true) == if turn == Unsaved || turn == Done then Did(es, true) + {KeyOf(saved[k])} else Did(es, true)
  {
    hide Tried, Did;
    SwitchesConcat(es, more, true);
    DidWasTried(es, true);
  }

  lemma RestoreTurn(saved: seq<Camera>, devices: seq<Camera>, k: nat, journal: seq<Camera>, es: seq<Effect>,
                    failures: int, faults: int, turn: Turn, more: seq<Effect>, after: seq<Camera>)
    requires UniqueIds(saved) && k < |saved| && RestoredUpTo(saved, devices, k, journal, es, failures, faults)
    requires Ahead(saved, k, es) && TurnTried(turn, KeyOf(saved[k]), more) && (turn == Unlisted <==> KeyOf(saved[k]) !in Keys(devices))
    requires after == if turn == Done then Drop(journal, saved[k].id) else journal
    ensures turn == Unsaved ==> RestoredUpTo(saved, devices, k, after, es + more, failures + 1, faults + 1)
    ensures turn == Unlisted ==> RestoredUpTo(saved, devices, k + 1, after, es + more, failures + 1, faults)
    ensures turn == Refusing ==> RestoredUpTo(saved, devices, k + 1, after, es + more, failures + 1, faults + 1)
    ensures turn == Done ==> RestoredUpTo(saved, devices, k + 1, after, es + more, failures, faults)
  {
    hide Missing, Tried, Did, Drop, Ahead, Settled;
    SwitchesConcat(es, more, true);
    OneMoreMissing(saved, k, Keys(devices));
    assert saved[k] in saved;
    forall j | 0 <= j < k ensures Settled(saved[j], devices, after, es + more) {
      StillSettled(saved[j], saved[k], devices, journal, es, turn, more, after);
    }
    assert KeyOf(saved[k]) !in Tried(es, true) by { NotYetTried(saved, k, es); }
    if turn != Unsaved { NowSettled(saved[k], devices, journal, es, turn, more, after); }
  }

  lemma NotYetTried(saved: seq<Camera>, k: nat, es: seq<Effect>)
    requires k < |saved| && Ahead(saved, k, es)
    ensures KeyOf(saved[k]) !in Tried(es, true)
  {
  }

  lemma StillSettled(c: Camera, other: Camera, devices: seq<Camera>, journal: seq<Camera>, es: seq<Effect>, turn: Turn,
                     more: seq<Effect>, after: seq<Camera>)
    requires Settled(c, devices, journal, es) && c.id != other.id && TurnTried(turn, KeyOf(other), more)
    requires after == if turn == Done then Drop(journal, other.id) else journal
    ensures Settled(c, devices, after, es + more)
  {
    hide Tried, Did;
    SwitchesConcat(es, more, true);
  }

  lemma NowSettled(c: Camera, devices: seq<Camera>, journal: seq<Camera>, es: seq<Effect>, turn: Turn,
                   more: seq<Effect>, after: seq<Camera>)
    requires c in journal && KeyOf(c) !in Tried(es, true) && Did(es, true) <= Tried(es, true)
    requires TurnTried(turn, KeyOf(c), more) && turn != Unsaved && (turn == Unlisted <==> KeyOf(c) !in Keys(devices))
    requires after == if turn == Done then Drop(journal, c.id) else journal
    ensures Settled(c, devices, after, es + more)
  {
    hide Tried, Did;
    SwitchesConcat(es, more, true);
  }

  /** Without a failure everything was listed and is back. */
  lemma RestoredWell(saved: seq<Camera>, devices: seq<Camera>, journal: seq<Camera>, es: seq<Effect>, failures: int, faults: nat,
                     unsaved: int)
    requires Restored(saved, devices, journal, es, failures, faults, unsaved) && (unsaved == 0 ==> |journal| <= failures)
    ensures failures == 0 ==> journal == [] && faults == 0 && Did(es, true) == Keys(saved)
    ensures Keys(saved) <= Keys(devices) && faults == 0 ==> failures == 0
  {
    hide Tried, Did;
    var k: nat :| RestoredUpTo(saved, devices, k, journal, es, failures, faults) && (k < |saved| ==> unsaved == 1 && faults >= 1)
                  && (k == |saved| ==> unsaved == 0);
    if Keys(saved) <= Keys(devices) {
      assert forall j :: 0 <= j < k ==> saved[j] in saved;
      NoneMissing(saved[..k], Keys(devices));
    }
    if failures == 0 {
      forall c | c in saved ensures KeyOf(c) in Did(es, true) {
        var j :| 0 <= j < |saved| && saved[j] == c;
        assert Settled(saved[j], devices, journal, es);
      }
    }
  }

  lemma {:induction false} NoneMissing(records: seq<Camera>, there: set<Key>)
    requires Keys(records) <= there
    ensures Missing(records, there) == 0
  {
    if records != [] {
      assert records[|records| - 1] in records;
      NoneMissing(records[..|records| - 1], there);
    }
  }

  /** What was tried is to switch off the recorded cameras; without a failure that worked. */
  ghost predicate TriedAll(journal: seq<Camera>, es: seq<Effect>, failures: int) {
    && Tried(es, false) == Keys(journal) && Tried(es, true) == {} && (failures == 0 ==> Did(es, false) == Keys(journal))
  }

  /** A whole disable: the enabled cameras are recorded one by one, and each that is recorded
      is tried; it comes to the end unless a write fails. */
  ghost predicate Disabled(devices: seq<Camera>, journal: seq<Camera>, es: seq<Effect>, faults: int, unsaved: int) {
    && TriedAll(journal, es, faults)
    && exists k :: 0 <= k <= |devices| && journal == EnabledOf(devices[..k]) && (unsaved == 0 ==> k == |devices|)
  }

  /** What a toggle has done: with records it restores, otherwise it disables. */
  ghost predicate Report(saved: seq<Camera>, devices: seq<Camera>, journal: seq<Camera>, es: seq<Effect>,
                         failures: int, faults: int, unsaved: int) {
    if saved != [] then Restored(saved, devices, journal, es, failures, faults, unsaved)
    else failures == faults && Disabled(devices, journal, es, faults, unsaved)
  }

  /** ... and, when nobody interferes, how it leaves the cameras. */
  ghost predicate Leaves(saved: seq<Camera>, before: seq<Camera>, after: seq<Camera>, journal: seq<Camera>, es: seq<Effect>) {
    if saved == [] then Off(before, after, Keys(journal), Did(es, false)) else BackOn(before, after, Keys(saved), Did(es, true))
  }

  /** Effects around the loop that switch nothing, one of which may fail after it. */
  lemma ReportAround(saved: seq<Camera>, devices: seq<Camera>, journal: seq<Camera>, es: seq<Effect>, whole: seq<Effect>,
                     failures: int, faults: nat, unsaved: int, more: nat)
    requires Report(saved, devices, journal, es, failures, faults, unsaved)
    requires forall on :: Tried(whole, on) == Tried(es, on) && Did(whole, on) == Did(es, on)
    ensures Report(saved, devices, journal, whole, failures + more, faults + more, unsaved)
    ensures forall before, after :: Leaves(saved, before, after, journal, es) ==> Leaves(saved, before, after, journal, whole)
  {
    hide Tried, Did, BackOn, Off, EnabledOf;
    if saved != [] { RestoredAround(saved, devices, journal, es, whole, failures, faults, unsaved, more); }
  }

  lemma ReportWell(saved: seq<Camera>, devices: seq<Camera>, journal: seq<Camera>, es: seq<Effect>, failures: int, faults: nat,
                   unsaved: int)
    requires Report(saved, devices, journal, es, failures, faults, unsaved) && 0 <= unsaved <= faults
    requires saved != [] && unsaved == 0 ==> |journal| <= failures
    ensures failures == 0 ==> faults == 0 && if saved == [] then journal == EnabledOf(devices) else journal == []
    ensures faults == 0 && Keys(saved) <= Keys(devices) ==> failures == 0
    ensures failures == 0 ==> forall before, after :: Leaves(saved, before, after, journal, es) ==>
              if saved == [] then Off(before, after, Keys(journal), Keys(journal)) else BackOn(before, after, Keys(saved), Keys(saved))
  {
    hide Tried, Did, BackOn, Off, EnabledOf;
    if saved != [] { RestoredWell(saved, devices, journal, es, failures, faults, unsaved); }
    assert devices[..|devices|] == devices;
  }

  /** The cameras in `done` are off; cameras outside `touched` are untouched. */
  ghost predicate Off(before: seq<Camera>, after: seq<Camera>, touched: set<Key>, done: set<Key>) {
    |after| == |before| && forall i :: 0 <= i < |before| ==>
      && after[i] == before[i].(enabled := after[i].enabled)
      && (KeyOf(before[i]) !in touched ==> after[i] == before[i])
      && (KeyOf(before[i]) in done ==> !after[i].enabled)
  }

  lemma BackOnStart(before: seq<Camera>, saved: seq<Camera>, touched: set<Key>)
    requires touched <= Keys(saved)
    ensures BackOn(before, SetEnabled(before, touched, true), Keys(saved), {})
  {
  }

  lemma BackOnStep(before: seq<Camera>, sofar: seq<Camera>, recorded: set<Key>, done: set<Key>, k: Key, reached: bool,
                   done': set<Key>)
    requires BackOn(before, sofar, recorded, done) && k in recorded && k !in done
    requires done' <= if reached then done + {k} else done
    ensures BackOn(before, SetEnabled(sofar, {k}, reached), recorded, done')
  {
  }

  lemma OffStep(before: seq<Camera>, sofar: seq<Camera>, touched: set<Key>, done: set<Key>, k: Key, recorded: bool, reached: bool,
                done': set<Key>)
    requires Off(before, sofar, touched, done) && k !in done && (recorded ==> done' <= if reached then done else done + {k})
    requires !recorded ==> done' == done
    ensures recorded ==> Off(before, SetEnabled(sofar, {k}, reached), touched + {k}, done')
    ensures !recorded ==> Off(before, sofar, touched, done')
  {
  }

  lemma AllAreOff(before: seq<Camera>, after: seq<Camera>)
    requires Off(before, after, Keys(EnabledOf(before)), Keys(EnabledOf(before)))
    ensures AllOff(before, after, |before|)
  {
    forall i | 0 <= i < |before| ensures after[i] == before[i].(enabled := false) {
      assert before[i] in before;
      if before[i].enabled { assert before[i] in EnabledOf(before); }
    }
  }

  lemma NextToDisable(devices: seq<Camera>, k: nat)
    requires UniqueIds(devices) && k < |devices|
    ensures EnabledOf(devices[..k + 1]) == EnabledOf(devices[..k]) + (if devices[k].enabled then [devices[k]] else [])
    ensures forall m :: m in EnabledOf(devices[..k]) ==> m.id != devices[k].id
    ensures devices[k].enabled ==> KeyOf(devices[k]) in Keys(EnabledOf(devices))
  {
    assert devices[..k + 1][..k] == devices[..k];
    if devices[k].enabled { assert devices[k] in EnabledOf(devices); }
  }

  lemma NothingDisabledYet(devices: seq<Camera>, start: seq<Camera>)
    ensures EnabledOf(devices[..0]) == [] && TriedAll([], [], 0) && Off(start, start, Keys([]), Did([], false))
  {
  }

  /** What one turn of the disable loop tries and does. */
  ghost predicate TurnedOff(device: Camera, recorded: bool, ok: bool, more: seq<Effect>) {
    && Tried(more, true) == {} && Tried(more, false) == (if recorded then {KeyOf(device)} else {})
    && Did(more, false) == (if ok then {KeyOf(device)} else {}) && (ok ==> recorded)
  }

  lemma DisableTurn(journal: seq<Camera>, es: seq<Effect>, failures: int, device: Camera, recorded: bool, ok: bool,
                    more: seq<Effect>, after: seq<Camera>)
    requires TriedAll(journal, es, failures) && failures >= 0
    requires TurnedOff(device, recorded, ok, more) && forall m :: m in journal ==> m.id != device.id
    requires after == if recorded then journal + [device] else journal
    ensures TriedAll(after, es + more, if ok then failures else failures + 1)
  {
    hide Tried, Did;
    SwitchesConcat(es, more, true);
    SwitchesConcat(es, more, false);
  }

  lemma OffTurn(start: seq<Camera>, cameras: seq<Camera>, journal: seq<Camera>, es: seq<Effect>, failures: int, device: Camera,
                recorded: bool, ok: bool, reached: bool, more: seq<Effect>, after: seq<Camera>)
    requires TriedAll(journal, es, failures) && Off(start, cameras, Keys(journal), Did(es, false))
    requires TurnedOff(device, recorded, ok, more) && (ok ==> !reached) && forall m :: m in journal ==> m.id != device.id
    requires after == if recorded then journal + [device] else journal
    ensures Off(start, if recorded then SetEnabled(cameras, {KeyOf(device)}, reached) else cameras, Keys(after), Did(es + more, false))
  {
    hide Tried, Did, Off, SetEnabled;
    SwitchesConcat(es, more, false);
    DidWasTried(es, false);
    OffStep(start, cameras, Keys(journal), Did(es, false), KeyOf(device), recorded, reached, Did(es + more, false));
    assert recorded ==> Keys(after) == Keys(journal) + {KeyOf(device)};
  }

  lemma {:induction false} DidWasTried(es: seq<Effect>, on: bool)
    ensures Did(es, on) <= Tried(es, on)
  {
    if es != [] { DidWasTried(es[..|es| - 1], on); }
  }

  /** Two fault-free toggles from an empty journal put every camera back as it was. */
  lemma TogglingTwiceIsIdentity(before: seq<Camera>, off: seq<Camera>, after: seq<Camera>, journal: seq<Camera>)
    requires UniqueIds(before)
    requires AllOff(before, off, |before|) && journal == EnabledOf(before)
    requires BackOn(off, after, Keys(journal), Keys(journal))
    ensures after == before
  {
    forall i | 0 <= i < |before| ensures after[i] == before[i] {
      assert KeyOf(off[i]) == KeyOf(before[i]);
      if KeyOf(before[i]) in Keys(journal) {
        var c :| c in journal && KeyOf(c) == KeyOf(before[i]);
        var j :| 0 <= j < |before| && before[j] == c;
        assert i == j;
      } else {
        assert before[i] !in journal;
      }
    }
  }

  /** The world outside the agent.  Every operation may fail; each effect is logged. */
  class Host {
    var file: JournalFile
    var cameras: seq<Camera>
    ghost const start: State
    ghost var effects: seq<Effect>
    ghost var now: State

    ghost predicate Valid() reads this {
      && Safe(start) && AllowedRun(start, effects) && Replay(start, effects) == now
      && now.file == file && now.cameras == cameras && UniqueIds(cameras)
    }

    constructor (file: JournalFile, cameras: seq<Camera>)
      requires UniqueIds(RecordsOf(file)) && UniqueIds(cameras)
      ensures Valid() && effects == [] && this.file == file && this.cameras == cameras
      ensures now == State(file, [], true, cameras, [], {}, NOTHING_YET)
    {
      this.file, this.cameras := file, cameras;
      start := State(file, [], true, cameras, [], {}, NOTHING_YET);
      effects := [];
      now := State(file, [], true, cameras, [], {}, NOTHING_YET);
    }

    ghost method Log(e: Effect)
      requires AllowedRun(start, effects) && Replay(start, effects) == now && Allowed(now, e)
      modifies this`effects, this`now
      ensures AllowedRun(start, effects) && Replay(start, effects) == now
      ensures effects == old(effects) + [e] && now == Step(old(now), e)
    {
      Append(start, effects, e);
      effects := effects + [e];
      now := Step(now, e);
    }

    lemma NowIsSafe()
      requires Valid()
      ensures Safe(now)
    {
      CrashSafety(start, effects, |effects|);
      assert effects[..|effects|] == effects;
    }

    /** Another program plugs, unplugs or toggles cameras, or nothing happens. */
    method Interfere()
      requires Valid()
      modifies this
      ensures Valid() && file == old(file)
      ensures effects == old(effects) || effects == old(effects) + [Changed(cameras)]
      ensures now == old(now).(cameras := cameras, past := now.past)
      ensures now.past == old(now).past.(changes := now.past.changes) && now.past.changes >= old(now).past.changes
      ensures now.past.changes == old(now).past.changes ==> cameras == old(cameras)
    {
      var next: seq<Camera> := *;
      if UniqueIds(next) {
        cameras := next;
        Log(Changed(next));
      }
    }

    method List() returns (ok: bool, cs: seq<Camera>)
      requires Valid()
      modifies this`effects, this`now
      ensures Valid() && effects == old(effects) + [Listed(ok)] && now == Step(old(now), Listed(ok))
      ensures cs == if ok then cameras else []
    {
      ok := *;
      cs := if ok then cameras else [];
      Log(Listed(ok));
    }

    /** SetCamera: a failing call may still have changed the camera. */
    method SetCamera(k: Key, on: bool) returns (ok: bool, ghost reached: bool)
      requires Valid() && !now.err && k in Keys(now.mem)
      modifies this
      ensures Valid() && file == old(file)
      ensures effects == old(effects) + [Switched(k, on, ok, reached)]
      ensures now == Step(old(now), Switched(k, on, ok, reached))
      ensures ok ==> reached == on && k in Keys(old(cameras))
    {
      var outcome: bool := *;
      var attempt: bool := *;
      ok, reached := attempt && outcome == on && IndexOf(cameras, k) >= 0, outcome;
      if ok { assert cameras[IndexOf(cameras, k)] in cameras; }
      cameras := SetEnabled(cameras, {k}, outcome);
      Log(Switched(k, on, ok, outcome));
    }

    /** PrepareRestore authorizes recorded interfaces, possibly only some of them. */
    method PrepareRestore(saved: seq<Camera>) returns (ok: bool, ghost touched: set<Key>)
      requires Valid() && !now.err && now.mem == saved
      modifies this
      ensures Valid() && file == old(file)
      ensures touched <= Keys(saved) && effects == old(effects) + [Prepared(touched, ok)]
      ensures now == Step(old(now), Prepared(touched, ok))
    {
      ok := *;
      var picked: set<Key> := *;
      touched := picked * Keys(saved);
      cameras := SetEnabled(cameras, picked * Keys(saved), true);
      Log(Prepared(touched, ok));
    }

    /** Writing a temporary file and renaming it over the journal: all or nothing. */
    method Replace(next: seq<Camera>) returns (ok: bool)
      requires Valid() && Allowed(now, Saved(next, true))
      modifies this
      ensures Valid() && effects == old(effects) + [Saved(next, ok)] && now == Step(old(now), Saved(next, ok))
    {
      ok := *;
      if ok { file := Records(next); }
      Log(Saved(next, ok));
    }
  }

  /** How one record's turn in the restore loop ends: its camera is not there or refused, it
      is on but the record could not be dropped, or both done. */
  datatype Turn = Unlisted | Refusing | Unsaved | Done

  datatype Outcome = Refused | NotListed | Toggled(failures: nat)

  /** deviceManager: the journal in memory, and whether it may be used at all. */
  class Manager {
    const host: Host
    var journal: seq<Camera>
    var journalErr: bool

    ghost predicate Valid() reads this, host {
      host.Valid() && host.now.mem == journal && host.now.err == journalErr
    }

    /** newDeviceManager: a (re)start reloads whatever the file holds. */
    constructor (host: Host, persistent: bool)
      requires host.Valid()
      modifies host
      ensures Valid() && this.host == host
      ensures exists readable ::
                && host.effects == old(host.effects) + [Restarted(readable)]
                && host.now == Step(old(host.now), Restarted(readable)) && (readable ==> persistent)
    {
      var readable: bool := *;
      readable := readable && persistent;
      this.host := host;
      journal := if readable then RecordsOf(host.file) else [];
      journalErr := !readable || LoadError(host.file);
      new;
      host.Log(Restarted(readable));
    }

    method SaveJournal(next: seq<Camera>) returns (ok: bool)
      requires Valid() && Allowed(host.now, Saved(next, true))
      modifies this, host
      ensures Valid() && host.effects == old(host.effects) + [Saved(next, ok)]
      ensures host.now == Step(old(host.now), Saved(next, ok))
    {
      ok := host.Replace(next);
      if ok { journal := next; }
    }

    lemma JournalHasUniqueIds()
      requires Valid() && !journalErr
      ensures UniqueIds(journal)
    {
      host.NowIsSafe();
    }

    /** One camera switched, while others may interfere. */
    method Switch(k: Key, on: bool) returns (ok: bool, ghost more: seq<Effect>, ghost reached: bool)
      requires Valid() && !journalErr && k in Keys(journal)
      modifies host
      ensures Valid() && host.effects == old(host.effects) + more && host.now.listed == old(host.now.listed)
      ensures Tried(more, on) == {k} && Did(more, on) == (if ok then {k} else {}) && Tried(more, !on) == {}
      ensures Since(old(host.now.past), host.now.past, if on then {k} else {}, if on then {} else {k}, Bit(!ok), 0)
      ensures host.now.owed == if !on then old(host.now.owed) + {k} else if ok then old(host.now.owed) - {k} else old(host.now.owed)
      ensures ok ==> reached == on
      ensures host.now.past.changes == old(host.now.past.changes) ==> host.cameras == SetEnabled(old(host.cameras), {k}, reached)
    {
      hide AllowedRun, Replay, Safe, SetEnabled, Tried, Did;
      ghost var before := host.effects;
      host.Interfere();
      ok, reached := host.SetCamera(k, on);
      more := host.effects[|before|..];
      OneSwitch(before, host.effects, k, on, ok, reached);
    }

    /** One write of the journal, while others may interfere. */
    method Save(next: seq<Camera>) returns (ok: bool, ghost more: seq<Effect>)
      requires Valid() && Allowed(host.now, Saved(next, true))
      modifies this, host
      ensures Valid() && !journalErr && host.effects == old(host.effects) + more && host.now.listed == old(host.now.listed)
      ensures journal == (if ok then next else old(journal)) && host.now.owed == old(host.now.owed) && Still(more)
      ensures Since(old(host.now.past), host.now.past, {}, {}, Bit(!ok), Bit(!ok))
      ensures host.now.past.changes == old(host.now.past.changes) ==> host.cameras == old(host.cameras)
    {
      hide AllowedRun, Replay, Safe;
      ghost var before := host.effects;
      host.Interfere();
      ok := SaveJournal(next);
      more := host.effects[|before|..];
    }

    /** One turn of the restore loop: switch the camera on if it is listed, then drop its
        record. */
    method RestoreOne(record: Camera, devices: seq<Camera>) returns (turn: Turn, ghost more: seq<Effect>, ghost reached: bool)
      requires Valid() && !journalErr && record in journal
      modifies this, host
      ensures Valid() && !journalErr && host.effects == old(host.effects) + more
      ensures journal == if turn == Done then Drop(old(journal), record.id) else old(journal)
      ensures turn == Unlisted <==> KeyOf(record) !in Keys(devices)
      ensures TurnTried(turn, KeyOf(record), more)
      ensures Since(old(host.now.past), host.now.past, {KeyOf(record)}, {},
                Bit(turn == Refusing || turn == Unsaved), Bit(turn == Unsaved))
      ensures host.now.owed <= old(host.now.owed) && (turn == Done ==> KeyOf(record) !in host.now.owed)
      ensures turn == Unsaved || turn == Done ==> reached
      ensures host.now.past.changes == old(host.now.past.changes) ==>
                host.cameras == if turn == Unlisted then old(host.cameras) else SetEnabled(old(host.cameras), {KeyOf(record)}, reached)
    {
      hide AllowedRun, Replay, Safe, SetEnabled, Drop, Tried, Did, Still;
      NothingSwitched([], []);
      reached, more := false, [];
      if IndexOf(devices, KeyOf(record)) < 0 { return Unlisted, more, reached; }
      var ok;
      ok, more, reached := Switch(KeyOf(record), true);
      if !ok { return Refusing, more, reached; }
      var next := Drop(journal, record.id);
      assert DropsRestored(host.now, next);
      ghost var after;
      ok, after := Save(next);
      StillAfter(more, after);
      more := more + after;
      turn := if ok then Done else Unsaved;
    }

    /** One turn of the disable loop: record the camera on disk, then switch it off. */
    method DisableOne(device: Camera) returns (recorded: bool, ok: bool, ghost more: seq<Effect>, ghost reached: bool)
      requires Valid() && !journalErr && device.enabled && device in host.now.listed
      requires forall m :: m in journal ==> m.id != device.id
      modifies this, host
      ensures Valid() && !journalErr && host.effects == old(host.effects) + more
      ensures host.now.listed == old(host.now.listed)
      ensures journal == if recorded then old(journal) + [device] else old(journal)
      ensures ok ==> recorded && !reached
      ensures TurnedOff(device, recorded, ok, more)
      ensures Since(old(host.now.past), host.now.past, {}, {KeyOf(device)}, Bit(!ok), Bit(!recorded))
      ensures host.now.past.changes == old(host.now.past.changes) ==>
                host.cameras == if recorded then SetEnabled(old(host.cameras), {KeyOf(device)}, reached) else old(host.cameras)
    {
      hide AllowedRun, Replay, Safe, SetEnabled, Tried, Did, Still;
      assert AddsRecord(host.now, journal + [device]);
      recorded, more := Save(journal + [device]);
      reached := false;
      StillBefore(more, []);
      if !recorded { return false, false, more, reached; }
      assert device in journal;
      ghost var after;
      ok, after, reached := Switch(KeyOf(device), false);
      StillBefore(more, after);
      more := more + after;
    }

    method Prepare() returns (prepared: bool, ghost more: seq<Effect>)
      requires Valid() && !journalErr
      modifies this, host
      ensures Valid() && !journalErr && host.effects == old(host.effects) + more && Still(more) && journal == old(journal)
      ensures Since(old(host.now.past), host.now.past, Keys(journal), {}, Bit(!prepared), 0)
      ensures host.now.owed == old(host.now.owed)
      ensures host.now.past.changes == old(host.now.past.changes) ==>
                BackOn(old(host.cameras), host.cameras, Keys(journal), {})
    {
      ghost var start := host.effects;
      host.Interfere();
      ghost var before := host.cameras;
      var ok, touched := host.PrepareRestore(journal);
      BackOnStart(before, journal, touched);
      prepared := ok;
      more := host.effects[|start|..];
    }

    /** Switch the recorded cameras back on, dropping each record once its camera is. */
    method Restore(devices: seq<Camera>) returns (failures: nat, ghost es: seq<Effect>)
      requires Valid() && !journalErr && journal != []
      modifies this, host
      ensures Valid() && !journalErr && host.effects == old(host.effects) + es
      ensures Since(old(host.now.past), host.now.past, Keys(old(journal)), {},
                host.now.past.faults - old(host.now.past.faults), host.now.past.unsaved - old(host.now.past.unsaved))
      // Every record has its turn, whatever became of the others.
      ensures Restored(old(journal), devices, journal, es, failures, host.now.past.faults - old(host.now.past.faults),
                host.now.past.unsaved - old(host.now.past.unsaved))
      // The journal only shrinks, by records whose camera is back on; unless a write of it
      // failed, every record left is one failure.
      ensures forall c :: c in journal ==> c in old(journal)
      ensures forall c :: c in old(journal) && c !in journal ==> KeyOf(c) !in host.now.owed
      ensures host.now.past.unsaved == old(host.now.past.unsaved) ==> |journal| <= failures <= |journal| + 1
      // Undisturbed, what was switched is on and what was not recorded is as it was.
      ensures host.now.past.changes == old(host.now.past.changes) ==>
                BackOn(old(host.cameras), host.cameras, Keys(old(journal)), Did(es, true))
    {
      hide AllowedRun, Replay, Safe, UniqueIds, BackOn, Step, Recall, Allowed, Drop, SetEnabled, IndexOf, RestoredUpTo, Tried,
           Did, Ahead, Missing, TurnTried, Still;
      var saved := journal;
      ghost var was, start := host.now.past, host.cameras;
      JournalHasUniqueIds();
      var prepared;
      prepared, es := Prepare();
      failures := if prepared then 0 else 1;
      RestoreStarts(saved, devices, es, failures);
      NothingSwitched(saved, es);
      var k := 0;
      while k < |saved|
        invariant k <= |saved| && Valid() && !journalErr && host.effects == old(host.effects) + es
        invariant UniqueIds(saved) && UniqueIds(journal)
        invariant Since(was, host.now.past, Keys(saved), {}, host.now.past.faults - was.faults, 0)
        invariant RestoredUpTo(saved, devices, k, journal, es, failures, host.now.past.faults - was.faults)
        invariant Ahead(saved, k, es) && |journal| == |saved| - k + failures - Bit(!prepared)
        invariant forall c :: c in saved && c !in journal ==> KeyOf(c) !in host.now.owed
        invariant host.now.past.changes == was.changes ==> BackOn(start, host.cameras, Keys(saved), Did(es, true))
      {
        var record := saved[k];
        NextIsThere(saved, devices, k, journal, es, failures, host.now.past.faults - was.faults);
        DropOne(journal, record);
        ghost var (before, faults, cameras) := (journal, host.now.past.faults - was.faults, host.cameras);
        var turn, more, reached := RestoreOne(record, devices);
        RestoreTurn(saved, devices, k, before, es, failures, faults, turn, more, journal);
        AheadOfTurn(saved, k, es, turn, more);
        if host.now.past.changes == was.changes && turn != Unlisted {
          BackOnStep(start, cameras, Keys(saved), Did(es, true), KeyOf(record), reached, Did(es + more, true));
        }
        es := es + more;
        if turn != Done { failures := failures + 1; }
        if turn == Unsaved { break; }
        k := k + 1;
      }
      StillPending(saved, devices, k, journal, es, failures, host.now.past.faults - was.faults);
    }

    /** Switch every enabled camera off, recording each one on disk first. */
    method Disable(devices: seq<Camera>) returns (failures: nat, ghost es: seq<Effect>)
      requires Valid() && !journalErr && journal == []
      requires UniqueIds(devices) && host.now.listed == devices
      modifies this, host
      ensures Valid() && !journalErr && host.effects == old(host.effects) + es
      ensures Since(old(host.now.past), host.now.past, {}, Keys(EnabledOf(devices)), failures,
                host.now.past.unsaved - old(host.now.past.unsaved))
      // Every enabled camera has its turn, whatever became of the others.
      ensures Disabled(devices, journal, es, failures, host.now.past.unsaved - old(host.now.past.unsaved))
      // Undisturbed, what was switched is off and what was not recorded is as it was.
      ensures host.now.past.changes == old(host.now.past.changes) ==>
                Off(old(host.cameras), host.cameras, Keys(journal), Did(es, false))
    {
      hide AllowedRun, Replay, Safe, UniqueIds, Off, Step, Recall, Allowed, SetEnabled, EnabledOf, Tried, Did, Keys, TurnedOff,
           TriedAll;
      ghost var was, start := host.now.past, host.cameras;
      failures, es := 0, [];
      var k := 0;
      NothingDisabledYet(devices, start);
      while k < |devices|
        invariant k <= |devices| && Valid() && !journalErr && host.now.listed == devices
        invariant host.effects == old(host.effects) + es && journal == EnabledOf(devices[..k])
        invariant Since(was, host.now.past, {}, Keys(EnabledOf(devices)), failures, 0)
        invariant TriedAll(journal, es, failures)
        invariant host.now.past.changes == was.changes ==> Off(start, host.cameras, Keys(journal), Did(es, false))
      {
        var device := devices[k];
        NextToDisable(devices, k);
        k := k + 1;
        if !device.enabled { continue; }
        ghost var cameras, before := host.cameras, journal;
        var recorded, ok, more, reached := DisableOne(device);
        DisableTurn(before, es, failures, device, recorded, ok, more, journal);
        if host.now.past.changes == was.changes {
          OffTurn(start, cameras, before, es, failures, device, recorded, ok, reached, more, journal);
        }
        es := es + more;
        if !ok { failures := failures + 1; }
        if !recorded { break; }
      }
      assert devices[..|devices|] == devices;
    }

    /** The camera toggle.  Any recorded camera selects restore; otherwise disable.  `listed`
        is what the backend listed. */
    method Apply() returns (r: Outcome, ghost listed: seq<Camera>, ghost es: seq<Effect>)
      requires Valid()
      modifies this, host
      ensures Valid() && journalErr == old(journalErr) && host.effects == old(host.effects) + es
      ensures old(journalErr) ==> r == Refused && es == []
      ensures host.now.past.changes >= old(host.now.past.changes)
      ensures host.now.past.changes == old(host.now.past.changes) ==> listed == old(host.cameras)
      // Cameras are switched on only in restore, and only the recorded ones.
      ensures host.now.past.on <= old(host.now.past.on) + Keys(old(journal))
      ensures old(journal) != [] ==> host.now.past.off == old(host.now.past.off)
      ensures old(journal) != [] ==> forall c :: c in journal ==> c in old(journal)
      // Only a failed listing, or nothing to do, stops a toggle.
      ensures r == Refused && !old(journalErr) ==> old(journal) == [] && listed == []
      ensures r == NotListed ==> host.now.past.faults == old(host.now.past.faults) + 1
      ensures !r.Toggled? ==> journal == old(journal) && Still(es)
      // A toggle gives every recorded, or every enabled, camera its turn, whatever becomes of
      // the others; undisturbed, those that were switched are as they should be.
      ensures r.Toggled? ==>
                Report(old(journal), listed, journal, es, r.failures, host.now.past.faults - old(host.now.past.faults),
                  host.now.past.unsaved - old(host.now.past.unsaved))
      ensures r.Toggled? && host.now.past.changes == old(host.now.past.changes) ==>
                Leaves(old(journal), listed, host.cameras, journal, es)
      // A fault-free toggle nothing interferes with: all off and recorded, or all back on.
      ensures r == Toggled(0) && host.now.past.changes == old(host.now.past.changes) ==>
                if old(journal) == [] then
                  AllOff(old(host.cameras), host.cameras, |old(host.cameras)|) && journal == EnabledOf(old(host.cameras))
                else
                  journal == [] && BackOn(old(host.cameras), host.cameras, Keys(old(journal)), Keys(old(journal)))
      ensures !old(journalErr) && host.now.past.faults == old(host.now.past.faults)
                && host.now.past.changes == old(host.now.past.changes)
                && (if old(journal) == [] then old(host.cameras) != [] else Keys(old(journal)) <= Keys(old(host.cameras))) ==>
                r == Toggled(0)
    {
      hide AllowedRun, Replay, Safe, UniqueIds, BackOn, AllOff, Off, Restored, Disabled, Tried, Did, EnabledOf, Report, Leaves, Still;
      ghost var saved, start := journal, host.cameras;
      var go, devices;
      go, r, devices, listed, es := Begin();
      if !go { return r, listed, es; }
      ghost var mid, part := host.now.past, [];
      var failures;
      failures, part := Toggle(devices);
      StillBefore(es, part);
      ghost var faults, unsaved := host.now.past.faults - mid.faults, host.now.past.unsaved - mid.unsaved;
      ReportAround(saved, listed, journal, part, es + part, failures, faults, unsaved, 0);
      es := es + part;
      r := Toggled(failures);
      ReportWell(saved, listed, journal, es, failures, faults, unsaved);
      if saved == [] && failures == 0 && host.now.past.changes == old(host.now.past.changes) { AllAreOff(start, host.cameras); }
    }

    /** Everything up to the first listing. */
    method Begin() returns (go: bool, r: Outcome, devices: seq<Camera>, ghost listed: seq<Camera>, ghost es: seq<Effect>)
      requires Valid()
      modifies host
      ensures Valid() && host.effects == old(host.effects) + es && Still(es)
      ensures Since(old(host.now.past), host.now.past, {}, {}, Bit(r == NotListed), 0)
      ensures host.now.past.changes == old(host.now.past.changes) ==>
                listed == old(host.cameras) && host.cameras == old(host.cameras)
      ensures go ==> !journalErr && UniqueIds(devices) && host.now.listed == devices == listed && r.Toggled?
      ensures go ==> journal != [] || devices != []
      ensures !go ==> r == Refused || r == NotListed
      ensures r == Refused && !journalErr ==> journal == [] && listed == []
      ensures journalErr ==> r == Refused && es == []
    {
      hide AllowedRun, Replay, Safe;
      go, devices, listed, es := false, [], host.cameras, [];
      if journalErr { r := Refused; return; }
      host.Interfere();
      var ok;
      ok, devices := host.List();
      es := host.effects[|old(host.effects)|..];
      listed := host.cameras;
      r := if !ok then NotListed else if |devices| == 0 && |journal| == 0 then Refused else Toggled(0);
      go := r.Toggled?;
    }

    /** Restore or disable, and list the cameras again. */
    method Toggle(devices: seq<Camera>) returns (failures: nat, ghost es: seq<Effect>)
      requires Valid() && !journalErr && UniqueIds(devices) && host.now.listed == devices
      modifies this, host
      ensures Valid() && !journalErr && host.effects == old(host.effects) + es
      ensures var was := old(host.now.past); var now := host.now.past;
        && Report(old(journal), devices, journal, es, failures, now.faults - was.faults, now.unsaved - was.unsaved)
        && Since(was, now, Keys(old(journal)), if old(journal) == [] then Keys(EnabledOf(devices)) else {},
             now.faults - was.faults, now.unsaved - was.unsaved)
        && (now.changes == was.changes ==> Leaves(old(journal), old(host.cameras), host.cameras, journal, es))
        && (old(journal) != [] && now.unsaved == was.unsaved ==> |journal| <= failures)
      ensures old(journal) != [] ==> forall c :: c in journal ==> c in old(journal)
    {
      hide AllowedRun, Replay, Safe, UniqueIds, BackOn, AllOff, Off, Restored, Disabled, Tried, Did, EnabledOf, Report, Leaves;
      ghost var saved, was, part := journal, host.now.past, [];
      failures, part := RestoreOrDisable(devices);
      ghost var faults, unsaved := host.now.past.faults - was.faults, host.now.past.unsaved - was.unsaved;
      var ok, _ := host.List();
      es := part + [Listed(ok)];
      StillAfter(part, [Listed(ok)]);
      ReportAround(saved, devices, journal, part, es, failures, faults, unsaved, Bit(!ok));
      if !ok { failures := failures + 1; }
    }

    method RestoreOrDisable(devices: seq<Camera>) returns (failures: nat, ghost es: seq<Effect>)
      requires Valid() && !journalErr && UniqueIds(devices) && host.now.listed == devices
      modifies this, host
      ensures Valid() && !journalErr && host.effects == old(host.effects) + es
      ensures var was := old(host.now.past); var now := host.now.past;
        && Report(old(journal), devices, journal, es, failures, now.faults - was.faults, now.unsaved - was.unsaved)
        && Since(was, now, Keys(old(journal)), if old(journal) == [] then Keys(EnabledOf(devices)) else {},
             now.faults - was.faults, now.unsaved - was.unsaved)
        && (now.changes == was.changes ==> Leaves(old(journal), old(host.cameras), host.cameras, journal, es))
        && (old(journal) != [] && now.unsaved == was.unsaved ==> |journal| <= failures)
      ensures old(journal) != [] ==> forall c :: c in journal ==> c in old(journal)
    {
      hide AllowedRun, Replay, Safe, UniqueIds, BackOn, AllOff, Off, Restored, Disabled, Tried, Did, EnabledOf;
      if |journal| > 0 {
        failures, es := Restore(devices);
      } else {
        failures, es := Disable(devices);
      }
    }

    /** Two fault-free toggles from an empty journal return every camera to its state. */
    method ToggleTwice() returns (first: Outcome, second: Outcome)
      requires Valid() && journal == []
      modifies this, host
      ensures Valid()
      ensures first == second == Toggled(0) && host.now.past.changes == old(host.now.past.changes) ==>
                host.cameras == old(host.cameras)
    {
      ghost var before := host.cameras;
      ghost var listed, es;
      first, listed, es := Apply();
      ghost var off, recorded := host.cameras, journal;
      second, listed, es := Apply();
      if first == second == Toggled(0) && host.now.past.changes == old(host.now.past.changes) {
        if recorded == [] {
          assert EnabledOf(before) == [];
          assert forall c :: c in before && c.enabled ==> c in EnabledOf(before);
          assert forall i :: 0 <= i < |before| ==> before[i] in before;
          assert off == before;
        } else {
          TogglingTwiceIsIdentity(before, off, host.cameras, recorded);
        }
      }
    }
  }
}

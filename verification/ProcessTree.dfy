/**
  Who started what (process_tree.go): annotate a pass's rows, in place, with their parents
  and with the program a person started.
*/
module ProcessTree {
  import opened Options
  import opened Rows
  import opened Text

  const MAX_ANCESTRY := 64

  function StripExe(name: string): string {
    if |name| >= 4 && Lower(name[|name| - 4..]) == ".exe" then name[..|name| - 4] else name
  }

  /** appKey. */
  function AppKey(name: string): string {
    var key := Lower(StripExe(TrimSpace(name)));
    if key == "" then "unknown" else key
  }

  /** The part of a row that the tree depends on; the annotation changes only the rest. */
  datatype Link = Link(pid: int, ppid: int, name: string)

  function Links(rows: seq<Row>): (r: seq<Link>)
    ensures |r| == |rows| && forall i :: 0 <= i < |rows| ==> r[i] == Link(rows[i].pid, rows[i].ppid, rows[i].name)
  {
    seq(|rows|, i requires 0 <= i < |rows| => Link(rows[i].pid, rows[i].ppid, rows[i].name))
  }

  /** The last row with this PID. */
  function Find(ls: seq<Link>, pid: int): (r: Option<nat>)
    ensures r.Some? ==> r.value < |ls| && ls[r.value].pid == pid
    ensures r.None? ==> forall i :: 0 <= i < |ls| ==> ls[i].pid != pid
  {
    if ls == [] then None
    else if ls[|ls| - 1].pid == pid then Some(|ls| - 1)
    else Find(ls[..|ls| - 1], pid)
  }

  ghost predicate IsIndex(index: map<int, nat>, ls: seq<Link>) {
    forall p :: (p in index <==> Find(ls, p).Some?) && (p in index ==> index[p] == Find(ls, p).value)
  }

  method Index(rows: array<Row>) returns (index: map<int, nat>)
    ensures IsIndex(index, Links(rows[..]))
  {
    index := map[];
    var k := 0;
    while k < rows.Length
      invariant k <= rows.Length && IsIndex(index, Links(rows[..])[..k])
    {
      var ls := Links(rows[..]);
      assert ls[..k + 1][..k] == ls[..k];
      index := index[rows[k].pid := k];
      k := k + 1;
    }
    assert Links(rows[..])[..k] == Links(rows[..]);
  }

  // -------------------------------------------------------------------- parents

  /** A PPID that is the row's own PID, or that no row has, is cleared. */
  function Cleared(ls: seq<Link>, i: nat): int
    requires i < |ls|
  {
    if ls[i].ppid == ls[i].pid || Find(ls, ls[i].ppid).None? then 0 else ls[i].ppid
  }

  function ClearedLinks(ls: seq<Link>): (r: seq<Link>)
    ensures |r| == |ls| && forall i :: 0 <= i < |ls| ==> r[i] == ls[i].(ppid := Cleared(ls, i))
  {
    seq(|ls|, i requires 0 <= i < |ls| => ls[i].(ppid := Cleared(ls, i)))
  }

  lemma {:induction false} FindByPidOnly(a: seq<Link>, b: seq<Link>, pid: int)
    requires |a| == |b| && forall i :: 0 <= i < |a| ==> a[i].pid == b[i].pid
    ensures Find(a, pid) == Find(b, pid)
  {
    if a != [] { FindByPidOnly(a[..|a| - 1], b[..|b| - 1], pid); }
  }

  /** Every parent left is the PID of another row that is there. */
  predicate Closed(ls: seq<Link>) {
    forall i :: 0 <= i < |ls| && ls[i].ppid != 0 ==> ls[i].ppid != ls[i].pid && Find(ls, ls[i].ppid).Some?
  }

  lemma ClearingCloses(ls: seq<Link>)
    ensures Closed(ClearedLinks(ls))
  {
    forall i | 0 <= i < |ls| ensures Find(ClearedLinks(ls), ls[i].ppid) == Find(ls, ls[i].ppid) {
      FindByPidOnly(ClearedLinks(ls), ls, ls[i].ppid);
    }
  }

  /** Nothing else is cleared. */
  lemma ClearingKeeps(ls: seq<Link>, i: nat, j: nat)
    requires i < |ls| && j < |ls| && ls[i].ppid == ls[j].pid != ls[i].pid
    ensures ClearedLinks(ls)[i] == ls[i]
  {
    Finds(ls, j);
  }

  lemma {:induction false} Finds(ls: seq<Link>, j: nat)
    requires j < |ls|
    ensures Find(ls, ls[j].pid).Some?
  {
    if j < |ls| - 1 { Finds(ls[..|ls| - 1], j); }
  }

  /** The row of the parent. */
  function Up(ls: seq<Link>, i: nat): Option<nat>
    requires i < |ls|
  {
    if ls[i].ppid == 0 then None else Find(ls, ls[i].ppid)
  }

  /** How many of the first k rows have row i for their parent. */
  function Kids(ls: seq<Link>, k: nat, i: nat): nat
    requires k <= |ls|
  {
    if k == 0 then 0 else Kids(ls, k - 1, i) + (if Up(ls, k - 1) == Some(i) then 1 else 0)
  }

  function Parented(ls: seq<Link>, k: nat): nat
    requires k <= |ls|
  {
    if k == 0 then 0 else Parented(ls, k - 1) + (if ls[k - 1].ppid != 0 then 1 else 0)
  }

  function SumKids(ls: seq<Link>, k: nat, n: nat): nat
    requires k <= |ls|
  {
    if n == 0 then 0 else SumKids(ls, k, n - 1) + Kids(ls, k, n - 1)
  }

  lemma {:induction false} SumKidsStep(ls: seq<Link>, k: nat, n: nat)
    requires k < |ls|
    ensures SumKids(ls, k + 1, n) == SumKids(ls, k, n) + (if Up(ls, k).Some? && Up(ls, k).value < n then 1 else 0)
  {
    if n > 0 { SumKidsStep(ls, k, n - 1); }
  }

  lemma {:induction false} NoKids(ls: seq<Link>, n: nat)
    ensures SumKids(ls, 0, n) == 0
  {
    if n > 0 { NoKids(ls, n - 1); }
  }

  /** The child counts add up to the number of rows with a parent. */
  lemma {:induction false} KidsAddUp(ls: seq<Link>, k: nat)
    requires k <= |ls| && Closed(ls)
    ensures SumKids(ls, k, |ls|) == Parented(ls, k)
  {
    if k == 0 {
      NoKids(ls, |ls|);
    } else {
      KidsAddUp(ls, k - 1);
      SumKidsStep(ls, k - 1, |ls|);
    }
  }

  /** How many of the first k rows have this PPID. */
  function WithParent(ls: seq<Link>, k: nat, pid: int): nat
    requires k <= |ls|
  {
    if k == 0 then 0 else WithParent(ls, k - 1, pid) + (if ls[k - 1].ppid == pid then 1 else 0)
  }

  /** With distinct PIDs, a row's children are the rows whose PPID is its PID, and a row's
      parent name is the name of the row whose PID is its PPID. */
  lemma {:induction false} KidsAreByPid(ls: seq<Link>, k: nat, i: nat)
    requires k <= |ls| && i < |ls| && ls[i].pid != 0 && UniqueLinks(ls)
    ensures Kids(ls, k, i) == WithParent(ls, k, ls[i].pid)
    ensures forall j :: 0 <= j < |ls| && ls[j].ppid == ls[i].pid ==> ParentName(ls, j) == ls[i].name
    ensures forall j :: 0 <= j < |ls| && ls[j].ppid == 0 ==> ParentName(ls, j) == ""
  {
    Finds(ls, i);
    if k > 0 { KidsAreByPid(ls, k - 1, i); }
  }

  // ------------------------------------------------------------------- launchers

  predicate InRange(n: nat, chain: seq<nat>) { chain != [] && forall j :: 0 <= j < |chain| ==> chain[j] < n }

  /** The rows visited by the walk up from the last row of `chain`: at most 64, and none
      whose PID was met before. */
  function Walk(ls: seq<Link>, chain: seq<nat>): (r: seq<nat>)
    requires InRange(|ls|, chain)
    ensures |r| >= |chain| && r[..|chain|] == chain && InRange(|ls|, r)
    decreases MAX_ANCESTRY - |chain|
  {
    var up := Up(ls, chain[|chain| - 1]);
    if |chain| < MAX_ANCESTRY && up.Some? && !Met(ls, chain, ls[chain[|chain| - 1]].ppid)
    then Walk(ls, chain + [up.value])
    else chain
  }

  predicate Met(ls: seq<Link>, chain: seq<nat>, pid: int)
    requires InRange(|ls|, chain)
  {
    exists j :: 0 <= j < |chain| && ls[chain[j]].pid == pid
  }

  predicate Program(ls: seq<Link>, infra: set<string>, i: nat)
    requires i < |ls|
  {
    AppKey(ls[i].name) !in infra
  }

  /** The last program of a chain, or its first row if there is none. */
  function RootMost(ls: seq<Link>, infra: set<string>, chain: seq<nat>): (l: nat)
    requires InRange(|ls|, chain)
    ensures l < |ls|
  {
    var last := chain[|chain| - 1];
    if Program(ls, infra, last) || |chain| == 1 then if Program(ls, infra, last) then last else chain[0]
    else RootMost(ls, infra, chain[..|chain| - 1])
  }

  function Launcher(ls: seq<Link>, infra: set<string>, i: nat): (l: nat)
    requires i < |ls|
    ensures l < |ls|
  {
    var chain := Walk(ls, [i]);
    RootMost(ls, infra, chain)
  }

  method LauncherIndex(rows: array<Row>, index: map<int, nat>, infra: set<string>, i: nat) returns (l: nat)
    requires i < rows.Length && IsIndex(index, Links(rows[..]))
    ensures l == Launcher(Links(rows[..]), infra, i)
  {
    ghost var ls := Links(rows[..]);
    var chain: seq<nat>, seen, current := [i], {rows[i].pid}, i;
    while |chain| < MAX_ANCESTRY
      invariant InRange(|ls|, chain) && chain[|chain| - 1] == current && chain[0] == i
      invariant forall p :: p in seen <==> Met(ls, chain, p)
      invariant Walk(ls, chain) == Walk(ls, [i])
    {
      var ppid := rows[current].ppid;
      if ppid == 0 || ppid in seen { break; }
      if ppid !in index { break; }
      var parent := index[ppid];
      assert Up(ls, current) == Some(parent);
      MetNext(ls, chain, parent);
      chain := chain + [parent];
      seen, current := seen + {ppid}, parent;
    }
    assert chain == Walk(ls, [i]);
    l := LastProgram(rows, chain, infra);
  }

  lemma MetNext(ls: seq<Link>, chain: seq<nat>, i: nat)
    requires i < |ls| && InRange(|ls|, chain)
    ensures InRange(|ls|, chain + [i])
    ensures forall p :: Met(ls, chain + [i], p) <==> Met(ls, chain, p) || p == ls[i].pid
  {
    var longer := chain + [i];
    forall p ensures Met(ls, longer, p) <==> Met(ls, chain, p) || p == ls[i].pid {
      if Met(ls, chain, p) {
        var j :| 0 <= j < |chain| && ls[chain[j]].pid == p;
        assert longer[j] == chain[j];
      }
      assert longer[|chain|] == i;
    }
  }

  method LastProgram(rows: array<Row>, chain: seq<nat>, infra: set<string>) returns (l: nat)
    requires InRange(rows.Length, chain)
    ensures l == RootMost(Links(rows[..]), infra, chain)
  {
    ghost var ls := Links(rows[..]);
    var j := |chain|;
    assert chain[..j] == chain;
    while j > 0
      invariant 0 <= j <= |chain|
      invariant j > 0 ==> RootMost(ls, infra, chain) == RootMost(ls, infra, chain[..j])
      invariant j == 0 ==> RootMost(ls, infra, chain) == chain[0]
    {
      j := j - 1;
      assert chain[..j + 1][..j] == chain[..j];
      if AppKey(rows[chain[j]].name) !in infra { return chain[j]; }
    }
    l := chain[0];
  }

  // ------------------------------------------- what the launcher is, on real trees

  predicate UniqueLinks(ls: seq<Link>) { forall i, j :: 0 <= i < j < |ls| ==> ls[i].pid != ls[j].pid }

  /** Row i has exactly n ancestors. */
  predicate Grounded(ls: seq<Link>, i: nat, n: nat)
    requires i < |ls|
    decreases n
  {
    match Up(ls, i)
    case None => n == 0
    case Some(p) => n > 0 && Grounded(ls, p, n - 1)
  }

  /** The ancestor m steps up. */
  function Ancestor(ls: seq<Link>, i: nat, m: nat): (a: nat)
    requires i < |ls|
    ensures a < |ls|
  {
    if m == 0 then i
    else
      var a := Ancestor(ls, i, m - 1);
      match Up(ls, a) case None => a case Some(p) => p
  }

  /** The row and its first n ancestors. */
  function Line(ls: seq<Link>, i: nat, n: nat): (r: seq<nat>)
    requires i < |ls|
    ensures |r| == n + 1 && InRange(|ls|, r) && forall m :: 0 <= m <= n ==> r[m] == Ancestor(ls, i, m)
  {
    seq(n + 1, m requires 0 <= m <= n => Ancestor(ls, i, m))
  }

  lemma {:induction false} AncestorGrounded(ls: seq<Link>, i: nat, n: nat, m: nat)
    requires i < |ls| && Grounded(ls, i, n) && m <= n
    ensures Grounded(ls, Ancestor(ls, i, m), n - m)
  {
    if m > 0 { AncestorGrounded(ls, i, n, m - 1); }
  }

  lemma {:induction false} OneDepth(ls: seq<Link>, i: nat, n: nat, m: nat)
    requires i < |ls| && Grounded(ls, i, n) && Grounded(ls, i, m)
    ensures n == m
    decreases n
  {
    match Up(ls, i)
    case None =>
    case Some(p) => OneDepth(ls, p, n - 1, m - 1);
  }

  lemma OnlyRow(ls: seq<Link>, i: nat, j: nat)
    requires i < |ls| && j < |ls| && UniqueLinks(ls) && ls[i].pid == ls[j].pid
    ensures i == j
  {
  }

  lemma NotMetAbove(ls: seq<Link>, i: nat, n: nat, m: nat)
    requires i < |ls| && UniqueLinks(ls) && Grounded(ls, i, n) && m < n
    ensures Up(ls, Ancestor(ls, i, m)) == Some(Ancestor(ls, i, m + 1))
    ensures !Met(ls, Line(ls, i, m), ls[Ancestor(ls, i, m)].ppid)
  {
    hide UniqueLinks, Find;
    AncestorGrounded(ls, i, n, m);
    var ppid := ls[Ancestor(ls, i, m)].ppid;
    if Met(ls, Line(ls, i, m), ppid) {
      var j :| 0 <= j < m + 1 && ls[Line(ls, i, m)[j]].pid == ppid;
      OnlyRow(ls, Ancestor(ls, i, j), Ancestor(ls, i, m + 1));
      AncestorGrounded(ls, i, n, j);
      AncestorGrounded(ls, i, n, m + 1);
      OneDepth(ls, Ancestor(ls, i, j), n - j, n - m - 1);
    }
  }

  /** On an ancestry shorter than the bound the walk visits all of it. */
  lemma {:induction false} WalkIsLine(ls: seq<Link>, i: nat, n: nat, m: nat)
    requires i < |ls| && UniqueLinks(ls) && Grounded(ls, i, n) && m <= n < MAX_ANCESTRY
    ensures Walk(ls, Line(ls, i, m)) == Line(ls, i, n)
    decreases n - m
  {
    hide Met, Ancestor, UniqueLinks;
    AncestorGrounded(ls, i, n, m);
    if m < n {
      NotMetAbove(ls, i, n, m);
      assert Line(ls, i, m) + [Ancestor(ls, i, m + 1)] == Line(ls, i, m + 1);
      WalkIsLine(ls, i, n, m + 1);
    }
  }

  /** The root-most program of a row and its n ancestors. */
  function TopProgram(ls: seq<Link>, infra: set<string>, i: nat, n: nat): (r: Option<nat>)
    requires i < |ls|
    ensures r.Some? ==> r.value < |ls| && Program(ls, infra, r.value)
    decreases n
  {
    var up := Up(ls, i);
    var above := if n > 0 && up.Some? then TopProgram(ls, infra, up.value, n - 1) else None;
    if above.Some? then above else if Program(ls, infra, i) then Some(i) else None
  }

  lemma {:induction false} RootMostCons(ls: seq<Link>, infra: set<string>, i: nat, rest: seq<nat>)
    requires i < |ls| && InRange(|ls|, rest)
    ensures InRange(|ls|, [i] + rest)
    ensures RootMost(ls, infra, [i] + rest)
            == if Program(ls, infra, RootMost(ls, infra, rest)) then RootMost(ls, infra, rest) else i
  {
    hide Program;
    var chain := [i] + rest;
    assert chain[..|chain| - 1] == [i] + rest[..|rest| - 1];
    if |rest| > 1 {
      RootMostCons(ls, infra, i, rest[..|rest| - 1]);
      RootMostWithout(ls, infra, rest);
    } else {
      assert [i] + rest[..0] == [i];
    }
  }

  lemma {:induction false} RootMostWithout(ls: seq<Link>, infra: set<string>, chain: seq<nat>)
    requires InRange(|ls|, chain)
    ensures !Program(ls, infra, RootMost(ls, infra, chain)) ==> RootMost(ls, infra, chain) == chain[0]
  {
    if |chain| > 1 { RootMostWithout(ls, infra, chain[..|chain| - 1]); }
  }

  lemma {:induction false} AncestorOfParent(ls: seq<Link>, i: nat, m: nat)
    requires i < |ls| && Up(ls, i).Some?
    ensures Ancestor(ls, i, m + 1) == Ancestor(ls, Up(ls, i).value, m)
  {
    if m > 0 {
      AncestorOfParent(ls, i, m - 1);
    } else {
      assert Ancestor(ls, i, 0) == i;
    }
  }

  lemma LineCons(ls: seq<Link>, i: nat, n: nat)
    requires i < |ls| && n > 0 && Up(ls, i).Some?
    ensures Line(ls, i, n) == [i] + Line(ls, Up(ls, i).value, n - 1)
  {
    var p := Up(ls, i).value;
    forall m | 0 <= m < n ensures Ancestor(ls, i, m + 1) == Ancestor(ls, p, m) { AncestorOfParent(ls, i, m); }
    assert Ancestor(ls, i, 0) == i;
  }

  lemma RootMostAlone(ls: seq<Link>, infra: set<string>, i: nat)
    requires i < |ls|
    ensures Line(ls, i, 0) == [i] && RootMost(ls, infra, Line(ls, i, 0)) == i
  {
    assert Ancestor(ls, i, 0) == i;
  }

  lemma {:induction false} RootMostIsTop(ls: seq<Link>, infra: set<string>, i: nat, n: nat)
    requires i < |ls| && Grounded(ls, i, n)
    ensures var l := RootMost(ls, infra, Line(ls, i, n));
      TopProgram(ls, infra, i, n) == if Program(ls, infra, l) then Some(l) else None
    ensures !Program(ls, infra, RootMost(ls, infra, Line(ls, i, n))) ==> RootMost(ls, infra, Line(ls, i, n)) == i
    decreases n
  {
    hide RootMost, Program, Ancestor;
    if n == 0 {
      RootMostAlone(ls, infra, i);
    } else {
      var p := Up(ls, i).value;
      RootMostIsTop(ls, infra, p, n - 1);
      LineCons(ls, i, n);
      RootMostCons(ls, infra, i, Line(ls, p, n - 1));
    }
  }

  lemma NoTop(ls: seq<Link>, infra: set<string>, i: nat, n: nat)
    requires i < |ls| && TopProgram(ls, infra, i, n).None?
    ensures !Program(ls, infra, i)
  {
  }

  /** The launcher of a row is the root-most program among it and its ancestors, or the row
      itself when all of them are infrastructure. */
  lemma LauncherIsTopProgram(ls: seq<Link>, infra: set<string>, i: nat, n: nat)
    requires i < |ls| && UniqueLinks(ls) && Grounded(ls, i, n) && n < MAX_ANCESTRY
    ensures var top := TopProgram(ls, infra, i, n);
      Launcher(ls, infra, i) == if top.Some? then top.value else i
  {
    assert Line(ls, i, 0) == [i];
    WalkIsLine(ls, i, n, 0);
    RootMostIsTop(ls, infra, i, n);
  }

  /** The m-th ancestor is a program and none of the n - m above it is. */
  predicate NoneAbove(ls: seq<Link>, infra: set<string>, i: nat, n: nat, m: int)
    requires i < |ls|
  {
    forall k :: m < k <= n && 0 <= k ==> !Program(ls, infra, Ancestor(ls, i, k))
  }

  /** ... that is, a program among them with none above it. */
  lemma {:induction false} TopMeans(ls: seq<Link>, infra: set<string>, i: nat, n: nat)
    requires i < |ls| && Grounded(ls, i, n)
    ensures var top := TopProgram(ls, infra, i, n);
      if top.None? then NoneAbove(ls, infra, i, n, -1)
      else exists m: nat :: m <= n && top.value == Ancestor(ls, i, m) && NoneAbove(ls, infra, i, n, m)
    decreases n
  {
    hide Program;
    assert Ancestor(ls, i, 0) == i;
    if n > 0 {
      var p := Up(ls, i).value;
      TopMeans(ls, infra, p, n - 1);
      var above := TopProgram(ls, infra, p, n - 1);
      var m: int := -1;
      if above.Some? {
        m :| 0 <= m <= n - 1 && above.value == Ancestor(ls, p, m) && NoneAbove(ls, infra, p, n - 1, m);
        AncestorOfParent(ls, i, m);
      }
      NoneAboveParent(ls, infra, i, n, m);
    }
  }

  lemma NoneAboveParent(ls: seq<Link>, infra: set<string>, i: nat, n: nat, m: int)
    requires i < |ls| && n > 0 && Up(ls, i).Some? && m >= -1 && NoneAbove(ls, infra, Up(ls, i).value, n - 1, m)
    ensures NoneAbove(ls, infra, i, n, m + 1)
  {
    forall k | m + 1 < k <= n ensures !Program(ls, infra, Ancestor(ls, i, k)) { AncestorOfParent(ls, i, k - 1); }
  }

  predicate IsTop(ls: seq<Link>, infra: set<string>, l: nat, d: nat) {
    l < |ls| && Grounded(ls, l, d) && TopProgram(ls, infra, l, d) == Some(l)
  }

  lemma {:induction false} TopIsItsOwn(ls: seq<Link>, infra: set<string>, i: nat, n: nat)
    requires i < |ls| && Grounded(ls, i, n) && TopProgram(ls, infra, i, n).Some?
    ensures exists d: nat :: d <= n && IsTop(ls, infra, TopProgram(ls, infra, i, n).value, d)
    decreases n
  {
    if n > 0 && TopProgram(ls, infra, Up(ls, i).value, n - 1).Some? {
      TopIsItsOwn(ls, infra, Up(ls, i).value, n - 1);
    } else {
      assert IsTop(ls, infra, i, n);
    }
  }

  /** So a launcher is outside the boundary table, and every ancestor above it is in the table;
      only a row that is in it with all its ancestors is its own launcher without being one. */
  lemma LauncherIsOutermost(ls: seq<Link>, infra: set<string>, i: nat, n: nat)
    requires i < |ls| && UniqueLinks(ls) && Grounded(ls, i, n) && n < MAX_ANCESTRY
    ensures var l := Launcher(ls, infra, i);
      if forall m :: 0 <= m <= n ==> AppKey(ls[Ancestor(ls, i, m)].name) in infra then l == i
      else
        AppKey(ls[l].name) !in infra
        && exists m: nat :: m <= n && l == Ancestor(ls, i, m)
                            && forall k :: m < k <= n ==> AppKey(ls[Ancestor(ls, i, k)].name) in infra
  {
    hide AppKey;
    LauncherIsTopProgram(ls, infra, i, n);
    TopMeans(ls, infra, i, n);
    if TopProgram(ls, infra, i, n).Some? {
      TopIsItsOwn(ls, infra, i, n);
      var d: nat :| d <= n && IsTop(ls, infra, TopProgram(ls, infra, i, n).value, d);
    } else {
      forall m | 0 <= m <= n ensures AppKey(ls[Ancestor(ls, i, m)].name) in infra {
        assert !Program(ls, infra, Ancestor(ls, i, m));
      }
    }
  }

  /** A launcher is its own launcher. */
  lemma LauncherIsItsOwn(ls: seq<Link>, infra: set<string>, i: nat, n: nat)
    requires i < |ls| && UniqueLinks(ls) && Grounded(ls, i, n) && n < MAX_ANCESTRY
    ensures var l := Launcher(ls, infra, i); Launcher(ls, infra, l) == l
  {
    LauncherIsTopProgram(ls, infra, i, n);
    var top := TopProgram(ls, infra, i, n);
    if top.Some? {
      TopIsItsOwn(ls, infra, i, n);
      var d: nat :| d <= n && IsTop(ls, infra, top.value, d);
      LauncherIsTopProgram(ls, infra, top.value, d);
    }
  }

  /** A row has its parent's launcher when that is a program; otherwise it is its own. */
  lemma LauncherIsInherited(ls: seq<Link>, infra: set<string>, i: nat, n: nat)
    requires i < |ls| && UniqueLinks(ls) && Grounded(ls, i, n) && n < MAX_ANCESTRY && Up(ls, i).Some?
    ensures var l := Launcher(ls, infra, Up(ls, i).value);
      Launcher(ls, infra, i) == if Program(ls, infra, l) then l else i
  {
    var p := Up(ls, i).value;
    LauncherIsTopProgram(ls, infra, i, n);
    LauncherIsTopProgram(ls, infra, p, n - 1);
    if TopProgram(ls, infra, p, n - 1).None? { NoTop(ls, infra, p, n - 1); }
  }

  // -------------------------------------------------------------- the annotation

  function ParentName(ls: seq<Link>, i: nat): string
    requires i < |ls|
  {
    match Up(ls, i) case None => "" case Some(p) => ls[p].name
  }

  /** A row after the annotation. */
  function Annotated(was: seq<Row>, infra: set<string>, i: nat): Row
    requires i < |was|
  {
    var ls := ClearedLinks(Links(was));
    var l := Launcher(ls, infra, i);
    was[i].(ppid := ls[i].ppid, children := Kids(ls, |ls|, i), parentName := ParentName(ls, i),
            launcher := ls[l].name, launcherPid := ls[l].pid)
  }

  method ClearParents(raw: array<Row>, index: map<int, nat>)
    requires IsIndex(index, Links(raw[..]))
    modifies raw
    ensures forall i :: 0 <= i < raw.Length ==> raw[i] == old(raw[i]).(ppid := Cleared(old(Links(raw[..])), i))
    ensures Links(raw[..]) == ClearedLinks(old(Links(raw[..])))
  {
    ghost var ls := Links(raw[..]);
    var k := 0;
    while k < raw.Length
      invariant k <= raw.Length
      invariant forall i :: 0 <= i < k ==> raw[i] == old(raw[i]).(ppid := Cleared(ls, i))
      invariant forall i :: k <= i < raw.Length ==> raw[i] == old(raw[i])
    {
      if raw[k].ppid == raw[k].pid { raw[k] := raw[k].(ppid := 0); }
      if raw[k].ppid !in index { raw[k] := raw[k].(ppid := 0); }
      k := k + 1;
    }
  }

  method ResetChildren(raw: array<Row>)
    modifies raw
    ensures Links(raw[..]) == old(Links(raw[..]))
    ensures forall i :: 0 <= i < raw.Length ==> raw[i] == old(raw[i]).(children := 0)
  {
    var k := 0;
    while k < raw.Length
      invariant k <= raw.Length
      invariant forall i :: 0 <= i < raw.Length ==> raw[i] == if i < k then old(raw[i]).(children := 0) else old(raw[i])
    {
      raw[k] := raw[k].(children := 0);
      k := k + 1;
    }
  }

  /** A row once the first k rows have been counted towards their parents. */
  function Counted(was: Row, ls: seq<Link>, k: nat, i: nat): Row
    requires i < |ls| && k <= |ls|
  {
    was.(children := Kids(ls, k, i), parentName := if i < k then ParentName(ls, i) else was.parentName)
  }

  method CountChildren(raw: array<Row>, index: map<int, nat>)
    requires IsIndex(index, Links(raw[..])) && Closed(Links(raw[..]))
    requires forall i :: 0 <= i < raw.Length ==> raw[i].children == 0
    modifies raw
    ensures Links(raw[..]) == old(Links(raw[..]))
    ensures forall i :: 0 <= i < raw.Length ==> raw[i] == Counted(old(raw[i]), Links(raw[..]), raw.Length, i)
  {
    hide Find, Up, ParentName, Closed, IsIndex;
    ghost var ls := Links(raw[..]);
    var k := 0;
    while k < raw.Length
      invariant k <= raw.Length
      invariant forall i :: 0 <= i < raw.Length ==> raw[i] == Counted(old(raw[i]), ls, k, i)
    {
      assert Links(raw[..]) == ls;
      CountOne(raw, index, k, ls);
      k := k + 1;
    }
  }

  method CountOne(raw: array<Row>, index: map<int, nat>, k: nat, ghost ls: seq<Link>)
    requires k < raw.Length && ls == Links(raw[..]) && IsIndex(index, ls) && Closed(ls)
    modifies raw
    ensures forall i :: 0 <= i < raw.Length ==>
              raw[i] == old(raw[i]).(children := old(raw[i]).children + (if Up(ls, k) == Some(i) then 1 else 0),
                                     parentName := if i == k then ParentName(ls, k) else old(raw[i]).parentName)
  {
    hide Find;
    if raw[k].ppid != 0 {
      var parent := index[raw[k].ppid];
      raw[parent] := raw[parent].(children := raw[parent].children + 1);
      raw[k] := raw[k].(parentName := raw[parent].name);
    } else {
      raw[k] := raw[k].(parentName := "");
    }
  }

  method SetLaunchers(raw: array<Row>, index: map<int, nat>, infra: set<string>)
    requires IsIndex(index, Links(raw[..]))
    modifies raw
    ensures Links(raw[..]) == old(Links(raw[..]))
    ensures forall i :: 0 <= i < raw.Length ==>
              var ls := Links(raw[..]);
              var l := Launcher(ls, infra, i);
              raw[i] == old(raw[i]).(launcher := ls[l].name, launcherPid := ls[l].pid)
  {
    hide Launcher, IsIndex;
    ghost var ls := Links(raw[..]);
    var k := 0;
    while k < raw.Length
      invariant k <= raw.Length && Links(raw[..]) == ls
      invariant forall i :: 0 <= i < k ==>
                  var l := Launcher(ls, infra, i);
                  raw[i] == old(raw[i]).(launcher := ls[l].name, launcherPid := ls[l].pid)
      invariant forall i :: k <= i < raw.Length ==> raw[i] == old(raw[i])
    {
      var l := LauncherIndex(raw, index, infra, k);
      raw[k] := raw[k].(launcher := raw[l].name, launcherPid := raw[l].pid);
      assert Links(raw[..]) == ls;
      k := k + 1;
    }
  }

  /** annotateProcessTree. */
  method AnnotateProcessTree(raw: array<Row>, infra: set<string>)
    modifies raw
    ensures forall i :: 0 <= i < raw.Length ==> raw[i] == Annotated(old(raw[..]), infra, i)
    ensures Links(raw[..]) == ClearedLinks(old(Links(raw[..]))) && Closed(Links(raw[..]))
  {
    hide Launcher, Kids, Cleared, Closed, IsIndex;
    ghost var was := raw[..];
    var index := Index(raw);
    ClearParents(raw, index);
    ghost var ls := Links(raw[..]);
    ClearingCloses(Links(was));
    SameIndex(index, Links(was), ls);
    ResetChildren(raw);
    CountChildren(raw, index);
    SetLaunchers(raw, index, infra);
  }

  lemma SameIndex(index: map<int, nat>, a: seq<Link>, b: seq<Link>)
    requires IsIndex(index, a) && |a| == |b| && forall i :: 0 <= i < |a| ==> a[i].pid == b[i].pid
    ensures IsIndex(index, b)
  {
    forall p ensures Find(a, p) == Find(b, p) { FindByPidOnly(a, b, p); }
  }
}

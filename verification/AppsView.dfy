/**
  The Apps view as a whole (processes.go): group the rows, then select the app rows by name.
*/
module AppsView {
  import opened Apps
  import opened ProcessTree
  import opened Rows
  import opened Text
  import opened TopN

  /** What aggregateByApp makes of a pass. */
  ghost predicate AppsOf(raw: seq<Row>, apps: seq<App>) {
    && |apps| == |Order(raw)|
    && forall i :: 0 <= i < |apps| ==>
         Summarizes(apps[i], Group(raw, Order(raw)[i])) && apps[i].name == NameOf(raw, Order(raw)[i])
  }

  /** Every column of the apps has its leaders among the picked rows if their names differ, as
      they do when no two keys differ only by spaces; the CPU column always does. */
  method ShowApps(raw: seq<Row>, n: nat) returns (result: seq<App>, apps: seq<App>, ghost picked: map<string, App>)
    requires n <= HARD_CAP
    ensures AppsOf(raw, apps) && |result| <= HARD_CAP && forall a :: a in result ==> a in apps
    ensures Descending(result, AppColumns()[0]) && TopHeld(apps, AppName, AppColumns()[0], n, result)
    ensures |apps| > n ==> Picked(apps, AppName, picked) && Cut(result, picked, AppName, AppColumns()[0], HARD_CAP)
    ensures |apps| > n ==> forall c :: 0 <= c < 5 && (c == 0 || UniqueIds(apps, AppName)) ==>
                             HoldsLeaders(apps, AppName, AppColumns()[c], n, picked)
    ensures TrimsApart(raw) ==> UniqueIds(apps, AppName)
    ensures UniqueIds(apps, AppName) && |apps| <= HARD_CAP && |apps| <= 5 * n ==> forall a :: a in apps ==> a in result
  {
    hide HoldsLeaders, TopHeld, Descending, Cut, Picked, TrimsApart, Summarizes, NameOf, Group, Order, UniqueIds;
    var all := AggregateByApp(raw);
    apps := all;
    if TrimsApart(raw) { NamesAreUnique(raw, apps); }
    result, picked := SelectTopApps(all, n);
  }

  lemma NamesAreUnique(raw: seq<Row>, apps: seq<App>)
    requires TrimsApart(raw) && AppsOf(raw, apps)
    ensures UniqueIds(apps, AppName)
  {
    hide TrimsApart, Summarizes, NameOf, Order;
    forall i, j | 0 <= i < j < |apps| ensures AppName(apps[i]) != AppName(apps[j]) { NamesAreDistinct(raw, i, j); }
  }

  function Named(launcher: string, cpu: real, memory: real): Row {
    Row(0, 0, launcher, "", 0, launcher, 0, Known(cpu), Known(memory), Unknown, Unknown, Unknown, Unknown)
  }

  /** Idle processes of other programs. */
  predicate Idle(p: Row) { p.cpu.OrZero() == 0.0 && p.memory.OrZero() == 0.0 && KeyOf(p) != "a" && KeyOf(p) != "a " }

  /** Without that, an app can hide another of the same name: the busy "a.exe" hides
      "a .exe", which leads by memory. */
  method AnAppIsHidden(others: seq<Row>, n: nat) returns (raw: seq<Row>, result: seq<App>, apps: seq<App>)
    requires 0 < n <= HARD_CAP && (forall i :: 0 <= i < |others| ==> Idle(others[i]))
    requires |Order([Named("a.exe", 2.0, 0.0), Named("a .exe", 1.0, 1.0)] + others)| > n
    ensures AppsOf(raw, apps)
    ensures exists leader :: leader in apps && leader !in result
              && forall a :: a in apps && a != leader ==> a.memory.OrZero() < leader.memory.OrZero()
  {
    hide HoldsLeaders, TopHeld, Descending, Cut, Picked, TrimsApart, Summarizes, Order, NameOf, Group, Idle;
    raw := [Named("a.exe", 2.0, 0.0), Named("a .exe", 1.0, 1.0)] + others;
    ghost var picked;
    result, apps, picked := ShowApps(raw, n);
    ghost var i, j := TwoApps(others, raw, apps);
    OnlyOneShown(apps, picked, result, n, i, j);
  }

  lemma TwoKeys()
    ensures KeyOf(Named("a.exe", 2.0, 0.0)) == "a" && KeyOf(Named("a .exe", 1.0, 1.0)) == "a "
    ensures Stem(Named("a.exe", 2.0, 0.0)) == "a" && Stem(Named("a .exe", 1.0, 1.0)) == "a "
  {
    TwoNamesCollide();
    assert TrimSpace("a.exe") != "" && TrimSpace("a .exe") != "";
  }

  lemma TwoRows(x: Row, y: Row, key: string)
    requires KeyOf(x) != KeyOf(y) && Stem(x) != "" && Stem(y) != ""
    ensures Group([x, y], key) == if KeyOf(x) == key then [x] else if KeyOf(y) == key then [y] else []
    ensures Display([x, y], key) == if KeyOf(x) == key then Stem(x) else if KeyOf(y) == key then Stem(y) else ""
  {
    hide KeyOf, StripExe, TrimSpace, LauncherName;
    GroupNext([], x, key);
    GroupNext([x], y, key);
    assert [] + [x] == [x] && [x] + [y] == [x, y];
  }

  lemma {:induction false} TwoGroups(others: seq<Row>, x: Row, y: Row)
    requires (forall i :: 0 <= i < |others| ==> Idle(others[i])) && KeyOf(x) == "a" && KeyOf(y) == "a "
    requires Stem(x) != "" && Stem(y) != ""
    ensures Group([x, y] + others, "a") == [x] && Group([x, y] + others, "a ") == [y]
  {
    hide KeyOf;
    if others == [] {
      TwoRows(x, y, "a");
      TwoRows(x, y, "a ");
      assert [x, y] + others == [x, y];
    } else {
      var front := others[..|others| - 1];
      TwoGroups(front, x, y);
      assert ([x, y] + others)[..|others| + 1] == [x, y] + front;
    }
  }

  lemma {:induction false} OrderHasAll(rows: seq<Row>, i: nat)
    requires i < |rows|
    ensures KeyOf(rows[i]) in Order(rows)
  {
    hide KeyOf;
    if i < |rows| - 1 { OrderHasAll(rows[..|rows| - 1], i); }
  }

  lemma {:induction false} ZeroTotal(rows: seq<Row>, get: Row -> Metric)
    requires forall i :: 0 <= i < |rows| ==> get(rows[i]).OrZero() == 0.0
    ensures Total(rows, get) == 0.0
  {
    if rows != [] { ZeroTotal(rows[..|rows| - 1], get); }
  }

  lemma IdleApp(app: App, group: seq<Row>)
    requires Summarizes(app, group) && forall p :: p in group ==> p.cpu.OrZero() == p.memory.OrZero() == 0.0
    ensures app.cpu.OrZero() == app.memory.OrZero() == 0.0
  {
    ZeroTotal(group, (p: Row) => p.cpu);
    ZeroTotal(group, (p: Row) => p.memory);
  }

  lemma LoneApp(app: App, p: Row)
    requires Summarizes(app, [p]) && p.cpu.Known? && p.memory.Known? && p.cpu.value <= 100.0
    ensures app.cpu == p.cpu && app.memory == p.memory
  {
    LoneSum(p, (p: Row) => p.cpu);
    LoneSum(p, (p: Row) => p.memory);
  }

  lemma LoneSum(p: Row, get: Row -> Metric)
    requires get(p).Known?
    ensures SumOf([p], get) == get(p)
  {
    var one := [p];
    assert get(one[0]).Known? && one[..|one| - 1] == [];
    assert Total(one, get) == Total([], get) + get(p).OrZero();
  }

  lemma OthersAreIdle(others: seq<Row>, x: Row, y: Row, key: string, app: App)
    requires (forall i :: 0 <= i < |others| ==> Idle(others[i])) && KeyOf(x) == "a" && KeyOf(y) == "a "
    requires key != "a" && key != "a " && Summarizes(app, Group([x, y] + others, key))
    ensures app.cpu.OrZero() == app.memory.OrZero() == 0.0
  {
    hide KeyOf, Summarizes, Group;
    var raw := [x, y] + others;
    forall p | p in Group(raw, key) ensures p.cpu.OrZero() == p.memory.OrZero() == 0.0 {
      GroupMeans(raw, key, p);
      var i :| 0 <= i < |raw| && raw[i] == p;
      assert i >= 2 && p == others[i - 2];
    }
    IdleApp(app, Group(raw, key));
  }

  /** The two app rows of the same name, among idle ones. */
  lemma TwoApps(others: seq<Row>, raw: seq<Row>, apps: seq<App>) returns (i: nat, j: nat)
    requires forall k :: 0 <= k < |others| ==> Idle(others[k])
    requires raw == [Named("a.exe", 2.0, 0.0), Named("a .exe", 1.0, 1.0)] + others && AppsOf(raw, apps)
    ensures i < |apps| && j < |apps| && apps[i].name == apps[j].name == "a"
    ensures apps[i].cpu == Known(2.0) && apps[i].memory == Known(0.0) && apps[j].cpu == Known(1.0) && apps[j].memory == Known(1.0)
    ensures forall k :: 0 <= k < |apps| && k != i && k != j ==> apps[k].cpu.OrZero() == apps[k].memory.OrZero() == 0.0
  {
    hide Order, Group, KeyOf, Summarizes, Display, AppKey, StripExe, TrimSpace, Idle;
    var (x, y) := (Named("a.exe", 2.0, 0.0), Named("a .exe", 1.0, 1.0));
    TwoKeys();
    TwoGroups(others, x, y);
    OrderHasAll(raw, 0);
    OrderHasAll(raw, 1);
    i :| 0 <= i < |Order(raw)| && Order(raw)[i] == "a";
    j :| 0 <= j < |Order(raw)| && Order(raw)[j] == "a ";
    LoneApp(apps[i], x);
    LoneApp(apps[j], y);
    BothCalledA(others, raw);
    OrderIsDistinct(raw);
    forall k | 0 <= k < |apps| && k != i && k != j ensures apps[k].cpu.OrZero() == apps[k].memory.OrZero() == 0.0 {
      OthersAreIdle(others, x, y, Order(raw)[k], apps[k]);
    }
  }

  lemma BothCalledA(others: seq<Row>, raw: seq<Row>)
    requires forall k :: 0 <= k < |others| ==> Idle(others[k])
    requires raw == [Named("a.exe", 2.0, 0.0), Named("a .exe", 1.0, 1.0)] + others
    ensures NameOf(raw, "a") == NameOf(raw, "a ") == "a"
  {
    var (x, y) := (Named("a.exe", 2.0, 0.0), Named("a .exe", 1.0, 1.0));
    TwoKeys();
    TwoNamesCollide();
    assert Stem(x) == StripExe(TrimSpace("a.exe")) && Stem(y) == StripExe(TrimSpace("a .exe"));
    hide KeyOf, StripExe, TrimSpace;
    StemShown(others, x, y, "a");
    StemShown(others, x, y, "a ");
  }

  lemma {:induction false} StemShown(others: seq<Row>, x: Row, y: Row, key: string)
    requires (forall k :: 0 <= k < |others| ==> Idle(others[k])) && KeyOf(x) == "a" && KeyOf(y) == "a "
    requires Stem(x) != "" && Stem(y) != "" && (key == "a" || key == "a ")
    ensures Display([x, y] + others, key) == if key == "a" then Stem(x) else Stem(y)
  {
    hide KeyOf, StripExe, TrimSpace, LauncherName;
    if others == [] {
      TwoRows(x, y, key);
      assert [x, y] + others == [x, y];
    } else {
      var front := others[..|others| - 1];
      StemShown(front, x, y, key);
      assert ([x, y] + others)[..|others| + 1] == [x, y] + front;
    }
  }

  lemma OnlyOneShown(apps: seq<App>, picked: map<string, App>, result: seq<App>, n: nat, i: nat, j: nat)
    requires i < |apps| && j < |apps| && apps[i].name == apps[j].name && apps[j].cpu.OrZero() < apps[i].cpu.OrZero() && n > 0
    requires forall k :: 0 <= k < |apps| && k != i ==> apps[k].cpu.OrZero() < apps[i].cpu.OrZero()
    requires Picked(apps, AppName, picked) && HoldsLeaders(apps, AppName, AppColumns()[0], n, picked)
    requires Cut(result, picked, AppName, AppColumns()[0], HARD_CAP)
    ensures apps[j] !in result
  {
    var (cpu, best) := (AppColumns()[0], apps[i]);
    assert best in apps;
    if |AtLeast(picked, cpu, cpu(best))| >= n {
      var l :| l in AtLeast(picked, cpu, cpu(best));
      assert picked[l] in apps;
    }
  }
}

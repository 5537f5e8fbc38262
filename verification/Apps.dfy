/**
  The Apps view (processes.go): one row per launcher, merged from the processes below it.
*/
module Apps {
  import opened Rows
  import opened Text
  import opened ProcessTree
  import Members

  datatype App = App(
    name: string, count: nat, members: seq<Members.Member>, cpu: Metric, memory: Metric, gpu: Metric, gpuMemory: Metric,
    diskRead: Metric, diskWrite: Metric)

  /** The name a row is grouped under. */
  function LauncherName(p: Row): string { if TrimSpace(p.launcher) == "" then p.name else p.launcher }

  function KeyOf(p: Row): string { AppKey(LauncherName(p)) }

  /** The rows of one group, in their order. */
  function Group(rows: seq<Row>, key: string): seq<Row> {
    if rows == [] then []
    else Group(rows[..|rows| - 1], key) + (if KeyOf(rows[|rows| - 1]) == key then [rows[|rows| - 1]] else [])
  }

  /** The keys, in order of first appearance. */
  function Order(rows: seq<Row>): seq<string> {
    if rows == [] then []
    else
      var (front, key) := (Order(rows[..|rows| - 1]), KeyOf(rows[|rows| - 1]));
      if key in front then front else front + [key]
  }

  predicate Distinct(keys: seq<string>) { forall i, j :: 0 <= i < j < |keys| ==> keys[i] != keys[j] }

  lemma {:induction false} OrderIsDistinct(rows: seq<Row>)
    ensures Distinct(Order(rows))
  {
    if rows != [] { OrderIsDistinct(rows[..|rows| - 1]); }
  }

  /** Row i is the first with this key. */
  predicate AppearsAt(rows: seq<Row>, key: string, i: nat)
    requires i < |rows|
  {
    KeyOf(rows[i]) == key && forall j :: 0 <= j < i ==> KeyOf(rows[j]) != key
  }

  /** Each key of the pass is in the order, and earlier keys appear first in earlier rows. */
  lemma {:induction false} OrderIsByAppearance(rows: seq<Row>, i: nat, j: nat)
    requires i < j < |rows| && AppearsAt(rows, KeyOf(rows[i]), i) && AppearsAt(rows, KeyOf(rows[j]), j)
    ensures exists a, b :: 0 <= a < b < |Order(rows)| && Order(rows)[a] == KeyOf(rows[i]) && Order(rows)[b] == KeyOf(rows[j])
  {
    hide KeyOf;
    var (front, p) := (rows[..|rows| - 1], rows[|rows| - 1]);
    if j < |rows| - 1 {
      assert AppearsAt(front, KeyOf(front[i]), i) && AppearsAt(front, KeyOf(front[j]), j);
      OrderIsByAppearance(front, i, j);
      var a, b :| 0 <= a < b < |Order(front)| && Order(front)[a] == KeyOf(rows[i]) && Order(front)[b] == KeyOf(rows[j]);
      assert Order(rows)[a] == KeyOf(rows[i]) && Order(rows)[b] == KeyOf(rows[j]);
    } else {
      InOrderIffThere(front, KeyOf(rows[i]));
      InOrderIffThere(front, KeyOf(p));
      assert front[i] == rows[i];
      var a :| 0 <= a < |Order(front)| && Order(front)[a] == KeyOf(rows[i]);
      assert Order(rows) == Order(front) + [KeyOf(p)];
      assert Order(rows)[a] == KeyOf(rows[i]) && Order(rows)[|Order(front)|] == KeyOf(p);
    }
  }

  lemma {:induction false} InOrderIffThere(rows: seq<Row>, key: string)
    ensures key in Order(rows) <==> exists i :: 0 <= i < |rows| && KeyOf(rows[i]) == key
  {
    hide KeyOf;
    if rows != [] {
      var front := rows[..|rows| - 1];
      InOrderIffThere(front, key);
      if key in Order(front) {
        var i :| 0 <= i < |front| && KeyOf(front[i]) == key;
        assert KeyOf(rows[i]) == key;
      }
      if i :| 0 <= i < |rows| && KeyOf(rows[i]) == key { assert i < |front| ==> KeyOf(front[i]) == key; }
    }
  }

  function ClampPercent(m: Metric): Metric { if m.Known? && m.value > 100.0 then Known(100.0) else m }

  // ------------------------------------------------------- groups partition the rows

  /** The total of a field over the groups with these keys. */
  function GroupsTotal(rows: seq<Row>, keys: seq<string>, get: Row -> Metric): real {
    if keys == [] then 0.0
    else GroupsTotal(rows, keys[..|keys| - 1], get) + Total(Group(rows, keys[|keys| - 1]), get)
  }

  function GroupsSize(rows: seq<Row>, keys: seq<string>): nat {
    if keys == [] then 0 else GroupsSize(rows, keys[..|keys| - 1]) + |Group(rows, keys[|keys| - 1])|
  }

  lemma {:induction false} OneMoreProcess(rows: seq<Row>, p: Row, keys: seq<string>, get: Row -> Metric)
    requires Distinct(keys)
    ensures GroupsTotal(rows + [p], keys, get)
            == GroupsTotal(rows, keys, get) + (if KeyOf(p) in keys then get(p).OrZero() else 0.0)
    ensures GroupsSize(rows + [p], keys) == GroupsSize(rows, keys) + (if KeyOf(p) in keys then 1 else 0)
  {
    hide KeyOf;
    if keys != [] {
      var (front, key) := (keys[..|keys| - 1], keys[|keys| - 1]);
      OneMoreProcess(rows, p, front, get);
      GrowGroup(rows, p, key, get);
      assert keys == front + [key];
    }
  }

  lemma GrowGroup(rows: seq<Row>, p: Row, key: string, get: Row -> Metric)
    ensures Group(rows + [p], key) == Group(rows, key) + (if KeyOf(p) == key then [p] else [])
    ensures Total(Group(rows + [p], key), get)
            == Total(Group(rows, key), get) + (if KeyOf(p) == key then get(p).OrZero() else 0.0)
  {
    hide KeyOf;
    assert (rows + [p])[..|rows|] == rows;
    var g := Group(rows, key);
    assert g + [] == g && (g + [p])[..|g|] == g;
  }

  lemma {:induction false} NewGroup(rows: seq<Row>, key: string, get: Row -> Metric)
    requires key !in Order(rows)
    ensures Group(rows, key) == []
  {
    if rows != [] { NewGroup(rows[..|rows| - 1], key, get); }
  }

  /** Every process is counted in exactly one app: group sizes and unclamped totals add up
      to those of the whole pass. */
  lemma {:induction false} GroupsPartition(rows: seq<Row>, get: Row -> Metric)
    ensures GroupsTotal(rows, Order(rows), get) == Total(rows, get)
    ensures GroupsSize(rows, Order(rows)) == |rows|
  {
    hide KeyOf, Group, GroupsTotal, GroupsSize, Distinct;
    NoGroups(get);
    if rows != [] {
      var (front, p) := (rows[..|rows| - 1], rows[|rows| - 1]);
      GroupsPartition(front, get);
      OrderIsDistinct(front);
      assert rows == front + [p];
      OneMoreProcess(front, p, Order(front), get);
      if KeyOf(p) !in Order(front) { OneMoreGroup(front, p, get); }
    }
  }

  lemma OneMoreGroup(rows: seq<Row>, p: Row, get: Row -> Metric)
    requires KeyOf(p) !in Order(rows)
    ensures Order(rows + [p]) == Order(rows) + [KeyOf(p)]
    ensures GroupsTotal(rows + [p], Order(rows + [p]), get) == GroupsTotal(rows + [p], Order(rows), get) + get(p).OrZero()
    ensures GroupsSize(rows + [p], Order(rows + [p])) == GroupsSize(rows + [p], Order(rows)) + 1
  {
    hide KeyOf, Group, Total;
    var key := KeyOf(p);
    assert (rows + [p])[..|rows|] == rows;
    NewGroup(rows, key, get);
    GrowGroup(rows, p, key, get);
    assert Group(rows + [p], key) == [p];
    assert Total([], get) == 0.0 by { NothingToAdd(get); }
    assert (Order(rows) + [key])[..|Order(rows)|] == Order(rows);
  }

  lemma NoGroups(get: Row -> Metric)
    ensures GroupsTotal([], [], get) == 0.0 && GroupsSize([], []) == 0
  {
  }

  lemma NothingToAdd(get: Row -> Metric)
    ensures Total([], get) == 0.0
  {
  }

  lemma {:induction false} GroupMeans(rows: seq<Row>, key: string, p: Row)
    ensures p in Group(rows, key) <==> p in rows && KeyOf(p) == key
  {
    if rows != [] {
      GroupMeans(rows[..|rows| - 1], key, p);
      assert rows == rows[..|rows| - 1] + [rows[|rows| - 1]];
    }
  }

  /** A row is in one app, that of its launcher whatever its own name; without a launcher, in
      that of its name. */
  lemma OneAppPerRow(rows: seq<Row>, p: Row, key: string)
    requires p in rows
    ensures p in Group(rows, key) <==> key == AppKey(if TrimSpace(p.launcher) != "" then p.launcher else p.name)
  {
    hide AppKey, TrimSpace, Group;
    GroupMeans(rows, key, p);
  }

  // ------------------------------------------------------------------- the app rows

  /** The totals of an app's row; percentages are capped. */
  ghost predicate Summarizes(app: App, group: seq<Row>) {
    && app.count == |group| && Members.MembersOf(app.members, group)
    && app.cpu == ClampPercent(SumOf(group, (p: Row) => p.cpu))
    && app.memory == SumOf(group, (p: Row) => p.memory)
    && app.gpu == ClampPercent(SumOf(group, (p: Row) => p.gpu))
    && app.gpuMemory == SumOf(group, (p: Row) => p.gpuMemory)
    && app.diskRead == SumOf(group, (p: Row) => p.diskRead)
    && app.diskWrite == SumOf(group, (p: Row) => p.diskWrite)
  }

  /** Engine and processor shares are those of the group, but never more than the whole. */
  lemma SharesAreCapped(app: App, group: seq<Row>)
    requires Summarizes(app, group)
    ensures app.cpu.Known? ==> app.cpu.value <= 100.0 && (app.cpu.value == Total(group, (p: Row) => p.cpu) || app.cpu.value == 100.0)
    ensures app.cpu.Known? ==> app.cpu.value <= Total(group, (p: Row) => p.cpu)
    ensures app.cpu.Known? <==> exists i :: 0 <= i < |group| && group[i].cpu.Known?
  {
    var get := (p: Row) => p.cpu;
    assert Reported(group, get) <==> exists i :: 0 <= i < |group| && get(group[i]).Known?;
    assert forall i :: 0 <= i < |group| ==> get(group[i]) == group[i].cpu;
  }

  method Summary(name: string, procs: seq<Row>) returns (app: App)
    ensures app.name == name && Summarizes(app, procs)
  {
    hide Members.MembersOf;
    var members := Members.AppMembers(procs);
    var cpu := SumProcessField(procs, (p: Row) => p.cpu);
    var memory := SumProcessField(procs, (p: Row) => p.memory);
    var gpu := SumProcessField(procs, (p: Row) => p.gpu);
    var gpuMemory := SumProcessField(procs, (p: Row) => p.gpuMemory);
    var diskRead := SumProcessField(procs, (p: Row) => p.diskRead);
    var diskWrite := SumProcessField(procs, (p: Row) => p.diskWrite);
    app := App(name, |procs|, members, ClampPercent(cpu), memory, ClampPercent(gpu), gpuMemory, diskRead, diskWrite);
  }

  /** The first group member whose launcher name has anything left names the app. */
  function Display(rows: seq<Row>, key: string): string {
    if rows == [] then ""
    else
      var (front, p) := (Display(rows[..|rows| - 1], key), rows[|rows| - 1]);
      if front == "" && KeyOf(p) == key then StripExe(TrimSpace(LauncherName(p))) else front
  }

  function FirstNonEmpty(a: string, b: string): string {
    if TrimSpace(a) != "" then TrimSpace(a) else TrimSpace(b)
  }

  /** What the grouping loop knows of the rows seen so far. */
  ghost predicate Grouped(rows: seq<Row>, order: seq<string>, groups: map<string, seq<Row>>, display: map<string, string>) {
    order == Order(rows) && forall key :: OfKey(rows, order, groups, display, key)
  }

  predicate OfKey(rows: seq<Row>, order: seq<string>, groups: map<string, seq<Row>>, display: map<string, string>, key: string) {
    && (key in groups <==> key in order) && (key in display <==> key in order)
    && (if key in groups then groups[key] else []) == Group(rows, key)
    && (if key in display then display[key] else "") == Display(rows, key)
  }

  lemma GroupedNext(rows: seq<Row>, p: Row, order: seq<string>, groups: map<string, seq<Row>>, display: map<string, string>,
                    order': seq<string>, groups': map<string, seq<Row>>, display': map<string, string>)
    requires Grouped(rows, order, groups, display) && OfKey(rows, order, groups, display, KeyOf(p))
    requires order' == if KeyOf(p) in groups then order else order + [KeyOf(p)]
    requires groups' == groups[KeyOf(p) := (if KeyOf(p) in groups then groups[KeyOf(p)] else []) + [p]]
    requires display' == display[KeyOf(p) :=
                                 if KeyOf(p) !in display || display[KeyOf(p)] == "" then StripExe(TrimSpace(LauncherName(p)))
                                 else display[KeyOf(p)]]
    ensures Grouped(rows + [p], order', groups', display')
  {
    hide KeyOf, StripExe, TrimSpace, LauncherName, Group, Display, Order;
    OrderNext(rows, p);
    forall key ensures OfKey(rows + [p], order', groups', display', key) {
      assert OfKey(rows, order, groups, display, key);
      GroupNext(rows, p, key);
    }
  }

  lemma OrderNext(rows: seq<Row>, p: Row)
    ensures Order(rows + [p]) == if KeyOf(p) in Order(rows) then Order(rows) else Order(rows) + [KeyOf(p)]
  {
    assert (rows + [p])[..|rows|] == rows;
  }

  lemma GroupNext(rows: seq<Row>, p: Row, key: string)
    ensures Group(rows + [p], key) == if KeyOf(p) == key then Group(rows, key) + [p] else Group(rows, key)
    ensures Display(rows + [p], key)
            == if Display(rows, key) == "" && KeyOf(p) == key then StripExe(TrimSpace(LauncherName(p))) else Display(rows, key)
  {
    hide KeyOf, StripExe, TrimSpace, LauncherName;
    assert (rows + [p])[..|rows|] == rows;
  }

  method GroupRows(raw: seq<Row>) returns (order: seq<string>, groups: map<string, seq<Row>>, display: map<string, string>)
    ensures Grouped(raw, order, groups, display)
  {
    hide KeyOf, StripExe, TrimSpace, LauncherName, Grouped;
    groups, display, order := map[], map[], [];
    var k := 0;
    assert Grouped(raw[..0], order, groups, display) by { NothingGrouped(); }
    while k < |raw|
      invariant k <= |raw| && Grouped(raw[..k], order, groups, display)
    {
      var p := raw[k];
      var launcher := LauncherName(p);
      var key := KeyOf(p);
      assert OfKey(raw[..k], order, groups, display, key) by { KeyIsGrouped(raw[..k], order, groups, display, key); }
      ghost var (order0, groups0, display0) := (order, groups, display);
      if key !in groups { order := order + [key]; }
      if key !in display || display[key] == "" { display := display[key := StripExe(TrimSpace(launcher))]; }
      groups := groups[key := (if key in groups then groups[key] else []) + [p]];
      GroupedNext(raw[..k], p, order0, groups0, display0, order, groups, display);
      assert raw[..k + 1] == raw[..k] + [p];
      k := k + 1;
    }
    assert raw[..k] == raw;
  }

  lemma KeyIsGrouped(rows: seq<Row>, order: seq<string>, groups: map<string, seq<Row>>, display: map<string, string>, key: string)
    requires Grouped(rows, order, groups, display)
    ensures OfKey(rows, order, groups, display, key) && order == Order(rows)
  {
  }

  lemma NothingGrouped()
    ensures Grouped([], [], map[], map[])
  {
  }

  /** aggregateByApp. */
  method AggregateByApp(raw: seq<Row>) returns (apps: seq<App>)
    ensures |apps| == |Order(raw)|
    ensures forall i :: 0 <= i < |apps| ==> Summarizes(apps[i], Group(raw, Order(raw)[i]))
    ensures forall i :: 0 <= i < |apps| ==> apps[i].name == NameOf(raw, Order(raw)[i])
  {
    hide Summarizes, Group, Display, Order, FirstNonEmpty, Grouped;
    var order, groups, display := GroupRows(raw);
    KeyIsGrouped(raw, order, groups, display, "");
    apps := [];
    var k := 0;
    while k < |order|
      invariant k <= |order| && |apps| == k
      invariant forall i :: 0 <= i < k ==> Summarizes(apps[i], Group(raw, Order(raw)[i]))
      invariant forall i :: 0 <= i < k ==> apps[i].name == FirstNonEmpty(Display(raw, Order(raw)[i]), Order(raw)[i])
    {
      KeyIsGrouped(raw, order, groups, display, order[k]);
      var app := Summary(FirstNonEmpty(display[order[k]], order[k]), groups[order[k]]);
      apps := apps + [app];
      k := k + 1;
    }
  }

  function NameOf(rows: seq<Row>, key: string): string { FirstNonEmpty(Display(rows, key), key) }

  /** What is left of a row's launcher name without spaces around it and ".exe". */
  function Stem(p: Row): string { StripExe(TrimSpace(LauncherName(p))) }

  /** Row i is the first of the group that has a stem. */
  predicate FirstStemAt(rows: seq<Row>, key: string, i: nat)
    requires i < |rows|
  {
    && KeyOf(rows[i]) == key && Stem(rows[i]) != ""
    && forall j :: 0 <= j < i && KeyOf(rows[j]) == key ==> Stem(rows[j]) == ""
  }

  /** The shown name is a stem of the group, and only a group without any shows its key. */
  lemma {:induction false} DisplayIsAStem(rows: seq<Row>, key: string)
    ensures if Display(rows, key) == "" then forall i :: 0 <= i < |rows| && KeyOf(rows[i]) == key ==> Stem(rows[i]) == ""
            else exists i :: 0 <= i < |rows| && FirstStemAt(rows, key, i) && Stem(rows[i]) == Display(rows, key)
  {
    hide KeyOf, StripExe, TrimSpace, LauncherName;
    if rows != [] {
      var front := rows[..|rows| - 1];
      DisplayIsAStem(front, key);
      if Display(front, key) != "" {
        var i :| 0 <= i < |front| && FirstStemAt(front, key, i) && Stem(front[i]) == Display(front, key);
        assert FirstStemAt(rows, key, i);
      } else if Display(rows, key) != "" {
        assert FirstStemAt(rows, key, |rows| - 1);
      }
    }
  }

  lemma {:induction false} OrderHasRows(rows: seq<Row>, key: string)
    requires key in Order(rows)
    ensures exists i :: 0 <= i < |rows| && KeyOf(rows[i]) == key
  {
    hide KeyOf;
    var front := rows[..|rows| - 1];
    if key in Order(front) {
      OrderHasRows(front, key);
      var i :| 0 <= i < |front| && KeyOf(front[i]) == key;
      assert rows[i] == front[i];
    }
  }

  lemma SpaceHasNoCase(c: char)
    ensures Space(LowerChar(c)) <==> Space(c)
  {
  }

  lemma {:induction false} LowerTrimsLeft(s: string)
    ensures TrimLeft(Lower(s)) == Lower(TrimLeft(s))
  {
    if s != "" {
      SpaceHasNoCase(s[0]);
      LowerTrimsLeft(s[1..]);
      assert Lower(s)[1..] == Lower(s[1..]);
    }
  }

  lemma {:induction false} LowerTrimsRight(s: string)
    ensures TrimRight(Lower(s)) == Lower(TrimRight(s))
  {
    if s != "" {
      SpaceHasNoCase(s[|s| - 1]);
      LowerTrimsRight(s[..|s| - 1]);
      assert Lower(s)[..|s| - 1] == Lower(s[..|s| - 1]);
    }
  }

  lemma LowerTrims(s: string)
    ensures TrimSpace(Lower(s)) == Lower(TrimSpace(s)) && (Lower(s) == "" <==> s == "")
  {
    LowerTrimsLeft(s);
    LowerTrimsRight(TrimLeft(s));
    assert |Lower(s)| == |s|;
  }

  /** An app's shown name is its key without the spaces around it, but for letter case. */
  lemma NameTellsKey(rows: seq<Row>, key: string)
    requires key in Order(rows)
    ensures Lower(NameOf(rows, key)) == TrimSpace(key)
  {
    hide StripExe, TrimSpace, LauncherName, Order, Display, Lower;
    DisplayIsAStem(rows, key);
    OrderHasRows(rows, key);
    LowerTrims(Display(rows, key));
    var i :| 0 <= i < |rows| && KeyOf(rows[i]) == key;
    LowerTrims(Stem(rows[i]));
    UnknownIsTrimmed();
  }

  lemma UnknownIsTrimmed()
    ensures TrimSpace("unknown") == "unknown" && TrimSpace("") == "" && Lower("unknown") == "unknown" && Lower("") == ""
  {
  }

  /** No two keys of the pass differ only by spaces around them. */
  predicate TrimsApart(rows: seq<Row>) {
    var keys := Order(rows);
    forall i, j :: 0 <= i < j < |keys| ==> TrimSpace(keys[i]) != TrimSpace(keys[j])
  }

  predicate NamesApart(rows: seq<Row>) {
    var keys := Order(rows);
    forall i, j :: 0 <= i < j < |keys| ==> Lower(NameOf(rows, keys[i])) != Lower(NameOf(rows, keys[j]))
  }

  /** Names differ, and not only in letter case, exactly then. */
  lemma NamesApartIff(rows: seq<Row>)
    ensures NamesApart(rows) <==> TrimsApart(rows)
  {
    hide NameOf, TrimSpace, Lower, Order;
    var keys := Order(rows);
    if NamesApart(rows) {
      forall i, j | 0 <= i < j < |keys| ensures TrimSpace(keys[i]) != TrimSpace(keys[j]) { TwoNames(rows, i, j); }
    }
    if TrimsApart(rows) {
      forall i, j | 0 <= i < j < |keys| ensures Lower(NameOf(rows, keys[i])) != Lower(NameOf(rows, keys[j])) {
        TwoNames(rows, i, j);
      }
    }
  }

  lemma TwoNames(rows: seq<Row>, i: nat, j: nat)
    requires i < |Order(rows)| && j < |Order(rows)|
    ensures var keys := Order(rows);
      Lower(NameOf(rows, keys[i])) == Lower(NameOf(rows, keys[j])) <==> TrimSpace(keys[i]) == TrimSpace(keys[j])
  {
    hide NameOf, TrimSpace, Lower, Order;
    NameTellsKey(rows, Order(rows)[i]);
    NameTellsKey(rows, Order(rows)[j]);
  }

  lemma NamesAreDistinct(rows: seq<Row>, i: nat, j: nat)
    requires TrimsApart(rows) && i < j < |Order(rows)|
    ensures NameOf(rows, Order(rows)[i]) != NameOf(rows, Order(rows)[j])
  {
    hide NameOf, TrimSpace, Lower, Order;
    NamesApartIff(rows);
  }

  /** Otherwise two groups can show the same name, told apart by a space. */
  lemma TwoNamesCollide()
    ensures AppKey("a.exe") == "a" && AppKey("a .exe") == "a "
    ensures StripExe(TrimSpace("a.exe")) == "a" && StripExe(TrimSpace("a .exe")) == "a "
    ensures FirstNonEmpty(StripExe(TrimSpace("a.exe")), "a") == FirstNonEmpty(StripExe(TrimSpace("a .exe")), "a ") == "a"
  {
    assert "a .exe"[2..] == ".exe" && "a.exe"[1..] == ".exe" && Lower(".exe") == ".exe";
    assert "a .exe"[..2] == "a " && "a.exe"[..1] == "a" && "a "[..1] == "a";
    assert Lower("a ") == "a " && Lower("a") == "a";
    assert TrimSpace("a .exe") == "a .exe" && TrimSpace("a.exe") == "a.exe" && TrimSpace("a ") == "a" && TrimSpace("a") == "a";
  }
}

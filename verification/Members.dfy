/**
  What an app row, or the agent's own cost, is made of (process_tree.go): the executables of
  its processes, most numerous first.
*/
module Members {
  import opened Rows
  import opened Text
  import opened ProcessTree

  const MAX_MEMBERS := 6

  datatype Member = Member(name: string, count: nat)

  function Count(rows: seq<Row>, key: string): nat {
    if rows == [] then 0
    else Count(rows[..|rows| - 1], key) + (if AppKey(rows[|rows| - 1].name) == key then 1 else 0)
  }

  /** The name the first row of an executable shows. */
  function FirstName(rows: seq<Row>, key: string): string {
    if rows == [] then ""
    else
      var (front, p) := (rows[..|rows| - 1], rows[|rows| - 1]);
      if Count(front, key) == 0 && AppKey(p.name) == key then StripExe(TrimSpace(p.name)) else FirstName(front, key)
  }

  function MemberOf(rows: seq<Row>, key: string): Member {
    Member(if FirstName(rows, key) == "" then key else FirstName(rows, key), Count(rows, key))
  }

  lemma CountNext(rows: seq<Row>, p: Row, key: string)
    ensures Count(rows + [p], key) == Count(rows, key) + (if AppKey(p.name) == key then 1 else 0)
    ensures FirstName(rows + [p], key)
            == if Count(rows, key) == 0 && AppKey(p.name) == key then StripExe(TrimSpace(p.name)) else FirstName(rows, key)
  {
    assert (rows + [p])[..|rows|] == rows;
  }

  // ------------------------------------------------------------------------- the order

  predicate Above(a: Member, b: Member) { a.count > b.count || (a.count == b.count && Less(a.name, b.name)) }

  predicate InOrder(ms: seq<Member>) { forall i, j :: 0 <= i < j < |ms| ==> !Above(ms[j], ms[i]) }

  lemma AboveIsAnOrder(a: Member, b: Member, c: Member)
    ensures !Above(a, b) && !Above(b, a) ==> a == b
    ensures !Above(a, b) && !Above(b, c) ==> !Above(a, c)
    ensures Above(a, b) ==> !Above(b, a)
  {
    hide Less;
    LessTotal(a.name, b.name);
    LessTotal(b.name, c.name);
    LessIrreflexive(a.name);
    if Less(a.name, b.name) && Less(b.name, a.name) { LessTransitive(a.name, b.name, a.name); }
    if Less(a.name, c.name) && Less(c.name, b.name) { LessTransitive(a.name, c.name, b.name); }
    if Less(b.name, a.name) && Less(a.name, c.name) { LessTransitive(b.name, a.name, c.name); }
  }

  function Insert(m: Member, ms: seq<Member>): seq<Member> {
    if ms == [] || !Above(ms[0], m) then [m] + ms else [ms[0]] + Insert(m, ms[1..])
  }

  /** sort.Slice. */
  function Sorted(ms: seq<Member>): seq<Member> { if ms == [] then [] else Insert(ms[0], Sorted(ms[1..])) }

  lemma {:induction false} InsertKeepsOrder(m: Member, ms: seq<Member>)
    requires InOrder(ms)
    ensures InOrder(Insert(m, ms)) && multiset(Insert(m, ms)) == multiset{m} + multiset(ms)
  {
    hide Above, InOrder;
    if ms != [] {
      var (head, rest) := (ms[0], ms[1..]);
      HeadIsTop(ms);
      assert ms == [head] + rest;
      if Above(head, m) {
        InsertKeepsOrder(m, rest);
        AboveIsAnOrder(head, m, head);
        InFront(head, rest, Insert(m, rest), m);
      } else {
        AboveAll(m, ms);
        InFront(m, ms, ms, m);
      }
    } else {
      InFront(m, [], [], m);
    }
  }

  lemma HeadIsTop(ms: seq<Member>)
    requires InOrder(ms) && ms != []
    ensures InOrder(ms[1..]) && forall x :: x in ms[1..] ==> !Above(x, ms[0])
  {
  }

  lemma AboveAll(m: Member, ms: seq<Member>)
    requires InOrder(ms) && ms != [] && !Above(ms[0], m)
    ensures forall x :: x in ms ==> !Above(x, m)
  {
    hide Above, InOrder;
    HeadIsTop(ms);
    forall x | x in ms ensures !Above(x, m) { if x != ms[0] { AboveIsAnOrder(x, ms[0], m); } }
  }

  /** A member can stand in front of some others when none of them is above it. */
  lemma InFront(top: Member, ms: seq<Member>, others: seq<Member>, m: Member)
    requires InOrder(others) && (multiset(others) == multiset(ms) || multiset(others) == multiset{m} + multiset(ms))
    requires (forall x :: x in ms ==> !Above(x, top)) && (m == top || !Above(m, top))
    ensures InOrder([top] + others)
  {
    hide Above;
    forall x | x in others ensures x in ms || x == m { assert x in multiset(others); }
    if m == top { AboveIsAnOrder(m, m, m); }
  }

  lemma {:induction false} SortedIsInOrder(ms: seq<Member>)
    ensures InOrder(Sorted(ms)) && multiset(Sorted(ms)) == multiset(ms)
  {
    if ms != [] {
      SortedIsInOrder(ms[1..]);
      InsertKeepsOrder(ms[0], Sorted(ms[1..]));
      assert ms == [ms[0]] + ms[1..];
    }
  }

  /** The same members have only one order. */
  lemma {:induction false} OneOrder(a: seq<Member>, b: seq<Member>)
    requires InOrder(a) && InOrder(b) && multiset(a) == multiset(b)
    ensures a == b
  {
    hide Above;
    if a == [] {
      assert |b| == |multiset(b)|;
    } else {
      HeadsAgree(a, b);
      var x := a[0];
      assert a == [x] + a[1..] && b == [x] + b[1..];
      assert multiset(a[1..]) == multiset(a) - multiset{x} == multiset(b[1..]);
      OneOrder(a[1..], b[1..]);
    }
  }

  lemma HeadsAgree(a: seq<Member>, b: seq<Member>)
    requires InOrder(a) && InOrder(b) && a != [] && multiset(a) == multiset(b)
    ensures b != [] && a[0] == b[0]
  {
    hide Above;
    assert a[0] in multiset(b);
    assert b[0] in multiset(a);
    AboveIsAnOrder(a[0], b[0], a[0]);
    AboveIsAnOrder(a[0], a[0], a[0]);
  }

  // ----------------------------------------------------------------------- the summary

  function ListOf(rows: seq<Row>, keys: seq<string>): (ms: seq<Member>)
    ensures |ms| == |keys|
  {
    seq(|keys|, i requires 0 <= i < |keys| => MemberOf(rows, keys[i]))
  }

  predicate Distinct(keys: seq<string>) { forall i, j :: 0 <= i < j < |keys| ==> keys[i] != keys[j] }

  /** Each executable of these rows once, in some order, as when ranging over a map. */
  ghost predicate Covers(rows: seq<Row>, keys: seq<string>) {
    Distinct(keys) && forall key :: key in keys <==> Count(rows, key) > 0
  }

  function Cut(ms: seq<Member>): seq<Member> { if |ms| > MAX_MEMBERS then ms[..MAX_MEMBERS] else ms }

  ghost predicate MembersOf(ms: seq<Member>, rows: seq<Row>) {
    exists keys :: Covers(rows, keys) && ms == Cut(Sorted(ListOf(rows, keys)))
  }

  lemma {:induction false} SameKeysSameMembers(rows: seq<Row>, a: seq<string>, b: seq<string>)
    requires Distinct(a) && Distinct(b) && forall key :: key in a <==> key in b
    ensures multiset(ListOf(rows, a)) == multiset(ListOf(rows, b))
  {
    hide MemberOf;
    if a == [] {
      DistinctSize(b, {});
    } else {
      var key := a[|a| - 1];
      assert key in b;
      var i :| 0 <= i < |b| && b[i] == key;
      var (a', b') := (a[..|a| - 1], b[..i] + b[i + 1..]);
      SameButOne(a, |a| - 1, a');
      SameButOne(b, i, b');
      SameKeysSameMembers(rows, a', b');
      ListWithout(rows, a, |a| - 1, a');
      ListWithout(rows, b, i, b');
    }
  }

  lemma SameButOne(keys: seq<string>, i: nat, rest: seq<string>)
    requires Distinct(keys) && i < |keys| && rest == keys[..i] + keys[i + 1..]
    ensures Distinct(rest) && forall key :: key in rest <==> key in keys && key != keys[i]
  {
    assert keys == keys[..i] + [keys[i]] + keys[i + 1..];
  }

  lemma ListWithout(rows: seq<Row>, keys: seq<string>, i: nat, rest: seq<string>)
    requires i < |keys| && rest == keys[..i] + keys[i + 1..]
    ensures multiset(ListOf(rows, keys)) == multiset(ListOf(rows, rest)) + multiset{MemberOf(rows, keys[i])}
  {
    hide MemberOf;
    var all := ListOf(rows, keys);
    assert all == all[..i] + [all[i]] + all[i + 1..];
    assert ListOf(rows, rest) == all[..i] + all[i + 1..];
  }

  /** The order in which the map is ranged over does not show. */
  lemma OneSummary(rows: seq<Row>, a: seq<Member>, b: seq<Member>)
    requires MembersOf(a, rows) && MembersOf(b, rows)
    ensures a == b
  {
    hide Count, ListOf, Sorted, InOrder, Cut;
    var x :| Covers(rows, x) && a == Cut(Sorted(ListOf(rows, x)));
    var y :| Covers(rows, y) && b == Cut(Sorted(ListOf(rows, y)));
    SameKeysSameMembers(rows, x, y);
    SortedIsInOrder(ListOf(rows, x));
    SortedIsInOrder(ListOf(rows, y));
    OneOrder(Sorted(ListOf(rows, x)), Sorted(ListOf(rows, y)));
  }

  function Sum(ms: seq<Member>): nat { if ms == [] then 0 else ms[0].count + Sum(ms[1..]) }

  lemma {:induction false} SumOfInsert(m: Member, ms: seq<Member>)
    ensures Sum(Insert(m, ms)) == m.count + Sum(ms)
  {
    if ms != [] && Above(ms[0], m) {
      SumOfInsert(m, ms[1..]);
    } else {
      assert ([m] + ms)[1..] == ms;
    }
  }

  lemma {:induction false} SumOfSorted(ms: seq<Member>)
    ensures Sum(Sorted(ms)) == Sum(ms)
  {
    if ms != [] {
      SumOfSorted(ms[1..]);
      SumOfInsert(ms[0], Sorted(ms[1..]));
    }
  }

  lemma {:induction false} SumNext(rows: seq<Row>, p: Row, keys: seq<string>)
    requires Distinct(keys)
    ensures Sum(ListOf(rows + [p], keys)) == Sum(ListOf(rows, keys)) + (if AppKey(p.name) in keys then 1 else 0)
  {
    hide AppKey;
    if keys != [] {
      SumNext(rows, p, keys[1..]);
      CountNext(rows, p, keys[0]);
      assert ListOf(rows + [p], keys)[1..] == ListOf(rows + [p], keys[1..]);
      assert ListOf(rows, keys)[1..] == ListOf(rows, keys[1..]);
      assert keys == [keys[0]] + keys[1..];
    }
  }

  lemma {:induction false} NothingCounted(keys: seq<string>)
    ensures Sum(ListOf([], keys)) == 0
  {
    if keys != [] {
      NothingCounted(keys[1..]);
      assert ListOf([], keys)[1..] == ListOf([], keys[1..]);
    }
  }

  /** Each row is counted once. */
  lemma {:induction false} CountsAddUp(rows: seq<Row>, keys: seq<string>)
    requires Distinct(keys) && forall i :: 0 <= i < |rows| ==> AppKey(rows[i].name) in keys
    ensures Sum(ListOf(rows, keys)) == |rows|
  {
    hide AppKey, ListOf;
    if rows == [] {
      NothingCounted(keys);
    } else {
      var (front, p) := (rows[..|rows| - 1], rows[|rows| - 1]);
      CountsAddUp(front, keys);
      SumNext(front, p, keys);
      assert rows == front + [p];
    }
  }

  function Executables(rows: seq<Row>): set<string> { set i | 0 <= i < |rows| :: AppKey(rows[i].name) }

  lemma {:induction false} CountedIffPresent(rows: seq<Row>, key: string)
    ensures Count(rows, key) > 0 <==> key in Executables(rows)
  {
    hide AppKey;
    if rows != [] {
      var front := rows[..|rows| - 1];
      CountedIffPresent(front, key);
      if key in Executables(rows) {
        var i :| 0 <= i < |rows| && AppKey(rows[i].name) == key;
        assert i < |front| ==> AppKey(front[i].name) == key;
      }
      if key in Executables(front) {
        var i :| 0 <= i < |front| && AppKey(front[i].name) == key;
        assert AppKey(rows[i].name) == key;
      }
    }
  }

  lemma {:induction false} DistinctSize(keys: seq<string>, s: set<string>)
    requires Distinct(keys) && forall key :: key in keys <==> key in s
    ensures |keys| == |s|
  {
    if keys == [] {
      assert s == {};
    } else {
      var (front, key) := (keys[..|keys| - 1], keys[|keys| - 1]);
      assert keys == front + [key];
      DistinctSize(front, s - {key});
    }
  }

  lemma {:induction false} SumConcat(a: seq<Member>, b: seq<Member>)
    ensures Sum(a + b) == Sum(a) + Sum(b)
  {
    if a == [] {
      assert a + b == b;
    } else {
      SumConcat(a[1..], b);
      assert (a + b)[1..] == a[1..] + b;
    }
  }

  /** The summary is the most numerous executables, those of one count by name; whatever is
      not shown is at most as numerous as everything that is. */
  lemma MostNumerousFirst(rows: seq<Row>, ms: seq<Member>, p: Row)
    requires MembersOf(ms, rows) && p in rows
    ensures forall i, j :: 0 <= i < j < |ms| ==>
              ms[i].count >= ms[j].count && (ms[i].count == ms[j].count ==> !Less(ms[j].name, ms[i].name))
    ensures var m := MemberOf(rows, AppKey(p.name));
      m in ms || (|ms| == MAX_MEMBERS && forall i :: 0 <= i < |ms| ==> m.count <= ms[i].count)
  {
    hide Count, FirstName, AppKey, Sorted, Less;
    var key := AppKey(p.name);
    var keys :| Covers(rows, keys) && ms == Cut(Sorted(ListOf(rows, keys)));
    var (list, all) := (ListOf(rows, keys), Sorted(ListOf(rows, keys)));
    SortedIsInOrder(list);
    CountedIffPresent(rows, key);
    var r :| 0 <= r < |rows| && rows[r] == p;
    Listed(rows, r);
    var i :| 0 <= i < |keys| && keys[i] == key;
    assert list[i] in multiset(all);
    var j :| 0 <= j < |all| && all[j] == MemberOf(rows, key);
    assert j < |ms| ==> ms[j] == all[j];
  }

  /** An executable is shown under the name its first row has. */
  lemma {:induction false} FirstNameMeans(rows: seq<Row>, key: string, i: nat)
    requires i < |rows| && AppKey(rows[i].name) == key && forall j :: 0 <= j < i ==> AppKey(rows[j].name) != key
    ensures FirstName(rows, key) == StripExe(TrimSpace(rows[i].name))
  {
    hide AppKey, StripExe, TrimSpace;
    var front := rows[..|rows| - 1];
    CountedIffPresent(front, key);
    if i < |front| {
      assert front[i] == rows[i];
      FirstNameMeans(front, key, i);
    }
  }

  /** The counts shown add up to the rows exactly if there are at most six executables. */
  lemma SummaryAddsUpIff(rows: seq<Row>, ms: seq<Member>)
    requires MembersOf(ms, rows)
    ensures Sum(ms) <= |rows| && (Sum(ms) == |rows| <==> |Executables(rows)| <= MAX_MEMBERS)
    ensures |ms| == if |Executables(rows)| <= MAX_MEMBERS then |Executables(rows)| else MAX_MEMBERS
    ensures InOrder(ms)
  {
    hide Count, ListOf, Sorted, Executables, AppKey, Above;
    var keys :| Covers(rows, keys) && ms == Cut(Sorted(ListOf(rows, keys)));
    var all := Sorted(ListOf(rows, keys));
    SortedIsInOrder(ListOf(rows, keys));
    forall key ensures key in keys <==> key in Executables(rows) { CountedIffPresent(rows, key); }
    DistinctSize(keys, Executables(rows));
    forall i | 0 <= i < |rows| ensures AppKey(rows[i].name) in keys { Listed(rows, i); }
    CountsAddUp(rows, keys);
    SumOfSorted(ListOf(rows, keys));
    assert |all| == |multiset(all)| == |keys|;
    if |all| > MAX_MEMBERS {
      assert all == ms + all[MAX_MEMBERS..];
      SumConcat(ms, all[MAX_MEMBERS..]);
      SortedCountsRows(rows, keys, MAX_MEMBERS);
      assert all[MAX_MEMBERS..][0] == all[MAX_MEMBERS];
    }
  }

  lemma Listed(rows: seq<Row>, i: nat)
    requires i < |rows|
    ensures AppKey(rows[i].name) in Executables(rows)
  {
  }

  lemma SortedCountsRows(rows: seq<Row>, keys: seq<string>, k: nat)
    requires Covers(rows, keys) && k < |Sorted(ListOf(rows, keys))|
    ensures Sorted(ListOf(rows, keys))[k].count > 0
  {
    hide Count, Sorted, InOrder;
    var (list, all) := (ListOf(rows, keys), Sorted(ListOf(rows, keys)));
    SortedIsInOrder(list);
    assert all[k] in multiset(list);
    var i :| 0 <= i < |list| && list[i] == all[k];
    assert keys[i] in keys;
  }

  /** What the counting loop knows of the rows seen so far. */
  ghost predicate Counted(rows: seq<Row>, counts: map<string, nat>, names: map<string, string>) {
    && counts.Keys == names.Keys
    && forall key :: (if key in counts then counts[key] else 0) == Count(rows, key)
                     && (key in counts <==> Count(rows, key) > 0) && (key in names ==> names[key] == FirstName(rows, key))
  }

  lemma NothingYet()
    ensures Counted([], map[], map[])
  {
  }

  lemma CountedNext(rows: seq<Row>, p: Row, counts: map<string, nat>, names: map<string, string>,
                    counts': map<string, nat>, names': map<string, string>)
    requires Counted(rows, counts, names)
    requires var key := AppKey(p.name);
      && counts' == counts[key := (if key in counts then counts[key] else 0) + 1]
      && names' == if key in names then names else names[key := StripExe(TrimSpace(p.name))]
    ensures Counted(rows + [p], counts', names')
  {
    hide AppKey, StripExe, TrimSpace, Count, FirstName;
    forall key
      ensures (if key in counts' then counts'[key] else 0) == Count(rows + [p], key)
      ensures key in counts' <==> Count(rows + [p], key) > 0
      ensures key in names' ==> names'[key] == FirstName(rows + [p], key)
    {
      CountNext(rows, p, key);
    }
  }

  /** appMembers. */
  method AppMembers(procs: seq<Row>) returns (members: seq<Member>)
    ensures MembersOf(members, procs)
  {
    hide AppKey, StripExe, TrimSpace, Sorted, Count, FirstName;
    var counts: map<string, nat>, names: map<string, string> := map[], map[];
    var k := 0;
    assert Counted(procs[..0], counts, names) by { NothingYet(); }
    while k < |procs|
      invariant k <= |procs| && Counted(procs[..k], counts, names)
    {
      var key := AppKey(procs[k].name);
      ghost var (counts0, names0) := (counts, names);
      if key !in names { names := names[key := StripExe(TrimSpace(procs[k].name))]; }
      counts := counts[key := (if key in counts then counts[key] else 0) + 1];
      CountedNext(procs[..k], procs[k], counts0, names0, counts, names);
      assert procs[..k + 1] == procs[..k] + [procs[k]];
      k := k + 1;
    }
    assert procs[..k] == procs;
    members := [];
    ghost var keys: seq<string> := [];
    var todo := counts.Keys;
    while todo != {}
      invariant todo <= counts.Keys && Distinct(keys) && members == ListOf(procs, keys)
      invariant forall key :: key in keys <==> key in counts.Keys - todo
    {
      var key :| key in todo;   // a map is ranged over in any order
      assert key !in keys;
      ghost var was := members;
      members := members + [Member(if names[key] == "" then key else names[key], counts[key])];
      assert members == was + [MemberOf(procs, key)];
      keys, todo := keys + [key], todo - {key};
    }
    members := Cut(Sorted(members));
  }
}

/**
  Which rows the dashboard gets (processes.go): the union of the leaders of every column,
  cut to a fixed size by CPU.  Processes are told apart by PID, apps by name.
*/
module TopN {
  import opened Rows
  import opened Apps

  const HARD_CAP := 30

  ghost predicate UniqueIds<T, K>(rows: seq<T>, id: T -> K) {
    forall i, j :: 0 <= i < j < |rows| ==> id(rows[i]) != id(rows[j])
  }

  ghost predicate Descending<T>(rows: seq<T>, key: T -> real) {
    forall i, j :: 0 <= i < j < |rows| ==> key(rows[i]) >= key(rows[j])
  }

  // -------------------------------------------------------------------- sorting

  /** sort.SliceStable, largest key first. */
  method SortBy<T>(rows: seq<T>, key: T -> real) returns (out: seq<T>)
    ensures multiset(out) == multiset(rows) && Descending(out, key)
  {
    out := [];
    var k := 0;
    while k < |rows|
      invariant k <= |rows| && multiset(out) == multiset(rows[..k]) && Descending(out, key)
    {
      assert rows[..k + 1] == rows[..k] + [rows[k]];
      out := Insert(out, rows[k], key);
      k := k + 1;
    }
    assert rows[..k] == rows;
  }

  method Insert<T>(rows: seq<T>, x: T, key: T -> real) returns (out: seq<T>)
    requires Descending(rows, key)
    ensures multiset(out) == multiset(rows + [x]) && Descending(out, key)
  {
    hide Descending;
    var p := |rows|;
    while p > 0 && key(x) > key(rows[p - 1])
      invariant 0 <= p <= |rows| && forall i :: p <= i < |rows| ==> key(x) > key(rows[i])
    {
      p := p - 1;
    }
    var (front, back) := (rows[..p], rows[p..]);
    assert rows == front + back;
    Spliced(front, x, back, key);
    Moved(front, x, back);
    out := front + ([x] + back);
  }

  lemma Moved<T>(a: seq<T>, x: T, b: seq<T>)
    ensures multiset(a + ([x] + b)) == multiset(a + b + [x])
  {
  }

  lemma Spliced<T>(a: seq<T>, x: T, b: seq<T>, key: T -> real)
    requires Descending(a + b, key)
    requires (a != [] ==> key(a[|a| - 1]) >= key(x)) && (b != [] ==> key(x) >= key(b[0]))
    ensures Descending(a + ([x] + b), key)
  {
    assert (a + b)[..|a|] == a && (a + b)[|a|..] == b;
    Appended([x], b, key);
    Appended(a, [x] + b, key);
  }

  lemma Appended<T>(a: seq<T>, b: seq<T>, key: T -> real)
    requires Descending(a, key) && Descending(b, key)
    requires a != [] && b != [] ==> key(a[|a| - 1]) >= key(b[0])
    ensures Descending(a + b, key)
  {
    forall i, j | 0 <= i < |a| && 0 <= j < |b| ensures key(a[i]) >= key(b[j]) {
      assert key(a[i]) >= key(a[|a| - 1]) && key(b[0]) >= key(b[j]);
    }
  }

  lemma PermutationKeepsIds<T, K>(a: seq<T>, b: seq<T>, id: T -> K)
    requires multiset(a) == multiset(b) && UniqueIds(b, id)
    ensures UniqueIds(a, id) && |a| == |b| && forall x :: x in a <==> x in b
  {
    assert |multiset(a)| == |a| && |multiset(b)| == |b|;
    assert forall x :: x in a <==> x in multiset(a);
    assert forall x :: x in b <==> x in multiset(b);
    forall i, j | 0 <= i < j < |a| ensures id(a[i]) != id(a[j]) {
      if a[i] == a[j] {
        Twice(a, i, j);
        Once(b, a[i], id);
      } else {
        assert a[i] in b && a[j] in b;
      }
    }
  }

  lemma Twice<T>(a: seq<T>, i: nat, j: nat)
    requires i < j < |a| && a[i] == a[j]
    ensures multiset(a)[a[i]] >= 2
  {
    assert a == a[..j] + [a[j]] + a[j + 1..];
    assert a[..j][i] in multiset(a[..j]);
  }

  lemma {:induction false} Once<T, K>(b: seq<T>, x: T, id: T -> K)
    requires UniqueIds(b, id)
    ensures multiset(b)[x] <= 1
  {
    if b != [] {
      var front := b[..|b| - 1];
      assert b == front + [b[|b| - 1]];
      Once(front, x, id);
      if b[|b| - 1] == x { assert x !in front; }
    }
  }

  // -------------------------------------------------------------------- leaders

  /** Rows kept by id. */
  ghost predicate Picked<T, K>(rows: seq<T>, id: T -> K, picked: map<K, T>) {
    forall k :: k in picked ==> picked[k] in rows && id(picked[k]) == k
  }

  ghost function AtLeast<T, K>(picked: map<K, T>, key: T -> real, v: real): set<K> {
    set k | k in picked && key(picked[k]) >= v
  }

  /** The true top n by this column: every row has been picked, under its id, as a row at
      least as high, or n of the picked rows are at least as high. */
  ghost predicate HoldsLeaders<T, K>(rows: seq<T>, id: T -> K, key: T -> real, n: nat, picked: map<K, T>) {
    forall r :: r in rows ==>
      (id(r) in picked && key(picked[id(r)]) >= key(r)) || |AtLeast(picked, key, key(r))| >= n
  }

  /** Picking more rows loses no column's leaders. */
  lemma LeadersStay<T, K>(rows: seq<T>, id: T -> K, key: T -> real, n: nat, p: map<K, T>, q: map<K, T>)
    requires HoldsLeaders(rows, id, key, n, p) && forall k :: k in p ==> k in q && q[k] == p[k]
    ensures HoldsLeaders(rows, id, key, n, q)
  {
    forall r | r in rows && !(id(r) in q && key(q[id(r)]) >= key(r)) ensures |AtLeast(q, key, key(r))| >= n {
      SubsetSize(AtLeast(p, key, key(r)), AtLeast(q, key, key(r)));
    }
  }

  ghost function Ids<T, K>(rows: seq<T>, id: T -> K): set<K> { set r | r in rows :: id(r) }

  lemma {:induction false} IdsCount<T, K>(rows: seq<T>, id: T -> K)
    ensures |Ids(rows, id)| <= |rows|
    ensures UniqueIds(rows, id) ==> |Ids(rows, id)| == |rows|
  {
    if rows != [] {
      var (front, last) := (rows[..|rows| - 1], rows[|rows| - 1]);
      IdsCount(front, id);
      assert rows == front + [last];
      assert Ids(rows, id) == Ids(front, id) + {id(last)};
    }
  }

  /** What the walk down a column's order knows before its k-th row: which rows it added
      itself, and that they are at least as high as all that is still to come. */
  ghost predicate Walked<T, K>(ordered: seq<T>, id: T -> K, key: T -> real, k: nat, before: map<K, T>,
                               picked: map<K, T>, mine: set<K>, sure: bool)
  {
    && k <= |ordered| && before.Keys !! mine && picked.Keys == before.Keys + mine
    && (forall m :: m in before ==> picked[m] == before[m])
    && (forall m, j :: m in mine && k <= j < |ordered| ==> key(picked[m]) >= key(ordered[j]))
    && (forall i :: 0 <= i < k ==> id(ordered[i]) in picked)
    && (sure ==> forall i :: 0 <= i < k ==> key(picked[id(ordered[i])]) >= key(ordered[i]))
  }

  lemma WalkStarts<T, K>(ordered: seq<T>, id: T -> K, key: T -> real, before: map<K, T>, sure: bool)
    ensures Walked(ordered, id, key, 0, before, before, {}, sure)
  {
  }

  lemma WalkAdds<T, K>(ordered: seq<T>, id: T -> K, key: T -> real, k: nat, before: map<K, T>,
                       picked: map<K, T>, mine: set<K>, sure: bool)
    requires Walked(ordered, id, key, k, before, picked, mine, sure) && k < |ordered| && Descending(ordered, key)
    requires id(ordered[k]) !in picked
    ensures Walked(ordered, id, key, k + 1, before, picked[id(ordered[k]) := ordered[k]], mine + {id(ordered[k])}, sure)
    ensures id(ordered[k]) !in mine
  {
  }

  lemma WalkKeeps<T, K>(ordered: seq<T>, id: T -> K, key: T -> real, k: nat, before: map<K, T>,
                        picked: map<K, T>, mine: set<K>, sure: bool)
    requires Walked(ordered, id, key, k, before, picked, mine, sure)
    ensures forall m :: m in before ==> m in picked && picked[m] == before[m]
    ensures |picked| == |before| + |mine| && forall i :: 0 <= i < k <= |ordered| ==> id(ordered[i]) in picked
  {
    assert |picked.Keys| == |before.Keys| + |mine|;
  }

  lemma WalkSkips<T, K>(rows: seq<T>, ordered: seq<T>, id: T -> K, key: T -> real, k: nat, before: map<K, T>,
                        picked: map<K, T>, mine: set<K>)
    requires k < |ordered| && id(ordered[k]) in picked && Picked(rows, id, picked) && ordered[k] in rows
    requires var sure := before == map[] || UniqueIds(rows, id); Walked(ordered, id, key, k, before, picked, mine, sure)
    ensures var sure := before == map[] || UniqueIds(rows, id); Walked(ordered, id, key, k + 1, before, picked, mine, sure)
  {
    hide UniqueIds;
    if UniqueIds(rows, id) { SameRow(rows, id, picked[id(ordered[k])], ordered[k]); }
  }

  /** One column's turn: walk down its order and add the next n rows whose id is not picked
      yet.  The first column to have its turn always gets its leaders; a later one does when
      ids tell rows apart. */
  method Consider<T, K(==)>(rows: seq<T>, id: T -> K, key: T -> real, n: nat, before: map<K, T>)
    returns (picked: map<K, T>)
    requires Picked(rows, id, before)
    ensures Picked(rows, id, picked) && forall k :: k in before ==> k in picked && picked[k] == before[k]
    ensures before == map[] || UniqueIds(rows, id) ==> HoldsLeaders(rows, id, key, n, picked)
    ensures |before| <= |picked| <= |before| + n
    ensures |picked| == |before| + n || forall r :: r in rows ==> id(r) in picked
  {
    hide UniqueIds, Walked, Descending, HoldsLeaders;
    var ordered := SortBy(rows, key);
    SameMembers(ordered, rows);
    picked := before;
    var added, k := 0, 0;
    ghost var mine, sure := {}, before == map[] || UniqueIds(rows, id);
    WalkStarts(ordered, id, key, before, sure);
    while k < |ordered| && added < n
      invariant k <= |ordered| && added <= n && |mine| == added && Picked(rows, id, picked)
      invariant Walked(ordered, id, key, k, before, picked, mine, sure)
    {
      var p := ordered[k];
      assert p in rows;
      if id(p) !in picked {
        WalkAdds(ordered, id, key, k, before, picked, mine, sure);
        picked := picked[id(p) := p];
        mine := mine + {id(p)};
        added := added + 1;
      } else {
        WalkSkips(rows, ordered, id, key, k, before, picked, mine);
      }
      k := k + 1;
    }
    WalkKeeps(ordered, id, key, k, before, picked, mine, sure);
    if sure { WalkHoldsLeaders(rows, id, key, n, before, picked, ordered, k, mine); }
  }

  lemma SameMembers<T>(a: seq<T>, b: seq<T>)
    requires multiset(a) == multiset(b)
    ensures forall x :: x in a <==> x in b
  {
    assert forall x :: x in a <==> x in multiset(a);
    assert forall x :: x in b <==> x in multiset(b);
  }

  lemma WalkHoldsLeaders<T, K>(rows: seq<T>, id: T -> K, key: T -> real, n: nat, before: map<K, T>, picked: map<K, T>,
                               ordered: seq<T>, k: nat, mine: set<K>)
    requires Walked(ordered, id, key, k, before, picked, mine, true) && (k < |ordered| ==> |mine| == n)
    requires forall r :: r in ordered <==> r in rows
    ensures HoldsLeaders(rows, id, key, n, picked)
  {
    forall r | r in rows && !(id(r) in picked && key(picked[id(r)]) >= key(r)) ensures |AtLeast(picked, key, key(r))| >= n {
      var i :| 0 <= i < |ordered| && ordered[i] == r;
      SubsetSize(mine, AtLeast(picked, key, key(r)));
    }
  }

  lemma SameRow<T, K>(rows: seq<T>, id: T -> K, a: T, b: T)
    requires UniqueIds(rows, id) && a in rows && b in rows && id(a) == id(b)
    ensures a == b
  {
    var i :| 0 <= i < |rows| && rows[i] == a;
    var j :| 0 <= j < |rows| && rows[j] == b;
  }

  // -------------------------------------------------------------------- the cut

  /** The rows of a map, in some order. */
  method Values<T, K(==)>(picked: map<K, T>, id: T -> K) returns (out: seq<T>)
    requires forall k :: k in picked ==> id(picked[k]) == k
    ensures UniqueIds(out, id) && (forall r :: r in out <==> id(r) in picked && picked[id(r)] == r) && |out| == |picked|
  {
    out := [];
    var todo := picked.Keys;
    while todo != {}
      invariant todo <= picked.Keys && UniqueIds(out, id) && |out| == |picked.Keys - todo|
      invariant forall r :: r in out <==> id(r) in picked && picked[id(r)] == r && id(r) !in todo
      decreases todo
    {
      var k :| k in todo;
      assert picked.Keys - (todo - {k}) == (picked.Keys - todo) + {k};
      assert forall i :: 0 <= i < |out| ==> out[i] in out;
      todo, out := todo - {k}, out + [picked[k]];
    }
  }

  /** Cut to the highest `cap` of the picked rows. */
  ghost predicate Cut<T(!new), K>(result: seq<T>, picked: map<K, T>, id: T -> K, key: T -> real, cap: nat) {
    && UniqueIds(result, id) && Descending(result, key) && (forall k :: k in picked ==> id(picked[k]) == k)
    && |result| == (if |picked| <= cap then |picked| else cap)
    && (forall r :: r in result ==> id(r) in picked && picked[id(r)] == r)
    && (forall k, r :: k in picked && picked[k] !in result && r in result ==> key(picked[k]) <= key(r))
  }

  method TrimAndSort<T(==, !new), K(==)>(picked: map<K, T>, id: T -> K, key: T -> real, cap: nat) returns (out: seq<T>)
    requires forall k :: k in picked ==> id(picked[k]) == k
    ensures Cut(out, picked, id, key, cap)
  {
    var rows := Values(picked, id);
    var kept := Trim(rows, id, key, cap);
    out := SortBy(kept, key);
    PermutationKeepsIds(out, kept, id);
    forall k, r | k in picked && picked[k] !in out && r in out ensures key(picked[k]) <= key(r) {
      assert picked[k] in rows && picked[k] !in kept;
    }
  }

  /** trimProcessesByCPU. */
  method Trim<T, K>(rows: seq<T>, ghost id: T -> K, key: T -> real, cap: nat) returns (out: seq<T>)
    requires UniqueIds(rows, id)
    ensures UniqueIds(out, id) && |out| == (if |rows| <= cap then |rows| else cap) && forall r :: r in out ==> r in rows
    ensures forall x, y :: x in rows && x !in out && y in out ==> key(x) <= key(y)
  {
    if |rows| <= cap { return rows; }
    var ordered := SortBy(rows, key);
    PermutationKeepsIds(ordered, rows, id);
    out := ordered[..cap];
    forall x, y | x in rows && x !in out && y in out ensures key(x) <= key(y) {
      var i :| 0 <= i < |ordered| && ordered[i] == x;
      var j :| 0 <= j < cap && out[j] == y;
      assert i >= cap;
    }
  }

  // ------------------------------------------------------------------ the selection

  /** No row left out is above the n-th of the result. */
  ghost predicate TopHeld<T, K>(rows: seq<T>, id: T -> K, key: T -> real, n: nat, result: seq<T>) {
    forall r :: r in rows && id(r) !in Ids(result, id) ==> |result| >= n && (n > 0 ==> key(result[n - 1]) >= key(r))
  }

  /** The cut keeps the leaders of the column it cuts by. */
  lemma CutKeepsLeaders<T(!new), K>(rows: seq<T>, id: T -> K, key: T -> real, n: nat, picked: map<K, T>, result: seq<T>, cap: nat)
    requires HoldsLeaders(rows, id, key, n, picked) && Cut(result, picked, id, key, cap) && n <= cap
    ensures TopHeld(rows, id, key, n, result)
  {
    forall r | r in rows && id(r) !in Ids(result, id) ensures |result| >= n && (n > 0 ==> key(result[n - 1]) >= key(r)) {
      if id(r) in picked && key(picked[id(r)]) >= key(r) {
        AllKeptIfFew(picked, id, key, cap, result);
        assert picked[id(r)] !in result;
      } else {
        BeatenByLeaders(picked, id, key, n, key(r), result, cap);
      }
    }
  }

  lemma AllKeptIfFew<T(!new), K>(picked: map<K, T>, id: T -> K, key: T -> real, cap: nat, result: seq<T>)
    requires Cut(result, picked, id, key, cap)
    ensures |picked| <= cap <==> forall k :: k in picked ==> picked[k] in result
    ensures |picked| <= cap ==> Ids(result, id) == picked.Keys
  {
    IdsCount(result, id);
    assert Ids(result, id) <= picked.Keys;
    if |picked| <= cap {
      SubsetFull(Ids(result, id), picked.Keys);
    } else if forall k :: k in picked ==> picked[k] in result {
      forall k | k in picked ensures k in Ids(result, id) { assert picked[k] in result; }
      SubsetSize(picked.Keys, Ids(result, id));
    }
  }

  lemma SubsetFull<K>(a: set<K>, b: set<K>)
    requires a <= b && |a| >= |b|
    ensures a == b
  {
    assert b == a + (b - a) && a * (b - a) == {};
  }

  lemma BeatenByLeaders<T(!new), K>(picked: map<K, T>, id: T -> K, key: T -> real, n: nat, v: real, result: seq<T>, cap: nat)
    requires Cut(result, picked, id, key, cap) && n <= cap && |AtLeast(picked, key, v)| >= n
    ensures |result| >= n && (n > 0 ==> key(result[n - 1]) >= v)
  {
    SubsetSize(AtLeast(picked, key, v), picked.Keys);
    if n > 0 && key(result[n - 1]) < v {
      var above := result[..n - 1];
      forall k | k in AtLeast(picked, key, v) ensures k in Ids(above, id) {
        var row := picked[k];
        assert row in result;
        var i :| 0 <= i < |result| && result[i] == row;
        assert i < n - 1 && above[i] == row;
      }
      SubsetSize(AtLeast(picked, key, v), Ids(above, id));
      IdsCount(above, id);
    }
  }

  function Min(a: int, b: int): int { if a <= b then a else b }

  /** With distinct ids, as many rows are picked as there are, up to n for each column. */
  lemma PickedCount<T, K>(rows: seq<T>, id: T -> K, picked: map<K, T>, most: nat)
    requires UniqueIds(rows, id) && Picked(rows, id, picked)
    requires |picked| <= most && (|picked| == most || forall r :: r in rows ==> id(r) in picked)
    ensures |picked| == Min(|rows|, most)
    ensures |rows| <= most ==> forall r :: r in rows ==> id(r) in picked && picked[id(r)] == r
  {
    IdsCount(rows, id);
    assert picked.Keys <= Ids(rows, id);
    SubsetSize(picked.Keys, Ids(rows, id));
    if |rows| <= most {
      if |picked| == most { SubsetFull(picked.Keys, Ids(rows, id)); }
      forall r | r in rows ensures id(r) in picked && picked[id(r)] == r {
        assert id(r) in Ids(rows, id);
        SameRow(rows, id, picked[id(r)], r);
      }
    }
    if forall r :: r in rows ==> id(r) in picked {
      assert Ids(rows, id) <= picked.Keys;
      SubsetSize(Ids(rows, id), picked.Keys);
    }
  }

  /** Once more rows are picked than fit, the row that leads another column is lost if it
      has the lowest CPU. */
  lemma LeaderIsLost<T(!new), K>(rows: seq<T>, id: T -> K, cpu: T -> real, other: T -> real, n: nat, picked: map<K, T>,
                                 result: seq<T>, cap: nat, leader: T)
    requires UniqueIds(rows, id) && Picked(rows, id, picked) && HoldsLeaders(rows, id, other, n, picked) && n > 0
    requires Cut(result, picked, id, cpu, cap) && |picked| > cap && leader in rows
    requires forall r :: r in rows && r != leader ==> other(r) < other(leader) && cpu(leader) < cpu(r)
    ensures leader !in result
  {
    var k := id(leader);
    if |AtLeast(picked, other, other(leader))| >= n {
      var l :| l in AtLeast(picked, other, other(leader));
      assert picked[l] in rows;
    }
    SameRow(rows, id, picked[k], leader);
    AllKeptIfFew(picked, id, cpu, cap, result);
    var l :| l in picked && picked[l] !in result;
    assert picked[l] in rows;
  }

  /** Every column has its turn. */
  method PickAll<T(==, !new), K(==)>(rows: seq<T>, id: T -> K, columns: seq<T -> real>, n: nat) returns (chosen: map<K, T>)
    ensures Picked(rows, id, chosen)
    ensures forall c :: 0 <= c < |columns| && (c == 0 || UniqueIds(rows, id)) ==> HoldsLeaders(rows, id, columns[c], n, chosen)
    ensures |chosen| <= |columns| * n && (|chosen| == |columns| * n || forall r :: r in rows ==> id(r) in chosen)
  {
    hide HoldsLeaders, UniqueIds;
    chosen := map[];
    var c := 0;
    while c < |columns|
      invariant c <= |columns| && Picked(rows, id, chosen) && (c == 0 ==> chosen == map[])
      invariant forall d :: 0 <= d < c && (d == 0 || UniqueIds(rows, id)) ==> HoldsLeaders(rows, id, columns[d], n, chosen)
      invariant |chosen| <= c * n && (|chosen| == c * n || forall r :: r in rows ==> id(r) in chosen)
    {
      ghost var before := chosen;
      chosen := Consider(rows, id, columns[c], n, chosen);
      forall d | 0 <= d < c && (d == 0 || UniqueIds(rows, id)) ensures HoldsLeaders(rows, id, columns[d], n, chosen) {
        LeadersStay(rows, id, columns[d], n, before, chosen);
      }
      assert (c + 1) * n == c * n + n;
      c := c + 1;
    }
  }

  /** selectTopProcesses and selectTopApps; the first column is CPU. */
  method SelectTop<T(==, !new), K(==)>(rows: seq<T>, id: T -> K, columns: seq<T -> real>, n: nat)
    returns (result: seq<T>, ghost picked: map<K, T>)
    requires columns != []
    ensures Descending(result, columns[0]) && forall r :: r in result ==> r in rows
    ensures |rows| <= n ==> multiset(result) == multiset(rows) && picked == map[]
    ensures |rows| > n ==> Picked(rows, id, picked) && Cut(result, picked, id, columns[0], HARD_CAP)
    ensures |rows| > n ==> forall c :: 0 <= c < |columns| && (c == 0 || UniqueIds(rows, id)) ==>
                             HoldsLeaders(rows, id, columns[c], n, picked)
    ensures |rows| > n && UniqueIds(rows, id) ==> |picked| == Min(|rows|, |columns| * n)
    ensures |rows| > n ==> ((forall k :: k in picked ==> picked[k] in result) <==> |picked| <= HARD_CAP)
    ensures UniqueIds(rows, id) && |rows| <= HARD_CAP && |rows| <= |columns| * n ==> forall r :: r in rows ==> r in result
    ensures n <= HARD_CAP ==> TopHeld(rows, id, columns[0], n, result)
  {
    hide UniqueIds, HoldsLeaders, Descending;
    picked := map[];
    if |rows| <= n {
      result := SortBy(rows, columns[0]);
      SameMembers(result, rows);
      return;
    }
    var chosen := PickAll(rows, id, columns, n);
    picked := chosen;
    result := TrimAndSort(chosen, id, columns[0], HARD_CAP);
    if n <= HARD_CAP { CutKeepsLeaders(rows, id, columns[0], n, chosen, result, HARD_CAP); }
    AllKeptIfFew(chosen, id, columns[0], HARD_CAP, result);
    if UniqueIds(rows, id) { PickedCount(rows, id, chosen, |columns| * n); }
  }

  function DiskTotal(p: Row): real { p.diskRead.OrZero() + p.diskWrite.OrZero() }

  function AppDiskTotal(a: App): real { a.diskRead.OrZero() + a.diskWrite.OrZero() }

  /** The columns of the Processes view. */
  function ProcessColumns(): seq<Row -> real> {
    [(p: Row) => p.cpu.OrZero(), (p: Row) => p.memory.OrZero(), (p: Row) => p.gpuMemory.OrZero(),
     (p: Row) => p.gpu.OrZero(), DiskTotal]
  }

  /** CPU, memory, GPU memory, GPU, and both disk rates together; unknown counts as zero. */
  lemma ColumnsAre(p: Row, a: App)
    ensures |ProcessColumns()| == |AppColumns()| == 5
    ensures ProcessColumns()[0](p) == p.cpu.OrZero() && AppColumns()[0](a) == a.cpu.OrZero()
    ensures ProcessColumns()[1](p) == p.memory.OrZero() && AppColumns()[1](a) == a.memory.OrZero()
    ensures ProcessColumns()[2](p) == p.gpuMemory.OrZero() && AppColumns()[2](a) == a.gpuMemory.OrZero()
    ensures ProcessColumns()[3](p) == p.gpu.OrZero() && AppColumns()[3](a) == a.gpu.OrZero()
    ensures ProcessColumns()[4](p) == p.diskRead.OrZero() + p.diskWrite.OrZero()
    ensures AppColumns()[4](a) == a.diskRead.OrZero() + a.diskWrite.OrZero()
  {
  }

  function Pid(p: Row): int { p.pid }

  /** The Processes view, with distinct PIDs: the picked rows are min(|raw|, 5n), and every
      row of a pass that fits the cap is shown, so that each column has its leaders. */
  method SelectTopProcesses(raw: seq<Row>, n: nat) returns (result: seq<Row>, ghost picked: map<int, Row>)
    requires n <= HARD_CAP
    ensures |result| <= HARD_CAP && (forall r :: r in result ==> r in raw) && (UniquePids(raw) ==> UniquePids(result))
    ensures Descending(result, ProcessColumns()[0]) && TopHeld(raw, Pid, ProcessColumns()[0], n, result)
    ensures |raw| > n ==> Picked(raw, Pid, picked) && Cut(result, picked, Pid, ProcessColumns()[0], HARD_CAP)
    ensures |raw| > n ==> forall c :: 0 <= c < 5 && (c == 0 || UniquePids(raw)) ==>
                            HoldsLeaders(raw, Pid, ProcessColumns()[c], n, picked)
    ensures |raw| > n && UniquePids(raw) ==> |picked| == Min(|raw|, 5 * n)
    ensures |raw| > n && UniquePids(raw) && 5 * n > HARD_CAP ==>
              ((forall k :: k in picked ==> picked[k] in result) <==> |raw| <= HARD_CAP)
    ensures UniquePids(raw) && |raw| <= HARD_CAP && |raw| <= 5 * n ==> forall r :: r in raw ==> r in result
  {
    hide UniqueIds, UniquePids, HoldsLeaders, TopHeld, Descending;
    SamePids(raw);
    assert |ProcessColumns()| == 5;
    result, picked := SelectTop(raw, Pid, ProcessColumns(), n);
    SamePids(result);
    if |raw| <= n && UniquePids(raw) { PermutationKeepsIds(result, raw, Pid); }
    assert |multiset(result)| == |result| && |multiset(raw)| == |raw|;
  }

  lemma SamePids(rows: seq<Row>)
    ensures UniquePids(rows) <==> UniqueIds(rows, Pid)
  {
  }

  /** m rows whose CPU falls as their memory rises. */
  function Opposed(m: nat): (rows: seq<Row>)
    ensures |rows| == m && UniquePids(rows)
    ensures forall i :: 0 <= i < m ==> rows[i].cpu == Known((m - i) as real) && rows[i].memory == Known(i as real)
  {
    seq(m, i requires 0 <= i < m =>
      Row(i + 1, 0, "", "", 0, "", 0, Known((m - i) as real), Known(i as real), Unknown, Unknown, Unknown, Unknown))
  }

  /** For every size of pass at which more rows are picked than fit there is one whose leader
      by memory is not shown; at n = 15 that is every pass of more than 30 processes. */
  method MemoryLeaderIsLost(m: nat, n: nat) returns (raw: seq<Row>, result: seq<Row>)
    requires 0 < n <= HARD_CAP && m > HARD_CAP && 5 * n > HARD_CAP
    ensures |raw| == m && UniquePids(raw)
    ensures exists leader :: leader in raw && leader !in result
              && forall r :: r in raw && r != leader ==> r.memory.OrZero() < leader.memory.OrZero()
  {
    hide HoldsLeaders, TopHeld, Descending, Cut, Picked, UniqueIds, UniquePids;
    raw := Opposed(m);
    ghost var picked;
    result, picked := SelectTopProcesses(raw, n);
    SamePids(raw);
    var leader := raw[m - 1];
    assert ProcessColumns()[1](leader) == leader.memory.OrZero() && HoldsLeaders(raw, Pid, ProcessColumns()[1], n, picked);
    forall r | r in raw && r != leader
      ensures ProcessColumns()[1](r) < ProcessColumns()[1](leader) && ProcessColumns()[0](leader) < ProcessColumns()[0](r)
    {
      var i :| 0 <= i < m && raw[i] == r;
    }
    LeaderIsLost(raw, Pid, ProcessColumns()[0], ProcessColumns()[1], n, picked, result, HARD_CAP, leader);
  }

  function AppColumns(): seq<App -> real> {
    [(a: App) => a.cpu.OrZero(), (a: App) => a.memory.OrZero(), (a: App) => a.gpuMemory.OrZero(),
     (a: App) => a.gpu.OrZero(), AppDiskTotal]
  }

  function AppName(a: App): string { a.name }

  method SelectTopApps(apps: seq<App>, n: nat) returns (result: seq<App>, ghost picked: map<string, App>)
    requires n <= HARD_CAP
    ensures |result| <= HARD_CAP && forall r :: r in result ==> r in apps
    ensures Descending(result, AppColumns()[0]) && TopHeld(apps, AppName, AppColumns()[0], n, result)
    ensures |apps| > n ==> Picked(apps, AppName, picked) && Cut(result, picked, AppName, AppColumns()[0], HARD_CAP)
    ensures |apps| > n ==> forall c :: 0 <= c < 5 && (c == 0 || UniqueIds(apps, AppName)) ==>
                             HoldsLeaders(apps, AppName, AppColumns()[c], n, picked)
    ensures |apps| > n && UniqueIds(apps, AppName) ==> |picked| == Min(|apps|, 5 * n)
    ensures UniqueIds(apps, AppName) && |apps| <= HARD_CAP && |apps| <= 5 * n ==> forall r :: r in apps ==> r in result
  {
    hide UniqueIds, HoldsLeaders, TopHeld, Descending;
    assert |AppColumns()| == 5;
    result, picked := SelectTop(apps, AppName, AppColumns(), n);
    assert |multiset(result)| == |result| && |multiset(apps)| == |apps|;
  }
}

/**
  Process rows (metrics.go, processes.go) and the sum of one of their fields.
*/
module Rows {
  /** A number a collector did or did not report; a reported NaN or infinity counts as not
      reported everywhere in these files. */
  datatype Metric = Known(value: real) | Unknown {
    function OrZero(): real { if Known? then value else 0.0 }
  }

  datatype Row = Row(
    pid: int, ppid: int, name: string,
    parentName: string, children: nat, launcher: string, launcherPid: int,
    cpu: Metric, memory: Metric, gpu: Metric, gpuMemory: Metric, diskRead: Metric, diskWrite: Metric)

  /** The PIDs of one enumeration are distinct. */
  predicate UniquePids(rows: seq<Row>) { forall i, j :: 0 <= i < j < |rows| ==> rows[i].pid != rows[j].pid }

  function Pids(rows: seq<Row>): (s: set<int>)
    ensures forall p :: p in s <==> exists i :: 0 <= i < |rows| && rows[i].pid == p
  {
    set i | 0 <= i < |rows| :: rows[i].pid
  }

  function Total(rows: seq<Row>, get: Row -> Metric): real {
    if rows == [] then 0.0 else Total(rows[..|rows| - 1], get) + get(rows[|rows| - 1]).OrZero()
  }

  /** The sum of what was reported: each row's value once. */
  lemma {:induction false} TotalAddsUp(a: seq<Row>, b: seq<Row>, p: Row, get: Row -> Metric)
    ensures Total(a + b, get) == Total(a, get) + Total(b, get)
    ensures Total([p], get) == if get(p).Known? then get(p).value else 0.0
  {
    assert [p][..0] == [];
    if b == [] {
      assert a + b == a;
    } else {
      TotalAddsUp(a, b[..|b| - 1], p, get);
      assert (a + b)[..|a + b| - 1] == a + b[..|b| - 1];
    }
  }

  ghost predicate Reported(rows: seq<Row>, get: Row -> Metric) { exists i :: 0 <= i < |rows| && get(rows[i]).Known? }

  ghost function SumOf(rows: seq<Row>, get: Row -> Metric): Metric {
    if Reported(rows, get) then Known(Total(rows, get)) else Unknown
  }

  /** sumProcessField: the total of what was reported, unknown if nothing was. */
  method SumProcessField(rows: seq<Row>, get: Row -> Metric) returns (m: Metric)
    ensures m == SumOf(rows, get)
  {
    var total, any := 0.0, false;
    var k := 0;
    while k < |rows|
      invariant k <= |rows| && total == Total(rows[..k], get)
      invariant any <==> exists i :: 0 <= i < k && get(rows[i]).Known?
    {
      assert rows[..k + 1][..k] == rows[..k];
      var m := get(rows[k]);
      if m.Known? { total, any := total + m.value, true; }
      k := k + 1;
    }
    assert rows[..|rows|] == rows;
    m := if any then Known(total) else Unknown;
  }

  lemma SubsetSize<K>(a: set<K>, b: set<K>)
    requires a <= b
    ensures |a| <= |b|
  {
    assert b == a + (b - a) && a * (b - a) == {};
  }
}

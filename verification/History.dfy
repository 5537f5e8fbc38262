/**
  The agent-side metrics history (history.go): one point per time bucket, each field the
  peak of the readings published in that bucket.  `MetricsHistory` keeps the readings in
  heap cells that `Observe` overwrites in place, as the source does; `Observed` is the
  same step on values, and `Replay` iterates it.  `HistoryIsAPeakFold` compares the
  result with a plain fold over every sample ever published.
*/
module History {
  import opened Options

  datatype Field = Cpu | Memory | Gpu | NetRx | NetTx | Disk

  /** A floating-point value that is an ordinary number, or an infinity or not-a-number. */
  datatype Reading = Finite(value: real) | NonFinite

  function Plus(a: Reading, b: Reading): Reading {
    if a.Finite? && b.Finite? then Finite(a.value + b.value) else NonFinite
  }

  /** The part of a published snapshot the history reads; None is an unavailable metric. */
  datatype Metrics = Metrics(
    timestamp: Option<int>, cpu: Option<Reading>, memory: Option<Reading>, gpu: Option<Reading>,
    network: Option<(Reading, Reading)>, storage: Option<(Reading, Reading)>)

  /** The reading `observe` uses for a field: slow-lane fields count only while fresh. */
  function ReadingOf(m: Metrics, slowFresh: bool, f: Field): Option<Reading> {
    match f
    case Cpu => m.cpu
    case Memory => m.memory
    case Gpu => if slowFresh then m.gpu else None
    case NetRx => if slowFresh && m.network.Some? then Some(m.network.value.0) else None
    case NetTx => if slowFresh && m.network.Some? then Some(m.network.value.1) else None
    case Disk => if slowFresh && m.storage.Some? then Some(Plus(m.storage.value.0, m.storage.value.1)) else None
  }

  /** Rounding to two places, halves away from zero. */
  function Round2(v: real): real {
    if v >= 0.0 then (v * 100.0 + 0.5).Floor as real / 100.0 else -((-v * 100.0 + 0.5).Floor as real / 100.0)
  }

  function Abs(v: real): real { if v < 0.0 then -v else v }

  predicate Hundredths(v: real) { (v * 100.0).Floor as real == v * 100.0 }

  /** The nearest whole number of hundredths; of two that are equally near, the one farther
      from zero. */
  predicate Nearest(v: real, r: real) {
    Hundredths(r) && Abs(r - v) <= 0.005 && (Abs(r - v) == 0.005 ==> Abs(r) > Abs(v))
  }

  lemma RoundsToNearest(v: real)
    ensures Nearest(v, Round2(v))
  {
    var n := (Abs(v) * 100.0 + 0.5).Floor;
    assert Round2(v) * 100.0 == if v >= 0.0 then n as real else (-n) as real;
  }

  lemma HundredthsApart(r: real, s: real)
    requires Hundredths(r) && Hundredths(s) && r < s
    ensures s - r >= 0.01
  {
    var n, m := (r * 100.0).Floor, (s * 100.0).Floor;
    assert n < m;
    assert (m - n) as real >= 1.0;
  }

  /** There is only one. */
  lemma NearestIsRound(v: real, r: real)
    requires Nearest(v, r)
    ensures r == Round2(v)
  {
    RoundsToNearest(v);
    if r < Round2(v) { HundredthsApart(r, Round2(v)); } else if r > Round2(v) { HundredthsApart(Round2(v), r); }
  }

  lemma RoundIsMonotone(v: real, w: real)
    requires v <= w
    ensures Round2(v) <= Round2(w)
  {
    hide Round2;
    RoundsToNearest(v);
    RoundsToNearest(w);
    if Round2(w) < Round2(v) { HundredthsApart(Round2(w), Round2(v)); }
  }

  predicate OnStep(t: int, step: int)
    requires step > 0
  {
    t % step == 0
  }

  /** ms - ms%step with a remainder that takes the sign of ms. */
  function BucketOf(ms: int, step: int): (b: int)
    requires step > 0
    ensures OnStep(b, step)
    ensures ms >= 0 ==> b <= ms < b + step
    ensures ms < 0 ==> b - step < ms <= b
  {
    var q := if ms >= 0 then ms / step else -(-ms / step);
    MultipleHasNoRemainder(q, step);
    q * step
  }

  lemma MultipleHasNoRemainder(q: int, s: int)
    requires s > 0
    ensures (q * s) % s == 0
  {
    var d, r := (q * s) / s, (q * s) % s;
    assert (q - d) * s == r;
    assert q - d >= 1 ==> (q - d) * s >= s;
    assert q - d <= -1 ==> (q - d) * s <= -s;
  }

  // ------------------------------------------------------------------- on values

  datatype Bucket = Bucket(t: int, peaks: map<Field, real>)

  function At(peaks: map<Field, real>, f: Field): Option<real> { if f in peaks then Some(peaks[f]) else None }

  function Raise(peaks: map<Field, real>, f: Field, r: Option<Reading>): map<Field, real> {
    if r.None? || r.value.NonFinite? then peaks
    else
      var v := Round2(r.value.value);
      if f in peaks && peaks[f] >= v then peaks else peaks[f := v]
  }

  function Trim(bs: seq<Bucket>, oldest: int): seq<Bucket> {
    if bs != [] && bs[0].t <= oldest then Trim(bs[1..], oldest) else bs
  }

  function Opened(bs: seq<Bucket>, b: int, keep: int): (c: seq<Bucket>)
    requires keep > 0
    ensures c != [] && c[|c| - 1].t == b
  {
    if bs == [] || bs[|bs| - 1].t < b then
      TrimKeepsLast(bs, Bucket(b, map[]), b - keep);
      Trim(bs + [Bucket(b, map[])], b - keep)
    else if bs[|bs| - 1].t > b then [Bucket(b, map[])]
    else bs
  }

  lemma TrimKeepsLast(bs: seq<Bucket>, last: Bucket, oldest: int)
    requires last.t > oldest
    ensures Trim(bs + [last], oldest) != [] && Trim(bs + [last], oldest)[|Trim(bs + [last], oldest)| - 1] == last
  {
    if bs != [] && bs[0].t <= oldest { assert (bs + [last])[1..] == bs[1..] + [last]; }
  }

  function RaiseFast(peaks: map<Field, real>, m: Metrics): map<Field, real> {
    Raise(Raise(peaks, Cpu, m.cpu), Memory, m.memory)
  }

  function RaiseSlow(peaks: map<Field, real>, m: Metrics): map<Field, real> {
    var p := Raise(peaks, Gpu, m.gpu);
    var p := Raise(p, NetRx, if m.network.Some? then Some(m.network.value.0) else None);
    var p := Raise(p, NetTx, if m.network.Some? then Some(m.network.value.1) else None);
    Raise(p, Disk, if m.storage.Some? then Some(Plus(m.storage.value.0, m.storage.value.1)) else None)
  }

  function RaiseAll(peaks: map<Field, real>, m: Metrics, slowFresh: bool): map<Field, real> {
    if slowFresh then RaiseSlow(RaiseFast(peaks, m), m) else RaiseFast(peaks, m)
  }

  function WithPeaks(bs: seq<Bucket>, peaks: map<Field, real>): seq<Bucket>
    requires bs != []
  {
    bs[..|bs| - 1] + [Bucket(bs[|bs| - 1].t, peaks)]
  }

  function Observed(bs: seq<Bucket>, step: int, keep: int, m: Metrics, slowFresh: bool): seq<Bucket>
    requires step > 0 && keep > 0
  {
    if m.timestamp.None? then bs
    else
      var open := Opened(bs, BucketOf(m.timestamp.value, step), keep);
      WithPeaks(open, RaiseAll(open[|open| - 1].peaks, m, slowFresh))
  }

  datatype Sample = Sample(metrics: Metrics, slowFresh: bool)

  function Replay(run: seq<Sample>, step: int, keep: int): seq<Bucket>
    requires step > 0 && keep > 0
  {
    if run == [] then []
    else
      var last := run[|run| - 1];
      Observed(Replay(run[..|run| - 1], step, keep), step, keep, last.metrics, last.slowFresh)
  }

  // ---------------------------------------------------------- the reference fold

  predicate In(s: Sample, step: int, b: int)
    requires step > 0
  {
    s.metrics.timestamp.Some? && BucketOf(s.metrics.timestamp.value, step) == b
  }

  /** The bucket of the newest sample that has a timestamp. */
  function Newest(run: seq<Sample>, step: int): Option<int>
    requires step > 0
  {
    if run == [] then None
    else if run[|run| - 1].metrics.timestamp.Some? then Some(BucketOf(run[|run| - 1].metrics.timestamp.value, step))
    else Newest(run[..|run| - 1], step)
  }

  /** Where the samples since the last backward bucket step begin. */
  function Epoch(run: seq<Sample>, step: int): (e: nat)
    requires step > 0
    ensures e <= |run|
  {
    if run == [] then 0
    else
      var before, now := Newest(run[..|run| - 1], step), Newest(run, step);
      if before.Some? && now.value < before.value then |run| - 1 else Epoch(run[..|run| - 1], step)
  }

  function Better(a: Option<real>, r: Option<Reading>): Option<real> {
    if r.None? || r.value.NonFinite? then a
    else if a.Some? && a.value >= Round2(r.value.value) then a
    else Some(Round2(r.value.value))
  }

  /** Peak of field f over the samples run[lo..hi] that fall in bucket b. */
  function PeakOf(run: seq<Sample>, lo: nat, hi: nat, step: int, b: int, f: Field): Option<real>
    requires step > 0 && lo <= hi <= |run|
  {
    if lo == hi then None
    else
      var before := PeakOf(run, lo, hi - 1, step, b, f);
      var s := run[hi - 1];
      if In(s, step, b) then Better(before, ReadingOf(s.metrics, s.slowFresh, f)) else before
  }

  /** The fold is the greatest rounded finite reading, and absent when there is none. */
  lemma {:induction false} PeakIsGreatest(run: seq<Sample>, lo: nat, hi: nat, step: int, b: int, f: Field, i: nat, v: real)
    requires step > 0 && lo <= i < hi <= |run|
    requires In(run[i], step, b) && ReadingOf(run[i].metrics, run[i].slowFresh, f) == Some(Finite(v))
    ensures PeakOf(run, lo, hi, step, b, f).Some? && PeakOf(run, lo, hi, step, b, f).value >= Round2(v)
  {
    if i < hi - 1 { PeakIsGreatest(run, lo, hi - 1, step, b, f, i, v); }
  }

  lemma {:induction false} PeakIsAttained(run: seq<Sample>, lo: nat, hi: nat, step: int, b: int, f: Field) returns (i: nat, v: real)
    requires step > 0 && lo <= hi <= |run| && PeakOf(run, lo, hi, step, b, f).Some?
    ensures lo <= i < hi && In(run[i], step, b)
    ensures ReadingOf(run[i].metrics, run[i].slowFresh, f) == Some(Finite(v))
    ensures PeakOf(run, lo, hi, step, b, f) == Some(Round2(v))
  {
    var s := run[hi - 1];
    if In(s, step, b) && PeakOf(run, lo, hi, step, b, f) != PeakOf(run, lo, hi - 1, step, b, f) {
      i, v := hi - 1, ReadingOf(s.metrics, s.slowFresh, f).value.value;
    } else {
      i, v := PeakIsAttained(run, lo, hi - 1, step, b, f);
    }
  }

  /** The reading of a field that counts in a bucket, if the i-th sample has one. */
  predicate Reads(run: seq<Sample>, i: nat, step: int, b: int, f: Field, v: real)
    requires step > 0 && i < |run|
  {
    In(run[i], step, b) && ReadingOf(run[i].metrics, run[i].slowFresh, f) == Some(Finite(v))
  }

  /** The peak is the greatest finite reading of its bucket, rounded, so at most half a
      hundredth from it. */
  lemma {:induction false} PeakIsNearGreatest(run: seq<Sample>, lo: nat, hi: nat, step: int, b: int, f: Field)
    returns (i: nat, v: real)
    requires step > 0 && lo <= hi <= |run| && PeakOf(run, lo, hi, step, b, f).Some?
    ensures lo <= i < hi && Reads(run, i, step, b, f, v)
    ensures forall j, w :: lo <= j < hi && Reads(run, j, step, b, f, w) ==> w <= v
    ensures PeakOf(run, lo, hi, step, b, f) == Some(Round2(v)) && Abs(PeakOf(run, lo, hi, step, b, f).value - v) <= 0.005
  {
    var s := run[hi - 1];
    var last := ReadingOf(s.metrics, s.slowFresh, f);
    if PeakOf(run, lo, hi - 1, step, b, f).Some? {
      i, v := PeakIsNearGreatest(run, lo, hi - 1, step, b, f);
      if In(s, step, b) && last.Some? && last.value.Finite? {
        if last.value.value > v {
          RoundIsMonotone(v, last.value.value);
          i, v := hi - 1, last.value.value;
        } else {
          RoundIsMonotone(last.value.value, v);
        }
      }
    } else {
      i, v := hi - 1, last.value.value;
      forall j, w | lo <= j < hi && Reads(run, j, step, b, f, w) ensures w <= v {
        if j < hi - 1 { PeakIsGreatest(run, lo, hi - 1, step, b, f, j, w); }
      }
    }
    RoundsToNearest(v);
  }

  /** Slow fields count only while fresh; the disk reading is both rates together. */
  lemma ReadingsAre(m: Metrics, rx: Reading, tx: Reading, read: real, write: real)
    requires m.network == Some((rx, tx)) && m.storage == Some((Finite(read), Finite(write)))
    ensures forall fresh_ :: ReadingOf(m, fresh_, Cpu) == m.cpu && ReadingOf(m, fresh_, Memory) == m.memory
    ensures ReadingOf(m, true, Gpu) == m.gpu && ReadingOf(m, true, NetRx) == Some(rx) && ReadingOf(m, true, NetTx) == Some(tx)
    ensures ReadingOf(m, true, Disk) == Some(Finite(read + write))
    ensures forall f :: f != Cpu && f != Memory ==> ReadingOf(m, false, f) == None
  {
  }

  ghost predicate Touched(run: seq<Sample>, lo: nat, hi: nat, step: int, b: int)
    requires step > 0 && lo <= hi <= |run|
  {
    exists i :: lo <= i < hi && In(run[i], step, b)
  }

  /** The points: ascending bucket times inside the retention window, ... */
  ghost predicate Orderly(bs: seq<Bucket>, step: int, keep: int)
    requires step > 0
  {
    && (forall i :: 0 <= i < |bs| ==> OnStep(bs[i].t, step) && bs[|bs| - 1].t - keep < bs[i].t)
    && (forall i, j :: 0 <= i < j < |bs| ==> bs[i].t < bs[j].t)
  }

  /** ... one for each bucket touched since the epoch and still retained, with its peaks. */
  ghost predicate Matches(run: seq<Sample>, bs: seq<Bucket>, step: int, keep: int)
    requires step > 0
  {
    var e := Epoch(run, step);
    && Newest(run, step) == (if bs == [] then None else Some(bs[|bs| - 1].t))
    && (forall b :: Touched(run, e, |run|, step, b) && bs != [] && bs[|bs| - 1].t - keep < b ==>
          exists k :: 0 <= k < |bs| && bs[k].t == b)
    && (forall b :: Touched(run, e, |run|, step, b) ==> bs != [] && b <= bs[|bs| - 1].t)
    && (forall k :: 0 <= k < |bs| ==> Touched(run, e, |run|, step, bs[k].t))
    && (forall k, f :: 0 <= k < |bs| ==>
          PeakOf(run, e, |run|, step, bs[k].t, f) == At(bs[k].peaks, f))
  }

  lemma {:induction false} PeakPrefix(run: seq<Sample>, more: seq<Sample>, lo: nat, hi: nat, step: int, b: int, f: Field)
    requires step > 0 && lo <= hi <= |run| && run <= more
    ensures PeakOf(more, lo, hi, step, b, f) == PeakOf(run, lo, hi, step, b, f)
  {
    if lo < hi { PeakPrefix(run, more, lo, hi - 1, step, b, f); }
  }

  lemma {:induction false} UntouchedHasNoPeak(run: seq<Sample>, lo: nat, hi: nat, step: int, b: int, f: Field)
    requires step > 0 && lo <= hi <= |run| && !Touched(run, lo, hi, step, b)
    ensures PeakOf(run, lo, hi, step, b, f) == None
  {
    if lo < hi { UntouchedHasNoPeak(run, lo, hi - 1, step, b, f); }
  }

  lemma {:induction false} TrimIsSuffix(bs: seq<Bucket>, oldest: int) returns (d: nat)
    ensures d <= |bs| && Trim(bs, oldest) == bs[d..]
    ensures forall i :: 0 <= i < d ==> bs[i].t <= oldest
    ensures d < |bs| ==> bs[d].t > oldest
  {
    if bs != [] && bs[0].t <= oldest {
      var n := TrimIsSuffix(bs[1..], oldest);
      d := n + 1;
      assert forall i :: 1 <= i < d ==> bs[i] == bs[1..][i - 1];
    } else {
      d := 0;
    }
  }

  lemma RaiseAt(peaks: map<Field, real>, g: Field, r: Option<Reading>, f: Field)
    ensures At(Raise(peaks, g, r), f) == if f == g then Better(At(peaks, f), r) else At(peaks, f)
  {
  }

  /** Each field is raised to its own reading and no other. */
  lemma RaiseAllAt(peaks: map<Field, real>, m: Metrics, slowFresh: bool, f: Field)
    ensures At(RaiseAll(peaks, m, slowFresh), f) == Better(At(peaks, f), ReadingOf(m, slowFresh, f))
  {
    hide Raise;
    RaiseAt(peaks, Cpu, m.cpu, f);
    RaiseAt(Raise(peaks, Cpu, m.cpu), Memory, m.memory, f);
    if slowFresh {
      var p0 := RaiseFast(peaks, m);
      var p1 := Raise(p0, Gpu, m.gpu);
      var rx := if m.network.Some? then Some(m.network.value.0) else None;
      var tx := if m.network.Some? then Some(m.network.value.1) else None;
      RaiseAt(p0, Gpu, m.gpu, f);
      RaiseAt(p1, NetRx, rx, f);
      RaiseAt(Raise(p1, NetRx, rx), NetTx, tx, f);
      RaiseAt(Raise(Raise(p1, NetRx, rx), NetTx, tx), Disk, ReadingOf(m, slowFresh, Disk), f);
    }
  }

  lemma SuffixIsOrderly(bs: seq<Bucket>, d: nat, b: int, step: int, keep: int)
    requires step > 0 && keep > 0 && Orderly(bs, step, keep) && OnStep(b, step)
    requires d <= |bs| && (bs == [] || bs[|bs| - 1].t < b) && forall i :: d <= i < |bs| ==> bs[i].t > b - keep
    ensures Orderly(bs[d..] + [Bucket(b, map[])], step, keep)
  {
    hide OnStep;
    var c := bs[d..] + [Bucket(b, map[])];
    assert forall i :: 0 <= i < |c| - 1 ==> c[i] == bs[d + i] && bs[d + i].t <= bs[|bs| - 1].t;
  }

  /** The three ways a sample finds its bucket: a later one opens after trimming, an
      earlier one starts over, the same one stays open. */
  lemma OpenedIs(bs: seq<Bucket>, b: int, step: int, keep: int) returns (d: nat)
    requires step > 0 && keep > 0 && Orderly(bs, step, keep) && OnStep(b, step)
    ensures Orderly(Opened(bs, b, keep), step, keep)
    ensures bs == [] || bs[|bs| - 1].t < b ==>
              && d <= |bs| && Opened(bs, b, keep) == bs[d..] + [Bucket(b, map[])]
              && (forall i :: 0 <= i < |bs| ==> (bs[i].t > b - keep <==> i >= d))
    ensures bs != [] && bs[|bs| - 1].t > b ==> Opened(bs, b, keep) == [Bucket(b, map[])]
    ensures bs != [] && bs[|bs| - 1].t == b ==> Opened(bs, b, keep) == bs
  {
    hide OnStep, Trim;
    d := 0;
    if bs == [] || bs[|bs| - 1].t < b {
      var all := bs + [Bucket(b, map[])];
      d := TrimIsSuffix(all, b - keep);
      assert d <= |bs| by { assert all[|bs|].t == b; }
      assert all[d..] == bs[d..] + [Bucket(b, map[])];
      forall i | 0 <= i < |bs| ensures bs[i].t > b - keep <==> i >= d {
        assert all[i] == bs[i] && all[d].t > b - keep;
        if i > d { assert bs[d].t < bs[i].t; }
      }
      SuffixIsOrderly(bs, d, b, step, keep);
    }
  }

  /** How the fold changes when one more sample arrives. */
  lemma OneMore(run: seq<Sample>, lo: nat, step: int, b: int)
    requires step > 0 && run != [] && lo < |run|
    ensures var before, s := run[..|run| - 1], run[|run| - 1];
      && (Touched(run, lo, |run|, step, b) <==> Touched(before, lo, |before|, step, b) || In(s, step, b))
      && forall f :: PeakOf(run, lo, |run|, step, b, f) ==
           if In(s, step, b) then Better(PeakOf(before, lo, |before|, step, b, f), ReadingOf(s.metrics, s.slowFresh, f))
           else PeakOf(before, lo, |before|, step, b, f)
  {
    var before := run[..|run| - 1];
    forall f ensures PeakOf(run, lo, |before|, step, b, f) == PeakOf(before, lo, |before|, step, b, f) {
      PeakPrefix(before, run, lo, |before|, step, b, f);
    }
    if Touched(run, lo, |run|, step, b) && !In(run[|run| - 1], step, b) {
      var i :| lo <= i < |run| && In(run[i], step, b);
      assert before[i] == run[i];
    }
    if Touched(before, lo, |before|, step, b) {
      var i :| lo <= i < |before| && In(before[i], step, b);
      assert run[i] == before[i];
    }
    if In(run[|run| - 1], step, b) { assert Touched(run, lo, |run|, step, b); }
  }

  lemma OneMoreEach(run: seq<Sample>, lo: nat, step: int)
    requires step > 0 && run != [] && lo < |run|
    ensures forall b :: Touched(run, lo, |run|, step, b) <==>
              Touched(run[..|run| - 1], lo, |run| - 1, step, b) || In(run[|run| - 1], step, b)
  {
    forall b
      ensures Touched(run, lo, |run|, step, b) <==>
                Touched(run[..|run| - 1], lo, |run| - 1, step, b) || In(run[|run| - 1], step, b)
    {
      OneMore(run, lo, step, b);
    }
  }

  ghost predicate Right(run: seq<Sample>, step: int, keep: int)
    requires step > 0 && keep > 0
  {
    Orderly(Replay(run, step, keep), step, keep) && Matches(run, Replay(run, step, keep), step, keep)
  }

  lemma OrderlyWithPeaks(bs: seq<Bucket>, peaks: map<Field, real>, step: int, keep: int)
    requires step > 0 && bs != [] && Orderly(bs, step, keep)
    ensures Orderly(WithPeaks(bs, peaks), step, keep)
  {
    hide OnStep;
  }

  lemma JustOne(run: seq<Sample>, lo: nat, step: int)
    requires step > 0 && lo + 1 == |run|
    ensures forall c :: Touched(run, lo, |run|, step, c) <==> In(run[lo], step, c)
    ensures forall c, f :: In(run[lo], step, c) ==>
              PeakOf(run, lo, |run|, step, c, f) == Better(None, ReadingOf(run[lo].metrics, run[lo].slowFresh, f))
  {
    hide BucketOf, ReadingOf, Better;
  }

  lemma StartsOver(run: seq<Sample>, step: int, keep: int)
    requires step > 0 && keep > 0 && run != [] && Right(run[..|run| - 1], step, keep)
    requires run[|run| - 1].metrics.timestamp.Some?
    requires var bs := Replay(run[..|run| - 1], step, keep);
             bs != [] && bs[|bs| - 1].t > BucketOf(run[|run| - 1].metrics.timestamp.value, step)
    ensures Right(run, step, keep)
  {
    hide OnStep, BucketOf, RaiseAll, ReadingOf, PeakOf, Touched, Better;
    var s := run[|run| - 1];
    var b := BucketOf(s.metrics.timestamp.value, step);
    var now := Replay(run, step, keep);
    assert now == [Bucket(b, RaiseAll(map[], s.metrics, s.slowFresh))];
    assert Epoch(run, step) == |run| - 1;
    JustOne(run, |run| - 1, step);
    forall f ensures PeakOf(run, |run| - 1, |run|, step, b, f) == At(now[0].peaks, f) {
      RaiseAllAt(map[], s.metrics, s.slowFresh, f);
    }
  }

  lemma NothingPublished(run: seq<Sample>, step: int, keep: int)
    requires step > 0 && keep > 0 && run != [] && Right(run[..|run| - 1], step, keep)
    requires run[|run| - 1].metrics.timestamp.None?
    ensures Right(run, step, keep)
  {
    hide PeakOf, Touched, OnStep, Better, ReadingOf;
    var bs, e := Replay(run[..|run| - 1], step, keep), Epoch(run[..|run| - 1], step);
    assert Epoch(run, step) == e && Newest(run, step) == Newest(run[..|run| - 1], step);
    OneMoreEach(run, e, step);
    forall k, f | 0 <= k < |bs| ensures PeakOf(run, e, |run|, step, bs[k].t, f) == At(bs[k].peaks, f) {
      OneMore(run, e, step, bs[k].t);
    }
  }

  /** A sample in the bucket that is open. */
  ghost predicate Same(run: seq<Sample>, step: int, keep: int)
    requires step > 0 && keep > 0
  {
    && run != [] && Right(run[..|run| - 1], step, keep) && run[|run| - 1].metrics.timestamp.Some?
    && var bs := Replay(run[..|run| - 1], step, keep);
    bs != [] && bs[|bs| - 1].t == BucketOf(run[|run| - 1].metrics.timestamp.value, step)
  }

  lemma StaysOpenPeak(run: seq<Sample>, step: int, keep: int, k: nat, f: Field)
    requires step > 0 && keep > 0 && Same(run, step, keep) && k < |Replay(run, step, keep)|
    ensures var bs, now, e := Replay(run[..|run| - 1], step, keep), Replay(run, step, keep), Epoch(run, step);
      && Epoch(run[..|run| - 1], step) == e && |now| == |bs| && now[k].t == bs[k].t
      && PeakOf(run, e, |run|, step, now[k].t, f) == At(now[k].peaks, f)
  {
    hide PeakOf, Touched, OnStep, BucketOf, RaiseAll, Better, ReadingOf;
    var s := run[|run| - 1];
    var bs, now, e := Replay(run[..|run| - 1], step, keep), Replay(run, step, keep), Epoch(run, step);
    assert now == WithPeaks(bs, RaiseAll(bs[|bs| - 1].peaks, s.metrics, s.slowFresh));
    OneMore(run, e, step, now[k].t);
    RaiseAllAt(bs[|bs| - 1].peaks, s.metrics, s.slowFresh, f);
    assert k < |bs| - 1 ==> now[k] == bs[k] && bs[k].t < bs[|bs| - 1].t;
  }

  lemma StaysOpen(run: seq<Sample>, step: int, keep: int)
    requires step > 0 && keep > 0 && Same(run, step, keep)
    ensures Right(run, step, keep)
  {
    hide PeakOf, Touched, OnStep, BucketOf, RaiseAll, Orderly;
    var before, s := run[..|run| - 1], run[|run| - 1];
    var bs, now, e := Replay(before, step, keep), Replay(run, step, keep), Epoch(before, step);
    OrderlyWithPeaks(bs, RaiseAll(bs[|bs| - 1].peaks, s.metrics, s.slowFresh), step, keep);
    OneMoreEach(run, e, step);
    assert forall k :: 0 <= k < |bs| ==> now[k].t == bs[k].t;
    forall k, f | 0 <= k < |now| ensures PeakOf(run, e, |run|, step, now[k].t, f) == At(now[k].peaks, f) {
      StaysOpenPeak(run, step, keep, k, f);
    }
  }

  /** A sample in a later bucket than any before it. */
  ghost predicate Later(run: seq<Sample>, step: int, keep: int)
    requires step > 0 && keep > 0
  {
    && run != [] && Right(run[..|run| - 1], step, keep) && run[|run| - 1].metrics.timestamp.Some?
    && var bs := Replay(run[..|run| - 1], step, keep);
    bs == [] || bs[|bs| - 1].t < BucketOf(run[|run| - 1].metrics.timestamp.value, step)
  }

  lemma OpensLaterShape(run: seq<Sample>, step: int, keep: int) returns (d: nat)
    requires step > 0 && keep > 0 && Later(run, step, keep)
    ensures var bs, now := Replay(run[..|run| - 1], step, keep), Replay(run, step, keep);
      var s := run[|run| - 1];
      var b := BucketOf(s.metrics.timestamp.value, step);
      && d <= |bs| && now == bs[d..] + [Bucket(b, RaiseAll(map[], s.metrics, s.slowFresh))]
      && (forall i :: 0 <= i < |bs| ==> (bs[i].t > b - keep <==> i >= d))
      && Orderly(now, step, keep) && Epoch(run, step) == Epoch(run[..|run| - 1], step)
  {
    hide PeakOf, Touched, OnStep, BucketOf, RaiseAll, Trim, Opened, Orderly;
    var bs, s := Replay(run[..|run| - 1], step, keep), run[|run| - 1];
    var b := BucketOf(s.metrics.timestamp.value, step);
    d := OpenedIs(bs, b, step, keep);
    OrderlyWithPeaks(Opened(bs, b, keep), RaiseAll(map[], s.metrics, s.slowFresh), step, keep);
  }

  lemma OpensLaterPeak(run: seq<Sample>, step: int, keep: int, k: nat, f: Field)
    requires step > 0 && keep > 0 && Later(run, step, keep) && k < |Replay(run, step, keep)|
    ensures var now, e := Replay(run, step, keep), Epoch(run, step);
      && Touched(run, e, |run|, step, now[k].t)
      && PeakOf(run, e, |run|, step, now[k].t, f) == At(now[k].peaks, f)
  {
    hide PeakOf, Touched, OnStep, BucketOf, RaiseAll, Better, ReadingOf, Opened, Orderly;
    var before, s := run[..|run| - 1], run[|run| - 1];
    var bs, now, e := Replay(before, step, keep), Replay(run, step, keep), Epoch(run, step);
    var d := OpensLaterShape(run, step, keep);
    OneMore(run, e, step, now[k].t);
    if k < |now| - 1 {
      assert now[k] == bs[d + k];
    } else {
      RaiseAllAt(map[], s.metrics, s.slowFresh, f);
      UntouchedHasNoPeak(before, e, |before|, step, now[k].t, f);
    }
  }

  lemma OpensLater(run: seq<Sample>, step: int, keep: int)
    requires step > 0 && keep > 0 && Later(run, step, keep)
    ensures Right(run, step, keep)
  {
    hide PeakOf, Touched, OnStep, BucketOf, RaiseAll, Orderly, Observed;
    var bs, now, e := Replay(run[..|run| - 1], step, keep), Replay(run, step, keep), Epoch(run, step);
    var d := OpensLaterShape(run, step, keep);
    var b := now[|now| - 1].t;
    assert Newest(run, step) == Some(b);
    OneMoreEach(run, e, step);
    forall c | Touched(run, e, |run|, step, c) && b - keep < c ensures exists k :: 0 <= k < |now| && now[k].t == c {
      if c != b {
        var k :| 0 <= k < |bs| && bs[k].t == c;
        assert now[k - d] == bs[k];
      }
    }
    forall k, f | 0 <= k < |now|
      ensures Touched(run, e, |run|, step, now[k].t)
      ensures PeakOf(run, e, |run|, step, now[k].t, f) == At(now[k].peaks, f)
    {
      OpensLaterPeak(run, step, keep, k, f);
    }
  }

  /** After any run of samples the points are exactly the reference fold: the buckets
      touched since the last backward step and still retained, ascending, on the step
      grid, each field the peak of its bucket's finite readings and absent without any. */
  lemma {:induction false} HistoryIsAPeakFold(run: seq<Sample>, step: int, keep: int)
    requires step > 0 && keep > 0
    ensures Orderly(Replay(run, step, keep), step, keep)
    ensures Matches(run, Replay(run, step, keep), step, keep)
  {
    hide PeakOf, OnStep, BucketOf, Observed;
    if run != [] {
      HistoryIsAPeakFold(run[..|run| - 1], step, keep);
      var bs, s := Replay(run[..|run| - 1], step, keep), run[|run| - 1];
      if s.metrics.timestamp.None? {
        NothingPublished(run, step, keep);
      } else if bs == [] || bs[|bs| - 1].t < BucketOf(s.metrics.timestamp.value, step) {
        OpensLater(run, step, keep);
      } else if bs[|bs| - 1].t > BucketOf(s.metrics.timestamp.value, step) {
        StartsOver(run, step, keep);
      } else {
        StaysOpen(run, step, keep);
      }
    }
  }

  /** So a shown value is half a hundredth at most from the greatest finite reading of its
      bucket since the epoch, and a value is missing only where there was no finite reading. */
  lemma PointsShowReadings(run: seq<Sample>, step: int, keep: int, k: nat, f: Field)
    requires step > 0 && keep > 0 && k < |Replay(run, step, keep)|
    ensures var (point, e) := (Replay(run, step, keep)[k], Epoch(run, step));
      if f in point.peaks then
        exists i, v :: e <= i < |run| && Reads(run, i, step, point.t, f, v) && Abs(point.peaks[f] - v) <= 0.005
                       && forall j, w :: e <= j < |run| && Reads(run, j, step, point.t, f, w) ==> w <= v
      else forall j, w :: e <= j < |run| ==> !Reads(run, j, step, point.t, f, w)
  {
    HistoryIsAPeakFold(run, step, keep);
    hide PeakOf, Replay, Orderly, Round2, Epoch, Reads;
    var (point, e) := (Replay(run, step, keep)[k], Epoch(run, step));
    assert PeakOf(run, e, |run|, step, point.t, f) == At(point.peaks, f);
    if f in point.peaks {
      var i, v := PeakIsNearGreatest(run, e, |run|, step, point.t, f);
    } else {
      forall j, w | e <= j < |run| ensures !Reads(run, j, step, point.t, f, w) {
        if Reads(run, j, step, point.t, f, w) { ReadHasPeak(run, e, step, point.t, f, j, w); }
      }
    }
  }

  lemma ReadHasPeak(run: seq<Sample>, lo: nat, step: int, b: int, f: Field, i: nat, v: real)
    requires step > 0 && lo <= i < |run| && Reads(run, i, step, b, f, v)
    ensures PeakOf(run, lo, |run|, step, b, f).Some?
  {
    PeakIsGreatest(run, lo, |run|, step, b, f, i, v);
  }

  /** The epoch is where the buckets last stepped back: from there on they never do. */
  lemma {:induction false} EpochMeans(run: seq<Sample>, step: int, i: nat, j: nat)
    requires step > 0 && Epoch(run, step) <= i < j < |run|
    requires run[i].metrics.timestamp.Some? && run[j].metrics.timestamp.Some?
    ensures BucketOf(run[i].metrics.timestamp.value, step) <= BucketOf(run[j].metrics.timestamp.value, step)
  {
    hide BucketOf;
    if j == |run| - 1 {
      NewestAtLeast(run[..j], step, i);
    } else {
      var before := run[..|run| - 1];
      assert before[i] == run[i] && before[j] == run[j];
      EpochMeans(before, step, i, j);
    }
  }

  lemma {:induction false} NewestAtLeast(run: seq<Sample>, step: int, i: nat)
    requires step > 0 && Epoch(run, step) <= i < |run| && run[i].metrics.timestamp.Some?
    ensures Newest(run, step).Some? && BucketOf(run[i].metrics.timestamp.value, step) <= Newest(run, step).value
  {
    hide BucketOf;
    if i < |run| - 1 {
      assert run[..|run| - 1][i] == run[i];
      NewestAtLeast(run[..|run| - 1], step, i);
    }
  }

  /** With a retention of n steps at most n points ever exist. */
  lemma AtMostKeepOverStep(run: seq<Sample>, step: int, n: int)
    requires step > 0 && n > 0 && n * step > 0
    ensures |Replay(run, step, n * step)| <= n
  {
    HistoryIsAPeakFold(run, step, n * step);
    var bs := Replay(run, step, n * step);
    if |bs| > n {
      GridGap(bs, step, n * step, 0);
      Multiply(n, |bs| - 1, step);
    }
  }

  lemma Multiply(a: int, b: int, s: int)
    requires a <= b && s > 0
    ensures a * s <= b * s && (a + 1) * s == a * s + s
  {
    assert (b - a) * s >= 0;
  }

  lemma {:induction false} GridGap(bs: seq<Bucket>, step: int, keep: int, i: nat)
    requires step > 0 && Orderly(bs, step, keep) && i < |bs|
    ensures bs[|bs| - 1].t - bs[i].t >= (|bs| - 1 - i) * step
    decreases |bs| - i
  {
    if i < |bs| - 1 {
      GridGap(bs, step, keep, i + 1);
      NextOnGrid(bs[i].t, bs[i + 1].t, step);
      assert (|bs| - 1 - i) * step == (|bs| - 2 - i) * step + step;
    }
  }

  lemma NextOnGrid(a: int, b: int, step: int)
    requires step > 0 && OnStep(a, step) && OnStep(b, step) && a < b
    ensures b >= a + step
  {
    var p, q := a / step, b / step;
    assert a == p * step && b == q * step;
    if q <= p { Multiply(q, p, step); } else { Multiply(p + 1, q, step); Multiply(p, p, step); }
  }

  // ------------------------------------------------------------------- in the heap

  /** What a non-nil pointer field of a history point points to. */
  class Cell {
    var value: real
    constructor (value: real)
      ensures this.value == value
    {
      this.value := value;
    }
  }

  /** A point with one pointer per field; a field that is not in `cells` is nil. */
  datatype HistoryPoint = HistoryPoint(t: int, cells: map<Field, Cell>)

  /** No two pointers are the same cell. */
  ghost predicate Unshared(ps: seq<HistoryPoint>) {
    forall i, f, j, g | 0 <= i < |ps| && 0 <= j < |ps| && f in ps[i].cells && g in ps[j].cells ::
      ps[i].cells[f] == ps[j].cells[g] ==> i == j && f == g
  }

  ghost predicate ShowsPoint(p: HistoryPoint, b: Bucket, repr: set<Cell>)
    reads repr
  {
    && p.t == b.t && p.cells.Keys == b.peaks.Keys
    && forall f | f in p.cells :: p.cells[f] in repr && p.cells[f].value == b.peaks[f]
  }

  /** The points, with their cells among `repr`, hold the buckets `bs`. */
  ghost predicate Shows(ps: seq<HistoryPoint>, bs: seq<Bucket>, repr: set<Cell>)
    reads repr
  {
    |ps| == |bs| && Unshared(ps) && forall i | 0 <= i < |ps| :: ShowsPoint(ps[i], bs[i], repr)
  }

  lemma FreshCellIsUnshared(ps: seq<HistoryPoint>, i: nat, f: Field, cell: Cell)
    requires Unshared(ps) && i < |ps|
    requires forall j, g | 0 <= j < |ps| && g in ps[j].cells :: ps[j].cells[g] != cell
    ensures Unshared(ps[i := HistoryPoint(ps[i].t, ps[i].cells[f := cell])])
  {
  }

  lemma OnlyPointer(ps: seq<HistoryPoint>, i: nat, f: Field)
    requires Unshared(ps) && i < |ps| && f in ps[i].cells
    ensures forall j, g | 0 <= j < |ps| && g in ps[j].cells :: ps[j].cells[g] == ps[i].cells[f] ==> i == j && f == g
  {
  }

  lemma EmptyPointIsUnshared(ps: seq<HistoryPoint>, t: int)
    requires Unshared(ps)
    ensures Unshared(ps + [HistoryPoint(t, map[])]) && Unshared([HistoryPoint(t, map[])])
  {
  }

  lemma SamePeaks(bs: seq<Bucket>)
    requires bs != []
    ensures WithPeaks(bs, bs[|bs| - 1].peaks) == bs
  {
  }

  /** copyFloat for each field that has a reading. */
  method CopyCells(cells: map<Field, Cell>) returns (copy: map<Field, Cell>, ghost repr: set<Cell>)
    ensures copy.Keys == cells.Keys && fresh(repr)
    ensures forall f | f in cells :: copy[f] in repr && copy[f].value == cells[f].value
    ensures forall f, g | f in copy && g in copy :: copy[f] == copy[g] ==> f == g
  {
    copy, repr := map[], {};
    var todo := cells.Keys;
    while todo != {}
      invariant todo <= cells.Keys && copy.Keys == cells.Keys - todo && fresh(repr)
      invariant forall f | f in copy :: copy[f] in repr && copy[f].value == cells[f].value
      invariant forall f, g | f in copy && g in copy :: copy[f] == copy[g] ==> f == g
      decreases todo
    {
      var f :| f in todo;
      var cell := new Cell(cells[f].value);
      copy := copy[f := cell];
      repr := repr + {cell};
      todo := todo - {f};
    }
  }

  class MetricsHistory {
    const step: int
    const keep: int
    var points: seq<HistoryPoint>
    ghost var contents: seq<Bucket>
    ghost var repr: set<Cell>

    ghost predicate Valid() reads this, repr {
      step > 0 && keep > 0 && Shows(points, contents, repr)
    }

    constructor (step: int, keep: int)
      requires step > 0 && keep > 0
      ensures Valid() && this.step == step && this.keep == keep && contents == [] && repr == {}
    {
      this.step, this.keep, points := step, keep, [];
      contents, repr := [], {};
    }

    /** Raise one field of the open point, allocating its cell if it has none yet.  The
        history held `was` with the open point's peaks replaced by `peaks`. */
    method Peak(f: Field, r: Option<Reading>, ghost was: seq<Bucket>, ghost peaks: map<Field, real>)
      returns (ghost raised: map<Field, real>)
      requires Valid() && points != [] && was != [] && contents == WithPeaks(was, peaks)
      modifies this, repr
      ensures Valid() && fresh(repr - old(repr)) && points != []
      ensures raised == Raise(peaks, f, r) && contents == WithPeaks(was, raised)
    {
      hide Unshared, Round2;
      var last := |points| - 1;
      var p := points[last];
      raised := Raise(peaks, f, r);
      if r.Some? && r.value.Finite? {
        var v := Round2(r.value.value);
        assert WithPeaks(was, raised) == contents[last := Bucket(p.t, raised)];
        if f !in p.cells {
          Allocate(f, v);
        } else if v > p.cells[f].value {
          Overwrite(f, v);
        }
      }
    }

    /** A field of the open point gets a cell of its own. */
    method Allocate(f: Field, v: real)
      requires Valid() && points != [] && f !in points[|points| - 1].cells
      modifies this`points, this`contents, this`repr
      ensures Valid() && fresh(repr - old(repr)) && |points| == |old(points)|
      ensures var last := |contents| - 1; var b := old(contents)[last];
        contents == old(contents)[last := Bucket(b.t, b.peaks[f := v])]
    {
      hide Unshared;
      var last := |points| - 1;
      var p := points[last];
      var cell := new Cell(v);
      FreshCellIsUnshared(points, last, f, cell);
      points := points[last := HistoryPoint(p.t, p.cells[f := cell])];
      contents := contents[last := Bucket(p.t, contents[last].peaks[f := v])];
      repr := repr + {cell};
    }

    /** The cell it has gets another value; no other field has that cell. */
    method Overwrite(f: Field, v: real)
      requires Valid() && points != [] && f in points[|points| - 1].cells
      modifies this`contents, points[|points| - 1].cells[f]
      ensures Valid()
      ensures var last := |contents| - 1; var b := old(contents)[last];
        contents == old(contents)[last := Bucket(b.t, b.peaks[f := v])]
    {
      hide Unshared;
      var last := |points| - 1;
      var p := points[last];
      OnlyPointer(points, last, f);
      contents := contents[last := Bucket(p.t, contents[last].peaks[f := v])];
      p.cells[f].value := v;
    }

    method TrimLocked(newest: int)
      requires Valid()
      modifies this`points, this`contents
      ensures Valid() && contents == Trim(old(contents), newest - keep)
    {
      var oldest := newest - keep;
      var drop := 0;
      assert contents[0..] == contents;
      while drop < |points| && points[drop].t <= oldest
        invariant drop <= |points|
        invariant Trim(contents, oldest) == Trim(contents[drop..], oldest)
      {
        assert contents[drop..][1..] == contents[drop + 1..];
        drop := drop + 1;
      }
      contents := contents[drop..];
      if drop > 0 { points := points[drop..]; }
    }

    /** Make the sample's bucket the open one. */
    method Open(bucket: int)
      requires Valid()
      modifies this`points, this`contents
      ensures Valid() && points != [] && contents == Opened(old(contents), bucket, keep)
    {
      hide Unshared, Trim;
      var n := |points|;
      EmptyPointIsUnshared(points, bucket);
      if n == 0 || points[n - 1].t < bucket {
        points := points + [HistoryPoint(bucket, map[])];
        contents := contents + [Bucket(bucket, map[])];
        TrimLocked(bucket);
        assert contents == Opened(old(contents), bucket, keep);
        assert |points| == |contents|;
      } else if points[n - 1].t > bucket {
        points := [HistoryPoint(bucket, map[])];
        contents := [Bucket(bucket, map[])];
      }
    }

    /** Fold one published snapshot into its bucket. */
    method Observe(m: Metrics, slowFresh: bool)
      requires Valid()
      modifies this, repr
      ensures Valid() && fresh(repr - old(repr))
      ensures contents == Observed(old(contents), step, keep, m, slowFresh)
    {
      if m.timestamp.None? { return; }
      Open(BucketOf(m.timestamp.value, step));
      assert |contents| == |points|;
      hide Shows, WithPeaks, Raise;
      ghost var was, p := contents, contents[|contents| - 1].peaks;
      SamePeaks(was);
      p := Peak(Cpu, m.cpu, was, p);
      p := Peak(Memory, m.memory, was, p);
      if slowFresh { p := PeakSlow(m, was, p); }
    }

    method PeakSlow(m: Metrics, ghost was: seq<Bucket>, ghost peaks: map<Field, real>)
      returns (ghost raised: map<Field, real>)
      requires Valid() && points != [] && was != [] && contents == WithPeaks(was, peaks)
      modifies this, repr
      ensures Valid() && fresh(repr - old(repr))
      ensures raised == RaiseSlow(peaks, m) && contents == WithPeaks(was, raised)
    {
      hide Shows, WithPeaks, Raise;
      raised := Peak(Gpu, m.gpu, was, peaks);
      raised := Peak(NetRx, if m.network.Some? then Some(m.network.value.0) else None, was, raised);
      raised := Peak(NetTx, if m.network.Some? then Some(m.network.value.1) else None, was, raised);
      raised := Peak(Disk, if m.storage.Some? then Some(Plus(m.storage.value.0, m.storage.value.1)) else None, was, raised);
    }

    /** A copy of the points in cells of its own. */
    method Snapshot() returns (ps: seq<HistoryPoint>, ghost cells: set<Cell>)
      requires Valid()
      ensures Shows(ps, contents, cells) && fresh(cells)
    {
      ps, cells := [], {};
      var i := 0;
      while i < |points|
        invariant i <= |points| && Shows(ps, contents[..i], cells) && fresh(cells)
      {
        var copy, fresh_ := CopyCells(points[i].cells);
        ps := ps + [HistoryPoint(points[i].t, copy)];
        cells := cells + fresh_;
        i := i + 1;
      }
    }
  }

  /** A snapshot that was handed out never changes, whatever is observed afterwards. */
  method SnapshotIsFrozen(h: MetricsHistory, later: seq<Sample>) returns (ps: seq<HistoryPoint>, ghost cells: set<Cell>)
    requires h.Valid()
    modifies h, h.repr
    ensures h.Valid() && Shows(ps, old(h.contents), cells)
  {
    ps, cells := h.Snapshot();
    var i := 0;
    while i < |later|
      invariant i <= |later| && h.Valid() && Shows(ps, old(h.contents), cells)
      invariant cells !! h.repr && fresh(h.repr - old(h.repr))
    {
      h.Observe(later[i].metrics, later[i].slowFresh);
      i := i + 1;
    }
  }
}

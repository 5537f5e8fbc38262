/**
  Token accounting (token_usage.go): seven daily totals from the transcripts of two
  programs, one that repeats its responses and one that reports a running counter.
*/
module TokenUsage {
  import opened Options

  const MAX_INT64 := 0x7FFF_FFFF_FFFF_FFFF
  const DAYS := 7

  function Min(a: int, b: int): int { if a <= b then a else b }

  // ------------------------------------------------------------- saturating sums

  /** saturatingTokenAdd, for totals that are never negative. */
  function SaturatingTokenAdd(left: int, right: int): (r: int)
    requires 0 <= left <= MAX_INT64 && 0 <= right <= MAX_INT64
    ensures r == Min(MAX_INT64, left + right)
  {
    if right > 0 && left > MAX_INT64 - right then MAX_INT64 else left + right
  }

  /** The exact sum of the positive values. */
  function PositiveSum(values: seq<int>): nat {
    if values == [] then 0
    else PositiveSum(values[..|values| - 1]) + (if values[|values| - 1] > 0 then values[|values| - 1] else 0)
  }

  method SumNonNegativeTokens(values: seq<int>) returns (total: int)
    requires forall i :: 0 <= i < |values| ==> -MAX_INT64 - 1 <= values[i] <= MAX_INT64
    ensures total == Min(MAX_INT64, PositiveSum(values))
  {
    total := 0;
    var k := 0;
    while k < |values|
      invariant k <= |values| && total == Min(MAX_INT64, PositiveSum(values[..k]))
    {
      assert values[..k + 1][..k] == values[..k];
      if values[k] > 0 { total := SaturatingTokenAdd(total, values[k]); }
      k := k + 1;
    }
    assert values[..k] == values;
  }

  // -------------------------------------------------------------- the repeated one

  /** A decoded line: whether it is an assistant response with usage and a readable time,
      its local day, its three possible keys and its four token counts. */
  datatype Response = Response(usable: bool, day: int, requestId: string, messageId: string, uuid: string, tokens: seq<int>)

  predicate Fits(e: Response) { forall i :: 0 <= i < |e.tokens| ==> -MAX_INT64 - 1 <= e.tokens[i] <= MAX_INT64 }

  function Key(e: Response): string {
    if e.requestId != "" then e.requestId else if e.messageId != "" then e.messageId else e.uuid
  }

  predicate InRange(day: int, first: int) { first <= day < first + DAYS }

  predicate Usable(e: Response, first: int) { e.usable && InRange(e.day, first) }

  /** The keys of the usable responses. */
  function Keys(es: seq<Response>, first: int): set<string> {
    if es == [] then {}
    else
      var e := es[|es| - 1];
      Keys(es[..|es| - 1], first) + (if Usable(e, first) && Key(e) != "" then {Key(e)} else {})
  }

  /** The exact total of a day: every response with a key counts where the key first
      appears, and every response without one counts. */
  function DayTotal(es: seq<Response>, first: int, day: int): nat {
    if es == [] then 0
    else
      var (front, e) := (es[..|es| - 1], es[|es| - 1]);
      DayTotal(front, first, day)
      + (if Usable(e, first) && e.day == day && Key(e) !in Keys(front, first) then PositiveSum(e.tokens) else 0)
  }

  lemma {:induction false} KeysMeans(es: seq<Response>, first: int, key: string)
    ensures key in Keys(es, first) <==> key != "" && exists i :: 0 <= i < |es| && Usable(es[i], first) && Key(es[i]) == key
  {
    if es != [] { KeysMeans(es[..|es| - 1], first, key); }
  }

  /** Repeating responses that were already read adds nothing to any day, however often and
      with whatever counts. */
  lemma {:induction false} RepeatsAddNothing(es: seq<Response>, more: seq<Response>, first: int, day: int)
    requires forall i :: 0 <= i < |more| ==> Usable(more[i], first) ==> Key(more[i]) in Keys(es, first)
    ensures DayTotal(es + more, first, day) == DayTotal(es, first, day)
    ensures Keys(es + more, first) == Keys(es, first)
  {
    if more == [] {
      assert es + more == es;
    } else {
      RepeatsAddNothing(es, more[..|more| - 1], first, day);
      assert (es + more)[..|es + more| - 1] == es + more[..|more| - 1];
    }
  }

  // ------------------------------------------------------------ what a day's total is

  /** PositiveSum adds up all the counts. */
  lemma {:induction false} PositiveSumConcat(a: seq<int>, b: seq<int>)
    ensures PositiveSum(a + b) == PositiveSum(a) + PositiveSum(b)
  {
    if b == [] {
      assert a + b == a;
    } else {
      PositiveSumConcat(a, b[..|b| - 1]);
      assert (a + b)[..|a + b| - 1] == a + b[..|b| - 1];
    }
  }

  function Positive(n: int): nat { if n > 0 then n else 0 }

  lemma FourCounts(input: int, created: int, read: int, output: int)
    ensures PositiveSum([input, created, read, output]) == Positive(input) + Positive(created) + Positive(read) + Positive(output)
  {
    PositiveSumConcat([input, created], [read, output]);
    PositiveSumConcat([input], [created]);
    PositiveSumConcat([read], [output]);
    assert [input, created] + [read, output] == [input, created, read, output];
    assert [input] + [created] == [input, created] && [read] + [output] == [read, output];
  }

  /** Two lines are of one response by their request ids if they have any, else by their
      message ids, else by their own ids. */
  predicate SameResponse(a: Response, b: Response) {
    var id := (e: Response) =>
      if e.requestId != "" then e.requestId else if e.messageId != "" then e.messageId else e.uuid;
    id(a) != "" && id(a) == id(b)
  }

  /** The i-th line counts for the day: it is usable, and no usable line of the week before
      it is of the same response. */
  predicate CountsAt(es: seq<Response>, first: int, day: int, i: nat)
    requires i < |es|
  {
    && es[i].usable && es[i].day == day
    && forall j :: 0 <= j < i && es[j].usable && 0 <= es[j].day - first <= 6 ==> !SameResponse(es[j], es[i])
  }

  /** All counts of the lines that count, among the first k. */
  function Counted(es: seq<Response>, first: int, day: int, k: nat): nat
    requires k <= |es|
  {
    if k == 0 then 0
    else Counted(es, first, day, k - 1) + (if CountsAt(es, first, day, k - 1) then PositiveSum(es[k - 1].tokens) else 0)
  }

  /** A day's total is the sum of all counts over the first line of each response. */
  lemma {:induction false} DayTotalIsSum(es: seq<Response>, first: int, day: int, k: nat)
    requires k <= |es| && 0 <= day - first <= 6
    ensures DayTotal(es[..k], first, day) == Counted(es, first, day, k)
  {
    if k > 0 {
      DayTotalIsSum(es, first, day, k - 1);
      assert es[..k][..k - 1] == es[..k - 1];
      var e := es[k - 1];
      KeysMeans(es[..k - 1], first, Key(e));
      assert forall j :: 0 <= j < k - 1 ==> es[..k - 1][j] == es[j];
    }
  }

  function Flat<T>(files: seq<seq<T>>): seq<T> {
    if files == [] then [] else Flat(files[..|files| - 1]) + files[|files| - 1]
  }

  /** The totals so far: exact up to the largest int64, where they stick. */
  ghost predicate Totals(days: seq<int>, es: seq<Response>, first: int) {
    |days| == DAYS && forall d :: 0 <= d < DAYS ==> days[d] == Min(MAX_INT64, DayTotal(es, first, first + d))
  }

  /** The accounting of scanClaudeTokenUsage, on decoded lines. */
  method ScanClaude(files: seq<seq<Response>>, first: int) returns (days: array<int>)
    requires forall f :: f in files ==> forall e :: e in f ==> Fits(e)
    ensures fresh(days) && Totals(days[..], Flat(files), first)
  {
    days := new int[DAYS](_ => 0);
    var seen: set<string> := {};
    var k := 0;
    while k < |files|
      invariant k <= |files| && seen == Keys(Flat(files[..k]), first) && Totals(days[..], Flat(files[..k]), first)
    {
      assert files[..k + 1][..k] == files[..k];
      assert files[k] in files;
      seen := ScanTranscript(files[k], first, seen, days, Flat(files[..k]));
      k := k + 1;
    }
    assert files[..k] == files;
  }

  method ScanTranscript(file: seq<Response>, first: int, seen0: set<string>, days: array<int>, ghost before: seq<Response>)
    returns (seen: set<string>)
    requires forall e :: e in file ==> Fits(e)
    requires seen0 == Keys(before, first) && Totals(days[..], before, first)
    modifies days
    ensures seen == Keys(before + file, first) && Totals(days[..], before + file, first)
  {
    hide Totals, Keys;
    seen := seen0;
    var k := 0;
    assert before + file[..0] == before;
    while k < |file|
      invariant k <= |file| && seen == Keys(before + file[..k], first) && Totals(days[..], before + file[..k], first)
    {
      var e := file[k];
      assert e in file && before + file[..k + 1] == before + file[..k] + [e];
      NextResponse(before + file[..k], e, first, days[..]);
      k := k + 1;
      if !e.usable || !InRange(e.day, first) { continue; }
      var key := Key(e);
      if key != "" {
        if key in seen { continue; }
        seen := seen + {key};
      }
      var total := SumNonNegativeTokens(e.tokens);
      if total == 0 { continue; }
      var i := e.day - first;
      assert days.Length == DAYS && 0 <= days[i] <= MAX_INT64;
      ghost var was := days[..];
      days[i] := SaturatingTokenAdd(days[i], total);
      assert days[..] == was[i := Min(MAX_INT64, was[i] + total)];
    }
    assert file[..k] == file;
  }

  lemma NextResponse(es: seq<Response>, e: Response, first: int, days: seq<int>)
    requires Totals(days, es, first)
    ensures |days| == DAYS && forall d :: 0 <= d < DAYS ==> 0 <= days[d] <= MAX_INT64
    ensures Keys(es + [e], first) == Keys(es, first) + (if Usable(e, first) && Key(e) != "" then {Key(e)} else {})
    ensures "" !in Keys(es, first)
    ensures !Usable(e, first) || Key(e) in Keys(es, first) || PositiveSum(e.tokens) == 0 ==> Totals(days, es + [e], first)
    ensures Usable(e, first) && Key(e) !in Keys(es, first) ==>
              var i := e.day - first;
              Totals(days[i := Min(MAX_INT64, days[i] + Min(MAX_INT64, PositiveSum(e.tokens)))], es + [e], first)
  {
    assert (es + [e])[..|es|] == es;
    KeysMeans(es, first, "");
  }

  // ------------------------------------------------------------- the running counter

  /** A decoded token_count line with a readable time: its local day and the counter. */
  datatype Count = Count(day: int, counter: Option<int>)

  predicate Valid(c: Count) { c.counter.Some? && c.counter.value >= 0 }

  /** The counter values that are looked at, in order. */
  function Readings(file: seq<Count>): (r: seq<nat>) {
    if file == [] then []
    else
      var c := file[|file| - 1];
      Readings(file[..|file| - 1]) + (if Valid(c) then [c.counter.value] else [])
  }

  function Last(readings: seq<nat>): nat { if readings == [] then 0 else readings[|readings| - 1] }

  /** What a reading adds: its increase, or all of it after a reset. */
  function Delta(previous: nat, current: nat): nat { if current < previous then current else current - previous }

  function SumOfDeltas(readings: seq<nat>): nat {
    if readings == [] then 0
    else
      var front := readings[..|readings| - 1];
      SumOfDeltas(front) + Delta(Last(front), Last(readings))
  }

  /** The last values of the maximal non-decreasing runs. */
  predicate EndsRun(readings: seq<nat>, i: nat)
    requires i < |readings|
  {
    i == |readings| - 1 || readings[i + 1] < readings[i]
  }

  function SumOfRunEnds(readings: seq<nat>, k: nat): nat
    requires k <= |readings|
  {
    if k == 0 then 0 else SumOfRunEnds(readings, k - 1) + (if EndsRun(readings, k - 1) then readings[k - 1] else 0)
  }

  lemma {:induction false} RunEndsOfPrefix(readings: seq<nat>, n: nat, k: nat)
    requires k < n <= |readings|
    ensures SumOfRunEnds(readings[..n], k) == SumOfRunEnds(readings, k)
  {
    if k > 0 { RunEndsOfPrefix(readings, n, k - 1); }
  }

  /** Repeats add nothing and resets lose nothing: the deltas of one file add up to the last
      values of its runs. */
  lemma {:induction false} DeltasAreRunEnds(readings: seq<nat>)
    ensures SumOfDeltas(readings) == SumOfRunEnds(readings, |readings|)
  {
    var n := |readings|;
    if n > 0 {
      var front := readings[..n - 1];
      DeltasAreRunEnds(front);
      if n > 1 {
        RunEndsOfPrefix(readings, n - 1, n - 2);
        assert SumOfRunEnds(front, n - 1) == SumOfRunEnds(readings, n - 2) + readings[n - 2];
      }
    }
  }

  /** The exact total of a day from one file. */
  function CountTotal(file: seq<Count>, day: int): nat {
    if file == [] then 0
    else
      var (front, c) := (file[..|file| - 1], file[|file| - 1]);
      CountTotal(front, day)
      + (if Valid(c) && c.day == day then Delta(Last(Readings(front)), c.counter.value) else 0)
  }

  function SumOfDays(file: seq<Count>, first: int, n: nat): nat {
    if n == 0 then 0 else SumOfDays(file, first, n - 1) + CountTotal(file, first + n - 1)
  }

  lemma {:induction false} NextCount(file: seq<Count>, c: Count, first: int, n: nat)
    ensures Readings(file + [c]) == Readings(file) + (if Valid(c) then [c.counter.value] else [])
    ensures SumOfDays(file + [c], first, n)
            == SumOfDays(file, first, n)
               + (if Valid(c) && first <= c.day < first + n then Delta(Last(Readings(file)), c.counter.value) else 0)
  {
    assert (file + [c])[..|file|] == file;
    if n > 0 { NextCount(file, c, first, n - 1); }
  }

  /** When all its lines fall in the seven days, the days together hold the last values of
      the runs of the file's counter. */
  lemma {:induction false} DaysHoldTheRuns(file: seq<Count>, first: int)
    requires forall i :: 0 <= i < |file| ==> InRange(file[i].day, first)
    ensures SumOfDays(file, first, DAYS) == SumOfRunEnds(Readings(file), |Readings(file)|)
  {
    DeltasAreRunEnds(Readings(file));
    DaysHoldTheDeltas(file, first);
  }

  lemma {:induction false} DaysHoldTheDeltas(file: seq<Count>, first: int)
    requires forall i :: 0 <= i < |file| ==> InRange(file[i].day, first)
    ensures SumOfDays(file, first, DAYS) == SumOfDeltas(Readings(file))
  {
    if file == [] {
      NoLines(first, DAYS);
    } else {
      var (front, c) := (file[..|file| - 1], file[|file| - 1]);
      DaysHoldTheDeltas(front, first);
      assert file == front + [c];
      NextCount(front, c, first, DAYS);
      assert InRange(c.day, first);
      if Valid(c) {
        assert Readings(file) == Readings(front) + [c.counter.value];
        assert Readings(file)[..|Readings(file)| - 1] == Readings(front);
      } else {
        assert Readings(file) == Readings(front);
      }
    }
  }

  lemma {:induction false} NoLines(first: int, n: nat)
    ensures SumOfDays([], first, n) == 0
  {
    if n > 0 { NoLines(first, n - 1); }
  }

  /** The exact total of a day over all files; every file has a counter of its own. */
  function AllTotal(files: seq<seq<Count>>, day: int): nat {
    if files == [] then 0 else AllTotal(files[..|files| - 1], day) + CountTotal(files[|files| - 1], day)
  }

  predicate CounterFits(c: Count) { c.counter.Some? ==> -MAX_INT64 - 1 <= c.counter.value <= MAX_INT64 }

  /** The accounting of scanCodexUsage, on decoded lines. */
  method ScanCodex(files: seq<seq<Count>>, first: int) returns (days: array<int>)
    requires forall f :: f in files ==> forall c :: c in f ==> CounterFits(c)
    ensures fresh(days) && days.Length == DAYS
    ensures forall d :: 0 <= d < DAYS ==> days[d] == Min(MAX_INT64, AllTotal(files, first + d))
  {
    days := new int[DAYS](_ => 0);
    var k := 0;
    while k < |files|
      invariant k <= |files|
      invariant forall d :: 0 <= d < DAYS ==> days[d] == Min(MAX_INT64, AllTotal(files[..k], first + d))
    {
      assert files[..k + 1][..k] == files[..k] && files[k] in files;
      ScanSession(files[k], first, days);
      k := k + 1;
    }
    assert files[..k] == files;
  }

  method ScanSession(file: seq<Count>, first: int, days: array<int>)
    requires days.Length == DAYS && forall d :: 0 <= d < DAYS ==> 0 <= days[d] <= MAX_INT64
    requires forall c :: c in file ==> CounterFits(c)
    modifies days
    ensures forall d :: 0 <= d < DAYS ==> days[d] == Min(MAX_INT64, old(days[d]) + CountTotal(file, first + d))
  {
    var previous, k := 0, 0;
    while k < |file|
      invariant k <= |file| && previous == Last(Readings(file[..k])) && 0 <= previous <= MAX_INT64
      invariant forall d :: 0 <= d < DAYS ==> days[d] == Min(MAX_INT64, old(days[d]) + CountTotal(file[..k], first + d))
    {
      var c := file[k];
      assert c in file && file[..k + 1][..k] == file[..k];
      k := k + 1;
      if c.counter.None? || c.counter.value < 0 { continue; }
      var current := c.counter.value;
      var delta := current - previous;
      if current < previous { delta := current; }
      previous := current;
      if !InRange(c.day, first) || delta <= 0 { continue; }
      days[c.day - first] := SaturatingTokenAdd(days[c.day - first], delta);
    }
    assert file[..k] == file;
  }
}

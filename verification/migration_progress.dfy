// The console progress bar of the blocking data migrations.
module MigrationProgress {

  const INT64_MAX: int := 0x7fff_ffff_ffff_ffff
  const INT64_MIN: int := -0x8000_0000_0000_0000
  const INT32_MIN: int := -0x8000_0000
  const BAR_WIDTH := 30

  // C++ integer division truncates toward zero.
  function TruncDiv(a: int, b: int): int
    requires b > 0
  {
    if a >= 0 then a / b else -((-a) / b)
  }

  function Min(a: int, b: int): int {
    if a < b then a else b
  }

  // What one progress report puts on the console. Undefined stands for signed
  // overflow, a narrowing that does not fit, and a bar of negative length.
  datatype Drawing = Nothing | Bar(percent: int, filled: nat, empty: nat) | Undefined

  datatype DrawState = DrawState(active: bool, lastPercent: int)

  const IDLE := DrawState(false, -1)

  function Started(s: DrawState): DrawState {
    DrawState(true, -1)
  }

  function Progressed(s: DrawState, current: int, total: int): (DrawState, Drawing) {
    if !s.active || total <= 0 then (s, Nothing) else
    var product := Min(current, total) * 100;
    if product < INT64_MIN || product > INT64_MAX then (s, Undefined) else
    var percent := TruncDiv(product, total);
    if percent < INT32_MIN then (s, Undefined) else
    if percent == s.lastPercent then (s, Nothing) else
    if percent * BAR_WIDTH < INT32_MIN then (s, Undefined) else
    var filled := TruncDiv(percent * BAR_WIDTH, 100);
    PercentAtMost100(current, total);
    if filled < 0 then (s, Undefined)
    else (s.(lastPercent := percent), Bar(percent, filled, BAR_WIDTH - filled))
  }

  function Finished(s: DrawState): DrawState {
    s.(active := false)
  }

  // The console line break at the end: only below a bar.
  predicate BreaksLine(s: DrawState) {
    s.lastPercent >= 0
  }

  // The quotient is the one with the larger absolute value that does not pass the
  // exact one, so it is rounded toward zero.
  lemma TruncatesTowardZero(a: int, b: int)
    requires b > 0
    ensures var q := TruncDiv(a, b); if a >= 0 then q * b <= a < (q + 1) * b else (q - 1) * b < a <= q * b
  {
    FloorDivision(a, b);
    FloorDivision(-a, b);
    assert (-a) / b * b == -(-((-a) / b) * b);
    assert (-((-a) / b) - 1) * b == -(((-a) / b + 1) * b);
  }

  lemma MulOrders(x: int, y: int, b: int)
    requires b > 0
    ensures x * b < y * b <==> x < y
  {
    assert (y - x) * b == y * b - x * b;
    if x < y { assert (y - x) * b > 0; } else { assert (x - y) * b >= 0; }
  }

  lemma FloorDivision(a: int, b: int)
    requires b > 0
    ensures a / b * b <= a < (a / b + 1) * b
  {
    assert a == a / b * b + a % b;
  }

  lemma DivBelow(a: int, b: int, k: int)
    requires b > 0
    ensures a / b < k <==> a < k * b
  {
    FloorDivision(a, b);
    MulOrders(a / b, k, b);
    MulOrders(k, a / b + 1, b);
  }

  lemma PercentAtMost100(current: int, total: int)
    requires 0 < total
    ensures TruncDiv(Min(current, total) * 100, total) <= 100
  {
    DivBelow(Min(current, total) * 100, total, 101);
    DivBelow(-(Min(current, total) * 100), total, 0);
  }

  // A report without negative progress: the percentage is the rounded-down share
  // of the total, capped at 100, and the bar shows it on thirty cells.
  lemma PercentIsShare(current: int, total: int)
    requires 0 <= current && 0 < total
    ensures var percent := TruncDiv(Min(current, total) * 100, total);
            && 0 <= percent <= 100
            && percent * total <= Min(current, total) * 100 < (percent + 1) * total
            && (percent == 100 <==> current >= total)
            && 0 <= TruncDiv(percent * BAR_WIDTH, 100) <= BAR_WIDTH
  {
    var product := Min(current, total) * 100;
    FloorDivision(product, total);
    DivBelow(product, total, 0);
    DivBelow(product, total, 100);
    PercentAtMost100(current, total);
  }

  // Such a report is undefined exactly when a hundred times the smaller number
  // leaves the 64-bit range; otherwise every bar has exactly thirty cells and
  // shows the rounded-down share of the total.
  lemma ReportDefined(s: DrawState, current: int, total: int)
    requires s.active && 0 <= current && 0 < total
    ensures var done := if current < total then current else total;
            var d := Progressed(s, current, total).1;
            && (d == Undefined <==> done > 92233720368547758)
            && (d.Bar? ==> && d.percent * total <= 100 * done < (d.percent + 1) * total && 0 <= d.percent <= 100
                           && d.filled + d.empty == 30
                           && d.filled * 100 <= d.percent * 30 < (d.filled + 1) * 100)
  {
    PercentIsShare(current, total);
  }

  // Progress below zero, in range: down to minus three percent the bar is empty,
  // below that its length is negative.
  lemma NegativeReport(s: DrawState, current: int, total: int)
    requires s.active && current < 0 < total
    ensures var d, percent := Progressed(s, current, total).1, Percent(current, total);
            var fits := 100 * current >= INT64_MIN && percent >= INT32_MIN;
            && (d == Nothing <==> fits && percent == s.lastPercent)
            && (d == Undefined <==> !fits || (percent != s.lastPercent && 100 * current <= -4 * total))
            && (d.Bar? ==> d.percent == percent && -3 <= percent <= 0 && d.filled == 0 && d.empty == 30)
  {
    var product := current * 100;
    DivBelow(-product, total, 4);
    DivBelow(-product, total, 0);
    PercentAtMost100(current, total);
  }

  // The first report after a start is drawn, with no progress too.
  lemma FirstReportDraws(before: DrawState, current: int, total: int)
    requires 0 <= current && 0 < total && (if current < total then current else total) <= 92233720368547758
    ensures Progressed(Started(before), current, total).1.Bar?
  {
    OneReport(Started(before), current, total);
  }

  // ----- A whole migration --------------------------------------------------

  // The percentages drawn by a run of reports with one total.
  function Drawn(s: DrawState, reports: seq<int>, total: int): seq<int>
    decreases |reports|
  {
    if reports == [] then []
    else
      var (next, d) := Progressed(s, reports[0], total);
      (if d.Bar? then [d.percent] else []) + Drawn(next, reports[1..], total)
  }

  ghost predicate Rising(reports: seq<int>) {
    forall i, j | 0 <= i < j < |reports| :: reports[i] <= reports[j]
  }

  ghost predicate Increasing(s: seq<int>) {
    forall i, j | 0 <= i < j < |s| :: s[i] < s[j]
  }

  function Percent(current: int, total: int): int
    requires 0 < total
  {
    TruncDiv(Min(current, total) * 100, total)
  }

  lemma PercentMonotone(a: int, b: int, total: int)
    requires 0 <= a <= b && 0 < total
    ensures Percent(a, total) <= Percent(b, total)
  {
    var x, y := Min(a, total) * 100, Min(b, total) * 100;
    FloorDivision(y, total);
    DivBelow(x, total, y / total + 1);
  }

  lemma OneReport(s: DrawState, current: int, total: int)
    requires s.active && 0 < total && 0 <= current && Min(current, total) <= INT64_MAX / 100
    ensures var (next, d) := Progressed(s, current, total);
            && next == DrawState(true, Percent(current, total))
            && (d.Bar? <==> Percent(current, total) != s.lastPercent)
            && (d.Bar? ==> d.percent == Percent(current, total))
            && 0 <= Percent(current, total) <= 100
  {
    PercentIsShare(current, total);
  }

  // Progress that does not go back, in 64-bit range, and not below what the bar
  // shows already.
  ghost predicate Orderly(s: DrawState, reports: seq<int>, total: int)
    requires 0 < total
  {
    && Rising(reports)
    && (forall c | c in reports :: 0 <= c && Min(c, total) <= INT64_MAX / 100)
    && (reports != [] ==> s.lastPercent <= Percent(reports[0], total))
  }

  lemma OrderlyNext(s: DrawState, reports: seq<int>, total: int)
    requires s.active && 0 < total && reports != [] && Orderly(s, reports, total)
    ensures Orderly(Progressed(s, reports[0], total).0, reports[1..], total)
    ensures 0 <= reports[0] && Min(reports[0], total) <= INT64_MAX / 100 && s.lastPercent <= Percent(reports[0], total)
  {
    hide Percent, Progressed;
    assert reports[0] in reports;
    OneReport(s, reports[0], total);
    if |reports| > 1 { PercentMonotone(reports[0], reports[1], total); }
  }

  // The drawn percentages strictly increase and stay above what is drawn already.
  lemma {:induction false} DrawnIncreases(s: DrawState, reports: seq<int>, total: int)
    requires s.active && 0 < total && Orderly(s, reports, total)
    ensures Increasing(Drawn(s, reports, total))
    ensures forall p | p in Drawn(s, reports, total) :: s.lastPercent < p && 0 <= p <= 100
    decreases |reports|
  {
    hide Progressed, Orderly, Percent;
    if reports != [] {
      OrderlyNext(s, reports, total);
      OneReport(s, reports[0], total);
      var (next, d) := Progressed(s, reports[0], total);
      DrawnIncreases(next, reports[1..], total);
      var rest := Drawn(next, reports[1..], total);
      assert forall i | 0 <= i < |rest| :: rest[i] in rest;
    }
  }

  lemma {:induction false} IncreasingIsShort(s: seq<int>, low: int, high: int)
    requires Increasing(s) && forall p | p in s :: low <= p <= high
    requires low <= high + 1
    ensures |s| <= high - low + 1
  {
    if s != [] {
      assert s[0] in s;
      forall p | p in s[1..] ensures s[0] + 1 <= p <= high {
        var i :| 0 <= i < |s| - 1 && s[1..][i] == p;
        assert p == s[i + 1] && p in s;
      }
      IncreasingIsShort(s[1..], s[0] + 1, high);
    }
  }

  // Between one start and its finish, with one positive total and progress that
  // does not go back, at most 101 bars are drawn, with strictly increasing
  // percentages.
  lemma MigrationDraws(before: DrawState, reports: seq<int>, total: int)
    requires total > 0 && Rising(reports)
    requires forall c | c in reports :: 0 <= c && Min(c, total) <= INT64_MAX / 100
    ensures var drawn := Drawn(Started(before), reports, total);
            Increasing(drawn) && |drawn| <= 101
  {
    if reports != [] {
      assert reports[0] in reports;
      PercentIsShare(reports[0], total);
    }
    assert Orderly(Started(before), reports, total);
    DrawnIncreases(Started(before), reports, total);
    IncreasingIsShort(Drawn(Started(before), reports, total), 0, 100);
  }

  // Reports outside a migration draw nothing.
  lemma {:induction false} NothingWhenInactive(s: DrawState, reports: seq<int>, total: int)
    requires !s.active
    ensures Drawn(s, reports, total) == []
    decreases |reports|
  {
    if reports != [] { NothingWhenInactive(s, reports[1..], total); }
  }

  // The state after a run of reports.
  function AfterReports(s: DrawState, reports: seq<int>, total: int): DrawState
    decreases |reports|
  {
    if reports == [] then s else AfterReports(Progressed(s, reports[0], total).0, reports[1..], total)
  }

  // Once finished, nothing is drawn until the next start; and the line is broken
  // at the finish exactly when a bar was drawn since the start.
  lemma FinishBreaksLine(before: DrawState, reports: seq<int>, total: int, later: seq<int>)
    requires total > 0 && forall c | c in reports :: 0 <= c && Min(c, total) <= INT64_MAX / 100
    ensures var end := AfterReports(Started(before), reports, total);
            && (BreaksLine(end) <==> Drawn(Started(before), reports, total) != [])
            && Drawn(Finished(end), later, total) == []
  {
    LastPercentDrawn(Started(before), reports, total);
    NothingWhenInactive(Finished(AfterReports(Started(before), reports, total)), later, total);
  }

  lemma {:induction false} LastPercentDrawn(s: DrawState, reports: seq<int>, total: int)
    requires s.active && total > 0 && forall c | c in reports :: 0 <= c && Min(c, total) <= INT64_MAX / 100
    ensures BreaksLine(AfterReports(s, reports, total)) <==> BreaksLine(s) || Drawn(s, reports, total) != []
    decreases |reports|
  {
    hide Progressed, Percent;
    if reports != [] {
      assert reports[0] in reports;
      assert forall c | c in reports[1..] :: c in reports;
      OneReport(s, reports[0], total);
      LastPercentDrawn(Progressed(s, reports[0], total).0, reports[1..], total);
    }
  }

  // ----- The shared draw state ----------------------------------------------

  class ConsoleReporter {
    var active: bool
    var lastPercent: int

    function Now(): DrawState
      reads this
    {
      DrawState(active, lastPercent)
    }

    constructor ()
      ensures Now() == IDLE
    {
      active, lastPercent := false, -1;
    }

    method OnStarted()
      modifies this
      ensures Now() == Started(old(Now()))
    {
      active := true;
      lastPercent := -1;
    }

    method OnProgress(current: int, total: int) returns (drawing: Drawing)
      modifies this
      ensures (Now(), drawing) == Progressed(old(Now()), current, total)
    {
      if !active || total <= 0 {
        return Nothing;
      }
      var product := (if current < total then current else total) * 100;
      if product < INT64_MIN || product > INT64_MAX {
        return Undefined;
      }
      var percent := TruncDiv(product, total);
      if percent < INT32_MIN {
        return Undefined;
      }
      if percent == lastPercent {
        return Nothing;
      }
      if percent * BAR_WIDTH < INT32_MIN {
        return Undefined;
      }
      var filled := TruncDiv(percent * BAR_WIDTH, 100);
      if filled < 0 {
        return Undefined;
      }
      PercentAtMost100(current, total);
      lastPercent := percent;
      drawing := Bar(percent, filled, BAR_WIDTH - filled);
    }

    method OnFinished() returns (newline: bool)
      modifies this
      ensures newline == BreaksLine(old(Now())) && Now() == Finished(old(Now()))
    {
      newline := lastPercent >= 0;
      active := false;
    }
  }
}

/** The accuracy-over-time chart (src/components/stats/AccuracyTrendChart.tsx):
    the records grouped by calendar day, each day's rounded accuracy, and the
    days in date order. `dayOf` maps a timestamp to its day, numbered so that
    later days are larger; the calendar and time-zone rules behind it are not
    modelled. */
module AccuracyTrend {
  import opened Types
  import opened Seqs
  import opened Percent

  function DayKey(dayOf: int -> int, r: AnswerRecord): int {
    dayOf(r.timestamp)
  }

  /** The number of records on day `d`. */
  function DayTotal(history: seq<AnswerRecord>, dayOf: int -> int, d: int): nat {
    if history == [] then 0
    else
      var last := history[|history| - 1];
      DayTotal(history[..|history| - 1], dayOf, d) + (if DayKey(dayOf, last) == d then 1 else 0)
  }

  /** The number of correct records on day `d`. */
  function DayCorrect(history: seq<AnswerRecord>, dayOf: int -> int, d: int): (r: nat)
    ensures r <= DayTotal(history, dayOf, d)
  {
    if history == [] then 0
    else
      var last := history[|history| - 1];
      DayCorrect(history[..|history| - 1], dayOf, d) + (if DayKey(dayOf, last) == d && last.correct then 1 else 0)
  }

  /** The days that have records, in order of their first record (the order
      in which the accumulator gains its keys). */
  function DaysSeen(history: seq<AnswerRecord>, dayOf: int -> int): (r: seq<int>)
    ensures NoDuplicates(r)
    ensures forall d :: d in r <==> DayTotal(history, dayOf, d) > 0
  {
    if history == [] then []
    else
      var init := history[..|history| - 1];
      var d := DayKey(dayOf, history[|history| - 1]);
      var seen := DaysSeen(init, dayOf);
      if d in seen then seen else seen + [d]
  }

  /** A day has records exactly when some record falls on it. */
  lemma {:induction false} DayTotalPositive(history: seq<AnswerRecord>, dayOf: int -> int, d: int)
    ensures DayTotal(history, dayOf, d) > 0 <==> exists i :: 0 <= i < |history| && DayKey(dayOf, history[i]) == d
    decreases |history|
  {
    if history != [] {
      var init := history[..|history| - 1];
      DayTotalPositive(init, dayOf, d);
      if exists i :: 0 <= i < |history| && DayKey(dayOf, history[i]) == d {
        var i :| 0 <= i < |history| && DayKey(dayOf, history[i]) == d;
        if i < |init| {
          assert init[i] == history[i];
        }
      }
      if exists i :: 0 <= i < |init| && DayKey(dayOf, init[i]) == d {
        var i :| 0 <= i < |init| && DayKey(dayOf, init[i]) == d;
        assert history[i] == init[i];
      }
    }
  }

  datatype Point = Point(day: int, accuracy: nat)

  predicate StrictlySorted(s: seq<Point>) {
    forall i, j :: 0 <= i < j < |s| ==> s[i].day < s[j].day
  }

  /** Insert into a list sorted by day. */
  function Insert(p: Point, s: seq<Point>): (r: seq<Point>)
    ensures |r| == |s| + 1
    ensures multiset(r) == multiset(s) + multiset{p}
  {
    if s == [] || p.day <= s[0].day then [p] + s
    else
      assert s == [s[0]] + s[1..];
      [s[0]] + Insert(p, s[1..])
  }

  /** A point before every day of a strictly sorted list may lead it. */
  lemma ConsSorted(x: Point, s: seq<Point>)
    requires StrictlySorted(s) && forall q :: q in s ==> x.day < q.day
    ensures StrictlySorted([x] + s)
  {
    var r := [x] + s;
    forall i, j | 0 <= i < j < |r| ensures r[i].day < r[j].day {
      assert r[j] == s[j - 1];
      if i > 0 {
        assert r[i] == s[i - 1];
      }
    }
  }

  /** The tail of a strictly sorted list is strictly sorted and after its head. */
  lemma SortedTail(s: seq<Point>)
    requires s != [] && StrictlySorted(s)
    ensures StrictlySorted(s[1..])
    ensures forall q :: q in s ==> s[0].day <= q.day
    ensures forall q :: q in s[1..] ==> s[0].day < q.day
  {
    var tail := s[1..];
    forall i, j | 0 <= i < j < |tail| ensures tail[i].day < tail[j].day {
      assert tail[i] == s[i + 1] && tail[j] == s[j + 1];
    }
    forall q | q in tail ensures s[0].day < q.day {
      var k :| 0 <= k < |tail| && tail[k] == q;
      assert tail[k] == s[k + 1];
    }
  }

  /** Inserting a point with a new day into a strictly sorted list keeps it
      strictly sorted. */
  lemma {:induction false} InsertSorted(p: Point, s: seq<Point>)
    requires StrictlySorted(s) && forall q :: q in s ==> q.day != p.day
    ensures StrictlySorted(Insert(p, s))
    decreases |s|
  {
    if s == [] {
      assert Insert(p, s) == [p];
    } else if p.day <= s[0].day {
      SortedTail(s);
      assert s[0] in s;
      ConsSorted(p, s);
    } else {
      SortedTail(s);
      var tail := s[1..];
      InsertSorted(p, tail);
      var rest := Insert(p, tail);
      forall q | q in rest ensures s[0].day < q.day {
        assert q in multiset(rest);
        if q != p {
          assert q in multiset(tail);
        }
      }
      ConsSorted(s[0], rest);
    }
  }

  /** The `sort` by date: an insertion sort. */
  function SortByDay(s: seq<Point>): (r: seq<Point>)
    ensures multiset(r) == multiset(s)
  {
    if s == [] then []
    else
      assert s == [s[0]] + s[1..];
      Insert(s[0], SortByDay(s[1..]))
  }

  /** The sort keeps exactly the points it is given. */
  lemma SortByDayMembers(s: seq<Point>, x: Point)
    ensures x in SortByDay(s) <==> x in s
  {
    assert x in SortByDay(s) <==> x in multiset(SortByDay(s));
    assert x in s <==> x in multiset(s);
  }

  /** Points with distinct days come out strictly sorted by day. */
  lemma {:induction false} SortByDaySorted(s: seq<Point>)
    requires forall i, j :: 0 <= i < j < |s| ==> s[i].day != s[j].day
    ensures StrictlySorted(SortByDay(s))
    decreases |s|
  {
    if s != [] {
      var tail := s[1..];
      assert forall i, j :: 0 <= i < j < |tail| ==> tail[i].day != tail[j].day by {
        assert forall i :: 0 <= i < |tail| ==> tail[i] == s[i + 1];
      }
      SortByDaySorted(tail);
      var sorted := SortByDay(tail);
      forall q | q in sorted ensures q.day != s[0].day {
        SortByDayMembers(tail, q);
        var k :| 0 <= k < |tail| && tail[k] == q;
        assert tail[k] == s[k + 1];
      }
      InsertSorted(s[0], sorted);
    }
  }

  /** One point per listed day, in the list's order. */
  function PointsOf(days: seq<int>, history: seq<AnswerRecord>, dayOf: int -> int): (r: seq<Point>)
    requires forall d :: d in days ==> DayTotal(history, dayOf, d) > 0
    ensures |r| == |days| && forall k :: 0 <= k < |days| ==> r[k].day == days[k]
  {
    seq(|days|, k requires 0 <= k < |days| =>
      Point(days[k], RoundPercent(DayCorrect(history, dayOf, days[k]), DayTotal(history, dayOf, days[k]))))
  }

  /** The chart's data. */
  function Trend(history: seq<AnswerRecord>, dayOf: int -> int): seq<Point> {
    SortByDay(PointsOf(DaysSeen(history, dayOf), history, dayOf))
  }

  function DaysOfPoints(s: seq<Point>): set<int> {
    set p | p in s :: p.day
  }

  function DaysOfRecords(history: seq<AnswerRecord>, dayOf: int -> int): set<int> {
    set r | r in history :: DayKey(dayOf, r)
  }

  lemma DaysSeenAreRecordDays(history: seq<AnswerRecord>, dayOf: int -> int)
    ensures forall d :: d in DaysSeen(history, dayOf) <==> d in DaysOfRecords(history, dayOf)
  {
    forall d ensures d in DaysSeen(history, dayOf) <==> d in DaysOfRecords(history, dayOf) {
      DayTotalPositive(history, dayOf, d);
      if d in DaysOfRecords(history, dayOf) {
        var r :| r in history && DayKey(dayOf, r) == d;
        var i :| 0 <= i < |history| && history[i] == r;
      }
    }
  }

  /** The trend has one point per day seen. */
  lemma TrendLength(history: seq<AnswerRecord>, dayOf: int -> int)
    ensures |Trend(history, dayOf)| == |DaysSeen(history, dayOf)|
  {
    var pts := PointsOf(DaysSeen(history, dayOf), history, dayOf);
    assert |multiset(Trend(history, dayOf))| == |multiset(pts)|;
  }

  /** The trend is strictly increasing in the day. */
  lemma TrendSorted(history: seq<AnswerRecord>, dayOf: int -> int)
    ensures StrictlySorted(Trend(history, dayOf))
  {
    var days := DaysSeen(history, dayOf);
    var pts := PointsOf(days, history, dayOf);
    assert forall i, j :: 0 <= i < j < |pts| ==> pts[i].day != pts[j].day by {
      assert forall i :: 0 <= i < |pts| ==> pts[i].day == days[i];
    }
    SortByDaySorted(pts);
  }

  /** The trend's days are exactly the days of the records. */
  lemma TrendDaySet(history: seq<AnswerRecord>, dayOf: int -> int)
    ensures DaysOfPoints(Trend(history, dayOf)) == DaysOfRecords(history, dayOf)
  {
    var days := DaysSeen(history, dayOf);
    var pts := PointsOf(days, history, dayOf);
    var t := Trend(history, dayOf);
    DaysSeenAreRecordDays(history, dayOf);
    forall d | d in DaysOfPoints(t) ensures d in DaysOfRecords(history, dayOf) {
      var p :| p in t && p.day == d;
      SortByDayMembers(pts, p);
      var k :| 0 <= k < |pts| && pts[k] == p;
    }
    forall d | d in DaysOfRecords(history, dayOf) ensures d in DaysOfPoints(t) {
      var k :| 0 <= k < |days| && days[k] == d;
      SortByDayMembers(pts, pts[k]);
    }
  }

  /** One point per day with records and no other, in strictly increasing day
      order. */
  lemma TrendDays(history: seq<AnswerRecord>, dayOf: int -> int)
    ensures var t := Trend(history, dayOf);
      && |t| == |DaysSeen(history, dayOf)|
      && StrictlySorted(t)
      && DaysOfPoints(t) == DaysOfRecords(history, dayOf)
  {
    TrendLength(history, dayOf);
    TrendSorted(history, dayOf);
    TrendDaySet(history, dayOf);
  }

  /** Each point carries its day's rounded accuracy, from at least one
      record. */
  lemma TrendAccuracy(history: seq<AnswerRecord>, dayOf: int -> int, p: Point)
    requires p in Trend(history, dayOf)
    ensures DayTotal(history, dayOf, p.day) >= 1
    ensures p.accuracy == RoundPercent(DayCorrect(history, dayOf, p.day), DayTotal(history, dayOf, p.day))
    ensures p.accuracy <= 100
  {
    var pts := PointsOf(DaysSeen(history, dayOf), history, dayOf);
    SortByDayMembers(pts, p);
    assert p in pts;
  }

  /** The summed day totals over the listed days. */
  function SumTotals(days: seq<int>, history: seq<AnswerRecord>, dayOf: int -> int): nat {
    if days == [] then 0
    else SumTotals(days[..|days| - 1], history, dayOf) + DayTotal(history, dayOf, days[|days| - 1])
  }

  lemma DayTotalSnoc(history: seq<AnswerRecord>, r: AnswerRecord, dayOf: int -> int, d: int)
    ensures DayTotal(history + [r], dayOf, d) == DayTotal(history, dayOf, d) + (if DayKey(dayOf, r) == d then 1 else 0)
  {
    assert (history + [r])[..|history|] == history;
  }

  /** One more record adds one to the sum over distinct days that include its
      day, and nothing otherwise. */
  lemma {:induction false} SumTotalsSnoc(days: seq<int>, history: seq<AnswerRecord>, r: AnswerRecord, dayOf: int -> int)
    requires NoDuplicates(days)
    ensures SumTotals(days, history + [r], dayOf)
         == SumTotals(days, history, dayOf) + (if DayKey(dayOf, r) in days then 1 else 0)
    decreases |days|
  {
    if days != [] {
      var init := days[..|days| - 1];
      var e := days[|days| - 1];
      assert days == init + [e];
      assert NoDuplicates(init) by {
        forall i, j | 0 <= i < j < |init| ensures init[i] != init[j] {
          assert init[i] == days[i] && init[j] == days[j];
        }
      }
      assert e !in init;
      SumTotalsSnoc(init, history, r, dayOf);
      DayTotalSnoc(history, r, dayOf, e);
    }
  }

  /** Every record is counted on exactly one day: the day totals add up to
      the length of the history. */
  lemma {:induction false} TotalsCoverHistory(history: seq<AnswerRecord>, dayOf: int -> int)
    ensures SumTotals(DaysSeen(history, dayOf), history, dayOf) == |history|
    decreases |history|
  {
    if history != [] {
      var init := history[..|history| - 1];
      var r := history[|history| - 1];
      assert history == init + [r];
      var d := DayKey(dayOf, r);
      var seen := DaysSeen(init, dayOf);
      TotalsCoverHistory(init, dayOf);
      SumTotalsSnoc(seen, init, r, dayOf);
      if d !in seen {
        assert DaysSeen(history, dayOf) == seen + [d];
        assert (seen + [d])[..|seen|] == seen;
        DayTotalSnoc(init, r, dayOf, d);
      }
    }
  }

  /** The chart is drawn only with two days or more; otherwise the
      placeholder shows. */
  predicate ShowsChart(points: seq<Point>) {
    |points| >= 2
  }

  /** The chart shows exactly when two records fall on different days. */
  lemma ShowsChartIffTwoDays(history: seq<AnswerRecord>, dayOf: int -> int)
    ensures ShowsChart(Trend(history, dayOf)) <==>
      exists i, j :: 0 <= i < |history| && 0 <= j < |history| && DayKey(dayOf, history[i]) != DayKey(dayOf, history[j])
  {
    TrendDays(history, dayOf);
    var days := DaysSeen(history, dayOf);
    if |days| >= 2 {
      DayTotalPositive(history, dayOf, days[0]);
      DayTotalPositive(history, dayOf, days[1]);
      var i :| 0 <= i < |history| && DayKey(dayOf, history[i]) == days[0];
      var j :| 0 <= j < |history| && DayKey(dayOf, history[j]) == days[1];
    }
    if exists i, j :: 0 <= i < |history| && 0 <= j < |history| && DayKey(dayOf, history[i]) != DayKey(dayOf, history[j]) {
      var i, j :| 0 <= i < |history| && 0 <= j < |history| && DayKey(dayOf, history[i]) != DayKey(dayOf, history[j]);
      DayTotalPositive(history, dayOf, DayKey(dayOf, history[i]));
      DayTotalPositive(history, dayOf, DayKey(dayOf, history[j]));
      assert DayKey(dayOf, history[i]) in days && DayKey(dayOf, history[j]) in days;
    }
  }

  /** `dailyStats`: the accumulator's tally per day and its keys in the
      order they were added. */
  ghost predicate DailyOf(order: seq<int>, stats: map<int, (nat, nat)>, records: seq<AnswerRecord>, dayOf: int -> int) {
    && order == DaysSeen(records, dayOf)
    && (forall d :: d in stats <==> d in order)
    && (forall d :: d in stats ==> stats[d] == (DayCorrect(records, dayOf, d), DayTotal(records, dayOf, d)))
  }

  lemma DayCountsSnoc(history: seq<AnswerRecord>, r: AnswerRecord, dayOf: int -> int, d: int)
    ensures DayCorrect(history + [r], dayOf, d)
         == DayCorrect(history, dayOf, d) + (if DayKey(dayOf, r) == d && r.correct then 1 else 0)
    ensures DayTotal(history + [r], dayOf, d) == DayTotal(history, dayOf, d) + (if DayKey(dayOf, r) == d then 1 else 0)
  {
    assert (history + [r])[..|history|] == history;
  }

  lemma DailyOne(order: seq<int>, stats: map<int, (nat, nat)>, records: seq<AnswerRecord>,
                 r: AnswerRecord, dayOf: int -> int, tally: (nat, nat))
    requires DailyOf(order, stats, records, dayOf)
    requires tally == (var t := if DayKey(dayOf, r) in stats then stats[DayKey(dayOf, r)] else (0, 0);
                       (if r.correct then t.0 + 1 else t.0, t.1 + 1))
    ensures DailyOf(if DayKey(dayOf, r) in stats then order else order + [DayKey(dayOf, r)],
                    stats[DayKey(dayOf, r) := tally], records + [r], dayOf)
  {
    var key := DayKey(dayOf, r);
    var order' := if key in stats then order else order + [key];
    var stats' := stats[key := tally];
    var rs := records + [r];
    assert key in stats <==> key in order;
    DaysSeenSnoc(records, r, dayOf);
    assert order' == DaysSeen(rs, dayOf);
    forall d ensures d in stats' <==> d in order' {
      assert d in stats' <==> d == key || d in stats;
      assert d in order' <==> d == key || d in order;
    }
    forall d | d in stats' ensures stats'[d] == (DayCorrect(rs, dayOf, d), DayTotal(rs, dayOf, d)) {
      DayCountsSnoc(records, r, dayOf, d);
    }
  }

  lemma DaysSeenSnoc(records: seq<AnswerRecord>, r: AnswerRecord, dayOf: int -> int)
    ensures var key := DayKey(dayOf, r);
      var seen := DaysSeen(records, dayOf);
      DaysSeen(records + [r], dayOf) == if key in seen then seen else seen + [key]
  {
    var rs := records + [r];
    assert rs[..|records|] == records && rs[|rs| - 1] == r;
  }

  /** The `reduce` that fills the accumulator. */
  method DailyStats(history: seq<AnswerRecord>, dayOf: int -> int)
    returns (order: seq<int>, stats: map<int, (nat, nat)>)
    ensures DailyOf(order, stats, history, dayOf)
  {
    order := [];
    stats := map[];
    var i := 0;
    while i < |history|
      invariant 0 <= i <= |history|
      invariant DailyOf(order, stats, history[..i], dayOf)
    {
      var record := history[i];
      assert history[..i + 1] == history[..i] + [record];
      var date := dayOf(record.timestamp);
      ghost var before := stats;
      ghost var beforeOrder := order;
      if date !in stats {
        stats := stats[date := (0, 0)];
        order := order + [date];
      }
      var day := stats[date];
      day := (day.0, day.1 + 1);
      if record.correct {
        day := (day.0 + 1, day.1);
      }
      DailyOne(beforeOrder, before, history[..i], record, dayOf, day);
      stats := stats[date := day];
      assert stats == before[date := day];
      i := i + 1;
    }
    assert history[..i] == history;
  }

  /** The chart data: the accumulator's values, each turned into a rounded
      accuracy, sorted by date. */
  method AccuracyData(history: seq<AnswerRecord>, dayOf: int -> int) returns (data: seq<Point>)
    ensures data == Trend(history, dayOf)
  {
    var order, stats := DailyStats(history, dayOf);
    forall k | 0 <= k < |order|
      ensures order[k] in stats && 0 < stats[order[k]].1 && stats[order[k]].0 <= stats[order[k]].1
    {
      var d := order[k];
      assert d in DaysSeen(history, dayOf);
      assert stats[d] == (DayCorrect(history, dayOf, d), DayTotal(history, dayOf, d));
    }
    var points := seq(|order|, k requires 0 <= k < |order| =>
      Point(order[k], RoundPercent(stats[order[k]].0, stats[order[k]].1)));
    assert points == PointsOf(DaysSeen(history, dayOf), history, dayOf);
    data := SortByDay(points);
  }
}

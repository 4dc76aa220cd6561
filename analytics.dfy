/** `get_today_analytics`: today's behavioural averages with their fallbacks,
    three constants, and the completed/total task counts. REAL values are
    integers in this model, so an average is an exact quotient. */
module Analytics {
  import opened Json
  import opened Sql
  import opened Records
  import Queries

  const SecondsPerDay: nat := 86400

  /** The fallbacks used when an average is NULL or 0, and the constants. */
  const DefaultTypingSpeed: int := 68
  const DefaultMouseActivity: int := 142
  const DefaultFocusTenths: int := 82   // 8.2
  const FlowSessions: nat := 3
  const BreaksTaken: nat := 5
  const AvgMoodTenths: nat := 78         // 7.8

  /** The focus score of the snapshot: the fallback 8.2, or the mean of the
      scores (`sum / count`, rounded to one decimal by the source). */
  datatype Focus = DefaultFocus | MeanFocus(sum: int, count: nat)

  datatype Snapshot = Snapshot(typingSpeed: int, mouseActivity: int, focusScore: Focus,
                               flowSessions: nat, breaksTaken: nat, avgMoodTenths: nat,
                               tasksCompleted: nat, totalTasks: nat)

  /** `DATE(timestamp) = DATE('now')`, with `today` the day number of now. */
  predicate OnDay(s: Row<Sample>, today: nat) {
    s.cols.timestamp / SecondsPerDay == today
  }

  /** `WHERE user_id = 'default-user' AND DATE(timestamp) = DATE('now')` */
  function TodaySamples(t: seq<Row<Sample>>, today: nat): (r: seq<Row<Sample>>)
    ensures |r| <= |t|
    ensures forall i :: 0 <= i < |r| ==> r[i] in t && r[i].userId == DefaultUser && OnDay(r[i], today)
  {
    if t == [] then []
    else (if t[0].userId == DefaultUser && OnDay(t[0], today) then [t[0]] else []) + TodaySamples(t[1..], today)
  }

  lemma {:induction false} TodaySamplesSpec(t: seq<Row<Sample>>, today: nat, x: Row<Sample>)
    ensures x in TodaySamples(t, today) <==> x in t && x.userId == DefaultUser && OnDay(x, today)
    decreases |t|
  {
    if t != [] {
      TodaySamplesSpec(t[1..], today, x);
      assert t == [t[0]] + t[1..];
    }
  }

  /** The numeric value AVG sees: NULL is skipped, text that is not a number counts as 0. */
  function Numeric(c: Cell): (r: Option<int>)
    ensures r.None? <==> c.Null?
    ensures c.Int? ==> r == Some(c.i)
  {
    match c
    case Null => None
    case Int(i) => Some(i)
    case Text(_) => Some(0)
  }

  /** The non-NULL values of one column, in row order. */
  function Values(cs: seq<Cell>): (r: seq<int>)
    ensures |r| <= |cs|
    ensures (forall i :: 0 <= i < |cs| ==> cs[i] != Null) ==> |r| == |cs|
    ensures (forall i :: 0 <= i < |cs| ==> cs[i] == Null) ==> r == []
  {
    if cs == [] then []
    else (match Numeric(cs[0]) case None => [] case Some(v) => [v]) + Values(cs[1..])
  }

  /** The values of `cs` followed by one more cell: the cell adds its number
      unless it is NULL. */
  lemma {:induction false} ValuesAppend(cs: seq<Cell>, c: Cell)
    ensures Values(cs + [c]) == Values(cs) + (match Numeric(c) case None => [] case Some(v) => [v])
    decreases |cs|
  {
    if cs == [] {
      assert [c][1..] == [];
    } else {
      ValuesAppend(cs[1..], c);
      assert (cs + [c])[1..] == cs[1..] + [c];
    }
  }

  function Sum(vs: seq<int>): int {
    if vs == [] then 0 else vs[0] + Sum(vs[1..])
  }

  /** Python's `int()` of a quotient: division truncating toward zero. */
  function TruncDiv(a: int, b: nat): (q: int)
    requires b > 0
    ensures a >= 0 ==> q * b <= a < q * b + b
    ensures a < 0 ==> q * b - b < a <= q * b
  {
    if a >= 0 then a / b else -((-a) / b)
  }

  /** `int(AVG(col) or fallback)`: AVG is NULL when no value is present, and
      an average of 0 is falsy too. */
  function AverageOr(vs: seq<int>, fallback: int): (r: int)
    ensures vs == [] || Sum(vs) == 0 ==> r == fallback
    ensures vs != [] && Sum(vs) > 0 ==> r * |vs| <= Sum(vs) < r * |vs| + |vs|
    ensures vs != [] && Sum(vs) < 0 ==> r * |vs| - |vs| < Sum(vs) <= r * |vs|
  {
    if vs == [] || Sum(vs) == 0 then fallback else TruncDiv(Sum(vs), |vs|)
  }

  /** `round(AVG(focus_score) or 8.2, 1)`, without the rounding. */
  function FocusOf(vs: seq<int>): (r: Focus)
    ensures vs == [] || Sum(vs) == 0 ==> r == DefaultFocus
    ensures vs != [] && Sum(vs) != 0 ==> r == MeanFocus(Sum(vs), |vs|)
  {
    if vs == [] || Sum(vs) == 0 then DefaultFocus else MeanFocus(Sum(vs), |vs|)
  }

  function TypingColumn(t: seq<Row<Sample>>): (r: seq<Cell>)
    ensures |r| == |t| && forall i :: 0 <= i < |t| ==> r[i] == t[i].cols.typingSpeed
  {
    if t == [] then [] else [t[0].cols.typingSpeed] + TypingColumn(t[1..])
  }

  function MouseColumn(t: seq<Row<Sample>>): (r: seq<Cell>)
    ensures |r| == |t| && forall i :: 0 <= i < |t| ==> r[i] == t[i].cols.mouseActivity
  {
    if t == [] then [] else [t[0].cols.mouseActivity] + MouseColumn(t[1..])
  }

  function FocusColumn(t: seq<Row<Sample>>): (r: seq<Cell>)
    ensures |r| == |t| && forall i :: 0 <= i < |t| ==> r[i] == t[i].cols.focusScore
  {
    if t == [] then [] else [t[0].cols.focusScore] + FocusColumn(t[1..])
  }

  /** `SUM(CASE WHEN completed = 'true' THEN 1 ELSE 0 END)`, 0 when there are no rows. */
  function CompletedCount(t: seq<Row<Task>>): (n: nat)
    ensures n <= |t|
  {
    if t == [] then 0 else (if t[0].cols.completed == Text("true") then 1 else 0) + CompletedCount(t[1..])
  }

  /** The snapshot, for the tables as they are and today's day number. */
  function TodayAnalytics(samples: seq<Row<Sample>>, tasks: seq<Row<Task>>, today: nat): (r: Snapshot)
    ensures r.tasksCompleted <= r.totalTasks <= |tasks|
    ensures TodaySamples(samples, today) == [] ==>
      r.typingSpeed == DefaultTypingSpeed && r.mouseActivity == DefaultMouseActivity && r.focusScore == DefaultFocus
  {
    var rows := TodaySamples(samples, today);
    var owned := OwnedBy(tasks, DefaultUser);
    Snapshot(AverageOr(Values(TypingColumn(rows)), DefaultTypingSpeed),
             AverageOr(Values(MouseColumn(rows)), DefaultMouseActivity),
             FocusOf(Values(FocusColumn(rows))),
             FlowSessions, BreaksTaken, AvgMoodTenths,
             CompletedCount(owned), |owned|)
  }

  // ---------------------------------------------------------------- properties

  /** The counts of tasks: every completed task is counted in the total, and the
      fixed fields are 3, 5 and 7.8. */
  lemma TodayAnalyticsCounts(samples: seq<Row<Sample>>, tasks: seq<Row<Task>>, today: nat)
    ensures var a := TodayAnalytics(samples, tasks, today);
      && a.tasksCompleted <= a.totalTasks
      && a.totalTasks == |OwnedBy(tasks, DefaultUser)|
      && a.tasksCompleted == CompletedCount(OwnedBy(tasks, DefaultUser))
      && a.flowSessions == 3 && a.breaksTaken == 5 && a.avgMoodTenths == 78
  {
  }

  /** The three averages are taken over the non-NULL readings of the default
      user's samples dated today, with their fallbacks. */
  lemma TodayAnalyticsAverages(samples: seq<Row<Sample>>, tasks: seq<Row<Task>>, today: nat)
    ensures var a := TodayAnalytics(samples, tasks, today);
      var rows := TodaySamples(samples, today);
      && a.typingSpeed == AverageOr(Values(TypingColumn(rows)), DefaultTypingSpeed)
      && a.mouseActivity == AverageOr(Values(MouseColumn(rows)), DefaultMouseActivity)
      && a.focusScore == FocusOf(Values(FocusColumn(rows)))
  {
  }

  /** Two samples recorded today, one without typing and focus readings:
      the averages skip the NULLs, and 301 / 2 is truncated to 150. */
  lemma TodayReadingsExample(s1: Row<Sample>, s2: Row<Sample>, tasks: seq<Row<Task>>, today: nat)
    requires s1.userId == DefaultUser && OnDay(s1, today)
    requires s2.userId == DefaultUser && OnDay(s2, today)
    requires s1.cols.typingSpeed == Int(70) && s1.cols.mouseActivity == Int(150) && s1.cols.focusScore == Int(9)
    requires s2.cols.typingSpeed == Null && s2.cols.mouseActivity == Int(151) && s2.cols.focusScore == Null
    ensures TodayAnalytics([s1, s2], tasks, today).typingSpeed == 70
    ensures TodayAnalytics([s1, s2], tasks, today).mouseActivity == 150
    ensures TodayAnalytics([s1, s2], tasks, today).focusScore == MeanFocus(9, 1)
  {
    TodaySamplesPair(s1, s2, today);
    ExampleValues(s1, s2);
    TodayAnalyticsAverages([s1, s2], tasks, today);
    ExampleAverages();
  }

  lemma ExampleValues(s1: Row<Sample>, s2: Row<Sample>)
    requires s1.cols.typingSpeed == Int(70) && s1.cols.mouseActivity == Int(150) && s1.cols.focusScore == Int(9)
    requires s2.cols.typingSpeed == Null && s2.cols.mouseActivity == Int(151) && s2.cols.focusScore == Null
    ensures Values(TypingColumn([s1, s2])) == [70]
    ensures Values(MouseColumn([s1, s2])) == [150, 151]
    ensures Values(FocusColumn([s1, s2])) == [9]
  {
    ColumnsPair(s1, s2);
    ValuesPair(Int(70), Null);
    ValuesPair(Int(150), Int(151));
    ValuesPair(Int(9), Null);
  }

  lemma ExampleAverages()
    ensures AverageOr([150, 151], DefaultMouseActivity) == 150
    ensures AverageOr([70], DefaultTypingSpeed) == 70
    ensures FocusOf([9]) == MeanFocus(9, 1)
  {
    assert [150, 151][1..] == [151];
    assert Sum([150, 151]) == 301;
  }

  lemma TodaySamplesPair(s1: Row<Sample>, s2: Row<Sample>, today: nat)
    requires s1.userId == DefaultUser && OnDay(s1, today)
    requires s2.userId == DefaultUser && OnDay(s2, today)
    ensures TodaySamples([s1, s2], today) == [s1, s2]
  {
    assert [s1, s2][1..] == [s2];
    assert [s2][1..] == [];
  }

  lemma ColumnsPair(s1: Row<Sample>, s2: Row<Sample>)
    ensures TypingColumn([s1, s2]) == [s1.cols.typingSpeed, s2.cols.typingSpeed]
    ensures MouseColumn([s1, s2]) == [s1.cols.mouseActivity, s2.cols.mouseActivity]
    ensures FocusColumn([s1, s2]) == [s1.cols.focusScore, s2.cols.focusScore]
  {
  }

  lemma ValuesPair(a: Cell, b: Cell)
    ensures Values([a, b]) == (match Numeric(a) case None => [] case Some(v) => [v])
                              + (match Numeric(b) case None => [] case Some(v) => [v])
  {
    assert [a, b][1..] == [b];
    assert [b][1..] == [];
  }

  /** One completed task out of three owned ones is counted as 1 of 3. */
  lemma OneOfThreeCompleted(samples: seq<Row<Sample>>, x: Row<Task>, y: Row<Task>, z: Row<Task>, today: nat)
    requires x.userId == DefaultUser && y.userId == DefaultUser && z.userId == DefaultUser
    requires x.cols.completed == Text("true")
    requires y.cols.completed == Text("false") && z.cols.completed == Null
    ensures TodayAnalytics(samples, [x, y, z], today).tasksCompleted == 1
    ensures TodayAnalytics(samples, [x, y, z], today).totalTasks == 3
  {
    Queries.ListOwnedAll([x, y, z]);
    assert [x, y, z][1..] == [y, z];
    assert [y, z][1..] == [z];
    assert [z][1..] == [];
    assert CompletedCount([z]) == 0;
    assert CompletedCount([y, z]) == 0;
  }

  /** With no tasks both counts are 0; with no sample recorded today every
      average takes its fallback. */
  lemma TodayAnalyticsEmpty(samples: seq<Row<Sample>>, today: nat)
    requires forall i :: 0 <= i < |samples| ==> !(samples[i].userId == DefaultUser && OnDay(samples[i], today))
    ensures TodayAnalytics(samples, [], today) ==
      Snapshot(68, 142, DefaultFocus, 3, 5, 78, 0, 0)
  {
    TodaySamplesNone(samples, today);
  }

  /** With no sample recorded today every average takes its fallback,
      whatever the tasks. */
  lemma TodayAnalyticsFallbacks(samples: seq<Row<Sample>>, tasks: seq<Row<Task>>, today: nat)
    requires forall i :: 0 <= i < |samples| ==> !(samples[i].userId == DefaultUser && OnDay(samples[i], today))
    ensures TodayAnalytics(samples, tasks, today).typingSpeed == 68
    ensures TodayAnalytics(samples, tasks, today).mouseActivity == 142
    ensures TodayAnalytics(samples, tasks, today).focusScore == DefaultFocus
  {
    TodaySamplesNone(samples, today);
  }

  lemma {:induction false} TodaySamplesNone(t: seq<Row<Sample>>, today: nat)
    requires forall i :: 0 <= i < |t| ==> !(t[i].userId == DefaultUser && OnDay(t[i], today))
    ensures TodaySamples(t, today) == []
    decreases |t|
  {
    if t != [] {
      assert forall i :: 0 <= i < |t| - 1 ==> t[1..][i] == t[i + 1];
      TodaySamplesNone(t[1..], today);
    }
  }

  lemma {:induction false} TodaySamplesAppend(t: seq<Row<Sample>>, today: nat, x: Row<Sample>)
    ensures TodaySamples(t + [x], today) ==
      TodaySamples(t, today) + (if x.userId == DefaultUser && OnDay(x, today) then [x] else [])
    decreases |t|
  {
    if t != [] {
      TodaySamplesAppend(t[1..], today, x);
      assert (t + [x])[1..] == t[1..] + [x];
    } else {
      assert [x][1..] == [];
    }
  }

  /** A sample of another user or another day does not change the snapshot. */
  lemma AnalyticsIgnoresOtherRows(samples: seq<Row<Sample>>, tasks: seq<Row<Task>>, today: nat, x: Row<Sample>)
    requires x.userId != DefaultUser || !OnDay(x, today)
    ensures TodayAnalytics(samples + [x], tasks, today) == TodayAnalytics(samples, tasks, today)
  {
    TodaySamplesAppend(samples, today, x);
    var r := TodaySamples(samples, today);
    assert r + [] == r;
    assert TodaySamples(samples + [x], today) == r;
  }

  /** `tasksCompleted` is 0 exactly when no row's `completed` is the text
      'true', and equals the row count exactly when every row's is. */
  lemma {:induction false} CompletedCountExtremes(t: seq<Row<Task>>)
    ensures CompletedCount(t) == 0 <==> forall i :: 0 <= i < |t| ==> t[i].cols.completed != Text("true")
    ensures CompletedCount(t) == |t| <==> forall i :: 0 <= i < |t| ==> t[i].cols.completed == Text("true")
    decreases |t|
  {
    if t != [] {
      CompletedCountExtremes(t[1..]);
      assert forall i :: 0 <= i < |t| - 1 ==> t[1..][i] == t[i + 1];
    }
  }

  function CompletedBit(r: Row<Task>): nat {
    if r.cols.completed == Text("true") then 1 else 0
  }

  /** Replacing one row changes the completed count by that row's contribution. */
  lemma {:induction false} CompletedCountUpdate(t: seq<Row<Task>>, k: nat, r: Row<Task>)
    requires k < |t|
    ensures CompletedCount(t[k := r]) + CompletedBit(t[k]) == CompletedCount(t) + CompletedBit(r)
    decreases |t|
  {
    if k > 0 {
      CompletedCountUpdate(t[1..], k - 1, r);
      assert t[k := r][1..] == t[1..][k - 1 := r];
    } else {
      assert t[k := r][1..] == t[1..];
    }
  }

  lemma {:induction false} SumBounds(vs: seq<int>, lo: int, hi: int)
    requires forall i :: 0 <= i < |vs| ==> lo <= vs[i] <= hi
    ensures |vs| * lo <= Sum(vs) <= |vs| * hi
    decreases |vs|
  {
    if vs != [] {
      assert forall i :: 0 <= i < |vs| - 1 ==> vs[1..][i] == vs[i + 1];
      SumBounds(vs[1..], lo, hi);
    }
  }

  lemma MulLe(a: int, b: int, n: nat)
    requires a <= b
    ensures a * n <= b * n
  {
  }

  lemma Distrib(q: int, n: int)
    ensures (q + 1) * n == q * n + n
    ensures (q - 1) * n == q * n - n
  {
  }

  /** A truncated quotient of a sum of `n` values each in [lo, hi] is in [lo, hi]. */
  lemma TruncDivBounds(a: int, n: nat, lo: int, hi: int)
    requires n > 0 && n * lo <= a <= n * hi
    ensures lo <= TruncDiv(a, n) <= hi
  {
    var q := TruncDiv(a, n);
    Distrib(q, n);
    if q < lo {
      MulLe(q + 1, lo, n);
    }
    if q > hi {
      MulLe(hi, q - 1, n);
    }
  }

  /** A truncated average lies between the smallest and the largest value. */
  lemma AverageBounds(vs: seq<int>, fallback: int, lo: int, hi: int)
    requires forall i :: 0 <= i < |vs| ==> lo <= vs[i] <= hi
    requires vs != [] && Sum(vs) != 0
    ensures lo <= AverageOr(vs, fallback) <= hi
  {
    SumBounds(vs, lo, hi);
    TruncDivBounds(Sum(vs), |vs|, lo, hi);
  }

  /** An average of 0 is falsy in Python, so readings that are all 0 report
      the fallback and not 0, for the focus score too. */
  lemma ZeroAverageFallsBack(vs: seq<int>, fallback: int)
    requires forall i :: 0 <= i < |vs| ==> vs[i] == 0
    ensures AverageOr(vs, fallback) == fallback
    ensures FocusOf(vs) == DefaultFocus
  {
    SumBounds(vs, 0, 0);
  }
}

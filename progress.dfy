/** The `/progress` report of routes/goal.ts: completed goals bucketed by day
    (7 and 30 trailing days) and by calendar month of the current year.

    The handler derives its windows from the local clock with `Date`
    arithmetic. Here the clock and the calendar are inputs: a `Calendar`
    holds the window of each of the last 30 days and of each month of the
    current year, and `ValidCalendar` states what that arithmetic
    guarantees (every window is non-empty, consecutive windows touch). */
module Progress {
  import opened Wrappers
  import opened Types

  /** A closed interval of epoch milliseconds, `[start, end]`. */
  datatype Window = Window(start: int, end: int)

  /** One calendar day: its window (midnight to 23:59:59.999) and its day of the month. */
  datatype Day = Day(window: Window, dayOfMonth: int)

  /** `days[b]` is the day `b` days before today (`days[0]` is today);
      `months[i]` is month `i + 1` of the current year; `today` is the
      start of the current day. */
  datatype Calendar = Calendar(today: int, days: seq<Day>, months: seq<Window>)

  /** A report bucket: a day of the trailing week or month, or a month of the year. */
  datatype Bucket =
    | DayBucket(day: int, progress: nat, goalIds: seq<string>)
    | MonthBucket(month: int, progress: nat, goalIds: seq<string>)

  datatype ProgressReport = ProgressReport(weekly: seq<Bucket>, monthly: seq<Bucket>, yearly: seq<Bucket>)

  /** The calendar has the 30 days and 12 months the handler builds. */
  predicate WellShaped(cal: Calendar) {
    |cal.days| == 30 && |cal.months| == 12
  }

  /** Consecutive windows with no gap and no overlap, each one non-empty. */
  predicate Contiguous(ws: seq<Window>) {
    && (forall i :: 0 <= i < |ws| ==> ws[i].start <= ws[i].end)
    && (forall i :: 0 < i < |ws| ==> ws[i - 1].end + 1 == ws[i].start)
  }

  /** What local `Date` arithmetic guarantees of the windows: a day ends at
      23:59:59.999 and the next one starts one millisecond later at midnight;
      a month ends on its last day at 23:59:59.999 and the next one starts on
      the 1st at midnight; today's window starts at `today`. */
  predicate ValidCalendar(cal: Calendar) {
    && WellShaped(cal)
    && cal.days[0].window.start == cal.today
    && (forall b :: 0 <= b < 30 ==> cal.days[b].window.start <= cal.days[b].window.end)
    && (forall b :: 0 < b < 30 ==> cal.days[b].window.end + 1 == cal.days[b - 1].window.start)
    && (forall b :: 0 <= b < 30 ==> 1 <= cal.days[b].dayOfMonth <= 31)
    && Contiguous(cal.months)
  }

  /** The filter `g.isCompleted && g.completedAt`: completed, with a truthy completion time. */
  predicate Qualifies(g: Goal) {
    g.isCompleted && TruthyNumber(g.completedAt)
  }

  /** `completedAt >= start && completedAt <= end`, both ends inclusive. */
  predicate Within(g: Goal, w: Window) {
    g.completedAt.Some? && w.start <= g.completedAt.value <= w.end
  }

  /** `x` is `ys` with some elements left out, the rest in their order. */
  predicate IsSubsequence<T(==)>(xs: seq<T>, ys: seq<T>)
    decreases |ys|
  {
    xs == [] || (ys != [] && ((xs[0] == ys[0] && IsSubsequence(xs[1..], ys[1..])) || IsSubsequence(xs, ys[1..])))
  }

  /** The completed goals, in input order. */
  function Completed(goals: seq<Goal>): (r: seq<Goal>)
    ensures forall g :: g in r <==> g in goals && Qualifies(g)
    ensures IsSubsequence(r, goals)
  {
    if goals == [] then []
    else if Qualifies(goals[0]) then [goals[0]] + Completed(goals[1..])
    else Completed(goals[1..])
  }

  /** The goals among `goals` whose completion time lies in `w`, in input order. */
  function InWindow(goals: seq<Goal>, w: Window): (r: seq<Goal>)
    ensures forall g :: g in r <==> g in goals && Within(g, w)
    ensures IsSubsequence(r, goals)
  {
    if goals == [] then []
    else if Within(goals[0], w) then [goals[0]] + InWindow(goals[1..], w)
    else InWindow(goals[1..], w)
  }

  /** Reference definition of a bucket's goals, in one pass: the goals that
      qualify and were completed inside `w`, in input order. */
  function Counted(goals: seq<Goal>, w: Window): (r: seq<Goal>)
    ensures forall g :: g in r <==> g in goals && Qualifies(g) && Within(g, w)
    ensures IsSubsequence(r, goals)
  {
    if goals == [] then []
    else if Qualifies(goals[0]) && Within(goals[0], w) then [goals[0]] + Counted(goals[1..], w)
    else Counted(goals[1..], w)
  }

  /** `goals.map(g => g.id)`. */
  function Ids(goals: seq<Goal>): seq<string> {
    seq(|goals|, i requires 0 <= i < |goals| => goals[i].id)
  }

  /** The bucket of one day: its day of the month, and the ids and number
      of the goals completed inside its window. */
  function DayBucketFor(completed: seq<Goal>, d: Day): (b: Bucket)
    ensures b.DayBucket? && b.day == d.dayOfMonth && b.progress == |b.goalIds|
  {
    var hits := InWindow(completed, d.window);
    DayBucket(d.dayOfMonth, |hits|, Ids(hits))
  }

  /** The bucket of one month: its number, and the ids and number of the
      goals completed inside its window. */
  function MonthBucketFor(completed: seq<Goal>, month: int, w: Window): (b: Bucket)
    ensures b.MonthBucket? && b.month == month && b.progress == |b.goalIds|
  {
    var hits := InWindow(completed, w);
    MonthBucket(month, |hits|, Ids(hits))
  }

  /** Weekly bucket `i` is the day `6 - i` days before today: oldest first. */
  function WeeklyDays(cal: Calendar): seq<Day>
    requires WellShaped(cal)
  {
    seq(7, i requires 0 <= i < 7 => cal.days[6 - i])
  }

  /** Monthly bucket `i` is the day `29 - i` days before today: oldest first. */
  function MonthlyDays(cal: Calendar): seq<Day>
    requires WellShaped(cal)
  {
    seq(30, i requires 0 <= i < 30 => cal.days[29 - i])
  }

  function DayBuckets(completed: seq<Goal>, ds: seq<Day>): seq<Bucket> {
    seq(|ds|, i requires 0 <= i < |ds| => DayBucketFor(completed, ds[i]))
  }

  function MonthBuckets(completed: seq<Goal>, ms: seq<Window>): seq<Bucket> {
    seq(|ms|, i requires 0 <= i < |ms| => MonthBucketFor(completed, i + 1, ms[i]))
  }

  function Windows(ds: seq<Day>): seq<Window> {
    seq(|ds|, i requires 0 <= i < |ds| => ds[i].window)
  }

  /** The body of the `/progress` handler. */
  function Report(goals: seq<Goal>, cal: Calendar): (r: ProgressReport)
    requires WellShaped(cal)
    ensures |r.weekly| == 7 && |r.monthly| == 30 && |r.yearly| == 12
    ensures forall i :: 0 <= i < 7 ==> r.weekly[i].DayBucket?
    ensures forall i :: 0 <= i < 30 ==> r.monthly[i].DayBucket?
    ensures forall i :: 0 <= i < 12 ==> r.yearly[i].MonthBucket? && r.yearly[i].month == i + 1
    ensures forall i :: 0 <= i < 12 ==> 1 <= r.yearly[i].month <= 12
    ensures forall i :: 0 <= i < 7 ==> r.weekly[i].progress == |r.weekly[i].goalIds|
    ensures forall i :: 0 <= i < 30 ==> r.monthly[i].progress == |r.monthly[i].goalIds|
    ensures forall i :: 0 <= i < 12 ==> r.yearly[i].progress == |r.yearly[i].goalIds|
  {
    var completed := Completed(goals);
    ProgressReport(
      DayBuckets(completed, WeeklyDays(cal)),
      DayBuckets(completed, MonthlyDays(cal)),
      MonthBuckets(completed, cal.months))
  }

  /** The total of the `progress` fields of some buckets. */
  function SumProgress(bs: seq<Bucket>): int {
    if bs == [] then 0 else bs[0].progress + SumProgress(bs[1..])
  }

  /** The window from the start of the first to the end of the last of `ws`. */
  function Span(ws: seq<Window>): Window
    requires |ws| > 0
  {
    Window(ws[0].start, ws[|ws| - 1].end)
  }

  // ---------------------------------------------------------------------------
  // Each bucket holds exactly the qualifying goals of its window.

  /** Filtering the completed goals and then the window is the one-pass reference filter. */
  lemma {:induction false} FilterFusion(goals: seq<Goal>, w: Window)
    ensures InWindow(Completed(goals), w) == Counted(goals, w)
  {
    if goals != [] {
      FilterFusion(goals[1..], w);
    }
  }

  /** Every bucket of the report lists the ids of the goals that qualify and
      were completed inside its window, both ends included, in input order,
      and counts them. */
  lemma BucketsAreWindowCounts(goals: seq<Goal>, cal: Calendar)
    requires WellShaped(cal)
    ensures forall i :: 0 <= i < 7 ==>
      var d := cal.days[6 - i];
      Report(goals, cal).weekly[i] == DayBucket(d.dayOfMonth, |Counted(goals, d.window)|, Ids(Counted(goals, d.window)))
    ensures forall i :: 0 <= i < 30 ==>
      var d := cal.days[29 - i];
      Report(goals, cal).monthly[i] == DayBucket(d.dayOfMonth, |Counted(goals, d.window)|, Ids(Counted(goals, d.window)))
    ensures forall i :: 0 <= i < 12 ==>
      var w := cal.months[i];
      Report(goals, cal).yearly[i] == MonthBucket(i + 1, |Counted(goals, w)|, Ids(Counted(goals, w)))
  {
    forall w: Window ensures InWindow(Completed(goals), w) == Counted(goals, w) {
      FilterFusion(goals, w);
    }
  }

  /** Concatenating goal lists concatenates the bucket contents: the report
      keeps the input order. */
  lemma {:induction false} CountedAppend(a: seq<Goal>, b: seq<Goal>, w: Window)
    ensures Counted(a + b, w) == Counted(a, w) + Counted(b, w)
  {
    if a == [] {
      assert a + b == b;
    } else {
      assert (a + b)[1..] == a[1..] + b;
      CountedAppend(a[1..], b, w);
    }
  }

  // ---------------------------------------------------------------------------
  // Windows of a valid calendar.

  /** In contiguous windows a later window starts after an earlier one ends. */
  lemma {:induction false} ContiguousOrdered(ws: seq<Window>, i: int, j: int)
    requires Contiguous(ws)
    requires 0 <= i < j < |ws|
    ensures ws[i].end < ws[j].start
  {
    if j > i + 1 {
      ContiguousOrdered(ws, i, j - 1);
    }
  }

  /** Each of the contiguous windows lies inside their span. */
  lemma ContiguousInSpan(ws: seq<Window>, i: int)
    requires Contiguous(ws)
    requires 0 <= i < |ws|
    ensures Span(ws).start <= ws[i].start && ws[i].end <= Span(ws).end
  {
    if i > 0 {
      ContiguousOrdered(ws, 0, i);
    }
    if i < |ws| - 1 {
      ContiguousOrdered(ws, i, |ws| - 1);
    }
  }

  /** The weekly and the monthly days of a valid calendar are contiguous,
      oldest first, and the last of each is today. */
  lemma DailyWindows(cal: Calendar)
    requires ValidCalendar(cal)
    ensures Contiguous(Windows(WeeklyDays(cal))) && Contiguous(Windows(MonthlyDays(cal)))
    ensures WeeklyDays(cal)[6] == MonthlyDays(cal)[29] == cal.days[0]
    ensures WeeklyDays(cal)[6].window.start == cal.today
  {
    var ws := Windows(WeeklyDays(cal));
    forall i | 0 < i < 7 ensures ws[i - 1].end + 1 == ws[i].start {
      assert ws[i] == cal.days[6 - i].window && ws[i - 1] == cal.days[6 - i + 1].window;
    }
    var ms := Windows(MonthlyDays(cal));
    forall i | 0 < i < 30 ensures ms[i - 1].end + 1 == ms[i].start {
      assert ms[i] == cal.days[29 - i].window && ms[i - 1] == cal.days[29 - i + 1].window;
    }
  }

  /** The last 7 monthly buckets are the 7 weekly buckets. */
  lemma MonthlyEndsWithWeekly(goals: seq<Goal>, cal: Calendar)
    requires WellShaped(cal)
    ensures Report(goals, cal).monthly[23..] == Report(goals, cal).weekly
  {
    var r := Report(goals, cal);
    forall i | 0 <= i < 7 ensures r.monthly[23..][i] == r.weekly[i] {
      assert MonthlyDays(cal)[23 + i] == WeeklyDays(cal)[i];
    }
  }

  // ---------------------------------------------------------------------------
  // Counting over contiguous windows.

  /** Splitting a window in two splits its count in two. */
  lemma {:induction false} CountSplit(goals: seq<Goal>, a: int, m: int, b: int)
    requires a - 1 <= m <= b
    ensures |Counted(goals, Window(a, b))| == |Counted(goals, Window(a, m))| + |Counted(goals, Window(m + 1, b))|
  {
    if goals != [] {
      CountSplit(goals[1..], a, m, b);
    }
  }

  /** Buckets counting contiguous windows add up to the count over their span. */
  lemma {:induction false} SumOverContiguous(goals: seq<Goal>, bs: seq<Bucket>, ws: seq<Window>)
    requires |bs| == |ws| > 0
    requires Contiguous(ws)
    requires forall i :: 0 <= i < |ws| ==> bs[i].progress == |Counted(goals, ws[i])|
    ensures SumProgress(bs) == |Counted(goals, Span(ws))|
  {
    if |ws| == 1 {
      assert bs[1..] == [];
    } else {
      var tail := ws[1..];
      assert Contiguous(tail) by {
        assert forall i :: 0 < i < |tail| ==> tail[i - 1] == ws[i] && tail[i] == ws[i + 1];
      }
      SumOverContiguous(goals, bs[1..], tail);
      ContiguousInSpan(ws, 1);
      CountSplit(goals, ws[0].start, ws[0].end, ws[|ws| - 1].end);
    }
  }

  /** The weekly counts add up to the qualifying goals completed from the
      start of the day six days ago to the end of today; likewise the monthly
      counts over 30 days and the yearly counts over the calendar year. */
  lemma ReportTotals(goals: seq<Goal>, cal: Calendar)
    requires ValidCalendar(cal)
    ensures SumProgress(Report(goals, cal).weekly)
      == |Counted(goals, Window(cal.days[6].window.start, cal.days[0].window.end))|
    ensures SumProgress(Report(goals, cal).monthly)
      == |Counted(goals, Window(cal.days[29].window.start, cal.days[0].window.end))|
    ensures SumProgress(Report(goals, cal).yearly)
      == |Counted(goals, Window(cal.months[0].start, cal.months[11].end))|
  {
    BucketsAreWindowCounts(goals, cal);
    DailyWindows(cal);
    WeeklyTotal(goals, cal);
    MonthlyTotal(goals, cal);
    SumOverContiguous(goals, Report(goals, cal).yearly, cal.months);
  }

  /** The weekly part of `ReportTotals`. */
  lemma WeeklyTotal(goals: seq<Goal>, cal: Calendar)
    requires WellShaped(cal) && Contiguous(Windows(WeeklyDays(cal)))
    requires forall i :: 0 <= i < 7 ==> Report(goals, cal).weekly[i].progress == |Counted(goals, cal.days[6 - i].window)|
    ensures SumProgress(Report(goals, cal).weekly)
      == |Counted(goals, Window(cal.days[6].window.start, cal.days[0].window.end))|
  {
    DailyTotal(goals, Report(goals, cal).weekly, WeeklyDays(cal));
  }

  /** The monthly part of `ReportTotals`. */
  lemma MonthlyTotal(goals: seq<Goal>, cal: Calendar)
    requires WellShaped(cal) && Contiguous(Windows(MonthlyDays(cal)))
    requires forall i :: 0 <= i < 30 ==> Report(goals, cal).monthly[i].progress == |Counted(goals, cal.days[29 - i].window)|
    ensures SumProgress(Report(goals, cal).monthly)
      == |Counted(goals, Window(cal.days[29].window.start, cal.days[0].window.end))|
  {
    DailyTotal(goals, Report(goals, cal).monthly, MonthlyDays(cal));
  }

  /** `SumOverContiguous` for buckets built from days. */
  lemma DailyTotal(goals: seq<Goal>, bs: seq<Bucket>, ds: seq<Day>)
    requires |bs| == |ds| > 0
    requires Contiguous(Windows(ds))
    requires forall i :: 0 <= i < |ds| ==> bs[i].progress == |Counted(goals, ds[i].window)|
    ensures SumProgress(bs) == |Counted(goals, Window(ds[0].window.start, ds[|ds| - 1].window.end))|
  {
    SumOverContiguous(goals, bs, Windows(ds));
  }

  // ---------------------------------------------------------------------------
  // Which goals can appear at all.

  /** Two goals of a list with unique ids that share an id are the same goal. */
  lemma SameIdSameGoal(goals: seq<Goal>, a: Goal, b: Goal)
    requires UniqueIds(goals)
    requires a in goals && b in goals
    ensures a.id == b.id ==> a == b
  {
    var i :| 0 <= i < |goals| && goals[i] == a;
    var j :| 0 <= j < |goals| && goals[j] == b;
  }

  /** With unique ids, a goal that a bucket's filter rejects is not among its ids. */
  lemma IdNotListed(goals: seq<Goal>, g: Goal, w: Window)
    requires UniqueIds(goals)
    requires g in goals
    requires g !in Counted(goals, w)
    ensures g.id !in Ids(Counted(goals, w))
  {
    var hits := Counted(goals, w);
    forall k | 0 <= k < |hits| ensures Ids(hits)[k] != g.id {
      SameIdSameGoal(goals, hits[k], g);
    }
  }

  /** A goal that is not completed, or completed with no (or a zero)
      `completedAt`, is in no bucket of any of the three reports. */
  lemma NotQualifiedNeverCounted(goals: seq<Goal>, cal: Calendar, g: Goal)
    requires WellShaped(cal)
    requires UniqueIds(goals)
    requires g in goals && !Qualifies(g)
    ensures forall i :: 0 <= i < 7 ==> g.id !in Report(goals, cal).weekly[i].goalIds
    ensures forall i :: 0 <= i < 30 ==> g.id !in Report(goals, cal).monthly[i].goalIds
    ensures forall i :: 0 <= i < 12 ==> g.id !in Report(goals, cal).yearly[i].goalIds
  {
    BucketsAreWindowCounts(goals, cal);
    forall w: Window ensures g.id !in Ids(Counted(goals, w)) {
      IdNotListed(goals, g, w);
    }
  }

  /** A goal completed outside the current calendar year is in no yearly bucket. */
  lemma OutsideYearNeverCounted(goals: seq<Goal>, cal: Calendar, g: Goal)
    requires ValidCalendar(cal)
    requires UniqueIds(goals)
    requires g in goals && g.completedAt.Some?
    requires g.completedAt.value < cal.months[0].start || g.completedAt.value > cal.months[11].end
    ensures forall i :: 0 <= i < 12 ==> g.id !in Report(goals, cal).yearly[i].goalIds
  {
    BucketsAreWindowCounts(goals, cal);
    forall i | 0 <= i < 12 ensures g.id !in Ids(Counted(goals, cal.months[i])) {
      ContiguousInSpan(cal.months, i);
      IdNotListed(goals, g, cal.months[i]);
    }
  }

  /** Buckets over contiguous windows never share an id (ids unique). */
  lemma AtMostOneOf(goals: seq<Goal>, bs: seq<Bucket>, ws: seq<Window>, id: string)
    requires UniqueIds(goals)
    requires |bs| == |ws| && Contiguous(ws)
    requires forall i :: 0 <= i < |ws| ==> bs[i].goalIds == Ids(Counted(goals, ws[i]))
    ensures forall i, j :: 0 <= i < j < |bs| ==> !(id in bs[i].goalIds && id in bs[j].goalIds)
  {
    forall i, j | 0 <= i < j < |bs| ensures !(id in bs[i].goalIds && id in bs[j].goalIds) {
      ContiguousOrdered(ws, i, j);
      DisjointWindows(goals, ws[i], ws[j], id);
    }
  }

  /** With unique ids, a goal is listed in at most one weekly bucket and at
      most one monthly bucket. */
  lemma AtMostOneDailyBucket(goals: seq<Goal>, cal: Calendar, id: string)
    requires ValidCalendar(cal)
    requires UniqueIds(goals)
    ensures forall i, j :: 0 <= i < j < 7 ==>
      !(id in Report(goals, cal).weekly[i].goalIds && id in Report(goals, cal).weekly[j].goalIds)
    ensures forall i, j :: 0 <= i < j < 30 ==>
      !(id in Report(goals, cal).monthly[i].goalIds && id in Report(goals, cal).monthly[j].goalIds)
  {
    var r := Report(goals, cal);
    BucketsAreWindowCounts(goals, cal);
    DailyWindows(cal);
    AtMostOneOf(goals, r.weekly, Windows(WeeklyDays(cal)), id);
    AtMostOneOf(goals, r.monthly, Windows(MonthlyDays(cal)), id);
  }

  /** Two windows that do not overlap never list the same id (ids unique). */
  lemma DisjointWindows(goals: seq<Goal>, v: Window, w: Window, id: string)
    requires UniqueIds(goals)
    requires v.end < w.start
    ensures !(id in Ids(Counted(goals, v)) && id in Ids(Counted(goals, w)))
  {
    if id in Ids(Counted(goals, v)) {
      var hv := Counted(goals, v);
      var k :| 0 <= k < |hv| && Ids(hv)[k] == id;
      var g := hv[k];
      assert g in goals && Within(g, v);
      IdNotListed(goals, g, w);
    }
  }

  /** Weekly bucket `j` of a valid calendar counts the goals of day `6 - j` (one bucket). */
  lemma WeeklyBucket(goals: seq<Goal>, cal: Calendar, j: int)
    requires WellShaped(cal) && 0 <= j < 7
    ensures Report(goals, cal).weekly[j]
      == DayBucket(cal.days[6 - j].dayOfMonth, |Counted(goals, cal.days[6 - j].window)|, Ids(Counted(goals, cal.days[6 - j].window)))
  {
    FilterFusion(goals, cal.days[6 - j].window);
  }

  /** A single goal completed on day `i` of the week, anywhere in that day's
      window including its first (midnight) and last (23:59:59.999)
      millisecond, is counted in weekly bucket `i` and in no other. */
  lemma SingleGoalWeek(g: Goal, cal: Calendar, i: int)
    requires ValidCalendar(cal)
    requires Qualifies(g)
    requires 0 <= i < 7 && Within(g, cal.days[6 - i].window)
    ensures forall j :: 0 <= j < 7 ==>
      Report([g], cal).weekly[j] ==
        DayBucket(cal.days[6 - j].dayOfMonth, if j == i then 1 else 0, if j == i then [g.id] else [])
  {
    DailyWindows(cal);
    assert Ids([g]) == [g.id];
    forall j | 0 <= j < 7
      ensures Report([g], cal).weekly[j] ==
        DayBucket(cal.days[6 - j].dayOfMonth, if j == i then 1 else 0, if j == i then [g.id] else [])
    {
      WeeklyBucket([g], cal, j);
      SingleGoalDay(g, cal, i, j);
    }
  }

  /** The single goal of `SingleGoalWeek` is in day `6 - j`'s window only when `j == i`. */
  lemma SingleGoalDay(g: Goal, cal: Calendar, i: int, j: int)
    requires ValidCalendar(cal) && Contiguous(Windows(WeeklyDays(cal)))
    requires Qualifies(g)
    requires 0 <= i < 7 && 0 <= j < 7 && Within(g, cal.days[6 - i].window)
    ensures Counted([g], cal.days[6 - j].window) == if j == i then [g] else []
  {
    var ws := Windows(WeeklyDays(cal));
    assert ws[i] == cal.days[6 - i].window && ws[j] == cal.days[6 - j].window;
    if j < i {
      ContiguousOrdered(ws, j, i);
    } else if j > i {
      ContiguousOrdered(ws, i, j);
    }
  }
}

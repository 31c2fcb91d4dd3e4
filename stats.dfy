/**
 * Statistics over completed instances: the weekly totals and the
 * month-over-month comparison. Each instance's template arrives already
 * populated from the template map; an instance whose template is absent
 * contributes nothing but still counts as a workout.
 */
module Stats {
  import opened Wrappers
  import opened Calendar
  import opened Exercises
  import opened Templates
  import opened Instances

  datatype WeeklyStats = WeeklyStats(totalWorkouts: int, totalDuration: real, completedExercises: int, totalWeight: real)

  datatype MonthStats = MonthStats(totalWorkouts: int, totalDuration: real, totalExercises: int)

  datatype Comparison = Comparison(workoutChange: real, durationChange: real, exerciseChange: real)

  // ---------------------------------------------------------------------------
  // Per-instance contributions

  /** `populate("templateId")`: the template document, or nothing when it no longer exists. */
  function Populate(i: Instance, templates: map<string, Template>): (r: Option<Template>)
    ensures r.Some? <==> i.templateId in templates
    ensures r.Some? ==> r.value == templates[i.templateId]
  {
    if i.templateId in templates then Some(templates[i.templateId]) else None
  }

  /** `template.duration || 0`. */
  function DurationOf(i: Instance, templates: map<string, Template>): (r: real)
    ensures i.templateId !in templates ==> r == 0.0
    ensures i.templateId in templates ==> r == templates[i.templateId].duration
    ensures ValidTemplates(templates) ==> r >= 0.0
  {
    match Populate(i, templates)
    case Some(t) => t.duration
    case None => 0.0
  }

  /** `template.exercises?.length || 0`. */
  function ExerciseCountOf(i: Instance, templates: map<string, Template>): (r: int)
    ensures r >= 0
    ensures i.templateId !in templates ==> r == 0
    ensures i.templateId in templates ==> r == |templates[i.templateId].exercises|
  {
    match Populate(i, templates)
    case Some(t) => |t.exercises|
    case None => 0
  }

  /** The weight one exercise moves: `weight * reps * totalSets`. */
  function Lifted(e: Exercise): real {
    e.weight * (e.reps as real) * (e.totalSets as real)
  }

  /** `Lifted` summed over a list of exercises. */
  function LiftedWeight(exercises: seq<Exercise>): real {
    if exercises == [] then 0.0
    else LiftedWeight(exercises[..|exercises| - 1]) + Lifted(exercises[|exercises| - 1])
  }

  lemma {:induction false} LiftedStep(es: seq<Exercise>, j: int)
    requires 0 <= j < |es|
    ensures LiftedWeight(es[..j + 1]) == LiftedWeight(es[..j]) + Lifted(es[j])
  {
    assert es[..j + 1][..j] == es[..j];
  }

  /** The lifted weight of an instance's template, 0 when the template is gone. */
  function WeightOf(i: Instance, templates: map<string, Template>): (r: real)
    ensures i.templateId !in templates ==> r == 0.0
    ensures i.templateId in templates ==> r == LiftedWeight(templates[i.templateId].exercises)
  {
    match Populate(i, templates)
    case Some(t) => LiftedWeight(t.exercises)
    case None => 0.0
  }

  // ---------------------------------------------------------------------------
  // Totals over a list of instances

  function TotalDuration(xs: seq<Instance>, templates: map<string, Template>): real {
    if xs == [] then 0.0 else TotalDuration(xs[..|xs| - 1], templates) + DurationOf(xs[|xs| - 1], templates)
  }

  function TotalExercises(xs: seq<Instance>, templates: map<string, Template>): int {
    if xs == [] then 0 else TotalExercises(xs[..|xs| - 1], templates) + ExerciseCountOf(xs[|xs| - 1], templates)
  }

  function TotalWeight(xs: seq<Instance>, templates: map<string, Template>): real {
    if xs == [] then 0.0 else TotalWeight(xs[..|xs| - 1], templates) + WeightOf(xs[|xs| - 1], templates)
  }

  lemma {:induction false} TotalsStep(xs: seq<Instance>, i: int, templates: map<string, Template>)
    requires 0 <= i < |xs|
    ensures TotalDuration(xs[..i + 1], templates) == TotalDuration(xs[..i], templates) + DurationOf(xs[i], templates)
    ensures TotalExercises(xs[..i + 1], templates) == TotalExercises(xs[..i], templates) + ExerciseCountOf(xs[i], templates)
    ensures TotalWeight(xs[..i + 1], templates) == TotalWeight(xs[..i], templates) + WeightOf(xs[i], templates)
  {
    assert xs[..i + 1][..i] == xs[..i];
  }

  predicate ValidTemplates(templates: map<string, Template>) {
    forall id :: id in templates ==> Valid(templates[id])
  }

  /** Totals split over a concatenation: they are sums, in the order of the list. */
  lemma {:induction false} TotalsAppend(xs: seq<Instance>, ys: seq<Instance>, templates: map<string, Template>)
    ensures TotalDuration(xs + ys, templates) == TotalDuration(xs, templates) + TotalDuration(ys, templates)
    ensures TotalExercises(xs + ys, templates) == TotalExercises(xs, templates) + TotalExercises(ys, templates)
    ensures TotalWeight(xs + ys, templates) == TotalWeight(xs, templates) + TotalWeight(ys, templates)
    decreases |ys|
  {
    if ys == [] {
      assert xs + ys == xs;
    } else {
      var ys' := ys[..|ys| - 1];
      assert (xs + ys)[..|xs + ys| - 1] == xs + ys';
      TotalsAppend(xs, ys', templates);
    }
  }

  /** With durations at least 0, as the template schema demands, no total is negative. */
  lemma {:induction false} TotalsNonNegative(xs: seq<Instance>, templates: map<string, Template>)
    requires ValidTemplates(templates)
    ensures TotalDuration(xs, templates) >= 0.0
    ensures TotalExercises(xs, templates) >= 0
  {
    if xs != [] {
      TotalsNonNegative(xs[..|xs| - 1], templates);
    }
  }

  // ---------------------------------------------------------------------------
  // Weekly statistics

  /** The Monday 00:00 of `now`'s week, as `now.getDate() - now.getDay() + (now.getDay() === 0 ? -6 : 1)`. */
  function WeekStart(now: Instant): (r: Instant)
    ensures IsWeekStartOf(r, now)
  {
    var wd := JsWeekday(now.day);
    var r := Instant(now.day - wd + (if wd == 0 then -6 else 1), 0);
    assert now.day + 4 == 7 * ((now.day + 4) / 7) + wd;
    r
  }

  /** `find({ userId, completed: true, date: { $gte: start } })`, in store order. */
  function CompletedSince(docs: seq<Instance>, userId: string, start: Instant): (r: seq<Instance>)
    ensures forall x :: x in r <==> (x in docs && x.userId == userId && x.completed && Millis(x.date) >= Millis(start))
    ensures |r| <= |docs|
  {
    if docs == [] then []
    else
      var x := docs[|docs| - 1];
      CompletedSince(docs[..|docs| - 1], userId, start)
      + (if x.userId == userId && x.completed && Millis(x.date) >= Millis(start) then [x] else [])
  }

  /** The query keeps store order: over a store that grew by `more`, it answers the old matches followed by the new. */
  lemma {:induction false} CompletedSinceAppend(docs: seq<Instance>, more: seq<Instance>, userId: string, start: Instant)
    ensures CompletedSince(docs + more, userId, start) == CompletedSince(docs, userId, start) + CompletedSince(more, userId, start)
    decreases |more|
  {
    if more == [] {
      assert docs + more == docs;
    } else {
      var init := more[..|more| - 1];
      assert (docs + more)[..|docs + more| - 1] == docs + init;
      CompletedSinceAppend(docs, init, userId, start);
    }
  }

  /** Each matching document is answered as often as it is stored; two equal documents count twice. */
  lemma {:induction false} CompletedSinceCounts(docs: seq<Instance>, userId: string, start: Instant, x: Instance)
    ensures multiset(CompletedSince(docs, userId, start))[x]
            == if x.userId == userId && x.completed && Millis(x.date) >= Millis(start) then multiset(docs)[x] else 0
  {
    if docs != [] {
      assert docs == docs[..|docs| - 1] + [docs[|docs| - 1]];
      CompletedSinceCounts(docs[..|docs| - 1], userId, start, x);
    }
  }

  /** The inner `exercises.forEach`: adds each exercise's lifted weight to `total`. */
  method AddLiftedWeights(total: real, exercises: seq<Exercise>) returns (r: real)
    ensures r == total + LiftedWeight(exercises)
  {
    r := total;
    for j := 0 to |exercises|
      invariant r == total + LiftedWeight(exercises[..j])
    {
      var exercise := exercises[j];
      LiftedStep(exercises, j);
      r := r + exercise.weight * (exercise.reps as real) * (exercise.totalSets as real);
    }
    assert exercises[..|exercises|] == exercises;
  }

  /** The outer `instances.forEach` callback: one instance's contribution to the running totals. */
  method AddInstance(stats: WeeklyStats, instance: Instance, templates: map<string, Template>) returns (r: WeeklyStats)
    ensures r.totalWorkouts == stats.totalWorkouts
    ensures r.totalDuration == stats.totalDuration + DurationOf(instance, templates)
    ensures r.completedExercises == stats.completedExercises + ExerciseCountOf(instance, templates)
    ensures r.totalWeight == stats.totalWeight + WeightOf(instance, templates)
  {
    r := stats;
    if instance.templateId in templates {
      var template := templates[instance.templateId];
      r := r.(totalDuration := r.totalDuration + template.duration);
      r := r.(completedExercises := r.completedExercises + |template.exercises|);
      var totalWeight := AddLiftedWeights(r.totalWeight, template.exercises);
      r := r.(totalWeight := totalWeight);
    }
  }

  /**
   * `getWeeklyStats`: the completed instances dated from the start of the
   * current week on (with no upper bound) are counted, and the duration,
   * exercise count and lifted weight of their templates are accumulated.
   */
  method GetWeeklyStats(userId: string, now: Instant, docs: seq<Instance>, templates: map<string, Template>)
    returns (stats: WeeklyStats)
    ensures var counted := CompletedSince(docs, userId, WeekStart(now));
      && stats.totalWorkouts == |counted|
      && stats.totalDuration == TotalDuration(counted, templates)
      && stats.completedExercises == TotalExercises(counted, templates)
      && stats.totalWeight == TotalWeight(counted, templates)
  {
    var startOfWeek := WeekStart(now);
    var instances := CompletedSince(docs, userId, startOfWeek);
    stats := WeeklyStats(|instances|, 0.0, 0, 0.0);
    for i := 0 to |instances|
      invariant stats.totalWorkouts == |instances|
      invariant stats.totalDuration == TotalDuration(instances[..i], templates)
      invariant stats.completedExercises == TotalExercises(instances[..i], templates)
      invariant stats.totalWeight == TotalWeight(instances[..i], templates)
    {
      TotalsStep(instances, i, templates);
      stats := AddInstance(stats, instances[i], templates);
    }
    assert instances[..|instances|] == instances;
  }

  // ---------------------------------------------------------------------------
  // Monthly comparison

  /**
   * `new Date(now.getFullYear(), now.getMonth(), 1)`: the current window
   * starts at midnight of the first day of `now`'s month, not after `now`.
   */
  function CurrentMonthStart(now: Instant): (r: Instant)
    ensures r == Instant(FirstOfMonth(CalendarYear(now), MonthOf(now.day)), 0)
    ensures Millis(r) <= Millis(now)
  {
    var r := DateOfMonthStart(CalendarYear(now), MonthOf(now.day) - 1);
    DateOfMonthStartInYear(CalendarYear(now), MonthOf(now.day) - 1);
    MillisOrder(r, now);
    r
  }

  /** The month (as year and month 1..12) before the month of `now`. */
  function PreviousMonth(now: Instant): (int, int) {
    MonthBefore(CalendarYear(now), MonthOf(now.day))
  }

  /**
   * `new Date(now.getFullYear(), now.getMonth() - 1, 1)`: the last-month
   * window covers exactly the calendar month before `now`'s month (December
   * of the previous year when `now` is in January) and ends where the
   * current window starts.
   */
  function LastMonthStart(now: Instant): (r: Instant)
    ensures r == Instant(FirstOfMonth(PreviousMonth(now).0, PreviousMonth(now).1), 0)
    ensures CurrentMonthStart(now).day - r.day == DaysInMonth(PreviousMonth(now).0, PreviousMonth(now).1)
    ensures Millis(r) < Millis(CurrentMonthStart(now))
  {
    var y, m := CalendarYear(now), MonthOf(now.day);
    var prev := MonthBefore(y, m);
    MonthStartAndBefore(y, m, prev.0, prev.1);
    var r := DateOfMonthStart(y, m - 2);
    var c := CurrentMonthStart(now);
    assert c == Instant(FirstOfMonth(y, m), 0);
    assert r == Instant(FirstOfMonth(prev.0, prev.1), 0);
    MillisOrder(r, c);
    r
  }

  /** `find({ userId, completed: true, date: { $gte: from, $lt: to } })`, in store order. */
  function CompletedBetween(docs: seq<Instance>, userId: string, from: Instant, to: Instant): (r: seq<Instance>)
    ensures forall x :: x in r <==> (x in docs && x.userId == userId && x.completed
                                    && Millis(from) <= Millis(x.date) < Millis(to))
    ensures |r| <= |docs|
  {
    if docs == [] then []
    else
      var x := docs[|docs| - 1];
      CompletedBetween(docs[..|docs| - 1], userId, from, to)
      + (if x.userId == userId && x.completed && Millis(from) <= Millis(x.date) < Millis(to) then [x] else [])
  }

  /** The query keeps store order: over a store that grew by `more`, it answers the old matches followed by the new. */
  lemma {:induction false} CompletedBetweenAppend(docs: seq<Instance>, more: seq<Instance>, userId: string, from: Instant, to: Instant)
    ensures CompletedBetween(docs + more, userId, from, to)
            == CompletedBetween(docs, userId, from, to) + CompletedBetween(more, userId, from, to)
    decreases |more|
  {
    if more == [] {
      assert docs + more == docs;
    } else {
      var init := more[..|more| - 1];
      assert (docs + more)[..|docs + more| - 1] == docs + init;
      CompletedBetweenAppend(docs, init, userId, from, to);
    }
  }

  /** Each matching document is answered as often as it is stored; two equal documents count twice. */
  lemma {:induction false} CompletedBetweenCounts(docs: seq<Instance>, userId: string, from: Instant, to: Instant, x: Instance)
    ensures multiset(CompletedBetween(docs, userId, from, to))[x]
            == if x.userId == userId && x.completed && Millis(from) <= Millis(x.date) < Millis(to)
               then multiset(docs)[x] else 0
  {
    if docs != [] {
      assert docs == docs[..|docs| - 1] + [docs[|docs| - 1]];
      CompletedBetweenCounts(docs[..|docs| - 1], userId, from, to, x);
    }
  }

  /** No instance is counted in both months. */
  lemma MonthWindowsDisjoint(docs: seq<Instance>, userId: string, now: Instant, x: Instance)
    ensures !(x in CompletedBetween(docs, userId, LastMonthStart(now), CurrentMonthStart(now))
              && x in CompletedBetween(docs, userId, CurrentMonthStart(now), now))
  {
  }

  /**
   * `calculateMonthStats`: the list length and two sums, a missing template
   * counting 0; with durations at least 0 no total is negative.
   */
  function CalculateMonthStats(xs: seq<Instance>, templates: map<string, Template>): (r: MonthStats)
    ensures r.totalWorkouts == |xs|
    ensures ValidTemplates(templates) ==> r.totalDuration >= 0.0 && r.totalExercises >= 0
    ensures xs == [] ==> r == MonthStats(0, 0.0, 0)
    ensures r.totalDuration == TotalDuration(xs, templates) && r.totalExercises == TotalExercises(xs, templates)
  {
    var r := MonthStats(|xs|, TotalDuration(xs, templates), TotalExercises(xs, templates));
    assert ValidTemplates(templates) ==> r.totalDuration >= 0.0 && r.totalExercises >= 0 by {
      if ValidTemplates(templates) {
        TotalsNonNegative(xs, templates);
      }
    }
    r
  }

  /**
   * `calculateChange`: the percentage change from `previous` to `current`,
   * and 0 when `previous` is 0.
   */
  function CalculateChange(current: real, previous: real): (r: real)
    ensures previous == 0.0 ==> r == 0.0
    ensures previous > 0.0 ==> (r > 0.0 <==> current > previous) && (r < 0.0 <==> current < previous)
    ensures previous != 0.0 ==> previous + previous * r / 100.0 == current
  {
    if previous == 0.0 then 0.0 else ((current - previous) / previous) * 100.0
  }

  /** Eleven workouts after ten is a 10% rise; five after none reports 0, not an infinite rise. */
  lemma ChangeExamples()
    ensures CalculateChange(11.0, 10.0) == 10.0
    ensures CalculateChange(5.0, 0.0) == 0.0
  {
  }

  /** Before `now`, the current window holds exactly the instants of `now`'s calendar month. */
  lemma {:induction false} CurrentMonthWindow(now: Instant)
    ensures forall d: Instant :: Millis(CurrentMonthStart(now)) <= Millis(d) < Millis(now)
              <==> CalendarYear(d) == CalendarYear(now) && MonthOf(d.day) == MonthOf(now.day) && Millis(d) < Millis(now)
  {
    var start := CurrentMonthStart(now);
    forall d: Instant
      ensures Millis(start) <= Millis(d) < Millis(now)
              <==> CalendarYear(d) == CalendarYear(now) && MonthOf(d.day) == MonthOf(now.day) && Millis(d) < Millis(now)
    {
      InMonthIff(d.day, CalendarYear(now), MonthOf(now.day));
      MillisOrder(start, d);
      MillisOrder(d, now);
    }
  }

  /** The last-month window holds exactly the instants of the calendar month before `now`'s. */
  lemma {:induction false} LastMonthWindow(now: Instant)
    ensures forall d: Instant :: Millis(LastMonthStart(now)) <= Millis(d) < Millis(CurrentMonthStart(now))
              <==> (CalendarYear(d), MonthOf(d.day)) == PreviousMonth(now)
  {
    var start, end := LastMonthStart(now), CurrentMonthStart(now);
    var prev := PreviousMonth(now);
    forall d: Instant
      ensures Millis(start) <= Millis(d) < Millis(end) <==> (CalendarYear(d), MonthOf(d.day)) == prev
    {
      InMonthIff(d.day, prev.0, prev.1);
      MillisOrder(start, d);
      MillisOrder(d, end);
    }
  }

  /** The user's completed instances of the current month, up to `now`. */
  function CurrentMonthInstances(userId: string, now: Instant, docs: seq<Instance>): (r: seq<Instance>)
    ensures forall x :: x in r <==> (x in docs && x.userId == userId && x.completed
                                    && CalendarYear(x.date) == CalendarYear(now) && MonthOf(x.date.day) == MonthOf(now.day)
                                    && Millis(x.date) < Millis(now))
  {
    CurrentMonthWindow(now);
    CompletedBetween(docs, userId, CurrentMonthStart(now), now)
  }

  /** The user's completed instances of the month before. */
  function LastMonthInstances(userId: string, now: Instant, docs: seq<Instance>): (r: seq<Instance>)
    ensures forall x :: x in r <==> (x in docs && x.userId == userId && x.completed
                                    && (CalendarYear(x.date), MonthOf(x.date.day)) == PreviousMonth(now))
  {
    LastMonthWindow(now);
    CompletedBetween(docs, userId, LastMonthStart(now), CurrentMonthStart(now))
  }

  /**
   * `change` is 0 when `previous` is 0; otherwise it is the percentage that
   * takes `previous` to `current`, which is 0 exactly when nothing changed.
   * At most one `change` satisfies it (`ChangeMeansUnique`).
   */
  predicate ChangeMeans(change: real, current: real, previous: real) {
    && (previous == 0.0 ==> change == 0.0)
    && (previous != 0.0 ==> previous + previous * change / 100.0 == current)
    && (previous != 0.0 ==> (change == 0.0 <==> current == previous))
  }

  lemma ChangeMeaning(current: real, previous: real)
    ensures ChangeMeans(CalculateChange(current, previous), current, previous)
  {
  }

  /** The reported change is the only one with that meaning. */
  lemma ChangeMeansUnique(c1: real, c2: real, current: real, previous: real)
    requires ChangeMeans(c1, current, previous) && ChangeMeans(c2, current, previous)
    ensures c1 == c2
  {
  }

  /**
   * `getMonthlyComparison`, with the clock reading passed in: each change is
   * 0 when last month's total is 0, and otherwise 0 exactly when this month's
   * total equals last month's.
   */
  function GetMonthlyComparison(userId: string, now: Instant, docs: seq<Instance>, templates: map<string, Template>)
    : (r: Comparison)
    ensures var current := CalculateMonthStats(CurrentMonthInstances(userId, now, docs), templates);
      var last := CalculateMonthStats(LastMonthInstances(userId, now, docs), templates);
      && ChangeMeans(r.workoutChange, current.totalWorkouts as real, last.totalWorkouts as real)
      && ChangeMeans(r.durationChange, current.totalDuration, last.totalDuration)
      && ChangeMeans(r.exerciseChange, current.totalExercises as real, last.totalExercises as real)
  {
    var current := CalculateMonthStats(CurrentMonthInstances(userId, now, docs), templates);
    var last := CalculateMonthStats(LastMonthInstances(userId, now, docs), templates);
    ChangeMeaning(current.totalWorkouts as real, last.totalWorkouts as real);
    ChangeMeaning(current.totalDuration, last.totalDuration);
    ChangeMeaning(current.totalExercises as real, last.totalExercises as real);
    Comparison(
      CalculateChange(current.totalWorkouts as real, last.totalWorkouts as real),
      CalculateChange(current.totalDuration, last.totalDuration),
      CalculateChange(current.totalExercises as real, last.totalExercises as real))
  }
}

/**
 * The upcoming-workout suggestion: group the fetched workouts by name, drop
 * every name that already has a workout dated between Monday 00:00 and
 * now, suggest the earliest upcoming workout of each remaining name, and
 * return the suggestions sorted by date.
 */
module Suggestions {
  import opened Wrappers
  import opened Calendar

  /** A workout record: a name, exercise references, a date and a duration. */
  datatype Workout = Workout(name: string, exercises: seq<string>, date: Instant, duration: real)

  /** Monday 00:00 of `now`'s week, as `now.getDate() - daysFromMonday` with Sunday six days from Monday. */
  function WeekStart(now: Instant): (r: Instant)
    ensures IsWeekStartOf(r, now)
  {
    var dayOfWeek := JsWeekday(now.day);
    var daysFromMonday := if dayOfWeek == 0 then 6 else dayOfWeek - 1;
    assert now.day + 4 == 7 * ((now.day + 4) / 7) + dayOfWeek;
    Instant(now.day - daysFromMonday, 0)
  }

  /** Dated in [startOfWeek, now): taken to mean the workout was done this week. */
  predicate DoneBetween(w: Workout, startOfWeek: Instant, now: Instant) {
    Millis(startOfWeek) <= Millis(w.date) < Millis(now)
  }

  predicate IsUpcoming(w: Workout, now: Instant) {
    Millis(w.date) >= Millis(now)
  }

  /** Whether some workout of that name is dated between the start of `now`'s week and `now`. */
  predicate DoneThisWeek(ws: seq<Workout>, name: string, now: Instant) {
    exists w :: w in ws && w.name == name && DoneBetween(w, WeekStart(now), now)
  }

  /**
   * What every suggestion is: one of the fetched workouts, unmodified, dated
   * at or after `now`, of a name with nothing done this week, and no later
   * than any other upcoming workout of that name.
   */
  predicate EarliestUpcoming(s: Workout, ws: seq<Workout>, now: Instant) {
    && s in ws
    && IsUpcoming(s, now)
    && !DoneThisWeek(ws, s.name, now)
    && forall w :: w in ws && w.name == s.name && IsUpcoming(w, now) ==> Millis(s.date) <= Millis(w.date)
  }

  /** What `a.date - b.date` compares: the workout's date in milliseconds. */
  function DateKey(w: Workout): int {
    Millis(w.date)
  }

  predicate SortedByDate(s: seq<Workout>) {
    forall p, q :: 0 <= p < q < |s| ==> DateKey(s[p]) <= DateKey(s[q])
  }

  predicate NamesDistinct(s: seq<Workout>) {
    forall p, q :: 0 <= p < q < |s| ==> s[p].name != s[q].name
  }

  /** The workouts of one name, in their original order. */
  function WithName(ws: seq<Workout>, name: string): (r: seq<Workout>)
    ensures forall w :: w in r <==> w in ws && w.name == name
  {
    if ws == [] then []
    else
      var w := ws[|ws| - 1];
      WithName(ws[..|ws| - 1], name) + (if w.name == name then [w] else [])
  }

  /** Every workout of the name appears as often as it was fetched. */
  lemma {:induction false} WithNameCounts(ws: seq<Workout>, name: string, w: Workout)
    ensures multiset(WithName(ws, name))[w] == if w.name == name then multiset(ws)[w] else 0
  {
    if ws != [] {
      assert ws == ws[..|ws| - 1] + [ws[|ws| - 1]];
      WithNameCounts(ws[..|ws| - 1], name, w);
    }
  }

  lemma {:induction false} WithNameStep(ws: seq<Workout>, i: int, name: string)
    requires 0 <= i < |ws|
    ensures WithName(ws[..i + 1], name) == WithName(ws[..i], name) + (if ws[i].name == name then [ws[i]] else [])
  {
    assert ws[..i + 1][..i] == ws[..i];
  }

  /** `workouts.filter((w) => new Date(w.date) >= now)`. */
  function UpcomingOf(ws: seq<Workout>, now: Instant): (r: seq<Workout>)
    ensures forall w :: w in r <==> w in ws && IsUpcoming(w, now)
  {
    if ws == [] then []
    else
      var w := ws[|ws| - 1];
      UpcomingOf(ws[..|ws| - 1], now) + (if IsUpcoming(w, now) then [w] else [])
  }

  /** Every upcoming workout appears as often as it was fetched. */
  lemma {:induction false} UpcomingOfCounts(ws: seq<Workout>, now: Instant, w: Workout)
    ensures multiset(UpcomingOf(ws, now))[w] == if IsUpcoming(w, now) then multiset(ws)[w] else 0
  {
    if ws != [] {
      assert ws == ws[..|ws| - 1] + [ws[|ws| - 1]];
      UpcomingOfCounts(ws[..|ws| - 1], now, w);
    }
  }

  /** Exchanges two adjacent elements; the contents stay the same multiset. */
  method SwapDown(a: array<Workout>, j: int)
    requires 0 < j < a.Length
    modifies a
    ensures a[j - 1] == old(a[j]) && a[j] == old(a[j - 1])
    ensures forall k :: 0 <= k < a.Length && k != j - 1 && k != j ==> a[k] == old(a[k])
    ensures multiset(a[..]) == old(multiset(a[..]))
  {
    a[j - 1], a[j] := a[j], a[j - 1];
  }

  /** The first `hi` elements of `a` are sorted by date. */
  ghost predicate SortedUpTo(a: array<Workout>, hi: int)
    reads a
    requires 0 <= hi <= a.Length
  {
    forall p, q :: 0 <= p < q < hi ==> DateKey(a[p]) <= DateKey(a[q])
  }

  /** One insertion step: moves `a[i]` down into the sorted prefix `a[..i]`. */
  method InsertDown(a: array<Workout>, i: int)
    requires 0 <= i < a.Length
    requires SortedUpTo(a, i)
    modifies a
    ensures SortedUpTo(a, i + 1)
    ensures multiset(a[..]) == old(multiset(a[..]))
  {
    var j := i;
    while j > 0 && DateKey(a[j - 1]) > DateKey(a[j])
      invariant 0 <= j <= i
      invariant forall p, q :: 0 <= p < q <= i && p != j && q != j ==> DateKey(a[p]) <= DateKey(a[q])
      invariant forall q :: j < q <= i ==> DateKey(a[j]) <= DateKey(a[q])
      invariant multiset(a[..]) == old(multiset(a[..]))
    {
      SwapDown(a, j);
      j := j - 1;
    }
  }

  /** `sort((a, b) => a.date - b.date)` in place: ascending by date, a permutation of the old contents. */
  method SortByDate(a: array<Workout>)
    modifies a
    ensures SortedByDate(a[..])
    ensures multiset(a[..]) == old(multiset(a[..]))
  {
    for i := 0 to a.Length
      invariant SortedUpTo(a, i)
      invariant multiset(a[..]) == old(multiset(a[..]))
    {
      InsertDown(a, i);
    }
  }

  // ---------------------------------------------------------------------------
  // Permutations keep names distinct

  lemma {:induction false} RepeatCountsTwice(s: seq<Workout>, p: int, q: int)
    requires 0 <= p < q < |s| && s[p] == s[q]
    ensures multiset(s)[s[p]] >= 2
  {
    assert s == s[..q] + s[q..];
    assert s[p] in s[..q];
    assert s[q] in s[q..];
  }

  lemma {:induction false} DistinctNamesCountOnce(s: seq<Workout>, x: Workout)
    requires NamesDistinct(s)
    ensures multiset(s)[x] <= 1
    decreases |s|
  {
    if s != [] {
      var init := s[..|s| - 1];
      assert s == init + [s[|s| - 1]];
      DistinctNamesCountOnce(init, x);
      if x == s[|s| - 1] {
        assert x !in init by {
          forall k | 0 <= k < |init| ensures init[k] != x {
            assert s[k].name != s[|s| - 1].name;
          }
        }
      }
    }
  }

  lemma {:induction false} PermutationKeepsNamesDistinct(a: seq<Workout>, b: seq<Workout>)
    requires multiset(a) == multiset(b) && NamesDistinct(a)
    ensures NamesDistinct(b)
  {
    forall p, q | 0 <= p < q < |b| ensures b[p].name != b[q].name {
      assert b[p] in multiset(a) && b[q] in multiset(a);
      var i :| 0 <= i < |a| && a[i] == b[p];
      var j :| 0 <= j < |a| && a[j] == b[q];
      if i == j {
        RepeatCountsTwice(b, p, q);
        DistinctNamesCountOnce(a, b[p]);
        assert false;
      }
    }
  }

  // ---------------------------------------------------------------------------
  // suggestUpcoming

  /** `workoutsByName` and `names` group the workouts of `ws`, names in first-seen order. */
  ghost predicate Grouped(workoutsByName: map<string, seq<Workout>>, names: seq<string>, ws: seq<Workout>) {
    && (forall n :: n in workoutsByName <==> n in names)
    && (forall n {:trigger WithName(ws, n)} :: WithName(ws, n) == Lookup(workoutsByName, n))
    && (forall p, q :: 0 <= p < q < |names| ==> names[p] != names[q])
  }

  /** The list of a name, empty when the name has none yet. */
  function Lookup(workoutsByName: map<string, seq<Workout>>, n: string): seq<Workout> {
    if n in workoutsByName then workoutsByName[n] else []
  }

  /** The map after one workout is pushed onto its name's list (the list created first when missing). */
  function Pushed(workoutsByName: map<string, seq<Workout>>, w: Workout): map<string, seq<Workout>> {
    var m := if w.name in workoutsByName then workoutsByName else workoutsByName[w.name := []];
    m[w.name := m[w.name] + [w]]
  }

  /** The name list after one workout: its name appended when first seen. */
  function NamesAfter(workoutsByName: map<string, seq<Workout>>, names: seq<string>, w: Workout): seq<string> {
    if w.name in workoutsByName then names else names + [w.name]
  }

  /** Adding one more workout to its name's list keeps the grouping. */
  lemma {:induction false} GroupStep(workoutsByName: map<string, seq<Workout>>, names: seq<string>, ws: seq<Workout>, i: int)
    requires 0 <= i < |ws|
    requires Grouped(workoutsByName, names, ws[..i])
    ensures Grouped(Pushed(workoutsByName, ws[i]), NamesAfter(workoutsByName, names, ws[i]), ws[..i + 1])
  {
    var w := ws[i];
    var byName' := Pushed(workoutsByName, w);
    var names' := NamesAfter(workoutsByName, names, w);
    assert forall n :: n in byName' <==> n in names';
    forall n ensures WithName(ws[..i + 1], n) == Lookup(byName', n) {
      WithNameStep(ws, i, n);
      assert WithName(ws[..i], n) == Lookup(workoutsByName, n);
    }
    forall p, q | 0 <= p < q < |names'| ensures names'[p] != names'[q] {
      if q == |names| {
        assert names'[p] == names[p];
      }
    }
  }

  /**
   * The grouping loop: every workout lands in the list of its name, in its
   * original order, and `names` lists each name once, in first-seen order.
   */
  method GroupByName(allWorkouts: seq<Workout>) returns (workoutsByName: map<string, seq<Workout>>, names: seq<string>)
    ensures forall n :: n in workoutsByName <==> n in names
    ensures forall n :: n in workoutsByName ==> workoutsByName[n] == WithName(allWorkouts, n)
    ensures forall w :: w in allWorkouts ==> w.name in names
    ensures forall p, q :: 0 <= p < q < |names| ==> names[p] != names[q]
  {
    workoutsByName := map[];
    names := [];
    for i := 0 to |allWorkouts|
      invariant Grouped(workoutsByName, names, allWorkouts[..i])
    {
      var workout := allWorkouts[i];
      GroupStep(workoutsByName, names, allWorkouts, i);
      ghost var byName', names' := Pushed(workoutsByName, workout), NamesAfter(workoutsByName, names, workout);
      if workout.name !in workoutsByName {
        workoutsByName := workoutsByName[workout.name := []];
        names := names + [workout.name];
      }
      workoutsByName := workoutsByName[workout.name := workoutsByName[workout.name] + [workout]];
      assert workoutsByName == byName' && names == names';
    }
    assert allWorkouts[..|allWorkouts|] == allWorkouts;
    GroupedMeaning(workoutsByName, names, allWorkouts);
  }

  /** What a finished grouping says about each name and each workout. */
  lemma {:induction false} GroupedMeaning(workoutsByName: map<string, seq<Workout>>, names: seq<string>, ws: seq<Workout>)
    requires Grouped(workoutsByName, names, ws)
    ensures forall n :: n in workoutsByName ==> workoutsByName[n] == WithName(ws, n)
    ensures forall w :: w in ws ==> w.name in names
  {
    forall n | n in workoutsByName ensures workoutsByName[n] == WithName(ws, n) {
      assert WithName(ws, n) == Lookup(workoutsByName, n);
    }
    forall w | w in ws ensures w.name in names {
      assert w in WithName(ws, w.name);
      assert WithName(ws, w.name) == Lookup(workoutsByName, w.name);
    }
  }

  /** A copy of `s` sorted by date, through an array sorted in place. */
  method SortedCopy(s: seq<Workout>) returns (r: seq<Workout>)
    ensures SortedByDate(r)
    ensures multiset(r) == multiset(s)
  {
    var a := new Workout[|s|](j requires 0 <= j < |s| => s[j]);
    assert a[..] == s;
    SortByDate(a);
    r := a[..];
  }

  /** `upcomingInstances.sort(...)[0]`: an upcoming instance no later than any other. */
  method EarliestOf(upcomingInstances: seq<Workout>) returns (pick: Workout)
    requires |upcomingInstances| > 0
    ensures pick in upcomingInstances
    ensures forall w :: w in upcomingInstances ==> Millis(pick.date) <= Millis(w.date)
  {
    var sorted := SortedCopy(upcomingInstances);
    assert sorted[0] in multiset(upcomingInstances);
    pick := sorted[0];
    forall w | w in upcomingInstances ensures Millis(pick.date) <= Millis(w.date) {
      assert w in multiset(sorted);
      var j :| 0 <= j < |sorted| && sorted[j] == w;
    }
  }

  /**
   * The body of the per-name loop: nothing when a workout of that name was
   * done this week or none is upcoming, otherwise the earliest upcoming one.
   */
  method PickForName(allWorkouts: seq<Workout>, name: string, workouts: seq<Workout>, now: Instant)
    returns (pick: Option<Workout>)
    requires workouts == WithName(allWorkouts, name)
    ensures pick.Some? ==> pick.value.name == name && EarliestUpcoming(pick.value, allWorkouts, now)
    ensures pick.None? ==> DoneThisWeek(allWorkouts, name, now)
                           || forall w :: w in allWorkouts && w.name == name ==> !IsUpcoming(w, now)
  {
    var startOfWeek := WeekStart(now);
    var alreadyDoneThisWeek := exists w :: w in workouts && DoneBetween(w, startOfWeek, now);
    assert alreadyDoneThisWeek == DoneThisWeek(allWorkouts, name, now);
    if alreadyDoneThisWeek {
      return None;
    }
    var upcomingInstances := UpcomingOf(workouts, now);
    if |upcomingInstances| == 0 {
      return None;
    }
    var earliest := EarliestOf(upcomingInstances);
    return Some(earliest);
  }

  lemma {:induction false} AppendFreshName(picks: seq<Workout>, pick: Workout, used: seq<string>)
    requires NamesDistinct(picks)
    requires forall m :: 0 <= m < |picks| ==> picks[m].name in used
    requires pick.name !in used
    ensures NamesDistinct(picks + [pick])
  {
    var r := picks + [pick];
    forall p, q | 0 <= p < q < |r| ensures r[p].name != r[q].name {
      if q == |picks| {
        assert r[p].name in used;
      } else {
        assert r[p] == picks[p] && r[q] == picks[q];
      }
    }
  }

  /** Every name in `used` with an upcoming workout and nothing done this week has a pick. */
  predicate Covers(picks: seq<Workout>, allWorkouts: seq<Workout>, now: Instant, used: seq<string>) {
    forall w :: w in allWorkouts && w.name in used && IsUpcoming(w, now) && !DoneThisWeek(allWorkouts, w.name, now) ==>
      exists m :: 0 <= m < |picks| && picks[m].name == w.name
  }

  /** What the picks made for the names in `used` satisfy. */
  predicate PicksFor(picks: seq<Workout>, allWorkouts: seq<Workout>, now: Instant, used: seq<string>) {
    && (forall m :: 0 <= m < |picks| ==> EarliestUpcoming(picks[m], allWorkouts, now))
    && (forall m :: 0 <= m < |picks| ==> picks[m].name in used)
    && NamesDistinct(picks)
    && Covers(picks, allWorkouts, now, used)
  }

  lemma {:induction false} CoverStep(picks: seq<Workout>, pick: Option<Workout>, allWorkouts: seq<Workout>, now: Instant,
                                     used: seq<string>, name: string)
    requires Covers(picks, allWorkouts, now, used)
    requires pick.Some? ==> pick.value.name == name
    requires pick.None? ==> DoneThisWeek(allWorkouts, name, now)
                            || forall w :: w in allWorkouts && w.name == name ==> !IsUpcoming(w, now)
    ensures Covers(if pick.Some? then picks + [pick.value] else picks, allWorkouts, now, used + [name])
  {
    var picks' := if pick.Some? then picks + [pick.value] else picks;
    forall w | w in allWorkouts && w.name in used + [name] && IsUpcoming(w, now) && !DoneThisWeek(allWorkouts, w.name, now)
      ensures exists m :: 0 <= m < |picks'| && picks'[m].name == w.name
    {
      if w.name == name {
        assert picks'[|picks|].name == w.name;
      } else {
        assert w.name in used;
        var m :| 0 <= m < |picks| && picks[m].name == w.name;
        assert picks'[m] == picks[m];
      }
    }
  }

  /** One step of the per-name loop keeps `PicksFor`, with the new name added to those handled. */
  lemma {:induction false} PickStep(picks: seq<Workout>, pick: Option<Workout>, allWorkouts: seq<Workout>, now: Instant,
                                    used: seq<string>, name: string)
    requires PicksFor(picks, allWorkouts, now, used)
    requires name !in used
    requires pick.Some? ==> pick.value.name == name && EarliestUpcoming(pick.value, allWorkouts, now)
    requires pick.None? ==> DoneThisWeek(allWorkouts, name, now)
                            || forall w :: w in allWorkouts && w.name == name ==> !IsUpcoming(w, now)
    ensures PicksFor(if pick.Some? then picks + [pick.value] else picks, allWorkouts, now, used + [name])
  {
    var picks' := if pick.Some? then picks + [pick.value] else picks;
    var used' := used + [name];
    CoverStep(picks, pick, allWorkouts, now, used, name);
    if pick.Some? {
      AppendFreshName(picks, pick.value, used);
    }
    forall m | 0 <= m < |picks'| ensures EarliestUpcoming(picks'[m], allWorkouts, now) && picks'[m].name in used' {
      if m < |picks| {
        assert picks'[m] == picks[m];
      }
    }
  }

  /**
   * `suggestUpcoming`, with the fetched workouts and the clock reading given
   * (the `Workout` schema has no owner field, so the fetch is not per user).
   * One suggestion per name that has an upcoming workout and nothing done
   * this week, each the earliest upcoming workout of its name, sorted by date.
   */
  method SuggestUpcoming(allWorkouts: seq<Workout>, now: Instant) returns (suggested: seq<Workout>)
    ensures forall k :: 0 <= k < |suggested| ==> EarliestUpcoming(suggested[k], allWorkouts, now)
    ensures NamesDistinct(suggested)
    ensures forall w :: w in allWorkouts && IsUpcoming(w, now) && !DoneThisWeek(allWorkouts, w.name, now) ==>
      exists k :: 0 <= k < |suggested| && suggested[k].name == w.name
    ensures SortedByDate(suggested)
  {
    var workoutsByName, names := GroupByName(allWorkouts);

    var picks: seq<Workout> := [];
    for k := 0 to |names|
      invariant PicksFor(picks, allWorkouts, now, names[..k])
    {
      var name := names[k];
      assert names[..k + 1] == names[..k] + [name];
      assert name !in names[..k];
      var pick := PickForName(allWorkouts, name, workoutsByName[name], now);
      PickStep(picks, pick, allWorkouts, now, names[..k], name);
      if pick.Some? {
        picks := picks + [pick.value];
      }
    }
    assert names[..|names|] == names;

    suggested := SortedCopy(picks);
    ReorderKeepsSuggestions(picks, suggested, allWorkouts, now);
  }

  /** Sorting the picks keeps every property the suggestions have, for any permutation. */
  lemma {:induction false} ReorderKeepsSuggestions(picks: seq<Workout>, suggested: seq<Workout>, allWorkouts: seq<Workout>, now: Instant)
    requires multiset(picks) == multiset(suggested)
    requires forall m :: 0 <= m < |picks| ==> EarliestUpcoming(picks[m], allWorkouts, now)
    requires NamesDistinct(picks)
    requires forall w :: w in allWorkouts && IsUpcoming(w, now) && !DoneThisWeek(allWorkouts, w.name, now) ==>
      exists m :: 0 <= m < |picks| && picks[m].name == w.name
    ensures forall k :: 0 <= k < |suggested| ==> EarliestUpcoming(suggested[k], allWorkouts, now)
    ensures NamesDistinct(suggested)
    ensures forall w :: w in allWorkouts && IsUpcoming(w, now) && !DoneThisWeek(allWorkouts, w.name, now) ==>
      exists k :: 0 <= k < |suggested| && suggested[k].name == w.name
  {
    PermutationKeepsNamesDistinct(picks, suggested);
    forall k | 0 <= k < |suggested| ensures EarliestUpcoming(suggested[k], allWorkouts, now) {
      assert suggested[k] in multiset(picks);
      var m :| 0 <= m < |picks| && picks[m] == suggested[k];
    }
    forall w | w in allWorkouts && IsUpcoming(w, now) && !DoneThisWeek(allWorkouts, w.name, now)
      ensures exists k :: 0 <= k < |suggested| && suggested[k].name == w.name
    {
      var m :| 0 <= m < |picks| && picks[m].name == w.name;
      assert picks[m] in multiset(suggested);
      var k :| 0 <= k < |suggested| && suggested[k] == picks[m];
    }
  }
}

/**
 * Workout instances: one scheduled occurrence of a template, keyed by
 * (userId, weekNumber, year); the completion transition of a single
 * document; and the recurrence engine that expands the active templates of
 * a user into the instances of one week.
 */
module Instances {
  import opened Wrappers
  import opened Calendar
  import opened Exercises
  import opened Templates

  /** One recorded set (`Set` in the shared types). */
  datatype SetRecord = SetRecord(setNumber: int, reps: int, weight: real, completed: bool)

  /** The recorded progress of one exercise (`ExerciseInProgress` in the shared types). */
  datatype ExerciseProgress = ExerciseProgress(exercise: Exercise, sets: seq<SetRecord>)

  datatype Instance = Instance(
    templateId: string,
    userId: string,
    date: Instant,
    completed: bool,
    completedAt: Option<Instant>,
    notes: Option<string>,
    weekNumber: int,
    year: int,
    progress: seq<ExerciseProgress>)

  /**
   * A new document built from its required paths: `completed` and `progress`
   * take the schema defaults, so it starts out not completed, with no
   * completion time, no notes and no recorded progress.
   */
  function Scheduled(templateId: string, userId: string, date: Instant, weekNumber: int, year: int): (r: Instance)
    ensures !r.completed && r.progress == [] && r.completedAt.None? && r.notes.None?
    ensures CompletionConsistent(r)
    ensures InWeek(r, userId, weekNumber, year) && r.templateId == templateId && r.date == date
  {
    Instance(templateId, userId, date, false, None, None, weekNumber, year, [])
  }

  // ---------------------------------------------------------------------------
  // Completion

  datatype CompletionData = CompletionData(exercises: seq<ExerciseProgress>, completedAt: Instant, notes: Option<string>)

  /**
   * The new state `markAsCompleted` gives a document; nothing checks the old
   * state. Completing records the payload and keeps the identity of the
   * instance and its week.
   */
  function Completed(i: Instance, data: CompletionData): (r: Instance)
    ensures SameIdentity(r, i)
    ensures r.completed && r.completedAt == Some(data.completedAt)
    ensures r.notes == data.notes && r.progress == data.exercises
  {
    i.(completed := true, completedAt := Some(data.completedAt), notes := data.notes, progress := data.exercises)
  }

  /** The fields that identify an instance and its week. */
  predicate SameIdentity(a: Instance, b: Instance) {
    && a.templateId == b.templateId && a.userId == b.userId && a.date == b.date
    && a.weekNumber == b.weekNumber && a.year == b.year
  }

  /** Whether `completedAt` is set exactly when the instance is completed. */
  predicate CompletionConsistent(i: Instance) {
    i.completed <==> i.completedAt.Some?
  }

  lemma CompletionKeepsConsistency(i: Instance, data: CompletionData)
    requires CompletionConsistent(i)
    ensures CompletionConsistent(Completed(i, data))
  {
  }

  /**
   * There is no guard against completing twice: a second completion
   * overwrites everything the first one recorded, so only the last payload
   * survives.
   */
  lemma RecompletionOverwrites(i: Instance, first: CompletionData, second: CompletionData)
    ensures Completed(Completed(i, first), second) == Completed(i, second)
    ensures i.completed ==> Completed(i, second).progress == second.exercises
  {
  }

  /** A mongoose document of the instance collection, updated in place. */
  class InstanceDoc {
    var templateId: string
    var userId: string
    var date: Instant
    var completed: bool
    var completedAt: Option<Instant>
    var notes: Option<string>
    var weekNumber: int
    var year: int
    var progress: seq<ExerciseProgress>

    function Value(): Instance
      reads this
    {
      Instance(templateId, userId, date, completed, completedAt, notes, weekNumber, year, progress)
    }

    constructor (v: Instance)
      ensures Value() == v
    {
      templateId, userId, date := v.templateId, v.userId, v.date;
      completed, completedAt, notes := v.completed, v.completedAt, v.notes;
      weekNumber, year, progress := v.weekNumber, v.year, v.progress;
    }

    /** `markAsCompleted`: four assignments, whatever the document's previous state. */
    method MarkAsCompleted(data: CompletionData)
      modifies this
      ensures Value() == Completed(old(Value()), data)
      ensures SameIdentity(Value(), old(Value()))
    {
      completed := true;
      completedAt := Some(data.completedAt);
      notes := data.notes;
      progress := data.exercises;
    }
  }

  // ---------------------------------------------------------------------------
  // Week keys and queries

  predicate InWeek(i: Instance, userId: string, weekNumber: int, year: int) {
    i.userId == userId && i.weekNumber == weekNumber && i.year == year
  }

  /** `find({ userId, weekNumber, year })`, in store order. */
  function FindWeek(docs: seq<Instance>, userId: string, weekNumber: int, year: int): (r: seq<Instance>)
    ensures forall x :: x in r <==> x in docs && InWeek(x, userId, weekNumber, year)
    ensures |r| <= |docs|
  {
    if docs == [] then []
    else
      var last := docs[|docs| - 1];
      FindWeek(docs[..|docs| - 1], userId, weekNumber, year)
      + (if InWeek(last, userId, weekNumber, year) then [last] else [])
  }

  lemma {:induction false} FindWeekAppend(a: seq<Instance>, b: seq<Instance>, userId: string, weekNumber: int, year: int)
    ensures FindWeek(a + b, userId, weekNumber, year) == FindWeek(a, userId, weekNumber, year) + FindWeek(b, userId, weekNumber, year)
    decreases |b|
  {
    if b != [] {
      var b' := b[..|b| - 1];
      assert (a + b)[..|a + b| - 1] == a + b';
      FindWeekAppend(a, b', userId, weekNumber, year);
    } else {
      assert a + b == a;
    }
  }

  /** `findCurrentWeek`: the instances keyed by the week number and the calendar year of `now`. */
  function FindCurrentWeek(docs: seq<Instance>, userId: string, now: Instant): (r: seq<Instance>)
    ensures forall x :: x in r <==> (x in docs && x.userId == userId
      && x.weekNumber == WeekNumber(now) && x.year == CalendarYear(now))
  {
    FindWeek(docs, userId, WeekNumber(now), CalendarYear(now))
  }

  function TemplateIds(xs: seq<Instance>): set<string> {
    set x | x in xs :: x.templateId
  }

  /** The templates, in order, whose id is not among `ids`. */
  function Missing(templates: seq<Template>, ids: set<string>): (r: seq<Template>)
    ensures forall t :: t in r <==> t in templates && t.id !in ids
    ensures |r| <= |templates|
  {
    if templates == [] then []
    else
      var last := templates[|templates| - 1];
      Missing(templates[..|templates| - 1], ids) + (if last.id in ids then [] else [last])
  }

  lemma {:induction false} MissingStep(templates: seq<Template>, k: int, ids: set<string>)
    requires 0 <= k < |templates|
    ensures Missing(templates[..k + 1], ids)
         == Missing(templates[..k], ids) + (if templates[k].id in ids then [] else [templates[k]])
  {
    assert templates[..k + 1][..k] == templates[..k];
  }

  // ---------------------------------------------------------------------------
  // The recurrence engine

  /**
   * `suggestDateForWorkout`: the anchor passed in, moved forward by a whole
   * number of days in 0..6, at the same time of day.
   */
  function SuggestDate(anchor: Instant, offset: int): (r: Instant)
    requires 0 <= offset < 7
    ensures anchor.day <= r.day < anchor.day + 7 && r.ms == anchor.ms
    ensures Millis(r) - Millis(anchor) == offset * MsPerDay
  {
    Instant(anchor.day + offset, anchor.ms)
  }

  /** Whether `i` is a new instance of template `t` for that key, dated within six days after `anchor`. */
  predicate ScheduledFor(i: Instance, t: Template, userId: string, anchor: Instant, weekNumber: int, year: int) {
    && i.templateId == t.id && i.userId == userId
    && i.weekNumber == weekNumber && i.year == year
    && !i.completed && i.completedAt.None? && i.notes.None? && i.progress == []
    && anchor.day <= i.date.day < anchor.day + 7 && i.date.ms == anchor.ms
  }

  /** `created[m]` is the instance scheduled for `missing[m]`, for every `m`. */
  predicate AllScheduled(created: seq<Instance>, missing: seq<Template>, userId: string, anchor: Instant,
                         weekNumber: int, year: int) {
    && |created| == |missing|
    && forall m :: 0 <= m < |created| ==> ScheduledFor(created[m], missing[m], userId, anchor, weekNumber, year)
  }

  lemma {:induction false} ScheduleStep(created: seq<Instance>, missing: seq<Template>, i: Instance, t: Template,
                                        userId: string, anchor: Instant, weekNumber: int, year: int)
    requires AllScheduled(created, missing, userId, anchor, weekNumber, year)
    requires ScheduledFor(i, t, userId, anchor, weekNumber, year)
    ensures AllScheduled(created + [i], missing + [t], userId, anchor, weekNumber, year)
  {
    forall m | 0 <= m < |created| + 1
      ensures ScheduledFor((created + [i])[m], (missing + [t])[m], userId, anchor, weekNumber, year)
    {
      if m < |created| {
        assert (created + [i])[m] == created[m] && (missing + [t])[m] == missing[m];
      }
    }
  }

  /**
   * The loop of `createWeekInstances`: one new instance per template whose id
   * is not yet present for the week, in template order. The day offset is
   * `Math.floor(Math.random() * 7)`, a free choice in 0..6.
   */
  method BuildNewInstances(userId: string, date: Instant, weekNumber: int, year: int,
                           templates: seq<Template>, existingIds: set<string>)
    returns (created: seq<Instance>)
    ensures AllScheduled(created, Missing(templates, existingIds), userId, date, weekNumber, year)
  {
    created := [];
    for k := 0 to |templates|
      invariant AllScheduled(created, Missing(templates[..k], existingIds), userId, date, weekNumber, year)
    {
      var template := templates[k];
      MissingStep(templates, k, existingIds);
      if template.id !in existingIds {
        var offset :| 0 <= offset < 7;
        var instance := Scheduled(template.id, userId, SuggestDate(date, offset), weekNumber, year);
        ScheduleStep(created, Missing(templates[..k], existingIds), instance, template, userId, date, weekNumber, year);
        created := created + [instance];
      } else {
        assert Missing(templates[..k], existingIds) + [] == Missing(templates[..k], existingIds);
      }
    }
    assert templates[..|templates|] == templates;
  }

  /**
   * What one sequential call of `createWeekInstances(userId, anchor)` may do
   * to the store, with the key (`weekNumber`, `year`) the call derives from
   * the anchor: append, in template order, one created instance for each
   * active template that has none under that key, and nothing else.
   */
  predicate IsExpansion(before: seq<Instance>, after: seq<Instance>, userId: string, anchor: Instant,
                        weekNumber: int, year: int, templates: seq<Template>) {
    var missing := Missing(templates, TemplateIds(FindWeek(before, userId, weekNumber, year)));
    && |after| == |before| + |missing|
    && after[..|before|] == before
    && forall m :: 0 <= m < |missing| ==>
         ScheduledFor(after[|before| + m], missing[m], userId, anchor, weekNumber, year)
  }

  /** Appending the instances scheduled for the missing templates is an expansion. */
  lemma {:induction false} AppendIsExpansion(before: seq<Instance>, created: seq<Instance>, userId: string, anchor: Instant,
                                             weekNumber: int, year: int, templates: seq<Template>)
    requires AllScheduled(created, Missing(templates, TemplateIds(FindWeek(before, userId, weekNumber, year))),
                          userId, anchor, weekNumber, year)
    ensures IsExpansion(before, before + created, userId, anchor, weekNumber, year, templates)
  {
    var after := before + created;
    assert after[..|before|] == before;
    forall m | 0 <= m < |created| ensures after[|before| + m] == created[m] {
    }
  }

  /** The instance collection, as seen by one user's sequential requests. */
  class InstanceStore {
    var docs: seq<Instance>

    constructor ()
      ensures docs == []
    {
      docs := [];
    }

    /**
     * `createWeekInstances`: key the week by the anchor's ISO week number and
     * calendar year, insert the missing instances in one batch, and return
     * every instance stored under that key. The active templates are given.
     */
    method CreateWeekInstances(userId: string, date: Instant, activeTemplates: seq<Template>)
      returns (week: seq<Instance>)
      modifies this
      ensures IsExpansion(old(docs), docs, userId, date, WeekNumber(date), CalendarYear(date), activeTemplates)
      ensures week == FindWeek(docs, userId, WeekNumber(date), CalendarYear(date))
      ensures week == CurrentWeek(userId, date)
    {
      var weekNumber := WeekNumber(date);
      var year := CalendarYear(date);
      var existing := FindWeek(docs, userId, weekNumber, year);
      var existingIds := TemplateIds(existing);
      var newInstances := BuildNewInstances(userId, date, weekNumber, year, activeTemplates, existingIds);
      AppendIsExpansion(docs, newInstances, userId, date, weekNumber, year, activeTemplates);
      if |newInstances| > 0 {
        docs := docs + newInstances;
      } else {
        assert docs + newInstances == docs;
      }
      week := FindWeek(docs, userId, weekNumber, year);
    }

    /** `findCurrentWeek`, with the clock reading passed in: the stored instances under `now`'s key. */
    function CurrentWeek(userId: string, now: Instant): (r: seq<Instance>)
      reads this
      ensures forall x :: x in r <==> (x in docs && x.userId == userId
        && x.weekNumber == WeekNumber(now) && x.year == CalendarYear(now))
    {
      FindCurrentWeek(docs, userId, now)
    }
  }

  // ---------------------------------------------------------------------------
  // Properties of the expansion

  /** After an expansion every active template has an instance under the anchor's key. */
  lemma {:induction false} ExpansionCoversTemplates(before: seq<Instance>, after: seq<Instance>, userId: string,
                                                    anchor: Instant, weekNumber: int, year: int, templates: seq<Template>)
    requires IsExpansion(before, after, userId, anchor, weekNumber, year, templates)
    ensures forall t :: t in templates ==> t.id in TemplateIds(FindWeek(after, userId, weekNumber, year))
  {
    var ids := TemplateIds(FindWeek(before, userId, weekNumber, year));
    var missing := Missing(templates, ids);
    var added := after[|before|..];
    assert after == before + added;
    FindWeekAppend(before, added, userId, weekNumber, year);
    forall t | t in templates
      ensures t.id in TemplateIds(FindWeek(after, userId, weekNumber, year))
    {
      if t.id in ids {
        var x :| x in FindWeek(before, userId, weekNumber, year) && x.templateId == t.id;
        assert x in FindWeek(after, userId, weekNumber, year);
      } else {
        assert t in missing;
        var m :| 0 <= m < |missing| && missing[m] == t;
        var x := after[|before| + m];
        assert x in after;
        assert x in FindWeek(after, userId, weekNumber, year);
      }
    }
  }

  lemma {:induction false} NothingMissing(templates: seq<Template>, ids: set<string>)
    requires forall t :: t in templates ==> t.id in ids
    ensures Missing(templates, ids) == []
    decreases |templates|
  {
    if templates != [] {
      var init := templates[..|templates| - 1];
      forall t | t in init ensures t.id in ids {
        var k :| 0 <= k < |init| && init[k] == t;
        assert templates[k] == t;
      }
      NothingMissing(init, ids);
      assert templates[|templates| - 1] in templates;
    }
  }

  /**
   * Idempotence: a second sequential call whose anchor has the same key
   * (`weekNumber`, `year`) inserts nothing, so the store, and with it the
   * returned week, are those of the first call.
   */
  lemma {:induction false} ExpansionIdempotent(d0: seq<Instance>, d1: seq<Instance>, d2: seq<Instance>, userId: string,
                                               first: Instant, second: Instant, weekNumber: int, year: int,
                                               templates: seq<Template>)
    requires IsExpansion(d0, d1, userId, first, weekNumber, year, templates)
    requires IsExpansion(d1, d2, userId, second, weekNumber, year, templates)
    ensures d2 == d1
  {
    ExpansionCoversTemplates(d0, d1, userId, first, weekNumber, year, templates);
    NothingMissing(templates, TemplateIds(FindWeek(d1, userId, weekNumber, year)));
    assert d2 == d2[..|d1|];
  }

  function Key(i: Instance): (string, string, int, int) {
    (i.userId, i.templateId, i.weekNumber, i.year)
  }

  /** At most one instance per (userId, templateId, weekNumber, year). */
  predicate UniqueKeys(docs: seq<Instance>) {
    forall i, j :: 0 <= i < j < |docs| ==> Key(docs[i]) != Key(docs[j])
  }

  predicate DistinctIds(templates: seq<Template>) {
    forall i, j :: 0 <= i < j < |templates| ==> templates[i].id != templates[j].id
  }

  lemma {:induction false} MissingDistinct(templates: seq<Template>, ids: set<string>)
    requires DistinctIds(templates)
    ensures DistinctIds(Missing(templates, ids))
    decreases |templates|
  {
    if templates != [] {
      var init := templates[..|templates| - 1];
      var last := templates[|templates| - 1];
      MissingDistinct(init, ids);
      forall t | t in Missing(init, ids) ensures t.id != last.id {
        var k :| 0 <= k < |init| && init[k] == t;
        assert templates[k] == t;
      }
    }
  }

  /** With distinct template ids, an expansion keeps the store free of duplicate keys. */
  lemma {:induction false} ExpansionKeepsKeysUnique(before: seq<Instance>, after: seq<Instance>, userId: string,
                                                    anchor: Instant, weekNumber: int, year: int, templates: seq<Template>)
    requires UniqueKeys(before) && DistinctIds(templates)
    requires IsExpansion(before, after, userId, anchor, weekNumber, year, templates)
    ensures UniqueKeys(after)
  {
    var existing := FindWeek(before, userId, weekNumber, year);
    var missing := Missing(templates, TemplateIds(existing));
    MissingDistinct(templates, TemplateIds(existing));
    var n := |before|;
    forall i, j | 0 <= i < j < |after| ensures Key(after[i]) != Key(after[j]) {
      if j >= n {
        assert ScheduledFor(after[j], missing[j - n], userId, anchor, weekNumber, year);
        if i < n {
          assert after[i] == before[i];
          assert missing[j - n] in missing;
          if InWeek(before[i], userId, weekNumber, year) {
            assert before[i] in existing;
          }
        } else {
          assert ScheduledFor(after[i], missing[i - n], userId, anchor, weekNumber, year);
        }
      } else {
        assert after[i] == before[i] && after[j] == before[j];
      }
    }
  }

  /**
   * The stored key uses the calendar year of the anchor, not the ISO
   * week-numbering year: 1 January 2024 (a Monday) and 30 December 2024 (the
   * Monday of ISO week 1 of 2025) both get the key (1, 2024), although they
   * lie 52 weeks apart.
   */
  lemma CalendarYearKeyCollides()
    ensures WeekNumber(Instant(19723, 0)) == WeekNumber(Instant(20087, 0)) == 1
    ensures CalendarYear(Instant(19723, 0)) == CalendarYear(Instant(20087, 0)) == 2024
    ensures MondayOf(20087) - MondayOf(19723) == 52 * 7
  {
    WeekOfDecember30th2024();
    KnownYearStarts();
    YearOfUnique(2024, 19723);
    assert ThursdayOf(19723) == 19726;
    WeekNumberIn(19723, 0, 2024);
    assert IsoWeekday(19723) == 1 && IsoWeekday(20087) == 1;
  }
  /**
   * The consequence of that shared key: once the instances of 1 January 2024's
   * week exist, a call anchored on 30 December 2024 finds them under (1, 2024)
   * and inserts nothing for its own week.
   */
  lemma {:induction false} DecemberWeekOneSkipped(d0: seq<Instance>, d1: seq<Instance>, d2: seq<Instance>, userId: string,
                                                  january: Instant, december: Instant, templates: seq<Template>)
    requires january.day == 19723 && december.day == 20087
    requires IsExpansion(d0, d1, userId, january, WeekNumber(january), CalendarYear(january), templates)
    requires IsExpansion(d1, d2, userId, december, WeekNumber(december), CalendarYear(december), templates)
    ensures d2 == d1
  {
    CalendarYearKeyCollides();
    TimeOfDayIrrelevant(january, Instant(19723, 0));
    TimeOfDayIrrelevant(december, Instant(20087, 0));
    ExpansionIdempotent(d0, d1, d2, userId, january, december, WeekNumber(january), CalendarYear(january), templates);
  }


  /**
   * A suggested date may leave the week it is keyed under: anchored on
   * Sunday 29 December 2024 (ISO week 52) with offset 6, the instance is
   * dated Saturday 4 January 2025 (ISO week 1) but keyed (52, 2024).
   */
  lemma SuggestedDateMayLeaveKeyedWeek()
    ensures WeekNumber(Instant(20086, 0)) == 52 && CalendarYear(Instant(20086, 0)) == 2024
    ensures WeekNumber(SuggestDate(Instant(20086, 0), 6)) == 1
  {
    KnownYearStarts();
    YearOfUnique(2024, 20086);
    assert ThursdayOf(20086) == 20083;
    WeekNumberIn(20086, 0, 2024);
    assert ThursdayOf(20092) == 20090;
    WeekNumberIn(20092, 0, 2025);
  }
}

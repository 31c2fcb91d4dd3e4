/**
 * Workout templates: the schema's field rules (required paths, `trim`,
 * `min`, `enum` and defaults) as a validation function over a submitted
 * document, and the invariant every stored template satisfies.
 */
module Templates {
  import opened Wrappers
  import opened Exercises

  datatype WorkoutType = Strength | Cardio | Flexibility | Mixed

  datatype Frequency = Daily | Weekly | Monthly

  /**
   * A stored template. The exercise references arrive resolved. There is no
   * `isActive` field: the schema declares no such path, so a stored template
   * never carries one.
   */
  datatype Template = Template(
    id: string,
    userId: string,
    name: string,
    exercises: seq<Exercise>,
    duration: real,
    workoutType: WorkoutType,
    muscleGroups: seq<string>,
    frequency: Frequency)

  /** A template document as submitted; `isActive` is accepted by the interface but has no schema path. */
  datatype TemplateInput = TemplateInput(
    name: Option<string>,
    exercises: seq<Option<Exercise>>,
    duration: Option<real>,
    userId: Option<string>,
    workoutType: Option<string>,
    muscleGroups: seq<string>,
    frequency: Option<string>,
    isActive: Option<bool>)

  // ---------------------------------------------------------------------------
  // String.prototype.trim

  /** ECMAScript WhiteSpace and LineTerminator code points. */
  predicate IsSpace(c: char) {
    || c == '\t' || c == '\n' || c == '\U{000B}' || c == '\U{000C}' || c == '\r' || c == ' '
    || c == '\U{00A0}' || c == '\U{1680}' || ('\U{2000}' <= c <= '\U{200A}')
    || c == '\U{2028}' || c == '\U{2029}' || c == '\U{202F}' || c == '\U{205F}'
    || c == '\U{3000}' || c == '\U{FEFF}'
  }

  function TrimStart(s: string): (r: string)
    ensures |r| <= |s| && r == s[|s| - |r|..]
    ensures r == [] || !IsSpace(r[0])
    ensures forall k :: 0 <= k < |s| - |r| ==> IsSpace(s[k])
    ensures (forall k :: 0 <= k < |s| ==> IsSpace(s[k])) ==> r == []
  {
    if s != [] && IsSpace(s[0]) then TrimStart(s[1..]) else s
  }

  function TrimEnd(s: string): (r: string)
    ensures |r| <= |s| && r == s[..|r|]
    ensures r == [] || !IsSpace(r[|r| - 1])
    ensures forall k :: |r| <= k < |s| ==> IsSpace(s[k])
  {
    if s != [] && IsSpace(s[|s| - 1]) then TrimEnd(s[..|s| - 1]) else s
  }

  /** Whether `s` neither starts nor ends with white space. */
  predicate Trimmed(s: string) {
    s == [] || (!IsSpace(s[0]) && !IsSpace(s[|s| - 1]))
  }

  /**
   * `trim()`: the part of `s` left once the leading and the trailing white
   * space are removed; it neither starts nor ends with white space.
   */
  function Trim(s: string): (r: string)
    ensures Trimmed(r)
    ensures exists i :: StrippedAt(s, r, i)
  {
    var t := TrimStart(s);
    var r := TrimEnd(t);
    TrimStripped(s, t, r);
    r
  }

  /** Stripping the leading and then the trailing white space leaves a middle part of `s`. */
  lemma {:induction false} TrimStripped(s: string, t: string, r: string)
    requires |t| <= |s| && t == s[|s| - |t|..] && forall k :: 0 <= k < |s| - |t| ==> IsSpace(s[k])
    requires |r| <= |t| && r == t[..|r|] && forall k :: |r| <= k < |t| ==> IsSpace(t[k])
    ensures StrippedAt(s, r, |s| - |t|)
  {
    var i := |s| - |t|;
    assert t == s[i..];
    assert r == t[..|r|];
    assert r == s[i..i + |r|];
    forall k | i + |r| <= k < |s| ensures IsSpace(s[k]) {
      assert s[k] == t[k - i];
    }
  }

  /** `r` is `s[i..i + |r|]`, and everything of `s` before and after it is white space. */
  predicate StrippedAt(s: string, r: string, i: int) {
    && 0 <= i <= |s| - |r|
    && r == s[i..i + |r|]
    && (forall k :: 0 <= k < i ==> IsSpace(s[k]))
    && (forall k :: i + |r| <= k < |s| ==> IsSpace(s[k]))
  }

  lemma {:induction false} TrimStartOfTrimmed(s: string)
    requires s == [] || !IsSpace(s[0])
    ensures TrimStart(s) == s
  {
  }

  lemma {:induction false} TrimEndOfTrimmed(s: string)
    requires s == [] || !IsSpace(s[|s| - 1])
    ensures TrimEnd(s) == s
  {
  }

  /** Trimming leaves already-trimmed text alone, so `trim()` is idempotent. */
  lemma {:induction false} TrimFixesTrimmed(s: string)
    requires Trimmed(s)
    ensures Trim(s) == s
  {
    TrimStartOfTrimmed(s);
    TrimEndOfTrimmed(s);
  }

  lemma TrimIdempotent(s: string)
    ensures Trim(Trim(s)) == Trim(s)
  {
    TrimFixesTrimmed(Trim(s));
  }

  /** Text made only of white space trims to the empty string. */
  lemma {:induction false} TrimAllSpace(s: string)
    requires forall k :: 0 <= k < |s| ==> IsSpace(s[k])
    ensures Trim(s) == []
  {
  }

  // ---------------------------------------------------------------------------
  // Enumerations and defaults

  /** The schema's `enum` for `type`: exactly the four names are accepted, each as its own value. */
  function ParseWorkoutType(s: string): (r: Option<WorkoutType>)
    ensures r.Some? ==> WorkoutTypeName(r.value) == s
    ensures r.Some? <==> exists t :: WorkoutTypeName(t) == s
  {
    if s == "strength" then Some(Strength)
    else if s == "cardio" then Some(Cardio)
    else if s == "flexibility" then Some(Flexibility)
    else if s == "mixed" then Some(Mixed)
    else None
  }

  function WorkoutTypeName(t: WorkoutType): string {
    match t
    case Strength => "strength"
    case Cardio => "cardio"
    case Flexibility => "flexibility"
    case Mixed => "mixed"
  }

  /** The schema's `enum` for `frequency`: exactly the three names are accepted, each as its own value. */
  function ParseFrequency(s: string): (r: Option<Frequency>)
    ensures r.Some? ==> FrequencyName(r.value) == s
    ensures r.Some? <==> exists f :: FrequencyName(f) == s
  {
    if s == "daily" then Some(Daily)
    else if s == "weekly" then Some(Weekly)
    else if s == "monthly" then Some(Monthly)
    else None
  }

  function FrequencyName(f: Frequency): string {
    match f
    case Daily => "daily"
    case Weekly => "weekly"
    case Monthly => "monthly"
  }

  lemma EnumNamesRoundTrip(t: WorkoutType, f: Frequency)
    ensures ParseWorkoutType(WorkoutTypeName(t)) == Some(t)
    ensures ParseFrequency(FrequencyName(f)) == Some(f)
  {
  }

  /** An absent `type` takes the default "strength"; a present one must be one of the four names. */
  function WorkoutTypeOrDefault(v: Option<string>): Option<WorkoutType> {
    if v.None? then Some(Strength) else ParseWorkoutType(v.value)
  }

  /** An absent `frequency` takes the default "weekly"; a present one must be one of the three names. */
  function FrequencyOrDefault(v: Option<string>): Option<Frequency> {
    if v.None? then Some(Weekly) else ParseFrequency(v.value)
  }

  // ---------------------------------------------------------------------------
  // Validation

  /** The invariant of a stored template. */
  predicate Valid(t: Template) {
    && t.name != [] && Trimmed(t.name)
    && t.duration >= 0.0
    && t.userId != []
    && forall k :: 0 <= k < |t.muscleGroups| ==> Trimmed(t.muscleGroups[k])
  }

  predicate AllPresent(xs: seq<Option<Exercise>>) {
    forall k :: 0 <= k < |xs| ==> xs[k].Some?
  }

  function Resolved(xs: seq<Option<Exercise>>): (r: seq<Exercise>)
    requires AllPresent(xs)
    ensures |r| == |xs| && forall k :: 0 <= k < |xs| ==> xs[k] == Some(r[k])
  {
    seq(|xs|, k requires 0 <= k < |xs| => xs[k].value)
  }

  /** The paths whose validators fail once the casts (trimming) are applied, in schema order. */
  function FailedPaths(input: TemplateInput): seq<string> {
    (if input.name.Some? && Trim(input.name.value) != [] then [] else ["name"])
    + (if AllPresent(input.exercises) then [] else ["exercises"])
    + (if input.duration.Some? && input.duration.value >= 0.0 then [] else ["duration"])
    + (if input.userId.Some? && input.userId.value != [] then [] else ["userId"])
    + (if WorkoutTypeOrDefault(input.workoutType).Some? then [] else ["type"])
    + (if FrequencyOrDefault(input.frequency).Some? then [] else ["frequency"])
  }

  /**
   * Casting and validating a submitted template: `name` and each muscle
   * group are trimmed, `type` and `frequency` fall back to their defaults,
   * and `isActive` is dropped.
   */
  function Validate(id: string, input: TemplateInput): (r: Result<Template, seq<string>>)
    ensures r.Ok? <==>
      && input.name.Some? && Trim(input.name.value) != []
      && AllPresent(input.exercises)
      && input.duration.Some? && input.duration.value >= 0.0
      && input.userId.Some? && input.userId.value != []
      && WorkoutTypeOrDefault(input.workoutType).Some?
      && FrequencyOrDefault(input.frequency).Some?
    ensures r.Ok? ==> Valid(r.value) && r.value.id == id
    ensures r.Ok? ==> r.value.name == Trim(input.name.value) && r.value.duration == input.duration.value
    ensures r.Ok? ==> r.value.userId == input.userId.value
    ensures r.Ok? ==> (|r.value.exercises| == |input.exercises|
      && forall k :: 0 <= k < |input.exercises| ==> input.exercises[k] == Some(r.value.exercises[k]))
    ensures r.Ok? && input.workoutType.Some? ==> ParseWorkoutType(input.workoutType.value) == Some(r.value.workoutType)
    ensures r.Ok? && input.frequency.Some? ==> ParseFrequency(input.frequency.value) == Some(r.value.frequency)
    ensures r.Ok? && input.workoutType.None? ==> r.value.workoutType == Strength
    ensures r.Ok? && input.frequency.None? ==> r.value.frequency == Weekly
    ensures r.Ok? ==> (|r.value.muscleGroups| == |input.muscleGroups|
      && forall k :: 0 <= k < |input.muscleGroups| ==> r.value.muscleGroups[k] == Trim(input.muscleGroups[k]))
    ensures r.Err? ==> r.error == FailedPaths(input) && r.error != []
  {
    var failed := FailedPaths(input);
    if failed != [] then Err(failed)
    else
      Ok(Template(
        id,
        input.userId.value,
        Trim(input.name.value),
        Resolved(input.exercises),
        input.duration.value,
        WorkoutTypeOrDefault(input.workoutType).value,
        seq(|input.muscleGroups|, k requires 0 <= k < |input.muscleGroups| => Trim(input.muscleGroups[k])),
        FrequencyOrDefault(input.frequency).value))
  }

  /** The submitted form of a stored template. */
  function InputOf(t: Template, isActive: Option<bool>): TemplateInput {
    TemplateInput(
      Some(t.name),
      seq(|t.exercises|, k requires 0 <= k < |t.exercises| => Some(t.exercises[k])),
      Some(t.duration),
      Some(t.userId),
      Some(WorkoutTypeName(t.workoutType)),
      t.muscleGroups,
      Some(FrequencyName(t.frequency)),
      isActive)
  }

  /** Re-submitting a stored template gives it back unchanged, whatever `isActive` says. */
  lemma {:induction false} ValidateRoundTrip(t: Template, isActive: Option<bool>)
    requires Valid(t)
    ensures Validate(t.id, InputOf(t, isActive)) == Ok(t)
  {
    TrimFixesTrimmed(t.name);
    EnumNamesRoundTrip(t.workoutType, t.frequency);
    var input := InputOf(t, isActive);
    assert AllPresent(input.exercises);
    assert Resolved(input.exercises) == t.exercises;
    forall k | 0 <= k < |t.muscleGroups| ensures Trim(t.muscleGroups[k]) == t.muscleGroups[k] {
      TrimFixesTrimmed(t.muscleGroups[k]);
    }
    var groups := seq(|t.muscleGroups|, k requires 0 <= k < |t.muscleGroups| => Trim(t.muscleGroups[k]));
    assert groups == t.muscleGroups;
    assert FailedPaths(input) == [];
  }

  /** `isActive` has no schema path, so it never influences what is stored. */
  lemma IsActiveIgnored(id: string, input: TemplateInput, a: Option<bool>)
    ensures Validate(id, input.(isActive := a)) == Validate(id, input)
  {
  }

  /** A name of blanks is refused, because trimming happens before the `required` check. */
  lemma {:induction false} BlankNameRefused(id: string, input: TemplateInput)
    requires input.name.Some? && forall k :: 0 <= k < |input.name.value| ==> IsSpace(input.name.value[k])
    ensures Validate(id, input).Err? && "name" in Validate(id, input).error
  {
    TrimAllSpace(input.name.value);
  }
}

/**
 * The exercise collection: a record with six required paths and a unique
 * index on (userId, muscleGroup).
 */
module Exercises {
  import opened Wrappers

  datatype Exercise = Exercise(
    name: string,
    muscleGroup: string,
    totalSets: int,
    reps: int,
    weight: real,
    userId: string)

  /** An exercise document as submitted: any path may be absent. */
  datatype ExerciseInput = ExerciseInput(
    name: Option<string>,
    muscleGroup: Option<string>,
    totalSets: Option<int>,
    reps: Option<int>,
    weight: Option<real>,
    userId: Option<string>)

  datatype SaveError =
    | ValidationFailed(paths: seq<string>)  // the required paths that failed, in schema order
    | DuplicateKey                           // the unique (userId, muscleGroup) index refused the insert

  /** A required string path fails when absent or empty; a required number only when absent. */
  predicate StringPresent(v: Option<string>) {
    v.Some? && v.value != ""
  }

  function FailedPaths(input: ExerciseInput): (paths: seq<string>)
    ensures paths == [] <==>
      StringPresent(input.name) && StringPresent(input.muscleGroup) && input.totalSets.Some?
      && input.reps.Some? && input.weight.Some? && StringPresent(input.userId)
  {
    (if StringPresent(input.name) then [] else ["name"])
    + (if StringPresent(input.muscleGroup) then [] else ["muscleGroup"])
    + (if input.totalSets.Some? then [] else ["totalSets"])
    + (if input.reps.Some? then [] else ["reps"])
    + (if input.weight.Some? then [] else ["weight"])
    + (if StringPresent(input.userId) then [] else ["userId"])
  }

  /** Schema validation: every required path present, otherwise the list of failing paths. */
  function Validate(input: ExerciseInput): (r: Result<Exercise, SaveError>)
    ensures r.Ok? <==> FailedPaths(input) == []
    ensures r.Ok? ==> Well(r.value)
    ensures r.Ok? ==> && Some(r.value.name) == input.name && Some(r.value.muscleGroup) == input.muscleGroup
                      && Some(r.value.totalSets) == input.totalSets && Some(r.value.reps) == input.reps
                      && Some(r.value.weight) == input.weight && Some(r.value.userId) == input.userId
    ensures r.Err? ==> r.error == ValidationFailed(FailedPaths(input)) && r.error.paths != []
  {
    var failed := FailedPaths(input);
    if failed != [] then Err(ValidationFailed(failed))
    else Ok(Exercise(input.name.value, input.muscleGroup.value, input.totalSets.value,
                     input.reps.value, input.weight.value, input.userId.value))
  }

  /** A stored exercise satisfies the required-field rules. */
  predicate Well(e: Exercise) {
    e.name != "" && e.muscleGroup != "" && e.userId != ""
  }

  function InputOf(e: Exercise): ExerciseInput {
    ExerciseInput(Some(e.name), Some(e.muscleGroup), Some(e.totalSets), Some(e.reps), Some(e.weight), Some(e.userId))
  }

  /** Validation accepts exactly the well-formed records, unchanged. */
  lemma ValidateRoundTrip(e: Exercise)
    ensures Validate(InputOf(e)) == Ok(e) <==> Well(e)
  {
  }

  predicate SameKey(a: Exercise, b: Exercise) {
    a.userId == b.userId && a.muscleGroup == b.muscleGroup
  }

  /** Whether the store already holds an exercise for this (userId, muscleGroup). */
  predicate HasKey(store: seq<Exercise>, e: Exercise) {
    exists x :: x in store && SameKey(x, e)
  }

  /** The unique index: at most one exercise per (userId, muscleGroup). */
  predicate UniquePerUserAndMuscleGroup(store: seq<Exercise>) {
    forall i, j :: 0 <= i < j < |store| ==> !SameKey(store[i], store[j])
  }

  /**
   * `save()` of a new exercise: schema validation first, then the unique
   * index. A rejected insert leaves the store as it was.
   */
  method Save(store: seq<Exercise>, input: ExerciseInput) returns (store': seq<Exercise>, r: Result<Exercise, SaveError>)
    ensures FailedPaths(input) != [] ==> r == Err(ValidationFailed(FailedPaths(input)))
    ensures r.Ok? <==> FailedPaths(input) == [] && !HasKey(store, Validate(input).value)
    ensures r.Ok? ==> Validate(input) == Ok(r.value) && store' == store + [r.value]
    ensures r.Err? ==> store' == store
    ensures r == Err(DuplicateKey) <==> FailedPaths(input) == [] && HasKey(store, Validate(input).value)
    ensures UniquePerUserAndMuscleGroup(store) ==> UniquePerUserAndMuscleGroup(store')
  {
    var v := Validate(input);
    if v.Err? {
      return store, v;
    }
    var e := v.value;
    if exists x :: x in store && SameKey(x, e) {
      return store, Err(DuplicateKey);
    }
    store', r := store + [e], Ok(e);
    assert forall i :: 0 <= i < |store| ==> !SameKey(store'[i], e) by {
      forall i | 0 <= i < |store| ensures !SameKey(store'[i], e) {
        assert store'[i] in store;
      }
    }
  }

  /** Appending a record whose key is new keeps the index unique. */
  lemma {:induction false} AppendFreshKey(store: seq<Exercise>, e: Exercise)
    requires UniquePerUserAndMuscleGroup(store) && !HasKey(store, e)
    ensures UniquePerUserAndMuscleGroup(store + [e])
  {
    var s := store + [e];
    forall i, j | 0 <= i < j < |s| ensures !SameKey(s[i], s[j]) {
      if j == |store| {
        assert s[i] in store;
      }
    }
  }

  /** Two users may each keep an exercise for the same muscle group. */
  lemma {:induction false} DifferentUsersShareMuscleGroup(store: seq<Exercise>, a: Exercise, b: Exercise)
    requires UniquePerUserAndMuscleGroup(store) && !HasKey(store, a) && !HasKey(store, b)
    requires a.muscleGroup == b.muscleGroup && a.userId != b.userId
    ensures !HasKey(store + [a], b)
    ensures UniquePerUserAndMuscleGroup(store + [a] + [b])
  {
    AppendFreshKey(store, a);
    forall x | x in store + [a] ensures !SameKey(x, b) {
      assert x in store || x == a;
    }
    AppendFreshKey(store + [a], b);
  }

  /** Two "Espalda" exercises of one user: the index admits the first and refuses the second. */
  lemma SecondEspaldaRefused(u: string, first: Exercise, second: Exercise)
    requires first.userId == u && second.userId == u
    requires first.muscleGroup == "Espalda" && second.muscleGroup == "Espalda"
    ensures HasKey([first], second)
    ensures !UniquePerUserAndMuscleGroup([first, second])
  {
    assert first in [first];
    var s := [first, second];
    assert SameKey(s[0], s[1]);
  }
}

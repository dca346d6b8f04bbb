/**
 * The application's entities: exercises, workout sessions, exercise
 * records and user profiles, with their derived values, field rules,
 * defaults and default orderings.
 */
module Models {
  import opened Wrappers
  import opened Text
  import Seqs

  type UserId = int
  type ExerciseId = int
  type SessionId = int
  type RecordId = int

  /** A calendar date, as a day number. */
  type Date = int

  /** A moment in time (a `created_at` column), in microseconds. */
  type Instant = int

  const MicrosPerSecond := 1_000_000
  const MicrosPerDay := 86_400 * MicrosPerSecond

  /** A time of day (a `TimeField`), in microseconds since midnight. */
  type TimeOfDay = t: int | 0 <= t < MicrosPerDay

  /** A time of day from hours and minutes. */
  function Clock(hours: int, minutes: int): TimeOfDay
    requires 0 <= hours < 24 && 0 <= minutes < 60
  {
    (hours * 3600 + minutes * 60) * MicrosPerSecond
  }

  // ---------------------------------------------------------------- Exercise

  /** A kind of exercise; `name` is unique among exercises. */
  datatype Exercise = Exercise(
    id: ExerciseId,
    name: string,
    description: Option<string>,
    muscleGroups: Option<string>,
    createdAt: Instant)

  /** Exercises are listed by name, ascending. */
  predicate ExerciseOrder(a: Exercise, b: Exercise) {
    LexLe(a.name, b.name)
  }

  lemma ExerciseOrderIsTotalPreorder()
    ensures Seqs.TotalPreorder(ExerciseOrder)
  {
    forall a: Exercise, b: Exercise ensures ExerciseOrder(a, b) || ExerciseOrder(b, a) {
      LexLeTotal(a.name, b.name);
    }
    forall a: Exercise, b: Exercise, c: Exercise | ExerciseOrder(a, b) && ExerciseOrder(b, c)
      ensures ExerciseOrder(a, c)
    {
      LexLeTransitive(a.name, b.name, c.name);
    }
  }

  // ---------------------------------------------------------- WorkoutSession

  /** One workout of one user on one date; `(user, date, startTime)` is unique. */
  datatype WorkoutSession = WorkoutSession(
    id: SessionId,
    user: UserId,
    date: Date,
    startTime: TimeOfDay,
    endTime: Option<TimeOfDay>,
    notes: Option<string>,
    isCompleted: bool,
    createdAt: Instant)

  /**
   * The session's duration in microseconds: none while no end time is set,
   * otherwise the end minus the start, both taken on the session's own date,
   * so an end before the start gives a negative span (no wrap past midnight).
   */
  function Duration(s: WorkoutSession): (d: Option<int>)
    ensures d.None? <==> s.endTime.None?
    ensures d.Some? ==> s.startTime + d.value == s.endTime.value
    ensures d.Some? ==> -MicrosPerDay < d.value < MicrosPerDay
    ensures d.Some? ==> (d.value < 0 <==> s.endTime.value < s.startTime)
  {
    match s.endTime
    case None => None
    case Some(end) => Some(end - s.startTime)
  }

  /** 13:00 to 14:30 on the same date lasts 5400 seconds. */
  lemma DurationExample(s: WorkoutSession)
    requires s.startTime == Clock(13, 0) && s.endTime == Some(Clock(14, 30))
    ensures Duration(s) == Some(5400 * MicrosPerSecond)
  {
  }

  /** Sessions are listed newest date first, and within a date latest start first. */
  predicate SessionOrder(a: WorkoutSession, b: WorkoutSession) {
    a.date > b.date || (a.date == b.date && a.startTime >= b.startTime)
  }

  lemma SessionOrderIsTotalPreorder()
    ensures Seqs.TotalPreorder(SessionOrder)
  {
  }

  /**
   * A session object whose fields views update in place; `Row` is the
   * stored row it corresponds to.
   */
  class SessionInstance {
    const id: SessionId
    var user: UserId
    var date: Date
    var startTime: TimeOfDay
    var endTime: Option<TimeOfDay>
    var notes: Option<string>
    var isCompleted: bool
    const createdAt: Instant

    function Row(): WorkoutSession
      reads this
    {
      WorkoutSession(id, user, date, startTime, endTime, notes, isCompleted, createdAt)
    }

    /**
     * A session as created: the requester is its user, the start time is
     * stamped with the current time, there is no end time and it is not
     * completed.
     */
    constructor (id: SessionId, user: UserId, date: Date, notes: Option<string>, now: TimeOfDay, createdAt: Instant)
      ensures Row() == WorkoutSession(id, user, date, now, None, notes, false, createdAt)
      ensures Duration(Row()).None?
    {
      this.id := id;
      this.user := user;
      this.date := date;
      this.startTime := now;
      this.endTime := None;
      this.notes := notes;
      this.isCompleted := false;
      this.createdAt := createdAt;
    }
  }

  // ---------------------------------------------------------- ExerciseRecord

  /** The largest `weight_kg` five digits with two decimals allow: 999.99 kg, in hundredths. */
  const MaxWeight := 99_999

  /** The largest value a `PositiveIntegerField` stores. */
  const MaxPositiveInteger := 2_147_483_647

  /** The number of sets when none is given. */
  const DefaultSets := 1

  /**
   * One exercise as performed in one session. `weight` is `weight_kg` in
   * hundredths of a kilogram (a decimal with two places, so exact).
   */
  datatype ExerciseRecord = ExerciseRecord(
    id: RecordId,
    session: SessionId,
    exercise: ExerciseId,
    weight: int,
    reps: int,
    sets: int,
    difficulty: int,
    notes: Option<string>,
    createdAt: Instant)
  {
    /** What the field validators accept. */
    predicate Valid() {
      && 0 <= weight <= MaxWeight
      && 1 <= reps <= MaxPositiveInteger
      && 1 <= sets <= MaxPositiveInteger
      && 1 <= difficulty <= 10
    }

    /** Weight times reps times sets, in hundredths of a kilogram. */
    function TotalVolume(): int {
      weight * reps * sets
    }
  }

  /** A new record; the sets count is 1 when none is given. */
  function NewRecord(
    id: RecordId, session: SessionId, exercise: ExerciseId, weight: int, reps: int,
    sets: Option<int>, difficulty: int, notes: Option<string>, createdAt: Instant): (r: ExerciseRecord)
    ensures r.id == id && r.session == session && r.exercise == exercise && r.weight == weight && r.reps == reps
    ensures r.difficulty == difficulty && r.notes == notes && r.createdAt == createdAt
    ensures r.sets == if sets.Some? then sets.value else 1
    ensures sets.None? && 0 <= weight <= MaxWeight && 1 <= reps <= MaxPositiveInteger && 1 <= difficulty <= 10 ==> r.Valid()
  {
    ExerciseRecord(id, session, exercise, weight, reps, sets.GetOr(DefaultSets), difficulty, notes, createdAt)
  }

  /**
   * The volume of a valid record is never negative, is zero exactly when the
   * weight is, and is at least the weight and at least reps times sets times
   * the weight of each single set.
   */
  lemma TotalVolumeBounds(r: ExerciseRecord)
    requires r.Valid()
    ensures r.TotalVolume() >= r.weight >= 0
    ensures r.TotalVolume() == 0 <==> r.weight == 0
    ensures r.TotalVolume() <= MaxWeight * MaxPositiveInteger * MaxPositiveInteger
  {
    var w, n, k := r.weight, r.reps, r.sets;
    var wn := w * n;
    MulAtLeast(w, n);
    MulAtLeast(wn, k);
    assert r.TotalVolume() == wn * k;
    MulAtMost(w, n, MaxWeight, MaxPositiveInteger);
    MulAtMost(wn, k, MaxWeight * MaxPositiveInteger, MaxPositiveInteger);
  }

  lemma MulAtLeast(a: int, b: int)
    requires a >= 0 && b >= 1
    ensures a * b >= a && (a * b == 0 <==> a == 0)
  {
    assert a * b == a * (b - 1) + a;
    assert a * (b - 1) >= 0;
  }

  lemma MulAtMost(a: int, b: int, x: int, y: int)
    requires 0 <= a <= x && 0 <= b <= y
    ensures a * b <= x * y
  {
    assert a * b <= x * b by { assert x * b - a * b == (x - a) * b; }
    assert x * b <= x * y by { assert x * y - x * b == x * (y - b); }
  }

  /** 80.0 kg for 10 reps in 3 sets is a volume of 2400.00. */
  lemma TotalVolumeExample(r: ExerciseRecord)
    requires r.weight == 8000 && r.reps == 10 && r.sets == 3
    ensures r.TotalVolume() == 240_000
  {
  }

  /** Records are listed newest first. */
  predicate RecordOrder(a: ExerciseRecord, b: ExerciseRecord) {
    a.createdAt >= b.createdAt
  }

  lemma RecordOrderIsTotalPreorder()
    ensures Seqs.TotalPreorder(RecordOrder)
  {
  }

  /** The difficulty scale: ratings 1 to 10 with their labels. */
  const DifficultyChoices: seq<(int, string)> := [
    (1, "Very Easy"),
    (2, "Easy"),
    (3, "Somewhat Easy"),
    (4, "Moderate"),
    (5, "Somewhat Hard"),
    (6, "Hard"),
    (7, "Very Hard"),
    (8, "Extremely Hard"),
    (9, "Maximum Effort"),
    (10, "Failure")
  ]

  /** The label of the first choice with key `d`, if any. */
  function ChoiceLabel(choices: seq<(int, string)>, d: int): (r: Option<string>)
    ensures r.None? <==> forall i :: 0 <= i < |choices| ==> choices[i].0 != d
    ensures r.Some? ==> exists i :: 0 <= i < |choices| && choices[i] == (d, r.value)
  {
    if choices == [] then None
    else if choices[0].0 == d then Some(choices[0].1)
    else
      var r := ChoiceLabel(choices[1..], d);
      assert forall i :: 1 <= i < |choices| ==> choices[i] == choices[1..][i - 1];
      r
  }

  /** The label of a difficulty rating. */
  function DifficultyLabel(d: int): Option<string> {
    ChoiceLabel(DifficultyChoices, d)
  }

  /**
   * The scale's keys are exactly 1 to 10 in order, from "Very Easy" to
   * "Failure"; so a rating has a label exactly when the validators accept it.
   */
  lemma DifficultyChoicesMatchValidators(d: int)
    ensures |DifficultyChoices| == 10
    ensures forall i :: 0 <= i < 10 ==> DifficultyChoices[i].0 == i + 1
    ensures DifficultyChoices[0].1 == "Very Easy" && DifficultyChoices[9].1 == "Failure"
    ensures DifficultyLabel(d).Some? <==> 1 <= d <= 10
  {
    if 1 <= d <= 10 {
      assert DifficultyChoices[d - 1].0 == d;
    }
  }

  // ------------------------------------------------------------- UserProfile

  /** The unit a user prefers to see weights in; kilograms unless chosen. */
  datatype Units = Kilograms | Pounds {
    function Code(): string {
      match this
      case Kilograms => "kg"
      case Pounds => "lbs"
    }
  }

  const DefaultUnits := Kilograms

  /** A user's settings; one per user. */
  datatype UserProfile = UserProfile(
    user: UserId,
    name: string,
    preferredUnits: Units,
    defaultPartner: Option<UserId>,
    createdAt: Instant,
    updatedAt: Instant)

  /**
   * The name to show for a user: the profile name without surrounding
   * whitespace, or the user's email when that leaves nothing.
   */
  function DisplayName(p: UserProfile, email: string): (r: string)
    ensures AllSpace(p.name) ==> r == email
    ensures !AllSpace(p.name) ==> r == Strip(p.name) && r != []
  {
    var stripped := Strip(p.name);
    StripEmptyIffAllSpace(p.name);
    if p.name != [] && stripped != [] then stripped else email
  }
}

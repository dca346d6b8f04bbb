/**
 * The request handlers' logic: which rows a requester may reach, the
 * weight recommendation, the workout detail's volume, recording,
 * editing and deleting exercise records, completing a session, the
 * history list, the dashboard and the profile page. The current user,
 * the current time and today's date are parameters.
 */
module Views {
  import opened Wrappers
  import opened Models
  import Seqs

  /** How a request is refused: no such row for this requester (404), or a form that does not validate. */
  datatype HttpError = NotFound | InvalidForm

  // ----------------------------------------------------------- ownership

  /** The session `sid` exists and belongs to `user`. */
  predicate OwnsSession(sessions: seq<WorkoutSession>, user: UserId, sid: SessionId) {
    exists i :: 0 <= i < |sessions| && sessions[i].id == sid && sessions[i].user == user
  }

  /** The record is in a session that belongs to `user`. */
  predicate OwnsRecord(sessions: seq<WorkoutSession>, user: UserId, r: ExerciseRecord) {
    OwnsSession(sessions, user, r.session)
  }

  /** The session object `w` is session `sid` and belongs to `user`. */
  predicate OwnsInstance(w: SessionInstance, user: UserId, sid: SessionId)
    reads w
  {
    w.id == sid && w.user == user
  }

  /** `OwnsRecord` as the condition of a query. */
  function Owned(sessions: seq<WorkoutSession>, user: UserId): ExerciseRecord -> bool {
    (x: ExerciseRecord) => OwnsRecord(sessions, user, x)
  }

  /**
   * The session with id `pk` among `user`'s sessions; none (a 404) when it
   * does not exist or belongs to someone else.
   */
  function FindOwnedSession(sessions: seq<WorkoutSession>, user: UserId, pk: SessionId): (r: Option<WorkoutSession>)
    ensures r.Some? ==> r.value in sessions && r.value.id == pk && r.value.user == user
    ensures r.None? <==> !OwnsSession(sessions, user, pk)
  {
    if sessions == [] then None
    else if sessions[0].id == pk && sessions[0].user == user then Some(sessions[0])
    else
      var r := FindOwnedSession(sessions[1..], user, pk);
      assert forall i :: 1 <= i < |sessions| ==> sessions[i] == sessions[1..][i - 1];
      r
  }

  /** The requester's record with id `pk`; none (a 404) when it does not exist or is in someone else's session. */
  function FindOwnedRecord(records: seq<ExerciseRecord>, sessions: seq<WorkoutSession>, user: UserId, pk: RecordId)
    : (r: Option<ExerciseRecord>)
    ensures r.Some? ==> r.value in records && r.value.id == pk && OwnsRecord(sessions, user, r.value)
    ensures r.None? <==> forall i :: 0 <= i < |records| ==> !(records[i].id == pk && OwnsRecord(sessions, user, records[i]))
  {
    if records == [] then None
    else if records[0].id == pk && OwnsRecord(sessions, user, records[0]) then Some(records[0])
    else
      var r := FindOwnedRecord(records[1..], sessions, user, pk);
      assert forall i :: 1 <= i < |records| ==> records[i] == records[1..][i - 1];
      r
  }

  // ------------------------------------------------------ recommendation

  /** The step by which the recommendation raises or lowers a weight: 2.50 kg, in hundredths. */
  const WeightStep := 250

  /**
   * The weight to suggest next, from the last weight and how hard it felt:
   * 5 or easier adds 2.50 kg, 6 or 7 keeps the weight, 8 or harder takes
   * 2.50 kg off but never goes below zero.
   */
  function RecommendedWeight(weight: int, difficulty: int): (r: int)
    ensures difficulty <= 5 ==> r == weight + WeightStep
    ensures 6 <= difficulty <= 7 ==> r == weight
    ensures difficulty >= 8 ==> r == if weight >= WeightStep then weight - WeightStep else 0
    ensures weight >= 0 ==> r >= 0
    ensures weight >= 0 ==> weight - WeightStep <= r <= weight + WeightStep
  {
    if difficulty <= 5 then weight + WeightStep
    else if difficulty <= 7 then weight
    else if weight - WeightStep > 0 then weight - WeightStep else 0
  }

  /**
   * A heavier last weight never gets a lighter recommendation, and a harder
   * rating never gets a heavier one.
   */
  lemma RecommendationMonotone(w1: int, w2: int, d1: int, d2: int)
    requires 0 <= w1 <= w2 && d1 >= d2
    ensures RecommendedWeight(w1, d1) <= RecommendedWeight(w2, d2)
  {
  }

  /** 1.00 kg rated 10 comes down to 0, not below. */
  lemma RecommendationFloorExample()
    ensures RecommendedWeight(100, 10) == 0
    ensures RecommendedWeight(8000, 5) == 8250
    ensures RecommendedWeight(8000, 7) == 8000
  {
  }

  /** The Python error the recommendation raises. */
  datatype PythonError = TypeError(message: string)

  /**
   * The recommendation as the code computes it: it adds and subtracts the
   * binary float 2.5 to and from the `Decimal` weight, which Python refuses,
   * so only the "keep the weight" branch returns a value.
   */
  function RecommendedWeightAsWritten(weight: int, difficulty: int): (r: Result<int, PythonError>)
    ensures r.Ok? ==> r.value == weight
  {
    if difficulty <= 5 then Err(TypeError("unsupported operand type(s) for +: 'decimal.Decimal' and 'float'"))
    else if difficulty <= 7 then Ok(weight)
    else Err(TypeError("unsupported operand type(s) for -: 'decimal.Decimal' and 'float'"))
  }

  /**
   * The code as written returns a value exactly for ratings 6 and 7, and
   * there it agrees with the intended rule; every other rating raises.
   */
  lemma AsWrittenRunsOnlyForSixAndSeven(weight: int, difficulty: int)
    ensures RecommendedWeightAsWritten(weight, difficulty).Ok? <==> 6 <= difficulty <= 7
    ensures RecommendedWeightAsWritten(weight, difficulty).Ok? ==>
              RecommendedWeightAsWritten(weight, difficulty).value == RecommendedWeight(weight, difficulty)
  {
  }

  /** 80.00 kg rated 5: the code raises where 82.50 kg was meant. */
  lemma AsWrittenCounterexample()
    ensures RecommendedWeightAsWritten(8000, 5).Err?
    ensures RecommendedWeight(8000, 5) == 8250
  {
  }

  /** The entry shown for an exercise: the last weight and rating, and the weight to try next. */
  datatype Recommendation = Recommendation(lastWeight: int, lastDifficulty: int, recommendedWeight: int)

  function RecommendationFor(last: ExerciseRecord): Recommendation {
    Recommendation(last.weight, last.difficulty, RecommendedWeight(last.weight, last.difficulty))
  }

  /** `user`'s records of `exercise`, newest first. */
  function UserRecordsOf(records: seq<ExerciseRecord>, sessions: seq<WorkoutSession>, user: UserId, exercise: ExerciseId)
    : (r: seq<ExerciseRecord>)
    ensures forall x :: x in r <==> x in records && x.exercise == exercise && OwnsRecord(sessions, user, x)
    ensures Seqs.Sorted(r, RecordOrder)
  {
    var mine := Seqs.Filter(records, (x: ExerciseRecord) => x.exercise == exercise && OwnsRecord(sessions, user, x));
    RecordOrderIsTotalPreorder();
    Seqs.SortBySorted(mine, RecordOrder);
    var r := Seqs.SortBy(mine, RecordOrder);
    assert forall x :: x in r <==> x in multiset(mine);
    r
  }

  /** The most recent record `user` has of `exercise`, if any. */
  function LatestRecord(records: seq<ExerciseRecord>, sessions: seq<WorkoutSession>, user: UserId, exercise: ExerciseId)
    : (r: Option<ExerciseRecord>)
    ensures r.None? <==> forall x :: x in records ==> !(x.exercise == exercise && OwnsRecord(sessions, user, x))
    ensures r.Some? ==> r.value in records && r.value.exercise == exercise && OwnsRecord(sessions, user, r.value)
  {
    var mine := UserRecordsOf(records, sessions, user, exercise);
    assert mine != [] ==> mine[0] in mine;
    Seqs.First(mine)
  }

  /** No record of `user` for `exercise` is newer than the one `LatestRecord` picks. */
  lemma LatestRecordIsNewest(records: seq<ExerciseRecord>, sessions: seq<WorkoutSession>, user: UserId,
                             exercise: ExerciseId, x: ExerciseRecord)
    requires x in records && x.exercise == exercise && OwnsRecord(sessions, user, x)
    ensures LatestRecord(records, sessions, user, exercise).Some?
    ensures x.createdAt <= LatestRecord(records, sessions, user, exercise).value.createdAt
  {
    var mine := UserRecordsOf(records, sessions, user, exercise);
    RecordOrderIsTotalPreorder();
    Seqs.SortedHeadFirst(mine, RecordOrder, x);
  }

  /**
   * The recommendation map of the add-exercise page: an entry for each
   * exercise the requester has a record of, built from the most recent such
   * record; no entry for any other exercise.
   */
  method ExerciseRecommendations(exercises: seq<Exercise>, records: seq<ExerciseRecord>,
                                 sessions: seq<WorkoutSession>, user: UserId)
    returns (recs: map<ExerciseId, Recommendation>)
    ensures forall id :: id in recs <==>
      (exists k :: 0 <= k < |exercises| && exercises[k].id == id) && LatestRecord(records, sessions, user, id).Some?
    ensures forall id :: id in recs ==> recs[id] == RecommendationFor(LatestRecord(records, sessions, user, id).value)
  {
    recs := map[];
    for i := 0 to |exercises|
      invariant forall id :: id in recs <==> Seen(exercises, i, id) && LatestRecord(records, sessions, user, id).Some?
      invariant forall id :: id in recs ==> recs[id] == RecommendationFor(LatestRecord(records, sessions, user, id).value)
    {
      var exercise := exercises[i];
      var last := LatestRecord(records, sessions, user, exercise.id);
      if last.Some? {
        recs := recs[exercise.id := RecommendationFor(last.value)];
      }
      forall id ensures id in recs <==> Seen(exercises, i + 1, id) && LatestRecord(records, sessions, user, id).Some? {
        SeenStep(exercises, i, id);
      }
    }
  }

  lemma SeenStep(exercises: seq<Exercise>, i: nat, id: ExerciseId)
    requires i < |exercises|
    ensures Seen(exercises, i + 1, id) <==> Seen(exercises, i, id) || exercises[i].id == id
  {
    if exercises[i].id == id {
      assert Seen(exercises, i + 1, id) by { assert 0 <= i < i + 1 && exercises[i].id == id; }
    }
  }

  /** One of the first `i` exercises has id `id`. */
  predicate Seen(exercises: seq<Exercise>, i: int, id: ExerciseId)
    requires 0 <= i <= |exercises|
  {
    exists k :: 0 <= k < i && exercises[k].id == id
  }

  // ------------------------------------------------------ workout detail

  /** The sum of the records' volumes. */
  function SumVolumes(rs: seq<ExerciseRecord>): int {
    if rs == [] then 0 else rs[0].TotalVolume() + SumVolumes(rs[1..])
  }

  lemma {:induction false} SumVolumesAppend(a: seq<ExerciseRecord>, b: seq<ExerciseRecord>)
    ensures SumVolumes(a + b) == SumVolumes(a) + SumVolumes(b)
  {
    if a != [] {
      SumVolumesAppend(a[1..], b);
      assert (a + b)[0] == a[0] && (a + b)[1..] == a[1..] + b;
    } else {
      assert a + b == b;
    }
  }

  /** The total volume does not depend on the order the records are listed in. */
  lemma {:induction false} SumVolumesPermutation(a: seq<ExerciseRecord>, b: seq<ExerciseRecord>)
    requires multiset(a) == multiset(b)
    ensures SumVolumes(a) == SumVolumes(b)
  {
    if a == [] {
      assert |b| == |multiset(b)| == 0;
    } else {
      var x := a[0];
      assert x in multiset(b);
      var j :| 0 <= j < |b| && b[j] == x;
      var rest := b[..j] + b[j + 1..];
      Seqs.MultisetRemove(b, j);
      assert a == [x] + a[1..];
      assert multiset(a[1..]) == multiset(a) - multiset{x};
      SumVolumesPermutation(a[1..], rest);
      SumVolumesRemove(b, j);
    }
  }

  lemma SumVolumesRemove(b: seq<ExerciseRecord>, j: nat)
    requires j < |b|
    ensures SumVolumes(b) == b[j].TotalVolume() + SumVolumes(b[..j] + b[j + 1..])
  {
    var left, mid, right := b[..j], [b[j]], b[j + 1..];
    assert b == left + mid + right;
    SumVolumesAppend(left + mid, right);
    SumVolumesAppend(left, mid);
    SumVolumesAppend(left, right);
    assert SumVolumes(mid) == b[j].TotalVolume() + SumVolumes([]) by {
      assert mid[1..] == [];
    }
  }

  /** Valid records never add up to a negative volume. */
  lemma {:induction false} SumVolumesNonNegative(rs: seq<ExerciseRecord>)
    requires forall i :: 0 <= i < |rs| ==> rs[i].Valid()
    ensures SumVolumes(rs) >= 0
  {
    if rs != [] {
      TotalVolumeBounds(rs[0]);
      SumVolumesNonNegative(rs[1..]);
    }
  }

  /** What the workout detail page shows: the session, its records newest first, and their total volume. */
  datatype WorkoutDetail = WorkoutDetail(workout: WorkoutSession, records: seq<ExerciseRecord>, totalVolume: int)

  /**
   * The workout detail page of session `pk` for `user`: a 404 unless the
   * session is theirs; otherwise all of the session's records, newest first,
   * and the sum of their volumes, whatever order they are stored in.
   */
  function WorkoutDetailOf(sessions: seq<WorkoutSession>, records: seq<ExerciseRecord>, user: UserId, pk: SessionId)
    : (r: Result<WorkoutDetail, HttpError>)
    ensures r.Err? <==> !OwnsSession(sessions, user, pk)
    ensures r.Err? ==> r.error == NotFound
    ensures r.Ok? ==> r.value.workout in sessions && r.value.workout.id == pk && r.value.workout.user == user
    ensures r.Ok? ==> multiset(r.value.records) == multiset(Seqs.Filter(records, (x: ExerciseRecord) => x.session == pk))
    ensures r.Ok? ==> Seqs.Sorted(r.value.records, RecordOrder)
    ensures r.Ok? ==> r.value.totalVolume == SumVolumes(Seqs.Filter(records, (x: ExerciseRecord) => x.session == pk))
  {
    match FindOwnedSession(sessions, user, pk)
    case None => Err(NotFound)
    case Some(workout) =>
      var own := Seqs.Filter(records, (x: ExerciseRecord) => x.session == pk);
      var listed := Seqs.SortBy(own, RecordOrder);
      RecordOrderIsTotalPreorder();
      Seqs.SortBySorted(own, RecordOrder);
      SumVolumesPermutation(listed, own);
      Ok(WorkoutDetail(workout, listed, SumVolumes(listed)))
  }

  // ---------------------------------------------- adding, editing, deleting

  /** The fields of the exercise record form. */
  datatype RecordForm = RecordForm(
    exercise: ExerciseId, weight: int, reps: int, sets: int, difficulty: int, notes: Option<string>)

  /** The form validates: the exercise exists and every field is within its validators. */
  predicate FormValid(exercises: seq<Exercise>, f: RecordForm) {
    && (exists k :: 0 <= k < |exercises| && exercises[k].id == f.exercise)
    && 0 <= f.weight <= MaxWeight
    && 1 <= f.reps <= MaxPositiveInteger
    && 1 <= f.sets <= MaxPositiveInteger
    && 1 <= f.difficulty <= 10
  }

  /** `r` with the form's fields; id, session and creation time stay. */
  function ApplyForm(r: ExerciseRecord, f: RecordForm): ExerciseRecord {
    r.(exercise := f.exercise, weight := f.weight, reps := f.reps, sets := f.sets,
       difficulty := f.difficulty, notes := f.notes)
  }

  /**
   * Adding a record to session `pk`: a 404 unless the session is the
   * requester's, then the form must validate; the new record is appended in
   * that session with exactly the submitted fields.
   */
  function AddRecord(sessions: seq<WorkoutSession>, exercises: seq<Exercise>, records: seq<ExerciseRecord>,
                     user: UserId, pk: SessionId, f: RecordForm, newId: RecordId, now: Instant)
    : (r: Result<seq<ExerciseRecord>, HttpError>)
    ensures r == Err(NotFound) <==> !OwnsSession(sessions, user, pk)
    ensures r == Err(InvalidForm) <==> OwnsSession(sessions, user, pk) && !FormValid(exercises, f)
    ensures r.Ok? ==> |r.value| == |records| + 1 && r.value[..|records|] == records
    ensures r.Ok? ==> var added := r.value[|records|];
      && added.session == pk && OwnsRecord(sessions, user, added) && added.Valid()
      && added == ApplyForm(added, f) && added.id == newId && added.createdAt == now
  {
    if !OwnsSession(sessions, user, pk) then Err(NotFound)
    else if !FormValid(exercises, f) then Err(InvalidForm)
    else
      var added := NewRecord(newId, pk, f.exercise, f.weight, f.reps, Some(f.sets), f.difficulty, f.notes, now);
      assert (records + [added])[..|records|] == records;
      Ok(records + [added])
  }

  /**
   * Editing record `pk`: a 404 unless it is in one of the requester's
   * sessions, then the form must validate; only that record changes, and
   * only in the form's fields.
   */
  function EditRecord(sessions: seq<WorkoutSession>, exercises: seq<Exercise>, records: seq<ExerciseRecord>,
                      user: UserId, pk: RecordId, f: RecordForm)
    : (r: Result<seq<ExerciseRecord>, HttpError>)
    ensures r == Err(NotFound) <==> FindOwnedRecord(records, sessions, user, pk).None?
    ensures r == Err(InvalidForm) <==> FindOwnedRecord(records, sessions, user, pk).Some? && !FormValid(exercises, f)
    ensures r.Ok? ==> |r.value| == |records|
    ensures r.Ok? ==> forall i :: 0 <= i < |records| ==>
      if records[i].id == pk && OwnsRecord(sessions, user, records[i])
      then r.value[i] == ApplyForm(records[i], f) && r.value[i].Valid()
      else r.value[i] == records[i]
  {
    if FindOwnedRecord(records, sessions, user, pk).None? then Err(NotFound)
    else if !FormValid(exercises, f) then Err(InvalidForm)
    else
      Ok(seq(|records|, i requires 0 <= i < |records| =>
        if records[i].id == pk && OwnsRecord(sessions, user, records[i]) then ApplyForm(records[i], f) else records[i]))
  }

  /**
   * Deleting record `pk`: a 404 unless it is in one of the requester's
   * sessions; then it goes, and every other record stays, as often as it was
   * there.
   */
  function DeleteRecord(sessions: seq<WorkoutSession>, records: seq<ExerciseRecord>, user: UserId, pk: RecordId)
    : (r: Result<seq<ExerciseRecord>, HttpError>)
    ensures r.Err? <==> FindOwnedRecord(records, sessions, user, pk).None?
    ensures r.Err? ==> r.error == NotFound
    ensures r.Ok? ==> forall x :: x in r.value <==> x in records && !(x.id == pk && OwnsRecord(sessions, user, x))
    ensures r.Ok? ==> forall x: ExerciseRecord :: !(x.id == pk && OwnsRecord(sessions, user, x)) ==> multiset(r.value)[x] == multiset(records)[x]
  {
    if FindOwnedRecord(records, sessions, user, pk).None? then Err(NotFound)
    else Ok(Seqs.Filter(records, (x: ExerciseRecord) => !(x.id == pk && OwnsRecord(sessions, user, x))))
  }

  /** No request of `user` changes a record in a session of someone else. */
  lemma OthersRecordsUntouched(sessions: seq<WorkoutSession>, exercises: seq<Exercise>, records: seq<ExerciseRecord>,
                               user: UserId, pk: RecordId, f: RecordForm, x: ExerciseRecord)
    requires x in records && !OwnsRecord(sessions, user, x)
    ensures var e := EditRecord(sessions, exercises, records, user, pk, f); e.Ok? ==> x in e.value
    ensures var d := DeleteRecord(sessions, records, user, pk); d.Ok? ==> multiset(d.value)[x] == multiset(records)[x]
  {
    var e := EditRecord(sessions, exercises, records, user, pk, f);
    if e.Ok? {
      var i :| 0 <= i < |records| && records[i] == x;
      assert e.value[i] == x;
    }
  }

  // -------------------------------------------------------- completion

  /** The completion form's submitted fields are set on the session. */
  method BindCompletionForm(w: SessionInstance, endTime: Option<TimeOfDay>, notes: Option<string>, isCompleted: bool)
    modifies w
    ensures w.Row() == old(w.Row()).(endTime := endTime, notes := notes, isCompleted := isCompleted)
  {
    w.endTime := endTime;
    w.notes := notes;
    w.isCompleted := isCompleted;
  }

  /**
   * Completing a session: it is completed whatever was submitted; a
   * submitted end time stays, and only a missing one is stamped with the
   * current time; nothing else changes, and the session now has a duration.
   */
  method CompleteWorkout(w: SessionInstance, now: TimeOfDay)
    modifies w
    ensures w.isCompleted
    ensures w.endTime == if old(w.endTime).Some? then old(w.endTime) else Some(now)
    ensures w.Row() == old(w.Row()).(isCompleted := true, endTime := w.endTime)
    ensures Duration(w.Row()).Some?
  {
    w.isCompleted := true;
    if w.endTime.None? {
      w.endTime := Some(now);
    }
  }

  /**
   * The completion view for session `pk`: a 404 unless one of the stored
   * sessions has that id and belongs to the requester; otherwise the form's
   * fields are bound to that session and it is completed, and no other
   * session changes.
   */
  method CompleteWorkoutView(store: seq<SessionInstance>, user: UserId, pk: SessionId,
                             endTime: Option<TimeOfDay>, notes: Option<string>, isCompleted: bool, now: TimeOfDay)
    returns (r: Result<SessionInstance, HttpError>)
    modifies set w | w in store
    ensures r.Err? <==> forall k :: 0 <= k < |store| ==> !old(OwnsInstance(store[k], user, pk))
    ensures r.Err? ==> r.error == NotFound
    ensures r.Ok? ==> r.value in store && OwnsInstance(r.value, user, pk)
    ensures r.Ok? ==> r.value.Row() == old(r.value.Row()).(
      notes := notes, isCompleted := true, endTime := if endTime.Some? then endTime else Some(now))
    ensures forall w :: w in store && (r.Err? || w != r.value) ==> w.Row() == old(w.Row())
  {
    var i := 0;
    while i < |store| && !OwnsInstance(store[i], user, pk)
      invariant 0 <= i <= |store|
      invariant forall k :: 0 <= k < i ==> !OwnsInstance(store[k], user, pk)
    {
      i := i + 1;
    }
    if i == |store| {
      return Err(NotFound);
    }
    var w := store[i];
    BindCompletionForm(w, endTime, notes, isCompleted);
    CompleteWorkout(w, now);
    r := Ok(w);
  }

  /** Create, then complete with an end time of 14:30: the session is completed and ends at 14:30. */
  method CompletionExample(user: UserId, today: Date, now: TimeOfDay, later: TimeOfDay) returns (w: SessionInstance)
    ensures w.isCompleted && w.endTime == Some(Clock(14, 30)) && w.user == user && w.date == today
  {
    w := new SessionInstance(1, user, today, Some("Test workout"), now, 0);
    BindCompletionForm(w, Some(Clock(14, 30)), Some("Great workout!"), false);
    CompleteWorkout(w, later);
  }

  // ----------------------------------------------------------- history

  /** A session the history lists for `user` between the optional bounds, both inclusive. */
  predicate InHistory(s: WorkoutSession, user: UserId, dateFrom: Option<Date>, dateTo: Option<Date>) {
    && s.user == user
    && (dateFrom.Some? ==> s.date >= dateFrom.value)
    && (dateTo.Some? ==> s.date <= dateTo.value)
  }

  /** `InHistory` as the condition of a query. */
  function Listed(user: UserId, dateFrom: Option<Date>, dateTo: Option<Date>): WorkoutSession -> bool {
    (s: WorkoutSession) => InHistory(s, user, dateFrom, dateTo)
  }

  /**
   * The workout history: exactly the requester's sessions within the
   * bounds given (an absent or empty bound does not filter), each as often
   * as stored, newest date first and latest start first within a date.
   */
  function History(sessions: seq<WorkoutSession>, user: UserId, dateFrom: Option<Date>, dateTo: Option<Date>)
    : (r: seq<WorkoutSession>)
    ensures forall s :: s in r <==> s in sessions && InHistory(s, user, dateFrom, dateTo)
    ensures forall s :: multiset(r)[s] == if InHistory(s, user, dateFrom, dateTo) then multiset(sessions)[s] else 0
    ensures Seqs.Sorted(r, SessionOrder)
    ensures |r| == |Seqs.Positions(sessions, Listed(user, dateFrom, dateTo))|
  {
    var mine := Seqs.Filter(sessions, Listed(user, dateFrom, dateTo));
    Seqs.FilterCount(sessions, Listed(user, dateFrom, dateTo));
    SessionOrderIsTotalPreorder();
    Seqs.SortBySorted(mine, SessionOrder);
    var r := Seqs.SortBy(mine, SessionOrder);
    assert forall s :: s in r <==> s in multiset(mine);
    r
  }

  /**
   * Page `number` of the history at 10 sessions a page: it exists exactly for
   * the numbers 1 to the page count, and its entries are the history's from
   * position (number - 1) * 10 on.
   */
  function HistoryPage(sessions: seq<WorkoutSession>, user: UserId, dateFrom: Option<Date>, dateTo: Option<Date>, number: int)
    : (r: Result<seq<WorkoutSession>, Seqs.PageError>)
    ensures var h := History(sessions, user, dateFrom, dateTo);
      && (r.Ok? <==> 1 <= number <= Seqs.NumPages(|h|, 10))
      && (r.Ok? ==> forall i :: 0 <= i < |r.value| ==> (number - 1) * 10 + i < |h| && r.value[i] == h[(number - 1) * 10 + i])
    ensures r.Ok? ==> |r.value| <= 10
    ensures var h := History(sessions, user, dateFrom, dateTo);
      r.Ok? ==> |r.value| == if number * 10 <= |h| then 10 else |h| - (number - 1) * 10
    ensures r.Ok? ==> forall s :: s in r.value ==> s in sessions && InHistory(s, user, dateFrom, dateTo)
    ensures r.Ok? ==> Seqs.Sorted(r.value, SessionOrder)
    ensures number == 1 ==> r.Ok?
  {
    var all := History(sessions, user, dateFrom, dateTo);
    Seqs.PageOfSorted(all, 10, number, SessionOrder);
    Seqs.Page(all, 10, number)
  }

  /** Every session the history lists is on one of its pages. */
  lemma HistoryPaged(sessions: seq<WorkoutSession>, user: UserId, dateFrom: Option<Date>, dateTo: Option<Date>,
                     s: WorkoutSession)
    requires s in sessions && InHistory(s, user, dateFrom, dateTo)
    ensures exists n :: var p := HistoryPage(sessions, user, dateFrom, dateTo, n); p.Ok? && s in p.value
  {
    var all := History(sessions, user, dateFrom, dateTo);
    var k :| 0 <= k < |all| && all[k] == s;
    Seqs.PageOfRow(all, 10, k);
    var n := k / 10 + 1;
    assert HistoryPage(sessions, user, dateFrom, dateTo, n).value[k % 10] == s;
  }

  // --------------------------------------------------------- exercises

  /** The exercise list: every exercise, by name ascending. */
  function ExerciseList(exercises: seq<Exercise>): (r: seq<Exercise>)
    ensures multiset(r) == multiset(exercises)
    ensures Seqs.Sorted(r, ExerciseOrder)
  {
    ExerciseOrderIsTotalPreorder();
    Seqs.SortBySorted(exercises, ExerciseOrder);
    Seqs.SortBy(exercises, ExerciseOrder)
  }

  /** The exercise list, 20 per page; every exercise is on one of its pages. */
  lemma ExerciseListPaged(exercises: seq<Exercise>, e: Exercise)
    requires e in exercises
    ensures exists n :: var p := Seqs.Page(ExerciseList(exercises), 20, n); p.Ok? && e in p.value
  {
    var all := ExerciseList(exercises);
    assert e in multiset(all);
    var k :| 0 <= k < |all| && all[k] == e;
    Seqs.PageOfRow(all, 20, k);
    var n := k / 20 + 1;
    assert Seqs.Page(all, 20, n).value[k % 20] == e;
  }

  // --------------------------------------------------------- dashboard

  /**
   * The dashboard's recent workouts: the requester's five newest sessions,
   * or all of them when there are fewer; every session of the requester
   * left out comes after each one shown.
   */
  function RecentWorkouts(sessions: seq<WorkoutSession>, user: UserId): (r: seq<WorkoutSession>)
    ensures var mine := |Seqs.Positions(sessions, Listed(user, None, None))|;
      |r| == if mine < 5 then mine else 5
    ensures multiset(r) <= multiset(sessions) && forall s :: s in r ==> s.user == user
    ensures Seqs.Sorted(r, SessionOrder)
    ensures forall s: WorkoutSession, i :: 0 <= i < |r| && s.user == user && multiset(r)[s] < multiset(sessions)[s] ==> SessionOrder(r[i], s)
  {
    var all := History(sessions, user, None, None);
    Seqs.TakeOfSortedFilter(sessions, Listed(user, None, None), all, 5, SessionOrder);
    Seqs.Take(all, 5)
  }

  /** Today's workout on the dashboard: the requester's latest-started session dated today, if any. */
  function TodayWorkout(sessions: seq<WorkoutSession>, user: UserId, today: Date): (r: Option<WorkoutSession>)
    ensures r.None? <==> forall s :: s in sessions ==> !(s.user == user && s.date == today)
    ensures r.Some? ==> r.value in sessions && r.value.user == user && r.value.date == today
    ensures r.Some? ==> forall s :: s in sessions && s.user == user && s.date == today ==> s.startTime <= r.value.startTime
  {
    var all := History(sessions, user, Some(today), Some(today));
    SessionOrderIsTotalPreorder();
    assert all != [] ==> all[0] in all && forall s :: s in all ==> SessionOrder(all[0], s) by {
      forall s | s in all ensures SessionOrder(all[0], s) {
        Seqs.SortedHeadFirst(all, SessionOrder, s);
      }
    }
    Seqs.First(all)
  }

  /** How many of the requester's sessions are dated within the last 30 days. */
  function RecentWorkoutsCount(sessions: seq<WorkoutSession>, user: UserId, today: Date): (n: nat)
    ensures n == |Seqs.Positions(sessions, IsRecent(user, today))|
    ensures n <= |sessions|
    ensures n == 0 <==> forall s :: s in sessions ==> !(s.user == user && s.date >= today - 30)
  {
    var r := Seqs.Filter(sessions, IsRecent(user, today));
    Seqs.FilterCount(sessions, IsRecent(user, today));
    assert r != [] ==> r[0] in r;
    |r|
  }

  /** The condition of the 30-day count: the requester's, dated 30 days ago or later. */
  function IsRecent(user: UserId, today: Date): WorkoutSession -> bool {
    (s: WorkoutSession) => s.user == user && s.date >= today - 30
  }

  /**
   * The dashboard's recent exercises: the requester's ten newest records,
   * or all of them when there are fewer; every record of the requester left
   * out is no newer than each one shown.
   */
  function RecentExercises(records: seq<ExerciseRecord>, sessions: seq<WorkoutSession>, user: UserId)
    : (r: seq<ExerciseRecord>)
    ensures var mine := |Seqs.Positions(records, Owned(sessions, user))|;
      |r| == if mine < 10 then mine else 10
    ensures multiset(r) <= multiset(records) && forall x :: x in r ==> OwnsRecord(sessions, user, x)
    ensures Seqs.Sorted(r, RecordOrder)
    ensures forall x: ExerciseRecord, i :: 0 <= i < |r| && OwnsRecord(sessions, user, x) && multiset(r)[x] < multiset(records)[x]
              ==> RecordOrder(r[i], x)
  {
    var all := OwnedNewestFirst(records, sessions, user);
    Seqs.TakeOfSortedFilter(records, Owned(sessions, user), all, 10, RecordOrder);
    Seqs.Take(all, 10)
  }

  /** The requester's records, each as often as stored, newest first. */
  function OwnedNewestFirst(records: seq<ExerciseRecord>, sessions: seq<WorkoutSession>, user: UserId)
    : (r: seq<ExerciseRecord>)
    ensures forall x :: multiset(r)[x] == if Owned(sessions, user)(x) then multiset(records)[x] else 0
    ensures Seqs.Sorted(r, RecordOrder)
    ensures |r| == |Seqs.Positions(records, Owned(sessions, user))|
  {
    var mine := Seqs.Filter(records, Owned(sessions, user));
    Seqs.FilterCount(records, Owned(sessions, user));
    RecordOrderIsTotalPreorder();
    Seqs.SortBySorted(mine, RecordOrder);
    Seqs.SortBy(mine, RecordOrder)
  }

  // ----------------------------------------------------------- profile

  /**
   * The profile page's profile: the requester's profile, or a new one with
   * an empty name, kilograms and no partner, added to the store.
   */
  function GetOrCreateProfile(profiles: seq<UserProfile>, user: UserId, now: Instant)
    : (r: (UserProfile, seq<UserProfile>))
    ensures r.0.user == user && r.0 in r.1
    ensures (exists i :: 0 <= i < |profiles| && profiles[i].user == user) ==> r.1 == profiles && r.0 in profiles
    ensures (forall i :: 0 <= i < |profiles| ==> profiles[i].user != user) ==>
      r.1 == profiles + [r.0] && r.0 == UserProfile(user, "", DefaultUnits, None, now, now) && r.0.preferredUnits.Code() == "kg"
  {
    if profiles == [] then
      var p := UserProfile(user, "", DefaultUnits, None, now, now);
      (p, [p])
    else if profiles[0].user == user then (profiles[0], profiles)
    else
      var (p, rest) := GetOrCreateProfile(profiles[1..], user, now);
      assert profiles == [profiles[0]] + profiles[1..];
      (p, [profiles[0]] + rest)
  }
}

/** The rules of the workout handlers: tag derivation for the exercise
    list, the date check, the difficulty coefficient, the set-saving loop
    with its counters, the daily EXP cap and the deduction on delete. */
module Workout {
  import opened Common
  import opened AppErrors
  import Text
  import Models
  import Config

  // ---- tags of a default exercise ----

  /** The master tags: trimmed, non-empty comma parts of `target_muscles`. */
  function MasterTags(targetMuscles: Option<string>): (tags: seq<string>)
    ensures targetMuscles.None? ==> tags == []
    ensures forall t :: t in tags ==> t != [] && Text.Trim(t) == t && ',' !in t
  {
    match targetMuscles
    case None => []
    case Some(t) =>
      Text.CommaListEntries(t);
      Text.CommaList(t)
  }

  /** The user's tags that are not master tags, in the user's order. */
  function UserAddedTags(userTags: seq<string>, master: seq<string>): (added: seq<string>)
    ensures |added| <= |userTags|
    ensures forall t :: t in added <==> t in userTags && t !in master
  {
    if userTags == [] then []
    else if userTags[0] in master then UserAddedTags(userTags[1..], master)
    else [userTags[0]] + UserAddedTags(userTags[1..], master)
  }

  /** Master tags and user-added tags never overlap, and together they are
      every master tag and every user tag. */
  lemma TagsPartition(targetMuscles: Option<string>, userTags: seq<string>)
    ensures var master := MasterTags(targetMuscles);
      var added := UserAddedTags(userTags, master);
      (forall t :: t in added ==> t !in master)
      && (forall t :: t in master || t in added <==> t in master || t in userTags)
  {}

  /** Filtering keeps the relative order of the user's tags: it distributes
      over concatenation. */
  lemma {:induction false} UserAddedTagsConcat(a: seq<string>, b: seq<string>, master: seq<string>)
    ensures UserAddedTags(a + b, master) == UserAddedTags(a, master) + UserAddedTags(b, master)
  {
    if a == [] {
      assert a + b == b;
    } else {
      assert (a + b)[0] == a[0] && (a + b)[1..] == a[1..] + b;
      UserAddedTagsConcat(a[1..], b, master);
    }
  }

  /** Without master tags among them, the user's tags come back unchanged. */
  lemma {:induction false} UserAddedTagsOrder(userTags: seq<string>, master: seq<string>)
    ensures (forall t :: t in userTags ==> t !in master) ==> UserAddedTags(userTags, master) == userTags
  {
    if userTags != [] {
      UserAddedTagsOrder(userTags[1..], master);
    }
  }

  // ---- the record date ----

  const FutureDateError: string := "未来の日付は登録できません"

  /** A record dated after today is refused; otherwise it is a past record
      iff it is at least `pastDaysThreshold` days old. */
  function CheckRecordDate(recordDate: int, today: int, pastDaysThreshold: int): (r: Outcome<bool>)
    ensures r.Err? <==> recordDate > today
    ensures r.Err? ==> r.error == BadRequest(FutureDateError)
    ensures r.Ok? ==> (r.value <==> today - recordDate >= pastDaysThreshold)
  {
    if recordDate > today then Err(BadRequest(FutureDateError))
    else Ok(today - recordDate >= pastDaysThreshold)
  }

  // ---- difficulty ----

  /** Coefficient for an exercise: 15 for custom exercises; by the stored
      difficulty otherwise, 15 when it is missing or unknown. */
  function DifficultyCoefficient(isCustom: bool, difficulty: Option<string>): (coef: int)
    ensures coef in {10, 15, 20, 30}
    ensures isCustom || difficulty.None? ==> coef == 15
  {
    if isCustom || difficulty.None? then 15
    else DifficultyValue(difficulty.value)
  }

  function DifficultyValue(d: string): (coef: int)
    ensures coef in {10, 15, 20, 30}
  {
    if d == "上級" || d == "hard" then 30
    else if d == "中級" || d == "medium" then 20
    else if d == "初級" || d == "easy" then 10
    else 15
  }

  /** The difficulty table, in both directions: Japanese and English
      names map to the same coefficient, and every other value to 15. */
  lemma DifficultyTable(difficulty: Option<string>)
    ensures DifficultyCoefficient(false, difficulty) == 30 <==> difficulty == Some("上級") || difficulty == Some("hard")
    ensures DifficultyCoefficient(false, difficulty) == 20 <==> difficulty == Some("中級") || difficulty == Some("medium")
    ensures DifficultyCoefficient(false, difficulty) == 10 <==> difficulty == Some("初級") || difficulty == Some("easy")
  {}

  // ---- sets ----

  datatype SetInput = SetInput(weight: real, reps: int)

  const WeightError: string := "重量は0〜500kgの範囲で入力してください"
  const RepsError: string := "回数は0〜20の範囲で入力してください"

  predicate ValidWeight(s: SetInput) { 0.0 <= s.weight <= 500.0 }
  predicate ValidReps(s: SetInput) { 0 <= s.reps <= 20 }
  predicate ValidSet(s: SetInput) { ValidWeight(s) && ValidReps(s) }

  /** The error a set raises: the weight is checked before the reps. */
  function SetError(s: SetInput): (e: Option<AppError>)
    ensures e.None? <==> ValidSet(s)
    ensures !ValidWeight(s) ==> e == Some(BadRequest(WeightError))
    ensures ValidWeight(s) && !ValidReps(s) ==> e == Some(BadRequest(RepsError))
  {
    if !ValidWeight(s) then Some(BadRequest(WeightError))
    else if !ValidReps(s) then Some(BadRequest(RepsError))
    else None
  }

  datatype ExerciseInput = ExerciseInput(exerciseId: int, isCustom: bool, difficulty: Option<string>, sets: seq<SetInput>)

  /** A record-exercise is found by custom flag and exercise id. */
  type ExerciseKey = (bool, int)

  /** All sets of a request, in the order the loop visits them. */
  function Flat(exs: seq<ExerciseInput>): seq<SetInput> {
    if exs == [] then [] else Flat(exs[..|exs| - 1]) + exs[|exs| - 1].sets
  }

  lemma {:induction false} FlatPrefix(exs: seq<ExerciseInput>, i: nat)
    requires i <= |exs|
    ensures |Flat(exs[..i])| <= |Flat(exs)|
    ensures Flat(exs)[..|Flat(exs[..i])|] == Flat(exs[..i])
    decreases |exs| - i
  {
    if i < |exs| {
      var init := exs[..|exs| - 1];
      FlatPrefix(init, i);
      assert init[..i] == exs[..i];
    } else {
      assert exs[..i] == exs;
    }
  }

  /** How many sets the loop gets through before the first invalid one. */
  function ValidPrefix(ss: seq<SetInput>): (n: nat)
    ensures n <= |ss|
    ensures forall k :: 0 <= k < n ==> ValidSet(ss[k])
    ensures n < |ss| ==> !ValidSet(ss[n])
  {
    if ss == [] || !ValidSet(ss[0]) then 0 else 1 + ValidPrefix(ss[1..])
  }

  lemma {:induction false} ValidPrefixAt(ss: seq<SetInput>, n: nat)
    requires n <= |ss|
    requires forall k :: 0 <= k < n ==> ValidSet(ss[k])
    requires n < |ss| ==> !ValidSet(ss[n])
    ensures ValidPrefix(ss) == n
  {
    if n > 0 { ValidPrefixAt(ss[1..], n - 1); }
  }

  datatype RecordExerciseRow = RecordExerciseRow(id: int, key: ExerciseKey, orderIndex: int)
  datatype SetRow = SetRow(recordExercise: int, setNumber: int, weight: real, reps: int)

  /** `MAX(order_index) + 1`, or 0 when the record has no exercises. */
  function FirstOrderIndex(maxOrder: Option<int>): int {
    match maxOrder
    case Some(v) => v + 1
    case None => 0
  }

  /** `MAX(set_number)` per record-exercise after inserting one more row. */
  function Bump(maxSet: map<int, int>, r: SetRow): map<int, int> {
    maxSet[r.recordExercise := if r.recordExercise in maxSet then Max(maxSet[r.recordExercise], r.setNumber) else r.setNumber]
  }

  function MaxSetAfter(maxSet: map<int, int>, rows: seq<SetRow>): map<int, int> {
    if rows == [] then maxSet else Bump(MaxSetAfter(maxSet, rows[..|rows| - 1]), rows[|rows| - 1])
  }

  /** `MAX(set_number) + 1`, or 1 for a record-exercise without sets. */
  function NextSetNumber(maxSet: map<int, int>, re: int): int {
    if re in maxSet then maxSet[re] + 1 else 1
  }

  /** Each inserted set is numbered one above the highest number its
      record-exercise had when it was inserted. */
  predicate NumberedInOrder(maxSet: map<int, int>, rows: seq<SetRow>) {
    rows == [] ||
    (NumberedInOrder(maxSet, rows[..|rows| - 1])
     && rows[|rows| - 1].setNumber == NextSetNumber(MaxSetAfter(maxSet, rows[..|rows| - 1]), rows[|rows| - 1].recordExercise))
  }

  lemma NumberedAppend(maxSet: map<int, int>, rows: seq<SetRow>, r: SetRow)
    requires NumberedInOrder(maxSet, rows)
    requires r.setNumber == NextSetNumber(MaxSetAfter(maxSet, rows), r.recordExercise)
    ensures NumberedInOrder(maxSet, rows + [r])
    ensures MaxSetAfter(maxSet, rows + [r]) == Bump(MaxSetAfter(maxSet, rows), r)
  {
    assert (rows + [r])[..|rows|] == rows;
  }

  /** Read row by row: the `k`-th inserted set took the number after the
      highest one its record-exercise had just before it, so a new
      record-exercise starts at 1 and numbers never repeat within one. */
  lemma {:induction false} NumberedInOrderAt(maxSet: map<int, int>, rows: seq<SetRow>, k: nat)
    requires NumberedInOrder(maxSet, rows)
    requires k < |rows|
    ensures rows[k].setNumber == NextSetNumber(MaxSetAfter(maxSet, rows[..k]), rows[k].recordExercise)
  {
    var init := rows[..|rows| - 1];
    if k < |rows| - 1 {
      NumberedInOrderAt(maxSet, init, k);
      assert init[..k] == rows[..k];
    }
  }

  /** One set's EXP: the rounded raw value capped per set, never below 1. */
  function SetExp(raw: int): (e: int)
    ensures 1 <= e <= Config.DefaultExpConfig.maxExpPerSet
    ensures 1 <= raw <= Config.DefaultExpConfig.maxExpPerSet ==> e == raw
  {
    Max(1, Min(raw, Config.DefaultExpConfig.maxExpPerSet))
  }

  /** Every set of `sets` passes the range checks. */
  predicate AllValid(sets: seq<SetInput>) {
    forall k :: 0 <= k < |sets| ==> ValidSet(sets[k])
  }

  /** The inserted rows carry the weights and reps of `sets`, in order. */
  predicate Mirrors(rows: seq<SetRow>, sets: seq<SetInput>) {
    |rows| == |sets|
    && forall k :: 0 <= k < |rows| ==> rows[k].weight == sets[k].weight && rows[k].reps == sets[k].reps
  }

  lemma MirrorsConcat(rows1: seq<SetRow>, sets1: seq<SetInput>, rows2: seq<SetRow>, sets2: seq<SetInput>)
    requires Mirrors(rows1, sets1) && Mirrors(rows2, sets2)
    ensures Mirrors(rows1 + rows2, sets1 + sets2)
  {}

  lemma TakeStep<T>(xs: seq<T>, j: nat)
    requires j < |xs|
    ensures xs[..j + 1] == xs[..j] + [xs[j]]
  {}

  lemma {:induction false} MaxSetAfterConcat(maxSet: map<int, int>, a: seq<SetRow>, b: seq<SetRow>)
    ensures MaxSetAfter(maxSet, a + b) == MaxSetAfter(MaxSetAfter(maxSet, a), b)
    decreases |b|
  {
    if b == [] {
      assert a + b == a;
    } else {
      var init := b[..|b| - 1];
      MaxSetAfterConcat(maxSet, a, init);
      assert (a + b)[..|a + b| - 1] == a + init;
    }
  }

  /** Numbering a batch from the maxima left by an earlier batch continues
      the numbering of the two together. */
  lemma {:induction false} NumberedConcat(maxSet: map<int, int>, a: seq<SetRow>, b: seq<SetRow>)
    requires NumberedInOrder(maxSet, a)
    requires NumberedInOrder(MaxSetAfter(maxSet, a), b)
    ensures NumberedInOrder(maxSet, a + b)
    decreases |b|
  {
    if b == [] {
      assert a + b == a;
    } else {
      var init := b[..|b| - 1];
      NumberedConcat(maxSet, a, init);
      MaxSetAfterConcat(maxSet, a, init);
      assert (a + b)[..|a + b| - 1] == a + init;
    }
  }

  /** One turn of the set loop: a valid set inserted with the next number. */
  lemma SetStep(maxNow0: map<int, int>, added: seq<SetRow>, sets: seq<SetInput>, j: nat, row: SetRow, reId: int)
    requires j < |sets| && ValidSet(sets[j]) && AllValid(sets[..j])
    requires row == SetRow(reId, NextSetNumber(MaxSetAfter(maxNow0, added), reId), sets[j].weight, sets[j].reps)
    requires Mirrors(added, sets[..j]) && NumberedInOrder(maxNow0, added)
    requires forall k :: 0 <= k < |added| ==> added[k].recordExercise == reId
    ensures AllValid(sets[..j + 1]) && Mirrors(added + [row], sets[..j + 1])
    ensures NumberedInOrder(maxNow0, added + [row])
    ensures MaxSetAfter(maxNow0, added + [row]) == Bump(MaxSetAfter(maxNow0, added), row)
    ensures forall k :: 0 <= k < |added| + 1 ==> (added + [row])[k].recordExercise == reId
  {
    NumberedAppend(maxNow0, added, row);
    TakeStep(sets, j);
    MirrorsConcat(added, sets[..j], [row], [sets[j]]);
  }

  /** The set loop for one record-exercise `reId`, starting from the
      per-exercise maxima `maxNow0`: numbers continue from the highest
      number `reId` has so far, each set is checked before it is inserted,
      and each inserted set adds its capped EXP to the running total. */
  method InsertSets(sets: seq<SetInput>, reId: int, coef: int, rawExp: (int, SetInput) -> int,
                    maxNow0: map<int, int>, total0: int)
    returns (added: seq<SetRow>, maxNow: map<int, int>, total: int, failure: Option<AppError>)
    ensures failure.None? <==> AllValid(sets)
    ensures Mirrors(added, sets[..ValidPrefix(sets)])
    ensures failure.Some? ==> failure == SetError(sets[ValidPrefix(sets)])
    ensures forall k :: 0 <= k < |added| ==> added[k].recordExercise == reId
    ensures maxNow == MaxSetAfter(maxNow0, added)
    ensures NumberedInOrder(maxNow0, added)
    ensures |added| <= total - total0 <= Config.DefaultExpConfig.maxExpPerSet * |added|
  {
    added, maxNow, total := [], maxNow0, total0;
    var nextSetNumber := NextSetNumber(maxNow, reId);
    var j := 0;
    while j < |sets|
      invariant 0 <= j <= |sets| && AllValid(sets[..j])
      invariant Mirrors(added, sets[..j])
      invariant forall k :: 0 <= k < |added| ==> added[k].recordExercise == reId
      invariant maxNow == MaxSetAfter(maxNow0, added)
      invariant NumberedInOrder(maxNow0, added)
      invariant nextSetNumber == NextSetNumber(maxNow, reId)
      invariant |added| <= total - total0 <= Config.DefaultExpConfig.maxExpPerSet * |added|
    {
      var s := sets[j];
      if !ValidWeight(s) || !ValidReps(s) {
        failure := if !ValidWeight(s) then Some(BadRequest(WeightError)) else Some(BadRequest(RepsError));
        ValidPrefixAt(sets, j);
        return;
      }
      var row := SetRow(reId, nextSetNumber, s.weight, s.reps);
      SetStep(maxNow0, added, sets, j, row, reId);
      added := added + [row];
      maxNow := Bump(maxNow, row);
      total := total + SetExp(rawExp(coef, s));
      nextSetNumber := nextSetNumber + 1;
      j := j + 1;
    }
    assert sets[..j] == sets;
    ValidPrefixAt(sets, |sets|);
    failure := None;
  }

  /** The record-exercise rows created by one save have keys that were
      not stored, are pairwise distinct, and take consecutive order
      indices from `first`. */
  predicate FreshInOrder(created: seq<RecordExerciseRow>, existing: map<ExerciseKey, int>, first: int) {
    (forall k :: 0 <= k < |created| ==> created[k].orderIndex == first + k)
    && (forall k :: 0 <= k < |created| ==> created[k].key !in existing)
    && (forall j, k :: 0 <= j < k < |created| ==> created[j].key != created[k].key)
  }

  /** The ids of the created rows by key, a later row overriding an earlier one. */
  function RowIds(created: seq<RecordExerciseRow>): map<ExerciseKey, int> {
    if created == [] then map[]
    else RowIds(created[..|created| - 1])[created[|created| - 1].key := created[|created| - 1].id]
  }

  /** Creating one more row with a key that is not stored extends the
      lookup map by that key alone. */
  lemma IdsStep(existing: map<ExerciseKey, int>, created: seq<RecordExerciseRow>, row: RecordExerciseRow)
    requires row.key !in existing
    ensures existing + RowIds(created + [row]) == (existing + RowIds(created))[row.key := row.id]
  {
    assert (created + [row])[..|created|] == created;
  }

  /** Looks the exercise up among the record's exercises and inserts a new
      record-exercise row, with the next id and order index, when it is
      not there yet. `reIds` is the lookup map: the stored rows' ids and
      the created rows' ids. */
  method FindOrCreate(key: ExerciseKey, existing: map<ExerciseKey, int>,
                      reIds0: map<ExerciseKey, int>, created0: seq<RecordExerciseRow>,
                      nextId0: int, nextOrderIndex0: int)
    returns (reId: int, reIds: map<ExerciseKey, int>, created: seq<RecordExerciseRow>,
             nextId: int, nextOrderIndex: int)
    requires reIds0 == existing + RowIds(created0)
    ensures reIds == existing + RowIds(created)
    ensures key in reIds && reId == reIds[key]
    ensures forall k :: k in reIds0 ==> k in reIds && reIds[k] == reIds0[k]
    ensures key in reIds0 ==>
      reIds == reIds0 && created == created0 && reId == reIds0[key]
      && nextId == nextId0 && nextOrderIndex == nextOrderIndex0
    ensures key !in reIds0 ==>
      created == created0 + [RecordExerciseRow(nextId0, key, nextOrderIndex0)]
      && reIds == reIds0[key := nextId0] && reId == nextId0
      && nextId == nextId0 + 1 && nextOrderIndex == nextOrderIndex0 + 1
  {
    reIds, created, nextId, nextOrderIndex := reIds0, created0, nextId0, nextOrderIndex0;
    if key in reIds {
      reId := reIds[key];
    } else {
      reId := nextId;
      nextId := nextId + 1;
      IdsStep(existing, created, RecordExerciseRow(reId, key, nextOrderIndex));
      created := created + [RecordExerciseRow(reId, key, nextOrderIndex)];
      reIds := reIds[key := reId];
      nextOrderIndex := nextOrderIndex + 1;
    }
  }

  /** Appending one exercise's inserted rows to the earlier ones. */
  lemma BatchStep(maxSet: map<int, int>, before: seq<SetRow>, added: seq<SetRow>,
                  setsBefore: seq<SetInput>, setsAdded: seq<SetInput>)
    requires Mirrors(before, setsBefore) && Mirrors(added, setsAdded)
    requires NumberedInOrder(maxSet, before)
    requires NumberedInOrder(MaxSetAfter(maxSet, before), added)
    ensures Mirrors(before + added, setsBefore + setsAdded)
    ensures NumberedInOrder(maxSet, before + added)
    ensures MaxSetAfter(maxSet, before + added) == MaxSetAfter(MaxSetAfter(maxSet, before), added)
  {
    MirrorsConcat(before, setsBefore, added, setsAdded);
    NumberedConcat(maxSet, before, added);
    MaxSetAfterConcat(maxSet, before, added);
  }

  /** An exercise whose sets all pass extends the valid, mirrored prefix. */
  lemma ExerciseDone(exs: seq<ExerciseInput>, i: nat)
    requires i < |exs| && AllValid(Flat(exs[..i])) && AllValid(exs[i].sets)
    ensures AllValid(Flat(exs[..i + 1]))
    ensures Flat(exs[..i + 1]) == Flat(exs[..i]) + exs[i].sets[..ValidPrefix(exs[i].sets)]
  {
    FlatStep(exs, i);
    ValidPrefixAt(exs[i].sets, |exs[i].sets|);
    assert exs[i].sets[..|exs[i].sets|] == exs[i].sets;
  }

  /** The key a request exercise is looked up by. */
  function KeyOf(ex: ExerciseInput): ExerciseKey {
    (ex.isCustom, ex.exerciseId)
  }

  /** For each set of the request, in loop order, the key of the exercise
      it belongs to. */
  function Owners(exs: seq<ExerciseInput>): (keys: seq<ExerciseKey>)
    ensures |keys| == |Flat(exs)|
  {
    if exs == [] then []
    else Owners(exs[..|exs| - 1]) + seq(|exs[|exs| - 1].sets|, _ => KeyOf(exs[|exs| - 1]))
  }

  lemma {:induction false} OwnersPrefix(exs: seq<ExerciseInput>, i: nat)
    requires i <= |exs|
    ensures |Owners(exs[..i])| <= |Owners(exs)|
    ensures Owners(exs)[..|Owners(exs[..i])|] == Owners(exs[..i])
    decreases |exs| - i
  {
    if i < |exs| {
      var init := exs[..|exs| - 1];
      OwnersPrefix(init, i);
      assert init[..i] == exs[..i];
    } else {
      assert exs[..i] == exs;
    }
  }

  lemma OwnersStep(exs: seq<ExerciseInput>, i: nat)
    requires i < |exs|
    ensures Owners(exs[..i + 1]) == Owners(exs[..i]) + seq(|exs[i].sets|, _ => KeyOf(exs[i]))
  {
    assert exs[..i + 1][..i] == exs[..i];
  }

  /** The keys of the request's exercises that are not stored yet, each
      once, in the order they first appear: the record-exercises a save
      creates. */
  function NewKeys(exs: seq<ExerciseInput>, existing: map<ExerciseKey, int>): seq<ExerciseKey> {
    if exs == [] then []
    else
      var before := NewKeys(exs[..|exs| - 1], existing);
      var key := KeyOf(exs[|exs| - 1]);
      if key in existing || key in before then before else before + [key]
  }

  /** A key is new exactly when some exercise has it and it is not stored,
      and no key is listed twice. */
  lemma {:induction false} NewKeysMembership(exs: seq<ExerciseInput>, existing: map<ExerciseKey, int>)
    ensures forall key :: key in NewKeys(exs, existing) <==>
      key !in existing && exists k :: 0 <= k < |exs| && KeyOf(exs[k]) == key
    ensures forall j, k :: 0 <= j < k < |NewKeys(exs, existing)| ==>
      NewKeys(exs, existing)[j] != NewKeys(exs, existing)[k]
  {
    if exs != [] {
      var init := exs[..|exs| - 1];
      NewKeysMembership(init, existing);
      forall key | key !in existing && (exists k :: 0 <= k < |exs| && KeyOf(exs[k]) == key)
        ensures key in NewKeys(exs, existing)
      {
        var k :| 0 <= k < |exs| && KeyOf(exs[k]) == key;
        if k < |exs| - 1 {
          assert KeyOf(init[k]) == key;
        }
      }
      forall key | key in NewKeys(exs, existing)
        ensures exists k :: 0 <= k < |exs| && KeyOf(exs[k]) == key
      {
        if key in NewKeys(init, existing) {
          var k :| 0 <= k < |init| && KeyOf(init[k]) == key;
          assert KeyOf(exs[k]) == key;
        } else {
          assert KeyOf(exs[|exs| - 1]) == key;
        }
      }
    }
  }

  /** Every exercise in a prefix whose sets all pass has only passing sets. */
  lemma {:induction false} AllValidParts(exs: seq<ExerciseInput>, i: nat)
    requires i <= |exs| && AllValid(Flat(exs[..i]))
    ensures forall k :: 0 <= k < i ==> AllValid(exs[k].sets)
  {
    if i > 0 {
      var before, sets := Flat(exs[..i - 1]), exs[i - 1].sets;
      FlatStep(exs, i - 1);
      assert forall j :: 0 <= j < |before| ==> (before + sets)[j] == before[j];
      assert forall j :: 0 <= j < |sets| ==> (before + sets)[|before| + j] == sets[j];
      AllValidParts(exs, i - 1);
    }
  }

  /** How many exercises the loop reaches: all of them when every set is
      valid, otherwise up to and including the one holding the first
      invalid set. */
  function ExercisesRun(exs: seq<ExerciseInput>): (n: nat)
    ensures n <= |exs|
  {
    if exs == [] then 0 else if AllValid(exs[0].sets) then 1 + ExercisesRun(exs[1..]) else 1
  }

  lemma {:induction false} ExercisesRunAt(exs: seq<ExerciseInput>, i: nat)
    requires i <= |exs| && forall k :: 0 <= k < i ==> AllValid(exs[k].sets)
    ensures i == |exs| ==> ExercisesRun(exs) == |exs|
    ensures i < |exs| && !AllValid(exs[i].sets) ==> ExercisesRun(exs) == i + 1
  {
    if i > 0 {
      assert AllValid(exs[0].sets);
      forall k | 0 <= k < i - 1
        ensures AllValid(exs[1..][k].sets)
      {
        assert exs[1..][k] == exs[k + 1];
      }
      ExercisesRunAt(exs[1..], i - 1);
      if i < |exs| {
        assert exs[1..][i - 1] == exs[i];
      }
    }
  }

  /** The keys of created rows, in order. */
  function RowKeys(created: seq<RecordExerciseRow>): (keys: seq<ExerciseKey>)
    ensures |keys| == |created| && forall j :: 0 <= j < |created| ==> keys[j] == created[j].key
  {
    seq(|created|, j requires 0 <= j < |created| => created[j].key)
  }

  /** `reIds` knows exactly the stored and created keys, each with its row id. */
  ghost predicate KnownIds(reIds: map<ExerciseKey, int>, existing: map<ExerciseKey, int>,
                     created: seq<RecordExerciseRow>) {
    (forall key :: key in reIds <==> key in existing || key in RowKeys(created))
    && (forall key :: key in existing ==> key in reIds && reIds[key] == existing[key])
    && (forall j :: 0 <= j < |created| ==> created[j].key in reIds && reIds[created[j].key] == created[j].id)
  }

  /** The record-exercise rows a save creates for the exercises `exs`:
      one per new key, in order of first appearance, with consecutive ids
      from `firstNewId` and consecutive order indices from `first`. */
  function CreatedRows(exs: seq<ExerciseInput>, existing: map<ExerciseKey, int>,
                       firstNewId: int, first: int): seq<RecordExerciseRow> {
    if exs == [] then []
    else
      var before := CreatedRows(exs[..|exs| - 1], existing, firstNewId, first);
      var key := KeyOf(exs[|exs| - 1]);
      if key in existing || key in NewKeys(exs[..|exs| - 1], existing) then before
      else before + [RecordExerciseRow(firstNewId + |before|, key, first + |before|)]
  }

  lemma {:induction false} CreatedRowsKeys(exs: seq<ExerciseInput>, existing: map<ExerciseKey, int>,
                                           firstNewId: int, first: int)
    ensures var created := CreatedRows(exs, existing, firstNewId, first);
      RowKeys(created) == NewKeys(exs, existing)
      && forall j :: 0 <= j < |created| ==> created[j].id == firstNewId + j && created[j].orderIndex == first + j
  {
    if exs != [] {
      var init := exs[..|exs| - 1];
      var before := CreatedRows(init, existing, firstNewId, first);
      CreatedRowsKeys(init, existing, firstNewId, first);
      var key := KeyOf(exs[|exs| - 1]);
      if !(key in existing || key in NewKeys(init, existing)) {
        var row := RecordExerciseRow(firstNewId + |before|, key, first + |before|);
        assert RowKeys(before + [row]) == RowKeys(before) + [key];
      }
    }
  }

  lemma {:induction false} RowIdsDomain(created: seq<RecordExerciseRow>)
    ensures forall key :: key in RowIds(created) <==> key in RowKeys(created)
  {
    if created != [] {
      var init := created[..|created| - 1];
      RowIdsDomain(init);
      assert RowKeys(created) == RowKeys(init) + [created[|created| - 1].key];
    }
  }

  /** With distinct keys, each created row's key looks up that row's id. */
  lemma {:induction false} RowIdsAt(created: seq<RecordExerciseRow>)
    requires forall j, k :: 0 <= j < k < |created| ==> created[j].key != created[k].key
    ensures forall j :: 0 <= j < |created| ==>
      created[j].key in RowIds(created) && RowIds(created)[created[j].key] == created[j].id
  {
    if created != [] {
      var init := created[..|created| - 1];
      RowIdsAt(init);
      forall j | 0 <= j < |created| - 1
        ensures created[j].key in RowIds(created) && RowIds(created)[created[j].key] == created[j].id
      {
        assert init[j] == created[j];
      }
    }
  }

  /** What the created rows and the lookup map built from them mean: the
      new keys in order, fresh and numbered in order, every stored and
      created key looking up its own row. */
  lemma CreatedRowsMeaning(exs: seq<ExerciseInput>, existing: map<ExerciseKey, int>, firstNewId: int, first: int)
    ensures var created := CreatedRows(exs, existing, firstNewId, first);
      RowKeys(created) == NewKeys(exs, existing)
      && (forall j :: 0 <= j < |created| ==> created[j].id == firstNewId + j)
      && FreshInOrder(created, existing, first)
      && KnownIds(existing + RowIds(created), existing, created)
  {
    var created := CreatedRows(exs, existing, firstNewId, first);
    NewKeysMembership(exs, existing);
    CreatedRowsKeys(exs, existing, firstNewId, first);
    RowIdsDomain(created);
    RowIdsAt(created);
  }

  /** One exercise more adds a row exactly when its key is neither stored
      nor new in the exercises before it. */
  lemma CreatedStep(exs: seq<ExerciseInput>, i: nat, existing: map<ExerciseKey, int>, firstNewId: int, first: int)
    requires i < |exs|
    ensures var before := CreatedRows(exs[..i], existing, firstNewId, first);
      var key := KeyOf(exs[i]);
      (key in existing || key in NewKeys(exs[..i], existing) ==>
         CreatedRows(exs[..i + 1], existing, firstNewId, first) == before)
      && (key !in existing && key !in NewKeys(exs[..i], existing) ==>
         CreatedRows(exs[..i + 1], existing, firstNewId, first)
         == before + [RecordExerciseRow(firstNewId + |before|, key, first + |before|)])
  {
    assert exs[..i + 1][..i] == exs[..i] && exs[..i + 1][i] == exs[i];
  }

  /** The lookup map built from the created rows knows the stored keys and
      the new ones. */
  lemma LookupKeys(exs: seq<ExerciseInput>, existing: map<ExerciseKey, int>, firstNewId: int, first: int,
                   key: ExerciseKey)
    ensures key in existing + RowIds(CreatedRows(exs, existing, firstNewId, first)) <==>
      key in existing || key in NewKeys(exs, existing)
  {
    CreatedRowsKeys(exs, existing, firstNewId, first);
    RowIdsDomain(CreatedRows(exs, existing, firstNewId, first));
  }

  /** One lookup of the exercise loop leaves the rows created for the
      exercises up to `i`. */
  lemma LookupStep(exs: seq<ExerciseInput>, i: nat, existing: map<ExerciseKey, int>, firstNewId: int, first: int,
                   reIds0: map<ExerciseKey, int>, created: seq<RecordExerciseRow>)
    requires i < |exs|
    requires reIds0 == existing + RowIds(CreatedRows(exs[..i], existing, firstNewId, first))
    requires KeyOf(exs[i]) in reIds0 ==> created == CreatedRows(exs[..i], existing, firstNewId, first)
    requires KeyOf(exs[i]) !in reIds0 ==>
      var before := CreatedRows(exs[..i], existing, firstNewId, first);
      created == before + [RecordExerciseRow(firstNewId + |before|, KeyOf(exs[i]), first + |before|)]
    ensures created == CreatedRows(exs[..i + 1], existing, firstNewId, first)
  {
    CreatedStep(exs, i, existing, firstNewId, first);
    LookupKeys(exs[..i], existing, firstNewId, first, KeyOf(exs[i]));
  }

  /** Every inserted set carries the row id that `reIds` gives the key of
      the exercise it comes from, `owners` listing those keys set by set. */
  ghost predicate Attached(inserted: seq<SetRow>, owners: seq<ExerciseKey>, reIds: map<ExerciseKey, int>) {
    forall k :: 0 <= k < |inserted| ==>
      k < |owners| && owners[k] in reIds && inserted[k].recordExercise == reIds[owners[k]]
  }

  /** The sets of one more exercise, all inserted under that exercise's row
      id, keep every inserted set under the row of its own exercise. */
  lemma AttachStep(exs: seq<ExerciseInput>, i: nat, inserted: seq<SetRow>, added: seq<SetRow>,
                   reIds0: map<ExerciseKey, int>, reIds: map<ExerciseKey, int>)
    requires i < |exs| && |added| <= |exs[i].sets|
    requires Attached(inserted, Owners(exs[..i]), reIds0) && |inserted| == |Owners(exs[..i])|
    requires forall key :: key in reIds0 ==> key in reIds && reIds[key] == reIds0[key]
    requires KeyOf(exs[i]) in reIds
    requires forall k :: 0 <= k < |added| ==> added[k].recordExercise == reIds[KeyOf(exs[i])]
    ensures Attached(inserted + added, Owners(exs[..i + 1]), reIds)
  {
    OwnersStep(exs, i);
  }

  /** Attachment along a list of owners carries over to any list extending it. */
  lemma AttachedExtend(inserted: seq<SetRow>, short: seq<ExerciseKey>, long: seq<ExerciseKey>,
                       reIds: map<ExerciseKey, int>)
    requires Attached(inserted, short, reIds)
    requires |short| <= |long| && long[..|short|] == short
    ensures Attached(inserted, long, reIds)
  {
    forall k | 0 <= k < |inserted|
      ensures k < |short| && k < |long| && long[k] == short[k]
    {
      assert inserted[k].recordExercise == reIds[short[k]];
      assert long[..|short|][k] == long[k];
    }
  }

  /** One pass of the exercise loop: finds or creates the row of exercise
      `i`, then inserts its sets until the first invalid one. The
      requires are what the passes over the exercises before `i` leave. */
  method SaveExercise(exs: seq<ExerciseInput>, i: nat, existing: map<ExerciseKey, int>, firstNewId: int,
                      first: int, maxSet: map<int, int>, rawExp: (int, SetInput) -> int,
                      created0: seq<RecordExerciseRow>, inserted0: seq<SetRow>, reIds0: map<ExerciseKey, int>,
                      maxNow0: map<int, int>, total0: int)
    returns (created: seq<RecordExerciseRow>, inserted: seq<SetRow>, reIds: map<ExerciseKey, int>,
             maxNow: map<int, int>, total: int, failure: Option<AppError>)
    requires i < |exs|
    requires Mirrors(inserted0, Flat(exs[..i])) && NumberedInOrder(maxSet, inserted0)
    requires maxNow0 == MaxSetAfter(maxSet, inserted0)
    requires created0 == CreatedRows(exs[..i], existing, firstNewId, first)
    requires reIds0 == existing + RowIds(created0)
    requires Attached(inserted0, Owners(exs[..i]), reIds0)
    ensures failure.None? <==> AllValid(exs[i].sets)
    ensures failure.Some? ==> failure == SetError(exs[i].sets[ValidPrefix(exs[i].sets)])
    ensures Mirrors(inserted, Flat(exs[..i]) + exs[i].sets[..ValidPrefix(exs[i].sets)])
    ensures NumberedInOrder(maxSet, inserted) && maxNow == MaxSetAfter(maxSet, inserted)
    ensures created == CreatedRows(exs[..i + 1], existing, firstNewId, first)
    ensures reIds == existing + RowIds(created)
    ensures Attached(inserted, Owners(exs[..i + 1]), reIds)
    ensures |inserted| - |inserted0| <= total - total0
            <= Config.DefaultExpConfig.maxExpPerSet * (|inserted| - |inserted0|)
  {
    var ex := exs[i];
    var coef := DifficultyCoefficient(ex.isCustom, ex.difficulty);
    var reId, nextId, nextOrderIndex;
    reId, reIds, created, nextId, nextOrderIndex :=
      FindOrCreate(KeyOf(ex), existing, reIds0, created0, firstNewId + |created0|, first + |created0|);
    LookupStep(exs, i, existing, firstNewId, first, reIds0, created);
    var added;
    added, maxNow, total, failure := InsertSets(ex.sets, reId, coef, rawExp, maxNow0, total0);
    AttachStep(exs, i, inserted0, added, reIds0, reIds);
    BatchStep(maxSet, inserted0, added, Flat(exs[..i]), ex.sets[..ValidPrefix(ex.sets)]);
    inserted := inserted0 + added;
  }

  /** The exercise loop of `save_record`. `existing` maps the record's
      exercises to their rows, `maxOrder` and `maxSet` are the stored
      maxima, `firstNewId` is the next auto-increment id and `rawExp`
      stands for the rounded floating-point EXP of a set for a
      coefficient. Rows are inserted as the loop goes, so the rows
      inserted before an invalid set stay. */
  method SaveExercises(exs: seq<ExerciseInput>, existing: map<ExerciseKey, int>, maxOrder: Option<int>,
                       maxSet: map<int, int>, firstNewId: int, rawExp: (int, SetInput) -> int)
    returns (created: seq<RecordExerciseRow>, inserted: seq<SetRow>, reIds: map<ExerciseKey, int>,
             outcome: Outcome<int>)
    ensures outcome.Ok? <==> AllValid(Flat(exs))
    ensures Mirrors(inserted, Flat(exs)[..ValidPrefix(Flat(exs))])
    ensures outcome.Err? ==> Some(outcome.error) == SetError(Flat(exs)[ValidPrefix(Flat(exs))])
    ensures NumberedInOrder(maxSet, inserted)
    ensures created == CreatedRows(exs[..ExercisesRun(exs)], existing, firstNewId, FirstOrderIndex(maxOrder))
    ensures outcome.Ok? ==> created == CreatedRows(exs, existing, firstNewId, FirstOrderIndex(maxOrder))
    ensures FreshInOrder(created, existing, FirstOrderIndex(maxOrder))
    ensures KnownIds(reIds, existing, created)
    ensures Attached(inserted, Owners(exs), reIds)
    ensures outcome.Ok? ==>
      |Flat(exs)| <= outcome.value <= Config.DefaultExpConfig.maxExpPerSet * |Flat(exs)|
  {
    var first := FirstOrderIndex(maxOrder);
    reIds := existing;
    var maxNow := maxSet;
    var total := 0;
    created, inserted := [], [];
    var i := 0;
    assert exs[..0] == [];
    while i < |exs|
      invariant 0 <= i <= |exs|
      invariant AllValid(Flat(exs[..i])) && Mirrors(inserted, Flat(exs[..i]))
      invariant maxNow == MaxSetAfter(maxSet, inserted)
      invariant NumberedInOrder(maxSet, inserted)
      invariant created == CreatedRows(exs[..i], existing, firstNewId, first)
      invariant reIds == existing + RowIds(created)
      invariant Attached(inserted, Owners(exs[..i]), reIds)
      invariant |inserted| <= total <= Config.DefaultExpConfig.maxExpPerSet * |inserted|
    {
      var failure;
      created, inserted, reIds, maxNow, total, failure :=
        SaveExercise(exs, i, existing, firstNewId, first, maxSet, rawExp, created, inserted, reIds, maxNow, total);
      if failure.Some? {
        FailedAt(exs, i);
        AllValidParts(exs, i);
        ExercisesRunAt(exs, i);
        assert exs[..ExercisesRun(exs)] == exs[..i + 1];
        CreatedRowsMeaning(exs[..i + 1], existing, firstNewId, first);
        OwnersPrefix(exs, i + 1);
        AttachedExtend(inserted, Owners(exs[..i + 1]), Owners(exs), reIds);
        outcome := Err(failure.value);
        return;
      }
      ExerciseDone(exs, i);
      i := i + 1;
    }
    assert exs[..i] == exs;
    AllValidParts(exs, i);
    ExercisesRunAt(exs, i);
    CreatedRowsMeaning(exs, existing, firstNewId, first);
    ValidPrefixAt(Flat(exs), |Flat(exs)|);
    assert Flat(exs)[..|Flat(exs)|] == Flat(exs);
    outcome := Ok(total);
  }

  lemma FlatStep(exs: seq<ExerciseInput>, i: nat)
    requires i < |exs|
    ensures Flat(exs[..i + 1]) == Flat(exs[..i]) + exs[i].sets
  {
    assert exs[..i + 1][..i] == exs[..i];
  }

  /** When the set loop of exercise `i` stops at an invalid set, that set
      is the first invalid one of the whole request. */
  lemma FailedAt(exs: seq<ExerciseInput>, i: nat)
    requires i < |exs|
    requires AllValid(Flat(exs[..i]))
    requires ValidPrefix(exs[i].sets) < |exs[i].sets|
    ensures ValidPrefix(Flat(exs)) == |Flat(exs[..i])| + ValidPrefix(exs[i].sets) < |Flat(exs)|
    ensures !AllValid(Flat(exs))
    ensures Flat(exs)[ValidPrefix(Flat(exs))] == exs[i].sets[ValidPrefix(exs[i].sets)]
    ensures Flat(exs)[..ValidPrefix(Flat(exs))] == Flat(exs[..i]) + exs[i].sets[..ValidPrefix(exs[i].sets)]
  {
    FlatPrefix(exs, i + 1);
    FlatStep(exs, i);
    FailedIn(Flat(exs), Flat(exs[..i]), exs[i].sets);
  }

  /** The first invalid set of a sequence that starts with all-valid `pre`
      followed by `sets` is the first invalid one of `sets`. */
  lemma FailedIn(whole: seq<SetInput>, pre: seq<SetInput>, sets: seq<SetInput>)
    requires |pre| + |sets| <= |whole| && whole[..|pre| + |sets|] == pre + sets
    requires AllValid(pre) && ValidPrefix(sets) < |sets|
    ensures ValidPrefix(whole) == |pre| + ValidPrefix(sets) < |whole|
    ensures whole[ValidPrefix(whole)] == sets[ValidPrefix(sets)]
    ensures whole[..ValidPrefix(whole)] == pre + sets[..ValidPrefix(sets)]
  {
    var m := |pre| + |sets|;
    var v := ValidPrefix(sets);
    var n := |pre| + v;
    var head := pre + sets[..v];
    assert whole[..n] == whole[..m][..n] == (pre + sets)[..n] == head;
    assert whole[n] == whole[..m][n] == (pre + sets)[n] == sets[v];
    forall k | 0 <= k < n
      ensures ValidSet(whole[k])
    {
      assert whole[k] == whole[..n][k] == head[k];
    }
    ValidPrefixAt(whole, n);
  }

  // ---- the daily cap and the totals ----

  /** EXP actually awarded: the boosted EXP, but no more than what is left
      of the day's limit, and never negative. */
  function CappedExp(boosted: int, dailyLimit: int, existingDaily: int): (actual: int)
    ensures actual <= boosted
    ensures actual <= Max(dailyLimit - existingDaily, 0)
    ensures boosted >= 0 ==> actual >= 0
    ensures actual == boosted || actual == Max(dailyLimit - existingDaily, 0)
  {
    Min(boosted, Max(dailyLimit - existingDaily, 0))
  }

  /** Awarding never lifts the day's total above the limit, unless it was
      already above it, in which case nothing is added. */
  lemma CappedExpRespectsLimit(boosted: int, dailyLimit: int, existingDaily: int)
    requires boosted >= 0
    ensures existingDaily + CappedExp(boosted, dailyLimit, existingDaily) <= Max(dailyLimit, existingDaily)
    ensures existingDaily >= dailyLimit ==> CappedExp(boosted, dailyLimit, existingDaily) == 0
  {}

  /** `save_record`'s user-stats update: the new total (floored at 0), the
      level before, and the level after. */
  function AwardUserExp(stats: Option<(int, int)>, actual: int): (r: (int, int, int))
    ensures r.0 >= 0 || stats.None?
    ensures r.2 == Models.LevelOf(r.0)
    ensures stats.None? ==> r.0 == actual && r.1 == 1
    ensures stats.Some? ==> r.0 == Max(0, stats.value.0 + actual) && r.1 == stats.value.1
  {
    match stats
    case Some((totalExp, level)) =>
      var newTotal := Max(0, totalExp + actual);
      (newTotal, level, Models.LevelOf(newTotal))
    case None => (actual, 1, Models.LevelOf(actual))
  }

  /** A level-up is reported iff the new level is above the old one; with
      the stored level consistent and EXP gained, the level never drops. */
  lemma AwardNeverLowersLevel(totalExp: int, actual: int)
    requires totalExp >= 0 && actual >= 0
    ensures var r := AwardUserExp(Some((totalExp, Models.LevelOf(totalExp))), actual);
      r.2 >= r.1
  {
    Models.LevelOfMonotone(totalExp, Max(0, totalExp + actual));
  }

  /** Deducting EXP on delete, floored at 0. */
  function DeductExp(totalExp: int, exp: int): (r: int)
    ensures r >= 0
    ensures exp >= 0 ==> r <= Max(totalExp, 0)
    ensures totalExp - exp >= 0 ==> r == totalExp - exp
  {
    Max(0, totalExp - exp)
  }

  /** Deleting a record takes back exactly the EXP its save added. */
  lemma DeductUndoesAward(totalExp: int, actual: int)
    requires totalExp >= 0 && actual >= 0
    ensures DeductExp(AwardUserExp(Some((totalExp, 0)), actual).0, actual) == totalExp
  {}

  /** `delete_record`'s effect on the user's stats `(total, level)` and on
      the active pet `(total, level, stage)`; a missing record is NotFound. */
  function DeleteRecord(recordExp: Option<int>, userTotal: Option<int>, petTotal: Option<int>)
    : (r: Outcome<(Option<(int, int)>, Option<(int, int, int)>)>)
    ensures recordExp.None? ==> r == Err(NotFound("Record not found"))
    ensures recordExp.Some? ==>
      r.Ok? && (r.value.0.Some? <==> userTotal.Some?) && (r.value.1.Some? <==> petTotal.Some?)
    ensures recordExp.Some? && userTotal.Some? ==>
      r.value.0.value.0 == DeductExp(userTotal.value, recordExp.value)
      && r.value.0.value.1 == Models.LevelOf(r.value.0.value.0)
    ensures recordExp.Some? && petTotal.Some? ==>
      var p := r.value.1.value;
      p.0 == DeductExp(petTotal.value, recordExp.value)
      && p.1 == Models.LevelOf(p.0) && p.2 == Models.PetStage(p.1)
  {
    match recordExp
    case None => Err(NotFound("Record not found"))
    case Some(exp) =>
      var user := match userTotal
        case None => None
        case Some(t) => var nt := DeductExp(t, exp); Some((nt, Models.LevelOf(nt)));
      var pet := match petTotal
        case None => None
        case Some(t) =>
          var nt := DeductExp(t, exp);
          var lv := Models.LevelOf(nt);
          Some((nt, lv, Models.PetStage(lv)));
      Ok((user, pet))
  }
}

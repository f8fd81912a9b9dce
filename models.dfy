/** The levelling arithmetic shared by users and pets: the cumulative EXP
    curve, its inverse by binary search, and the pet stage and mood tables. */
module Models {
  import opened Common

  /** Highest level the search in `CalculateLevel` can return. */
  const MaxLevel: int := 1000

  /** Cumulative EXP needed to reach `level`: 0 up to level 1, then
      40·L² + 100·L − 140. */
  function RequiredExp(level: int): (e: int)
    ensures level <= 1 ==> e == 0
    ensures level >= 2 ==> e >= 220
  {
    if level <= 1 then 0 else 40 * level * level + 100 * level - 140
  }

  /** The values the curve is documented to take. */
  lemma RequiredExpCheckpoints()
    ensures RequiredExp(1) == 0 && RequiredExp(2) == 220 && RequiredExp(5) == 1360
    ensures RequiredExp(10) == 4860 && RequiredExp(50) == 104860
    ensures RequiredExp(100) == 409860
  {}

  /** Going up one level costs 80·L + 140 more EXP. */
  lemma RequiredExpStep(level: int)
    requires level >= 1
    ensures RequiredExp(level + 1) == RequiredExp(level) + 80 * level + 140
  {
    if level >= 2 {
      assert (level + 1) * (level + 1) == level * level + 2 * level + 1;
    }
  }

  /** The curve is strictly increasing from level 1 on; the binary search
      depends on it. */
  lemma {:induction false} RequiredExpStrictlyIncreasing(a: int, b: int)
    requires 1 <= a < b
    ensures RequiredExp(a) < RequiredExp(b)
    decreases b - a
  {
    RequiredExpStep(b - 1);
    if a < b - 1 {
      RequiredExpStrictlyIncreasing(a, b - 1);
    }
  }

  /** EXP still needed to go from `level` to `level + 1`, as an `i32`. */
  function ExpToNext(level: int): (d: int)
    ensures IsI32(d)
  {
    WrapI32(RequiredExp(level + 1) - RequiredExp(level))
  }

  /** The step between consecutive levels is 80·L + 140 as long as it fits
      an `i32`, and adding it to the curve reaches the next level. */
  lemma ExpToNextFormula(level: int)
    requires 1 <= level <= 26843543
    ensures ExpToNext(level) == 80 * level + 140
    ensures RequiredExp(level) + ExpToNext(level) == RequiredExp(level + 1)
  {
    RequiredExpStep(level);
  }

  /** Specification of the search: counting down from `n`, the first level
      whose requirement is met (level 1 is always accepted). */
  function LevelFrom(total: int, n: int): (l: int)
    requires 1 <= n
    ensures 1 <= l <= n
    decreases n
  {
    if n == 1 || RequiredExp(n) <= total then n else LevelFrom(total, n - 1)
  }

  /** The level reached with `total` cumulative EXP. */
  function LevelOf(total: int): (l: int)
    ensures 1 <= l <= MaxLevel
  {
    if total <= 0 then 1 else LevelFrom(total, MaxLevel)
  }

  lemma {:induction false} LevelFromSpec(total: int, n: int)
    requires 1 <= n && total >= 0
    ensures RequiredExp(LevelFrom(total, n)) <= total
    ensures forall k :: LevelFrom(total, n) < k <= n ==> RequiredExp(k) > total
    decreases n
  {
    if !(n == 1 || RequiredExp(n) <= total) {
      LevelFromSpec(total, n - 1);
    }
  }

  /** `LevelOf(total)` is the largest level in 1..1000 whose requirement
      `total` meets; below zero, where none is met, it is 1. */
  lemma LevelOfSpec(total: int)
    ensures total <= 0 ==> LevelOf(total) == 1
    ensures total >= 0 ==> RequiredExp(LevelOf(total)) <= total
    ensures forall k :: LevelOf(total) < k <= MaxLevel ==> RequiredExp(k) > total
  {
    if total > 0 {
      LevelFromSpec(total, MaxLevel);
    } else {
      forall k | 1 < k <= MaxLevel ensures RequiredExp(k) > total {
        RequiredExpStrictlyIncreasing(1, k);
      }
    }
  }

  /** A level in range that meets `total` while the next one does not is
      exactly `LevelOf(total)`. */
  lemma LevelOfUnique(total: int, level: int)
    requires 1 <= level <= MaxLevel
    requires RequiredExp(level) <= total || level == 1
    requires level == MaxLevel || RequiredExp(level + 1) > total
    ensures LevelOf(total) == level
  {
    LevelOfSpec(total);
    var l := LevelOf(total);
    if level + 1 < l { RequiredExpStrictlyIncreasing(level + 1, l); }
  }

  /** Round trip: the EXP a level requires maps back to that level. */
  lemma LevelOfRequiredExp(level: int)
    requires 1 <= level <= MaxLevel
    ensures LevelOf(RequiredExp(level)) == level
  {
    if level < MaxLevel { RequiredExpStrictlyIncreasing(level, level + 1); }
    LevelOfUnique(RequiredExp(level), level);
  }

  /** More EXP never means a lower level. */
  lemma LevelOfMonotone(t1: int, t2: int)
    requires t1 <= t2
    ensures LevelOf(t1) <= LevelOf(t2)
  {
    LevelOfSpec(t1);
    LevelOfSpec(t2);
  }

  /** `calculate_level`: binary search over 1..1000 for the largest level
      whose cumulative requirement is at most `totalExp`. */
  method CalculateLevel(totalExp: int) returns (level: int)
    ensures level == LevelOf(totalExp)
    ensures 1 <= level <= MaxLevel
  {
    if totalExp <= 0 {
      return 1;
    }
    var low, high := 1, MaxLevel;
    while low < high
      invariant 1 <= low <= high <= MaxLevel
      invariant RequiredExp(low) <= totalExp
      invariant high < MaxLevel ==> RequiredExp(high + 1) > totalExp
      decreases high - low
    {
      var mid := (low + high + 1) / 2;
      if RequiredExp(mid) <= totalExp {
        low := mid;
      } else {
        high := mid - 1;
      }
    }
    LevelOfUnique(totalExp, low);
    level := low;
  }

  // ---- pets ----

  /** `Pet::calculate_stage`: 1 (egg) for levels 1..10, 2 (child) for
      11..30, 3 (adult) for everything else, non-positive levels included. */
  function PetStage(level: int): (stage: int)
    ensures 1 <= stage <= 3
  {
    if 1 <= level <= 10 then 1 else if 11 <= level <= 30 then 2 else 3
  }

  /** Stage follows level: it never goes down as a level 1..1000 rises, and
      adulthood is exactly level 31 and above. */
  lemma PetStageMonotone(l1: int, l2: int)
    requires 1 <= l1 <= l2
    ensures PetStage(l1) <= PetStage(l2)
    ensures PetStage(l2) == 3 <==> l2 >= 31
  {}

  /** The stage reached with some cumulative EXP never decreases as EXP
      grows. */
  lemma StageOfExpMonotone(t1: int, t2: int)
    requires t1 <= t2
    ensures PetStage(LevelOf(t1)) <= PetStage(LevelOf(t2))
  {
    LevelOfMonotone(t1, t2);
  }

  /** `Pet::get_stage_name`. */
  function StageName(stage: int): (name: string)
    ensures name == "Unknown" <==> !(1 <= stage <= 3)
  {
    match stage
    case 1 => "卵"
    case 2 => "成長期"
    case 3 => "覚醒"
    case _ => "Unknown"
  }

  /** Distinct stages have distinct names. */
  lemma StageNamesDistinct(s1: int, s2: int)
    requires 1 <= s1 <= 3 && 1 <= s2 <= 3 && s1 != s2
    ensures StageName(s1) != StageName(s2)
  {}

  /** `Pet::calculate_mood` with today passed in: 50 with no training date,
      otherwise a score by days elapsed; negative elapsed days count as
      long absence. */
  function Mood(lastActive: Option<int>, today: int): (score: int)
    ensures score == 50 <==> lastActive.None?
    ensures score in {100, 80, 60, 40, 20, 50}
  {
    match lastActive
    case None => 50
    case Some(last) =>
      var days := today - last;
      if 0 <= days <= 1 then 100
      else if days == 2 then 80
      else if days == 3 then 60
      else if 4 <= days <= 7 then 40
      else 20
  }

  /** Mood only falls as the last training date recedes, and it bottoms
      out at 20 after a week. */
  lemma MoodNonIncreasing(last: int, today1: int, today2: int)
    requires last <= today1 <= today2
    ensures Mood(Some(last), today1) >= Mood(Some(last), today2)
    ensures today2 - last > 7 <==> Mood(Some(last), today2) == 20
  {}

  /** `Pet::get_mood_label`. */
  function MoodLabel(score: int): (text: string)
    ensures text == "弱っている" <==> score !in {100, 80, 60, 50, 40}
  {
    match score
    case 100 => "絶好調"
    case 80 => "元気"
    case 60 => "普通"
    case 40 => "寂しい"
    case 50 => "眠そう"
    case _ => "弱っている"
  }

  /** Every score `Mood` can produce has its own label. */
  lemma MoodLabelsDistinct(last1: Option<int>, last2: Option<int>, today: int)
    requires Mood(last1, today) != Mood(last2, today)
    ensures MoodLabel(Mood(last1, today)) != MoodLabel(Mood(last2, today))
  {}
}

/** The 14-day login reward cycle: the reward table, which day comes next,
    the status of the fourteen days, and claiming today's reward. */
module DailyReward {
  import opened Common
  import opened AppErrors

  /** `REWARDS`: EXP for days 1..14 (index `day - 1`). */
  const Rewards: seq<int> := [200, 200, 200, 200, 200, 200, 500, 200, 200, 200, 200, 200, 200, 1000]

  predicate IsBigRewardDay(day: int) { day == 7 || day == 14 }

  /** Day 7 pays 500, day 14 pays 1000, every other day 200. */
  lemma RewardsTable(day: int)
    requires 1 <= day <= 14
    ensures |Rewards| == 14
    ensures Rewards[day - 1] == if day == 7 then 500 else if day == 14 then 1000 else 200
    ensures IsBigRewardDay(day) <==> Rewards[day - 1] > 200
  {}

  /** `get_current_reward_day`: the day after the last claimed one, back to
      day 1 after day 14 or without history. */
  function NextRewardDay(lastClaimed: Option<int>): (day: int)
    ensures lastClaimed.None? || lastClaimed.value >= 0 ==> 1 <= day <= 14
  {
    match lastClaimed
    case None => 1
    case Some(d) => if d >= 14 then 1 else d + 1
  }

  /** The day reached after `n` claims made from an empty history. */
  function DayAfterClaims(n: nat): int {
    if n == 0 then NextRewardDay(None) else NextRewardDay(Some(DayAfterClaims(n - 1)))
  }

  /** Claiming every day walks the cycle 1, 2, ..., 14, 1, ... */
  lemma {:induction false} CycleRepeats(n: nat)
    ensures DayAfterClaims(n) == n % 14 + 1
  {
    if n > 0 {
      CycleRepeats(n - 1);
      var q, p := (n - 1) / 14, (n - 1) % 14;
      assert n == 14 * q + p + 1;
      if p < 13 {
        assert n % 14 == p + 1;
      } else {
        assert n == 14 * (q + 1);
        assert n % 14 == 0;
      }
    }
  }

  // ---- the fourteen-day status ----

  /** A claimed row of `user_login_history`. */
  datatype HistoryRow = HistoryRow(loginDate: int, rewardDay: int)

  datatype DayStatus = DayStatus(day: int, claimed: bool, claimedDate: Option<int>, exp: int, isBigReward: bool)

  /** `find(|h| h.reward_day == day)`: the first row carrying that day. */
  function FindDay(history: seq<HistoryRow>, day: int): (r: Option<nat>)
    ensures r.None? <==> forall k :: 0 <= k < |history| ==> history[k].rewardDay != day
    ensures r.Some? ==>
      r.value < |history| && history[r.value].rewardDay == day
      && forall k :: 0 <= k < r.value ==> history[k].rewardDay != day
  {
    if history == [] then None
    else if history[0].rewardDay == day then Some(0)
    else match FindDay(history[1..], day)
      case None => None
      case Some(k) =>
        assert forall j :: 1 <= j <= k ==> history[j] == history[1..][j - 1];
        Some(k + 1)
  }

  /** The latest date among rows that claimed day 14: the cycle start. */
  function CycleStart(rows: seq<HistoryRow>): (start: Option<int>)
    ensures start.None? <==> forall k :: 0 <= k < |rows| ==> rows[k].rewardDay != 14
    ensures start.Some? ==>
      (exists k :: 0 <= k < |rows| && rows[k].rewardDay == 14 && rows[k].loginDate == start.value)
      && forall k :: 0 <= k < |rows| && rows[k].rewardDay == 14 ==> rows[k].loginDate <= start.value
  {
    if rows == [] then None
    else
      var rest := CycleStart(rows[1..]);
      assert forall k :: 1 <= k < |rows| ==> rows[k] == rows[1..][k - 1];
      if rows[0].rewardDay != 14 then rest
      else if rest.None? || rest.value < rows[0].loginDate then Some(rows[0].loginDate)
      else rest
  }

  function After(rows: seq<HistoryRow>, start: int): (r: seq<HistoryRow>)
    ensures forall h :: h in r <==> h in rows && h.loginDate > start
  {
    if rows == [] then []
    else (if rows[0].loginDate > start then [rows[0]] else []) + After(rows[1..], start)
  }

  /** `get_claimed_days`: the claimed rows after the last day-14 claim, or
      every claimed row when day 14 was never claimed. */
  function CycleHistory(rows: seq<HistoryRow>): (r: seq<HistoryRow>)
    ensures forall h :: h in r ==> h in rows
    ensures forall h :: h in r ==> h.rewardDay != 14 || CycleStart(rows).None?
  {
    match CycleStart(rows)
    case None => rows
    case Some(start) => After(rows, start)
  }

  function StatusOf(history: seq<HistoryRow>, day: int): DayStatus
    requires 1 <= day <= 14
  {
    var found := FindDay(history, day);
    DayStatus(day, found.Some?, if found.Some? then Some(history[found.value].loginDate) else None,
              Rewards[day - 1], day == 7 || day == 14)
  }

  /** The `days` list of `get_daily_rewards`. */
  function DayStatuses(history: seq<HistoryRow>): (days: seq<DayStatus>)
    ensures |days| == 14
  {
    seq(14, i requires 0 <= i < 14 => StatusOf(history, i + 1))
  }

  /** Days 1..14 in order, each with its table reward; a day is claimed iff
      some row carries it, and its date is that of the first such row. */
  lemma DayStatusesMeaning(history: seq<HistoryRow>, i: int)
    requires 0 <= i < 14
    ensures var d := DayStatuses(history)[i];
      d.day == i + 1 && d.exp == Rewards[i] && (d.isBigReward <==> IsBigRewardDay(i + 1))
      && (d.claimed <==> exists k :: 0 <= k < |history| && history[k].rewardDay == i + 1)
      && (d.claimed ==> exists k ::
            0 <= k < |history| && history[k].rewardDay == i + 1
            && d.claimedDate == Some(history[k].loginDate)
            && forall j :: 0 <= j < k ==> history[j].rewardDay != i + 1)
      && (!d.claimed ==> d.claimedDate.None?)
  {
    var found := FindDay(history, i + 1);
    if found.Some? {
      assert history[found.value].rewardDay == i + 1;
    }
  }

  // ---- claiming ----

  datatype ClaimResponse = ClaimResponse(success: bool, alreadyClaimed: bool, rewardDay: int, expEarned: int,
                                         totalExp: int)

  /** `claim_daily_reward`. `expReward` is today's base reward after the
      streak multiplier (floating point, computed outside the model);
      `userTotal` is the `user_stats` row's EXP, if the row exists. On a
      claim the EXP is added and read back; without a stats row and with a
      positive reward, the read of the updated row fails. */
  function Claim(todayClaimed: bool, lastClaimed: Option<int>, userTotal: Option<int>, expReward: int)
    : (r: Outcome<ClaimResponse>)
    requires lastClaimed.None? || lastClaimed.value >= 0
    ensures todayClaimed ==> r == Ok(ClaimResponse(true, true, 0, 0, GetOr(userTotal, 0)))
    ensures !todayClaimed && r.Ok? ==>
      !r.value.alreadyClaimed && 1 <= r.value.rewardDay <= 14 && r.value.rewardDay == NextRewardDay(lastClaimed)
      && r.value.expEarned == expReward
    ensures r.Err? <==> !todayClaimed && expReward > 0 && userTotal.None?
  {
    if todayClaimed then Ok(ClaimResponse(true, true, 0, 0, GetOr(userTotal, 0)))
    else
      var day := NextRewardDay(lastClaimed);
      if expReward > 0 && userTotal.None? then Err(DatabaseError("no rows returned by a query that expected to return at least one row"))
      else
        var total := GetOr(userTotal, 0) + if expReward > 0 then expReward else 0;
        Ok(ClaimResponse(true, false, day, expReward, total))
  }

  /** A successful claim adds exactly the earned EXP (when positive) to the
      stored total, and a repeated claim on the same day changes nothing. */
  lemma ClaimAddsEarned(lastClaimed: Option<int>, total: int, expReward: int)
    requires lastClaimed.None? || lastClaimed.value >= 0
    ensures var r := Claim(false, lastClaimed, Some(total), expReward);
      r.Ok? && r.value.totalExp == total + Max(expReward, 0)
      && Claim(true, lastClaimed, Some(r.value.totalExp), 0).value.totalExp == r.value.totalExp
      && Claim(true, lastClaimed, Some(r.value.totalExp), 0).value.expEarned == 0
  {}
}

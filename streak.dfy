/** Login and training streaks: the login bonus, the per-activity streak
    transition, the grace-day clamp and the recount over stored training
    dates. Dates are day numbers. */
module Streak {
  import opened Common

  /** Grace days stored for a user without a settings row. */
  const DefaultGraceDays: int := 1

  /** One `user_streaks` row, as far as the rules read it. */
  datatype StreakState = StreakState(current: int, best: int, lastActive: Option<int>, graceUsed: int)

  /** The row inserted when a user has none yet. */
  const NewStreak: StreakState := StreakState(0, 0, None, 0)

  /** Bonus EXP for claiming the daily login with a given login streak:
      100, plus 10 per streak day up to 100, plus 50 per full week. */
  function LoginBonus(streak: int): (exp: int)
    ensures streak >= 0 ==> exp >= 100
    ensures 0 <= streak <= 10 ==> exp == 100 + 10 * streak + TruncDiv(streak, 7) * 50
    ensures streak >= 10 ==> exp == 200 + (streak / 7) * 50
  {
    100 + Min(streak * 10, 100) + TruncDiv(streak, 7) * 50
  }

  /** A longer streak never earns a smaller bonus, and a week's streak earns
      exactly 220. */
  lemma LoginBonusMonotone(a: int, b: int)
    requires 0 <= a <= b
    ensures LoginBonus(a) <= LoginBonus(b)
    ensures LoginBonus(7) == 220
  {}

  /** `update_settings`: grace days are clamped into 0..3. */
  function ClampGrace(requested: int): (g: int)
    ensures 0 <= g <= 3
    ensures 0 <= requested <= 3 ==> g == requested
    ensures requested < 0 ==> g == 0
    ensures requested > 3 ==> g == 3
  {
    if requested < 0 then 0 else if requested > 3 then 3 else requested
  }

  /** What one activity on `date` does to a streak row (`update_streak`).
      First activity starts at 1 and overwrites best; the same day again
      changes nothing; a gap of one day extends the streak; a gap of at
      most `graceAllowed + 1` days (earlier dates included) extends it and
      records the skipped days; a larger gap restarts it. */
  function NextStreak(s: StreakState, date: int, graceAllowed: int): (r: StreakState)
    ensures r.lastActive == Some(date)
    ensures s.lastActive == Some(date) ==> r == s
    ensures s.lastActive.None? ==> r == StreakState(1, 1, Some(date), 0)
    ensures s.lastActive.Some? && s.lastActive != Some(date) ==> r.best == Max(s.best, r.current)
  {
    match s.lastActive
    case None => StreakState(1, 1, Some(date), 0)
    case Some(last) =>
      if date == last then s
      else
        var gap := date - last;
        var kept := gap == 1 || gap <= graceAllowed + 1;
        var current := if kept then s.current + 1 else 1;
        var used := if gap == 1 || !kept then 0 else gap - 1;
        StreakState(current, Max(s.best, current), Some(date), used)
  }

  /** The invariant every stored row keeps: once there is a last date the
      streak is at least 1 and never above the best. */
  predicate Consistent(s: StreakState) {
    0 <= s.current <= s.best && (s.lastActive.Some? ==> s.current >= 1)
  }

  lemma NextStreakConsistent(s: StreakState, date: int, graceAllowed: int)
    requires Consistent(s)
    ensures Consistent(NextStreak(s, date, graceAllowed))
  {}

  /** On a consistent row with a non-negative allowance, a new date either
      extends the streak by one (gap within grace + 1 days, recording the
      skipped days, or a negative count for an earlier date) or restarts it
      at 1 with no grace used. */
  lemma ExtendOrRestart(s: StreakState, date: int, graceAllowed: int)
    requires Consistent(s) && graceAllowed >= 0
    requires s.lastActive.Some? && s.lastActive.value != date
    ensures var r := NextStreak(s, date, graceAllowed);
      var gap := date - s.lastActive.value;
      (r.current == s.current + 1 <==> gap <= graceAllowed + 1)
      && (r.current == 1 <==> gap > graceAllowed + 1)
      && (r.graceUsed == if gap <= graceAllowed + 1 then gap - 1 else 0)
  {}

  /** Recording the same activity twice is the same as recording it once. */
  lemma NextStreakIdempotent(s: StreakState, date: int, graceAllowed: int)
    ensures NextStreak(NextStreak(s, date, graceAllowed), date, graceAllowed)
         == NextStreak(s, date, graceAllowed)
  {}

  /** Grace days used are within the allowance when time moves forward. */
  lemma GraceUsedWithinAllowance(s: StreakState, date: int, graceAllowed: int)
    requires s.lastActive.Some? && s.lastActive.value < date && graceAllowed >= 0
    ensures 0 <= NextStreak(s, date, graceAllowed).graceUsed <= graceAllowed
  {}

  /** A later `date` but with a gap above the allowance always restarts at
      1, without touching the best streak. */
  lemma BrokenStreakRestarts(s: StreakState, date: int, graceAllowed: int)
    requires s.lastActive.Some? && date - s.lastActive.value > graceAllowed + 1
    requires Consistent(s) && graceAllowed >= 0
    ensures NextStreak(s, date, graceAllowed) == StreakState(1, s.best, Some(date), 0)
  {}

  // ---- the in-place row ----

  /** A streak row being updated by `update_streak`. */
  class StreakRow {
    var current: int
    var best: int
    var lastActive: Option<int>
    var graceUsed: int

    function State(): StreakState
      reads this
    {
      StreakState(current, best, lastActive, graceUsed)
    }

    /** `get_or_create_streak` for a user without a row. */
    constructor ()
      ensures State() == NewStreak
    {
      current, best, lastActive, graceUsed := 0, 0, None, 0;
    }

    /** `update_streak`: the fields are rewritten one by one. */
    method Update(date: int, graceAllowed: int)
      modifies this
      ensures State() == NextStreak(old(State()), date, graceAllowed)
    {
      match lastActive {
        case None =>
          current := 1;
          best := 1;
          lastActive := Some(date);
          graceUsed := 0;
        case Some(last) =>
          if date == last {
            return;
          }
          var daysSinceLast := date - last;
          if daysSinceLast == 1 {
            current := current + 1;
            graceUsed := 0;
          } else if daysSinceLast <= graceAllowed + 1 {
            var used := daysSinceLast - 1;
            current := current + 1;
            graceUsed := used;
          } else {
            current := 1;
            graceUsed := 0;
          }
          lastActive := Some(date);
          if current > best {
            best := current;
          }
      }
    }

    /** `record_training_activity` on the training row, with back-filled
        dates ignored (see `BackfillBreaksStreak`): a workout dated before
        the last active date leaves the row alone, any other date is an
        ordinary update. */
    method RecordTraining(date: int, graceAllowed: int)
      modifies this
      ensures State() == NextStreakIgnoringPast(old(State()), date, graceAllowed)
    {
      if lastActive.Some? && date < lastActive.value {
        return;
      }
      Update(date, graceAllowed);
    }

    /** `claim_login_bonus` on the login row: a claim already made today
        gives nothing and changes nothing; otherwise the streak moves to
        today and the bonus follows the new streak. */
    method ClaimLoginBonus(alreadyClaimed: bool, today: int, graceAllowed: int) returns (exp: int)
      modifies this
      ensures alreadyClaimed ==> exp == 0 && State() == old(State())
      ensures !alreadyClaimed ==> State() == NextStreak(old(State()), today, graceAllowed)
      ensures !alreadyClaimed ==> exp == LoginBonus(current)
    {
      if alreadyClaimed {
        return 0;
      }
      Update(today, graceAllowed);
      exp := LoginBonus(current);
    }

    /** `recalculate_training_streak` writes the recount's streak and last
        date and leaves best and grace-used as they were. */
    method ApplyRecount(dates: seq<int>, today: int, graceDays: int)
      modifies this
      ensures State() == old(State()).(current := Recount(dates, today, graceDays).streak,
                                       lastActive := Recount(dates, today, graceDays).last)
    {
      var streak, last := RecountTraining(dates, today, graceDays);
      current := streak;
      lastActive := last;
    }
  }

  // ---- recount over stored dates ----

  /** Result of recounting: the streak and the most recent date. */
  datatype RecountResult = RecountResult(streak: int, last: Option<int>)

  /** Length of the run that starts at the head of a newest-first date
      list, where each step back is at most `graceDays + 1` days. */
  function RunLength(dates: seq<int>, graceDays: int): (n: nat)
    ensures |dates| > 0 ==> 1 <= n <= |dates|
    ensures |dates| == 0 ==> n == 0
  {
    if |dates| <= 1 then |dates|
    else if dates[0] - dates[1] <= graceDays + 1 then 1 + RunLength(dates[1..], graceDays)
    else 1
  }

  /** The recount over dates newest first: nothing stored gives (0, None);
      a newest date too far before today gives a zero streak; otherwise the
      run from the newest date. */
  function Recount(dates: seq<int>, today: int, graceDays: int): (r: RecountResult)
    ensures |dates| == 0 <==> r.last.None?
    ensures |dates| > 0 ==> r.last == Some(dates[0])
    ensures 0 <= r.streak <= |dates|
    ensures r.streak == 0 <==> |dates| == 0 || today - dates[0] > graceDays + 1
  {
    if |dates| == 0 then RecountResult(0, None)
    else if today - dates[0] > graceDays + 1 then RecountResult(0, Some(dates[0]))
    else RecountResult(RunLength(dates, graceDays), Some(dates[0]))
  }

  /** The counting loop of `recalculate_training_streak`. */
  method RecountTraining(dates: seq<int>, today: int, graceDays: int)
    returns (streak: int, last: Option<int>)
    ensures RecountResult(streak, last) == Recount(dates, today, graceDays)
  {
    if |dates| == 0 {
      return 0, None;
    }
    var mostRecent := dates[0];
    if today - mostRecent > graceDays + 1 {
      return 0, Some(mostRecent);
    }
    streak := 1;
    var prevDate := mostRecent;
    var i := 1;
    while i < |dates|
      invariant 1 <= i <= |dates|
      invariant prevDate == dates[i - 1]
      invariant RunLength(dates, graceDays) == streak - 1 + RunLength(dates[i - 1..], graceDays)
      decreases |dates| - i
    {
      var currDate := dates[i];
      var gap := prevDate - currDate;
      assert dates[i - 1..][1..] == dates[i..];
      if gap <= graceDays + 1 {
        streak := streak + 1;
        prevDate := currDate;
      } else {
        break;
      }
      i := i + 1;
    }
    last := Some(mostRecent);
  }

  // ---- replaying activities agrees with the recount ----

  predicate StrictlyAscending(ds: seq<int>) {
    forall i, j :: 0 <= i < j < |ds| ==> ds[i] < ds[j]
  }

  /** The row after recording each date of `ds` in order. */
  function Replay(s: StreakState, ds: seq<int>, graceAllowed: int): StreakState
  {
    if ds == [] then s else NextStreak(Replay(s, ds[..|ds| - 1], graceAllowed), ds[|ds| - 1], graceAllowed)
  }

  function Reverse(ds: seq<int>): (r: seq<int>)
    ensures |r| == |ds|
  {
    if ds == [] then [] else [ds[|ds| - 1]] + Reverse(ds[..|ds| - 1])
  }

  lemma {:induction false} ReplayRun(ds: seq<int>, graceDays: int)
    requires |ds| > 0 && StrictlyAscending(ds) && graceDays >= 0
    ensures Replay(NewStreak, ds, graceDays).current == RunLength(Reverse(ds), graceDays)
    ensures Replay(NewStreak, ds, graceDays).lastActive == Some(ds[|ds| - 1])
  {
    var n := |ds|;
    if n == 1 {
      assert ds[..0] == [];
    } else {
      var init := ds[..n - 1];
      assert StrictlyAscending(init);
      ReplayRun(init, graceDays);
      var r := Reverse(ds);
      assert r[1..] == Reverse(init);
      assert r[0] == ds[n - 1];
      assert r[1] == init[n - 2];
    }
  }

  /** Recording training days one at a time from a fresh row ends with the
      same current streak the recount computes from the stored dates
      (newest first), as long as the newest date is recent enough. */
  lemma ReplayAgreesWithRecount(ds: seq<int>, today: int, graceDays: int)
    requires |ds| > 0 && StrictlyAscending(ds) && graceDays >= 0
    requires today - ds[|ds| - 1] <= graceDays + 1
    ensures Recount(Reverse(ds), today, graceDays)
         == RecountResult(Replay(NewStreak, ds, graceDays).current, Replay(NewStreak, ds, graceDays).lastActive)
  {
    ReplayRun(ds, graceDays);
    assert Reverse(ds)[0] == ds[|ds| - 1];
  }

  // ---- back-filled activity ----

  /** As written, an activity dated before the last active date takes the
      grace branch: the streak grows, grace-used goes negative and the last
      date moves back, so the next day's activity can break the streak. */
  lemma BackfillBreaksStreak()
    ensures NextStreak(StreakState(5, 5, Some(10), 0), 5, 1) == StreakState(6, 6, Some(5), -6)
    ensures NextStreak(NextStreak(StreakState(5, 5, Some(10), 0), 5, 1), 11, 1).current == 1
    ensures NextStreak(StreakState(5, 5, Some(10), 0), 11, 1).current == 6
  {}

  /** The transition with back-filled dates ignored: an activity dated
      before the last active date leaves the row as it is. */
  function NextStreakIgnoringPast(s: StreakState, date: int, graceAllowed: int): (r: StreakState)
    ensures s.lastActive.Some? && date < s.lastActive.value ==> r == s
    ensures s.lastActive.None? || date >= s.lastActive.value ==> r == NextStreak(s, date, graceAllowed)
  {
    if s.lastActive.Some? && date < s.lastActive.value then s else NextStreak(s, date, graceAllowed)
  }

  /** With back-filling ignored the last date never moves back, grace-used
      stays non-negative, and a back-filled day has no effect on what the
      next real day does. */
  lemma IgnoringPastIsMonotone(s: StreakState, past: int, date: int, graceAllowed: int)
    requires s.lastActive.Some? && past < s.lastActive.value
    requires s.graceUsed >= 0 && graceAllowed >= 0
    ensures NextStreakIgnoringPast(NextStreakIgnoringPast(s, past, graceAllowed), date, graceAllowed)
         == NextStreakIgnoringPast(s, date, graceAllowed)
    ensures NextStreakIgnoringPast(s, date, graceAllowed).lastActive.value >= s.lastActive.value
    ensures NextStreakIgnoringPast(s, date, graceAllowed).graceUsed >= 0
  {}
}

/** The rules inside the user profile and statistics handlers: level info,
    week windows, the current-streak counter, muscle condition, the 7-day
    volume history, and the display-name and password checks. */
module UserApi {
  import opened Common
  import Text
  import Models
  import Streak
  import AppErrors

  // ---- level info ----

  datatype LevelInfo = LevelInfo(level: int, currentExp: int, expToNext: int)

  /** `get_user_info`: level, EXP inside the level and EXP to the next
      level from a stats row `(total_exp, level)`; (1, 0, 1000) without one. */
  function UserLevelInfo(stats: Option<(int, int)>): (info: LevelInfo)
    ensures stats.None? ==> info == LevelInfo(1, 0, 1000)
    ensures stats.Some? ==>
      info.level == stats.value.1 && info.currentExp + Models.RequiredExp(stats.value.1) == stats.value.0
      && info.expToNext == Models.ExpToNext(stats.value.1)
  {
    match stats
    case None => LevelInfo(1, 0, 1000)
    case Some((totalExp, level)) =>
      LevelInfo(level, totalExp - Models.RequiredExp(level), Models.ExpToNext(level))
  }

  /** For a row whose level was computed from its EXP, the EXP inside the
      level lies in [0, expToNext) below the top level. */
  lemma LevelInfoInRange(totalExp: int)
    requires totalExp >= 0
    ensures var info := UserLevelInfo(Some((totalExp, Models.LevelOf(totalExp))));
      0 <= info.currentExp
      && (info.level < Models.MaxLevel ==> info.currentExp < info.expToNext)
  {
    var l := Models.LevelOf(totalExp);
    Models.LevelOfSpec(totalExp);
    Models.ExpToNextFormula(l);
  }

  // ---- week windows ----

  /** Days since Monday for a day number (day 0, 1970-01-01, is a Thursday). */
  function DaysFromMonday(day: int): (n: int)
    ensures 0 <= n < 7
  {
    (day + 3) % 7
  }

  datatype WeekWindow = WeekWindow(start: int, end: int, prevStart: int, prevEnd: int)

  /** The current week (Monday..Sunday around today) and the week before it. */
  function Weeks(today: int): (w: WeekWindow)
    ensures DaysFromMonday(w.start) == 0
    ensures w.start <= today <= w.end && w.end == w.start + 6
    ensures w.prevEnd == w.start - 1 && w.prevStart == w.start - 7
  {
    var start := today - DaysFromMonday(today);
    WeekWindow(start, start + 6, start - 7, start - 1)
  }

  /** Every day of a week window gets that same window; the previous week
      is the window of any of its own days. */
  lemma WeeksPartition(today: int, d: int)
    requires Weeks(today).start <= d <= Weeks(today).end
    ensures Weeks(d) == Weeks(today)
    ensures Weeks(d - 7).start == Weeks(today).prevStart
  {
    var s := Weeks(today).start;
    assert (s + 3) % 7 == 0;
    assert DaysFromMonday(d) == d - s;
    assert DaysFromMonday(d - 7) == d - s;
  }

  /** `weekly_workouts_change`. */
  function WeeklyWorkoutsChange(current: int, previous: int): (change: int)
    ensures previous + change == current
    ensures change > 0 <==> current > previous
  {
    current - previous
  }

  // ---- current streak ----

  /** Grace days for the statistics: the stored value, with 2 where there
      is no row or the column is NULL. */
  function StatsGraceDays(row: Option<Option<int>>): (g: int)
    ensures row.None? || row.value.None? ==> g == 2
    ensures row.Some? && row.value.Some? ==> g == row.value.value
  {
    match row
    case None => 2
    case Some(column) => GetOr(column, 2)
  }

  /** At most this many newest training dates are fetched. */
  const StreakDateLimit: nat := 30

  /** The streak counter of `get_user_stats` over the distinct training
      dates newest first; the query keeps only the newest 30. It compares
      each date with the one before it in the list. */
  method CurrentStreak(allDates: seq<int>, today: int, graceDays: int) returns (streak: int)
    ensures streak == Streak.Recount(allDates[..Min(|allDates|, StreakDateLimit)], today, graceDays).streak
    ensures 0 <= streak <= StreakDateLimit
  {
    var dates := allDates[..Min(|allDates|, StreakDateLimit)];
    if |dates| == 0 {
      return 0;
    }
    var mostRecent := dates[0];
    var daysSinceLast := today - mostRecent;
    if daysSinceLast > graceDays + 1 {
      return 0;
    }
    streak := 1;
    var i := 1;
    while i < |dates|
      invariant 1 <= i <= |dates|
      invariant Streak.RunLength(dates, graceDays) == streak - 1 + Streak.RunLength(dates[i - 1..], graceDays)
      decreases |dates| - i
    {
      var prevDate := dates[i - 1];
      var currDate := dates[i];
      var gap := prevDate - currDate;
      assert dates[i - 1..][1..] == dates[i..];
      if gap <= graceDays + 1 {
        streak := streak + 1;
      } else {
        break;
      }
      i := i + 1;
    }
  }

  // ---- muscle condition ----

  /** Muscles listed in the condition panel, in order. */
  const ConditionMuscles: seq<string> := ["胸", "背中", "脚", "肩", "腕"]

  /** Days since a muscle was trained; 999 when it never was. */
  function DaysSinceTrained(today: int, lastTrained: Option<int>): (days: int)
    ensures lastTrained.None? ==> days == 999
    ensures lastTrained.Some? ==> days == today - lastTrained.value
  {
    match lastTrained
    case None => 999
    case Some(d) => today - d
  }

  /** Condition by days since training: "recovering" up to 2 days, "ready"
      up to 6, "stale" after. */
  function MuscleCondition(daysSince: int): (status: string)
    ensures status == "recovering" <==> daysSince <= 2
    ensures status == "ready" <==> 2 < daysSince <= 6
    ensures status == "stale" <==> daysSince > 6
  {
    if daysSince <= 2 then "recovering" else if daysSince <= 6 then "ready" else "stale"
  }

  /** A muscle never trained is always stale. */
  lemma NeverTrainedIsStale(today: int)
    ensures MuscleCondition(DaysSinceTrained(today, None)) == "stale"
  {}

  datatype MuscleStatus = MuscleStatus(muscle: string, lastTrained: Option<int>, daysSince: int, status: string)

  /** The loop building `muscle_statuses`; `lastTrained` holds the query
      result for each muscle that has one. */
  method MuscleStatuses(today: int, lastTrained: map<string, int>) returns (rows: seq<MuscleStatus>)
    ensures |rows| == |ConditionMuscles|
    ensures forall k :: 0 <= k < |rows| ==>
      var m := ConditionMuscles[k];
      var last := if m in lastTrained then Some(lastTrained[m]) else None;
      rows[k] == MuscleStatus(m, last, DaysSinceTrained(today, last),
                              MuscleCondition(DaysSinceTrained(today, last)))
  {
    rows := [];
    var k := 0;
    while k < |ConditionMuscles|
      invariant 0 <= k <= |ConditionMuscles| && |rows| == k
      invariant forall j :: 0 <= j < k ==>
        var m := ConditionMuscles[j];
        var last := if m in lastTrained then Some(lastTrained[m]) else None;
        rows[j] == MuscleStatus(m, last, DaysSinceTrained(today, last),
                                MuscleCondition(DaysSinceTrained(today, last)))
    {
      var muscle := ConditionMuscles[k];
      var last: Option<int> := None;
      var daysSince := 999;
      if muscle in lastTrained {
        last := Some(lastTrained[muscle]);
        daysSince := today - lastTrained[muscle];
      }
      var status := if daysSince <= 2 then "recovering" else if daysSince <= 6 then "ready" else "stale";
      rows := rows + [MuscleStatus(muscle, last, daysSince, status)];
      k := k + 1;
    }
  }

  // ---- weekly volume history ----

  /** The loop building `weekly_volume_history`: the seven days ending
      today, oldest first, with 0 where a day has no volume. */
  method WeeklyVolumeHistory(today: int, volume: map<int, real>) returns (history: seq<(int, real)>)
    ensures |history| == 7
    ensures history[6].0 == today
    ensures forall k :: 0 <= k < 7 ==> history[k].0 == today - 6 + k
    ensures forall k :: 0 <= k < 7 ==>
      history[k].1 == if history[k].0 in volume then volume[history[k].0] else 0.0
  {
    var weekStart := today - 6;
    history := [];
    var i := 0;
    while i < 7
      invariant 0 <= i <= 7 && |history| == i
      invariant forall k :: 0 <= k < i ==> history[k].0 == weekStart + k
      invariant forall k :: 0 <= k < i ==>
        history[k].1 == if history[k].0 in volume then volume[history[k].0] else 0.0
    {
      var checkDate := weekStart + i;
      var vol := if checkDate in volume then volume[checkDate] else 0.0;
      history := history + [(checkDate, vol)];
      i := i + 1;
    }
  }

  // ---- profile updates ----

  /** `update_display_name`: accepted iff non-empty and at most 20 bytes,
      so at most 20 characters and fewer when they are not ASCII. */
  function DisplayNameAccepted(name: string): (ok: bool)
    ensures ok ==> 1 <= |name| <= 20
  {
    name != [] && Text.Utf8Len(name) <= 20
  }

  /** For ASCII names the limit is 1..20 characters. */
  lemma DisplayNameAsciiLimit(name: string)
    requires Text.IsAscii(name)
    ensures DisplayNameAccepted(name) <==> 1 <= |name| <= 20
  {
    Text.AsciiUtf8Len(name);
  }

  /** Names made of three-byte characters (kana, most kanji) take three
      bytes per character. */
  lemma {:induction false} ThreeByteUtf8Len(name: string)
    requires forall i :: 0 <= i < |name| ==> 0x800 <= name[i] as int < 0x10000
    ensures Text.Utf8Len(name) == 3 * |name|
  {
    if name != [] {
      ThreeByteUtf8Len(name[1..]);
    }
  }

  /** As written, the byte limit refuses names of 7 to 20 three-byte
      characters although the message promises 1-20 characters, for
      instance the seven-kanji name "山田太郎左衛門" (21 bytes). */
  lemma KanjiNamesRefused(name: string)
    requires 7 <= |name| <= 20
    requires forall i :: 0 <= i < |name| ==> 0x800 <= name[i] as int < 0x10000
    ensures !DisplayNameAccepted(name)
    ensures |"山田太郎左衛門"| == 7 && !DisplayNameAccepted("山田太郎左衛門")
  {
    ThreeByteUtf8Len(name);
    ThreeByteUtf8Len("山田太郎左衛門");
  }

  /** The check the refusal message describes: 1 to 20 characters. */
  function DisplayNameFits(name: string): (ok: bool) {
    1 <= |name| <= 20
  }

  /** The character limit accepts everything the byte limit accepts, agrees
      with it on ASCII names and accepts the seven-kanji name the byte
      limit refuses. */
  lemma CharacterLimitExtendsByteLimit(name: string)
    ensures DisplayNameAccepted(name) ==> DisplayNameFits(name)
    ensures Text.IsAscii(name) ==> (DisplayNameAccepted(name) <==> DisplayNameFits(name))
    ensures DisplayNameFits("山田太郎左衛門") && !DisplayNameAccepted("山田太郎左衛門")
  {
    if Text.IsAscii(name) {
      DisplayNameAsciiLimit(name);
    }
    KanjiNamesRefused("山田太郎左衛門");
  }

  /** How `update_password` ends: success, a 400 with an `error` text, or
      an application error. */
  datatype PasswordOutcome =
    | PasswordChanged
    | PasswordRejected(reason: string)
    | PasswordFailed(err: AppErrors.AppError)

  /** `update_password`. `storedPassword` is the user row's password column
      (None when the row is missing, Some(None) when the column is NULL);
      `hashParses` and `verifies` stand for the Argon2 library calls. */
  function UpdatePassword(provider: string, storedPassword: Option<Option<string>>,
                          hashParses: string -> bool, verifies: (string, string) -> bool,
                          currentPassword: string, newPassword: string): (r: PasswordOutcome)
    ensures provider != "LOCAL" ==> r == PasswordRejected("Social login accounts cannot change password")
    ensures r == PasswordChanged <==>
      provider == "LOCAL" && storedPassword.Some? && storedPassword.value.Some?
      && hashParses(storedPassword.value.value)
      && verifies(currentPassword, storedPassword.value.value)
      && Text.Utf8Len(newPassword) >= 6
    ensures r == PasswordRejected("New password must be at least 6 characters") ==>
      storedPassword.Some? && storedPassword.value.Some?
      && verifies(currentPassword, storedPassword.value.value)
  {
    if provider != "LOCAL" then PasswordRejected("Social login accounts cannot change password")
    else match storedPassword
      case None => PasswordFailed(AppErrors.NotFound("User not found"))
      case Some(None) => PasswordFailed(AppErrors.BadRequest("No password set"))
      case Some(Some(hash)) =>
        if !hashParses(hash) then PasswordFailed(AppErrors.InternalError("Invalid password hash"))
        else if !verifies(currentPassword, hash) then PasswordRejected("Current password is incorrect")
        else if Text.Utf8Len(newPassword) < 6 then PasswordRejected("New password must be at least 6 characters")
        else PasswordChanged
  }
}

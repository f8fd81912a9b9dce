/** The special-administrator API: the user list and setting a user's
    level. */
module Admin {
  import opened Common
  import opened Text
  import opened AppErrors
  import opened Models

  /** `SPECIAL_ADMIN_LOGIN_ID`. */
  const SpecialAdminIds: seq<string> := ["220618"]

  function IsSpecialAdmin(loginId: string): (ok: bool)
    ensures ok <==> loginId == "220618"
  {
    loginId in SpecialAdminIds
  }

  const NoAccess: string := "アクセス権限がありません"
  const LevelRangeMessage: string := "レベルは1〜1000の範囲で指定してください"
  const UserMissing: string := "ユーザーが見つかりません"

  /** A row of `users` joined with its optional `user_stats` row. */
  datatype UserRow = UserRow(id: int, loginId: string, displayName: Option<string>, stats: Option<(int, int)>)

  datatype AdminUser = AdminUser(id: int, loginId: string, displayName: Option<string>, level: int, totalExp: int)

  /** `get_users`: level and EXP default to 1 and 0 without a stats row. */
  function ListUsers(currentLoginId: string, rows: seq<UserRow>): (r: Outcome<seq<AdminUser>>)
    ensures r.Err? <==> !IsSpecialAdmin(currentLoginId)
    ensures r.Err? ==> r.error == Forbidden(NoAccess)
    ensures r.Ok? ==> |r.value| == |rows| && forall k :: 0 <= k < |rows| ==>
      r.value[k].id == rows[k].id && r.value[k].loginId == rows[k].loginId
      && r.value[k].level == (if rows[k].stats.Some? then rows[k].stats.value.0 else 1)
      && r.value[k].totalExp == (if rows[k].stats.Some? then rows[k].stats.value.1 else 0)
  {
    if !IsSpecialAdmin(currentLoginId) then Err(Forbidden(NoAccess))
    else Ok(seq(|rows|, k requires 0 <= k < |rows| =>
      var s := GetOr(rows[k].stats, (1, 0));
      AdminUser(rows[k].id, rows[k].loginId, rows[k].displayName, s.0, s.1)))
  }

  datatype UpdateLevelResponse = UpdateLevelResponse(id: int, level: int, totalExp: int, message: string)

  /** `update_user_level`. `stats` maps user ids to their (level, EXP)
      row; `userExists` is the `users` lookup. The new stats row is
      written whether or not one existed. */
  function UpdateLevel(currentLoginId: string, userId: int, newLevel: int, userExists: bool,
                       stats: map<int, (int, int)>): (r: Outcome<(UpdateLevelResponse, map<int, (int, int)>)>)
    ensures !IsSpecialAdmin(currentLoginId) ==> r == Err(Forbidden(NoAccess))
    ensures IsSpecialAdmin(currentLoginId) && !(1 <= newLevel <= 1000) ==> r == Err(BadRequest(LevelRangeMessage))
    ensures IsSpecialAdmin(currentLoginId) && 1 <= newLevel <= 1000 && !userExists ==> r == Err(NotFound(UserMissing))
    ensures r.Ok? <==> IsSpecialAdmin(currentLoginId) && 1 <= newLevel <= 1000 && userExists
    ensures r.Ok? ==>
      var (resp, after) := r.value;
      resp.id == userId && resp.level == newLevel && resp.totalExp == RequiredExp(newLevel)
      && userId in after && after[userId] == (newLevel, RequiredExp(newLevel))
      && forall u :: u != userId ==> (u in after <==> u in stats) && (u in stats ==> after[u] == stats[u])
  {
    if !IsSpecialAdmin(currentLoginId) then Err(Forbidden(NoAccess))
    else if newLevel < 1 || newLevel > 1000 then Err(BadRequest(LevelRangeMessage))
    else
      var exp := RequiredExp(newLevel);
      if !userExists then Err(NotFound(UserMissing))
      else
        var message := "レベルを" + IntToString(newLevel) + "に更新しました（累計EXP: " + IntToString(exp) + "）";
        Ok((UpdateLevelResponse(userId, newLevel, exp, message), stats[userId := (newLevel, exp)]))
  }

  /** The stored EXP is exactly what the new level requires: the level
      computed back from it is the requested level. */
  lemma StoredExpGivesLevel(currentLoginId: string, userId: int, newLevel: int,
                            stats: map<int, (int, int)>)
    requires IsSpecialAdmin(currentLoginId) && 1 <= newLevel <= 1000
    ensures var r := UpdateLevel(currentLoginId, userId, newLevel, true, stats);
      r.Ok? && LevelOf(r.value.1[userId].1) == newLevel
  {
    var r := UpdateLevel(currentLoginId, userId, newLevel, true, stats);
    assert r.value.1[userId].1 == RequiredExp(newLevel);
    LevelOfRequiredExp(newLevel);
  }

  /** The assigned EXP is the least that reaches the level: one point
      less gives the level below. */
  lemma AssignedExpIsLeast(level: int)
    requires 2 <= level <= 1000
    ensures LevelOf(RequiredExp(level) - 1) == level - 1
  {
    if level > 2 { RequiredExpStrictlyIncreasing(level - 1, level); }
    LevelOfUnique(RequiredExp(level) - 1, level - 1);
  }
}

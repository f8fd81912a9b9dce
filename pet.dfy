/** The pet rules: images per stage, unlock conditions and their progress
    text, the barn's classification of pet types, the unlock check, name
    validation, EXP gain, and the per-user store of pets whose handlers
    keep at most one pet active. */
module Pets {
  import opened Common
  import opened AppErrors
  import Text
  import Models

  datatype PetType = PetType(
    id: int,
    name: string,
    code: string,
    imageEgg: Option<string>,
    imageChild: Option<string>,
    imageAdult: Option<string>,
    unlockType: Option<string>,
    unlockLevel: Option<int>,
    unlockPetCode: Option<string>,
    isStarter: Option<bool>)

  /** A row of `pets` for one user. */
  datatype PetRow = PetRow(id: int, typeId: int, name: string, stage: int, mood: int,
                           totalExp: int, level: int, active: bool)

  // ---- images ----

  /** `get_image_for_stage`. */
  function ImageForStage(pt: PetType, stage: int): (img: Option<string>)
    ensures !(1 <= stage <= 3) ==> img.None?
  {
    match stage
    case 1 => pt.imageEgg
    case 2 => pt.imageChild
    case 3 => pt.imageAdult
    case _ => None
  }

  /** A pet's stage, computed from any EXP, always selects one of the
      type's three images: egg up to level 10, child up to 30, adult after. */
  lemma ImageOfComputedStage(pt: PetType, totalExp: int)
    ensures var level := Models.LevelOf(totalExp);
      ImageForStage(pt, Models.PetStage(level))
        == if level <= 10 then pt.imageEgg else if level <= 30 then pt.imageChild else pt.imageAdult
  {}

  // ---- unlock conditions ----

  const Unlockable: string := "解放可能"

  /** The unlock type, "default" when missing. */
  function UnlockKind(pt: PetType): string {
    GetOr(pt.unlockType, "default")
  }

  predicate KnownKind(pt: PetType) {
    UnlockKind(pt) == "user_level" || UnlockKind(pt) == "pet_growth" || UnlockKind(pt) == "default"
  }

  /** The decision of `check_and_unlock_pet_types` for one type. */
  function ShouldUnlock(pt: PetType, userLevel: int, adultCodes: seq<string>): (ok: bool)
    ensures UnlockKind(pt) == "user_level" ==> (ok <==> userLevel >= GetOr(pt.unlockLevel, 1))
    ensures UnlockKind(pt) == "pet_growth" ==> (ok <==> GetOr(pt.unlockPetCode, "") in adultCodes)
    ensures UnlockKind(pt) == "default" ==> ok
    ensures !KnownKind(pt) ==> !ok
  {
    match UnlockKind(pt)
    case "user_level" => userLevel >= GetOr(pt.unlockLevel, 1)
    case "pet_growth" => GetOr(pt.unlockPetCode, "") in adultCodes
    case "default" => true
    case _ => false
  }

  /** `get_unlock_progress`: "解放可能" or a message naming what is missing. */
  function UnlockProgress(pt: PetType, userLevel: int, adultCodes: seq<string>): (text: string)
    ensures text == Unlockable <==> ShouldUnlock(pt, userLevel, adultCodes) || !KnownKind(pt)
  {
    match UnlockKind(pt)
    case "user_level" =>
      var required := GetOr(pt.unlockLevel, 1);
      if userLevel >= required then Unlockable
      else "ユーザーLv." + Text.IntToString(required) + "で解放 (現在Lv." + Text.IntToString(userLevel) + ")"
    case "pet_growth" =>
      var requiredCode := GetOr(pt.unlockPetCode, "");
      if requiredCode in adultCodes then Unlockable
      else requiredCode + "を成熟期(Lv.31+)まで育てると解放"
    case _ => Unlockable
  }

  // ---- adult codes ----

  /** Codes of the types of the user's adult pets (level 31 and above),
      for pets whose type is still active (`typeCode` holds those). */
  function AdultCodesOf(pets: seq<PetRow>, typeCode: map<int, string>): seq<string> {
    if pets == [] then []
    else
      var p := pets[|pets| - 1];
      AdultCodesOf(pets[..|pets| - 1], typeCode)
        + if Models.PetStage(Models.LevelOf(p.totalExp)) >= 3 && p.typeId in typeCode then [typeCode[p.typeId]] else []
  }

  /** A code is an adult code iff some pet of that type has reached level 31. */
  lemma {:induction false} AdultCodesMembership(pets: seq<PetRow>, typeCode: map<int, string>, code: string)
    ensures code in AdultCodesOf(pets, typeCode) <==>
      exists k :: 0 <= k < |pets| && Models.LevelOf(pets[k].totalExp) >= 31
        && pets[k].typeId in typeCode && typeCode[pets[k].typeId] == code
  {
    if pets != [] {
      var init := pets[..|pets| - 1];
      AdultCodesMembership(init, typeCode, code);
      Models.LevelOfSpec(pets[|pets| - 1].totalExp);
      assert forall k :: 0 <= k < |init| ==> init[k] == pets[k];
      if code in AdultCodesOf(init, typeCode) {
        var k :| 0 <= k < |init| && Models.LevelOf(init[k].totalExp) >= 31
          && init[k].typeId in typeCode && typeCode[init[k].typeId] == code;
        assert pets[k] == init[k];
      }
      forall k | 0 <= k < |pets| - 1 ensures Models.LevelOf(pets[k].totalExp) >= 1 {
        Models.LevelOfSpec(pets[k].totalExp);
      }
    }
  }

  /** The loop collecting `adult_codes`. */
  method AdultCodes(pets: seq<PetRow>, typeCode: map<int, string>) returns (codes: seq<string>)
    ensures codes == AdultCodesOf(pets, typeCode)
  {
    codes := [];
    var i := 0;
    while i < |pets|
      invariant 0 <= i <= |pets|
      invariant codes == AdultCodesOf(pets[..i], typeCode)
    {
      var p := pets[i];
      assert pets[..i + 1][..i] == pets[..i];
      var level := Models.CalculateLevel(p.totalExp);
      if Models.PetStage(level) >= 3 {
        if p.typeId in typeCode {
          codes := codes + [typeCode[p.typeId]];
        }
      }
      i := i + 1;
    }
    assert pets[..i] == pets;
  }

  // ---- the barn ----

  /** A type counts as unlocked in the barn and at creation: unlocked by
      the user, a starter, or of unlock type literally "default". */
  predicate IsUnlocked(pt: PetType, unlockedIds: seq<int>) {
    pt.id in unlockedIds || GetOr(pt.isStarter, false) || pt.unlockType == Some("default")
  }

  datatype LockedEntry = LockedEntry(petType: PetType, progress: string)

  /** Unlocked types the user does not own yet, in catalogue order. */
  function UnlockedShown(types: seq<PetType>, unlockedIds: seq<int>, ownedIds: seq<int>): seq<PetType> {
    if types == [] then []
    else
      var pt := types[|types| - 1];
      UnlockedShown(types[..|types| - 1], unlockedIds, ownedIds)
        + if IsUnlocked(pt, unlockedIds) && pt.id !in ownedIds then [pt] else []
  }

  /** Locked types with their progress text, in catalogue order. */
  function LockedShown(types: seq<PetType>, unlockedIds: seq<int>, userLevel: int, adultCodes: seq<string>)
    : seq<LockedEntry>
  {
    if types == [] then []
    else
      var pt := types[|types| - 1];
      LockedShown(types[..|types| - 1], unlockedIds, userLevel, adultCodes)
        + if !IsUnlocked(pt, unlockedIds) then [LockedEntry(pt, UnlockProgress(pt, userLevel, adultCodes))] else []
  }

  /** The classification loop of `get_barn`. */
  method ClassifyBarn(types: seq<PetType>, unlockedIds: seq<int>, ownedIds: seq<int>,
                      userLevel: int, adultCodes: seq<string>)
    returns (unlocked: seq<PetType>, locked: seq<LockedEntry>)
    ensures unlocked == UnlockedShown(types, unlockedIds, ownedIds)
    ensures locked == LockedShown(types, unlockedIds, userLevel, adultCodes)
  {
    unlocked, locked := [], [];
    var i := 0;
    while i < |types|
      invariant 0 <= i <= |types|
      invariant unlocked == UnlockedShown(types[..i], unlockedIds, ownedIds)
      invariant locked == LockedShown(types[..i], unlockedIds, userLevel, adultCodes)
    {
      var pt := types[i];
      assert types[..i + 1][..i] == types[..i];
      var isUnlocked := pt.id in unlockedIds || GetOr(pt.isStarter, false) || pt.unlockType == Some("default");
      if isUnlocked {
        if pt.id !in ownedIds {
          unlocked := unlocked + [pt];
        }
      } else {
        var progress := UnlockProgress(pt, userLevel, adultCodes);
        locked := locked + [LockedEntry(pt, progress)];
      }
      i := i + 1;
    }
    assert types[..i] == types;
  }

  /** Every type is shown at most once: unlocked and not owned in the
      first list, locked in the second with its progress, and unlocked
      owned types in neither. */
  lemma {:induction false} BarnPartition(types: seq<PetType>, unlockedIds: seq<int>, ownedIds: seq<int>,
                                         userLevel: int, adultCodes: seq<string>, pt: PetType)
    ensures pt in UnlockedShown(types, unlockedIds, ownedIds) <==>
      pt in types && IsUnlocked(pt, unlockedIds) && pt.id !in ownedIds
    ensures (exists e :: e in LockedShown(types, unlockedIds, userLevel, adultCodes) && e.petType == pt) <==>
      pt in types && !IsUnlocked(pt, unlockedIds)
    ensures forall e :: e in LockedShown(types, unlockedIds, userLevel, adultCodes) ==>
      e.progress == UnlockProgress(e.petType, userLevel, adultCodes)
  {
    if types != [] {
      var init := types[..|types| - 1];
      BarnPartition(init, unlockedIds, ownedIds, userLevel, adultCodes, pt);
      assert types == init + [types[|types| - 1]];
      var last := types[|types| - 1];
      if !IsUnlocked(last, unlockedIds) {
        var e := LockedEntry(last, UnlockProgress(last, userLevel, adultCodes));
        assert e in LockedShown(types, unlockedIds, userLevel, adultCodes);
      }
    }
  }

  // ---- the unlock check ----

  /** Types the check unlocks: not unlocked yet, not starters, and meeting
      their condition, in catalogue order. */
  function NewUnlocks(types: seq<PetType>, unlockedIds: seq<int>, userLevel: int, adultCodes: seq<string>)
    : seq<PetType>
  {
    if types == [] then []
    else
      var pt := types[|types| - 1];
      NewUnlocks(types[..|types| - 1], unlockedIds, userLevel, adultCodes)
        + if pt.id !in unlockedIds && !GetOr(pt.isStarter, false) && ShouldUnlock(pt, userLevel, adultCodes)
          then [pt] else []
  }

  function Ids(types: seq<PetType>): (ids: seq<int>)
    ensures |ids| == |types| && forall k :: 0 <= k < |types| ==> ids[k] == types[k].id
  {
    seq(|types|, k requires 0 <= k < |types| => types[k].id)
  }

  /** The loop of `check_and_unlock_pet_types`: the ids it inserts into
      `user_pet_unlocks` and the names it reports. */
  method CheckAndUnlock(types: seq<PetType>, unlockedIds: seq<int>, userLevel: int, adultCodes: seq<string>)
    returns (names: seq<string>, inserted: seq<int>)
    ensures var news := NewUnlocks(types, unlockedIds, userLevel, adultCodes);
      |names| == |news| && inserted == Ids(news)
      && forall k :: 0 <= k < |news| ==> names[k] == news[k].name
  {
    names, inserted := [], [];
    ghost var news: seq<PetType> := [];
    var i := 0;
    while i < |types|
      invariant 0 <= i <= |types|
      invariant news == NewUnlocks(types[..i], unlockedIds, userLevel, adultCodes)
      invariant |names| == |news| && inserted == Ids(news)
      invariant forall k :: 0 <= k < |news| ==> names[k] == news[k].name
    {
      var pt := types[i];
      assert types[..i + 1][..i] == types[..i];
      if pt.id in unlockedIds || GetOr(pt.isStarter, false) {
        i := i + 1;
        continue;
      }
      var unlockType := UnlockKind(pt);
      var shouldUnlock := match unlockType
        case "user_level" => userLevel >= GetOr(pt.unlockLevel, 1)
        case "pet_growth" => GetOr(pt.unlockPetCode, "") in adultCodes
        case "default" => true
        case _ => false;
      if shouldUnlock {
        inserted := inserted + [pt.id];
        names := names + [pt.name];
        news := news + [pt];
      }
      i := i + 1;
    }
    assert types[..i] == types;
  }

  lemma {:induction false} NewUnlocksMembership(types: seq<PetType>, unlockedIds: seq<int>, userLevel: int,
                                                adultCodes: seq<string>, pt: PetType)
    ensures pt in NewUnlocks(types, unlockedIds, userLevel, adultCodes) <==>
      pt in types && pt.id !in unlockedIds && !GetOr(pt.isStarter, false) && ShouldUnlock(pt, userLevel, adultCodes)
  {
    if types != [] {
      NewUnlocksMembership(types[..|types| - 1], unlockedIds, userLevel, adultCodes, pt);
      assert types == types[..|types| - 1] + [types[|types| - 1]];
    }
  }

  /** After the check has recorded its unlocks, running it again with the
      same level and adult codes unlocks nothing, and every type it
      unlocked now counts as unlocked in the barn. */
  lemma UnlockCheckSettles(types: seq<PetType>, unlockedIds: seq<int>, userLevel: int, adultCodes: seq<string>)
    ensures var after := unlockedIds + Ids(NewUnlocks(types, unlockedIds, userLevel, adultCodes));
      NewUnlocks(types, after, userLevel, adultCodes) == []
      && forall pt :: pt in NewUnlocks(types, unlockedIds, userLevel, adultCodes) ==> IsUnlocked(pt, after)
  {
    var news := NewUnlocks(types, unlockedIds, userLevel, adultCodes);
    var after := unlockedIds + Ids(news);
    forall pt | pt in news ensures pt.id in after {
      var k :| 0 <= k < |news| && news[k] == pt;
      assert Ids(news)[k] == pt.id;
    }
    var again := NewUnlocks(types, after, userLevel, adultCodes);
    if again != [] {
      var pt := again[0];
      NewUnlocksMembership(types, after, userLevel, adultCodes, pt);
      NewUnlocksMembership(types, unlockedIds, userLevel, adultCodes, pt);
      assert false;
    }
  }

  // ---- names and EXP ----

  const NameError: string := "名前は1〜50文字で入力してください"
  const DefaultPetName: string := "パートナー"

  /** A new name is trimmed and must be 1..50 bytes. */
  function ValidatePetName(name: string): (r: Outcome<string>)
    ensures r.Ok? <==> Text.Trim(name) != [] && Text.Utf8Len(Text.Trim(name)) <= 50
    ensures r.Ok? ==> r.value == Text.Trim(name)
    ensures r.Err? ==> r.error == BadRequest(NameError)
  {
    var trimmed := Text.Trim(name);
    if trimmed == [] || Text.Utf8Len(trimmed) > 50 then Err(BadRequest(NameError)) else Ok(trimmed)
  }

  /** The name given at creation: validated when present, "パートナー"
      otherwise. */
  function CreationName(name: Option<string>): (r: Outcome<string>)
    ensures name.None? ==> r == Ok(DefaultPetName)
    ensures name.Some? ==> r == ValidatePetName(name.value)
  {
    match name
    case None => Ok(DefaultPetName)
    case Some(n) => ValidatePetName(n)
  }

  /** An accepted name is accepted unchanged when submitted again. */
  lemma AcceptedNameIsStable(name: string)
    ensures ValidatePetName(name).Ok? ==> ValidatePetName(ValidatePetName(name).value) == ValidatePetName(name)
  {
    Text.TrimIdempotent(name);
  }

  /** The default name is itself a valid name. */
  lemma DefaultNameIsValid()
    ensures ValidatePetName(DefaultPetName) == Ok(DefaultPetName)
  {
    var s := DefaultPetName;
    assert |s| == 5 && !Text.IsWhitespace(s[0]) && !Text.IsWhitespace(s[4]);
    Text.TrimStartOfTrimmed(s);
    Text.TrimEndOfTrimmed(s);
    assert Text.Trim(s) == s;
    assert Text.Utf8Len(s) <= 20;
  }

  datatype ExpGain = ExpGain(newTotal: int, newLevel: int, newStage: int, levelUp: bool, matured: bool)

  /** `add_exp_to_active_pet` for the active pet's total EXP. */
  function GainExp(activeTotal: Option<int>, amount: int): (r: Option<ExpGain>)
    ensures r.None? <==> amount <= 0 || activeTotal.None?
    ensures r.Some? ==>
      r.value.newTotal == activeTotal.value + amount
      && r.value.newLevel == Models.LevelOf(r.value.newTotal)
      && r.value.newStage == Models.PetStage(r.value.newLevel)
  {
    if amount <= 0 then None
    else match activeTotal
      case None => None
      case Some(total) =>
        var newTotal := total + amount;
        var oldLevel := Models.LevelOf(total);
        var newLevel := Models.LevelOf(newTotal);
        var oldStage := Models.PetStage(oldLevel);
        var newStage := Models.PetStage(newLevel);
        Some(ExpGain(newTotal, newLevel, newStage, newLevel > oldLevel, newStage >= 3 && oldStage < 3))
  }

  /** Gaining EXP never lowers the level; a level-up is reported iff the
      level rose, and maturing means crossing from level 30 or below to 31
      or above. */
  lemma GainNeverLowersLevel(total: int, amount: int)
    requires amount > 0
    ensures var g := GainExp(Some(total), amount).value;
      g.newLevel >= Models.LevelOf(total)
      && (g.levelUp <==> g.newLevel > Models.LevelOf(total))
      && (g.matured <==> Models.LevelOf(total) <= 30 && g.newLevel >= 31)
  {
    Models.LevelOfMonotone(total, total + amount);
    Models.LevelOfSpec(total);
    Models.LevelOfSpec(total + amount);
  }

  // ---- the active flag ----

  /** No two pets are active. */
  predicate AtMostOneActive(pets: seq<PetRow>) {
    forall i, j :: 0 <= i < |pets| && 0 <= j < |pets| && pets[i].active && pets[j].active ==> i == j
  }

  predicate IdsDistinct(pets: seq<PetRow>) {
    forall i, j :: 0 <= i < |pets| && 0 <= j < |pets| && pets[i].id == pets[j].id ==> i == j
  }

  predicate HasPet(pets: seq<PetRow>, id: int) {
    exists k :: 0 <= k < |pets| && pets[k].id == id
  }

  /** `UPDATE pets SET is_active = FALSE WHERE user_id = ?`. */
  function DeactivateAll(pets: seq<PetRow>): (r: seq<PetRow>)
    ensures |r| == |pets| && forall k :: 0 <= k < |pets| ==> r[k] == pets[k].(active := false)
  {
    seq(|pets|, k requires 0 <= k < |pets| => pets[k].(active := false))
  }

  /** `UPDATE pets SET is_active = <flag> WHERE id = ?`. */
  function SetActive(pets: seq<PetRow>, id: int, flag: bool): (r: seq<PetRow>)
    ensures |r| == |pets|
    ensures forall k :: 0 <= k < |pets| ==> r[k] == if pets[k].id == id then pets[k].(active := flag) else pets[k]
  {
    seq(|pets|, k requires 0 <= k < |pets| => if pets[k].id == id then pets[k].(active := flag) else pets[k])
  }

  /** The first active pet, as `find_active_pet` returns it. */
  function FindActive(pets: seq<PetRow>): (r: Option<nat>)
    ensures r.None? <==> forall k :: 0 <= k < |pets| ==> !pets[k].active
    ensures r.Some? ==> r.value < |pets| && pets[r.value].active
  {
    if pets == [] then None
    else if pets[0].active then Some(0)
    else match FindActive(pets[1..])
      case None => None
      case Some(k) => Some(k + 1)
  }

  /** The pet with a given id, as `find_pet_by_id` returns it. */
  function FindById(pets: seq<PetRow>, id: int): (r: Option<nat>)
    ensures r.None? <==> !HasPet(pets, id)
    ensures r.Some? ==> r.value < |pets| && pets[r.value].id == id
  {
    if pets == [] then None
    else if pets[0].id == id then Some(0)
    else match FindById(pets[1..], id)
      case None => None
      case Some(k) =>
        assert pets[k + 1] == pets[1..][k];
        Some(k + 1)
  }

  /** Creation makes the new pet the only active one. */
  lemma CreateLeavesOnlyNew(pets: seq<PetRow>, pet: PetRow)
    requires pet.active
    ensures var r := DeactivateAll(pets) + [pet];
      AtMostOneActive(r) && r[|r| - 1].active
      && forall k :: 0 <= k < |pets| ==> !r[k].active
  {}

  /** Activation leaves exactly the target active. */
  lemma ActivateLeavesOnlyTarget(pets: seq<PetRow>, id: int)
    requires IdsDistinct(pets) && HasPet(pets, id)
    ensures var r := SetActive(DeactivateAll(pets), id, true);
      AtMostOneActive(r) && IdsDistinct(r)
      && forall k :: 0 <= k < |r| ==> (r[k].active <==> r[k].id == id)
  {}

  /** With at most one pet active, deactivating the active one leaves none. */
  lemma DeactivateLeavesNone(pets: seq<PetRow>)
    requires AtMostOneActive(pets) && IdsDistinct(pets)
    requires FindActive(pets).Some?
    ensures var r := SetActive(pets, pets[FindActive(pets).value].id, false);
      forall k :: 0 <= k < |r| ==> !r[k].active
  {}

  /** The checks of `create_pet`, in order: the type must exist, be
      unlocked and not owned yet, and the name must pass. */
  function CreateCheck(pets: seq<PetRow>, typeId: int, petType: Option<PetType>, unlockedIds: seq<int>,
                       name: Option<string>): (r: Outcome<string>)
    ensures petType.None? ==> r == Err(BadRequest("無効なペット種類です"))
    ensures r.Ok? <==>
      petType.Some? && IsUnlocked(petType.value, unlockedIds)
      && (forall k :: 0 <= k < |pets| ==> pets[k].typeId != typeId)
      && CreationName(name).Ok?
    ensures r.Ok? ==> r == CreationName(name)
  {
    match petType
    case None => Err(BadRequest("無効なペット種類です"))
    case Some(pt) =>
      if !IsUnlocked(pt, unlockedIds) then Err(BadRequest("このペット種類はまだ解放されていません"))
      else if exists k :: 0 <= k < |pets| && pets[k].typeId == typeId then Err(BadRequest("このペット種類は既に所持しています"))
      else CreationName(name)
  }

  /** One user's pets, with the handlers that change them. */
  class PetStore {
    var pets: seq<PetRow>

    ghost predicate Valid()
      reads this
    {
      AtMostOneActive(pets) && IdsDistinct(pets)
    }

    constructor (initial: seq<PetRow>)
      requires AtMostOneActive(initial) && IdsDistinct(initial)
      ensures Valid() && pets == initial
    {
      pets := initial;
    }

    /** `create_pet`: on success every earlier pet is inactive and the new
        pet (stage 1, mood 100, EXP 0, level 1) is the only active one. */
    method Create(typeId: int, petType: Option<PetType>, unlockedIds: seq<int>, name: Option<string>,
                  newId: int) returns (outcome: Outcome<PetRow>)
      requires Valid()
      requires !HasPet(pets, newId)
      modifies this
      ensures Valid()
      ensures CreateCheck(old(pets), typeId, petType, unlockedIds, name).Err? ==>
        pets == old(pets) && outcome == Err(CreateCheck(old(pets), typeId, petType, unlockedIds, name).error)
      ensures CreateCheck(old(pets), typeId, petType, unlockedIds, name).Ok? ==>
        outcome == Ok(PetRow(newId, typeId, CreateCheck(old(pets), typeId, petType, unlockedIds, name).value,
                             1, 100, 0, 1, true))
        && pets == DeactivateAll(old(pets)) + [outcome.value]
    {
      var check := CreateCheck(pets, typeId, petType, unlockedIds, name);
      if check.Err? {
        return Err(check.error);
      }
      var pet := PetRow(newId, typeId, check.value, 1, 100, 0, 1, true);
      CreateLeavesOnlyNew(pets, pet);
      pets := DeactivateAll(pets);
      pets := pets + [pet];
      outcome := Ok(pet);
    }

    /** `activate_pet`: a missing pet is refused; otherwise every pet is
        deactivated and the target activated. */
    method Activate(petId: int) returns (outcome: Outcome<PetRow>)
      requires Valid()
      modifies this
      ensures Valid()
      ensures !HasPet(old(pets), petId) ==>
        outcome == Err(BadRequest("パートナーが見つかりません")) && pets == old(pets)
      ensures HasPet(old(pets), petId) ==>
        pets == SetActive(DeactivateAll(old(pets)), petId, true)
        && outcome.Ok? && outcome.value.id == petId && outcome.value.active
    {
      var found := FindById(pets, petId);
      if found.None? {
        return Err(BadRequest("パートナーが見つかりません"));
      }
      ActivateLeavesOnlyTarget(pets, petId);
      pets := DeactivateAll(pets);
      pets := SetActive(pets, petId, true);
      outcome := Ok(pets[found.value]);
    }

    /** `deactivate_pet`: without an active pet the request is refused;
        otherwise the active pet is put back and none is active. */
    method Deactivate() returns (outcome: Outcome<int>)
      requires Valid()
      modifies this
      ensures Valid()
      ensures FindActive(old(pets)).None? ==>
        outcome == Err(BadRequest("アクティブなパートナーがいません")) && pets == old(pets)
      ensures FindActive(old(pets)).Some? ==>
        outcome == Ok(old(pets)[FindActive(old(pets)).value].id)
        && pets == SetActive(old(pets), outcome.value, false)
        && forall k :: 0 <= k < |pets| ==> !pets[k].active
    {
      var found := FindActive(pets);
      if found.None? {
        return Err(BadRequest("アクティブなパートナーがいません"));
      }
      var id := pets[found.value].id;
      DeactivateLeavesNone(pets);
      pets := SetActive(pets, id, false);
      outcome := Ok(id);
    }

    /** `add_exp_to_active_pet`: with a positive amount and an active pet,
        that pet's EXP, level and stage are updated; otherwise nothing. */
    method AddExp(amount: int) returns (r: Option<ExpGain>)
      requires Valid()
      modifies this
      ensures Valid()
      ensures var active := FindActive(old(pets));
        r == GainExp(if active.Some? then Some(old(pets)[active.value].totalExp) else None, amount)
      ensures r.None? ==> pets == old(pets)
      ensures r.Some? ==>
        var k := FindActive(old(pets)).value;
        pets == old(pets)[k := old(pets)[k].(totalExp := r.value.newTotal, level := r.value.newLevel,
                                             stage := r.value.newStage)]
    {
      if amount <= 0 {
        return None;
      }
      var found := FindActive(pets);
      if found.None? {
        return None;
      }
      var k := found.value;
      var pet := pets[k];
      var newTotal := pet.totalExp + amount;
      var oldLevel := Models.CalculateLevel(pet.totalExp);
      var newLevel := Models.CalculateLevel(newTotal);
      var oldStage := Models.PetStage(oldLevel);
      var newStage := Models.PetStage(newLevel);
      var levelUp := newLevel > oldLevel;
      var matured := newStage >= 3 && oldStage < 3;
      pets := pets[k := pet.(totalExp := newTotal, level := newLevel, stage := newStage)];
      r := Some(ExpGain(newTotal, newLevel, newStage, levelUp, matured));
    }

    /** `update_pet` (by id) and `update_active_pet` (when `byActive`):
        the target is looked up, refused with that handler's own message
        when missing, and renamed to the trimmed name when one is given and
        passes validation; without a name the pet is returned unchanged. */
    method Rename(byActive: bool, petId: int, name: Option<string>) returns (outcome: Outcome<PetRow>)
      requires Valid()
      modifies this
      ensures Valid()
      ensures var found := if byActive then FindActive(old(pets)) else FindById(old(pets), petId);
        found.None? ==>
          outcome == Err(BadRequest(if byActive then "アクティブなパートナーがいません"
                                    else "パートナーが見つかりません"))
          && pets == old(pets)
      ensures var found := if byActive then FindActive(old(pets)) else FindById(old(pets), petId);
        found.Some? && name.None? ==>
          outcome == Ok(old(pets)[found.value]) && pets == old(pets)
      ensures var found := if byActive then FindActive(old(pets)) else FindById(old(pets), petId);
        found.Some? && name.Some? && ValidatePetName(name.value).Err? ==>
          outcome == Err(ValidatePetName(name.value).error) && pets == old(pets)
      ensures var found := if byActive then FindActive(old(pets)) else FindById(old(pets), petId);
        found.Some? && name.Some? && ValidatePetName(name.value).Ok? ==>
          var k := found.value;
          pets == old(pets)[k := old(pets)[k].(name := ValidatePetName(name.value).value)]
          && outcome == Ok(pets[k])
    {
      var found := if byActive then FindActive(pets) else FindById(pets, petId);
      if found.None? {
        var message := if byActive then "アクティブなパートナーがいません" else "パートナーが見つかりません";
        return Err(BadRequest(message));
      }
      var k := found.value;
      if name.Some? {
        var checked := ValidatePetName(name.value);
        if checked.Err? {
          return Err(checked.error);
        }
        pets := pets[k := pets[k].(name := checked.value)];
      }
      outcome := Ok(pets[k]);
    }
  }
}

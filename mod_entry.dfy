/**
 * `ModEntry.PostfixGainExperience`: what runs after the game grants XP to a farmer.
 * It turns the farmer's XP and level into the (progress, required) pair shown by the
 * notification, announces a maximum-level skill at most once per game day, and
 * forwards the result to the display manager.
 *
 * The game's answers (whether the farmer is the local player, the farmer's XP and
 * unmodified level for the skill, the skill's display name, the base XP of a level
 * and the current day number) are parameters.
 */
module Mod {
  import opened Wrappers
  import Display

  /** Updates of this skill index (luck, which the game never shows) are ignored. */
  const LuckSkill: int := 5
  /** A skill at this level or above is at its maximum. */
  const MaxSkillLevel: int := 10

  predicate IsMaxLevel(currentLevel: int) {
    currentLevel >= MaxSkillLevel
  }

  /** The numbers a notification shows; `required == 0` stands for "maximum level". */
  datatype SkillReading = SkillReading(progress: int, required: int)

  /** Progress within the current level and the XP span of that level.
      `baseExperienceForLevel` is `Farmer.getBaseExperienceForLevel`, which answers -1
      for a level it has no threshold for. */
  function ReadSkill(currentXP: int, currentLevel: int, baseExperienceForLevel: int -> int): (r: SkillReading)
    ensures IsMaxLevel(currentLevel) ==> r == SkillReading(0, 0)
    ensures !IsMaxLevel(currentLevel) ==> baseExperienceForLevel(currentLevel) + r.progress == currentXP
    ensures !IsMaxLevel(currentLevel) && baseExperienceForLevel(currentLevel + 1) == -1 ==> r.required == 0
  {
    var isMaxLevel := IsMaxLevel(currentLevel);
    var currentLevelXP := baseExperienceForLevel(currentLevel);
    var nextLevelXP := if isMaxLevel then -1 else baseExperienceForLevel(currentLevel + 1);
    SkillReading(
      if isMaxLevel then 0 else currentXP - currentLevelXP,
      if isMaxLevel then 0 else if nextLevelXP != -1 then nextLevelXP - currentLevelXP else 0)
  }

  /** At the maximum level both numbers are zero, so the notification says "Max Level". */
  lemma MaxLevelReading(currentXP: int, currentLevel: int, baseExperienceForLevel: int -> int)
    requires IsMaxLevel(currentLevel)
    ensures ReadSkill(currentXP, currentLevel, baseExperienceForLevel) == SkillReading(0, 0)
    ensures var r := ReadSkill(currentXP, currentLevel, baseExperienceForLevel);
      Display.XpText(r.progress, r.required) == Display.MaxLevelText
  {
  }

  /** Below the maximum level, progress counts from the current level's threshold and
      `required` is the distance to the next threshold (0 when the game has none). */
  lemma BelowMaxReading(currentXP: int, currentLevel: int, baseExperienceForLevel: int -> int)
    requires !IsMaxLevel(currentLevel)
    ensures var r := ReadSkill(currentXP, currentLevel, baseExperienceForLevel);
      && baseExperienceForLevel(currentLevel) + r.progress == currentXP
      && (baseExperienceForLevel(currentLevel + 1) != -1 ==>
            baseExperienceForLevel(currentLevel) + r.required == baseExperienceForLevel(currentLevel + 1))
      && (baseExperienceForLevel(currentLevel + 1) == -1 ==> r.required == 0)
  {
  }

  /** With rising thresholds, a level below the maximum shows a fraction, never the
      maximum-level text. */
  lemma BelowMaxShowsFraction(currentXP: int, currentLevel: int, baseExperienceForLevel: int -> int)
    requires !IsMaxLevel(currentLevel)
    requires baseExperienceForLevel(currentLevel + 1) != -1
    requires baseExperienceForLevel(currentLevel) < baseExperienceForLevel(currentLevel + 1)
    ensures var r := ReadSkill(currentXP, currentLevel, baseExperienceForLevel);
      Display.ParseXpText(Display.XpText(r.progress, r.required)) == Some(Display.Fraction(r.progress, r.required))
  {
    var r := ReadSkill(currentXP, currentLevel, baseExperienceForLevel);
    Display.XpTextRoundTrip(r.progress, r.required);
  }

  /** The once-per-day decision and the new `MaxLevelShownDays`. */
  datatype Gate = Gate(shouldShow: bool, shownDays: map<int, int>)

  /** A maximum-level update is shown unless this skill's maximum level was already
      announced today; showing it records today. Other updates are always shown. */
  function MaxLevelGate(shownDays: map<int, int>, which: int, isMaxLevel: bool, today: int): (g: Gate)
    ensures g.shouldShow <==> !(isMaxLevel && which in shownDays && shownDays[which] == today)
    ensures isMaxLevel ==> which in g.shownDays && g.shownDays[which] == today
    ensures isMaxLevel ==> g.shownDays == shownDays[which := today]
    ensures !isMaxLevel ==> g.shownDays == shownDays
  {
    if !isMaxLevel then Gate(true, shownDays)
    else if which in shownDays then
      if today == shownDays[which] then Gate(false, shownDays) else Gate(true, shownDays[which := today])
    else Gate(true, shownDays[which := today])
  }

  /** The arguments of the call into `DisplayManager.UpdateSkillDisplay`. */
  datatype DisplayCall = DisplayCall(which: int, skillName: string, currentLevel: int, progress: int, required: int)

  /** The whole effect of one XP gain: the display call made, if any, and the new
      `MaxLevelShownDays`. */
  datatype GainOutcome = GainOutcome(call: Option<DisplayCall>, shownDays: map<int, int>)

  predicate Skipped(isLocalPlayer: bool, which: int) {
    !isLocalPlayer || which == LuckSkill
  }

  function OnGain(isLocalPlayer: bool, which: int, currentXP: int, currentLevel: int, skillName: string,
                  baseExperienceForLevel: int -> int, shownDays: map<int, int>, today: int): (o: GainOutcome)
    ensures Skipped(isLocalPlayer, which) ==> o == GainOutcome(None, shownDays)
    ensures o.call.Some? ==> o.call.value.which == which && o.call.value.skillName == skillName
                             && o.call.value.currentLevel == currentLevel
    ensures o.shownDays == shownDays || o.shownDays == shownDays[which := today]
    ensures !IsMaxLevel(currentLevel) ==> o.shownDays == shownDays
  {
    if Skipped(isLocalPlayer, which) then GainOutcome(None, shownDays)
    else
      var reading := ReadSkill(currentXP, currentLevel, baseExperienceForLevel);
      var gate := MaxLevelGate(shownDays, which, IsMaxLevel(currentLevel), today);
      GainOutcome(
        if gate.shouldShow then Some(DisplayCall(which, skillName, currentLevel, reading.progress, reading.required))
        else None,
        gate.shownDays)
  }

  /** Another player's gain, or a luck gain, changes nothing. */
  lemma SkipRule(isLocalPlayer: bool, which: int, currentXP: int, currentLevel: int, skillName: string,
                 baseExperienceForLevel: int -> int, shownDays: map<int, int>, today: int)
    requires Skipped(isLocalPlayer, which)
    ensures OnGain(isLocalPlayer, which, currentXP, currentLevel, skillName, baseExperienceForLevel, shownDays, today)
         == GainOutcome(None, shownDays)
  {
  }

  /** Exactly the shown updates reach the display manager, once, with the computed
      reading. */
  lemma Forwarding(isLocalPlayer: bool, which: int, currentXP: int, currentLevel: int, skillName: string,
                   baseExperienceForLevel: int -> int, shownDays: map<int, int>, today: int)
    ensures var out := OnGain(isLocalPlayer, which, currentXP, currentLevel, skillName, baseExperienceForLevel, shownDays, today);
      var reading := ReadSkill(currentXP, currentLevel, baseExperienceForLevel);
      && (out.call.Some? <==>
            !Skipped(isLocalPlayer, which) && MaxLevelGate(shownDays, which, IsMaxLevel(currentLevel), today).shouldShow)
      && (out.call.Some? ==>
            out.call.value == DisplayCall(which, skillName, currentLevel, reading.progress, reading.required))
  {
  }

  /** A maximum-level update on the day its announcement was last shown is
      suppressed and leaves the map as it was. */
  lemma SameDaySuppressed(which: int, currentXP: int, currentLevel: int, skillName: string,
                          baseExperienceForLevel: int -> int, shownDays: map<int, int>, today: int)
    requires which != LuckSkill && IsMaxLevel(currentLevel)
    requires which in shownDays && shownDays[which] == today
    ensures OnGain(true, which, currentXP, currentLevel, skillName, baseExperienceForLevel, shownDays, today)
         == GainOutcome(None, shownDays)
  {
  }

  /** The first maximum-level update of a day is shown and records the day for this
      skill only. */
  lemma FirstTimeTodayShown(which: int, currentXP: int, currentLevel: int, skillName: string,
                            baseExperienceForLevel: int -> int, shownDays: map<int, int>, today: int)
    requires which != LuckSkill && IsMaxLevel(currentLevel)
    requires which !in shownDays || shownDays[which] != today
    ensures var out := OnGain(true, which, currentXP, currentLevel, skillName, baseExperienceForLevel, shownDays, today);
      && out.call == Some(DisplayCall(which, skillName, currentLevel, 0, 0))
      && out.shownDays.Keys == shownDays.Keys + {which}
      && out.shownDays[which] == today
      && forall k :: k in shownDays && k != which ==> out.shownDays[k] == shownDays[k]
  {
  }

  /** Updates below the maximum level are always shown and never touch the map. */
  lemma BelowMaxAlwaysShown(which: int, currentXP: int, currentLevel: int, skillName: string,
                            baseExperienceForLevel: int -> int, shownDays: map<int, int>, today: int)
    requires which != LuckSkill && !IsMaxLevel(currentLevel)
    ensures var out := OnGain(true, which, currentXP, currentLevel, skillName, baseExperienceForLevel, shownDays, today);
      out.call.Some? && out.shownDays == shownDays
  {
  }

  /** Two maximum-level updates of one skill on one day: the second is always
      suppressed, so at most one is shown, and exactly one when the day had not yet
      been announced. */
  lemma AtMostOncePerDay(which: int, xp1: int, xp2: int, currentLevel: int, skillName: string,
                         baseExperienceForLevel: int -> int, shownDays: map<int, int>, today: int)
    requires which != LuckSkill && IsMaxLevel(currentLevel)
    ensures var first := OnGain(true, which, xp1, currentLevel, skillName, baseExperienceForLevel, shownDays, today);
      var second := OnGain(true, which, xp2, currentLevel, skillName, baseExperienceForLevel, first.shownDays, today);
      && second.call.None?
      && second.shownDays == first.shownDays
      && (first.call.Some? <==> (which !in shownDays || shownDays[which] != today))
  {
  }

  /** `saveData`: the days on which each skill's maximum level was last announced. */
  class SaveData {
    var maxLevelShownDays: map<int, int>

    constructor ()
      ensures maxLevelShownDays == map[]
    {
      maxLevelShownDays := map[];
    }
  }

  class ModEntry {
    var displayManager: Display.DisplayManager
    var saveData: SaveData

    constructor (displayManager: Display.DisplayManager, saveData: SaveData)
      ensures this.displayManager == displayManager && this.saveData == saveData
    {
      this.displayManager := displayManager;
      this.saveData := saveData;
    }

    /** The postfix run after the farmer gains XP in skill `which`, at clock time `now`
        on game day `today`. */
    method PostfixGainExperience(isLocalPlayer: bool, which: int, currentXP: int, currentLevel: int,
                                 skillName: string, baseExperienceForLevel: int -> int, today: int, now: int)
      modifies saveData, displayManager
      ensures var out := OnGain(isLocalPlayer, which, currentXP, currentLevel, skillName, baseExperienceForLevel,
                                old(saveData.maxLevelShownDays), today);
        && saveData.maxLevelShownDays == out.shownDays
        && displayManager.skillDisplays == match out.call
             case None => old(displayManager.skillDisplays)
             case Some(c) => Display.Updated(old(displayManager.skillDisplays), c.which, c.skillName,
                                             c.currentLevel, c.progress, c.required, now)
    {
      if !isLocalPlayer || which == LuckSkill {
        return;
      }
      var isMaxLevel := currentLevel >= MaxSkillLevel;
      var currentLevelXP := baseExperienceForLevel(currentLevel);
      var nextLevelXP := if isMaxLevel then -1 else baseExperienceForLevel(currentLevel + 1);
      var progress := if isMaxLevel then 0 else currentXP - currentLevelXP;
      var required := if isMaxLevel then 0 else if nextLevelXP != -1 then nextLevelXP - currentLevelXP else 0;
      var shouldShow := true;
      if isMaxLevel {
        var currentDay := today;
        if which in saveData.maxLevelShownDays {
          var lastShownDay := saveData.maxLevelShownDays[which];
          if currentDay == lastShownDay {
            shouldShow := false;
          } else {
            saveData.maxLevelShownDays := saveData.maxLevelShownDays[which := currentDay];
          }
        } else {
          saveData.maxLevelShownDays := saveData.maxLevelShownDays[which := currentDay];
        }
      }
      if shouldShow {
        displayManager.UpdateSkillDisplay(which, skillName, currentLevel, progress, required, now);
      }
    }
  }
}

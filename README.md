# Skill progression notifications: a verified model

This project models the core of a Stardew Valley mod that shows a fading HUD notice
whenever a skill gains experience. The notice reads "P/R", or "Max Level" at the top
level.

There are two parts:

- **`DisplayManager`** keeps at most one live notification record per skill index.
  - An update merges into the skill's record when that record was *created* at most
    0.5 s earlier. Otherwise it replaces the record.
  - Each frame it prunes the expired records and draws the rest, stacked one per row.
    Each drawn record gets a fade-in / hold / fade-out opacity worked out from its
    creation time.
  - The configured text colour is parsed fail-safe. Once the run of leading `#`
    characters is removed, the text must be exactly six characters long. Those six
    must be hexadecimal digits, with optional white space around them, as
    `NumberStyles.HexNumber` allows. So `" 12345"` gives (0x01, 0x23, 0x45), and
    anything else, such as `"  336699"`, gives white.
- **`ModEntry.PostfixGainExperience`** runs after every XP gain.
  - It ignores other players and the luck skill (index 5).
  - It turns XP and level into (progress, required), with `required == 0` meaning
    "maximum level".
  - It shows a maximum-level notice at most once per game day per skill. It keeps
    the last day shown in the save data's `MaxLevelShownDays` map, and forwards the
    result to the display manager.

Modules:

- `Display` (`display_manager.dfy`) holds the record type and the `DisplayManager`
  class, which has a `skillDisplays` map field. It also holds the pure specification
  functions `Updated`, `Pruned` and `Rendered`, and the lemmas about them.
- `Fade` (`fade.dfy`) holds the easing functions and the opacity envelope, over `real`.
- `HexColor` (`hex_color.dfy`) holds `HexToColor`, including the number-parsing rules
  of `NumberStyles.HexNumber`.
- `Format` (`format.dfy`) holds the decimal rendering of `int` used by the "P/R"
  text, and its inverse.
- `Mod` (`mod_entry.dfy`) holds the XP reading and the once-per-day gate. It also
  holds the `SaveData` and `ModEntry` classes and the `PostfixGainExperience` method.
- `Wrappers` (`wrappers.dfy`) holds an `Option` type.

Time is an integer number of .NET ticks (10 000 000 per second). It is passed in as
`now`. The coalescing window is 5 000 000 ticks and the display duration is
30 000 000 ticks. The game's answers are parameters:

- the local-player flag;
- the XP and the unmodified level;
- the skill's display name;
- `Farmer.getBaseExperienceForLevel`, as a function `int -> int`;
- `Game1.Date.TotalDays`.

Two consequences of the code are worth spelling out:

- A merge moves `DisplayUntil` to now + 3 s (DisplayManager.cs:67). So a record
  created at 0 s and merged into at 0.2 s is still drawn at 3.19 s, at opacity 0,
  and is removed at 3.2 s (`Display.MergedFarmingScenario`).
- `Farmer.getBaseExperienceForLevel` may answer -1 for the next level. Then
  `required` is 0 (ModEntry.cs:129), so the display treats that skill as at
  maximum level.

## Model

| member | source | states |
|---|---|---|
| `Display.GetSkillSourceRect` | DisplayManager.cs:42-54 | Skills 0..5 get a 16x16 icon region on the 16-pixel grid; every other index gets the empty rectangle, and only those do. |
| `Display.SourceRectsDistinct` | DisplayManager.cs:42-54 | No two of the six skills share an icon region. |
| `Display.XpText` | DisplayManager.cs:113-115 | The text is "Max Level" if and only if `required == 0`, whatever the progress. |
| `Display.XpTextRoundTrip` | DisplayManager.cs:113-115 | Reading the text back gives MaxLevel when `required == 0` and otherwise exactly (progress, required), so a fraction is `"{Progress}/{Required}"` and is never mistaken for the sentinel. |
| `Format.IntToString` | DisplayManager.cs:115 | The rendering of an `int` is never empty and starts with '-' exactly when the value is negative. Zero is "0", and there is no leading zero: a positive value does not start with '0', and a negative one has a non-zero digit right after the '-'. With `Format.IntToStringChars` (digits only after an optional '-') and `Format.IntToStringRoundTrip` (the digits denote the value), this fixes the text uniquely. |
| `Format.IntToStringRoundTrip` | DisplayManager.cs:115 | The decimal rendering of an `int` (a leading '-' for negatives) parses back to the same integer. |
| `Display.Updated` | DisplayManager.cs:56-82 | After an update the store holds a record for the skill and no other key changes. If the skill's record is at most 0.5 s old (counted from its creation), progress and required take the new values, DisplayUntil becomes now + 3 s, and StartTime, SkillName and CurrentLevel stay. Otherwise the record is a fresh one: StartTime = now, DisplayUntil = now + 3 s, the other fields from the arguments. |
| `Display.DisplayManager.UpdateSkillDisplay` | DisplayManager.cs:56-82 | Changes `skillDisplays` to exactly `Updated` of its old value and the arguments. |
| `Display.DisplayManager.constructor` | DisplayManager.cs:22 | A new display manager holds no records. |
| `Display.WindowAnchoredAtCreation` | DisplayManager.cs:62 | Updates at 0 s, 0.4 s and 0.6 s merge once (StartTime 0, DisplayUntil 3.4 s) and then replace the record, which then has StartTime 0.6 s. |
| `Display.ApplyKeepsLifetime` | DisplayManager.cs:59-110 | One update or frame at a time no earlier than every record's creation keeps StartTime + 3 s <= DisplayUntil <= StartTime + 3.5 s for every record. |
| `Display.ReplayKeepsLifetime` | DisplayManager.cs:59-110 | With a clock that never runs backwards, every record of every store reached by updates and frames lives between 3 s and 3.5 s past its creation. |
| `Display.ExpiresAfterDuration` | DisplayManager.cs:79-110 | A record that is never merged into survives every pass before 3 s after its creation and none from then on. |
| `Display.Entry` | DisplayManager.cs:113-159 | The entry painted for a record is for that record's skill, at the given stacking position, in the given colour, with an opacity in [0, 1]. |
| `Display.Rendered` | DisplayManager.cs:89-161 | A pass paints at most one entry per key it visits. `Display.RenderedEntries` states what each entry is. |
| `Display.Pruned` | DisplayManager.cs:107-110 | A pass keeps exactly the records with now < DisplayUntil, and leaves the kept ones unmodified. |
| `Display.DisplayManager.Visit` | DisplayManager.cs:91-160 | One step of the frame loop: visiting a key extends the painted entries to `Rendered` of the keys visited so far, and the store to the records those visits have not removed. |
| `Display.DisplayManager.Draw` | DisplayManager.cs:84-163 | After a frame `skillDisplays` is `Pruned` of its old value. The entries returned are `Rendered` of the old store in the dictionary's enumeration order. |
| `Display.RenderedEntries` | DisplayManager.cs:89-161 | The drawn entries are numbered 0..k-1 in drawing order, and they are exactly the surviving records in the order visited. Each entry shows its own record: the icon region of its skill, the record's text, the configured colour and the opacity for the time since the record's creation. |
| `Display.LiveInOrderMembers` | DisplayManager.cs:89-111 | A skill is drawn if and only if the pass visits it and its record has not expired; a pass that visits each key once draws each skill at most once. |
| `Display.DrawsExactlySurvivors` | DisplayManager.cs:89-111 | A pass over an enumeration of the dictionary draws every record that survives pruning exactly once, and never draws a pruned record. |
| `Display.MergedFarmingScenario` | DisplayManager.cs:56-111 | Farming gains at 0 s (30/200) and at 0.2 s (45/200) leave one record. At 2 s it is drawn as "45/200" at opacity 1. At 3.19 s it is still drawn, at opacity 0. At 3.2 s it is pruned and nothing is drawn. |
| `Fade.EaseOutQuad` | DisplayManager.cs:165-168 | On [0, 1] the result is in [0, 1] and no further from 1 than the input. |
| `Fade.EaseInQuad` | DisplayManager.cs:170-173 | On [0, 1] the result is in [0, 1] and at most the input. |
| `Fade.EaseEndpoints` | DisplayManager.cs:165-173 | EaseOutQuad(0) = 0 and EaseOutQuad(1) = 1; EaseInQuad(0) = 0 and EaseInQuad(1) = 1. So both ramps meet the plateau value 1. |
| `Fade.Clamp` | DisplayManager.cs:95 | The result lies in [lo, hi]. It is x when x is in range, lo when x is below the range and hi when x is above it, as `Math.Clamp` does. |
| `Fade.FadeProgress` | DisplayManager.cs:94-95 | The fade progress is in [0, 1], and it is elapsed / 3 for an elapsed time in [0 s, 3 s]. |
| `Fade.Envelope` | DisplayManager.cs:96-105 | For a progress in [0, 1] the opacity is in [0, 1], and it is exactly 1 on the plateau from 0.2 to 0.8. |
| `Fade.Alpha` | DisplayManager.cs:94-105 | The opacity is in [0, 1] for every elapsed time, negative ones included. |
| `Fade.AlphaShape` | DisplayManager.cs:94-105 | Opacity is 0 at or before creation, 1 from 0.6 s to 2.4 s, and 0 from 3 s on. |
| `Fade.RampInMonotone` | DisplayManager.cs:98-101 | On the first fifth of the fade progress the opacity never decreases. |
| `Fade.RampOutMonotone` | DisplayManager.cs:102-105 | On the last fifth of the fade progress the opacity never increases. |
| `Fade.PlateauContinuity` | DisplayManager.cs:98-105 | Continuity at both ends of the plateau. Before 0.2, 1 - opacity is at most 5 x (0.2 - p). After 0.8, it is at most 10 x (p - 0.8). |
| `HexColor.TrimStart` | DisplayManager.cs:28 | The result is no longer than the input and does not start with the trimmed character. |
| `HexColor.TrimStartRemovesPrefix` | DisplayManager.cs:28 | `TrimStart('#')` removes a run of '#' from the front, and all of it. |
| `HexColor.HashPrefixIgnored` | DisplayManager.cs:28 | A leading '#' never changes the colour. |
| `HexColor.ByteAt` | DisplayManager.cs:32-34 | Extracting a byte with shift and `& 0xFF` always gives a value in [0, 255]. |
| `HexColor.TryParseHexNumber` | DisplayManager.cs:29 | A successful parse gives a value in the 32-bit signed range, and needs text that is not empty once white space is trimmed. `HexColor.PlainHexParses`, `HexColor.WhiteSpaceAccepted` and `HexColor.NonHexIsWhite` say which texts parse. |
| `HexColor.PlainHexParses` | DisplayManager.cs:29 | Six hex digits are kept by both trims and parse to their value. |
| `HexColor.HexToColor` | DisplayManager.cs:24-40 | The colour is always opaque with components in [0, 255]. It is white whenever the text is not six characters long once the leading '#' characters are removed. |
| `HexColor.HexToColorRoundTrip` | DisplayManager.cs:24-40 | For bytes r, g and b, `RRGGBB` and `#RRGGBB` both read as the opaque colour (r, g, b). |
| `HexColor.ExampleWithHash` | DisplayManager.cs:24-40 | "#336699" gives (51, 102, 153). |
| `HexColor.ExampleWithoutHash` | DisplayManager.cs:24-40 | "336699" gives (51, 102, 153), the same as the '#' form. |
| `HexColor.ExampleNotAColor` | DisplayManager.cs:24-40 | "not-a-color" gives white. |
| `HexColor.WrongLengthIsWhite` | DisplayManager.cs:29-39 | If the text is not six characters long after the '#' characters are removed, the colour is white. |
| `HexColor.NonHexIsWhite` | DisplayManager.cs:29-39 | If any of those characters is neither a hex digit nor white space, the colour is white. |
| `HexColor.PaddedSixDigitsIsWhite` | DisplayManager.cs:29 | The length is tested before parsing, so "  336699" (eight characters) gives white. |
| `HexColor.WhiteSpaceAccepted` | DisplayManager.cs:29 | The parser tolerates surrounding white space, so " 12345" gives (0x01, 0x23, 0x45). |
| `Mod.ReadSkill` | ModEntry.cs:121-129 | At the maximum level the reading is (0, 0). Below it, base(level) + progress is the XP, and required is 0 when the game answers -1 for the next level. |
| `Mod.MaxLevelReading` | ModEntry.cs:123-129 | At level 10 or above, progress = required = 0, so the notification reads "Max Level". |
| `Mod.BelowMaxReading` | ModEntry.cs:125-129 | Below level 10, XP = base(level) + progress. Also, required = base(level+1) - base(level), or 0 when the game answers -1 for the next level. |
| `Mod.BelowMaxShowsFraction` | ModEntry.cs:125-129 | Below level 10, if the thresholds rise, the notification reads back as exactly the (progress, required) fraction, never the maximum-level text. |
| `Mod.MaxLevelGate` | ModEntry.cs:132-152 | The gain is shown unless it is at the maximum level and the skill's stored day is today. At the maximum level the map afterwards records today for the skill and nothing else changes. Below it, the map is unchanged. |
| `Mod.OnGain` | ModEntry.cs:118-163 | A skipped gain makes no call and keeps the map. A call carries the gain's skill, name and level. The map either stays or records today for the skill only, and it stays below the maximum level. |
| `Mod.SkipRule` | ModEntry.cs:118-119 | A gain by a non-local player, or for skill 5, makes no display call and leaves the map unchanged. |
| `Mod.Forwarding` | ModEntry.cs:154-163 | A display call is made if and only if the gain is not skipped and the gate says show. It carries (which, name, level, progress, required) as computed. |
| `Mod.SameDaySuppressed` | ModEntry.cs:137-141 | A maximum-level gain on the skill's stored last-shown day is suppressed and leaves the map unchanged. |
| `Mod.FirstTimeTodayShown` | ModEntry.cs:137-151 | A maximum-level gain with no entry, or an entry for another day, is shown with (0, 0). Afterwards map[which] = today and every other key is unchanged. |
| `Mod.BelowMaxAlwaysShown` | ModEntry.cs:132-134 | A gain below the maximum level is always shown and never changes the map. |
| `Mod.AtMostOncePerDay` | ModEntry.cs:134-151 | Of two maximum-level gains for one skill on one day, the second is suppressed and changes nothing. The first is shown exactly when the day was not already recorded. |
| `Mod.SaveData.constructor` | ModEntry.cs:23 | A fresh save-data object has an empty `MaxLevelShownDays` map. |
| `Mod.ModEntry.constructor` | ModEntry.cs:28-30 | The mod object holds the display manager and save data it is given. It stands for the wiring in `Entry`, where the rest is host integration. |
| `Mod.ModEntry.PostfixGainExperience` | ModEntry.cs:114-169 | Afterwards `MaxLevelShownDays` is the map the gain's outcome gives. The display store is either unchanged or `Updated` with the outcome's single call. |

## Left out

- Harmony patching, SMAPI event wiring, the config-menu registration and its preview
  (ModEntry.cs:26-42, 57-112). This is host integration.
- Reading and writing the save data (ModEntry.cs:44-54). This is persistence I/O;
  `SaveData` is handed in.
- The static `Instance` singleton and its null checks (ModEntry.cs:18, 28, 118). The
  `ModEntry` object is explicit and its references are non-null by type.
- `try`/`catch` (ModEntry.cs:116, 165-168; DisplayManager.cs:26, 38) is not modelled;
  every operation is total. An out-of-range `experiencePoints[which]` is therefore not
  modelled; the XP value is a parameter.
- The `howMuch` argument of the postfix is unused by the source and is not a parameter
  of the model.
- `DateTime.Now` is read several times within one call. A merge reads it twice
  (DisplayManager.cs:62, 67). Replacing an old record reads it three times: for the
  age test, for `DisplayUntil` and for `StartTime` (lines 62, 79, 80). A record for a
  new skill reads it twice (lines 79, 80). `Draw` reads it twice per record (lines 94,
  107). The model uses one `now` per call, so ticks that pass between two reads are
  not modelled.
- The comparison `TotalSeconds <= 0.5` is modelled as an exact comparison of ticks.
  Floating-point rounding at the boundary tick is not modelled.
- Fade: the single-precision float arithmetic of the envelope is idealised as exact
  `real` arithmetic.
- Rendering: `SpriteBatch.Draw` and `DrawString`, font measurement, and the float
  icon and text positions and scales (DisplayManager.cs:117-159). A drawn entry keeps
  its skill's icon region, text, parsed text colour, opacity and stacking ordinal.
- Display.DisplayManager.Draw: the text colour multiplied by the opacity (byte
  rounding of `Color * float`) is not computed. The entry carries the parsed colour
  and the opacity separately.
- Display.DisplayManager.Draw: the .NET `Dictionary` enumeration order is unspecified,
  so the order is a parameter. Any sequence that lists each key once is accepted, and
  every property holds for every such order.
- `SkillDisplayInfo` is a private class whose fields `UpdateSkillDisplay` assigns in
  place. No reference to a record leaves `DisplayManager`, so the record is modelled
  as a value, and the field assignments as replacing the map entry. Aliasing of
  records is not modelled.
- HexColor.HexToColor: a `null` configuration string cannot occur in the model.
  Trailing NUL characters, which .NET number parsing also tolerates, are not modelled.
  The model does cover leading and trailing white space and the 32-bit range of
  `int.TryParse`.
- Mod.ReadSkill: progress and required are computed over unbounded integers. The
  source subtracts 32-bit `int`s (ModEntry.cs:128-129), which would wrap for
  thresholds far apart; that wrap-around is not modelled.
- Mod.ModEntry.PostfixGainExperience: the progress and required it forwards come from
  `Mod.ReadSkill`, so the same 32-bit wrap-around is not modelled.
- Format.IntToString: C# interpolation formats with the current culture, whose
  negative sign may be another character (U+2212 in some cultures). The model always
  writes '-', as the invariant culture does.
- `Farmer.getBaseExperienceForLevel`, `GetUnmodifiedSkillLevel`, `experiencePoints`,
  `getSkillDisplayNameFromIndex`, `IsLocalPlayer` and `Game1.Date.TotalDays` are game
  code that is not part of this model. They enter as parameters.

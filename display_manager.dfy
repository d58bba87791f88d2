/**
 * `DisplayManager`: one live notification record per skill, coalescing of rapid
 * updates, lazy pruning and the per-frame list of what is drawn.
 *
 * Time is an integer count of .NET ticks (10 000 000 per second), passed in as `now`.
 */
module Display {
  import opened Wrappers
  import opened Format
  import HexColor
  import Fade

  const TicksPerSecond: int := 10_000_000
  /** An update merges into a record created at most 0.5 s earlier. */
  const CoalesceWindow: int := 5_000_000
  /** A record is drawn until 3 s after its creation or its last merge. */
  const DisplayDuration: int := 30_000_000

  /** The text shown for a skill at its maximum level. */
  const MaxLevelText: string := "Max Level"

  /** One live notification. */
  datatype SkillDisplayInfo = SkillDisplayInfo(
    skillName: string,
    currentLevel: int,
    progress: int,
    required: int,
    displayUntil: int,
    startTime: int)

  /** The contents of `skillDisplays`: skill index to its one live record. */
  type Store = map<int, SkillDisplayInfo>

  datatype Rectangle = Rectangle(x: int, y: int, width: int, height: int)

  const EmptyRect: Rectangle := Rectangle(0, 0, 0, 0)

  /** The 16x16 icon region of each skill in the buff-icon sheet; unknown skills get
      the empty rectangle. */
  function GetSkillSourceRect(skillIndex: int): (r: Rectangle)
    ensures (0 <= skillIndex <= 5) == (r != EmptyRect)
    ensures r != EmptyRect ==> r.width == 16 && r.height == 16 && r.x % 16 == 0 && r.y % 16 == 0
  {
    match skillIndex
    case 0 => Rectangle(0, 0, 16, 16)
    case 1 => Rectangle(16, 0, 16, 16)
    case 2 => Rectangle(80, 0, 16, 16)
    case 3 => Rectangle(32, 0, 16, 16)
    case 4 => Rectangle(128, 16, 16, 16)
    case 5 => Rectangle(64, 0, 16, 16)
    case _ => EmptyRect
  }

  /** Different skills never share an icon. */
  lemma SourceRectsDistinct(i: int, j: int)
    requires 0 <= i <= 5 && 0 <= j <= 5 && i != j
    ensures GetSkillSourceRect(i) != GetSkillSourceRect(j)
  {
  }

  /** The text of a record: the sentinel `required == 0` means maximum level. */
  function XpText(progress: int, required: int): (s: string)
    ensures s == MaxLevelText <==> required == 0
  {
    if required == 0 then MaxLevelText
    else
      IntToStringChars(progress);
      var s := IntToString(progress) + "/" + IntToString(required);
      assert s[0] == IntToString(progress)[0] && MaxLevelText[0] == 'M';
      s
  }

  /** What a record's text says. */
  datatype XpLabel = MaxLevel | Fraction(progress: int, required: int)

  /** The first index of `c` in `s`, or `|s|`. */
  function IndexOf(s: string, c: char): (i: nat)
    ensures i <= |s|
    ensures i < |s| ==> s[i] == c
    ensures forall j :: 0 <= j < i ==> s[j] != c
    decreases |s|
  {
    if s == [] then 0 else if s[0] == c then 0 else 1 + IndexOf(s[1..], c)
  }

  /** Reads a record's text back. */
  function ParseXpText(s: string): Option<XpLabel> {
    if s == MaxLevelText then Some(MaxLevel)
    else
      var i := IndexOf(s, '/');
      if i == |s| then None
      else
        match (ParseInt(s[..i]), ParseInt(s[i + 1..]))
        case (Some(p), Some(r)) => if r != 0 then Some(Fraction(p, r)) else None
        case _ => None
  }

  /** The text determines what it shows: "Max Level" exactly when `required == 0`
      (whatever the progress), otherwise both numbers. */
  lemma XpTextRoundTrip(progress: int, required: int)
    ensures ParseXpText(XpText(progress, required))
         == Some(if required == 0 then MaxLevel else Fraction(progress, required))
  {
    if required != 0 {
      var a, b := IntToString(progress), IntToString(required);
      var s := a + "/" + b;
      IntToStringChars(progress);
      IntToStringRoundTrip(progress);
      IntToStringRoundTrip(required);
      assert s[|a|] == '/';
      assert forall j :: 0 <= j < |a| ==> s[j] == a[j];
      assert IndexOf(s, '/') == |a|;
      assert s[..|a|] == a;
      assert s[|a| + 1..] == b;
    }
  }

  /** Whether an update at `now` merges into the skill's record: the age is measured
      from the record's creation, never from its last merge. */
  predicate Coalesces(m: Store, skillIndex: int, now: int) {
    skillIndex in m && now - m[skillIndex].startTime <= CoalesceWindow
  }

  /** `skillDisplays` after `UpdateSkillDisplay`. */
  function Updated(m: Store, skillIndex: int, skillName: string, currentLevel: int,
                   progress: int, required: int, now: int): (m': Store)
    ensures m'.Keys == m.Keys + {skillIndex}
    ensures forall k :: k in m && k != skillIndex ==> m'[k] == m[k]
    ensures Coalesces(m, skillIndex, now) ==>
      var before, after := m[skillIndex], m'[skillIndex];
      && after.progress == progress && after.required == required
      && after.displayUntil == now + DisplayDuration
      && after.startTime == before.startTime
      && after.skillName == before.skillName && after.currentLevel == before.currentLevel
    ensures !Coalesces(m, skillIndex, now) ==>
      m'[skillIndex] == SkillDisplayInfo(skillName, currentLevel, progress, required,
                                         now + DisplayDuration, now)
  {
    if Coalesces(m, skillIndex, now) then
      m[skillIndex := m[skillIndex].(progress := progress, required := required,
                                     displayUntil := now + DisplayDuration)]
    else
      m[skillIndex := SkillDisplayInfo(skillName, currentLevel, progress, required,
                                       now + DisplayDuration, now)]
  }

  predicate Expired(info: SkillDisplayInfo, now: int) {
    now >= info.displayUntil
  }

  /** `skillDisplays` after a `Draw` pass at `now`. */
  function Pruned(m: Store, now: int): (m': Store)
    ensures forall k :: k in m' <==> k in m && !Expired(m[k], now)
    ensures forall k :: k in m' ==> m'[k] == m[k]
  {
    map k | k in m && !Expired(m[k], now) :: m[k]
  }

  /** Seconds since the record's creation, as `Draw` reads them. */
  function ElapsedSeconds(info: SkillDisplayInfo, now: int): real {
    (now - info.startTime) as real / TicksPerSecond as real
  }

  /** What `Draw` paints for one record: the icon region, the text in the configured
      colour, the fade opacity and the stacking position. */
  datatype DrawnEntry = DrawnEntry(
    skillIndex: int,
    sourceRect: Rectangle,
    text: string,
    textColor: HexColor.Color,
    alpha: real,
    ordinal: nat)

  function Entry(skillIndex: int, info: SkillDisplayInfo, textColor: HexColor.Color,
                 now: int, ordinal: nat): (e: DrawnEntry)
    ensures e.skillIndex == skillIndex && e.ordinal == ordinal && e.textColor == textColor
    ensures 0.0 <= e.alpha <= 1.0
  {
    DrawnEntry(skillIndex, GetSkillSourceRect(skillIndex), XpText(info.progress, info.required),
               textColor, Fade.Alpha(ElapsedSeconds(info, now)), ordinal)
  }

  /** The entries a `Draw` pass at `now` paints, visiting the keys in `order`. */
  function Rendered(m: Store, order: seq<int>, textColor: HexColor.Color, now: int): (drawn: seq<DrawnEntry>)
    ensures |drawn| <= |order|
    decreases |order|
  {
    if order == [] then []
    else
      var drawn := Rendered(m, order[..|order| - 1], textColor, now);
      var k := order[|order| - 1];
      if k in m && !Expired(m[k], now) then drawn + [Entry(k, m[k], textColor, now, |drawn|)]
      else drawn
  }

  /** The live keys of `m`, in the order `order` visits them. */
  function LiveInOrder(m: Store, order: seq<int>, now: int): seq<int>
    decreases |order|
  {
    if order == [] then []
    else
      var live := LiveInOrder(m, order[..|order| - 1], now);
      var k := order[|order| - 1];
      if k in m && !Expired(m[k], now) then live + [k] else live
  }

  function SkillsOf(drawn: seq<DrawnEntry>): seq<int> {
    seq(|drawn|, j requires 0 <= j < |drawn| => drawn[j].skillIndex)
  }

  /** `order` visits every key of `m` exactly once: an enumeration of the dictionary. */
  predicate EnumeratesKeys(order: seq<int>, m: Store) {
    && (forall i, j :: 0 <= i < j < |order| ==> order[i] != order[j])
    && (forall i :: 0 <= i < |order| ==> order[i] in m)
    && (forall k :: k in m ==> k in order)
  }

  /** Drawn entries are numbered 0, 1, 2, ... in drawing order, they are exactly the
      live records in the order visited, and each shows its own record. */
  lemma {:induction false} RenderedEntries(m: Store, order: seq<int>, textColor: HexColor.Color, now: int)
    ensures SkillsOf(Rendered(m, order, textColor, now)) == LiveInOrder(m, order, now)
    ensures forall j :: 0 <= j < |Rendered(m, order, textColor, now)| ==>
      var e := Rendered(m, order, textColor, now)[j];
      && e.ordinal == j
      && e.skillIndex in m && !Expired(m[e.skillIndex], now)
      && e == Entry(e.skillIndex, m[e.skillIndex], textColor, now, j)
    decreases |order|
  {
    if order != [] {
      RenderedEntries(m, order[..|order| - 1], textColor, now);
    }
  }

  /** A key is among the live keys visited iff it is visited and its record is live;
      visiting each key once lists each live key once. */
  lemma {:induction false} LiveInOrderMembers(m: Store, order: seq<int>, now: int)
    ensures forall k :: k in LiveInOrder(m, order, now) <==> k in order && k in m && !Expired(m[k], now)
    ensures (forall i, j :: 0 <= i < j < |order| ==> order[i] != order[j]) ==>
      forall i, j :: 0 <= i < j < |LiveInOrder(m, order, now)| ==>
        LiveInOrder(m, order, now)[i] != LiveInOrder(m, order, now)[j]
    decreases |order|
  {
    if order != [] {
      var front := order[..|order| - 1];
      LiveInOrderMembers(m, front, now);
      assert order == front + [order[|order| - 1]];
    }
  }

  /** A pass over an enumeration of the store draws every record that survives the
      pruning exactly once and no pruned record at all. */
  lemma DrawsExactlySurvivors(m: Store, order: seq<int>, textColor: HexColor.Color, now: int)
    requires EnumeratesKeys(order, m)
    ensures forall k :: k in SkillsOf(Rendered(m, order, textColor, now)) <==> k in Pruned(m, now)
    ensures var skills := SkillsOf(Rendered(m, order, textColor, now));
      forall i, j :: 0 <= i < j < |skills| ==> skills[i] != skills[j]
  {
    RenderedEntries(m, order, textColor, now);
    LiveInOrderMembers(m, order, now);
  }

  /** Every record the store can reach lives between 3 and 3.5 s past its creation. */
  ghost predicate LifetimeBounded(m: Store) {
    forall k :: k in m ==>
      m[k].startTime + DisplayDuration <= m[k].displayUntil <= m[k].startTime + DisplayDuration + CoalesceWindow
  }

  /** No record was created later than `clock`. */
  ghost predicate CreatedBy(m: Store, clock: int) {
    forall k :: k in m ==> m[k].startTime <= clock
  }

  /** The events that reach the store: an XP gain forwarded to `UpdateSkillDisplay`
      or a rendered frame. */
  datatype Event =
    | Gain(skillIndex: int, skillName: string, currentLevel: int, progress: int, required: int, at: int)
    | Frame(at: int)

  function Apply(m: Store, e: Event): Store {
    match e
    case Gain(k, name, level, progress, required, at) => Updated(m, k, name, level, progress, required, at)
    case Frame(at) => Pruned(m, at)
  }

  function Replay(m: Store, events: seq<Event>): Store
    decreases |events|
  {
    if events == [] then m else Replay(Apply(m, events[0]), events[1..])
  }

  /** The clock never runs backwards: event times never decrease and start at `clock`. */
  predicate Chronological(events: seq<Event>, clock: int) {
    && (forall i :: 0 <= i < |events| ==> clock <= events[i].at)
    && (forall i, j :: 0 <= i < j < |events| ==> events[i].at <= events[j].at)
  }

  /** One step keeps every record's lifetime in [3 s, 3.5 s] past its creation. */
  lemma ApplyKeepsLifetime(m: Store, e: Event, clock: int)
    requires LifetimeBounded(m) && CreatedBy(m, clock) && clock <= e.at
    ensures LifetimeBounded(Apply(m, e)) && CreatedBy(Apply(m, e), e.at)
  {
  }

  /** With a clock that never decreases, every record ever in the store satisfies
      startTime + 3 s <= displayUntil <= startTime + 3.5 s. */
  lemma {:induction false} ReplayKeepsLifetime(m: Store, events: seq<Event>, clock: int)
    requires LifetimeBounded(m) && CreatedBy(m, clock)
    requires Chronological(events, clock)
    ensures LifetimeBounded(Replay(m, events))
    decreases |events|
  {
    if events != [] {
      ApplyKeepsLifetime(m, events[0], clock);
      var rest := events[1..];
      assert Chronological(rest, events[0].at) by {
        forall i | 0 <= i < |rest| ensures events[0].at <= rest[i].at {
          assert rest[i] == events[i + 1];
        }
        forall i, j | 0 <= i < j < |rest| ensures rest[i].at <= rest[j].at {
          assert rest[i] == events[i + 1] && rest[j] == events[j + 1];
        }
      }
      ReplayKeepsLifetime(Apply(m, events[0]), rest, events[0].at);
    }
  }

  /** The window is anchored to creation: updates at 0 s, 0.4 s and 0.6 s merge once
      and then replace the record, which restarts at 0.6 s. */
  lemma WindowAnchoredAtCreation(k: int, name: string, level: int)
    ensures var m1 := Updated(map[], k, name, level, 10, 100, 0);
            var m2 := Updated(m1, k, name, level, 20, 100, 4_000_000);
            var m3 := Updated(m2, k, name, level, 30, 100, 6_000_000);
            && m2[k] == SkillDisplayInfo(name, level, 20, 100, 34_000_000, 0)
            && m3[k] == SkillDisplayInfo(name, level, 30, 100, 36_000_000, 6_000_000)
  {
  }

  /** A record that is never merged into survives every pass before 3 s after its
      creation and none from then on. */
  lemma ExpiresAfterDuration(m: Store, k: int, name: string, level: int, progress: int,
                             required: int, created: int, now: int)
    requires k !in m
    ensures var m' := Updated(m, k, name, level, progress, required, created);
            k in Pruned(m', now) <==> now < created + DisplayDuration
  {
  }

  /** Farming at level 2 gains XP at 0 s (30/200) and at 0.2 s (45/200). At 2 s one
      entry shows "45/200" at full opacity. At 3.19 s the record is still drawn, fully
      faded, because the merge at 0.2 s moved its end to 3.2 s. At 3.2 s nothing is left. */
  lemma MergedFarmingScenario(textColor: HexColor.Color)
    ensures var m := Updated(Updated(map[], 0, "Farming", 2, 30, 200, 0), 0, "Farming", 2, 45, 200, 2_000_000);
      && m == map[0 := SkillDisplayInfo("Farming", 2, 45, 200, 32_000_000, 0)]
      && Rendered(m, [0], textColor, 20_000_000) == [DrawnEntry(0, Rectangle(0, 0, 16, 16), "45/200", textColor, 1.0, 0)]
      && Rendered(m, [0], textColor, 31_900_000) == [DrawnEntry(0, Rectangle(0, 0, 16, 16), "45/200", textColor, 0.0, 0)]
      && Pruned(m, 31_900_000) == m
      && Rendered(m, [0], textColor, 32_000_000) == []
      && Pruned(m, 32_000_000) == map[]
  {
    var info := SkillDisplayInfo("Farming", 2, 45, 200, 32_000_000, 0);
    var m := map[0 := info];
    assert NatToString(45) == "45" && NatToString(200) == "200";
    assert XpText(45, 200) == "45/200";
    Fade.AlphaShape(ElapsedSeconds(info, 20_000_000));
    Fade.AlphaShape(ElapsedSeconds(info, 31_900_000));
    assert [0][..0] == [];
    assert Pruned(m, 32_000_000).Keys == {};
  }

  /** The store once a pass has visited the keys in `visited`, removing each expired
      record it meets. */
  function PrunedAmong(m: Store, visited: seq<int>, now: int): Store
    decreases |visited|
  {
    if visited == [] then m
    else
      var before := PrunedAmong(m, visited[..|visited| - 1], now);
      var k := visited[|visited| - 1];
      if k in m && Expired(m[k], now) then before - {k} else before
  }

  lemma PruneStep(m: Store, visited: seq<int>, k: int, now: int)
    requires k in m
    ensures Expired(m[k], now) ==> PrunedAmong(m, visited + [k], now) == PrunedAmong(m, visited, now) - {k}
    ensures !Expired(m[k], now) ==> PrunedAmong(m, visited + [k], now) == PrunedAmong(m, visited, now)
  {
    assert (visited + [k])[..|visited|] == visited;
  }

  /** A record survives the visits exactly when it was not visited or is still live. */
  lemma {:induction false} PrunedAmongKeeps(m: Store, visited: seq<int>, now: int)
    ensures forall k :: k in PrunedAmong(m, visited, now) <==> k in m && (k !in visited || !Expired(m[k], now))
    ensures forall k :: k in PrunedAmong(m, visited, now) ==> PrunedAmong(m, visited, now)[k] == m[k]
    decreases |visited|
  {
    if visited != [] {
      var front := visited[..|visited| - 1];
      PrunedAmongKeeps(m, front, now);
      assert visited == front + [visited[|visited| - 1]];
      forall k ensures k in visited <==> k in front || k == visited[|visited| - 1] {
        assert k in visited <==> k in front + [visited[|visited| - 1]];
      }
    }
  }

  lemma PruneAll(m: Store, order: seq<int>, now: int)
    requires forall k :: k in m ==> k in order
    ensures PrunedAmong(m, order, now) == Pruned(m, now)
  {
    var p := PrunedAmong(m, order, now);
    PrunedAmongKeeps(m, order, now);
    forall k ensures k in p <==> k in Pruned(m, now) {
      if k in m {
        assert k in order;
      }
    }
    assert p.Keys == Pruned(m, now).Keys;
    assert forall k :: k in p ==> p[k] == Pruned(m, now)[k];
  }

  lemma RenderedSnoc(m: Store, visited: seq<int>, k: int, textColor: HexColor.Color, now: int)
    requires k in m
    ensures Expired(m[k], now) ==> Rendered(m, visited + [k], textColor, now) == Rendered(m, visited, textColor, now)
    ensures !Expired(m[k], now) ==>
      var drawn := Rendered(m, visited, textColor, now);
      Rendered(m, visited + [k], textColor, now) == drawn + [Entry(k, m[k], textColor, now, |drawn|)]
  {
    assert (visited + [k])[..|visited|] == visited;
  }

  class DisplayManager {
    var skillDisplays: Store

    constructor ()
      ensures skillDisplays == map[]
    {
      skillDisplays := map[];
    }

    /** Records a progress change for a skill at time `now`. */
    method UpdateSkillDisplay(skillIndex: int, skillName: string, currentLevel: int,
                              progress: int, required: int, now: int)
      modifies this
      ensures skillDisplays == Updated(old(skillDisplays), skillIndex, skillName, currentLevel,
                                       progress, required, now)
    {
      if skillIndex in skillDisplays {
        var existing := skillDisplays[skillIndex];
        if now - existing.startTime <= CoalesceWindow {
          skillDisplays := skillDisplays[skillIndex := existing.(progress := progress, required := required,
                                                                 displayUntil := now + DisplayDuration)];
          return;
        }
      }
      skillDisplays := skillDisplays[skillIndex := SkillDisplayInfo(skillName, currentLevel, progress, required,
                                                                    now + DisplayDuration, now)];
    }

    /** The body of `Draw` for one key of the enumeration: an expired record is removed,
        a live one is painted at stacking position `yOffset`. */
    method Visit(snapshot: Store, visited: seq<int>, skillIndex: int, configTextColor: string, now: int,
                 drawn: seq<DrawnEntry>, yOffset: nat)
      returns (drawn': seq<DrawnEntry>, yOffset': nat)
      requires skillIndex in snapshot
      requires drawn == Rendered(snapshot, visited, HexColor.HexToColor(configTextColor), now)
      requires yOffset == |drawn|
      requires skillDisplays == PrunedAmong(snapshot, visited, now)
      modifies this
      ensures drawn' == Rendered(snapshot, visited + [skillIndex], HexColor.HexToColor(configTextColor), now)
      ensures yOffset' == |drawn'|
      ensures skillDisplays == PrunedAmong(snapshot, visited + [skillIndex], now)
    {
      var entry := snapshot[skillIndex];
      var alpha := Fade.Alpha(ElapsedSeconds(entry, now));
      ghost var color := HexColor.HexToColor(configTextColor);
      PruneStep(snapshot, visited, skillIndex, now);
      RenderedSnoc(snapshot, visited, skillIndex, color, now);
      if now >= entry.displayUntil {
        skillDisplays := skillDisplays - {skillIndex};
        drawn', yOffset' := drawn, yOffset;
      } else {
        var xpText := XpText(entry.progress, entry.required);
        var textColor := HexColor.HexToColor(configTextColor);
        var e := DrawnEntry(skillIndex, GetSkillSourceRect(skillIndex), xpText, textColor, alpha, yOffset);
        drawn', yOffset' := drawn + [e], yOffset + 1;
      }
    }

    /** One frame at time `now`: visits the records in the dictionary's enumeration
        `order`, removes the expired ones and returns what is painted for the rest. */
    method Draw(order: seq<int>, configTextColor: string, now: int) returns (drawn: seq<DrawnEntry>)
      requires EnumeratesKeys(order, skillDisplays)
      modifies this
      ensures skillDisplays == Pruned(old(skillDisplays), now)
      ensures drawn == Rendered(old(skillDisplays), order, HexColor.HexToColor(configTextColor), now)
    {
      var snapshot := skillDisplays;
      var yOffset := 0;
      drawn := [];
      var i := 0;
      while i < |order|
        invariant 0 <= i <= |order|
        invariant drawn == Rendered(snapshot, order[..i], HexColor.HexToColor(configTextColor), now)
        invariant yOffset == |drawn|
        invariant skillDisplays == PrunedAmong(snapshot, order[..i], now)
      {
        assert order[..i + 1] == order[..i] + [order[i]];
        drawn, yOffset := Visit(snapshot, order[..i], order[i], configTextColor, now, drawn, yOffset);
        i := i + 1;
      }
      assert order[..i] == order;
      PruneAll(snapshot, order, now);
    }
  }
}

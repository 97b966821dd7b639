/** The main process's wiring: every event the classifier emits is handed to
    the aggregator. Plain keystrokes and combos are both counted as key
    presses, button 1 and button 2 as left and right clicks (other buttons are
    ignored), mouse samples as mouse movement and wheel events as scrolling.
    The tray and window refreshes that follow each event are not part of this
    model. */
module Wiring {
  import opened KeyNames
  import opened KeyTables
  import opened Classifier
  import opened Stats

  /** The label a key event is counted under. */
  function EventLabel(e: Event): (name: string)
    requires e.KeyStroke? || e.Combo?
    ensures e.KeyStroke? ==> name == GetKeyName(e.keycode)
    ensures e.Combo? ==> name == e.name
  {
    if e.KeyStroke? then KeyLabel(Code(e.keycode)) else KeyLabel(Name(e.name))
  }

  /** Hands one event to the aggregator. Only today's counters, the two
      tables, the last mouse sample and the pending-save flag can change;
      the history and the store are left alone. */
  method Route(stats: StatsManager, e: Event)
    requires stats.Valid()
    modifies stats`today, stats`keyStats, stats`totalKeyStats,
             stats`lastMouseX, stats`lastMouseY, stats`hasLastMouse, stats`savePending
    ensures stats.Valid()
    ensures e.KeyStroke? || e.Combo? ==>
      && stats.today == old(stats.today).(keyStrokes := old(stats.today.keyStrokes) + 1)
      && stats.keyStats == Bump(old(stats.keyStats), EventLabel(e))
      && stats.totalKeyStats == Bump(old(stats.totalKeyStats), EventLabel(e))
    ensures e.MouseDown? && e.button == 1 ==>
      stats.today == old(stats.today).(leftClicks := old(stats.today.leftClicks) + 1)
    ensures e.MouseDown? && e.button == 2 ==>
      stats.today == old(stats.today).(rightClicks := old(stats.today.rightClicks) + 1)
    ensures e.MouseDown? && e.button != 1 && e.button != 2 ==>
      stats.today == old(stats.today) && stats.savePending == old(stats.savePending)
    ensures e.MouseMove? ==>
      var squared := SquaredDistance(old(stats.lastMouseX), old(stats.lastMouseY), e.x, e.y);
      && stats.today == old(stats.today).(mouseDistance := old(stats.today.mouseDistance)
                          + if old(stats.hasLastMouse) && squared > 1 then [squared] else [])
      && stats.hasLastMouse && stats.lastMouseX == e.x && stats.lastMouseY == e.y
    ensures e.Wheel? ==>
      stats.today == old(stats.today).(scrollDistance := old(stats.today.scrollDistance)
                          + if e.delta < 0 then -e.delta else e.delta)
    ensures !e.KeyStroke? && !e.Combo? ==>
      stats.keyStats == old(stats.keyStats) && stats.totalKeyStats == old(stats.totalKeyStats)
    ensures !e.MouseMove? ==>
      && stats.lastMouseX == old(stats.lastMouseX) && stats.lastMouseY == old(stats.lastMouseY)
      && stats.hasLastMouse == old(stats.hasLastMouse)
    ensures stats.savePending == if e.MouseDown? && e.button != 1 && e.button != 2
                                 then old(stats.savePending) else true
    ensures stats.history == old(stats.history) && stats.stored == old(stats.stored)
  {
    match e
    case KeyStroke(keycode) =>
      stats.RecordKeyPress(Code(keycode));
    case Combo(name) =>
      stats.RecordKeyPress(Name(name));
    case MouseDown(button) =>
      if button == 1 {
        stats.RecordLeftClick();
      } else if button == 2 {
        stats.RecordRightClick();
      }
    case MouseMove(x, y) =>
      stats.RecordMouseMove(x, y);
    case Wheel(delta) =>
      stats.RecordScroll(delta);
  }

  /** A key going down, classified and then counted: a modifier on its own
      counts nothing yet and changes no statistic; any other key counts
      exactly one press, under its combo label (its own name when no
      modifier is held). */
  method KeyDown(mon: InputMonitor, stats: StatsManager, keycode: int) returns (emitted: seq<Event>)
    requires mon.Valid() && stats.Valid()
    modifies mon`activeModifiers, mon`modifierUsed
    modifies stats`today, stats`keyStats, stats`totalKeyStats,
             stats`lastMouseX, stats`lastMouseY, stats`hasLastMouse, stats`savePending
    ensures mon.Valid() && stats.Valid()
    ensures |emitted| == if IsModifier(keycode) then 0 else 1
    ensures stats.today.keyStrokes == old(stats.today.keyStrokes) + |emitted|
    ensures |emitted| == 0 ==>
      && stats.today == old(stats.today) && stats.savePending == old(stats.savePending)
      && stats.keyStats == old(stats.keyStats) && stats.totalKeyStats == old(stats.totalKeyStats)
    ensures |emitted| == 1 ==>
      var name := ComboName(old(mon.activeModifiers), keycode);
      && stats.today == old(stats.today).(keyStrokes := old(stats.today.keyStrokes) + 1)
      && stats.keyStats == Bump(old(stats.keyStats), name)
      && stats.totalKeyStats == Bump(old(stats.totalKeyStats), name)
      && stats.savePending
    ensures mon.activeModifiers
            == if IsModifier(keycode) then old(mon.activeModifiers) + {keycode} else old(mon.activeModifiers)
    ensures mon.modifierUsed
            == if IsModifier(keycode) then old(mon.modifierUsed) else old(mon.modifierUsed) + old(mon.activeModifiers)
    ensures stats.lastMouseX == old(stats.lastMouseX) && stats.lastMouseY == old(stats.lastMouseY)
    ensures stats.hasLastMouse == old(stats.hasLastMouse)
  {
    emitted := mon.OnKeyDown(keycode);
    if |emitted| == 1 {
      assert ComboModifiers({}) == [];
      Route(stats, emitted[0]);
    }
  }

  /** A key coming up, classified and then counted: a modifier released
      without having joined a combo counts one press, everything else none. */
  method KeyUp(mon: InputMonitor, stats: StatsManager, keycode: int) returns (emitted: seq<Event>)
    requires mon.Valid() && stats.Valid()
    modifies mon`activeModifiers, mon`modifierUsed
    modifies stats`today, stats`keyStats, stats`totalKeyStats,
             stats`lastMouseX, stats`lastMouseY, stats`hasLastMouse, stats`savePending
    ensures mon.Valid() && stats.Valid()
    ensures |emitted| == if IsModifier(keycode) && keycode !in old(mon.modifierUsed) then 1 else 0
    ensures stats.today.keyStrokes == old(stats.today.keyStrokes) + |emitted|
    ensures |emitted| == 0 ==>
      && stats.today == old(stats.today) && stats.savePending == old(stats.savePending)
      && stats.keyStats == old(stats.keyStats) && stats.totalKeyStats == old(stats.totalKeyStats)
    ensures |emitted| == 1 ==>
      && stats.today == old(stats.today).(keyStrokes := old(stats.today.keyStrokes) + 1)
      && stats.keyStats == Bump(old(stats.keyStats), GetKeyName(keycode))
      && stats.totalKeyStats == Bump(old(stats.totalKeyStats), GetKeyName(keycode))
      && stats.savePending
    ensures mon.activeModifiers == old(mon.activeModifiers) - (if IsModifier(keycode) then {keycode} else {})
    ensures mon.modifierUsed == old(mon.modifierUsed) - (if IsModifier(keycode) then {keycode} else {})
    ensures stats.lastMouseX == old(stats.lastMouseX) && stats.lastMouseY == old(stats.lastMouseY)
    ensures stats.hasLastMouse == old(stats.hasLastMouse)
  {
    emitted := mon.OnKeyUp(keycode);
    if |emitted| == 1 {
      Route(stats, emitted[0]);
    }
  }

  /** Holding one modifier and pressing a key, from a clean state: the
      modifier alone counts nothing, and the key counts one press under the
      combo label `<Mod> + <Key>` in both tables. */
  method HoldAndPress(mon: InputMonitor, stats: StatsManager, m: int, k: int)
    requires mon.Valid() && stats.Valid() && mon.activeModifiers == {}
    requires IsModifier(m) && !IsModifier(k)
    modifies mon`activeModifiers, mon`modifierUsed
    modifies stats`today, stats`keyStats, stats`totalKeyStats,
             stats`lastMouseX, stats`lastMouseY, stats`hasLastMouse, stats`savePending
    ensures mon.Valid() && stats.Valid()
    ensures mon.activeModifiers == {m} && m in mon.modifierUsed
    ensures stats.today == old(stats.today).(keyStrokes := old(stats.today.keyStrokes) + 1)
    ensures stats.keyStats == Bump(old(stats.keyStats), ModifierName(m) + " + " + GetKeyName(k))
    ensures stats.totalKeyStats == Bump(old(stats.totalKeyStats), ModifierName(m) + " + " + GetKeyName(k))
  {
    var e1 := KeyDown(mon, stats, m);
    var e2 := KeyDown(mon, stats, k);
    SingleModifier(m);
    assert Prefixed([ModifierName(m)], " + ") == ModifierName(m) + " + ";
  }

  /** A run of non-modifier keys typed with no modifier held raises today's
      keystroke count by exactly the number of keys, and each key's row by
      one per occurrence. */
  method TypePlainKeys(mon: InputMonitor, stats: StatsManager, keys: seq<int>)
    requires mon.Valid() && stats.Valid() && mon.activeModifiers == {}
    requires forall i :: 0 <= i < |keys| ==> !IsModifier(keys[i])
    modifies mon`activeModifiers, mon`modifierUsed
    modifies stats`today, stats`keyStats, stats`totalKeyStats,
             stats`lastMouseX, stats`lastMouseY, stats`hasLastMouse, stats`savePending
    ensures mon.Valid() && stats.Valid() && mon.activeModifiers == {}
    ensures stats.today.keyStrokes == old(stats.today.keyStrokes) + |keys|
    ensures forall name :: Count(stats.keyStats, name)
              == Count(old(stats.keyStats), name) + Occurrences(keys, name)
  {
    for i := 0 to |keys|
      invariant mon.Valid() && stats.Valid() && mon.activeModifiers == {}
      invariant stats.today.keyStrokes == old(stats.today.keyStrokes) + i
      invariant forall name :: Count(stats.keyStats, name)
                  == Count(old(stats.keyStats), name) + Occurrences(keys[..i], name)
    {
      ghost var before := stats.keyStats;
      var emitted := mon.OnKeyDown(keys[i]);
      Route(stats, emitted[0]);
      BumpSpec(before, GetKeyName(keys[i]));
      OccurrencesSnoc(keys, i);
    }
    assert keys[..|keys|] == keys;
  }

  /** How many of the keys carry the given label. */
  function Occurrences(keys: seq<int>, name: string): nat {
    if keys == [] then 0
    else Occurrences(keys[..|keys| - 1], name) + (if GetKeyName(keys[|keys| - 1]) == name then 1 else 0)
  }

  lemma OccurrencesSnoc(keys: seq<int>, i: nat)
    requires i < |keys|
    ensures forall name :: Occurrences(keys[..i + 1], name)
              == Occurrences(keys[..i], name) + (if GetKeyName(keys[i]) == name then 1 else 0)
  {
    assert keys[..i + 1][..i] == keys[..i];
  }
}

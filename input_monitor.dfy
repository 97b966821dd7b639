/** The event classifier: turns raw key, button, mouse-move and wheel callbacks
    of the platform hook into semantic events. Each handler returns the list of
    events it emits instead of firing them on an event emitter. */
module Classifier {
  import opened Wrappers
  import opened KeyNames

  /** The semantic events, one constructor per emitted event name. */
  datatype Event =
    | KeyStroke(keycode: int)    // 'keydown': a plain keystroke, raw keycode
    | Combo(name: string)        // 'combo': a labelled modifier combination
    | MouseDown(button: int)     // 'mousedown': raw button id (1 left, 2 right, 3 middle)
    | MouseMove(x: int, y: int)  // 'mousemove': absolute mouse position
    | Wheel(delta: int)          // 'wheel': scroll distance

  /** The eight physical modifier keys. */
  const ModifierCodes: set<int> :=
    {Ctrl, CtrlRight, Alt, AltRight, Shift, ShiftRight, Meta, MetaRight}

  /** A modifier key; every modifier has its own row in the label table. */
  function IsModifier(keycode: int): (modifier: bool)
    ensures modifier ==> KeyCodeMap(keycode).Some?
  {
    keycode in ModifierCodes
  }

  /** There are exactly eight modifier keycodes. */
  lemma ModifierCount()
    ensures |ModifierCodes| == 8
  {
  }

  /** The logical name of a modifier key; both physical variants share it.
      Non-modifiers get the empty name. */
  function ModifierName(keycode: int): (name: string)
    ensures name != "" <==> IsModifier(keycode)
    ensures name in {"", "Win", "Ctrl", "Alt", "Shift"}
  {
    if keycode == Ctrl || keycode == CtrlRight then "Ctrl"
    else if keycode == Alt || keycode == AltRight then "Alt"
    else if keycode == Shift || keycode == ShiftRight then "Shift"
    else if keycode == Meta || keycode == MetaRight then "Win"
    else ""
  }

  /** Left and right variants share their logical name, and the label table
      gives every modifier that same name. */
  lemma ModifierNamesAgree(keycode: int)
    requires IsModifier(keycode)
    ensures KeyCodeMap(keycode) == Some(ModifierName(keycode))
    ensures GetKeyName(keycode) == ModifierName(keycode)
    ensures ModifierName(Ctrl) == ModifierName(CtrlRight) == "Ctrl"
    ensures ModifierName(Alt) == ModifierName(AltRight) == "Alt"
    ensures ModifierName(Shift) == ModifierName(ShiftRight) == "Shift"
    ensures ModifierName(Meta) == ModifierName(MetaRight) == "Win"
  {
  }

  /** The fixed order in which modifier names appear in a combo label. */
  const ModifierOrder: seq<string> := ["Win", "Ctrl", "Alt", "Shift"]

  /** Some held key has the given logical modifier name. */
  predicate Held(active: set<int>, name: string) {
    exists k :: k in active && ModifierName(k) == name
  }

  /** Either physical variant of a modifier is held. */
  predicate EitherHeld(active: set<int>, left: int, right: int) {
    left in active || right in active
  }

  /** Only the two physical variants of a modifier carry its name. */
  lemma NamedVariants(keycode: int)
    ensures ModifierName(keycode) == "Win" ==> keycode == Meta || keycode == MetaRight
    ensures ModifierName(keycode) == "Ctrl" ==> keycode == Ctrl || keycode == CtrlRight
    ensures ModifierName(keycode) == "Alt" ==> keycode == Alt || keycode == AltRight
    ensures ModifierName(keycode) == "Shift" ==> keycode == Shift || keycode == ShiftRight
  {
  }

  /** A logical modifier is held exactly when one of its variants is. */
  lemma HeldByVariant(active: set<int>)
    ensures Held(active, "Win") <==> EitherHeld(active, Meta, MetaRight)
    ensures Held(active, "Ctrl") <==> EitherHeld(active, Ctrl, CtrlRight)
    ensures Held(active, "Alt") <==> EitherHeld(active, Alt, AltRight)
    ensures Held(active, "Shift") <==> EitherHeld(active, Shift, ShiftRight)
  {
    forall k | k in active {
      NamedVariants(k);
    }
    if EitherHeld(active, Meta, MetaRight) {
      assert ModifierName(Meta) == "Win" && ModifierName(MetaRight) == "Win";
    }
    if EitherHeld(active, Ctrl, CtrlRight) {
      assert ModifierName(Ctrl) == "Ctrl" && ModifierName(CtrlRight) == "Ctrl";
    }
    if EitherHeld(active, Alt, AltRight) {
      assert ModifierName(Alt) == "Alt" && ModifierName(AltRight) == "Alt";
    }
    if EitherHeld(active, Shift, ShiftRight) {
      assert ModifierName(Shift) == "Shift" && ModifierName(ShiftRight) == "Shift";
    }
  }

  function OrderIndex(name: string): nat {
    if name == "Win" then 0 else if name == "Ctrl" then 1 else if name == "Alt" then 2 else 3
  }

  /** The names of the held modifiers, taken in the order Win, Ctrl, Alt,
      Shift. */
  function ComboModifiers(active: set<int>): (names: seq<string>)
    ensures |names| <= 4
    ensures forall i :: 0 <= i < |names| ==> names[i] in ModifierOrder
    ensures (forall m :: m in ModifierCodes ==> m !in active) ==> names == []
  {
    (if EitherHeld(active, Meta, MetaRight) then ["Win"] else [])
    + (if EitherHeld(active, Ctrl, CtrlRight) then ["Ctrl"] else [])
    + (if EitherHeld(active, Alt, AltRight) then ["Alt"] else [])
    + (if EitherHeld(active, Shift, ShiftRight) then ["Shift"] else [])
  }

  /** The combo's modifier part holds the name of every held logical
      modifier and nothing else, each once, in the fixed order. */
  lemma ComboModifiersSpec(active: set<int>)
    ensures forall n :: n in ComboModifiers(active) <==> n in ModifierOrder && Held(active, n)
    ensures forall i, j :: 0 <= i < j < |ComboModifiers(active)| ==>
      OrderIndex(ComboModifiers(active)[i]) < OrderIndex(ComboModifiers(active)[j])
  {
    HeldByVariant(active);
    ComboOrdered(active);
  }

  /** The names come in strictly increasing fixed order. */
  predicate Ascending(names: seq<string>) {
    forall i, j :: 0 <= i < j < |names| ==> OrderIndex(names[i]) < OrderIndex(names[j])
  }

  lemma AscendingAppend(a: seq<string>, b: seq<string>, bound: nat)
    requires Ascending(a) && Ascending(b)
    requires forall i :: 0 <= i < |a| ==> OrderIndex(a[i]) < bound
    requires forall j :: 0 <= j < |b| ==> bound <= OrderIndex(b[j])
    ensures Ascending(a + b)
  {
  }

  /** The combo's modifier names come in strictly increasing order. */
  lemma ComboOrdered(active: set<int>)
    ensures Ascending(ComboModifiers(active))
  {
    var win := if EitherHeld(active, Meta, MetaRight) then ["Win"] else [];
    var ctrl := if EitherHeld(active, Ctrl, CtrlRight) then ["Ctrl"] else [];
    var alt := if EitherHeld(active, Alt, AltRight) then ["Alt"] else [];
    var shift := if EitherHeld(active, Shift, ShiftRight) then ["Shift"] else [];
    assert Ascending(win + ctrl) by {
      AscendingAppend(win, ctrl, 1);
    }
    assert Ascending(win + ctrl + alt) by {
      AscendingAppend(win + ctrl, alt, 2);
    }
    assert Ascending(win + ctrl + alt + shift) by {
      AscendingAppend(win + ctrl + alt, shift, 3);
    }
    assert ComboModifiers(active) == win + ctrl + alt + shift;
  }

  /** Every part followed by the separator. */
  function Prefixed(parts: seq<string>, sep: string): string {
    if parts == [] then "" else parts[0] + sep + Prefixed(parts[1..], sep)
  }

  /** Array.prototype.join over strings: the separator goes after every part
      but the last, and nothing follows the last. */
  function Join(parts: seq<string>, sep: string): (r: string)
    ensures parts == [] ==> r == ""
    ensures parts != [] ==> r == Prefixed(parts[..|parts| - 1], sep) + parts[|parts| - 1]
  {
    if |parts| == 0 then ""
    else if |parts| == 1 then parts[0]
    else
      assert parts[..|parts| - 1][1..] == parts[1..][..|parts| - 2];
      parts[0] + sep + Join(parts[1..], sep)
  }

  /** The label of a combo: held modifier names in fixed order, then the
      name of the pressed key, joined with " + ". So every held modifier
      name is followed by " + ", and the key's own name comes last. */
  function ComboName(active: set<int>, currentKey: int): (name: string)
    ensures name == Prefixed(ComboModifiers(active), " + ") + GetKeyName(currentKey)
  {
    var parts := ComboModifiers(active) + [GetKeyName(currentKey)];
    assert parts[..|parts| - 1] == ComboModifiers(active);
    Join(parts, " + ")
  }

  /** With no modifier held the label is just the key's name. */
  lemma ComboNameShape(active: set<int>, currentKey: int)
    ensures (forall n :: n in ModifierOrder ==> !Held(active, n))
            ==> ComboName(active, currentKey) == GetKeyName(currentKey)
  {
    if forall n :: n in ModifierOrder ==> !Held(active, n) {
      HeldByVariant(active);
      assert ComboModifiers(active) == [];
    }
  }

  /** The label depends only on which logical modifiers are held: neither
      press order nor which physical variant is held changes it. */
  lemma ComboNameLogical(a: set<int>, b: set<int>, currentKey: int)
    requires forall n :: n in ModifierOrder ==> (Held(a, n) <==> Held(b, n))
    ensures ComboName(a, currentKey) == ComboName(b, currentKey)
  {
    assert ModifierOrder[0] == "Win" && ModifierOrder[1] == "Ctrl";
    assert ModifierOrder[2] == "Alt" && ModifierOrder[3] == "Shift";
    HeldByVariant(a);
    HeldByVariant(b);
  }

  /** Ctrl and Shift held, in either order and either variant, then K. */
  lemma CtrlShiftLabel()
    ensures ComboName({Shift, Ctrl}, K) == "Ctrl + Shift + K"
    ensures ComboName({Ctrl, ShiftRight, CtrlRight}, K) == "Ctrl + Shift + K"
  {
    assert GetKeyName(K) == "K";
    assert ComboModifiers({Shift, Ctrl}) == ["Ctrl", "Shift"];
    assert ComboModifiers({Ctrl, ShiftRight, CtrlRight}) == ["Ctrl", "Shift"];
    assert Prefixed(["Ctrl", "Shift"], " + ") == "Ctrl + Shift + ";
  }

  /** A single held modifier contributes exactly its own name. */
  lemma SingleModifier(m: int)
    requires IsModifier(m)
    ensures ComboModifiers({m}) == [ModifierName(m)]
  {
  }

  /** The classifier's modifier state and its running flag. */
  class InputMonitor {
    var activeModifiers: set<int>
    var modifierUsed: set<int>
    var isRunning: bool

    /** Only modifiers are ever held, and a modifier is marked as used in a
        combo only while it is held. */
    ghost predicate Valid()
      reads this
    {
      modifierUsed <= activeModifiers && activeModifiers <= ModifierCodes
    }

    constructor ()
      ensures Valid()
      ensures activeModifiers == {} && modifierUsed == {} && !isRunning
    {
      activeModifiers := {};
      modifierUsed := {};
      isRunning := false;
    }

    /** Key-down: a modifier is only remembered; any other key is a combo
        when modifiers are held (which marks them all as used) and a plain
        keystroke otherwise. */
    method OnKeyDown(keycode: int) returns (emitted: seq<Event>)
      requires Valid()
      modifies this`activeModifiers, this`modifierUsed
      ensures Valid()
      ensures IsModifier(keycode) ==>
        && emitted == []
        && activeModifiers == old(activeModifiers) + {keycode}
        && modifierUsed == old(modifierUsed)
      ensures !IsModifier(keycode) && old(activeModifiers) != {} ==>
        && emitted == [Combo(ComboName(old(activeModifiers), keycode))]
        && activeModifiers == old(activeModifiers)
        && modifierUsed == old(modifierUsed) + old(activeModifiers)
      ensures !IsModifier(keycode) && old(activeModifiers) == {} ==>
        && emitted == [KeyStroke(keycode)]
        && activeModifiers == old(activeModifiers)
        && modifierUsed == old(modifierUsed)
    {
      if IsModifier(keycode) {
        activeModifiers := activeModifiers + {keycode};
        return [];
      }
      if |activeModifiers| > 0 {
        modifierUsed := modifierUsed + activeModifiers;
        var comboName := ComboName(activeModifiers, keycode);
        emitted := [Combo(comboName)];
      } else {
        emitted := [KeyStroke(keycode)];
      }
    }

    /** Key-up: a modifier released without having joined a combo counts as
        a keystroke of its own; either way it is forgotten. Releasing any
        other key does nothing. */
    method OnKeyUp(keycode: int) returns (emitted: seq<Event>)
      requires Valid()
      modifies this`activeModifiers, this`modifierUsed
      ensures Valid()
      ensures IsModifier(keycode) ==>
        && emitted == (if keycode in old(modifierUsed) then [] else [KeyStroke(keycode)])
        && activeModifiers == old(activeModifiers) - {keycode}
        && modifierUsed == old(modifierUsed) - {keycode}
      ensures !IsModifier(keycode) ==>
        && emitted == []
        && activeModifiers == old(activeModifiers)
        && modifierUsed == old(modifierUsed)
    {
      emitted := [];
      if IsModifier(keycode) {
        if keycode !in modifierUsed {
          emitted := [KeyStroke(keycode)];
        }
        activeModifiers := activeModifiers - {keycode};
        modifierUsed := modifierUsed - {keycode};
      }
    }

    /** A button press is passed on with its raw button id. */
    method OnMouseDown(button: int) returns (emitted: seq<Event>)
      ensures emitted == [MouseDown(button)]
    {
      emitted := [MouseDown(button)];
    }

    /** A mouse move is passed on with its absolute position. */
    method OnMouseMove(x: int, y: int) returns (emitted: seq<Event>)
      ensures emitted == [MouseMove(x, y)]
    {
      emitted := [MouseMove(x, y)];
    }

    /** A wheel rotation becomes a scroll distance of three units per notch,
        whatever its direction. */
    method OnWheel(rotation: int) returns (emitted: seq<Event>)
      ensures |emitted| == 1 && emitted[0].Wheel?
      ensures emitted[0].delta >= 0 && emitted[0].delta % 3 == 0
      ensures emitted[0].delta == 3 * (if rotation < 0 then -rotation else rotation)
    {
      var delta := (if rotation < 0 then -rotation else rotation) * 3;
      emitted := [Wheel(delta)];
    }

    /** Starting is a no-op when already running; otherwise the monitor runs
        iff the hook started. The modifier state is left as it is. */
    method Start(hookStarts: bool)
      modifies this`isRunning
      ensures isRunning == (old(isRunning) || hookStarts)
    {
      if isRunning {
        return;
      }
      if hookStarts {
        isRunning := true;
      }
    }

    /** Stopping is a no-op when not running; otherwise the monitor stops iff
        the hook stopped. The modifier state is NOT cleared. */
    method Stop(hookStops: bool)
      modifies this`isRunning
      ensures isRunning == (old(isRunning) && !hookStops)
    {
      if !isRunning {
        return;
      }
      if hookStops {
        isRunning := false;
      }
    }
  }

  /** Pressing and releasing a modifier that was not held emits exactly one
      keystroke for it, at release, and leaves the modifier state as it was. */
  method TapModifier(mon: InputMonitor, m: int) returns (emitted: seq<Event>)
    requires mon.Valid() && IsModifier(m) && m !in mon.activeModifiers
    modifies mon`activeModifiers, mon`modifierUsed
    ensures mon.Valid()
    ensures emitted == [KeyStroke(m)]
    ensures mon.activeModifiers == old(mon.activeModifiers)
    ensures mon.modifierUsed == old(mon.modifierUsed)
  {
    var down := mon.OnKeyDown(m);
    var up := mon.OnKeyUp(m);
    emitted := down + up;
  }

  /** Holding one modifier while pressing and releasing a non-modifier, then
      releasing the modifier, emits exactly one combo and no keystroke. */
  method ModifierCombo(mon: InputMonitor, m: int, k: int) returns (emitted: seq<Event>)
    requires mon.Valid() && mon.activeModifiers == {}
    requires IsModifier(m) && !IsModifier(k)
    modifies mon`activeModifiers, mon`modifierUsed
    ensures mon.Valid() && mon.activeModifiers == {} && mon.modifierUsed == {}
    ensures emitted == [Combo(ModifierName(m) + " + " + GetKeyName(k))]
  {
    var e1 := mon.OnKeyDown(m);
    var e2 := mon.OnKeyDown(k);
    var e3 := mon.OnKeyUp(k);
    var e4 := mon.OnKeyUp(m);
    emitted := e1 + e2 + e3 + e4;
    ComboNameShape({m}, k);
    SingleModifier(m);
    assert Prefixed([ModifierName(m)], " + ") == ModifierName(m) + " + ";
  }
}

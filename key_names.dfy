/** Key codes of the platform input hook and the table that turns them into
    the human-readable labels shown in the statistics panel.

    The constants are the virtual key codes of the uiohook-napi library
    (libuiohook's VC_* values); the library is not part of this model, and the
    proofs below rely only on these codes being pairwise distinct. */
module KeyNames {
  import opened Wrappers

  // Function keys
  const Escape := 0x0001
  const F1 := 0x003B
  const F2 := 0x003C
  const F3 := 0x003D
  const F4 := 0x003E
  const F5 := 0x003F
  const F6 := 0x0040
  const F7 := 0x0041
  const F8 := 0x0042
  const F9 := 0x0043
  const F10 := 0x0044
  const F11 := 0x0057
  const F12 := 0x0058

  // Digit row
  const Digit1 := 0x0002
  const Digit2 := 0x0003
  const Digit3 := 0x0004
  const Digit4 := 0x0005
  const Digit5 := 0x0006
  const Digit6 := 0x0007
  const Digit7 := 0x0008
  const Digit8 := 0x0009
  const Digit9 := 0x000A
  const Digit0 := 0x000B

  // Letters
  const A := 0x001E
  const B := 0x0030
  const C := 0x002E
  const D := 0x0020
  const E := 0x0012
  const F := 0x0021
  const G := 0x0022
  const H := 0x0023
  const I := 0x0017
  const J := 0x0024
  const K := 0x0025
  const L := 0x0026
  const M := 0x0032
  const N := 0x0031
  const O := 0x0018
  const P := 0x0019
  const Q := 0x0010
  const R := 0x0013
  const S := 0x001F
  const T := 0x0014
  const U := 0x0016
  const V := 0x002F
  const W := 0x0011
  const X := 0x002D
  const Y := 0x0015
  const Z := 0x002C

  // Modifiers, left and right physical variants
  const Shift := 0x002A
  const ShiftRight := 0x0036
  const Ctrl := 0x001D
  const CtrlRight := 0x0E1D
  const Alt := 0x0038
  const AltRight := 0x0E38
  const Meta := 0x0E5B
  const MetaRight := 0x0E5C

  // Editing and navigation keys
  const Space := 0x0039
  const Tab := 0x000F
  const Enter := 0x001C
  const Backspace := 0x000E
  const Delete := 0x0E53
  const Insert := 0x0E52
  const Home := 0x0E47
  const End := 0x0E4F
  const PageUp := 0x0E49
  const PageDown := 0x0E51
  const CapsLock := 0x003A

  // Arrows
  const ArrowUp := 0xE048
  const ArrowDown := 0xE050
  const ArrowLeft := 0xE04B
  const ArrowRight := 0xE04D

  // Punctuation
  const Minus := 0x000C
  const Equal := 0x000D
  const BracketLeft := 0x001A
  const BracketRight := 0x001B
  const Backslash := 0x002B
  const Semicolon := 0x0027
  const Quote := 0x0028
  const Backquote := 0x0029
  const Comma := 0x0033
  const Period := 0x0034
  const Slash := 0x0035

  /** The label table of the commonly used keys: the label of a listed
      keycode, None for every other keycode. Every label is non-empty. */
  function KeyCodeMap(keycode: int): (entry: Option<string>)
    ensures entry.Some? ==> |entry.value| >= 1
  {
    // function keys
    if keycode == Escape then Some("Esc") else
    if keycode == F1 then Some("F1") else
    if keycode == F2 then Some("F2") else
    if keycode == F3 then Some("F3") else
    if keycode == F4 then Some("F4") else
    if keycode == F5 then Some("F5") else
    if keycode == F6 then Some("F6") else
    if keycode == F7 then Some("F7") else
    if keycode == F8 then Some("F8") else
    if keycode == F9 then Some("F9") else
    if keycode == F10 then Some("F10") else
    if keycode == F11 then Some("F11") else
    if keycode == F12 then Some("F12") else
    // digit row
    if keycode == Digit1 then Some("1") else
    if keycode == Digit2 then Some("2") else
    if keycode == Digit3 then Some("3") else
    if keycode == Digit4 then Some("4") else
    if keycode == Digit5 then Some("5") else
    if keycode == Digit6 then Some("6") else
    if keycode == Digit7 then Some("7") else
    if keycode == Digit8 then Some("8") else
    if keycode == Digit9 then Some("9") else
    if keycode == Digit0 then Some("0") else
    // letters
    if keycode == A then Some("A") else
    if keycode == B then Some("B") else
    if keycode == C then Some("C") else
    if keycode == D then Some("D") else
    if keycode == E then Some("E") else
    if keycode == F then Some("F") else
    if keycode == G then Some("G") else
    if keycode == H then Some("H") else
    if keycode == I then Some("I") else
    if keycode == J then Some("J") else
    if keycode == K then Some("K") else
    if keycode == L then Some("L") else
    if keycode == M then Some("M") else
    if keycode == N then Some("N") else
    if keycode == O then Some("O") else
    if keycode == P then Some("P") else
    if keycode == Q then Some("Q") else
    if keycode == R then Some("R") else
    if keycode == S then Some("S") else
    if keycode == T then Some("T") else
    if keycode == U then Some("U") else
    if keycode == V then Some("V") else
    if keycode == W then Some("W") else
    if keycode == X then Some("X") else
    if keycode == Y then Some("Y") else
    if keycode == Z then Some("Z") else
    // modifiers: both variants share one label
    if keycode == Shift then Some("Shift") else
    if keycode == ShiftRight then Some("Shift") else
    if keycode == Ctrl then Some("Ctrl") else
    if keycode == CtrlRight then Some("Ctrl") else
    if keycode == Alt then Some("Alt") else
    if keycode == AltRight then Some("Alt") else
    if keycode == Meta then Some("Win") else
    if keycode == MetaRight then Some("Win") else
    // editing and navigation keys
    if keycode == Space then Some("Space") else
    if keycode == Tab then Some("Tab") else
    if keycode == Enter then Some("Enter") else
    if keycode == Backspace then Some("Backspace") else
    if keycode == Delete then Some("Delete") else
    if keycode == Insert then Some("Insert") else
    if keycode == Home then Some("Home") else
    if keycode == End then Some("End") else
    if keycode == PageUp then Some("PageUp") else
    if keycode == PageDown then Some("PageDown") else
    if keycode == CapsLock then Some("CapsLock") else
    // arrows
    if keycode == ArrowUp then Some("↑") else
    if keycode == ArrowDown then Some("↓") else
    if keycode == ArrowLeft then Some("←") else
    if keycode == ArrowRight then Some("→") else
    // punctuation
    if keycode == Minus then Some("-") else
    if keycode == Equal then Some("=") else
    if keycode == BracketLeft then Some("[") else
    if keycode == BracketRight then Some("]") else
    if keycode == Backslash then Some("\\") else
    if keycode == Semicolon then Some(";") else
    if keycode == Quote then Some("'") else
    if keycode == Backquote then Some("`") else
    if keycode == Comma then Some(",") else
    if keycode == Period then Some(".") else
    if keycode == Slash then Some("/") else
    None
  }

  predicate IsDigitChar(c: char) { '0' <= c <= '9' }

  /** The decimal digits of a natural number, most significant first, without
      leading zeros. */
  function DecimalDigits(n: nat): (s: string)
    ensures 1 <= |s|
    ensures forall i :: 0 <= i < |s| ==> IsDigitChar(s[i])
    ensures n < 10 <==> |s| == 1
    decreases n
  {
    if n < 10 then ['0' + n as char]
    else DecimalDigits(n / 10) + ['0' + (n % 10) as char]
  }

  /** A keycode rendered by a template literal: its decimal digits, with a
      leading '-' when it is negative. (JavaScript writes integers of 1e21
      and above in exponent form; keycodes are far below that.) */
  function Decimal(k: int): (s: string)
    ensures 1 <= |s|
    ensures s[0] == '-' <==> k < 0
  {
    if k < 0 then "-" + DecimalDigits(-k) else DecimalDigits(k)
  }

  /** Reads a string of decimal digits back as a number. */
  function ParseDigits(s: string): nat
    requires forall i :: 0 <= i < |s| ==> IsDigitChar(s[i])
  {
    if s == [] then 0
    else
      assert IsDigitChar(s[|s| - 1]);
      ParseDigits(s[..|s| - 1]) * 10 + (s[|s| - 1] as int - '0' as int)
  }

  /** Reads an optionally signed decimal back as an integer. */
  function ParseDecimal(s: string): int
    requires 1 <= |s|
    requires forall i :: 1 <= i < |s| ==> IsDigitChar(s[i])
    requires s[0] == '-' || IsDigitChar(s[0])
  {
    if s[0] == '-' then 0 - ParseDigits(s[1..]) as int else ParseDigits(s)
  }

  lemma {:induction false} DigitsRoundTrip(n: nat)
    ensures ParseDigits(DecimalDigits(n)) == n
    decreases n
  {
    if n >= 10 {
      DigitsRoundTrip(n / 10);
      var s := DecimalDigits(n);
      assert s[..|s| - 1] == DecimalDigits(n / 10);
    }
  }

  /** The decimal rendering of a keycode determines the keycode. */
  lemma DecimalRoundTrip(k: int)
    ensures ParseDecimal(Decimal(k)) == k
  {
    var s := Decimal(k);
    if k < 0 {
      var digits := DecimalDigits(-k);
      assert s == "-" + digits;
      assert s[1..] == digits;
      DigitsRoundTrip(-k);
    } else {
      DigitsRoundTrip(k);
    }
  }

  /** The label of a keycode: its entry in the label table, or "Key"
      followed by the decimal keycode when the table has none. (The lookup
      also falls back on an empty entry, as JavaScript's `||` does; the table
      has none, so the fallback is taken exactly for unlisted codes.) */
  function GetKeyName(keycode: int): (name: string)
    ensures KeyCodeMap(keycode).Some? ==> name == KeyCodeMap(keycode).value
    ensures KeyCodeMap(keycode).None? ==> name == "Key" + Decimal(keycode)
  {
    match KeyCodeMap(keycode)
    case Some(entry) => if entry != "" then entry else "Key" + Decimal(keycode)
    case None => "Key" + Decimal(keycode)
  }

  /** No key gets the empty label. */
  lemma KeyNameNonEmpty(keycode: int)
    ensures GetKeyName(keycode) != ""
  {
    if KeyCodeMap(keycode).None? {
      assert |GetKeyName(keycode)| >= 3;
    }
  }

  /** Two keycodes outside the table never share a fallback label. */
  lemma FallbackNamesDistinct(k1: int, k2: int)
    requires KeyCodeMap(k1).None? && KeyCodeMap(k2).None?
    requires GetKeyName(k1) == GetKeyName(k2)
    ensures k1 == k2
  {
    assert Decimal(k1) == GetKeyName(k1)[3..];
    assert Decimal(k2) == GetKeyName(k2)[3..];
    DecimalRoundTrip(k1);
    DecimalRoundTrip(k2);
  }
}

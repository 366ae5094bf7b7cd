/**
  core/hotkey.go: the global shortcut string ("Alt+Space") turned into the
  modifier mask and virtual-key code that RegisterHotKey takes.

  The listener's registration, message loop and callback are Win32 calls and
  are not modelled; what is modelled is the guard that decides whether the
  listener starts at all.
 */
module Hotkey {
  import opened Wrappers
  import opened Text

  const ModAlt: bv8 := 0x01
  const ModControl: bv8 := 0x02
  const ModShift: bv8 := 0x04
  const ModWin: bv8 := 0x08

  /** keyMap: SPACE, ENTER, ESC and TAB, the letters A to Z at their ASCII codes, and the
      function keys F1 to F12 at 0x70 to 0x7B; None for any other name. */
  function KeyCode(name: string): (code: Option<nat>)
    ensures code.Some? ==> 0 < code.value < 0x80
  {
    if name == "SPACE" then Some(0x20)
    else if name == "ENTER" then Some(0x0D)
    else if name == "ESC" then Some(0x1B)
    else if name == "TAB" then Some(0x09)
    else if |name| == 1 && 'A' <= name[0] <= 'Z' then Some(name[0] as int)
    else if |name| >= 2 && name[0] == 'F' && FunctionKey(name[1..]).Some? then
      Some(0x6F + FunctionKey(name[1..]).value)
    else None
  }

  /** The number of a function key, "1" to "12" without leading zero. */
  function FunctionKey(digits: string): (n: Option<int>)
    ensures n.Some? ==> 1 <= n.value <= 12
  {
    if |digits| == 1 && '1' <= digits[0] <= '9' then Some(digits[0] as int - '0' as int)
    else if |digits| == 2 && digits[0] == '1' && '0' <= digits[1] <= '2' then Some(10 + digits[1] as int - '0' as int)
    else None
  }

  /** The modifier a part names, or 0. */
  function ModifierOf(part: string): bv8 {
    if part == "ALT" then ModAlt
    else if part == "CTRL" || part == "CONTROL" then ModControl
    else if part == "SHIFT" then ModShift
    else if part == "WIN" || part == "CMD" then ModWin
    else 0
  }

  predicate IsModifier(part: string) {
    ModifierOf(part) != 0
  }

  /** The parts of the shortcut: upper-cased, split on '+', each trimmed. */
  function Parts(shortcut: string): (parts: seq<string>)
    ensures |parts| == |Split(Upper(shortcut), '+')|
    ensures forall i | 0 <= i < |parts| :: parts[i] == TrimSpace(Split(Upper(shortcut), '+')[i])
  {
    var raw := Split(Upper(shortcut), '+');
    seq(|raw|, i requires 0 <= i < |raw| => TrimSpace(raw[i]))
  }

  /** The modifier bits of the parts, OR-ed together. */
  function ModsOf(parts: seq<string>): bv8 {
    if parts == [] then 0 else ModsOf(parts[..|parts| - 1]) | ModifierOf(parts[|parts| - 1])
  }

  /** The code of the last part that is a key name and not a modifier, or 0. */
  function KeyOf(parts: seq<string>): nat {
    if parts == [] then 0
    else
      var p := parts[|parts| - 1];
      if !IsModifier(p) && KeyCode(p).Some? then KeyCode(p).value else KeyOf(parts[..|parts| - 1])
  }

  /** One case of parseHotkey's switch: a modifier name sets its bit, any other part sets
      the key when keyMap knows it. */
  method ParsePart(mods: bv8, key: nat, p: string) returns (mods': bv8, key': nat)
    ensures mods' == mods | ModifierOf(p)
    ensures key' == if !IsModifier(p) && KeyCode(p).Some? then KeyCode(p).value else key
  {
    mods', key' := mods, key;
    if p == "ALT" {
      mods' := mods | ModAlt;
    } else if p == "CTRL" || p == "CONTROL" {
      mods' := mods | ModControl;
    } else if p == "SHIFT" {
      mods' := mods | ModShift;
    } else if p == "WIN" || p == "CMD" {
      mods' := mods | ModWin;
    } else {
      var k := KeyCode(p);
      if k.Some? {
        key' := k.value;
      }
      assert mods | 0 == mods;
    }
  }

  /** parseHotkey: the shortcut's mask and key code (uintptr values, all below 0x80). */
  method ParseHotkey(shortcut: string) returns (mods: bv8, key: nat)
    ensures mods == ModsOf(Parts(shortcut)) && key == KeyOf(Parts(shortcut))
  {
    var parts := Split(Upper(shortcut), '+');
    ghost var trimmed := Parts(shortcut);
    mods, key := 0, 0;
    var i := 0;
    while i < |parts|
      invariant 0 <= i <= |parts|
      invariant mods == ModsOf(trimmed[..i]) && key == KeyOf(trimmed[..i])
    {
      var p := TrimSpace(parts[i]);
      PrefixStep(trimmed, i);
      mods, key := ParsePart(mods, key, p);
      i := i + 1;
    }
    assert trimmed[..i] == trimmed;
  }

  lemma PrefixStep(parts: seq<string>, i: nat)
    requires i < |parts|
    ensures ModsOf(parts[..i + 1]) == ModsOf(parts[..i]) | ModifierOf(parts[i])
    ensures KeyOf(parts[..i + 1]) == if !IsModifier(parts[i]) && KeyCode(parts[i]).Some? then KeyCode(parts[i]).value else KeyOf(parts[..i])
  {
    assert parts[..i + 1][..i] == parts[..i];
  }

  /** The mask with the bits of the given modifiers. */
  function MaskOf(alt: bool, control: bool, shift: bool, win: bool): bv8 {
    (if alt then ModAlt else 0) | (if control then ModControl else 0)
    | (if shift then ModShift else 0) | (if win then ModWin else 0)
  }

  lemma MaskStep(alt: bool, control: bool, shift: bool, win: bool, part: string)
    ensures MaskOf(alt, control, shift, win) | ModifierOf(part)
      == MaskOf(alt || part == "ALT", control || part == "CTRL" || part == "CONTROL",
                shift || part == "SHIFT", win || part == "WIN" || part == "CMD")
  {
  }

  /** The mask holds exactly the bits of the modifiers named somewhere in the parts. */
  lemma {:induction false} ModsOfNamed(parts: seq<string>)
    ensures ModsOf(parts) == MaskOf("ALT" in parts, "CTRL" in parts || "CONTROL" in parts,
                                    "SHIFT" in parts, "WIN" in parts || "CMD" in parts)
    decreases |parts|
  {
    if parts != [] {
      var init := parts[..|parts| - 1];
      var last := parts[|parts| - 1];
      ModsOfNamed(init);
      assert parts == init + [last];
      assert forall x :: x in parts <==> x in init || x == last;
      MaskStep("ALT" in init, "CTRL" in init || "CONTROL" in init, "SHIFT" in init, "WIN" in init || "CMD" in init, last);
    }
  }

  /** Only the four modifier bits can be set. */
  lemma ModsBelowSixteen(parts: seq<string>)
    ensures ModsOf(parts) < 16
  {
    ModsOfNamed(parts);
  }

  /** Order and repetition of the parts do not change the mask. */
  lemma ModsIgnoreOrder(parts: seq<string>, other: seq<string>)
    requires forall x :: x in parts <==> x in other
    ensures ModsOf(parts) == ModsOf(other)
  {
    ModsOfNamed(parts);
    ModsOfNamed(other);
  }

  /** A non-zero key is the code of a key-named part after which no part names a key. */
  lemma {:induction false} KeyIsLastKeyPart(parts: seq<string>)
    ensures KeyOf(parts) == 0 <==> forall i | 0 <= i < |parts| :: IsModifier(parts[i]) || KeyCode(parts[i]).None?
    ensures KeyOf(parts) != 0 ==> exists i | 0 <= i < |parts| ::
      && !IsModifier(parts[i]) && KeyCode(parts[i]) == Some(KeyOf(parts))
      && forall j | i < j < |parts| :: IsModifier(parts[j]) || KeyCode(parts[j]).None?
    decreases |parts|
  {
    if parts != [] {
      var init := parts[..|parts| - 1];
      KeyIsLastKeyPart(init);
      assert forall i | 0 <= i < |init| :: init[i] == parts[i];
    }
  }

  /** The letters map to their ASCII codes. */
  lemma LetterCodes(c: char)
    requires 'A' <= c <= 'Z'
    ensures KeyCode([c]) == Some(c as int) && 0x41 <= c as int <= 0x5A
  {
  }

  /** F1 to F9 and F10 to F12 map to 0x70 to 0x7B. */
  lemma FunctionKeyCodes(n: int)
    requires 1 <= n <= 12
    ensures n <= 9 ==> KeyCode(['F', (n + 48) as char]) == Some(0x6F + n)
    ensures n >= 10 ==> KeyCode(['F', '1', (n + 38) as char]) == Some(0x6F + n)
  {
    if n <= 9 {
      assert ['F', (n + 48) as char][1..] == [(n + 48) as char];
    } else {
      assert ['F', '1', (n + 38) as char][1..] == ['1', (n + 38) as char];
    }
  }

  /** StartHotkeyListener's guard: the listener starts, with the parsed mask and key, only
      when a key was recognised. */
  method StartHotkeyListener(shortcut: string) returns (registered: Option<(bv8, nat)>)
    ensures registered.None? <==> KeyOf(Parts(shortcut)) == 0
    ensures registered.Some? ==> registered.value == (ModsOf(Parts(shortcut)), KeyOf(Parts(shortcut)))
  {
    var mods, key := ParseHotkey(shortcut);
    if key == 0 {
      return None;
    }
    registered := Some((mods, key));
  }
}

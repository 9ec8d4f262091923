/**
 * Key-name resolution and the press/release/type sequences of the keyboard
 * controller. The input device is replaced by the trace of events it receives.
 */
module Keyboard {
  import opened Wrappers
  import opened Text

  datatype SpecialKey =
    | Enter | Tab | Backspace | Delete | Esc | Space | Home | End | PageUp | PageDown
    | Up | Down | Left | Right | Shift | Ctrl | Alt | AltGr | Cmd
    | CapsLock | NumLock | ScrollLock | PrintScreen | Insert
    | F1 | F2 | F3 | F4 | F5 | F6 | F7 | F8 | F9 | F10 | F11 | F12

  /** What the device is handed: a named key, or a character passed through as is. */
  datatype Key = Special(special: SpecialKey) | Char(c: char)

  /** `ValueError("Unknown key: ...")` */
  datatype KeyError = UnknownKey(name: string)

  /** One call on the input device. */
  datatype KeyEvent = Press(key: Key) | Release(key: Key) | Type(c: char)

  /** `SPECIAL_KEYS`: lower-case names, including the aliases, to special keys. */
  function SpecialKeys(name: string): (r: Option<SpecialKey>)
    ensures r.Some? ==> |name| >= 2
  {
    match name
    case "enter" => Some(Enter)
    case "return" => Some(Enter)
    case "tab" => Some(Tab)
    case "backspace" => Some(Backspace)
    case "delete" => Some(Delete)
    case "escape" => Some(Esc)
    case "esc" => Some(Esc)
    case "space" => Some(Space)
    case "home" => Some(Home)
    case "end" => Some(End)
    case "pageup" => Some(PageUp)
    case "pagedown" => Some(PageDown)
    case "up" => Some(Up)
    case "down" => Some(Down)
    case "left" => Some(Left)
    case "right" => Some(Right)
    case "shift" => Some(Shift)
    case "ctrl" => Some(Ctrl)
    case "control" => Some(Ctrl)
    case "alt" => Some(Alt)
    case "altgr" => Some(AltGr)
    case "win" => Some(Cmd)
    case "cmd" => Some(Cmd)
    case "capslock" => Some(CapsLock)
    case "numlock" => Some(NumLock)
    case "scrolllock" => Some(ScrollLock)
    case "print" => Some(PrintScreen)
    case "insert" => Some(Insert)
    case "f1" => Some(F1)
    case "f2" => Some(F2)
    case "f3" => Some(F3)
    case "f4" => Some(F4)
    case "f5" => Some(F5)
    case "f6" => Some(F6)
    case "f7" => Some(F7)
    case "f8" => Some(F8)
    case "f9" => Some(F9)
    case "f10" => Some(F10)
    case "f11" => Some(F11)
    case "f12" => Some(F12)
    case _ => None
  }

  /**
   * `_get_key`: the lower-cased name is looked up among the special keys; otherwise a
   * one-character name is passed through in its original case; anything else is an error.
   */
  function GetKey(name: string): (r: Result<Key, KeyError>)
    ensures r.Err? <==> |name| != 1 && SpecialKeys(Lower(name)).None?
    ensures r.Ok? && r.value.Special? ==> SpecialKeys(Lower(name)) == Some(r.value.special)
    ensures r.Ok? && r.value.Char? ==> name == [r.value.c]
  {
    match SpecialKeys(Lower(name))
    case Some(k) => Ok(Special(k))
    case None =>
      if |name| == 1 then Ok(Char(name[0])) else Err(UnknownKey(name))
  }

  /** A one-character name always resolves to that very character, case kept. */
  lemma SingleCharPassesThrough(name: string)
    requires |name| == 1
    ensures GetKey(name) == Ok(Char(name[0]))
  {
    if SpecialKeys(Lower(name)).Some? {
      assert false;
    }
  }

  /** Special names are case-insensitive: two spellings that lower-case alike resolve alike. */
  lemma SpecialNamesIgnoreCase(a: string, b: string)
    requires Lower(a) == Lower(b) && SpecialKeys(Lower(a)).Some?
    ensures GetKey(a) == GetKey(b) && GetKey(a).Ok?
  {
  }

  /** Two names of the special-key table that are already lower case resolve to the same key. */
  lemma {:induction false} AliasAgrees(a: string, b: string, k: SpecialKey)
    requires Lower(a) == a && Lower(b) == b
    requires SpecialKeys(a) == SpecialKeys(b) == Some(k)
    ensures GetKey(a) == GetKey(b) == Ok(Special(k))
  {
  }

  /** The aliases of the special-key table: `enter`/`return`, `esc`/`escape`, `ctrl`/`control`, `win`/`cmd`. */
  lemma AliasesAgree(a: string, b: string)
    requires (a, b) in {("enter", "return"), ("esc", "escape"), ("ctrl", "control"), ("win", "cmd")}
    ensures GetKey(a).Ok? && GetKey(a) == GetKey(b)
  {
    if a == "enter" {
      AliasAgrees("enter", "return", Enter);
    } else if a == "esc" {
      AliasAgrees("esc", "escape", Esc);
    } else if a == "ctrl" {
      AliasAgrees("ctrl", "control", Ctrl);
    } else {
      AliasAgrees("win", "cmd", Cmd);
    }
  }

  /** Resolve every name in order, failing at the first unknown one (`[self._get_key(k) for k in keys]`). */
  function ResolveAll(names: seq<string>): Result<seq<Key>, KeyError>
  {
    if names == [] then Ok([])
    else match GetKey(names[0])
      case Err(e) => Err(e)
      case Ok(k) =>
        match ResolveAll(names[1..])
        case Err(e) => Err(e)
        case Ok(ks) => Ok([k] + ks)
  }

  /**
   * Resolution succeeds exactly when every name resolves, and then yields each name's key in order;
   * otherwise it fails with the error of the first name that does not resolve.
   */
  lemma {:induction false} ResolveAllSpec(names: seq<string>)
    ensures ResolveAll(names).Ok? <==> forall i :: 0 <= i < |names| ==> GetKey(names[i]).Ok?
    ensures ResolveAll(names).Ok? ==> |ResolveAll(names).value| == |names|
    ensures ResolveAll(names).Ok? ==>
      forall i :: 0 <= i < |names| ==> GetKey(names[i]) == Ok(ResolveAll(names).value[i])
    ensures ResolveAll(names).Err? ==>
      exists i :: 0 <= i < |names| && GetKey(names[i]) == Err(ResolveAll(names).error) &&
        forall j :: 0 <= j < i ==> GetKey(names[j]).Ok?
  {
    if names != [] {
      ResolveAllSpec(names[1..]);
      assert forall i :: 1 <= i < |names| ==> names[i] == names[1..][i - 1];
      if GetKey(names[0]).Ok? && ResolveAll(names[1..]).Err? {
        var i :| 0 <= i < |names[1..]| && GetKey(names[1..][i]) == Err(ResolveAll(names[1..]).error) &&
          forall j :: 0 <= j < i ==> GetKey(names[1..][j]).Ok?;
        assert names[i + 1] == names[1..][i];
        assert forall j :: 0 <= j < i + 1 ==> GetKey(names[j]).Ok?;
      }
    }
  }

  /** The events of typing `text`, one per character. */
  function TypeEvents(text: string): seq<KeyEvent>
  {
    seq(|text|, i requires 0 <= i < |text| => Type(text[i]))
  }

  /** The characters typed by a trace, in order. */
  function Typed(trace: seq<KeyEvent>): string
  {
    if trace == [] then []
    else (if trace[0].Type? then [trace[0].c] else []) + Typed(trace[1..])
  }

  /** `type_text` types each character exactly once, in order. */
  lemma {:induction false} TypedTypeEvents(text: string)
    ensures Typed(TypeEvents(text)) == text
  {
    if text != [] {
      assert TypeEvents(text)[1..] == TypeEvents(text[1..]);
      TypedTypeEvents(text[1..]);
    }
  }

  /** The events of `tap_key`: `count` press-then-release pairs. */
  function TapEvents(k: Key, count: int): seq<KeyEvent>
    decreases count
  {
    if count <= 0 then [] else [Press(k), Release(k)] + TapEvents(k, count - 1)
  }

  /** A tap sequence is exactly `count` alternating press/release pairs of the one key. */
  lemma {:induction false} TapEventsShape(k: Key, count: int)
    ensures |TapEvents(k, count)| == if count <= 0 then 0 else 2 * count
    ensures forall i :: 0 <= i < |TapEvents(k, count)| ==>
      TapEvents(k, count)[i] == if i % 2 == 0 then Press(k) else Release(k)
  {
    if count > 0 {
      TapEventsShape(k, count - 1);
      var t := TapEvents(k, count);
      forall i | 2 <= i < |t|
        ensures t[i] == if i % 2 == 0 then Press(k) else Release(k)
      {
        assert t[i] == TapEvents(k, count - 1)[i - 2];
      }
    }
  }

  /** The presses of a key combination: every key, in the given order. */
  function Presses(keys: seq<Key>): seq<KeyEvent>
  {
    seq(|keys|, i requires 0 <= i < |keys| => Press(keys[i]))
  }

  /** The releases of a key combination: every key, last one first. */
  function ReleasesReversed(keys: seq<Key>): seq<KeyEvent>
  {
    seq(|keys|, i requires 0 <= i < |keys| => Release(keys[|keys| - 1 - i]))
  }

  /** Properly nested press/release brackets: the first key pressed is released last. */
  function Nested(keys: seq<Key>): seq<KeyEvent>
  {
    if keys == [] then [] else [Press(keys[0])] + Nested(keys[1..]) + [Release(keys[0])]
  }

  /** `key_combination`'s two loops produce properly nested brackets. */
  lemma {:induction false} CombinationIsNested(keys: seq<Key>)
    ensures Presses(keys) + ReleasesReversed(keys) == Nested(keys)
  {
    if keys != [] {
      var rest := keys[1..];
      CombinationIsNested(rest);
      assert Presses(keys) == [Press(keys[0])] + Presses(rest);
      assert ReleasesReversed(keys) == ReleasesReversed(rest) + [Release(keys[0])];
    }
  }

  /** The keyboard controller; `trace` is what its input device has received so far. */
  class KeyboardController {
    var trace: seq<KeyEvent>

    constructor ()
      ensures trace == []
    {
      trace := [];
    }

    /** `type_text`: one `type` call per character (the pause between characters is left out). */
    method TypeText(text: string)
      modifies this
      ensures trace == old(trace) + TypeEvents(text)
    {
      for i := 0 to |text|
        invariant trace == old(trace) + TypeEvents(text[..i])
      {
        assert TypeEvents(text[..i + 1]) == TypeEvents(text[..i]) + [Type(text[i])];
        trace := trace + [Type(text[i])];
      }
      assert text[..|text|] == text;
    }

    /** `press_key` */
    method PressKey(name: string) returns (r: Result<(), KeyError>)
      modifies this
      ensures r.Ok? <==> GetKey(name).Ok?
      ensures trace == if GetKey(name).Ok? then old(trace) + [Press(GetKey(name).value)] else old(trace)
    {
      match GetKey(name)
      case Err(e) => r := Err(e);
      case Ok(k) =>
        trace := trace + [Press(k)];
        r := Ok(());
    }

    /** `release_key` */
    method ReleaseKey(name: string) returns (r: Result<(), KeyError>)
      modifies this
      ensures r.Ok? <==> GetKey(name).Ok?
      ensures trace == if GetKey(name).Ok? then old(trace) + [Release(GetKey(name).value)] else old(trace)
    {
      match GetKey(name)
      case Err(e) => r := Err(e);
      case Ok(k) =>
        trace := trace + [Release(k)];
        r := Ok(());
    }

    /**
     * `tap_key`: `count` press/release pairs. An unknown name fails on the first press,
     * before any event; with `count <= 0` the name is never resolved and nothing happens.
     */
    method TapKey(name: string, count: int := 1) returns (r: Result<(), KeyError>)
      modifies this
      ensures r.Err? <==> count > 0 && GetKey(name).Err?
      ensures trace == if r.Ok? && count > 0 then old(trace) + TapEvents(GetKey(name).value, count) else old(trace)
    {
      var n := 0;
      while n < count
        invariant 0 <= n <= if count > 0 then count else 0
        invariant n > 0 ==> GetKey(name).Ok?
        invariant trace == if n == 0 then old(trace) else old(trace) + TapEvents(GetKey(name).value, n)
      {
        r := PressKey(name);
        if r.Err? {
          return;
        }
        r := ReleaseKey(name);
        ghost var k := GetKey(name).value;
        TapEventsAppend(k, n);
        n := n + 1;
      }
      r := Ok(());
    }

    /** `hold_key`: press, then release (the pause in between is left out). */
    method HoldKey(name: string) returns (r: Result<(), KeyError>)
      modifies this
      ensures r.Ok? <==> GetKey(name).Ok?
      ensures trace == if r.Ok? then old(trace) + TapEvents(GetKey(name).value, 1) else old(trace)
    {
      r := PressKey(name);
      if r.Err? {
        return;
      }
      r := ReleaseKey(name);
    }

    /**
     * `key_combination`: every name is resolved before anything is pressed; then the keys
     * are pressed in order and released in reverse order.
     */
    method KeyCombination(names: seq<string>) returns (r: Result<(), KeyError>)
      modifies this
      ensures r.Ok? <==> ResolveAll(names).Ok?
      ensures trace == if r.Ok? then old(trace) + Nested(ResolveAll(names).value) else old(trace)
    {
      var resolved := ResolveAll(names);
      if resolved.Err? {
        return Err(resolved.error);
      }
      var keys := resolved.value;
      PressAll(keys);
      ReleaseAllReversed(keys);
      CombinationIsNested(keys);
      r := Ok(());
    }

    /** The first loop of `key_combination`: press every key in order. */
    method PressAll(keys: seq<Key>)
      modifies this
      ensures trace == old(trace) + Presses(keys)
    {
      for i := 0 to |keys|
        invariant trace == old(trace) + Presses(keys[..i])
      {
        assert Presses(keys[..i + 1]) == Presses(keys[..i]) + [Press(keys[i])];
        trace := trace + [Press(keys[i])];
      }
      assert keys[..|keys|] == keys;
    }

    /** The second loop of `key_combination`: release every key, last one first. */
    method ReleaseAllReversed(keys: seq<Key>)
      modifies this
      ensures trace == old(trace) + ReleasesReversed(keys)
    {
      for i := 0 to |keys|
        invariant trace == old(trace) + ReleasesReversed(keys)[..i]
      {
        assert ReleasesReversed(keys)[..i + 1] == ReleasesReversed(keys)[..i] + [Release(keys[|keys| - 1 - i])];
        trace := trace + [Release(keys[|keys| - 1 - i])];
      }
      assert ReleasesReversed(keys)[..|keys|] == ReleasesReversed(keys);
    }
  }

  /** One more tap pair extends a tap sequence at its end. */
  lemma {:induction false} TapEventsAppend(k: Key, n: int)
    requires n >= 0
    ensures TapEvents(k, n + 1) == TapEvents(k, n) + [Press(k), Release(k)]
    decreases n
  {
    if n > 0 {
      TapEventsAppend(k, n - 1);
    }
  }
}

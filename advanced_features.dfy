/**
 * Recording, replay and script building: `ActionRecorder` appends actions while its recording
 * flag is set, `ActionPlayer.play` replays a list of recorded actions, and `ScriptBuilder`
 * collects steps by chained calls, runs them in order and renders them as a Python script.
 * Clock readings are parameters; the controller calls of `auto_controller` become effects.
 */
module AdvancedFeatures {
  import opened Wrappers

  // ---------------------------------------------------------------------------------------
  // Recorded actions

  /**
   * What a recorded action does, by its `type` tag. Fields a dictionary may omit are options;
   * a record whose tag is none of the five is `Unknown`.
   */
  datatype ActionKind =
    | MouseMove(x: int, y: int, duration: Option<real>)
    | MouseClick(button: Option<string>, atX: Option<int>, atY: Option<int>)
    | KeyPress(key: string)
    | TextInput(text: string)
    | Wait(duration: Option<real>)
    | Unknown(tag: Option<string>)

  /** A recorded action: its kind and, when present, its offset from the start of recording. */
  datatype Action = Action(kind: ActionKind, timestamp: Option<real>)

  /** The `type` tag a recorded action is stored under. */
  function Tag(k: ActionKind): Option<string>
  {
    match k
    case MouseMove(_, _, _) => Some("mouse_move")
    case MouseClick(_, _, _) => Some("mouse_click")
    case KeyPress(_) => Some("key_press")
    case TextInput(_) => Some("text_input")
    case Wait(_) => Some("wait")
    case Unknown(t) => t
  }

  /** The recorder of user actions. */
  class ActionRecorder {
    var actions: seq<Action>
    var startTime: Option<real>
    var recording: bool

    /** While recording, the start time is known. */
    ghost predicate Valid()
      reads this
    {
      recording ==> startTime.Some?
    }

    constructor()
      ensures Valid()
      ensures actions == [] && startTime == None && !recording
    {
      actions := [];
      startTime := None;
      recording := false;
    }

    /** Starts a fresh recording at clock reading `now`. */
    method StartRecording(now: real)
      modifies this
      ensures Valid()
      ensures actions == [] && startTime == Some(now) && recording
    {
      actions := [];
      startTime := Some(now);
      recording := true;
    }

    /** Stops recording and hands back the recorded actions, which stay in place. */
    method StopRecording() returns (recorded: seq<Action>)
      requires Valid()
      modifies this
      ensures Valid()
      ensures !recording && recorded == actions
      ensures actions == old(actions) && startTime == old(startTime)
    {
      recording := false;
      recorded := actions;
    }

    /** Appends `kind`, stamped with the time since the start, when recording; else does nothing. */
    method Record(kind: ActionKind, now: real)
      requires Valid()
      modifies this
      ensures Valid()
      ensures recording == old(recording) && startTime == old(startTime)
      ensures old(recording) ==> actions == old(actions) + [Action(kind, Some(now - startTime.value))]
      ensures !old(recording) ==> actions == old(actions)
    {
      if recording {
        actions := actions + [Action(kind, Some(now - startTime.value))];
      }
    }

    method RecordMouseMove(x: int, y: int, duration: real, now: real)
      requires Valid()
      modifies this
      ensures Valid()
      ensures recording == old(recording) && startTime == old(startTime)
      ensures old(recording) ==>
        actions == old(actions) + [Action(MouseMove(x, y, Some(duration)), Some(now - startTime.value))]
      ensures !old(recording) ==> actions == old(actions)
    {
      Record(MouseMove(x, y, Some(duration)), now);
    }

    method RecordMouseClick(button: string, x: Option<int>, y: Option<int>, now: real)
      requires Valid()
      modifies this
      ensures Valid()
      ensures recording == old(recording) && startTime == old(startTime)
      ensures old(recording) ==>
        actions == old(actions) + [Action(MouseClick(Some(button), x, y), Some(now - startTime.value))]
      ensures !old(recording) ==> actions == old(actions)
    {
      Record(MouseClick(Some(button), x, y), now);
    }

    method RecordKeyPress(key: string, now: real)
      requires Valid()
      modifies this
      ensures Valid()
      ensures recording == old(recording) && startTime == old(startTime)
      ensures old(recording) ==>
        actions == old(actions) + [Action(KeyPress(key), Some(now - startTime.value))]
      ensures !old(recording) ==> actions == old(actions)
    {
      Record(KeyPress(key), now);
    }

    method RecordTextInput(text: string, now: real)
      requires Valid()
      modifies this
      ensures Valid()
      ensures recording == old(recording) && startTime == old(startTime)
      ensures old(recording) ==>
        actions == old(actions) + [Action(TextInput(text), Some(now - startTime.value))]
      ensures !old(recording) ==> actions == old(actions)
    {
      Record(TextInput(text), now);
    }

    method RecordWait(duration: real, now: real)
      requires Valid()
      modifies this
      ensures Valid()
      ensures recording == old(recording) && startTime == old(startTime)
      ensures old(recording) ==>
        actions == old(actions) + [Action(ActionKind.Wait(Some(duration)), Some(now - startTime.value))]
      ensures !old(recording) ==> actions == old(actions)
    {
      Record(ActionKind.Wait(Some(duration)), now);
    }
  }

  /** Every action the recorder produces carries one of the five known tags and a timestamp. */
  lemma RecordedTagsKnown(k: ActionKind)
    requires !k.Unknown?
    ensures Tag(k).Some? && Tag(k).value in {"mouse_move", "mouse_click", "key_press", "text_input", "wait"}
  {
  }

  // ---------------------------------------------------------------------------------------
  // Replay

  /** What replay does to the outside world: a pause, or one controller call. */
  datatype Effect =
    | Sleep(seconds: real)
    | CallMoveMouse(x: int, y: int, duration: real)
    | CallClickMouse(atX: Option<int>, atY: Option<int>, button: string)
    | CallTapKey(key: string)
    | CallTypeText(text: string, interval: real)
    | CallWait(seconds: real)

  /** `play` divides by `speed`, so a zero speed raises before anything is replayed. */
  datatype PlayError = ZeroSpeed

  function GetOr<T>(o: Option<T>, default: T): T
  {
    match o
    case Some(v) => v
    case None => default
  }

  /** `action.get('timestamp', 0)`. */
  function Stamp(a: Action): real
  {
    GetOr(a.timestamp, 0.0)
  }

  /** The controller call one action dispatches to; an unknown tag dispatches nothing. */
  function Dispatch(k: ActionKind, speed: real): (r: seq<Effect>)
    requires speed != 0.0
    ensures |r| == if k.Unknown? then 0 else 1
    ensures forall e :: e in r ==> !e.Sleep?
  {
    match k
    case MouseMove(x, y, d) => [CallMoveMouse(x, y, GetOr(d, 0.0))]
    case MouseClick(b, x, y) => [CallClickMouse(x, y, GetOr(b, "left"))]
    case KeyPress(key) => [CallTapKey(key)]
    case TextInput(t) => [CallTypeText(t, 0.05)]
    case Wait(d) => [CallWait(GetOr(d, 0.5) / speed)]
    case Unknown(_) => []
  }

  /** The pause before an action: `time.sleep(diff)` only when the scaled gap is positive. */
  function Pause(diff: real): seq<Effect>
  {
    if diff > 0.0 then [Sleep(diff)] else []
  }

  /** What replaying one action does, the previous timestamp being `prev`. */
  function ActionEffects(a: Action, speed: real, prev: real): seq<Effect>
    requires speed != 0.0
  {
    Pause((Stamp(a) - prev) / speed) + Dispatch(a.kind, speed)
  }

  /** One pass over the list, the previous timestamp starting at `prev`. */
  function Pass(actions: seq<Action>, speed: real, prev: real): seq<Effect>
    requires speed != 0.0
    decreases |actions|
  {
    if actions == [] then []
    else ActionEffects(actions[0], speed, prev) + Pass(actions[1..], speed, Stamp(actions[0]))
  }

  /** The pass over a suffix starts with the effects of the suffix's first action. */
  lemma PassFrom(actions: seq<Action>, i: nat, speed: real, prev: real)
    requires i < |actions| && speed != 0.0
    ensures Pass(actions[i..], speed, prev) ==
      ActionEffects(actions[i], speed, prev) + Pass(actions[i + 1..], speed, Stamp(actions[i]))
  {
    assert actions[i..][1..] == actions[i + 1..];
  }

  /** Replaying action i after the effects `pass` of the earlier ones keeps the rest of the pass to come. */
  lemma ReplayStep(actions: seq<Action>, i: nat, speed: real, prev: real, pass: seq<Effect>, step: seq<Effect>)
    requires i < |actions| && speed != 0.0
    requires pass + Pass(actions[i..], speed, prev) == Pass(actions, speed, 0.0)
    requires step == ActionEffects(actions[i], speed, prev)
    ensures (pass + step) + Pass(actions[i + 1..], speed, Stamp(actions[i])) == Pass(actions, speed, 0.0)
  {
    PassFrom(actions, i, speed, prev);
    var rest := Pass(actions[i + 1..], speed, Stamp(actions[i]));
    assert pass + step + rest == pass + (step + rest);
  }

  /** `n` copies of `s`, one after another; none when `n <= 0`. */
  function Repeat<T>(s: seq<T>, n: int): seq<T>
    decreases n
  {
    if n <= 0 then [] else Repeat(s, n - 1) + s
  }

  /** What `play(speed, loop)` does: `loop` passes, each starting from timestamp 0. */
  function PlaySpec(actions: seq<Action>, speed: real, loops: int): Result<seq<Effect>, PlayError>
  {
    if loops <= 0 || actions == [] then Ok([])
    else if speed == 0.0 then Err(ZeroSpeed)
    else Ok(Repeat(Pass(actions, speed, 0.0), loops))
  }

  /** The player of recorded actions. */
  class ActionPlayer {
    var actions: seq<Action>

    constructor()
      ensures actions == []
    {
      actions := [];
    }

    method LoadActions(list: seq<Action>)
      modifies this
      ensures actions == list
    {
      actions := list;
    }

    /**
     * Replays the list `loops` times, pausing for the scaled gap between timestamps. A zero
     * speed raises at the first division of the first pass, before any effect.
     */
    method Play(speed: real := 1.0, loops: int := 1) returns (r: Result<seq<Effect>, PlayError>)
      ensures r == PlaySpec(actions, speed, loops)
    {
      var trace: seq<Effect> := [];
      var n := 0;
      while n < loops
        invariant 0 <= n <= if loops < 0 then 0 else loops
        invariant actions == [] || n == 0 ==> trace == []
        invariant actions != [] ==> speed != 0.0 || n == 0
        invariant speed != 0.0 ==> trace == Repeat(Pass(actions, speed, 0.0), n)
        decreases loops - n
      {
        if actions != [] && speed == 0.0 {
          return Err(ZeroSpeed);
        }
        var pass: seq<Effect> := [];
        if actions != [] {
          pass := ReplayOnce(speed);
        }
        trace := trace + pass;
        n := n + 1;
      }
      return Ok(trace);
    }

    /** One pass of `play`: the previous timestamp starts at 0 and follows each action. */
    method ReplayOnce(speed: real) returns (pass: seq<Effect>)
      requires speed != 0.0
      ensures pass == Pass(actions, speed, 0.0)
    {
      var prev := 0.0;
      pass := [];
      var i := 0;
      while i < |actions|
        invariant 0 <= i <= |actions|
        invariant pass + Pass(actions[i..], speed, prev) == Pass(actions, speed, 0.0)
      {
        var a := actions[i];
        var diff := (Stamp(a) - prev) / speed;
        var step: seq<Effect> := [];
        if diff > 0.0 {
          step := [Sleep(diff)];
        }
        step := step + Dispatch(a.kind, speed);
        assert step == ActionEffects(a, speed, prev);
        ReplayStep(actions, i, speed, prev, pass, step);
        pass := pass + step;
        prev := Stamp(a);
        i := i + 1;
      }
    }
  }

  /** The controller calls of a trace, pauses between actions removed. */
  function Calls(trace: seq<Effect>): (r: seq<Effect>)
    ensures forall e :: e in r ==> e in trace && !e.Sleep?
    decreases |trace|
  {
    if trace == [] then []
    else if trace[0].Sleep? then Calls(trace[1..])
    else [trace[0]] + Calls(trace[1..])
  }

  /** The calls of each action, in list order. */
  function DispatchAll(actions: seq<Action>, speed: real): (r: seq<Effect>)
    requires speed != 0.0
    decreases |actions|
  {
    if actions == [] then [] else Dispatch(actions[0].kind, speed) + DispatchAll(actions[1..], speed)
  }

  /** The number of actions with a known tag. */
  function KnownCount(actions: seq<Action>): nat
    decreases |actions|
  {
    if actions == [] then 0
    else (if actions[0].kind.Unknown? then 0 else 1) + KnownCount(actions[1..])
  }

  lemma {:induction false} CallsAppend(a: seq<Effect>, b: seq<Effect>)
    ensures Calls(a + b) == Calls(a) + Calls(b)
    decreases |a|
  {
    if a != [] {
      CallsAppend(a[1..], b);
      assert (a + b)[0] == a[0];
      assert (a + b)[1..] == a[1..] + b;
      if a[0].Sleep? {
        assert Calls(a + b) == Calls(a[1..] + b);
      } else {
        assert Calls(a + b) == [a[0]] + Calls(a[1..] + b);
      }
    } else {
      assert a + b == b;
    }
  }

  lemma {:induction false} CallsOfDispatch(k: ActionKind, speed: real)
    requires speed != 0.0
    ensures Calls(Dispatch(k, speed)) == Dispatch(k, speed)
  {
    var d := Dispatch(k, speed);
    if d != [] {
      assert d[1..] == [];
    }
  }

  /** Replaying one action calls exactly what it dispatches to. */
  lemma ActionCalls(a: Action, speed: real, prev: real)
    requires speed != 0.0
    ensures Calls(ActionEffects(a, speed, prev)) == Dispatch(a.kind, speed)
  {
    var pause := Pause((Stamp(a) - prev) / speed);
    CallsAppend(pause, Dispatch(a.kind, speed));
    CallsOfDispatch(a.kind, speed);
    assert Calls(pause) == [];
  }

  /**
   * Whatever the timestamps, one pass calls the controller once per known action, in list
   * order, and skips unknown tags.
   */
  lemma {:induction false} PassCalls(actions: seq<Action>, speed: real, prev: real)
    requires speed != 0.0
    ensures Calls(Pass(actions, speed, prev)) == DispatchAll(actions, speed)
    ensures |DispatchAll(actions, speed)| == KnownCount(actions)
    decreases |actions|
  {
    if actions != [] {
      var a := actions[0];
      PassCalls(actions[1..], speed, Stamp(a));
      CallsAppend(ActionEffects(a, speed, prev), Pass(actions[1..], speed, Stamp(a)));
      ActionCalls(a, speed, prev);
    }
  }

  lemma {:induction false} RepeatCalls(s: seq<Effect>, n: int)
    ensures Calls(Repeat(s, n)) == Repeat(Calls(s), n)
    decreases n
  {
    if n > 0 {
      RepeatCalls(s, n - 1);
      CallsAppend(Repeat(s, n - 1), s);
    }
  }

  /** `play` makes the calls of the whole list `loops` times over, in order. */
  lemma PlayCalls(actions: seq<Action>, speed: real, loops: int)
    requires speed != 0.0
    ensures PlaySpec(actions, speed, loops).Ok?
    ensures Calls(PlaySpec(actions, speed, loops).value) == Repeat(DispatchAll(actions, speed), loops)
  {
    if loops > 0 && actions != [] {
      RepeatCalls(Pass(actions, speed, 0.0), loops);
      PassCalls(actions, speed, 0.0);
    } else if loops > 0 {
      RepeatCalls(Pass(actions, speed, 0.0), loops);
      assert Pass(actions, speed, 0.0) == [];
      assert DispatchAll(actions, speed) == [];
    }
  }

  /** A zero speed fails as soon as there is something to replay, and only then. */
  lemma PlayFailsOnlyOnZeroSpeed(actions: seq<Action>, speed: real, loops: int)
    ensures PlaySpec(actions, speed, loops).Err? <==> speed == 0.0 && loops > 0 && actions != []
  {
  }

  /** The total pause time of a trace. */
  function Slept(trace: seq<Effect>): real
    decreases |trace|
  {
    if trace == [] then 0.0
    else (if trace[0].Sleep? then trace[0].seconds else 0.0) + Slept(trace[1..])
  }

  lemma {:induction false} SleptAppend(a: seq<Effect>, b: seq<Effect>)
    ensures Slept(a + b) == Slept(a) + Slept(b)
    decreases |a|
  {
    if a != [] {
      SleptAppend(a[1..], b);
      assert (a + b)[0] == a[0];
      assert (a + b)[1..] == a[1..] + b;
    } else {
      assert a + b == b;
    }
  }

  lemma {:induction false} SleptNoPause(d: seq<Effect>)
    requires forall e :: e in d ==> !e.Sleep?
    ensures Slept(d) == 0.0
    decreases |d|
  {
    if d != [] {
      assert d[0] in d;
      assert forall e :: e in d[1..] ==> e in d;
      SleptNoPause(d[1..]);
    }
  }

  /** Timestamps that never go backwards, starting from `prev`. */
  predicate Chronological(actions: seq<Action>, prev: real)
  {
    (actions != [] ==> prev <= Stamp(actions[0])) &&
    forall i :: 0 < i < |actions| ==> Stamp(actions[i - 1]) <= Stamp(actions[i])
  }

  /** The timestamp of the last action, or `prev` for an empty list. */
  function LastStamp(actions: seq<Action>, prev: real): real
  {
    if actions == [] then prev else Stamp(actions[|actions| - 1])
  }

  /**
   * Replaying chronological actions at a positive speed pauses, in total, the span of the
   * recording divided by the speed.
   */
  lemma {:induction false} PassPausesSpan(actions: seq<Action>, speed: real, prev: real)
    requires speed > 0.0
    requires Chronological(actions, prev)
    ensures Slept(Pass(actions, speed, prev)) == (LastStamp(actions, prev) - prev) / speed
    decreases |actions|
  {
    if actions != [] {
      var a := actions[0];
      var tail := actions[1..];
      assert Chronological(tail, Stamp(a)) by {
        if tail != [] {
          assert tail[0] == actions[1];
        }
        forall i | 0 < i < |tail|
          ensures Stamp(tail[i - 1]) <= Stamp(tail[i])
        {
          assert tail[i] == actions[i + 1] && tail[i - 1] == actions[i];
        }
      }
      PassPausesSpan(tail, speed, Stamp(a));
      assert Pass(actions, speed, prev) == ActionEffects(a, speed, prev) + Pass(tail, speed, Stamp(a));
      SleptAppend(ActionEffects(a, speed, prev), Pass(tail, speed, Stamp(a)));
      ActionSlept(a, speed, prev);
      var last := LastStamp(actions, prev);
      assert LastStamp(tail, Stamp(a)) == last;
      DivSum(Stamp(a) - prev, last - Stamp(a), speed);
    }
  }

  lemma DivSum(x: real, y: real, s: real)
    requires s != 0.0
    ensures x / s + y / s == (x + y) / s
  {
  }

  /** Replaying one action that is not earlier than `prev` pauses for the scaled gap. */
  lemma ActionSlept(a: Action, speed: real, prev: real)
    requires speed > 0.0 && prev <= Stamp(a)
    ensures Slept(ActionEffects(a, speed, prev)) == (Stamp(a) - prev) / speed
  {
    var diff := (Stamp(a) - prev) / speed;
    SleptAppend(Pause(diff), Dispatch(a.kind, speed));
    SleptNoPause(Dispatch(a.kind, speed));
    assert diff >= 0.0;
    if diff > 0.0 {
      assert Slept(Pause(diff)) == diff + Slept([]);
    }
  }

  // ---------------------------------------------------------------------------------------
  // Script building

  /** A script step: the controller call and its arguments. */
  datatype Step =
    | MoveMouse(x: int, y: int, duration: real)
    | Click(atX: Option<int>, atY: Option<int>, button: string, count: int)
    | TypeText(text: string, interval: real)
    | PressKey(key: string)
    | KeyCombo(keys: seq<string>)
    | Wait(duration: real)
    | Drag(x1: int, y1: int, x2: int, y2: int, duration: real)
    | Scroll(x: int, y: int, direction: int, amount: int)

  /** The `auto_controller` function a step is carried out by. */
  function Callee(s: Step): string
  {
    match s
    case MoveMouse(_, _, _) => "move_mouse"
    case Click(_, _, _, _) => "click_mouse"
    case TypeText(_, _) => "type_text"
    case PressKey(_) => "tap_key"
    case KeyCombo(_) => "key_combination"
    case Wait(_) => "wait"
    case Drag(_, _, _, _, _) => "drag_to"
    case Scroll(_, _, _, _) => "scroll_mouse"
  }

  /** The chained script builder. */
  class ScriptBuilder {
    var actions: seq<Step>

    constructor()
      ensures actions == []
    {
      actions := [];
    }

    method MoveMouse(x: int, y: int, duration: real := 0.5) returns (self: ScriptBuilder)
      modifies this
      ensures actions == old(actions) + [Step.MoveMouse(x, y, duration)] && self == this
    {
      actions := actions + [Step.MoveMouse(x, y, duration)];
      self := this;
    }

    method Click(x: Option<int> := None, y: Option<int> := None, button: string := "left", count: int := 1) returns (self: ScriptBuilder)
      modifies this
      ensures actions == old(actions) + [Step.Click(x, y, button, count)] && self == this
    {
      actions := actions + [Step.Click(x, y, button, count)];
      self := this;
    }

    method TypeText(text: string, interval: real := 0.05) returns (self: ScriptBuilder)
      modifies this
      ensures actions == old(actions) + [Step.TypeText(text, interval)] && self == this
    {
      actions := actions + [Step.TypeText(text, interval)];
      self := this;
    }

    method PressKey(key: string) returns (self: ScriptBuilder)
      modifies this
      ensures actions == old(actions) + [Step.PressKey(key)] && self == this
    {
      actions := actions + [Step.PressKey(key)];
      self := this;
    }

    method KeyCombo(keys: seq<string>) returns (self: ScriptBuilder)
      modifies this
      ensures actions == old(actions) + [Step.KeyCombo(keys)] && self == this
    {
      actions := actions + [Step.KeyCombo(keys)];
      self := this;
    }

    method Wait(duration: real := 1.0) returns (self: ScriptBuilder)
      modifies this
      ensures actions == old(actions) + [Step.Wait(duration)] && self == this
    {
      actions := actions + [Step.Wait(duration)];
      self := this;
    }

    method Drag(x1: int, y1: int, x2: int, y2: int, duration: real := 1.0) returns (self: ScriptBuilder)
      modifies this
      ensures actions == old(actions) + [Step.Drag(x1, y1, x2, y2, duration)] && self == this
    {
      actions := actions + [Step.Drag(x1, y1, x2, y2, duration)];
      self := this;
    }

    method Scroll(x: int, y: int, direction: int := 1, amount: int := 5) returns (self: ScriptBuilder)
      modifies this
      ensures actions == old(actions) + [Step.Scroll(x, y, direction, amount)] && self == this
    {
      actions := actions + [Step.Scroll(x, y, direction, amount)];
      self := this;
    }

    /**
     * Runs the steps in order. `fails(i)` says whether the controller call of step `i` raises;
     * the first one that does stops the run with `false`. `ran` lists the steps attempted.
     */
    method Execute(fails: nat -> bool) returns (success: bool, ran: seq<Step>)
      ensures success <==> forall i :: 0 <= i < |actions| ==> !fails(i)
      ensures success ==> ran == actions
      ensures !success ==> 0 < |ran| <= |actions| && ran == actions[..|ran|]
      ensures !success ==> fails(|ran| - 1) && forall i :: 0 <= i < |ran| - 1 ==> !fails(i)
    {
      ran := [];
      for i := 0 to |actions|
        invariant ran == actions[..i]
        invariant forall j :: 0 <= j < i ==> !fails(j)
      {
        ran := ran + [actions[i]];
        if fails(i) {
          return false, ran;
        }
      }
      success := true;
    }

    /**
     * The lines of the generated script and the text written, lines joined by newlines.
     * `generatedAt` is the formatted clock reading of the header; `fmt` renders a float.
     */
    method SaveAsCode(generatedAt: string, fmt: real -> string) returns (code: seq<string>, text: string)
      ensures code == Header(generatedAt) + ScriptBody(actions, fmt) + Trailer
      ensures text == Join(code, "\n")
    {
      var head := Header(generatedAt);
      code := head;
      for i := 0 to |actions|
        invariant code == head + ScriptBody(actions[..i], fmt)
      {
        assert actions[..i + 1][..i] == actions[..i];
        code := code + [StepLine(actions[i], fmt)];
      }
      assert actions[..|actions|] == actions;
      code := code + Trailer;
      text := Join(code, "\n");
    }
  }

  /** One generated line per step, in order. */
  function ScriptBody(steps: seq<Step>, fmt: real -> string): seq<string> {
    MapSeq(steps, s => StepLine(s, fmt))
  }

  function MapSeq<A, B>(xs: seq<A>, f: A -> B): (ys: seq<B>)
    ensures |ys| == |xs|
  {
    if xs == [] then [] else MapSeq(xs[..|xs| - 1], f) + [f(xs[|xs| - 1])]
  }

  lemma {:induction false} MapSeqIndex<A, B>(xs: seq<A>, f: A -> B)
    ensures forall i :: 0 <= i < |xs| ==> MapSeq(xs, f)[i] == f(xs[i])
  {
    if xs != [] {
      MapSeqIndex(xs[..|xs| - 1], f);
    }
  }

  /**
   * The generated script: the header, then line by line the rendering of
   * each step in order, then the trailer.
   */
  lemma ScriptLayout(head: seq<string>, steps: seq<Step>, fmt: real -> string)
    ensures var code := head + ScriptBody(steps, fmt) + Trailer;
      |code| == |head| + |steps| + |Trailer|
      && code[..|head|] == head
      && code[|head| + |steps|..] == Trailer
      && (forall i :: 0 <= i < |steps| ==> code[|head| + i] == StepLine(steps[i], fmt))
  {
    var body := ScriptBody(steps, fmt);
    var code := head + body + Trailer;
    assert code[..|head|] == head;
    assert code[|head| + |steps|..] == Trailer;
    forall i | 0 <= i < |steps|
      ensures code[|head| + i] == StepLine(steps[i], fmt)
    {
      assert code[|head| + i] == body[i];
      MapSeqIndex(steps, s => StepLine(s, fmt));
    }
  }

  // ---------------------------------------------------------------------------------------
  // Script rendering

  function DigitChar(d: nat): char
    requires d < 10
  {
    "0123456789"[d]
  }

  /** `str(n)` for a natural number. */
  function NatToString(n: nat): string
    decreases n
  {
    if n < 10 then [DigitChar(n)] else NatToString(n / 10) + [DigitChar(n % 10)]
  }

  /** `str(i)`. */
  function IntToString(i: int): string
  {
    if i < 0 then "-" + NatToString(-i) else NatToString(i)
  }

  /** `str(o)` for an optional integer: `None` prints as such. */
  function OptIntToString(o: Option<int>): string
  {
    match o
    case None => "None"
    case Some(i) => IntToString(i)
  }

  /** `sep.join(parts)`. */
  function Join(parts: seq<string>, sep: string): string
    decreases |parts|
  {
    if parts == [] then ""
    else if |parts| == 1 then parts[0]
    else parts[0] + sep + Join(parts[1..], sep)
  }

  /** A string put between single quotes as it is: quotes and backslashes inside are not escaped. */
  function Quoted(text: string): string
  {
    "'" + text + "'"
  }

  /** A generated call line: `    ac.name(arg, arg, ...)`. */
  function Call(name: string, args: seq<string>): string
  {
    "    ac." + name + "(" + Join(args, ", ") + ")"
  }

  /** The eleven header lines of a generated script. */
  function Header(generatedAt: string): (h: seq<string>)
    ensures |h| == 11
    ensures h[4] == "生成时间: " + generatedAt
    ensures h[7] == "import auto_controller as ac" && h[9] == "def main():"
  {
    [ "#!/usr/bin/env python3",
      "# -*- coding: utf-8 -*-",
      "\"\"\"",
      "自动生成的自动化脚本",
      "生成时间: " + generatedAt,
      "\"\"\"",
      "",
      "import auto_controller as ac",
      "",
      "def main():",
      "    \"\"\"执行自动化操作\"\"\"" ]
  }

  /** The three closing lines of a generated script. */
  const Trailer: seq<string> := ["", "if __name__ == '__main__':", "    main()"]

  /**
   * The line generated for one step, its arguments rendered by `str`, `fmt` or quoting: a
   * closed call of the controller function `execute` uses for the same step.
   */
  function StepLine(s: Step, fmt: real -> string): (line: string)
    ensures var call := "    ac." + Callee(s) + "(";
      |call| < |line| && line[..|call|] == call && line[|line| - 1] == ')'
  {
    match s
    case MoveMouse(x, y, d) =>
      var args := [IntToString(x), IntToString(y), fmt(d)];
      CallFramed("move_mouse", args);
      Call("move_mouse", args)
    case Click(x, y, button, count) =>
      var args := [OptIntToString(x), OptIntToString(y), Quoted(button), IntToString(count)];
      CallFramed("click_mouse", args);
      Call("click_mouse", args)
    case TypeText(text, interval) =>
      var args := [Quoted(text), "interval=" + fmt(interval)];
      CallFramed("type_text", args);
      Call("type_text", args)
    case PressKey(key) =>
      var args := [Quoted(key)];
      CallFramed("tap_key", args);
      Call("tap_key", args)
    case KeyCombo(keys) =>
      var args := seq(|keys|, i requires 0 <= i < |keys| => Quoted(keys[i]));
      CallFramed("key_combination", args);
      Call("key_combination", args)
    case Wait(d) =>
      var args := [fmt(d)];
      CallFramed("wait", args);
      Call("wait", args)
    case Drag(x1, y1, x2, y2, d) =>
      var args := [IntToString(x1), IntToString(y1), IntToString(x2), IntToString(y2), fmt(d)];
      CallFramed("drag_to", args);
      Call("drag_to", args)
    case Scroll(x, y, dir, amount) =>
      var args := [IntToString(x), IntToString(y), IntToString(dir), IntToString(amount)];
      CallFramed("scroll_mouse", args);
      Call("scroll_mouse", args)
  }

  /** A generated call line starts with `ac.`, the name and the opening parenthesis, and ends closed. */
  lemma CallFramed(name: string, args: seq<string>)
    ensures var line := Call(name, args);
      var head := "    ac." + name + "(";
      |head| < |line| && line[..|head|] == head && line[|line| - 1] == ')'
  {
    var head := "    ac." + name + "(";
    assert Call(name, args) == head + Join(args, ", ") + ")";
    assert Call(name, args)[..|head|] == head;
  }

  /** `text.split('\n')`. */
  function SplitLines(s: string): (r: seq<string>)
    ensures |r| >= 1
    decreases |s|
  {
    if s == [] then [""]
    else
      var t := SplitLines(s[1..]);
      if s[0] == '\n' then [""] + t else [[s[0]] + t[0]] + t[1..]
  }

  lemma {:induction false} SplitAfterLine(line: string, rest: string)
    requires forall i :: 0 <= i < |line| ==> line[i] != '\n'
    ensures SplitLines(line + "\n" + rest) == [line] + SplitLines(rest)
    decreases |line|
  {
    if line == [] {
      assert ("\n" + rest)[0] == '\n';
      assert ("\n" + rest)[1..] == rest;
    } else {
      var tail := line[1..];
      assert forall i :: 0 <= i < |tail| ==> tail[i] == line[i + 1];
      SplitAfterLine(tail, rest);
      var s := line + "\n" + rest;
      assert s[0] == line[0];
      assert s[1..] == tail + "\n" + rest;
      assert [line[0]] + tail == line;
    }
  }

  lemma {:induction false} SplitOneLine(line: string)
    requires forall i :: 0 <= i < |line| ==> line[i] != '\n'
    ensures SplitLines(line) == [line]
    decreases |line|
  {
    if line != [] {
      var tail := line[1..];
      assert forall i :: 0 <= i < |tail| ==> tail[i] == line[i + 1];
      SplitOneLine(tail);
      assert [line[0]] + tail == line;
    }
  }

  /** A line free of newlines. */
  predicate SingleLine(line: string)
  {
    forall i :: 0 <= i < |line| ==> line[i] != '\n'
  }

  /** When no line holds a newline, reading the written script back line by line gives the lines. */
  lemma {:induction false} SplitJoin(lines: seq<string>)
    requires lines != []
    requires forall k :: 0 <= k < |lines| ==> SingleLine(lines[k])
    ensures SplitLines(Join(lines, "\n")) == lines
    decreases |lines|
  {
    if |lines| == 1 {
      SplitOneLine(lines[0]);
    } else {
      var rest := lines[1..];
      assert forall k :: 0 <= k < |rest| ==> SingleLine(rest[k]) by {
        forall k | 0 <= k < |rest| ensures SingleLine(rest[k]) {
          assert rest[k] == lines[k + 1];
        }
      }
      SplitJoin(rest);
      assert SingleLine(lines[0]);
      SplitAfterLine(lines[0], Join(rest, "\n"));
      assert lines == [lines[0]] + rest;
    }
  }
}

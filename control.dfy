/**
 * The per-frame control flags of the display loop. The loop runs while
 * `endit` is false. At the top of a pass a key read from the console may
 * end the loop (ESC) or flip the overlay flag `track` (space); the frame is
 * then rendered, with the overlay drawn only while `track` holds; at the
 * bottom, the key polled from the display window may break out at once
 * (ESC) or flip `track` (space).
 */
module Control {
  import Overlay

  datatype Option<T> = None | Some(value: T)

  /** Key code of the escape key. */
  const ESC: int := 27
  /** Key code of the space bar. */
  const SPACE: int := 32

  /** The loop-local flags. */
  datatype Flags = Flags(endit: bool, track: bool)

  /** The flags before the first pass: running, overlay on. */
  const Initial: Flags := Flags(false, true)

  /** The key code returned by the window poll, narrowed to an 8-bit character. */
  function LowByte(k: int): (b: int)
    ensures 0 <= b < 256
    ensures exists q: int :: k == 256 * q + b
  {
    assert k == 256 * (k / 256) + k % 256;
    k % 256
  }

  /** The console key read at the top of a pass, if a key was hit. */
  function ConsoleKey(f: Flags, hit: Option<int>): (g: Flags)
    ensures g.endit != f.endit <==> hit == Some(ESC)
    ensures g.track != f.track <==> hit == Some(SPACE)
  {
    match hit
    case Some(c) =>
      if c == ESC then f.(endit := !f.endit)
      else if c == SPACE then f.(track := !f.track)
      else f
    case None => f
  }

  /** The window key polled at the bottom of a pass: None when the loop breaks. */
  function WindowKey(f: Flags, key: int): (r: Option<Flags>)
    ensures r.None? <==> LowByte(key) == ESC
    ensures r.Some? ==> r.value.endit == f.endit && (r.value.track != f.track <==> LowByte(key) == SPACE)
  {
    var c := LowByte(key);
    if c == ESC then None
    else if c == SPACE then Some(f.(track := !f.track))
    else Some(f)
  }

  /** The inputs of one pass: the console key, the window key and the tracker's users. */
  datatype PassInput = PassInput(console: Option<int>, window: int, users: seq<Overlay.UserView>)

  /** What one pass produces: the segments drawn and the flags to go on with, if any. */
  datatype PassOutput = PassOutput(drawn: seq<Overlay.Segment>, next: Option<Flags>)

  /** The flags after one pass, or None when the loop stops after it. */
  function NextFlags(f: Flags, input: PassInput): (r: Option<Flags>)
    ensures r.None? <==> ConsoleKey(f, input.console).endit || LowByte(input.window) == ESC
    ensures r.Some? ==> !r.value.endit && r.value.track == (if Spaces(input) % 2 == 0 then f.track else !f.track)
  {
    match WindowKey(ConsoleKey(f, input.console), input.window)
    case None => None
    case Some(h) => if h.endit then None else Some(h)
  }

  /** One pass of the loop, entered with `endit` false. */
  function Pass(f: Flags, input: PassInput): (r: PassOutput)
    ensures |r.drawn| == if ConsoleKey(f, input.console).track then 6 * |Overlay.Tracked(input.users)| else 0
    ensures !f.endit ==> (r.next.None? <==> !NoEscape(input))
  {
    PassOutput(Overlay.Overlay(ConsoleKey(f, input.console).track, input.users), NextFlags(f, input))
  }

  /** Whether an input carries no escape key. */
  predicate NoEscape(input: PassInput)
  {
    input.console != Some(ESC) && LowByte(input.window) != ESC
  }

  /** Number of space presses in a pass. */
  function Spaces(input: PassInput): nat
  {
    (if input.console == Some(SPACE) then 1 else 0) + (if LowByte(input.window) == SPACE then 1 else 0)
  }

  /** Runs passes while the loop goes on; returns the flags after the inputs, or None once it stopped. */
  function Session(f: Flags, inputs: seq<PassInput>): (r: Option<Flags>)
    ensures r.Some? && inputs != [] ==> !r.value.endit
    ensures !f.endit && (forall i :: 0 <= i < |inputs| ==> NoEscape(inputs[i])) ==> r.Some?
    decreases |inputs|
  {
    if inputs == [] then Some(f)
    else
      assert forall i :: 0 <= i < |inputs| - 1 ==> inputs[1..][i] == inputs[i + 1];
      match NextFlags(f, inputs[0])
      case None => None
      case Some(g) => Session(g, inputs[1..])
  }

  /** Number of space presses over a sequence of passes. */
  function TotalSpaces(inputs: seq<PassInput>): nat
  {
    if inputs == [] then 0 else Spaces(inputs[0]) + TotalSpaces(inputs[1..])
  }

  // ---------------------------------------------------------------------------
  // Lemmas
  // ---------------------------------------------------------------------------

  /** Space flips the overlay flag and nothing else; two flips restore it. */
  lemma SpaceFlipsTrack(f: Flags)
    ensures ConsoleKey(f, Some(SPACE)) == Flags(f.endit, !f.track)
    ensures WindowKey(f, SPACE) == Some(Flags(f.endit, !f.track))
    ensures ConsoleKey(ConsoleKey(f, Some(SPACE)), Some(SPACE)) == f
  {
  }

  /** Any key other than ESC and space, and no key at all, leave the flags alone. */
  lemma OtherKeysIgnored(f: Flags, c: int, k: int)
    requires c != ESC && c != SPACE
    requires LowByte(k) != ESC && LowByte(k) != SPACE
    ensures ConsoleKey(f, Some(c)) == f && ConsoleKey(f, None) == f
    ensures WindowKey(f, k) == Some(f)
  {
  }

  /**
   * ESC from either source ends the loop after this pass, and the frame of
   * this pass is still drawn; otherwise the loop goes on with `endit` false.
   */
  lemma EscapeEndsLoop(f: Flags, input: PassInput)
    requires !f.endit
    ensures Pass(f, input).next == None <==> !NoEscape(input)
    ensures Pass(f, input).next.Some? ==> !Pass(f, input).next.value.endit
    ensures Pass(f, input).drawn == Overlay.Overlay(ConsoleKey(f, input.console).track, input.users)
  {
  }

  /**
   * A window key code is read by its low byte: every code whose low byte is
   * ESC breaks and every code whose low byte is space flips `track`, so 256 + 27
   * breaks like ESC.
   */
  lemma WindowKeyLowByte(f: Flags, k: int)
    ensures LowByte(k) == ESC ==> WindowKey(f, k) == None
    ensures LowByte(k) == SPACE ==> WindowKey(f, k) == Some(f.(track := !f.track))
    ensures WindowKey(f, 256 + ESC) == None
    ensures WindowKey(f, -256 + SPACE) == Some(f.(track := !f.track))
  {
  }

  /** The overlay is drawn in a pass exactly when `track` holds after the console key. */
  lemma OverlayOnlyWhenTracking(f: Flags, input: PassInput)
    ensures !ConsoleKey(f, input.console).track ==> Pass(f, input).drawn == []
    ensures ConsoleKey(f, input.console).track ==>
      |Pass(f, input).drawn| == 6 * |Overlay.Tracked(input.users)|
  {
  }

  /** A pass without ESC goes on, with `track` flipped once per space press. */
  lemma PassWithoutEscape(f: Flags, input: PassInput)
    requires !f.endit && NoEscape(input)
    ensures NextFlags(f, input) == Some(Flags(false, if Spaces(input) % 2 == 0 then f.track else !f.track))
  {
  }

  /**
   * Over passes without ESC the loop keeps running, and the overlay flag is
   * the starting one flipped once per space press.
   */
  lemma {:induction false} TrackParity(f: Flags, inputs: seq<PassInput>)
    requires !f.endit
    requires forall i :: 0 <= i < |inputs| ==> NoEscape(inputs[i])
    ensures Session(f, inputs).Some?
    ensures !Session(f, inputs).value.endit
    ensures Session(f, inputs).value.track == (if TotalSpaces(inputs) % 2 == 0 then f.track else !f.track)
    decreases |inputs|
  {
    if inputs != [] {
      PassWithoutEscape(f, inputs[0]);
      var h := NextFlags(f, inputs[0]).value;
      var rest := inputs[1..];
      assert forall i :: 0 <= i < |rest| ==> rest[i] == inputs[i + 1];
      TrackParity(h, rest);
      assert Session(f, inputs) == Session(h, rest);
      assert TotalSpaces(inputs) == Spaces(inputs[0]) + TotalSpaces(rest);
    }
  }

  /**
   * From the loop's start (running, overlay on), after passes without ESC the
   * overlay is on exactly when an even number of spaces was pressed.
   */
  lemma OverlayAfterSpaces(inputs: seq<PassInput>)
    requires forall i :: 0 <= i < |inputs| ==> NoEscape(inputs[i])
    ensures Session(Initial, inputs).Some?
    ensures Session(Initial, inputs).value.track <==> TotalSpaces(inputs) % 2 == 0
  {
    TrackParity(Initial, inputs);
  }
}

/**
 * What the translator sends to the editing engine: mouse events, key
 * presses for the active buffer's mode handler, and global mode switches.
 */
module Events {
  import opened Keys
  import opened Modifiers

  /** A mouse position; the translator only passes it on. */
  datatype Vec2 = Vec2(x: real, y: real)

  datatype MouseButton = Left | Right

  /** The two editing modes the chord shortcuts select. */
  datatype ModeName = Standard | Vim

  datatype Event =
    | MouseMove(pos: Vec2)
    | MouseDown(pos: Vec2, button: MouseButton)
    | MouseUp(pos: Vec2, button: MouseButton)
    | MouseWheel(pos: Vec2, delta: real)
    | KeyPress(code: KeyCode, mods: Mask)
    | SetGlobalMode(mode: ModeName)
  {
    predicate IsMouse() { MouseMove? || MouseDown? || MouseUp? || MouseWheel? }
  }

  /** One KeyPress per code, in order, all with the same modifiers. */
  function Presses(codes: seq<KeyCode>, mods: Mask): (r: seq<Event>)
    ensures |r| == |codes|
    ensures forall i :: 0 <= i < |codes| ==> r[i] == KeyPress(codes[i], mods)
    ensures forall ev :: ev in r ==> ev.KeyPress? && ev.mods == mods && ev.code in codes
  {
    if codes == [] then []
    else Presses(codes[..|codes| - 1], mods) + [KeyPress(codes[|codes| - 1], mods)]
  }

  /** The global mode after a run of events: the last mode switched to, else the mode before. */
  function ModeAfter(m: ModeName, evs: seq<Event>): (r: ModeName)
    ensures (forall ev :: ev in evs ==> !ev.SetGlobalMode?) ==> r == m
    ensures r == m || SetGlobalMode(r) in evs
  {
    if evs == [] then m
    else if evs[|evs| - 1].SetGlobalMode? then evs[|evs| - 1].mode
    else ModeAfter(m, evs[..|evs| - 1])
  }

  /** Concatenating three sequences gives the same sequence however it is grouped. */
  lemma AppendAssoc<T>(a: seq<T>, b: seq<T>, c: seq<T>)
    ensures (a + b) + c == a + (b + c)
  {
  }

  /** Switching modes is an overwrite: a later run of events starts from the mode an earlier one left. */
  lemma {:induction false} ModeAfterConcat(m: ModeName, a: seq<Event>, b: seq<Event>)
    ensures ModeAfter(m, a + b) == ModeAfter(ModeAfter(m, a), b)
  {
    if b == [] {
      assert a + b == a;
    } else {
      assert (a + b)[..|a + b| - 1] == a + b[..|b| - 1];
      ModeAfterConcat(m, a, b[..|b| - 1]);
    }
  }
}

/**
 * The meaning of one call of ZepEditor_ImGui::HandleInput, as functions of
 * the frame's host input: the events it sends to the engine and the host
 * flags it clears. The imperative code in module EditorImGui is proved to
 * do exactly this; module Properties proves what it amounts to.
 */
module Translate {
  import opened Keys
  import opened Modifiers
  import opened Events

  datatype Option<T> = None | Some(value: T)

  /** A decoded character in the host's input queue (ImWchar). */
  type ImWchar = nat

  const CarriageReturn: ImWchar := '\r' as nat

  /** The part of the host's per-frame input snapshot that HandleInput reads. */
  datatype HostState = HostState(
    mousePos: Vec2,
    mouseDelta: Vec2,
    leftClicked: bool,     // MouseClicked[0]
    rightClicked: bool,    // MouseClicked[1]
    leftReleased: bool,    // MouseReleased[0]
    rightReleased: bool,   // MouseReleased[1]
    mouseWheel: real,
    keyCtrl: bool,
    keyAlt: bool,
    keyShift: bool,
    inputQueue: seq<ImWchar>)

  /**
   * What the engine answers during the frame: whether each mouse handler
   * consumed its event, and whether GetActiveBuffer found a buffer.
   */
  datatype EngineReplies = EngineReplies(
    leftDownHandled: bool,
    rightDownHandled: bool,
    leftUpHandled: bool,
    rightUpHandled: bool,
    wheelHandled: bool,
    hasActiveBuffer: bool)

  predicate Moved(s: HostState) {
    s.mouseDelta.x != 0.0 || s.mouseDelta.y != 0.0
  }

  /** The six independent mouse checks of a frame. */
  datatype MouseCheck = CheckMove | CheckDown(button: MouseButton) | CheckUp(button: MouseButton) | CheckWheel

  /** The checks in the order they run. */
  const MouseChecks: seq<MouseCheck> := [
    CheckMove, CheckDown(MouseButton.Left), CheckDown(MouseButton.Right),
    CheckUp(MouseButton.Left), CheckUp(MouseButton.Right), CheckWheel
  ]

  /** Whether the host reports the condition a check tests. */
  predicate Fires(s: HostState, c: MouseCheck) {
    match c
    case CheckMove => Moved(s)
    case CheckDown(b) => if b.Left? then s.leftClicked else s.rightClicked
    case CheckUp(b) => if b.Left? then s.leftReleased else s.rightReleased
    case CheckWheel => s.mouseWheel != 0.0
  }

  /** The event a check forwards, at the current mouse position. */
  function EventOf(s: HostState, c: MouseCheck): (ev: Event)
    ensures ev.IsMouse() && ev.pos == s.mousePos
  {
    match c
    case CheckMove => MouseMove(s.mousePos)
    case CheckDown(b) => MouseDown(s.mousePos, b)
    case CheckUp(b) => MouseUp(s.mousePos, b)
    case CheckWheel => MouseWheel(s.mousePos, s.mouseWheel)
  }

  /** The position of a check, and of the event it forwards, in the fixed order. */
  function CheckRank(c: MouseCheck): nat {
    match c
    case CheckMove => 0
    case CheckDown(b) => if b.Left? then 1 else 2
    case CheckUp(b) => if b.Left? then 3 else 4
    case CheckWheel => 5
  }

  function MouseOrder(ev: Event): nat {
    match ev
    case MouseMove(_) => 0
    case MouseDown(_, b) => if b.Left? then 1 else 2
    case MouseUp(_, b) => if b.Left? then 3 else 4
    case MouseWheel(_, _) => 5
    case _ => 6
  }

  /** What one check forwards: its event if it fires, nothing otherwise. */
  function Step(s: HostState, c: MouseCheck): seq<Event> {
    if Fires(s, c) then [EventOf(s, c)] else []
  }

  /** Running the checks in turn: each one that fires forwards its own event. */
  function Forward(s: HostState, cs: seq<MouseCheck>): (r: seq<Event>)
    ensures |r| <= |cs|
    ensures forall ev :: ev in r <==> exists c :: c in cs && Fires(s, c) && ev == EventOf(s, c)
  {
    if cs == [] then []
    else
      assert cs == cs[..|cs| - 1] + [cs[|cs| - 1]];
      Forward(s, cs[..|cs| - 1]) + Step(s, cs[|cs| - 1])
  }

  /** Running one more check appends what it forwards. */
  lemma ForwardOneMore(s: HostState, cs: seq<MouseCheck>, k: nat)
    requires k < |cs|
    ensures Forward(s, cs[..k + 1]) == Forward(s, cs[..k]) + Step(s, cs[k])
  {
    assert cs[..k + 1][..k] == cs[..k];
  }

  /** The mouse events of a frame. */
  function MouseEvents(s: HostState): (r: seq<Event>)
    ensures forall ev :: ev in r ==> ev.IsMouse() && ev.pos == s.mousePos
  {
    Forward(s, MouseChecks)
  }

  /** Mouse forwarding never switches the global mode. */
  lemma MouseKeepsMode(m: ModeName, s: HostState)
    ensures ModeAfter(m, MouseEvents(s)) == m
  {
    assert forall ev :: ev in MouseEvents(s) ==> !ev.SetGlobalMode?;
  }

  /** The mouse events of a frame, check by check. */
  lemma MouseEventsBySteps(s: HostState)
    ensures MouseEvents(s)
         == Step(s, CheckMove) + Step(s, CheckDown(MouseButton.Left)) + Step(s, CheckDown(MouseButton.Right))
          + Step(s, CheckUp(MouseButton.Left)) + Step(s, CheckUp(MouseButton.Right)) + Step(s, CheckWheel)
  {
    var cs := MouseChecks;
    assert cs[..0] == [];
    ForwardOneMore(s, cs, 0);
    var f1 := Step(s, CheckMove);
    assert Forward(s, cs[..1]) == f1;
    ForwardOneMore(s, cs, 1);
    var f2 := f1 + Step(s, CheckDown(MouseButton.Left));
    assert Forward(s, cs[..2]) == f2;
    ForwardOneMore(s, cs, 2);
    var f3 := f2 + Step(s, CheckDown(MouseButton.Right));
    assert Forward(s, cs[..3]) == f3;
    ForwardOneMore(s, cs, 3);
    var f4 := f3 + Step(s, CheckUp(MouseButton.Left));
    assert Forward(s, cs[..4]) == f4;
    ForwardOneMore(s, cs, 4);
    var f5 := f4 + Step(s, CheckUp(MouseButton.Right));
    assert Forward(s, cs[..5]) == f5;
    ForwardOneMore(s, cs, 5);
    assert Forward(s, cs[..6]) == f5 + Step(s, CheckWheel);
    assert cs[..6] == cs;
  }

  /**
   * Each check forwards its event exactly when the host reports its condition:
   * a move iff the delta is nonzero, a press or release iff the host flag is
   * set, a wheel event (with the host's delta) iff the wheel is nonzero.
   */
  lemma Forwarded(s: HostState, c: MouseCheck)
    ensures EventOf(s, c) in MouseEvents(s) <==> Fires(s, c)
  {
    match c {
      case CheckMove => assert MouseChecks[0] == c;
      case CheckDown(b) => if b.Left? { assert MouseChecks[1] == c; } else { assert MouseChecks[2] == c; }
      case CheckUp(b) => if b.Left? { assert MouseChecks[3] == c; } else { assert MouseChecks[4] == c; }
      case CheckWheel => assert MouseChecks[5] == c;
    }
    assert forall d :: EventOf(s, d) == EventOf(s, c) ==> d == c;
  }

  lemma {:induction false} ForwardInOrder(s: HostState, cs: seq<MouseCheck>)
    requires forall i, j :: 0 <= i < j < |cs| ==> CheckRank(cs[i]) < CheckRank(cs[j])
    ensures forall ev :: ev in Forward(s, cs) ==> exists c :: c in cs && MouseOrder(ev) == CheckRank(c)
    ensures forall i, j :: 0 <= i < j < |Forward(s, cs)| ==> MouseOrder(Forward(s, cs)[i]) < MouseOrder(Forward(s, cs)[j])
  {
    if cs != [] {
      var init := cs[..|cs| - 1];
      var last := cs[|cs| - 1];
      ForwardInOrder(s, init);
      var r := Forward(s, cs);
      var p := Forward(s, init);
      assert r == p + Step(s, last);
      forall ev | ev in p ensures MouseOrder(ev) < CheckRank(last) {
        var c :| c in init && MouseOrder(ev) == CheckRank(c);
        var k :| 0 <= k < |init| && init[k] == c;
        assert cs[k] == c;
      }
      assert MouseOrder(EventOf(s, last)) == CheckRank(last);
    }
  }

  /** The forwarded events come in the fixed order move, left down, right down, left up, right up, wheel. */
  lemma MouseEventsInOrder(s: HostState)
    ensures forall i, j :: 0 <= i < j < |MouseEvents(s)| ==> MouseOrder(MouseEvents(s)[i]) < MouseOrder(MouseEvents(s)[j])
  {
    ForwardInOrder(s, MouseChecks);
  }

  /**
   * Whether a forwarded press or release was consumed. Every one of the
   * four clears host flag MouseClicked[0], the right-button ones included.
   */
  predicate ClickConsumed(s: HostState, e: EngineReplies) {
    (s.leftClicked && e.leftDownHandled) || (s.rightClicked && e.rightDownHandled)
    || (s.leftReleased && e.leftUpHandled) || (s.rightReleased && e.rightUpHandled)
  }

  predicate WheelConsumed(s: HostState, e: EngineReplies) {
    s.mouseWheel != 0.0 && e.wheelHandled
  }

  /** The index of the first entry whose key is pressed (a scan that stops at the first match). */
  function FirstPressed(t: Table, pressed: ImGuiKey -> bool): (r: Option<nat>)
    ensures r.Some? ==> r.value < |t| && pressed(t[r.value].key)
    ensures r.Some? ==> forall j :: 0 <= j < r.value ==> !pressed(t[j].key)
    ensures r.None? <==> forall j :: 0 <= j < |t| ==> !pressed(t[j].key)
  {
    if t == [] then None
    else if pressed(t[0].key) then Some(0)
    else match FirstPressed(t[1..], pressed)
      case None =>
        assert forall j :: 1 <= j < |t| ==> t[j] == t[1..][j - 1];
        None
      case Some(i) => Some(i + 1)
  }

  /** The entries whose key is pressed, in table order (a scan that does not stop). */
  function PressedEntries(t: Table, pressed: ImGuiKey -> bool): (r: Table)
    ensures |r| <= |t|
    ensures forall e :: e in r <==> e in t && pressed(e.key)
  {
    if t == [] then []
    else
      assert t == t[..|t| - 1] + [t[|t| - 1]];
      PressedEntries(t[..|t| - 1], pressed) + (if pressed(t[|t| - 1].key) then [t[|t| - 1]] else [])
  }

  function Codes(t: Table): (r: seq<KeyCode>)
    ensures |r| == |t|
    ensures forall i :: 0 <= i < |t| ==> r[i] == t[i].code
  {
    if t == [] then [] else Codes(t[..|t| - 1]) + [t[|t| - 1].code]
  }

  /** How much of the queue is read: up to the first zero character, or all of it. */
  function LiveLength(q: seq<ImWchar>): (n: nat)
    ensures n <= |q|
    ensures forall i :: 0 <= i < n ==> q[i] != 0
    ensures n < |q| ==> q[n] == 0
  {
    if q == [] || q[0] == 0 then 0
    else
      var n := 1 + LiveLength(q[1..]);
      assert forall i :: 1 <= i < n ==> q[i] == q[1..][i - 1];
      n
  }

  /** The key codes of queued characters, in arrival order, '\r' dropped. */
  function TypedKeys(q: seq<ImWchar>): (r: seq<KeyCode>)
    ensures |r| <= |q|
  {
    if q == [] then []
    else TypedKeys(q[..|q| - 1]) + (if q[|q| - 1] == CarriageReturn then [] else [Char(q[|q| - 1])])
  }

  /** Exactly one code is typed per queued character other than '\r'. */
  lemma {:induction false} TypedKeysCount(q: seq<ImWchar>)
    ensures |TypedKeys(q)| == |q| - multiset(q)[CarriageReturn]
  {
    if q != [] {
      var init := q[..|q| - 1];
      assert q == init + [q[|q| - 1]];
      TypedKeysCount(init);
    }
  }

  /**
   * What typing a queue yields: character codes of the queue only, never
   * '\r'; every other queued character; and, for a queue without '\r', one
   * code per character in the same order.
   */
  lemma {:induction false} TypedKeysMembers(q: seq<ImWchar>)
    ensures forall k :: k in TypedKeys(q) ==> k.Char? && k.code != CarriageReturn && k.code in q
    ensures forall c :: c in q && c != CarriageReturn ==> Char(c) in TypedKeys(q)
    ensures (forall i :: 0 <= i < |q| ==> q[i] != CarriageReturn) ==>
              |TypedKeys(q)| == |q| && forall i :: 0 <= i < |q| ==> TypedKeys(q)[i] == Char(q[i])
  {
    if q != [] {
      var init := q[..|q| - 1];
      var last := q[|q| - 1];
      assert q == init + [last];
      TypedKeysMembers(init);
      var tail := if last == CarriageReturn then [] else [Char(last)];
      assert TypedKeys(q) == TypedKeys(init) + tail;
      forall c | c in q && c != CarriageReturn ensures Char(c) in TypedKeys(q) {
        if c != last {
          assert c in init;
        }
      }
    }
  }

  /** The character fallback: one KeyPress per live queued character other than '\r'. */
  function Fallback(q: seq<ImWchar>, mods: Mask): (r: seq<Event>)
    ensures |r| <= LiveLength(q)
    ensures forall ev :: ev in r ==> ev.KeyPress? && ev.mods == mods && ev.code.Char?
    ensures forall ev :: ev in r ==> ev.code.code != CarriageReturn && ev.code.code != 0 && ev.code.code in q
  {
    var live := q[..LiveLength(q)];
    TypedKeysMembers(live);
    assert forall c :: c in live ==> c != 0 && c in q;
    Presses(TypedKeys(live), mods)
  }

  /**
   * The Ctrl tiers: the shifted-punctuation chord (first match only), the two
   * mode-switch chords, then every alphanumeric chord pressed.
   */
  function CtrlChords(mods: Mask, pressed: ImGuiKey -> bool, tables: KeyTables): (r: seq<Event>)
    ensures r != [] <==> CtrlHandled(pressed, tables)
    ensures forall ev :: ev in r ==> (ev.KeyPress? && ev.mods == mods) || ev.SetGlobalMode?
    ensures forall ev :: ev in r && ev.SetGlobalMode? ==> r == [ev]
  {
    var shiftable := tables.shiftable;
    match FirstPressed(shiftable, pressed)
    case Some(i) => [KeyPress(shiftable[i].code, mods)]
    case None =>
      if pressed(Key1) then [SetGlobalMode(Standard)]
      else if pressed(Key2) then [SetGlobalMode(Vim)]
      else Presses(Codes(PressedEntries(tables.alnum, pressed)), mods)
  }

  /** Whether one of the Ctrl tiers handled the frame (the source's `handled` flag, or its early return). */
  function CtrlHandled(pressed: ImGuiKey -> bool, tables: KeyTables): (handled: bool)
    ensures handled <==>
      || (exists x :: x in tables.shiftable && pressed(x.key))
      || pressed(Key1) || pressed(Key2)
      || (exists x :: x in tables.alnum && pressed(x.key))
  {
    var shiftable, alnum := tables.shiftable, tables.alnum;
    assert FirstPressed(shiftable, pressed).Some? <==> exists x :: x in shiftable && pressed(x.key) by {
      if FirstPressed(shiftable, pressed).Some? {
        assert shiftable[FirstPressed(shiftable, pressed).value] in shiftable;
      }
      if exists x :: x in shiftable && pressed(x.key) {
        var x :| x in shiftable && pressed(x.key);
        var k :| 0 <= k < |shiftable| && shiftable[k] == x;
      }
    }
    assert PressedEntries(alnum, pressed) != [] ==> PressedEntries(alnum, pressed)[0] in PressedEntries(alnum, pressed);
    || FirstPressed(tables.shiftable, pressed).Some?
    || pressed(Key1) || pressed(Key2)
    || PressedEntries(tables.alnum, pressed) != []
  }

  /**
   * The keyboard part of a frame with an active buffer: the special-key tier,
   * then (with Ctrl) the Ctrl tiers, then the character fallback when nothing
   * above handled the frame.
   */
  function KeyboardEvents(ctrl: bool, mods: Mask, pressed: ImGuiKey -> bool, tables: KeyTables, q: seq<ImWchar>): (r: seq<Event>)
    ensures forall ev :: ev in r ==> (ev.KeyPress? && ev.mods == mods) || ev.SetGlobalMode?
    ensures forall ev :: ev in r && ev.SetGlobalMode? ==> ctrl && r == [ev]
  {
    var special := tables.special;
    match FirstPressed(special, pressed)
    case Some(i) => [KeyPress(special[i].code, mods)]
    case None =>
      if ctrl && CtrlHandled(pressed, tables) then CtrlChords(mods, pressed, tables)
      else Fallback(q, mods)
  }

  /** Everything one call of HandleInput sends to the engine, in order. */
  function FrameEvents(s: HostState, pressed: ImGuiKey -> bool, tables: KeyTables, e: EngineReplies): (r: seq<Event>)
    ensures forall ev :: ev in r ==> ev.IsMouse() || (ev.KeyPress? && ev.mods == MaskOf(s.keyCtrl, s.keyAlt, s.keyShift)) || ev.SetGlobalMode?
    ensures !e.hasActiveBuffer ==> forall ev :: ev in r ==> ev.IsMouse()
    ensures !s.keyCtrl ==> forall ev :: ev in r ==> !ev.SetGlobalMode?
  {
    if e.hasActiveBuffer
    then MouseEvents(s) + KeyboardEvents(s.keyCtrl, MaskOf(s.keyCtrl, s.keyAlt, s.keyShift), pressed, tables, s.inputQueue)
    else MouseEvents(s)
  }
}

/**
 * ZepEditor_ImGui::HandleInput: the per-frame pass that reads the host's
 * input snapshot, forwards mouse events (clearing the host flags of the
 * ones the engine consumed), and dispatches the keyboard state to the
 * active buffer's mode handler.
 */
module EditorImGui {
  import opened Keys
  import opened Modifiers
  import opened Events
  import opened Translate

  /** The number of per-button flags the host keeps (ImGui's five mouse buttons). */
  const MouseButtonCount := 5

  /** The host's input snapshot (ImGuiIO), updated in place to hide consumed events. */
  class HostIO {
    var mousePos: Vec2
    var mouseDelta: Vec2
    const mouseClicked: array<bool>
    const mouseReleased: array<bool>
    var mouseWheel: real
    var keyCtrl: bool
    var keyAlt: bool
    var keyShift: bool
    var inputQueueCharacters: seq<ImWchar>

    ghost predicate Valid()
      reads this
    {
      mouseClicked.Length == MouseButtonCount && mouseReleased.Length == MouseButtonCount
      && mouseClicked != mouseReleased
    }

    /** What HandleInput reads of the snapshot. */
    function State(): HostState
      reads this, mouseClicked, mouseReleased
      requires Valid()
    {
      HostState(mousePos, mouseDelta, mouseClicked[0], mouseClicked[1], mouseReleased[0], mouseReleased[1],
                mouseWheel, keyCtrl, keyAlt, keyShift, inputQueueCharacters)
    }

    /** A snapshot as the host fills it in before calling HandleInput. */
    constructor (s: HostState)
      ensures Valid() && State() == s
      ensures fresh(mouseClicked) && fresh(mouseReleased)
    {
      mousePos, mouseDelta := s.mousePos, s.mouseDelta;
      var clicked := new bool[MouseButtonCount](_ => false);
      var released := new bool[MouseButtonCount](_ => false);
      clicked[0], clicked[1] := s.leftClicked, s.rightClicked;
      released[0], released[1] := s.leftReleased, s.rightReleased;
      mouseClicked, mouseReleased := clicked, released;
      mouseWheel := s.mouseWheel;
      keyCtrl, keyAlt, keyShift := s.keyCtrl, s.keyAlt, s.keyShift;
      inputQueueCharacters := s.inputQueue;
    }
  }

  /** The modifier mask of the frame, built one flag at a time. */
  method ModifierMask(io: HostIO) returns (mod: Mask)
    ensures mod == MaskOf(io.keyCtrl, io.keyAlt, io.keyShift)
  {
    mod := NoModifier;
    if io.keyCtrl {
      mod := mod | Ctrl;
    }
    if io.keyAlt {
      mod := mod | Alt;
    }
    if io.keyShift {
      mod := mod | Shift;
    }
  }

  /**
   * The editor as HandleInput sees it: `events` is everything sent to the
   * engine (mouse handlers, the active buffer's mode handler, the global
   * mode selector), in order; `globalMode` is the process-wide editing mode.
   */
  class Editor {
    var events: seq<Event>
    var globalMode: ModeName
    /** The three static key maps, built once in ascending key order. */
    const tables: KeyTables

    constructor (rank: KeyOrder, mode: ModeName)
      ensures tables == TablesFor(rank)
      ensures events == [] && globalMode == mode
    {
      tables := TablesFor(rank);
      events := [];
      globalMode := mode;
    }

    /** Hands one event to the engine. */
    method Send(ev: Event)
      modifies this
      ensures events == old(events) + [ev]
      ensures globalMode == old(globalMode)
    {
      events := events + [ev];
    }

    /** The active buffer's GetMode()->AddKeyPress(code, mod). */
    method AddKeyPress(code: KeyCode, mod: Mask)
      modifies this
      ensures events == old(events) + [KeyPress(code, mod)]
      ensures globalMode == old(globalMode)
    {
      Send(KeyPress(code, mod));
    }

    /** SetGlobalMode: overwrites the process-wide mode. */
    method SetMode(m: ModeName)
      modifies this
      ensures events == old(events) + [SetGlobalMode(m)]
      ensures globalMode == m
    {
      events := events + [SetGlobalMode(m)];
      globalMode := m;
    }

    /**
     * The six mouse checks. The engine's answers come from `engine`; a
     * consumed press or release clears MouseClicked[0] (for either button),
     * a consumed wheel event zeroes the wheel delta.
     */
    method ForwardMouse(io: HostIO, engine: EngineReplies)
      requires io.Valid()
      modifies this, io`mouseWheel, io.mouseClicked
      ensures io.Valid()
      ensures events == old(events) + MouseEvents(old(io.State()))
      ensures globalMode == old(globalMode)
      ensures io.mouseClicked[0] == (old(io.mouseClicked[0]) && !ClickConsumed(old(io.State()), engine))
      ensures forall i :: 1 <= i < io.mouseClicked.Length ==> io.mouseClicked[i] == old(io.mouseClicked[i])
      ensures io.mouseWheel == if WheelConsumed(old(io.State()), engine) then 0.0 else old(io.mouseWheel)
    {
      ghost var s := io.State();
      ForwardMove(io, s);
      ghost var done := Step(s, CheckMove);
      ForwardPresses(io, engine, s, old(events), done);
      done := done + Step(s, CheckDown(MouseButton.Left)) + Step(s, CheckDown(MouseButton.Right));
      ForwardReleases(io, engine, s, old(events), done);
      done := done + Step(s, CheckUp(MouseButton.Left)) + Step(s, CheckUp(MouseButton.Right));
      ForwardWheel(io, engine.wheelHandled, s);
      AppendAssoc(old(events), done, Step(s, CheckWheel));
      MouseEventsBySteps(s);
    }

    /** The two press checks, left button then right button. */
    method ForwardPresses(io: HostIO, engine: EngineReplies, ghost s: HostState, ghost base: seq<Event>, ghost done: seq<Event>)
      requires io.Valid() && io.State() == s
      requires events == base + done
      modifies this, io.mouseClicked
      ensures io.mouseClicked[0] == (s.leftClicked && !((s.leftClicked && engine.leftDownHandled) || (s.rightClicked && engine.rightDownHandled)))
      ensures forall i :: 1 <= i < io.mouseClicked.Length ==> io.mouseClicked[i] == old(io.mouseClicked[i])
      ensures events == base + (done + Step(s, CheckDown(MouseButton.Left)) + Step(s, CheckDown(MouseButton.Right)))
      ensures globalMode == old(globalMode)
    {
      ForwardButton(io, io.mouseClicked[0], MouseDown(io.mousePos, MouseButton.Left), engine.leftDownHandled, s, CheckDown(MouseButton.Left));
      AppendAssoc(base, done, Step(s, CheckDown(MouseButton.Left)));
      ForwardButton(io, io.mouseClicked[1], MouseDown(io.mousePos, MouseButton.Right), engine.rightDownHandled, s, CheckDown(MouseButton.Right));
      AppendAssoc(base, done + Step(s, CheckDown(MouseButton.Left)), Step(s, CheckDown(MouseButton.Right)));
    }

    /** The two release checks, left button then right button; either one, consumed, clears MouseClicked[0]. */
    method ForwardReleases(io: HostIO, engine: EngineReplies, ghost s: HostState, ghost base: seq<Event>, ghost done: seq<Event>)
      requires io.Valid()
      requires io.mouseReleased[0] == s.leftReleased && io.mouseReleased[1] == s.rightReleased && io.mousePos == s.mousePos
      requires events == base + done
      modifies this, io.mouseClicked
      ensures io.mouseClicked[0] == (old(io.mouseClicked[0]) && !((s.leftReleased && engine.leftUpHandled) || (s.rightReleased && engine.rightUpHandled)))
      ensures forall i :: 1 <= i < io.mouseClicked.Length ==> io.mouseClicked[i] == old(io.mouseClicked[i])
      ensures events == base + (done + Step(s, CheckUp(MouseButton.Left)) + Step(s, CheckUp(MouseButton.Right)))
      ensures globalMode == old(globalMode)
    {
      ForwardButton(io, io.mouseReleased[0], MouseUp(io.mousePos, MouseButton.Left), engine.leftUpHandled, s, CheckUp(MouseButton.Left));
      AppendAssoc(base, done, Step(s, CheckUp(MouseButton.Left)));
      ForwardButton(io, io.mouseReleased[1], MouseUp(io.mousePos, MouseButton.Right), engine.rightUpHandled, s, CheckUp(MouseButton.Right));
      AppendAssoc(base, done + Step(s, CheckUp(MouseButton.Left)), Step(s, CheckUp(MouseButton.Right)));
    }

    /** The move check: a nonzero delta forwards the position. */
    method ForwardMove(io: HostIO, ghost s: HostState)
      requires io.mouseDelta == s.mouseDelta && io.mousePos == s.mousePos
      modifies this
      ensures events == old(events) + Step(s, CheckMove)
      ensures globalMode == old(globalMode)
    {
      if io.mouseDelta.x != 0.0 || io.mouseDelta.y != 0.0 {
        Send(MouseMove(io.mousePos));
      }
    }

    /**
     * One press or release check `c` of snapshot `s`: when the host flag is
     * set, the event goes to the engine, and if the engine consumed it
     * MouseClicked[0] is cleared.
     */
    method ForwardButton(io: HostIO, flag: bool, ev: Event, handled: bool, ghost s: HostState, ghost c: MouseCheck)
      requires io.Valid()
      requires flag == Fires(s, c) && ev == EventOf(s, c)
      modifies this, io.mouseClicked
      ensures events == old(events) + Step(s, c)
      ensures globalMode == old(globalMode)
      ensures io.mouseClicked[0] == (old(io.mouseClicked[0]) && !(flag && handled))
      ensures forall i :: 1 <= i < io.mouseClicked.Length ==> io.mouseClicked[i] == old(io.mouseClicked[i])
    {
      if flag {
        Send(ev);
        if handled {
          io.mouseClicked[0] := false;
        }
      }
    }

    /** The wheel check: a consumed wheel event zeroes the host's wheel delta. */
    method ForwardWheel(io: HostIO, handled: bool, ghost s: HostState)
      requires io.mouseWheel == s.mouseWheel && io.mousePos == s.mousePos
      modifies this, io`mouseWheel
      ensures events == old(events) + Step(s, CheckWheel)
      ensures globalMode == old(globalMode)
      ensures io.mouseWheel == if s.mouseWheel != 0.0 && handled then 0.0 else old(io.mouseWheel)
    {
      if io.mouseWheel != 0.0 {
        Send(MouseWheel(io.mousePos, io.mouseWheel));
        if handled {
          io.mouseWheel := 0.0;
        }
      }
    }

    /** The keyboard tiers, for a frame with an active buffer. */
    method DispatchKeys(io: HostIO, mod: Mask, pressed: ImGuiKey -> bool, tables: KeyTables)
      modifies this
      ensures events == old(events) + KeyboardEvents(io.keyCtrl, mod, pressed, tables, io.inputQueueCharacters)
      ensures globalMode == ModeAfter(old(globalMode), KeyboardEvents(io.keyCtrl, mod, pressed, tables, io.inputQueueCharacters))
    {
      var found := SendFirstPressed(tables.special, pressed, mod);
      if found {
        return;
      }
      var handled := false;
      if io.keyCtrl {
        handled := DispatchCtrl(mod, pressed, tables);
      }
      if !handled {
        SendTyped(io.inputQueueCharacters, mod);
      }
    }

    /** The Ctrl tiers; `handled` is false exactly when none of them sent anything. */
    method DispatchCtrl(mod: Mask, pressed: ImGuiKey -> bool, tables: KeyTables) returns (handled: bool)
      modifies this
      ensures handled == CtrlHandled(pressed, tables)
      ensures handled ==> events == old(events) + CtrlChords(mod, pressed, tables)
      ensures handled ==> globalMode == ModeAfter(old(globalMode), CtrlChords(mod, pressed, tables))
      ensures !handled ==> events == old(events) && globalMode == old(globalMode)
    {
      var found := SendFirstPressed(tables.shiftable, pressed, mod);
      if found {
        return true;
      }
      if pressed(Key1) {
        SetMode(Standard);
        handled := true;
      } else if pressed(Key2) {
        SetMode(Vim);
        handled := true;
      } else {
        handled := SendChords(tables.alnum, pressed, mod);
      }
    }

    /**
     * A first-match scan over a key table: the first pressed entry's code is
     * sent and the scan stops; `found` says whether one was.
     */
    method SendFirstPressed(t: Table, pressed: ImGuiKey -> bool, mod: Mask) returns (found: bool)
      modifies this
      ensures found == FirstPressed(t, pressed).Some?
      ensures found ==> events == old(events) + [KeyPress(t[FirstPressed(t, pressed).value].code, mod)]
      ensures !found ==> events == old(events)
      ensures globalMode == old(globalMode)
    {
      for i := 0 to |t|
        invariant forall j :: 0 <= j < i ==> !pressed(t[j].key)
        invariant events == old(events) && globalMode == old(globalMode)
      {
        if pressed(t[i].key) {
          AddKeyPress(t[i].code, mod);
          return true;
        }
      }
      return false;
    }

    /** The alphanumeric chords: every pressed entry's code, in table order. */
    method SendChords(t: Table, pressed: ImGuiKey -> bool, mod: Mask) returns (handled: bool)
      modifies this
      ensures handled == (PressedEntries(t, pressed) != [])
      ensures events == old(events) + Presses(Codes(PressedEntries(t, pressed)), mod)
      ensures !handled ==> events == old(events)
      ensures globalMode == old(globalMode)
    {
      handled := false;
      for i := 0 to |t|
        invariant events == old(events) + Presses(Codes(PressedEntries(t[..i], pressed)), mod)
        invariant handled == (PressedEntries(t[..i], pressed) != [])
        invariant globalMode == old(globalMode)
      {
        ChordStep(t, i, pressed, mod);
        if pressed(t[i].key) {
          AppendAssoc(old(events), Presses(Codes(PressedEntries(t[..i], pressed)), mod), [KeyPress(t[i].code, mod)]);
          AddKeyPress(t[i].code, mod);
          handled := true;
        }
      }
      assert t[..|t|] == t;
    }

    /** The character fallback: each queued character up to the first zero, '\r' skipped. */
    method SendTyped(q: seq<ImWchar>, mod: Mask)
      modifies this
      ensures events == old(events) + Fallback(q, mod)
      ensures globalMode == old(globalMode)
    {
      var n := 0;
      assert q[..0] == [];
      while n < |q| && q[n] != 0
        invariant n <= LiveLength(q)
        invariant events == old(events) + Presses(TypedKeys(q[..n]), mod)
        invariant globalMode == old(globalMode)
      {
        TypedStep(q, n, mod);
        if q[n] == CarriageReturn {
          n := n + 1;
          continue;
        }
        AppendAssoc(old(events), Presses(TypedKeys(q[..n]), mod), [KeyPress(Char(q[n]), mod)]);
        AddKeyPress(Char(q[n]), mod);
        n := n + 1;
      }
    }

    /** One frame of input: mouse forwarding, the modifier mask, then the keyboard tiers. */
    method HandleInput(io: HostIO, pressed: ImGuiKey -> bool, engine: EngineReplies)
      requires io.Valid()
      modifies this, io`mouseWheel, io.mouseClicked
      ensures io.Valid()
      ensures events == old(events) + FrameEvents(old(io.State()), pressed, tables, engine)
      ensures globalMode == ModeAfter(old(globalMode), FrameEvents(old(io.State()), pressed, tables, engine))
      ensures io.mouseClicked[0] == (old(io.mouseClicked[0]) && !ClickConsumed(old(io.State()), engine))
      ensures forall i :: 1 <= i < io.mouseClicked.Length ==> io.mouseClicked[i] == old(io.mouseClicked[i])
      ensures io.mouseWheel == if WheelConsumed(old(io.State()), engine) then 0.0 else old(io.mouseWheel)
    {
      ghost var s := io.State();
      ForwardMouse(io, engine);
      ghost var mouse := MouseEvents(s);
      MouseKeepsMode(old(globalMode), s);
      var mod := ModifierMask(io);
      if !engine.hasActiveBuffer {
        // GetActiveBuffer() found no buffer: no keyboard processing this frame
        return;
      }
      ghost var keys := KeyboardEvents(s.keyCtrl, mod, pressed, tables, s.inputQueue);
      DispatchKeys(io, mod, pressed, tables);
      AppendAssoc(old(events), mouse, keys);
      ModeAfterConcat(old(globalMode), mouse, keys);
    }
  }

  /** Appending a code appends its KeyPress. */
  lemma PressesOneMore(codes: seq<KeyCode>, c: KeyCode, mods: Mask)
    ensures Presses(codes + [c], mods) == Presses(codes, mods) + [KeyPress(c, mods)]
  {
    assert (codes + [c])[..|codes|] == codes;
  }

  /** One more table entry adds its KeyPress exactly when its key is pressed. */
  lemma ChordStep(t: Table, i: nat, pressed: ImGuiKey -> bool, mods: Mask)
    requires i < |t|
    ensures pressed(t[i].key) ==> PressedEntries(t[..i + 1], pressed) == PressedEntries(t[..i], pressed) + [t[i]]
    ensures pressed(t[i].key) ==>
              Presses(Codes(PressedEntries(t[..i + 1], pressed)), mods)
              == Presses(Codes(PressedEntries(t[..i], pressed)), mods) + [KeyPress(t[i].code, mods)]
    ensures !pressed(t[i].key) ==> PressedEntries(t[..i + 1], pressed) == PressedEntries(t[..i], pressed)
  {
    assert t[..i + 1][..i] == t[..i];
    var before := PressedEntries(t[..i], pressed);
    if pressed(t[i].key) {
      assert (before + [t[i]])[..|before|] == before;
      PressesOneMore(Codes(before), t[i].code, mods);
    } else {
      assert before + [] == before;
    }
  }

  /** One more queued character adds its KeyPress unless it is '\r'. */
  lemma TypedStep(q: seq<ImWchar>, n: nat, mods: Mask)
    requires n < |q|
    ensures q[n] != CarriageReturn ==>
              Presses(TypedKeys(q[..n + 1]), mods) == Presses(TypedKeys(q[..n]), mods) + [KeyPress(Char(q[n]), mods)]
    ensures q[n] == CarriageReturn ==> TypedKeys(q[..n + 1]) == TypedKeys(q[..n])
  {
    assert q[..n + 1][..n] == q[..n];
    if q[n] != CarriageReturn {
      PressesOneMore(TypedKeys(q[..n]), Char(q[n]), mods);
    } else {
      assert TypedKeys(q[..n]) + [] == TypedKeys(q[..n]);
    }
  }
}

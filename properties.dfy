/**
 * What one frame of ZepEditor_ImGui::HandleInput guarantees, stated over the
 * frame's meaning (Translate.FrameEvents and Translate.KeyboardEvents) for
 * the static key maps as built from their declarations.
 */
module Properties {
  import opened Keys
  import opened Modifiers
  import opened Events
  import opened Translate

  // ---- the key maps ----

  /** In a map sorted by key value, the first pressed entry is the pressed entry with the least key value. */
  lemma FirstPressedIsLeast(t: Table, rank: KeyOrder, pressed: ImGuiKey -> bool, e: Entry)
    requires SortedBy(t, rank)
    requires e in t && pressed(e.key)
    requires forall x :: x in t && pressed(x.key) ==> rank(e.key) <= rank(x.key)
    ensures FirstPressed(t, pressed).Some?
    ensures t[FirstPressed(t, pressed).value] == e
  {
    var k :| 0 <= k < |t| && t[k] == e;
  }

  /** A map with none of its keys pressed stops no scan and yields no chord. */
  lemma NoneOfMapPressed(t: Table, pressed: ImGuiKey -> bool)
    requires forall x :: x in t ==> !pressed(x.key)
    ensures FirstPressed(t, pressed).None?
    ensures PressedEntries(t, pressed) == []
  {
    assert forall j :: 0 <= j < |t| ==> t[j] in t;
    if PressedEntries(t, pressed) != [] {
      assert PressedEntries(t, pressed)[0] in PressedEntries(t, pressed);
    }
  }

  /** A pressed entry's code is among the presses its map's chords give. */
  lemma PressedChordSent(t: Table, pressed: ImGuiKey -> bool, mods: Mask, e: Entry)
    requires e in t && pressed(e.key)
    ensures PressedEntries(t, pressed) != []
    ensures KeyPress(e.code, mods) in Presses(Codes(PressedEntries(t, pressed)), mods)
  {
    var chords := PressedEntries(t, pressed);
    var k :| 0 <= k < |chords| && chords[k] == e;
    assert Presses(Codes(chords), mods)[k] == KeyPress(e.code, mods);
  }

  /** Keeping the entries of pressed keys preserves the map's ascending order. */
  lemma {:induction false} PressedEntriesSorted(t: Table, rank: KeyOrder, pressed: ImGuiKey -> bool)
    requires SortedBy(t, rank)
    ensures SortedBy(PressedEntries(t, pressed), rank)
  {
    if t != [] {
      var init := t[..|t| - 1];
      var last := t[|t| - 1];
      assert SortedBy(init, rank);
      PressedEntriesSorted(init, rank, pressed);
      var p := PressedEntries(init, pressed);
      if pressed(last.key) {
        forall x | x in p ensures rank(x.key) < rank(last.key) {
          var k :| 0 <= k < |init| && init[k] == x;
          assert t[k] == x;
        }
        var r := p + [last];
        forall i, j | 0 <= i < j < |r| ensures rank(r[i].key) < rank(r[j].key) {
          if j == |p| {
            assert r[i] in p;
          } else {
            assert r[i] == p[i] && r[j] == p[j];
          }
        }
      }
    }
  }

  // ---- mouse and modifiers ----

  /** Without an active buffer the frame is its mouse events alone: no key press and no mode switch. */
  lemma NoActiveBufferOnlyMouse(s: HostState, pressed: ImGuiKey -> bool, tables: KeyTables, e: EngineReplies)
    requires !e.hasActiveBuffer
    ensures FrameEvents(s, pressed, tables, e) == MouseEvents(s)
    ensures forall ev :: ev in FrameEvents(s, pressed, tables, e) ==> !ev.KeyPress? && !ev.SetGlobalMode?
  {
  }

  /** With an active buffer the mouse events still come first, unchanged. */
  lemma MouseBeforeKeys(s: HostState, pressed: ImGuiKey -> bool, tables: KeyTables, e: EngineReplies)
    requires e.hasActiveBuffer
    ensures FrameEvents(s, pressed, tables, e)[..|MouseEvents(s)|] == MouseEvents(s)
    ensures forall i :: |MouseEvents(s)| <= i < |FrameEvents(s, pressed, tables, e)| ==> !FrameEvents(s, pressed, tables, e)[i].IsMouse()
  {
    var keys := KeyboardEvents(s.keyCtrl, MaskOf(s.keyCtrl, s.keyAlt, s.keyShift), pressed, tables, s.inputQueue);
    var f := FrameEvents(s, pressed, tables, e);
    assert f == MouseEvents(s) + keys;
    forall i | |MouseEvents(s)| <= i < |f| ensures !f[i].IsMouse() {
      assert f[i] == keys[i - |MouseEvents(s)|];
      assert f[i] in keys;
    }
  }

  /** A move is forwarded exactly when the mouse moved. */
  lemma MoveIffMoved(s: HostState)
    ensures MouseMove(s.mousePos) in MouseEvents(s) <==> s.mouseDelta.x != 0.0 || s.mouseDelta.y != 0.0
  {
    Forwarded(s, CheckMove);
  }

  // ---- the keyboard tiers, for any three tables ----

  /** The first pressed special key ends the keyboard part. */
  lemma SpecialTier(ctrl: bool, mods: Mask, pressed: ImGuiKey -> bool, tables: KeyTables, q: seq<ImWchar>, e: Entry)
    requires FirstPressed(tables.special, pressed).Some?
    requires tables.special[FirstPressed(tables.special, pressed).value] == e
    ensures KeyboardEvents(ctrl, mods, pressed, tables, q) == [KeyPress(e.code, mods)]
  {
  }

  /** With Ctrl and no special key, the first pressed punctuation key ends the keyboard part. */
  lemma ShiftableTier(mods: Mask, pressed: ImGuiKey -> bool, tables: KeyTables, q: seq<ImWchar>, e: Entry)
    requires FirstPressed(tables.special, pressed).None?
    requires FirstPressed(tables.shiftable, pressed).Some?
    requires tables.shiftable[FirstPressed(tables.shiftable, pressed).value] == e
    ensures KeyboardEvents(true, mods, pressed, tables, q) == [KeyPress(e.code, mods)]
  {
  }

  /** With Ctrl and neither a special nor a punctuation key, digit 1 selects Standard and otherwise digit 2 selects Vim. */
  lemma ModeTier(mods: Mask, pressed: ImGuiKey -> bool, tables: KeyTables, q: seq<ImWchar>)
    requires FirstPressed(tables.special, pressed).None?
    requires FirstPressed(tables.shiftable, pressed).None?
    ensures pressed(Key1) ==> KeyboardEvents(true, mods, pressed, tables, q) == [SetGlobalMode(Standard)]
    ensures !pressed(Key1) && pressed(Key2) ==> KeyboardEvents(true, mods, pressed, tables, q) == [SetGlobalMode(Vim)]
  {
  }

  /** With Ctrl and no earlier tier, every pressed alphanumeric entry is sent, else the queue is typed. */
  lemma ChordTier(mods: Mask, pressed: ImGuiKey -> bool, tables: KeyTables, q: seq<ImWchar>)
    requires FirstPressed(tables.special, pressed).None?
    requires FirstPressed(tables.shiftable, pressed).None?
    requires !pressed(Key1) && !pressed(Key2)
    ensures var chords := PressedEntries(tables.alnum, pressed);
      KeyboardEvents(true, mods, pressed, tables, q) == if chords != [] then Presses(Codes(chords), mods) else Fallback(q, mods)
  {
  }

  // ---- the tiers for the maps built from the declarations ----

  /** The chords a map yields: exactly its declared pressed entries, in ascending key value. */
  lemma ChordsOfDecl(decl: Table, rank: KeyOrder, pressed: ImGuiKey -> bool)
    requires DistinctRanks(decl, rank)
    ensures forall x :: x in PressedEntries(KeyMap(decl, rank), pressed) <==> x in decl && pressed(x.key)
    ensures SortedBy(PressedEntries(KeyMap(decl, rank), pressed), rank)
  {
    KeyMapIsDeclaration(decl, rank);
    PressedEntriesSorted(KeyMap(decl, rank), rank, pressed);
  }

  /** A declared entry of distinct key values is in the map. */
  lemma DeclaredIsMapped(decl: Table, rank: KeyOrder, e: Entry)
    requires DistinctRanks(decl, rank)
    requires e in decl
    ensures e in KeyMap(decl, rank)
  {
    KeyMapIsDeclaration(decl, rank);
  }

  /**
   * A pressed special key wins: the keyboard part is exactly one key press,
   * the code of the pressed MapUSBKeys entry with the least key value, with
   * the frame's mask, whatever Ctrl, the chords and the queue say.
   */
  lemma SpecialKeyWins(ctrl: bool, mods: Mask, pressed: ImGuiKey -> bool, rank: KeyOrder, q: seq<ImWchar>, e: Entry)
    requires e in SpecialTable(rank) && pressed(e.key)
    requires forall x :: x in SpecialTable(rank) && pressed(x.key) ==> rank(e.key) <= rank(x.key)
    ensures KeyboardEvents(ctrl, mods, pressed, TablesFor(rank), q) == [KeyPress(e.code, mods)]
  {
    FirstPressedIsLeast(SpecialTable(rank), rank, pressed, e);
    SpecialTier(ctrl, mods, pressed, TablesFor(rank), q, e);
  }

  /**
   * With Ctrl and no special key, a pressed punctuation key wins: one key
   * press of the unshifted character of the MapShiftableUSBKeys entry with
   * the least key value, whatever the mask says about Shift.
   */
  lemma CtrlPunctuationWins(mods: Mask, pressed: ImGuiKey -> bool, rank: KeyOrder, q: seq<ImWchar>, e: Entry)
    requires forall x :: x in SpecialTable(rank) ==> !pressed(x.key)
    requires e in ShiftableTable(rank) && pressed(e.key)
    requires forall x :: x in ShiftableTable(rank) && pressed(x.key) ==> rank(e.key) <= rank(x.key)
    ensures KeyboardEvents(true, mods, pressed, TablesFor(rank), q) == [KeyPress(e.code, mods)]
  {
    NoneOfMapPressed(SpecialTable(rank), pressed);
    FirstPressedIsLeast(ShiftableTable(rank), rank, pressed, e);
    ShiftableTier(mods, pressed, TablesFor(rank), q, e);
  }

  /**
   * Ctrl+1 selects the Standard mode: the keyboard part is that one switch,
   * with no key press, although digit 1 also has an entry in MapKeys.
   */
  lemma CtrlOneSelectsStandard(mods: Mask, pressed: ImGuiKey -> bool, rank: KeyOrder, q: seq<ImWchar>, m: ModeName)
    requires forall x :: x in SpecialTable(rank) ==> !pressed(x.key)
    requires forall x :: x in ShiftableTable(rank) ==> !pressed(x.key)
    requires pressed(Key1)
    ensures KeyboardEvents(true, mods, pressed, TablesFor(rank), q) == [SetGlobalMode(Standard)]
    ensures ModeAfter(m, KeyboardEvents(true, mods, pressed, TablesFor(rank), q)) == Standard
  {
    NoneOfMapPressed(SpecialTable(rank), pressed);
    NoneOfMapPressed(ShiftableTable(rank), pressed);
    ModeTier(mods, pressed, TablesFor(rank), q);
  }

  /** Ctrl+2 without Ctrl+1 selects the Vim mode, again with no key press. */
  lemma CtrlTwoSelectsVim(mods: Mask, pressed: ImGuiKey -> bool, rank: KeyOrder, q: seq<ImWchar>, m: ModeName)
    requires forall x :: x in SpecialTable(rank) ==> !pressed(x.key)
    requires forall x :: x in ShiftableTable(rank) ==> !pressed(x.key)
    requires !pressed(Key1) && pressed(Key2)
    ensures KeyboardEvents(true, mods, pressed, TablesFor(rank), q) == [SetGlobalMode(Vim)]
    ensures ModeAfter(m, KeyboardEvents(true, mods, pressed, TablesFor(rank), q)) == Vim
  {
    NoneOfMapPressed(SpecialTable(rank), pressed);
    NoneOfMapPressed(ShiftableTable(rank), pressed);
    ModeTier(mods, pressed, TablesFor(rank), q);
  }

  /** Digit 1, which selects Standard, also has a chord entry in MapKeys, which its mode switch shadows. */
  lemma KeyOneIsAlsoChord(rank: KeyOrder)
    requires ValidKeyOrder(rank)
    ensures Entry(Key1, Ch('1')) in AlnumTable(rank)
  {
    DeclaredIsMapped(AlnumDecl, rank, Entry(Key1, Ch('1')));
  }

  /** Likewise digit 2, which selects Vim. */
  lemma KeyTwoIsAlsoChord(rank: KeyOrder)
    requires ValidKeyOrder(rank)
    ensures Entry(Key2, Ch('2')) in AlnumTable(rank)
  {
    DeclaredIsMapped(AlnumDecl, rank, Entry(Key2, Ch('2')));
  }

  /**
   * The alphanumeric chords: with Ctrl and no earlier tier, every pressed
   * MapKeys entry is sent, each once and in ascending key value, and the
   * character fallback runs exactly when none was pressed.
   */
  lemma CtrlChordsAll(mods: Mask, pressed: ImGuiKey -> bool, rank: KeyOrder, q: seq<ImWchar>)
    requires forall x :: x in SpecialTable(rank) ==> !pressed(x.key)
    requires forall x :: x in ShiftableTable(rank) ==> !pressed(x.key)
    requires !pressed(Key1) && !pressed(Key2)
    ensures var chords := PressedEntries(AlnumTable(rank), pressed);
      && (forall x :: x in chords <==> x in AlnumTable(rank) && pressed(x.key))
      && SortedBy(chords, rank)
      && KeyboardEvents(true, mods, pressed, TablesFor(rank), q)
         == if chords != [] then Presses(Codes(chords), mods) else Fallback(q, mods)
  {
    NoneOfMapPressed(SpecialTable(rank), pressed);
    NoneOfMapPressed(ShiftableTable(rank), pressed);
    PressedEntriesSorted(AlnumTable(rank), rank, pressed);
    ChordTier(mods, pressed, TablesFor(rank), q);
  }

  /** Every pressed alphanumeric key's character is among the chord presses. */
  lemma ChordSentForEveryPressedKey(mods: Mask, pressed: ImGuiKey -> bool, rank: KeyOrder, q: seq<ImWchar>, e: Entry)
    requires forall x :: x in SpecialTable(rank) ==> !pressed(x.key)
    requires forall x :: x in ShiftableTable(rank) ==> !pressed(x.key)
    requires !pressed(Key1) && !pressed(Key2)
    requires e in AlnumTable(rank) && pressed(e.key)
    ensures KeyPress(e.code, mods) in KeyboardEvents(true, mods, pressed, TablesFor(rank), q)
  {
    NoneOfMapPressed(SpecialTable(rank), pressed);
    NoneOfMapPressed(ShiftableTable(rank), pressed);
    ChordTier(mods, pressed, TablesFor(rank), q);
    PressedChordSent(AlnumTable(rank), pressed, mods, e);
  }

  /** Without Ctrl and with no special key, the keyboard part is the character fallback. */
  lemma NoCtrlTypesQueue(mods: Mask, pressed: ImGuiKey -> bool, rank: KeyOrder, q: seq<ImWchar>)
    requires forall x :: x in SpecialTable(rank) ==> !pressed(x.key)
    ensures KeyboardEvents(false, mods, pressed, TablesFor(rank), q) == Fallback(q, mods)
  {
    NoneOfMapPressed(SpecialTable(rank), pressed);
  }

  // ---- the character fallback ----

  /** Dropping '\r' distributes over concatenation. */
  lemma {:induction false} TypedKeysConcat(a: seq<ImWchar>, b: seq<ImWchar>)
    ensures TypedKeys(a + b) == TypedKeys(a) + TypedKeys(b)
  {
    if b == [] {
      assert a + b == a;
    } else {
      var init := b[..|b| - 1];
      assert (a + b)[..|a + b| - 1] == a + init;
      TypedKeysConcat(a, init);
    }
  }

  /** The fallback reads the queue up to its first zero character and ignores the rest. */
  lemma FallbackStopsAtZero(a: seq<ImWchar>, rest: seq<ImWchar>, mods: Mask)
    requires forall i :: 0 <= i < |a| ==> a[i] != 0
    ensures Fallback(a + [0] + rest, mods) == Presses(TypedKeys(a), mods)
  {
    var q := a + [0] + rest;
    assert forall i :: 0 <= i < |a| ==> q[i] == a[i];
    assert q[|a|] == 0;
    assert LiveLength(q) == |a|;
    assert q[..|a|] == a;
  }

  /** A queue without a zero character is read to its end. */
  lemma FallbackReadsAll(q: seq<ImWchar>, mods: Mask)
    requires forall i :: 0 <= i < |q| ==> q[i] != 0
    ensures Fallback(q, mods) == Presses(TypedKeys(q), mods)
  {
    var n := LiveLength(q);
    assert n == |q|;
    assert q[..n] == q;
  }

  /** A '\r' anywhere in the queue is dropped, and nothing else around it changes. */
  lemma TypedKeysDropsReturn(a: seq<ImWchar>, b: seq<ImWchar>)
    ensures TypedKeys(a + [CarriageReturn] + b) == TypedKeys(a) + TypedKeys(b)
  {
    TypedKeysConcat(a + [CarriageReturn], b);
    TypedKeysConcat(a, [CarriageReturn]);
    assert TypedKeys([CarriageReturn]) == [] by {
      assert [CarriageReturn][..0] == [];
    }
    assert TypedKeys(a) + [] == TypedKeys(a);
  }

  /** One character other than '\r' types its own code. */
  lemma TypedKeysSingle(c: ImWchar)
    requires c != CarriageReturn
    ensures TypedKeys([c]) == [Char(c)]
  {
    assert [c][..0] == [];
  }

  /** The queue 'a', '\r', 'b' (97, 13, 98) types the codes 'a' then 'b'. */
  lemma TypedKeysSkipsReturn()
    ensures TypedKeys([97, 13, 98]) == [Char(97), Char(98)]
  {
    assert [97, 13, 98] == [97] + [CarriageReturn] + [98];
    TypedKeysDropsReturn([97], [98]);
    TypedKeysSingle(97);
    TypedKeysSingle(98);
  }

  /** With that queue and no key tier taking the frame, the editor receives a press of 'a' then of 'b'. */
  lemma FallbackSkipsReturn(mods: Mask)
    ensures Fallback([97, 13, 98], mods) == [KeyPress(Char(97), mods), KeyPress(Char(98), mods)]
  {
    FallbackReadsAll([97, 13, 98], mods);
    TypedKeysSkipsReturn();
    assert Presses([Char(97), Char(98)], mods) == [KeyPress(Char(97), mods), KeyPress(Char(98), mods)];
  }
}

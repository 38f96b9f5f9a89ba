# Zep's ImGui input translator, in Dafny

This project models `ZepEditor_ImGui::HandleInput`, the per-frame pass in Zep's
ImGui front end. It reads the host's input snapshot (`ImGuiIO`) and turns it into
editor events, in a fixed order:

1. It forwards mouse move, press, release and wheel events to the editor.
   A consumed press or release of either button clears `MouseClicked[0]`; a consumed
   wheel event zeroes `MouseWheel`.
2. It builds the modifier mask from Ctrl, Alt and Shift.
3. It gives up on the keyboard when there is no active buffer.
4. It runs the keyboard tiers against three static key maps:
   - the special keys, where the first pressed key wins;
   - with Ctrl, the punctuation keys, where the first pressed key wins;
   - Ctrl+1 and Ctrl+2, which switch the global mode;
   - Ctrl plus the alphanumeric keys, where every pressed key is sent.
5. When no tier handled the frame, it types the queued characters.

Modules:

- `Keys` holds the three key maps, as declared.
  - Each map is built as a `std::map` builds it: by insertion into a sequence sorted
    by key value.
  - The key values of `ImGuiKey` are an abstract order, `rank`.
- `Modifiers` holds the modifier mask (`bv32`).
- `Events` holds what the engine receives: mouse events, `KeyPress(code, mods)` and
  `SetGlobalMode(mode)`. It also defines `ModeAfter`, the global mode after a run of
  events.
- `Translate` gives the meaning of one frame as functions:
  - `MouseEvents` for the mouse phase;
  - `KeyboardEvents` for the keyboard tiers, with `CtrlChords` and `Fallback`;
  - `FrameEvents` for the whole frame.
- `EditorImGui` is the imperative translator.
  - `HostIO` is the snapshot, with `MouseClicked[0]` and `MouseWheel` updated in place.
  - `Editor` holds the event log, the global mode and the three maps (built once, as
    the source's `static` maps are).
  - `Editor.HandleInput` and the methods under it are proved to send exactly
    `FrameEvents` and to change exactly the host flags the source clears.
- `Properties` proves what a frame amounts to:
  - the precedence of the tiers;
  - first-match scans in ascending key order;
  - every chord being sent;
  - '\r' skipped and the stop at the first zero in the character queue;
  - independence and order of the mouse checks.

Inputs that are not part of the translator are parameters:

- `IsKeyPressed` is `pressed: ImGuiKey -> bool`.
- What each `OnMouse*` callback returns, and whether `GetActiveBuffer` finds a buffer,
  are the booleans of `EngineReplies`.
- The editor's side of `AddKeyPress`, `OnMouse*` and `SetGlobalMode` is the appended
  event. `SetGlobalMode` also sets `globalMode`.

The key-map lemmas in `Properties` are stated over the maps themselves
(`SpecialTable(rank)`, `ShiftableTable(rank)`, `AlnumTable(rank)`), which are what the
source iterates. `Keys.KeyMapIsDeclaration` proves that each map holds exactly the
declared entries, in ascending key order, once the declared keys have distinct values.

## Model

| member | source | states |
|---|---|---|
| Keys.Insert | include/zep/imgui/editor_imgui.h:35-61 | Inserting into a sorted map keeps it sorted. It adds only the new entry. When the key value is present the map is unchanged; otherwise the multiset grows by exactly the entry. |
| Keys.KeyMap | include/zep/imgui/editor_imgui.h:35-116 | The map built from a declaration list is sorted by key value and holds only declared entries. With distinct key values it is a permutation of the declaration. |
| Keys.KeyMapIsDeclaration | include/zep/imgui/editor_imgui.h:35-116 | With distinct key values, an entry is in the map iff it is declared. The map is sorted and as long as the declaration. |
| Keys.SpecialDeclKinds | include/zep/imgui/editor_imgui.h:35-61 | Every MapUSBKeys entry is a special key and maps to a named editor key. |
| Keys.ShiftableDeclKinds | include/zep/imgui/editor_imgui.h:62-74 | Every MapShiftableUSBKeys entry is a punctuation key and maps to an ASCII character. |
| Keys.AlnumDeclKinds | include/zep/imgui/editor_imgui.h:75-116 | Every MapKeys entry is alphanumeric and maps to an ASCII character. Entries 1 and 2 are the digits '1' and '2'. |
| Keys.DeclsShareNoKey | include/zep/imgui/editor_imgui.h:35-116 | No host key is declared in two of the three maps, so a pressed key belongs to at most one tier. |
| Modifiers.MaskOf | include/zep/imgui/editor_imgui.h:168-181 | Each of the Ctrl, Alt and Shift bits is set iff its host flag is. No other bit is ever set. The mask is zero iff no flag is set. |
| Modifiers.MaskOfInjective | include/zep/imgui/editor_imgui.h:168-181 | Different flag combinations give different masks. |
| EditorImGui.ModifierMask | include/zep/imgui/editor_imgui.h:168-181 | The mask OR-ed together one flag at a time equals MaskOf of the host flags. |
| Events.Presses | include/zep/imgui/editor_imgui.h:194-241 | Each `AddKeyPress(code, mod)` call becomes one KeyPress: one per code, in order, all carrying the same mask. |
| Events.ModeAfter | include/zep/imgui/editor_imgui.h:210-219 | With no mode switch among the events the mode is unchanged. Otherwise the result is the old mode or a mode that was switched to. |
| Events.ModeAfterConcat | include/zep/imgui/editor_imgui.h:210-219 | The mode after two runs of events is the mode after the second, started from where the first left it. |
| Translate.Forward | include/zep/imgui/editor_imgui.h:118-166 | An event is forwarded iff some check fires and sends it. There are no more events than checks; for the frame's six checks, MouseEventsInOrder gives at most one event per check. |
| Translate.MouseEvents | include/zep/imgui/editor_imgui.h:118-166 | Every event of the mouse phase is a mouse event at the current mouse position. |
| Translate.Forwarded | include/zep/imgui/editor_imgui.h:118-166 | Each check's event is sent iff its host condition holds. This covers a nonzero delta, each click or release flag, and a nonzero wheel. |
| Translate.MouseEventsInOrder | include/zep/imgui/editor_imgui.h:118-166 | The mouse events come strictly in the order move, left down, right down, left up, right up, wheel. |
| Translate.FirstPressed | include/zep/imgui/editor_imgui.h:190-209 | The scan returns the first pressed entry, with no pressed entry before it. It returns nothing iff no entry is pressed. |
| Translate.PressedEntries | include/zep/imgui/editor_imgui.h:222-229 | An entry is among the chords iff it is in the map and its key is pressed. |
| Translate.LiveLength | include/zep/imgui/editor_imgui.h:235 | The loop reads up to the first zero character, or to the queue's size when there is none. |
| Translate.TypedKeysMembers | include/zep/imgui/editor_imgui.h:235-242 | Typed codes are queued characters other than '\r'. Every queued character other than '\r' is typed. With no '\r' in the queue, the codes are the characters one for one, in arrival order. |
| Translate.TypedKeys | include/zep/imgui/editor_imgui.h:235-242 | Typing a queue never gives more codes than it has characters. |
| Translate.TypedKeysCount | include/zep/imgui/editor_imgui.h:235-242 | Exactly one code is typed per queued character other than '\r'. |
| Translate.Fallback | include/zep/imgui/editor_imgui.h:233-243 | The fallback sends at most one press per live character. Each is a character press with the frame's mask, of a character in the queue that is neither '\r' nor zero. |
| Translate.CtrlChords | include/zep/imgui/editor_imgui.h:199-231 | The Ctrl tiers send something iff CtrlHandled. They send only key presses with the mask, or one mode switch on its own. |
| Translate.CtrlHandled | include/zep/imgui/editor_imgui.h:199-231 | The `handled` flag, or the early return, is set iff some punctuation key, digit 1 or 2, or alphanumeric key of the maps is pressed. |
| Translate.KeyboardEvents | include/zep/imgui/editor_imgui.h:189-243 | The keyboard phase sends only key presses carrying the frame's mask and mode switches. A mode switch needs Ctrl and is the only event of the phase. |
| Translate.FrameEvents | include/zep/imgui/editor_imgui.h:27-244 | A frame sends mouse events, key presses with the frame's mask, and mode switches only. Without an active buffer it sends only mouse events. Without Ctrl it never switches the mode. |
| EditorImGui.HostIO.constructor | include/zep/imgui/editor_imgui.h:29 | The snapshot holds exactly the host state it is given. |
| EditorImGui.Editor.constructor | include/zep/imgui/editor_imgui.h:35-116 | The editor's maps are the three static maps, built from their declarations. The event log starts empty. |
| EditorImGui.Editor.AddKeyPress | include/zep/imgui/editor_imgui.h:194-241 | A key press for the active mode is appended to the event log, with its mask. The global mode is unchanged. |
| EditorImGui.Editor.SetMode | include/zep/imgui/editor_imgui.h:212-217 | The mode switch is appended to the event log, and the global mode becomes the new mode. |
| EditorImGui.Editor.ForwardMouse | include/zep/imgui/editor_imgui.h:118-166 | The mouse phase appends exactly MouseEvents and keeps the mode. A consumed press or release of either button clears MouseClicked[0]. The other MouseClicked entries are untouched. A consumed wheel event zeroes the wheel. |
| EditorImGui.Editor.ForwardMove | include/zep/imgui/editor_imgui.h:118-121 | A move is sent iff the delta is nonzero. |
| EditorImGui.Editor.ForwardPresses | include/zep/imgui/editor_imgui.h:123-139 | Either press is sent when its flag is set. A consumed press of either button clears MouseClicked[0]. |
| EditorImGui.Editor.ForwardReleases | include/zep/imgui/editor_imgui.h:141-157 | Either release is sent when its flag is set. A consumed release of either button clears MouseClicked[0]. |
| EditorImGui.Editor.ForwardButton | include/zep/imgui/editor_imgui.h:123-130 | One check sends its event iff its flag is set. It clears MouseClicked[0] iff the event was sent and consumed. |
| EditorImGui.Editor.ForwardWheel | include/zep/imgui/editor_imgui.h:159-166 | The wheel event is sent iff the wheel is nonzero. The wheel is zeroed iff that event was consumed. |
| EditorImGui.Editor.DispatchKeys | include/zep/imgui/editor_imgui.h:189-243 | The keyboard phase appends exactly KeyboardEvents. The mode becomes the last mode switched to. |
| EditorImGui.Editor.DispatchCtrl | include/zep/imgui/editor_imgui.h:199-231 | `handled` is true iff a Ctrl tier applies, and then exactly CtrlChords is appended. Otherwise nothing changes. |
| EditorImGui.Editor.SendFirstPressed | include/zep/imgui/editor_imgui.h:190-197 | The loop sends the code of the first pressed entry and stops. It reports whether there was one, and sends nothing when there was not. |
| EditorImGui.Editor.SendChords | include/zep/imgui/editor_imgui.h:222-229 | The loop sends every pressed entry's code, in map order. `handled` is true iff at least one was sent. |
| EditorImGui.Editor.SendTyped | include/zep/imgui/editor_imgui.h:233-243 | The loop sends exactly Fallback of the queue and leaves the mode unchanged. |
| EditorImGui.Editor.HandleInput | include/zep/imgui/editor_imgui.h:27-244 | One frame appends exactly FrameEvents of the snapshot. The mode is the last one switched to. MouseClicked[0] is cleared iff a press or release was consumed, and nothing else in MouseClicked changes. The wheel is zeroed iff the wheel event was consumed. |
| Properties.FirstPressedIsLeast | include/zep/imgui/editor_imgui.h:190-197 | In a sorted map, the first pressed entry is the pressed entry with the least key value. |
| Properties.NoneOfMapPressed | include/zep/imgui/editor_imgui.h:190-197 | A map with no pressed key stops no scan and yields no chord. |
| Properties.PressedChordSent | include/zep/imgui/editor_imgui.h:222-229 | A pressed entry's code is among the chord presses, so the chords are not empty. |
| Properties.PressedEntriesSorted | include/zep/imgui/editor_imgui.h:222-229 | The chords of a sorted map are in ascending key order. |
| Properties.NoActiveBufferOnlyMouse | include/zep/imgui/editor_imgui.h:183-187 | Without an active buffer the frame is its mouse events. There is no key press and no mode switch. |
| Properties.MouseBeforeKeys | include/zep/imgui/editor_imgui.h:118-243 | With an active buffer, the frame starts with the mouse events unchanged. Nothing after them is a mouse event. |
| Properties.MoveIffMoved | include/zep/imgui/editor_imgui.h:118-121 | A move event is sent iff the mouse delta is nonzero. |
| Properties.SpecialTier | include/zep/imgui/editor_imgui.h:190-197 | With any maps, a pressed special key ends the keyboard phase with that one press. |
| Properties.ShiftableTier | include/zep/imgui/editor_imgui.h:199-209 | With Ctrl and no special key, a pressed punctuation key ends the phase with that one press. |
| Properties.ModeTier | include/zep/imgui/editor_imgui.h:210-219 | With Ctrl and neither tier above, digit 1 gives only the switch to Standard. Otherwise digit 2 gives only the switch to Vim. |
| Properties.ChordTier | include/zep/imgui/editor_imgui.h:220-233 | With Ctrl and no earlier tier, the phase is the presses of all pressed alphanumeric entries. When there are none, it is the character fallback. |
| Properties.ChordsOfDecl | include/zep/imgui/editor_imgui.h:220-229 | The chords are exactly the declared pressed entries, in ascending key order. |
| Properties.DeclaredIsMapped | include/zep/imgui/editor_imgui.h:35-116 | A declared entry is in its map. |
| Properties.SpecialKeyWins | include/zep/imgui/editor_imgui.h:189-197 | A pressed special key gives exactly one press: that of the least-valued pressed MapUSBKeys entry, with the mask. Nothing else is sent, regardless of Ctrl, chords or queue. |
| Properties.CtrlPunctuationWins | include/zep/imgui/editor_imgui.h:199-209 | With Ctrl and no special key, the phase is exactly one press of the least-valued pressed punctuation entry's unshifted character. |
| Properties.CtrlOneSelectsStandard | include/zep/imgui/editor_imgui.h:210-214 | Ctrl+1 with no earlier tier sends only the switch to Standard, and the mode becomes Standard. |
| Properties.CtrlTwoSelectsVim | include/zep/imgui/editor_imgui.h:215-219 | Ctrl+2 without 1 and with no earlier tier sends only the switch to Vim, and the mode becomes Vim. |
| Properties.KeyOneIsAlsoChord | include/zep/imgui/editor_imgui.h:75-116 | Digit 1 has a MapKeys entry, which its mode switch shadows. |
| Properties.KeyTwoIsAlsoChord | include/zep/imgui/editor_imgui.h:75-116 | Digit 2 has a MapKeys entry, which its mode switch shadows. |
| Properties.CtrlChordsAll | include/zep/imgui/editor_imgui.h:220-233 | The chords are exactly the map's pressed entries, in ascending key order. All of them are sent. The fallback runs iff there are none. |
| Properties.ChordSentForEveryPressedKey | include/zep/imgui/editor_imgui.h:222-229 | Every pressed alphanumeric entry's character is sent, not only the first. |
| Properties.NoCtrlTypesQueue | include/zep/imgui/editor_imgui.h:233-243 | Without Ctrl and with no special key, the phase is the character fallback. |
| Properties.TypedKeysConcat | include/zep/imgui/editor_imgui.h:235-242 | Typing two queues in turn types their concatenation, so arrival order is kept. |
| Properties.FallbackStopsAtZero | include/zep/imgui/editor_imgui.h:235 | Everything from the first zero character on is ignored. |
| Properties.FallbackReadsAll | include/zep/imgui/editor_imgui.h:235 | A queue without a zero character is read to its size. |
| Properties.TypedKeysDropsReturn | include/zep/imgui/editor_imgui.h:237-239 | A '\r' anywhere in the queue is dropped, and its neighbours are kept. |
| Properties.TypedKeysSingle | include/zep/imgui/editor_imgui.h:241 | A character other than '\r' types its own code. |
| Properties.TypedKeysSkipsReturn | include/zep/imgui/editor_imgui.h:235-242 | The queue 'a', '\r', 'b' types 'a' then 'b'. |
| Properties.FallbackSkipsReturn | include/zep/imgui/editor_imgui.h:233-243 | The fallback on 'a', '\r', 'b' sends a press of 'a' then of 'b', with the mask. |

## Left out

- `ImGui::GetIO` and `ImGui::IsKeyPressed`:
  - the snapshot is a `HostIO` object;
  - "pressed" is an abstract predicate;
  - IsKeyPressed's key-repeat and per-frame timing are not modelled.
- The engine callbacks (`OnMouseMove/Down/Up/Wheel`, `GetActiveBuffer`, `GetMode()->AddKeyPress`, `SetGlobalMode`):
  - their results are the oracle booleans in `EngineReplies`;
  - their effects are the appended events;
  - what the editor does with them is not visible here.
- The `ZepEditor_ImGui` constructor and `toNVec2f`: object wiring and vector conversion. Positions are passed on unchanged.
- Floating point: mouse position, delta and wheel are `real`. Only their zero tests matter, and the wheel value is passed on.
- Numeric values:
  - the values of `ImGuiKey`, `ExtKeys::*` and `ModifierKey::*` are defined outside this file;
  - key values are an abstract order, `rank`, and the lemmas assume they are distinct within each map;
  - `ExtKeys` are distinct constructors that never collide with character codes;
  - the modifier bits are Ctrl=1, Alt=2, Shift=4, relying only on their being distinct single bits.
- Static maps: the three `static std::map` locals are initialised once per process. This is modelled by building them once, in the `Editor` constructor.
- Host arrays: only `MouseClicked[0..1]` and `MouseReleased[0..1]` are read. The other entries of the five-entry arrays are carried but unused.
- `MouseClicked[0]` is cleared for consumed right-button and release events, as the source does. This is modelled as written: only index 0 is ever cleared.

/**
 * The three static key tables of ZepEditor_ImGui::HandleInput.
 *
 * Each table is a `std::map<ImGuiKey, int>`: built once from an initializer
 * list and iterated in ascending ImGuiKey value. The numeric values of the
 * ImGuiKey enumeration are not part of this model; they are the parameter
 * `rank`, and a table is the declared entries inserted one by one into a
 * sequence kept sorted by `rank`.
 */
module Keys {

  /** Host key identifiers (ImGuiKey). `Other` stands for every key no table names. */
  datatype ImGuiKey =
    | F1 | F2 | F3 | F4 | F5 | F6 | F7 | F8 | F9 | F10 | F11 | F12
    | Tab | Escape | Enter | Delete | Home | End | Backspace
    | RightArrow | LeftArrow | UpArrow | DownArrow | PageDown | PageUp
    | Apostrophe | Comma | Minus | Period | Slash | Semicolon | Equal
    | LeftBracket | Backslash | RightBracket | GraveAccent
    | Key0 | Key1 | Key2 | Key3 | Key4 | Key5 | Key6 | Key7 | Key8 | Key9
    | A | B | C | D | E | F | G | H | I | J | K | L | M
    | N | O | P | Q | R | S | T | U | V | W | X | Y | Z
    | Space
    | Other(id: nat)

  /** Zep's named editor keys (ExtKeys); only their distinctness matters here. */
  datatype ExtKey =
    | F1 | F2 | F3 | F4 | F5 | F6 | F7 | F8 | F9 | F10 | F11 | F12
    | Tab | Escape | Return | Del | Home | End | Backspace
    | Right | Left | Up | Down | PageDown | PageUp

  /**
   * A normalized code handed to the mode handler: a named key or a raw
   * character code. The two never collide.
   */
  datatype KeyCode = Ext(key: ExtKey) | Char(code: nat)

  function Ch(c: char): KeyCode { Char(c as nat) }

  datatype Entry = Entry(key: ImGuiKey, code: KeyCode)

  type Table = seq<Entry>

  /** The numeric value of each ImGuiKey, which orders every std::map<ImGuiKey, int>. */
  type KeyOrder = ImGuiKey -> int

  /** MapUSBKeys, as written. */
  const SpecialDecl: Table := [
    Entry(ImGuiKey.F1, Ext(ExtKey.F1)), Entry(ImGuiKey.F2, Ext(ExtKey.F2)),
    Entry(ImGuiKey.F3, Ext(ExtKey.F3)), Entry(ImGuiKey.F4, Ext(ExtKey.F4)),
    Entry(ImGuiKey.F5, Ext(ExtKey.F5)), Entry(ImGuiKey.F6, Ext(ExtKey.F6)),
    Entry(ImGuiKey.F7, Ext(ExtKey.F7)), Entry(ImGuiKey.F8, Ext(ExtKey.F8)),
    Entry(ImGuiKey.F9, Ext(ExtKey.F9)), Entry(ImGuiKey.F10, Ext(ExtKey.F10)),
    Entry(ImGuiKey.F11, Ext(ExtKey.F11)), Entry(ImGuiKey.F12, Ext(ExtKey.F12)),
    Entry(ImGuiKey.Tab, Ext(ExtKey.Tab)),
    Entry(ImGuiKey.Escape, Ext(ExtKey.Escape)),
    Entry(Enter, Ext(Return)),
    Entry(Delete, Ext(Del)),
    Entry(ImGuiKey.Home, Ext(ExtKey.Home)),
    Entry(ImGuiKey.End, Ext(ExtKey.End)),
    Entry(ImGuiKey.Backspace, Ext(ExtKey.Backspace)),
    Entry(RightArrow, Ext(Right)),
    Entry(LeftArrow, Ext(Left)),
    Entry(UpArrow, Ext(Up)),
    Entry(DownArrow, Ext(Down)),
    Entry(ImGuiKey.PageDown, Ext(ExtKey.PageDown)),
    Entry(ImGuiKey.PageUp, Ext(ExtKey.PageUp))
  ]

  /** MapShiftableUSBKeys, as written: each key maps to its unshifted character. */
  const ShiftableDecl: Table := [
    Entry(Apostrophe, Ch('\'')), Entry(Comma, Ch(',')), Entry(Minus, Ch('-')),
    Entry(Period, Ch('.')), Entry(Slash, Ch('/')), Entry(Semicolon, Ch(';')),
    Entry(Equal, Ch('=')), Entry(LeftBracket, Ch('[')), Entry(Backslash, Ch('\\')),
    Entry(RightBracket, Ch(']')), Entry(GraveAccent, Ch('`'))
  ]

  /** MapKeys, as written: digits, lower-case letters and space. */
  const AlnumDecl: Table := [
    Entry(Key0, Ch('0')), Entry(Key1, Ch('1')), Entry(Key2, Ch('2')), Entry(Key3, Ch('3')),
    Entry(Key4, Ch('4')), Entry(Key5, Ch('5')), Entry(Key6, Ch('6')), Entry(Key7, Ch('7')),
    Entry(Key8, Ch('8')), Entry(Key9, Ch('9')),
    Entry(A, Ch('a')), Entry(B, Ch('b')), Entry(C, Ch('c')), Entry(D, Ch('d')),
    Entry(E, Ch('e')), Entry(F, Ch('f')), Entry(G, Ch('g')), Entry(H, Ch('h')),
    Entry(I, Ch('i')), Entry(J, Ch('j')), Entry(K, Ch('k')), Entry(L, Ch('l')),
    Entry(M, Ch('m')), Entry(N, Ch('n')), Entry(O, Ch('o')), Entry(P, Ch('p')),
    Entry(Q, Ch('q')), Entry(R, Ch('r')), Entry(S, Ch('s')), Entry(T, Ch('t')),
    Entry(U, Ch('u')), Entry(V, Ch('v')), Entry(W, Ch('w')), Entry(X, Ch('x')),
    Entry(Y, Ch('y')), Entry(Z, Ch('z')),
    Entry(Space, Ch(' '))
  ]

  /** Strictly ascending key order, the iteration order of a std::map. */
  predicate SortedBy(t: Table, rank: KeyOrder) {
    forall i, j :: 0 <= i < j < |t| ==> rank(t[i].key) < rank(t[j].key)
  }

  /** No two declared entries share a key value. */
  predicate DistinctRanks(d: Table, rank: KeyOrder) {
    forall i, j :: 0 <= i < j < |d| ==> rank(d[i].key) != rank(d[j].key)
  }

  /** The ImGuiKey enumeration gives distinct values to the keys of each table. */
  predicate ValidKeyOrder(rank: KeyOrder) {
    DistinctRanks(SpecialDecl, rank) && DistinctRanks(ShiftableDecl, rank) && DistinctRanks(AlnumDecl, rank)
  }

  predicate HasRank(t: Table, rank: KeyOrder, v: int) {
    exists x :: x in t && rank(x.key) == v
  }

  /**
   * std::map insertion: the entry goes where its key value belongs; an entry
   * whose key value is already present is not inserted.
   */
  function Insert(t: Table, e: Entry, rank: KeyOrder): (r: Table)
    requires SortedBy(t, rank)
    ensures SortedBy(r, rank)
    ensures forall x :: x in r ==> x in t || x == e
    ensures HasRank(t, rank, rank(e.key)) ==> r == t
    ensures !HasRank(t, rank, rank(e.key)) ==> multiset(r) == multiset(t) + multiset{e}
  {
    if t == [] then [e]
    else if rank(e.key) < rank(t[0].key) then
      BelowHead(t, rank, rank(e.key));
      [e] + t
    else if rank(e.key) == rank(t[0].key) then t
    else
      var rest := Insert(t[1..], e, rank);
      HasRankPastHead(t, rank, rank(e.key));
      ConsSorted(t, e, rank, rest);
      assert t == [t[0]] + t[1..];
      [t[0]] + rest
  }

  /** A key value below a sorted map's first key is not in the map. */
  lemma BelowHead(t: Table, rank: KeyOrder, v: int)
    requires SortedBy(t, rank) && t != [] && v < rank(t[0].key)
    ensures !HasRank(t, rank, v)
  {
    forall x | x in t ensures rank(x.key) != v {
      var k :| 0 <= k < |t| && t[k] == x;
    }
  }

  /** A key value other than the first key is in a map iff it is in the map's tail. */
  lemma HasRankPastHead(t: Table, rank: KeyOrder, v: int)
    requires t != [] && v != rank(t[0].key)
    ensures HasRank(t, rank, v) <==> HasRank(t[1..], rank, v)
  {
    if HasRank(t, rank, v) {
      var x :| x in t && rank(x.key) == v;
      var k :| 0 <= k < |t| && t[k] == x;
      assert t[1..][k - 1] == x;
    }
    if HasRank(t[1..], rank, v) {
      var x :| x in t[1..] && rank(x.key) == v;
      assert x in t;
    }
  }

  /** The first entry of a sorted map, put back before its tail with an entry of larger key inserted, keeps the map sorted. */
  lemma ConsSorted(t: Table, e: Entry, rank: KeyOrder, rest: Table)
    requires SortedBy(t, rank) && t != [] && rank(t[0].key) < rank(e.key)
    requires SortedBy(rest, rank)
    requires forall x :: x in rest ==> x in t[1..] || x == e
    ensures SortedBy([t[0]] + rest, rank)
  {
    var r := [t[0]] + rest;
    forall j | 0 < j < |r| ensures rank(t[0].key) < rank(r[j].key) {
      assert r[j] == rest[j - 1];
      assert rest[j - 1] in rest;
      if rest[j - 1] != e {
        var k :| 0 <= k < |t[1..]| && t[1..][k] == rest[j - 1];
        assert t[k + 1] == rest[j - 1];
      }
    }
    forall i, j | 0 <= i < j < |r| ensures rank(r[i].key) < rank(r[j].key) {
      if i > 0 {
        assert r[i] == rest[i - 1] && r[j] == rest[j - 1];
      }
    }
  }

  /** The std::map built from a declaration list, in ascending key order. */
  function KeyMap(decl: Table, rank: KeyOrder): (r: Table)
    ensures SortedBy(r, rank)
    ensures forall x :: x in r ==> x in decl
    ensures DistinctRanks(decl, rank) ==> multiset(r) == multiset(decl)
  {
    if decl == [] then []
    else
      var init := decl[..|decl| - 1];
      var last := decl[|decl| - 1];
      var m := KeyMap(init, rank);
      assert decl == init + [last];
      if DistinctRanks(decl, rank) then
        assert DistinctRanks(init, rank);
        assert !HasRank(m, rank, rank(last.key)) by {
          forall x | x in m ensures rank(x.key) != rank(last.key) {
            var k :| 0 <= k < |init| && init[k] == x;
            assert decl[k] == x;
          }
        }
        Insert(m, last, rank)
      else
        Insert(m, last, rank)
  }

  function SpecialTable(rank: KeyOrder): Table { KeyMap(SpecialDecl, rank) }

  function ShiftableTable(rank: KeyOrder): Table { KeyMap(ShiftableDecl, rank) }

  function AlnumTable(rank: KeyOrder): Table { KeyMap(AlnumDecl, rank) }

  /** The three static maps HandleInput consults. */
  datatype KeyTables = KeyTables(special: Table, shiftable: Table, alnum: Table)

  function TablesFor(rank: KeyOrder): KeyTables {
    KeyTables(SpecialTable(rank), ShiftableTable(rank), AlnumTable(rank))
  }

  /** A std::map built from distinct keys holds exactly its declared entries, sorted. */
  lemma KeyMapIsDeclaration(decl: Table, rank: KeyOrder)
    requires DistinctRanks(decl, rank)
    ensures SortedBy(KeyMap(decl, rank), rank)
    ensures forall e :: e in KeyMap(decl, rank) <==> e in decl
    ensures |KeyMap(decl, rank)| == |decl|
  {
    var m := KeyMap(decl, rank);
    forall e ensures e in m <==> e in decl {
      assert e in m <==> e in multiset(m);
      assert e in decl <==> e in multiset(decl);
    }
    assert |multiset(m)| == |m| && |multiset(decl)| == |decl|;
  }

  /** The group of host keys each map declares (none for the others); it shows the three maps share no key. */
  datatype TableKind = Special | Shiftable | Alnum | NoTable

  function KindOf(k: ImGuiKey): TableKind {
    match k
    case F1 => Special
    case F2 => Special
    case F3 => Special
    case F4 => Special
    case F5 => Special
    case F6 => Special
    case F7 => Special
    case F8 => Special
    case F9 => Special
    case F10 => Special
    case F11 => Special
    case F12 => Special
    case Tab => Special
    case Escape => Special
    case Enter => Special
    case Delete => Special
    case Home => Special
    case End => Special
    case Backspace => Special
    case RightArrow => Special
    case LeftArrow => Special
    case UpArrow => Special
    case DownArrow => Special
    case PageDown => Special
    case PageUp => Special
    case Apostrophe => Shiftable
    case Comma => Shiftable
    case Minus => Shiftable
    case Period => Shiftable
    case Slash => Shiftable
    case Semicolon => Shiftable
    case Equal => Shiftable
    case LeftBracket => Shiftable
    case Backslash => Shiftable
    case RightBracket => Shiftable
    case GraveAccent => Shiftable
    case Key0 => Alnum
    case Key1 => Alnum
    case Key2 => Alnum
    case Key3 => Alnum
    case Key4 => Alnum
    case Key5 => Alnum
    case Key6 => Alnum
    case Key7 => Alnum
    case Key8 => Alnum
    case Key9 => Alnum
    case A => Alnum
    case B => Alnum
    case C => Alnum
    case D => Alnum
    case E => Alnum
    case F => Alnum
    case G => Alnum
    case H => Alnum
    case I => Alnum
    case J => Alnum
    case K => Alnum
    case L => Alnum
    case M => Alnum
    case N => Alnum
    case O => Alnum
    case P => Alnum
    case Q => Alnum
    case R => Alnum
    case S => Alnum
    case T => Alnum
    case U => Alnum
    case V => Alnum
    case W => Alnum
    case X => Alnum
    case Y => Alnum
    case Z => Alnum
    case Space => Alnum
    case Other(_) => NoTable
  }

  /** Every key of MapUSBKeys is a special key, and maps to a named editor key. */
  lemma SpecialDeclKinds()
    ensures forall i :: 0 <= i < |SpecialDecl| ==> KindOf(SpecialDecl[i].key) == Special && SpecialDecl[i].code.Ext?
  {
  }

  /** Every key of MapShiftableUSBKeys is a punctuation key, and maps to an ASCII character. */
  lemma ShiftableDeclKinds()
    ensures forall i :: 0 <= i < |ShiftableDecl| ==> KindOf(ShiftableDecl[i].key) == Shiftable && ShiftableDecl[i].code.Char? && ShiftableDecl[i].code.code < 128
  {
  }

  /** Every key of MapKeys is alphanumeric and maps to an ASCII character; '1' and '2' are among them. */
  lemma AlnumDeclKinds()
    ensures forall i :: 0 <= i < |AlnumDecl| ==> KindOf(AlnumDecl[i].key) == Alnum
    ensures forall i :: 0 <= i < |AlnumDecl| ==> AlnumDecl[i].code.Char? && AlnumDecl[i].code.code < 128
    ensures AlnumDecl[1] == Entry(Key1, Ch('1')) && AlnumDecl[2] == Entry(Key2, Ch('2'))
  {
    DigitEntriesAreAlnum();
    LetterEntriesAToIAreAlnum();
    LetterEntriesJToRAreAlnum();
    LetterEntriesSToSpaceAreAlnum();
  }

  /** MapKeys entries 0 to 9: the digit keys. */
  lemma DigitEntriesAreAlnum()
    ensures forall i :: 0 <= i < 10 ==> KindOf(AlnumDecl[i].key) == Alnum
  {
  }

  /** MapKeys entries 10 to 18: the letters A to I. */
  lemma LetterEntriesAToIAreAlnum()
    ensures forall i :: 10 <= i < 19 ==> KindOf(AlnumDecl[i].key) == Alnum
  {
  }

  /** MapKeys entries 19 to 27: the letters J to R. */
  lemma LetterEntriesJToRAreAlnum()
    ensures forall i :: 19 <= i < 28 ==> KindOf(AlnumDecl[i].key) == Alnum
  {
  }

  /** MapKeys entries 28 to 36: the letters S to Z, then Space. */
  lemma LetterEntriesSToSpaceAreAlnum()
    ensures forall i :: 28 <= i < 37 ==> KindOf(AlnumDecl[i].key) == Alnum
  {
  }

  /** No key is declared in two of the three maps: a pressed key selects at most one of them. */
  lemma DeclsShareNoKey()
    ensures forall i, j :: 0 <= i < |SpecialDecl| && 0 <= j < |ShiftableDecl| ==> SpecialDecl[i].key != ShiftableDecl[j].key
    ensures forall i, j :: 0 <= i < |SpecialDecl| && 0 <= j < |AlnumDecl| ==> SpecialDecl[i].key != AlnumDecl[j].key
    ensures forall i, j :: 0 <= i < |ShiftableDecl| && 0 <= j < |AlnumDecl| ==> ShiftableDecl[i].key != AlnumDecl[j].key
  {
    SpecialDeclKinds();
    ShiftableDeclKinds();
    AlnumDeclKinds();
  }
}

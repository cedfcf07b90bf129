/**
  `toggleVisual` and the four event handlers, as a transition on the
  overlay's cells: each cell id maps to whether the cell currently carries
  the active class. An input never sets or clears a cell; it flips it.
*/
module Toggler {

  import opened Wrappers
  import opened JsCoercion
  import opened CellIds
  import opened LookupTable

  /** What `toggleVisual` receives: a key name from a keyboard event, or a button code from a mouse event. */
  datatype Identifier = Key(name: string) | Button(code: int)

  /** The property key an identifier indexes the table with: a button code becomes its decimal string. */
  function PropertyKey(id: Identifier): (k: string)
    ensures id.Key? ==> k == id.name
    ensures id.Button? ==> IsDecimal(k) && ParseDecimal(k) == id.code
  {
    match id
    case Key(name) => name
    case Button(code) =>
      DecimalRoundTrip(code);
      DecimalString(code)
  }

  /** The guard's `identifier == 0 || identifier == 2`, for the identifiers the table can answer. */
  predicate LooselyZeroOrTwo(id: Identifier): (b: bool)
    ensures b <==> PropertyKey(id) == "0" || PropertyKey(id) == "2"
  {
    match id
    case Key(name) => name == "0" || name == "2"
    case Button(code) =>
      DecimalStringInjective(code, 0);
      DecimalStringInjective(code, 2);
      code == 0 || code == 2
  }

  /**
    The selector `toggleVisual` acts on, or None when it returns early: a
    keyboard "0" or "2" is ignored, and so is an identifier the table does not
    answer.
  */
  function SelectorFor(t: map<string, string>, id: Identifier, isMouse: bool): (r: Option<string>)
    ensures r.Some? ==> PropertyKey(id) in t && r.value == t[PropertyKey(id)]
    ensures r.None? <==> (!isMouse && LooselyZeroOrTwo(id)) || PropertyKey(id) !in t
  {
    if !isMouse && LooselyZeroOrTwo(id) then None
    else if PropertyKey(id) in t then Some(t[PropertyKey(id)])
    else None
  }

  /** The overlay's cells: cell id to whether the cell is shown active. */
  type Cells = map<string, bool>

  /** The cells `document.querySelectorAll(sel)` finds: those whose id behind `#` is `sel`. */
  predicate Matches(sel: string, id: string): (b: bool)
    ensures b <==> |sel| == |id| + 1 && sel[0] == '#' && sel[1..] == id
  {
    assert ("#" + id)[1..] == id;
    "#" + id == sel
  }

  /** `classList.toggle` on every cell the selector matches. */
  function FlipMatching(cells: Cells, sel: string): (r: Cells)
    ensures r.Keys == cells.Keys
  {
    map k | k in cells :: if Matches(sel, k) then !cells[k] else cells[k]
  }

  /** `toggleVisual(identifier, isMouse)`: the cells after one call. */
  function Toggle(t: map<string, string>, cells: Cells, id: Identifier, isMouse: bool): (r: Cells)
    ensures r.Keys == cells.Keys
  {
    match SelectorFor(t, id, isMouse)
    case None => cells
    case Some(sel) => FlipMatching(cells, sel)
  }

  /** The four events the script listens for on the game window. */
  datatype Event = KeyDown(key: string) | KeyUp(key: string) | MouseDown(button: int) | MouseUp(button: int)

  /** What each handler passes on: the key name or button code, and whether it came from the mouse. */
  function IdentifierOf(e: Event): (id: Identifier)
    ensures id.Button? <==> IsMouse(e)
    ensures id.Key? ==> id.name == e.key
    ensures id.Button? ==> id.code == e.button
  {
    match e
    case KeyDown(k) => Key(k)
    case KeyUp(k) => Key(k)
    case MouseDown(b) => Button(b)
    case MouseUp(b) => Button(b)
  }

  /** Whether the event came from the mouse: a keyboard event never does. */
  predicate IsMouse(e: Event): (b: bool)
    ensures b <==> !(e.KeyDown? || e.KeyUp?)
  {
    e.MouseDown? || e.MouseUp?
  }

  /** One event handled: pressing and releasing are passed on alike. */
  function Apply(t: map<string, string>, cells: Cells, e: Event): (r: Cells)
    ensures r.Keys == cells.Keys
  {
    Toggle(t, cells, IdentifierOf(e), IsMouse(e))
  }

  /** A sequence of events handled in order. */
  function Replay(t: map<string, string>, cells: Cells, es: seq<Event>): (r: Cells)
    ensures r.Keys == cells.Keys
    decreases |es|
  {
    if es == [] then cells else Replay(t, Apply(t, cells, es[0]), es[1..])
  }

  /** Whether event `e` reaches cell `id`. */
  predicate Reaches(t: map<string, string>, e: Event, id: string) {
    var sel := SelectorFor(t, IdentifierOf(e), IsMouse(e));
    sel.Some? && Matches(sel.value, id)
  }

  /** How many of the events reach cell `id`. */
  function Hits(t: map<string, string>, es: seq<Event>, id: string): nat
    decreases |es|
  {
    if es == [] then 0 else (if Reaches(t, es[0], id) then 1 else 0) + Hits(t, es[1..], id)
  }

  // What a call does to the cells.

  /** A keyboard "0" or "2" changes nothing: those characters stand for the mouse buttons. */
  lemma KeyboardDigitIgnored(t: map<string, string>, cells: Cells, id: Identifier)
    requires LooselyZeroOrTwo(id)
    ensures Toggle(t, cells, id, false) == cells
  {
  }

  /** An identifier the table does not answer changes nothing. */
  lemma UnknownIgnored(t: map<string, string>, cells: Cells, id: Identifier, isMouse: bool)
    requires PropertyKey(id) !in t
    ensures Toggle(t, cells, id, isMouse) == cells
  {
  }

  /** Whatever the table answers addresses one of the watched characters' cells. */
  lemma SelectorIsCell(t: map<string, string>, id: Identifier, isMouse: bool) returns (c: char)
    requires IsWatchList(Watched) && IsLookupTable(t, Watched) && SelectorFor(t, id, isMouse).Some?
    ensures c in Watched && SelectorFor(t, id, isMouse) == Some(Selector(c))
  {
    c := CellOfKey(Watched, t, PropertyKey(id));
  }

  /** Flipping by a cell's selector flips that cell and no other. */
  lemma FlipOne(cells: Cells, c: char)
    requires CellId(c) in cells
    ensures FlipMatching(cells, Selector(c)) == cells[CellId(c) := !cells[CellId(c)]]
  {
    var r := FlipMatching(cells, Selector(c));
    forall k | k in cells ensures r[k] == cells[CellId(c) := !cells[CellId(c)]][k] {
      SelectorAddressesOneCell(c, k);
    }
  }

  /** Flipping the same cells twice restores them. */
  lemma FlipTwice(cells: Cells, sel: string)
    ensures FlipMatching(FlipMatching(cells, sel), sel) == cells
  {
  }

  /** A call that resolves flips exactly the addressed cell, and leaves every other cell as it was. */
  lemma ToggleFlipsAddressedCell(t: map<string, string>, cells: Cells, id: Identifier, isMouse: bool, c: char)
    requires SelectorFor(t, id, isMouse) == Some(Selector(c)) && CellId(c) in cells
    ensures Toggle(t, cells, id, isMouse) == cells[CellId(c) := !cells[CellId(c)]]
  {
    FlipOne(cells, c);
  }

  /** Any call made twice restores the cells: toggling is its own inverse. */
  lemma ToggleInvolution(t: map<string, string>, cells: Cells, id: Identifier, isMouse: bool)
    ensures Toggle(t, Toggle(t, cells, id, isMouse), id, isMouse) == cells
  {
    var sel := SelectorFor(t, id, isMouse);
    if sel.Some? {
      FlipTwice(cells, sel.value);
    }
  }

  /** Calls commute: the cells after two calls do not depend on their order. */
  lemma ToggleCommutes(t: map<string, string>, cells: Cells, a: Identifier, aMouse: bool, b: Identifier, bMouse: bool)
    ensures Toggle(t, Toggle(t, cells, a, aMouse), b, bMouse) == Toggle(t, Toggle(t, cells, b, bMouse), a, aMouse)
  {
  }

  // Events.

  /** Releasing a key after pressing it leaves the cells as they were before the press. */
  lemma KeyPressRoundTrip(t: map<string, string>, cells: Cells, k: string)
    ensures Apply(t, Apply(t, cells, KeyDown(k)), KeyUp(k)) == cells
  {
    ToggleInvolution(t, cells, Key(k), false);
  }

  /** Releasing a button after pressing it leaves the cells as they were before the press. */
  lemma ClickRoundTrip(t: map<string, string>, cells: Cells, b: int)
    ensures Apply(t, Apply(t, cells, MouseDown(b)), MouseUp(b)) == cells
  {
    ToggleInvolution(t, cells, Button(b), true);
  }

  /** An auto-repeated keydown flips the cell back: two presses without a release cancel out. */
  lemma KeyRepeatCancels(t: map<string, string>, cells: Cells, k: string)
    ensures Apply(t, Apply(t, cells, KeyDown(k)), KeyDown(k)) == cells
  {
    ToggleInvolution(t, cells, Key(k), false);
  }

  /** An event whose identifier resolves to a cell's selector reaches that cell and no other. */
  lemma ReachesExactly(t: map<string, string>, e: Event, c: char, id: string)
    requires SelectorFor(t, IdentifierOf(e), IsMouse(e)) == Some(Selector(c))
    ensures Reaches(t, e, id) <==> id == CellId(c)
  {
    SelectorAddressesOneCell(c, id);
  }

  /** Each event flips a cell exactly when it reaches that cell. */
  lemma ApplyFlipsReached(t: map<string, string>, cells: Cells, e: Event, id: string)
    requires id in cells
    ensures Apply(t, cells, e)[id] == (cells[id] != Reaches(t, e, id))
  {
  }

  /** After any sequence of events a cell is flipped exactly when an odd number of them reached it. */
  lemma {:induction false} ReplayParity(t: map<string, string>, cells: Cells, es: seq<Event>, id: string)
    requires id in cells
    ensures Replay(t, cells, es)[id] == (cells[id] != (Hits(t, es, id) % 2 == 1))
    decreases |es|
  {
    if es != [] {
      var next := Apply(t, cells, es[0]);
      ApplyFlipsReached(t, cells, es[0], id);
      ReplayParity(t, next, es[1..], id);
    }
  }

  /** Two inputs held down on different cells are shown active together. */
  lemma HeldInputsBothActive(t: map<string, string>, cells: Cells, a: Event, b: Event, c: char, d: char)
    requires CellId(c) in cells && CellId(d) in cells && c != d
    requires !cells[CellId(c)] && !cells[CellId(d)]
    requires SelectorFor(t, IdentifierOf(a), IsMouse(a)) == Some(Selector(c))
    requires SelectorFor(t, IdentifierOf(b), IsMouse(b)) == Some(Selector(d))
    ensures Replay(t, cells, [a, b])[CellId(c)] && Replay(t, cells, [a, b])[CellId(d)]
  {
    var one := Apply(t, cells, a);
    ToggleFlipsAddressedCell(t, cells, IdentifierOf(a), IsMouse(a), c);
    ToggleFlipsAddressedCell(t, one, IdentifierOf(b), IsMouse(b), d);
    CellIdInjective(c, d);
    var two := Apply(t, one, b);
    assert [a, b][1..] == [b] && [b][1..] == [];
    assert Replay(t, cells, [a, b]) == Replay(t, one, [b]) == Replay(t, two, []) == two;
  }
}

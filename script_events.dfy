/**
  What the script's own inputs do, given the table it builds from "02wasd":
  which mouse buttons and keys toggle which cell, which are ignored, and a
  short session of presses and releases.
*/
module ScriptEvents {

  import opened Wrappers
  import opened CellIds
  import opened LookupTable
  import opened ScriptTable
  import opened Toggler

  /** The left and right buttons select their own cells; no other button selects any cell. */
  lemma MouseButtons(t: map<string, string>, b: int)
    requires IsLookupTable(t, Watched)
    ensures SelectorFor(t, Button(0), true) == Some(Selector('0'))
    ensures SelectorFor(t, Button(2), true) == Some(Selector('2'))
    ensures SelectorFor(t, Button(b), true).Some? <==> b == 0 || b == 2
  {
    DigitKeys(t);
    NumberKey(t, b);
  }

  /** A key the script answers is a watched character, its upper-cased form, or an arrow key in either case. */
  lemma AnsweredKeys(t: map<string, string>, k: string, isMouse: bool)
    requires IsLookupTable(t, Watched)
    requires SelectorFor(t, Key(k), isMouse).Some?
    ensures (|k| == 1 && k[0] in SingleCharKeys) || k in KeysOf(Arrows) || k in UpperAll(KeysOf(Arrows))
  {
    KeyForms(Watched, t, k);
    if |k| == 1 {
      assert k == [k[0]];
      SingleCharKey(t, k[0]);
    }
  }

  /** A one-character key outside "02wasdWASD", such as "q" or "1", is ignored. */
  lemma UnwatchedCharIgnored(t: map<string, string>, cells: Cells, c: char, isMouse: bool)
    requires IsLookupTable(t, Watched) && c !in SingleCharKeys
    ensures Toggle(t, cells, Key([c]), isMouse) == cells
  {
    SingleCharKey(t, c);
  }

  /** The middle button (code 1) is ignored. */
  lemma MiddleButtonIgnored(t: map<string, string>, cells: Cells)
    requires IsLookupTable(t, Watched)
    ensures Toggle(t, cells, Button(1), true) == cells
  {
    MouseButtons(t, 1);
  }

  /** A keyboard "w" and the up arrow each flip the W cell and nothing else. */
  lemma UpKeysFlipW(t: map<string, string>, cells: Cells, k: string)
    requires IsLookupTable(t, Watched) && CellId('w') in cells
    requires k == "w" || k == "W" || k == "ArrowUp" || k == "ARROWUP"
    ensures Toggle(t, cells, Key(k), false) == cells[CellId('w') := !cells[CellId('w')]]
  {
    UpKeysShareCell(t);
    ToggleFlipsAddressedCell(t, cells, Key(k), false, 'w');
  }

  /** The session used below: press W, press the left button, type "0", release W. */
  function Session(): seq<Event> {
    [KeyDown("w"), MouseDown(0), KeyDown("0"), KeyUp("w")]
  }

  lemma SessionHits(t: map<string, string>, id: string)
    requires IsLookupTable(t, Watched)
    ensures Hits(t, Session(), id) == (if id == CellId('w') then 2 else 0) + (if id == CellId('0') then 1 else 0)
  {
    UpKeysShareCell(t);
    MouseButtons(t, 0);
    ReachesExactly(t, KeyDown("w"), 'w', id);
    ReachesExactly(t, MouseDown(0), '0', id);
    ReachesExactly(t, KeyUp("w"), 'w', id);
    assert !Reaches(t, KeyDown("0"), id);
    var es := Session();
    assert es[1..] == [MouseDown(0), KeyDown("0"), KeyUp("w")];
    assert es[1..][1..] == [KeyDown("0"), KeyUp("w")];
    assert es[1..][1..][1..] == [KeyUp("w")];
    assert es[1..][1..][1..][1..] == [];
  }

  /** From a blank overlay, after that session only the left-button cell is lit: W was pressed and released, and "0" typed is ignored. */
  lemma SessionOutcome(t: map<string, string>, cells: Cells, id: string)
    requires IsLookupTable(t, Watched)
    requires id in cells && !cells[id]
    ensures Replay(t, cells, Session())[id] <==> id == CellId('0')
  {
    SessionHits(t, id);
    ReplayParity(t, cells, Session(), id);
    CellIdInjective('w', '0');
  }

  /**
    Holding W long enough for one auto-repeated keydown, then releasing it,
    leaves the W cell lit: three flips, the last of them on release.
  */
  lemma RepeatThenReleaseStaysLit(t: map<string, string>, cells: Cells)
    requires IsLookupTable(t, Watched)
    requires CellId('w') in cells && !cells[CellId('w')]
    ensures Replay(t, cells, [KeyDown("w"), KeyDown("w"), KeyUp("w")])[CellId('w')]
  {
    var es := [KeyDown("w"), KeyDown("w"), KeyUp("w")];
    UpKeysShareCell(t);
    ReachesExactly(t, KeyDown("w"), 'w', CellId('w'));
    ReachesExactly(t, KeyUp("w"), 'w', CellId('w'));
    assert es[1..] == [KeyDown("w"), KeyUp("w")];
    assert es[1..][1..] == [KeyUp("w")];
    assert es[1..][1..][1..] == [];
    assert Hits(t, es, CellId('w')) == 3;
    ReplayParity(t, cells, es, CellId('w'));
  }
}

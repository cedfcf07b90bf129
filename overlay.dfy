/**
  The running script: the lookup table built once at load time, the six
  cells of the overlay in document order, and which of them are shown
  active. The event handlers update the cells in place.
*/
module Overlay {

  import opened CellIds
  import opened LookupTable
  import opened Toggler

  class Page {
    /** The table from identifier to selector. */
    const lookup: map<string, string>
    /** The ids of the overlay's cells, in document order. */
    const layout: seq<string>
    /** Whether each cell carries the active class. */
    var active: Cells

    ghost predicate Valid()
      reads this
    {
      && IsLookupTable(lookup, Watched)
      && layout == CellOrder()
      && active.Keys == AllCellIds()
    }

    /** Loading the script: the table is built, and the six cells start inactive. */
    constructor ()
      ensures Valid()
      ensures forall id :: id in active ==> !active[id]
    {
      WatchedIsWatchList();
      var table := BuildLookup(Watched);
      lookup := table;
      layout := CellOrder();
      active := map id | id in AllCellIds() :: false;
    }

    /**
      `toggleVisual`: unless the identifier is ignored, every cell the
      selector matches has its active class toggled, in document order.
    */
    method ToggleVisual(id: Identifier, isMouse: bool)
      requires Valid()
      modifies this
      ensures Valid()
      ensures active == Toggle(lookup, old(active), id, isMouse)
    {
      if !isMouse && LooselyZeroOrTwo(id) {
        return;
      }
      var key := PropertyKey(id);
      if key !in lookup {
        return;
      }
      CellOrderIsAllCells();
      active := ToggleAll(layout, active, lookup[key]);
    }

    /** The four listeners on the game window: each passes its event on unchanged. */
    method HandleEvent(e: Event)
      requires Valid()
      modifies this
      ensures Valid()
      ensures active == Apply(lookup, old(active), e)
    {
      match e
      case KeyDown(k) => ToggleVisual(Key(k), false);
      case KeyUp(k) => ToggleVisual(Key(k), false);
      case MouseDown(b) => ToggleVisual(Button(b), true);
      case MouseUp(b) => ToggleVisual(Button(b), true);
    }
  }

  /**
    `querySelectorAll(sel).forEach(elem => elem.classList.toggle(...))`: the
    cells are visited in document order and each one the selector matches is
    flipped. Each cell appears once in the layout, so none is flipped twice.
  */
  method ToggleAll(layout: seq<string>, cells: Cells, sel: string) returns (r: Cells)
    requires forall i, j :: 0 <= i < j < |layout| ==> layout[i] != layout[j]
    requires forall k :: k in cells <==> k in layout
    ensures r == FlipMatching(cells, sel)
  {
    r := cells;
    for i := 0 to |layout|
      invariant r.Keys == cells.Keys
      invariant forall k :: k in r ==> r[k] == (if k in layout[..i] && Matches(sel, k) then !cells[k] else cells[k])
    {
      var cell := layout[i];
      if "#" + cell == sel {
        r := r[cell := !r[cell]];
      }
    }
    assert layout[..|layout|] == layout;
  }
}

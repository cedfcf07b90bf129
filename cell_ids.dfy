/**
  The overlay's cells: one per watched character, each identified by the
  character behind a fixed prefix that keeps the ids clear of the game's own.
*/
module CellIds {

  import opened Wrappers

  /** The prefix of every id and class name the script creates. */
  const Prefix: string := "Road_SMKA_"

  /** The characters watched: left mouse, right mouse, then the movement keys. */
  const Watched: string := "02wasd"

  /** `getCharHtmlElemId`: the id of the cell for character `c`, without a leading `#`. */
  function CellId(c: char): (id: string)
    ensures |id| == |Prefix| + 1 && id[..|Prefix|] == Prefix && id[|Prefix|] == c
  {
    Prefix + [c]
  }

  /** Recovers the character from a cell id; the inverse of CellId. */
  function CharOfCellId(id: string): Option<char> {
    if |id| == |Prefix| + 1 && id[..|Prefix|] == Prefix then Some(id[|Prefix|]) else None
  }

  /** The CSS selector the lookup table stores for character `c`: its cell id behind `#`. */
  function Selector(c: char): (sel: string)
    ensures |sel| >= 1 && sel[0] == '#' && sel[1..] == CellId(c)
  {
    "#" + CellId(c)
  }

  /** The ids of the six cells the overlay holds. */
  function AllCellIds(): set<string> {
    set c | c in Watched :: CellId(c)
  }

  /** The cell ids in the order the overlay lays its cells out, one per watched character. */
  function CellOrder(): (order: seq<string>)
    ensures |order| == |Watched|
    ensures forall i :: 0 <= i < |Watched| ==> order[i] == CellId(Watched[i])
  {
    seq(|Watched|, i requires 0 <= i < |Watched| => CellId(Watched[i]))
  }

  lemma CellIdRoundTrip(c: char)
    ensures CharOfCellId(CellId(c)) == Some(c)
  {
  }

  /** No string other than a cell id reads back as a character, and what it reads back as has that id. */
  lemma CharOfCellIdSound(id: string, c: char)
    ensures CharOfCellId(id) == Some(c) <==> id == CellId(c)
  {
    if CharOfCellId(id) == Some(c) {
      assert id == id[..|Prefix|] + [id[|Prefix|]];
    }
  }

  /** Distinct watched characters get distinct cell ids. */
  lemma CellIdInjective(c: char, d: char)
    ensures CellId(c) == CellId(d) <==> c == d
  {
    CellIdRoundTrip(c);
    CellIdRoundTrip(d);
  }

  /** A selector addresses a cell exactly when it is that cell's id behind `#`. */
  lemma SelectorAddressesOneCell(c: char, id: string)
    ensures "#" + id == Selector(c) <==> id == CellId(c)
  {
    if "#" + id == Selector(c) {
      assert ("#" + id)[1..] == id;
    }
  }

  /** The layout lists each cell once, and lists every cell the overlay holds. */
  lemma CellOrderIsAllCells()
    ensures forall i, j :: 0 <= i < j < |Watched| ==> CellOrder()[i] != CellOrder()[j]
    ensures forall id :: id in AllCellIds() <==> id in CellOrder()
  {
    var order := CellOrder();
    forall i, j | 0 <= i < j < |Watched| ensures order[i] != order[j] {
      CellIdInjective(Watched[i], Watched[j]);
    }
    forall id | id in AllCellIds() ensures id in order {
      var c :| c in Watched && id == CellId(c);
      var i :| 0 <= i < |Watched| && Watched[i] == c;
      assert order[i] == id;
    }
  }

  /** A sequence without repetitions has as many distinct elements as it is long. */
  lemma {:induction false} DistinctCount(s: seq<string>)
    requires forall i, j :: 0 <= i < j < |s| ==> s[i] != s[j]
    ensures |set x | x in s| == |s|
  {
    if s != [] {
      var init := s[..|s| - 1];
      DistinctCount(init);
      assert (set x | x in s) == (set x | x in init) + {s[|s| - 1]};
    }
  }

  /** The overlay has exactly six cells. */
  lemma SixCells()
    ensures |AllCellIds()| == 6
  {
    CellOrderIsAllCells();
    DistinctCount(CellOrder());
    assert AllCellIds() == set id | id in CellOrder();
  }
}

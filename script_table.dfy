/**
  Facts about the table the script itself builds, from its watch list
  "02wasd": which keys it answers, and which cell each selects.
*/
module ScriptTable {

  import opened JsCoercion
  import opened CellIds
  import opened LookupTable

  /** A single-character key, its upper-cased form and both forms of its arrow alias all select one cell. */
  lemma AliasGroup(t: map<string, string>, a: nat)
    requires IsLookupTable(t, Watched) && a < |Arrows|
    ensures var c := Arrows[a].1;
      && [c] in t && t[[c]] == Selector(c)
      && Upper([c]) in t && t[Upper([c])] == Selector(c)
      && Arrows[a].0 in t && t[Arrows[a].0] == Selector(c)
      && Upper(Arrows[a].0) in t && t[Upper(Arrows[a].0)] == Selector(c)
  {
    var e := Entries(Watched);
    var i := |Watched| + a;
    assert e[i] == Arrows[a];
    var j := [2, 3, 4, 5][a];
    assert Watched[j] == Arrows[a].1;
    assert e[j] == ([Watched[j]], Watched[j]);
  }

  /** The upper-cased forms of "w" and "ArrowUp". */
  lemma UpperUpForms()
    ensures Upper("w") == "W" && Upper("ArrowUp") == "ARROWUP"
  {
  }

  /** "w", "W", "ArrowUp" and "ARROWUP" all select the W cell. */
  lemma UpKeysShareCell(t: map<string, string>)
    requires IsLookupTable(t, Watched)
    ensures "w" in t && "W" in t && "ArrowUp" in t && "ARROWUP" in t
    ensures t["w"] == t["W"] == t["ArrowUp"] == t["ARROWUP"] == Selector('w')
  {
    AliasGroup(t, 0);
    UpperUpForms();
  }

  /** The upper-cased forms of "a" and "ArrowLeft". */
  lemma UpperLeftForms()
    ensures Upper("a") == "A" && Upper("ArrowLeft") == "ARROWLEFT"
  {
  }

  /** "a", "A", "ArrowLeft" and "ARROWLEFT" all select the A cell. */
  lemma LeftKeysShareCell(t: map<string, string>)
    requires IsLookupTable(t, Watched)
    ensures "a" in t && "A" in t && "ArrowLeft" in t && "ARROWLEFT" in t
    ensures t["a"] == t["A"] == t["ArrowLeft"] == t["ARROWLEFT"] == Selector('a')
  {
    AliasGroup(t, 1);
    UpperLeftForms();
  }

  /** The upper-cased forms of "s" and "ArrowDown". */
  lemma UpperDownForms()
    ensures Upper("s") == "S" && Upper("ArrowDown") == "ARROWDOWN"
  {
  }

  /** "s", "S", "ArrowDown" and "ARROWDOWN" all select the S cell. */
  lemma DownKeysShareCell(t: map<string, string>)
    requires IsLookupTable(t, Watched)
    ensures "s" in t && "S" in t && "ArrowDown" in t && "ARROWDOWN" in t
    ensures t["s"] == t["S"] == t["ArrowDown"] == t["ARROWDOWN"] == Selector('s')
  {
    AliasGroup(t, 2);
    UpperDownForms();
  }

  /** The upper-cased forms of "d" and "ArrowRight". */
  lemma UpperRightForms()
    ensures Upper("d") == "D" && Upper("ArrowRight") == "ARROWRIGHT"
  {
  }

  /** "d", "D", "ArrowRight" and "ARROWRIGHT" all select the D cell. */
  lemma RightKeysShareCell(t: map<string, string>)
    requires IsLookupTable(t, Watched)
    ensures "d" in t && "D" in t && "ArrowRight" in t && "ARROWRIGHT" in t
    ensures t["d"] == t["D"] == t["ArrowRight"] == t["ARROWRIGHT"] == Selector('d')
  {
    AliasGroup(t, 3);
    UpperRightForms();
  }

  /** The mouse-button keys "0" and "2" select their own cells; upper-casing leaves them as they are. */
  lemma DigitKeys(t: map<string, string>)
    requires IsLookupTable(t, Watched)
    ensures Upper("0") == "0" && Upper("2") == "2"
    ensures "0" in t && t["0"] == Selector('0')
    ensures "2" in t && t["2"] == Selector('2')
  {
    var e := Entries(Watched);
    assert e[0] == ("0", '0') && e[1] == ("2", '2');
  }

  /** The watched characters and their upper-cased forms, the only one-character keys. */
  const SingleCharKeys: string := "02wasdWASD"

  /** Every arrow key starts with "Arrow". */
  lemma ArrowPrefix(a: nat)
    requires a < |Arrows|
    ensures |Arrows[a].0| > 5 && Arrows[a].0[..5] == "Arrow"
  {
  }

  /** Upper-casing an arrow key gives a key starting with "ARROW". */
  lemma UpperArrowPrefix(x: string)
    requires |x| > 5 && x[..5] == "Arrow"
    ensures |Upper(x)| == |x| && Upper(x)[..5] == "ARROW"
  {
    assert Upper(x)[..5] == Upper(x[..5]);
  }

  /** Every key is one character long or is one of the arrow keys, as registered or upper-cased. */
  lemma KeyForms(w: string, t: map<string, string>, k: string)
    requires IsLookupTable(t, w) && k in t
    ensures |k| == 1 || k in KeysOf(Arrows) || k in UpperAll(KeysOf(Arrows))
  {
    var i := KeyOrigin(Entries(w), t, k);
    if i < |w| {
      assert Entries(w)[i].0 == [w[i]];
    } else {
      var a := i - |w|;
      assert Entries(w)[i].0 == Arrows[a].0 == KeysOf(Arrows)[a];
      assert UpperAll(KeysOf(Arrows))[a] == Upper(Arrows[a].0);
    }
  }

  /** Both forms of every arrow key start with "Arrow" or "ARROW". */
  lemma ArrowFormShape(k: string)
    requires k in KeysOf(Arrows) || k in UpperAll(KeysOf(Arrows))
    ensures |k| > 5 && (k[..5] == "Arrow" || k[..5] == "ARROW") && k[0] == 'A'
  {
    if k in KeysOf(Arrows) {
      var a :| 0 <= a < |Arrows| && KeysOf(Arrows)[a] == k;
      ArrowPrefix(a);
    } else {
      var a :| 0 <= a < |Arrows| && UpperAll(KeysOf(Arrows))[a] == k;
      ArrowPrefix(a);
      UpperArrowPrefix(Arrows[a].0);
    }
  }

  /** Every key is one character long or starts with "Arrow" or "ARROW". */
  lemma KeyShape(w: string, t: map<string, string>, k: string)
    requires IsLookupTable(t, w) && k in t
    ensures |k| == 1 || (|k| > 5 && (k[..5] == "Arrow" || k[..5] == "ARROW"))
    ensures |k| == 1 || k[0] == 'A'
  {
    KeyForms(w, t, k);
    if |k| != 1 {
      ArrowFormShape(k);
    }
  }

  /** A one-character key is in the table exactly when it is a watched character or its upper-cased form. */
  lemma SingleCharKey(t: map<string, string>, c: char)
    requires IsLookupTable(t, Watched)
    ensures [c] in t <==> c in SingleCharKeys
  {
    if [c] in t {
      var i := KeyOrigin(Entries(Watched), t, [c]);
      if i < |Watched| {
        var d := Watched[i];
        assert Entries(Watched)[i].0 == [d];
        assert c == d || c == UpperChar(d);
        assert d in "02wasd";
      }
    } else if c in SingleCharKeys {
      DigitKeys(t);
      UpKeysShareCell(t);
      LeftKeysShareCell(t);
      DownKeysShareCell(t);
      RightKeysShareCell(t);
    }
  }

  /** A number indexes the table, as a mouse button code does, exactly when it is 0 or 2. */
  lemma NumberKey(t: map<string, string>, n: int)
    requires IsLookupTable(t, Watched)
    ensures DecimalString(n) in t <==> n == 0 || n == 2
  {
    var s := DecimalString(n);
    DigitKeys(t);
    assert DecimalString(0) == "0" && DecimalString(2) == "2";
    if s in t {
      KeyShape(Watched, t, s);
      assert s == [s[0]];
      SingleCharKey(t, s[0]);
      DecimalRoundTrip(n);
    }
  }
}

/**
 The menu loaded from the configuration file, the Quit number derived from
 it, and the list of lines the menu screen shows.
 */
module MenuModel {
  import opened Options
  import opened PyText

  /** One configured entry; the loader does not check that the two fields
      exist, so the model simply has them. */
  datatype Item = Item(name: string, command: string)

  /** The loaded JSON object: key -> entry. */
  type Menu = map<string, Item>

  /** The values of the keys made only of digits. */
  function NumericValues(menu: Menu): set<nat>
  {
    set k | k in menu && IsDigits(k) :: Decimal(k)
  }

  lemma {:induction false} MaxExists(values: set<nat>)
    requires values != {}
    ensures exists m :: m in values && forall v :: v in values ==> v <= m
    decreases |values|
  {
    var x :| x in values;
    var rest := values - {x};
    if rest == {} {
      assert values == {x};
    } else {
      MaxExists(rest);
      var m :| m in rest && forall v :: v in rest ==> v <= m;
      var top := if x < m then m else x;
      forall v | v in values ensures v <= top {
        if v != x { assert v in rest; }
      }
    }
  }

  /** The number of the Quit option: one more than the largest all-digit
      key, or 1 when there is none. */
  function ExitNumber(menu: Menu): (e: nat)
    ensures e >= 1
    ensures forall k :: k in menu && IsDigits(k) ==> Decimal(k) < e
    ensures || (exists k :: k in menu && IsDigits(k) && Decimal(k) == e - 1)
            || (e == 1 && forall k :: k in menu ==> !IsDigits(k))
  {
    var values := NumericValues(menu);
    assert forall k :: k in menu && IsDigits(k) ==> Decimal(k) in values;
    if values == {} then
      1
    else
      MaxExists(values);
      var m :| m in values && forall v :: v in values ==> v <= m;
      m + 1
  }

  /** The text a user types to choose Quit. */
  function ExitKey(menu: Menu): (k: string)
    ensures IsCanonical(k) && Decimal(k) == ExitNumber(menu)
    ensures PyInt(k) == Some(ExitNumber(menu))
  {
    var e := ExitNumber(menu);
    DecimalOfStr(e);
    PyIntOfStr(e);
    Str(e)
  }

  /** The Quit key never equals a configured key, whatever keys the menu
      has, so checking it first never hides an entry. */
  lemma ExitKeyIsFree(menu: Menu)
    ensures ExitKey(menu) !in menu
    ensures IsStripped(ExitKey(menu)) && ExitKey(menu) != ""
  {
    // ExitKey is a canonical digit string with value ExitNumber, which
    // ExitNumber puts above every all-digit key.
  }


  /** Every key can be converted by `int`; otherwise the sort raises. */
  predicate AllKeysParse(menu: Menu) {
    forall k :: k in menu ==> PyInt(k).Some?
  }

  /** The sort key of every entry: `int(key)`. */
  function SortValues(menu: Menu): (values: map<string, int>)
    requires AllKeysParse(menu)
    ensures values.Keys == menu.Keys
    ensures forall k :: k in values ==> PyInt(k) == Some(values[k])
  {
    map k | k in menu :: PyInt(k).value
  }

  lemma {:induction false} MinExists<K>(keys: set<K>, values: map<K, int>)
    requires keys != {} && keys <= values.Keys
    ensures exists k :: k in keys && forall j :: j in keys ==> values[k] <= values[j]
    decreases keys
  {
    var x :| x in keys;
    var rest := keys - {x};
    if rest == {} {
      assert keys == {x};
    } else {
      MinExists(rest, values);
      var m :| m in rest && forall j :: j in rest ==> values[m] <= values[j];
      var k := if values[x] <= values[m] then x else m;
      assert forall j :: j in keys ==> values[k] <= values[j];
    }
  }

  /** The listing properties that SortByValue promises. */
  ghost predicate SortedListing<K>(keys: set<K>, values: map<K, int>, ks: seq<K>)
    requires keys <= values.Keys
  {
    && |ks| == |keys|
    && (forall i :: 0 <= i < |ks| ==> ks[i] in keys)
    && (forall k :: k in keys ==> k in ks)
    && (forall i, j :: 0 <= i < j < |ks| ==> ks[i] != ks[j])
    && (forall i, j :: 0 <= i < j < |ks| ==> values[ks[i]] <= values[ks[j]])
  }

  /** Putting a least key in front of a sorted listing of the other keys
      gives a sorted listing of all of them. */
  lemma ConsSorted<K>(keys: set<K>, values: map<K, int>, k: K, tail: seq<K>)
    requires keys <= values.Keys && k in keys
    requires forall j :: j in keys ==> values[k] <= values[j]
    requires SortedListing(keys - {k}, values, tail)
    ensures SortedListing(keys, values, [k] + tail)
  {
  }


  /** The keys in ascending order of their values. Python's sort is stable,
      so keys with equal values keep the order of the JSON file; a set has
      no such order, so among those the order is left open. */
  ghost function SortByValue<K>(keys: set<K>, values: map<K, int>): (ks: seq<K>)
    requires keys <= values.Keys
    ensures SortedListing(keys, values, ks)
    decreases keys
  {
    if keys == {} then
      []
    else
      MinExists(keys, values);
      var k :| k in keys && forall j :: j in keys ==> values[k] <= values[j];
      var tail := SortByValue(keys - {k}, values);
      ConsSorted(keys, values, k, tail);
      [k] + tail
  }

  /** One line of the menu screen. */
  datatype Line = Entry(key: string, name: string) | QuitLine(number: nat)

  /** The keys the menu screen lists: each key of the menu exactly once,
      in ascending order of `int(key)`. */
  ghost function DisplayedKeys(menu: Menu): (ks: seq<string>)
    requires AllKeysParse(menu)
    ensures |ks| == |menu|
    ensures forall i :: 0 <= i < |ks| ==> ks[i] in menu
    ensures forall k :: k in menu ==> k in ks
    ensures forall i, j :: 0 <= i < j < |ks| ==> ks[i] != ks[j]
    ensures forall i, j :: 0 <= i < j < |ks| ==> PyInt(ks[i]).value <= PyInt(ks[j]).value
  {
    var values := SortValues(menu);
    var ks := SortByValue(menu.Keys, values);
    assert |menu.Keys| == |menu|;
    assert forall i :: 0 <= i < |ks| ==> PyInt(ks[i]).value == values[ks[i]];
    ks
  }

  /** The lines the menu screen lists: an entry line per key, in the order
      of DisplayedKeys, then Quit with the exit number as the last line.
      None stands for the ValueError `int` raises on a key it cannot
      convert. */
  ghost function Display(menu: Menu, exitNumber: nat): (r: Option<seq<Line>>)
    ensures r.Some? <==> AllKeysParse(menu)
    ensures r.Some? ==> |r.value| == |menu| + 1 && r.value[|menu|] == QuitLine(exitNumber)
    ensures r.Some? ==> forall i :: 0 <= i < |menu| ==>
      r.value[i] == Entry(DisplayedKeys(menu)[i], menu[DisplayedKeys(menu)[i]].name)
  {
    if AllKeysParse(menu) then
      var ks := DisplayedKeys(menu);
      var entries := seq(|ks|, i requires 0 <= i < |ks| => Entry(ks[i], menu[ks[i]].name));
      Some(entries + [QuitLine(exitNumber)])
    else
      None
  }

  lemma {:induction false} StrictlySortedUnique<K>(values: map<K, int>, a: seq<K>, b: seq<K>)
    requires forall i :: 0 <= i < |a| ==> a[i] in values
    requires forall i :: 0 <= i < |b| ==> b[i] in values
    requires forall i, j :: 0 <= i < j < |a| ==> values[a[i]] < values[a[j]]
    requires forall i, j :: 0 <= i < j < |b| ==> values[b[i]] < values[b[j]]
    requires forall x :: x in a <==> x in b
    requires |a| == |b|
    ensures a == b
    decreases |a|
  {
    if a != [] {
      assert a[0] in b;
      assert b[0] in a;
      var j :| 0 <= j < |b| && b[j] == a[0];
      var i :| 0 <= i < |a| && a[i] == b[0];
      assert values[a[0]] <= values[a[i]] == values[b[0]];
      assert values[b[0]] <= values[b[j]] == values[a[0]];
      assert j == 0;
      forall x | x in a[1..] ensures x in b[1..] {
        var n :| 1 <= n < |a| && a[n] == x;
        assert values[a[0]] < values[x];
        assert x in a;
        var m :| 0 <= m < |b| && b[m] == x;
        assert m > 0 && b[1..][m - 1] == x;
      }
      forall x | x in b[1..] ensures x in a[1..] {
        var n :| 1 <= n < |b| && b[n] == x;
        assert values[b[0]] < values[x];
        assert x in b;
        var m :| 0 <= m < |a| && a[m] == x;
        assert m > 0 && a[1..][m - 1] == x;
      }
      StrictlySortedUnique(values, a[1..], b[1..]);
    }
  }

  /** When no two keys have the same `int` value, the screen order is fully
      determined: any listing of the keys, each once, in ascending order of
      value is the one displayed. */
  lemma DisplayedKeysUnique(menu: Menu, ks: seq<string>)
    requires AllKeysParse(menu)
    requires forall k1, k2 :: k1 in menu && k2 in menu && k1 != k2 ==> PyInt(k1).value != PyInt(k2).value
    requires |ks| == |menu|
    requires forall i :: 0 <= i < |ks| ==> ks[i] in menu
    requires forall k :: k in menu ==> k in ks
    requires forall i, j :: 0 <= i < j < |ks| ==> ks[i] != ks[j] && PyInt(ks[i]).value <= PyInt(ks[j]).value
    ensures ks == DisplayedKeys(menu)
  {
    var values := SortValues(menu);
    var d := DisplayedKeys(menu);
    forall i, j | 0 <= i < j < |ks| ensures values[ks[i]] < values[ks[j]] {
      assert PyInt(ks[i]).value != PyInt(ks[j]).value;
    }
    forall i, j | 0 <= i < j < |d| ensures values[d[i]] < values[d[j]] {
      assert PyInt(d[i]).value != PyInt(d[j]).value;
    }
    StrictlySortedUnique(values, ks, d);
  }

  /** Keys made only of digits all convert, to their digit value. */
  lemma DigitKeysParse(menu: Menu)
    requires forall k :: k in menu ==> IsDigits(k)
    ensures AllKeysParse(menu)
    ensures forall k :: k in menu ==> IsDigits(k) && PyInt(k).value == Decimal(k)
  {
    forall k | k in menu ensures PyInt(k) == Some(Decimal(k)) {
      PyIntOfDigits(k);
    }
  }

  /** On the menu screen, the Quit line's number is never also the key of
      a listed entry. */
  lemma QuitLineDistinct(menu: Menu)
    requires AllKeysParse(menu)
    ensures forall i :: 0 <= i < |menu| ==>
      Display(menu, ExitNumber(menu)).value[i].key != Str(ExitNumber(menu))
  {
    ExitKeyIsFree(menu);
  }
}

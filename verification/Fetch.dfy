/** Fetching rows as hashes, as a hash of columns and as columnar results: duplicate column names and the block
    protocol. */
module Fetch {
  import opened Chars
  import opened Wrappers

  datatype Value = Null | Scalar(text: string)

  /* ---- Names for duplicate columns ---- */

  function Suffixed(name: string, k: nat): string {
    name + "_" + DecimalText(k)
  }

  lemma SuffixesDiffer(name: string, k: nat)
    ensures forall j: nat :: j != k ==> Suffixed(name, j) != Suffixed(name, k)
  {
    forall j: nat | Suffixed(name, j) == Suffixed(name, k) ensures j == k {
      assert DecimalText(j) == Suffixed(name, j)[|name| + 1..];
      assert DecimalText(k) == Suffixed(name, k)[|name| + 1..];
      DecimalTextInjective(j, k);
    }
  }

  /** The first number from `k` on that makes a name that is not taken. */
  function FirstFree(name: string, taken: set<string>, k: nat): (n: nat)
    ensures k <= n && Suffixed(name, n) !in taken && forall j :: k <= j < n ==> Suffixed(name, j) in taken
    decreases taken
  {
    if Suffixed(name, k) !in taken then k
    else
      SuffixesDiffer(name, k);
      FirstFree(name, taken - {Suffixed(name, k)}, k + 1)
  }

  function Chosen(name: string, taken: set<string>): string {
    if name !in taken then name else Suffixed(name, FirstFree(name, taken, 1))
  }

  function Elements(names: seq<string>): set<string> {
    set name | name in names
  }

  /** The keys of a result: each column has its own name, or that name with the first number that makes it new. */
  function Names(columns: seq<string>): (names: seq<string>)
    ensures |names| == |columns|
  {
    if columns == [] then []
    else
      var before := Names(columns[..|columns| - 1]);
      before + [Chosen(columns[|columns| - 1], Elements(before))]
  }

  lemma {:induction false} NamesPrefix(columns: seq<string>, i: nat)
    requires i <= |columns|
    ensures Names(columns)[..i] == Names(columns[..i])
    ensures i < |columns| ==> Names(columns)[i] == Chosen(columns[i], Elements(Names(columns[..i])))
  {
    var n := |columns| - 1;
    if i <= n {
      NamesPrefix(columns[..n], i);
      assert columns[..n][..i] == columns[..i];
      assert Names(columns)[..n] == Names(columns[..n]);
      assert Names(columns)[..i] == Names(columns)[..n][..i];
    } else {
      assert columns[..i] == columns;
    }
  }

  /** The keys are pairwise distinct. */
  lemma {:induction false} NamesDistinct(columns: seq<string>, i: nat, j: nat)
    requires i < j < |columns|
    ensures Names(columns)[i] != Names(columns)[j]
  {
    NamesPrefix(columns, j);
    var before := Names(columns[..j]);
    assert Names(columns)[i] == before[i];
    assert Names(columns)[i] in Elements(before);
  }

  /** Each column name is a key. */
  lemma {:induction false} NamesCover(columns: seq<string>, i: nat)
    requires i < |columns|
    ensures columns[i] in Elements(Names(columns))
  {
    NamesPrefix(columns, i);
    var before := Names(columns[..i]);
    if columns[i] in Elements(before) {
      var k :| 0 <= k < |before| && before[k] == columns[i];
      assert Names(columns)[k] == before[k];
    } else {
      assert Names(columns)[i] == columns[i];
    }
  }

  /** The keys of the first columns. */
  function Keys(columns: seq<string>, i: nat): set<string>
    requires i <= |columns|
  {
    Elements(Names(columns)[..i])
  }

  lemma ElementsPushed(names: seq<string>, name: string)
    ensures Elements(names + [name]) == Elements(names) + {name}
  {
  }

  lemma ChosenIsNew(name: string, taken: set<string>)
    ensures Chosen(name, taken) !in taken
  {
  }

  lemma KeysGrow(names: seq<string>, i: nat)
    requires i < |names|
    ensures Elements(names[..i + 1]) == Elements(names[..i]) + {names[i]}
  {
    assert names[..i + 1] == names[..i] + [names[i]];
    ElementsPushed(names[..i], names[i]);
  }

  /** Column `i` gets the name chosen among the keys of the columns before it, and that key is new. */
  lemma NextName(columns: seq<string>, i: nat)
    requires i < |columns|
    ensures var name := Names(columns)[i];
      && name == Chosen(columns[i], Keys(columns, i)) && name !in Keys(columns, i)
      && Keys(columns, i + 1) == Keys(columns, i) + {name}
  {
    hide Names, Chosen, Elements;
    NamesPrefix(columns, i);
    ChosenIsNew(columns[i], Keys(columns, i));
    KeysGrow(Names(columns), i);
  }

  /* ---- Names in columnar results ---- */

  function Occurrences(columns: seq<string>, name: string): nat {
    if columns == [] then 0
    else Occurrences(columns[..|columns| - 1], name) + if columns[|columns| - 1] == name then 1 else 0
  }

  function Numbered(name: string, n: nat): string {
    if n == 0 then name else Suffixed(name, n)
  }

  /** The keys of a columnar result: a column is numbered by how often its name came before, whatever the keys of the
      other columns are. */
  function ColumnarNames(columns: seq<string>): (names: seq<string>)
    ensures |names| == |columns|
  {
    if columns == [] then []
    else
      var before, name := columns[..|columns| - 1], columns[|columns| - 1];
      ColumnarNames(before) + [Numbered(name, Occurrences(before, name))]
  }

  /** The number that a column gets when `seen` counts the names before it. */
  method UniqueName(name: string, seen: map<string, nat>) returns (key: string, seen': map<string, nat>)
    ensures var n := if name in seen then seen[name] else 0;
      key == Numbered(name, n) && seen' == seen[name := n + 1]
  {
    var index := if name in seen then seen[name] else 0;
    seen' := seen[name := index + 1];
    key := if index == 0 then name else Suffixed(name, index);
  }

  /** Names the columns one after the other. */
  method UniqueNames(columns: seq<string>) returns (names: seq<string>)
    ensures names == ColumnarNames(columns)
  {
    names := [];
    var seen: map<string, nat> := map[];
    assert columns[..0] == [];
    for i := 0 to |columns|
      invariant names == ColumnarNames(columns[..i])
      invariant forall name :: Occurrences(columns[..i], name) == if name in seen then seen[name] else 0
    {
      assert columns[..i + 1][..i] == columns[..i];
      var key;
      key, seen := UniqueName(columns[i], seen);
      names := names + [key];
    }
    assert columns[..|columns|] == columns;
  }

  lemma {:induction false} ColumnarNameAt(columns: seq<string>, i: nat)
    requires i < |columns|
    ensures ColumnarNames(columns)[i] == Numbered(columns[i], Occurrences(columns[..i], columns[i]))
  {
    var n := |columns| - 1;
    if i < n {
      ColumnarNameAt(columns[..n], i);
      assert columns[..n][..i] == columns[..i];
    }
  }

  /** The column in which a name comes for the time `k`, counted from 0. */
  lemma {:induction false} OccurrenceAt(columns: seq<string>, name: string, k: nat) returns (i: nat)
    requires k < Occurrences(columns, name)
    ensures i < |columns| && columns[i] == name && Occurrences(columns[..i], name) == k
  {
    var n := |columns| - 1;
    if k < Occurrences(columns[..n], name) {
      i := OccurrenceAt(columns[..n], name, k);
      assert columns[..n][..i] == columns[..i];
    } else {
      i := n;
    }
  }

  lemma {:induction false} OccurrencesGrow(columns: seq<string>, name: string, i: nat, j: nat)
    requires i <= j <= |columns|
    ensures Occurrences(columns[..i], name) <= Occurrences(columns[..j], name)
    ensures i < j && columns[i] == name ==> Occurrences(columns[..i], name) < Occurrences(columns[..j], name)
    decreases j
  {
    if i < j {
      OccurrencesGrow(columns, name, i, j - 1);
      assert columns[..j][..j - 1] == columns[..j - 1];
    }
  }

  lemma OccursOnce(columns: seq<string>, i: nat)
    requires i < |columns|
    ensures Occurrences(columns[..i], columns[i]) < Occurrences(columns, columns[i])
  {
    OccurrencesGrow(columns, columns[i], i, |columns|);
    assert columns[..|columns|] == columns;
  }

  /** A column's own name is the numbered name of a column that comes more than once. */
  ghost predicate Clash(columns: seq<string>) {
    exists i, j, k: nat :: Clashes(columns, i, j, k)
  }

  predicate Clashes(columns: seq<string>, i: int, j: int, k: nat) {
    && 0 <= i < |columns| && 0 <= j < |columns|
    && 1 <= k < Occurrences(columns, columns[j]) && columns[i] == Suffixed(columns[j], k)
  }

  ghost predicate Distinct(names: seq<string>) {
    forall i, j :: 0 <= i < j < |names| ==> names[i] != names[j]
  }

  /** The text behind the last underscore of a numbered name is its number. */
  lemma SuffixUnique(a: string, j: nat, b: string, k: nat)
    requires Suffixed(a, j) == Suffixed(b, k)
    ensures a == b && j == k
  {
    var s, dj, dk := Suffixed(a, j), DecimalText(j), DecimalText(k);
    assert s[|a|] == '_' && s[|b|] == '_';
    assert forall i :: |a| < i < |s| ==> s[i] == dj[i - |a| - 1];
    assert forall i :: |b| < i < |s| ==> s[i] == dk[i - |b| - 1];
    assert |a| == |b|;
    assert a == s[..|a|] == b;
    assert dj == s[|a| + 1..] == dk;
    DecimalTextInjective(j, k);
  }

  /** A columnar result has a key for each column if and only if no column has the numbered name of another one. */
  lemma {:induction false} DistinctUnlessClash(columns: seq<string>)
    ensures Distinct(ColumnarNames(columns)) <==> !Clash(columns)
  {
    hide ColumnarNames, Occurrences, Suffixed;
    if i, j, k: nat :| Clashes(columns, i, j, k) {
      ClashMakesEqual(columns, i, j, k);
    }
    forall a, b | 0 <= a < b < |columns| && ColumnarNames(columns)[a] == ColumnarNames(columns)[b]
      ensures Clash(columns)
    {
      EqualMakesClash(columns, a, b);
    }
  }

  lemma ClashMakesEqual(columns: seq<string>, i: nat, j: nat, k: nat)
    requires Clashes(columns, i, j, k)
    ensures !Distinct(ColumnarNames(columns))
  {
    hide ColumnarNames, Suffixed;
    var names := ColumnarNames(columns);
    OccursOnce(columns, i);
    var a := OccurrenceAt(columns, columns[i], 0);
    var b := OccurrenceAt(columns, columns[j], k);
    ColumnarNameAt(columns, a);
    ColumnarNameAt(columns, b);
    assert names[a] == names[b] && a != b;
  }

  lemma EqualMakesClash(columns: seq<string>, a: nat, b: nat)
    requires a < b < |columns| && ColumnarNames(columns)[a] == ColumnarNames(columns)[b]
    ensures Clash(columns)
  {
    hide ColumnarNames, Suffixed;
    ColumnarNameAt(columns, a);
    ColumnarNameAt(columns, b);
    var m, n := Occurrences(columns[..a], columns[a]), Occurrences(columns[..b], columns[b]);
    OccursOnce(columns, a);
    OccursOnce(columns, b);
    if columns[a] == columns[b] {
      OccurrencesGrow(columns, columns[a], a, b);
    }
    if m > 0 && n > 0 {
      SuffixUnique(columns[a], m, columns[b], n);
    } else if m == 0 && n > 0 {
      assert Clashes(columns, a, b, n);
    } else if m > 0 {
      assert Clashes(columns, b, a, m);
    }
  }

  /** Columnar results have the keys of row hashes if and only if their own keys are distinct. */
  lemma {:induction false} NamesAgree(columns: seq<string>)
    ensures ColumnarNames(columns) == Names(columns) <==> Distinct(ColumnarNames(columns))
  {
    if ColumnarNames(columns) == Names(columns) {
      forall i, j | 0 <= i < j < |columns| ensures Names(columns)[i] != Names(columns)[j] {
        NamesDistinct(columns, i, j);
      }
    } else if columns != [] {
      var n := |columns| - 1;
      var before := columns[..n];
      NamesAgree(before);
      if Distinct(ColumnarNames(before)) {
        NextAgrees(before, columns[n]);
        var i :| 0 <= i < n && Names(before)[i] == ColumnarNames(columns)[n];
        assert ColumnarNames(columns)[i] == ColumnarNames(columns)[n];
      } else {
        var i, j :| 0 <= i < j < n && ColumnarNames(before)[i] == ColumnarNames(before)[j];
        assert ColumnarNames(columns)[i] == ColumnarNames(columns)[j];
      }
    }
  }

  lemma NextAgrees(before: seq<string>, name: string)
    requires ColumnarNames(before) == Names(before)
    ensures var next := Numbered(name, Occurrences(before, name));
      next !in Elements(Names(before)) ==> next == Chosen(name, Elements(Names(before)))
  {
    hide Names, Chosen, ColumnarNames, Occurrences, Suffixed;
    var n, taken := Occurrences(before, name), Elements(Names(before));
    forall k: nat | k < n ensures Numbered(name, k) in taken {
      var i := OccurrenceAt(before, name, k);
      ColumnarNameAt(before, i);
      assert Names(before)[i] == Numbered(name, k);
    }
    if Numbered(name, n) !in taken {
      ChosenFirst(name, taken, n);
    }
  }

  lemma ChosenFirst(name: string, taken: set<string>, n: nat)
    requires Numbered(name, n) !in taken && forall k: nat :: k < n ==> Numbered(name, k) in taken
    ensures Chosen(name, taken) == Numbered(name, n)
  {
    hide Suffixed;
    if n > 0 {
      assert Numbered(name, 0) in taken;
      var f := FirstFree(name, taken, 1);
      assert Numbered(name, f) == Suffixed(name, f);
    }
  }

  /** Three columns of which the last one takes the key of the second. */
  lemma KeyTakenTwice()
    ensures Clash(["A", "A", "A_1"]) && ColumnarNames(["A", "A", "A_1"]) == ["A", "A_1", "A_1"]
  {
    hide Clashes;
    var one, two, all := ["A"], ["A", "A"], ["A", "A", "A_1"];
    assert one[..0] == [] && two[..1] == one && all[..2] == two;
    assert Suffixed("A", 1) == "A_1" by {
      assert DecimalText(1) == "1";
    }
    assert Occurrences(one, "A") == 1 && Occurrences(two, "A") == 2 && Occurrences(all, "A") == 2;
    assert Occurrences(one, "A_1") == 0 && Occurrences(two, "A_1") == 0;
    assert ColumnarNames(one) == ["A"] && ColumnarNames(two) == ["A", "A_1"];
    assert Clashes(all, 2, 0, 1) by {
      TwoAs(all);
    }
  }

  lemma TwoAs(columns: seq<string>)
    requires |columns| == 3 && columns[0] == "A" && columns[2] == Suffixed("A", 1) && Occurrences(columns, "A") == 2
    ensures Clashes(columns, 2, 0, 1)
  {
    hide Suffixed, Occurrences;
  }

  /* ---- Rows ---- */

  /** The value of each column in a row; None if it cannot be read. */
  type Row = seq<Option<Value>>

  predicate Complete(row: Row, columns: seq<string>) {
    |row| == |columns| && forall i :: 0 <= i < |row| ==> row[i].Some?
  }

  predicate AllComplete(rows: seq<Row>, columns: seq<string>) {
    forall k :: 0 <= k < |rows| ==> Complete(rows[k], columns)
  }

  ghost predicate IsRow(h: map<string, Value>, columns: seq<string>, row: Row) {
    && Complete(row, columns) && h.Keys == Elements(Names(columns))
    && forall i :: 0 <= i < |row| ==> h[Names(columns)[i]] == row[i].value
  }

  /** The first name with a number that is not a key of the hash. */
  method FindName(name: string, h: map<string, Value>) returns (key: string)
    ensures name in h ==> key == Chosen(name, h.Keys)
  {
    var num := 1;
    while Suffixed(name, num) in h
      invariant 1 <= num <= FirstFree(name, h.Keys, 1)
      decreases FirstFree(name, h.Keys, 1) - num
    {
      num := num + 1;
    }
    key := Suffixed(name, num);
  }

  /** Makes the hash of a row; None if a value cannot be read. */
  method MakeRow(columns: seq<string>, row: Row) returns (r: Option<map<string, Value>>)
    requires |row| == |columns|
    ensures r.Some? <==> Complete(row, columns)
    ensures r.Some? ==> IsRow(r.value, columns, row)
  {
    var h: map<string, Value> := map[];
    ghost var names := Names(columns);
    hide Names, Chosen;
    for i := 0 to |columns|
      invariant h.Keys == Keys(columns, i) && |names| == |columns|
      invariant forall j :: 0 <= j < i ==> row[j].Some? && names[j] in h && h[names[j]] == row[j].value
    {
      if row[i] == None {
        return None;
      }
      var key := columns[i];
      NextName(columns, i);
      if key in h {
        key := FindName(columns[i], h);
      }
      assert key == names[i] by {
        NotTaken(columns[i], h.Keys);
      }
      h := h[key := row[i].value];
    }
    assert names[..|columns|] == names;
    r := Some(h);
  }

  lemma NotTaken(name: string, taken: set<string>)
    ensures name !in taken ==> Chosen(name, taken) == name
  {
  }

  /* ---- Columns ---- */

  /** The hash has a list for each key, and the lists hold the rows. */
  ghost predicate IsColumns(h: map<string, seq<Value>>, columns: seq<string>, rows: seq<Row>) {
    && h.Keys == Elements(Names(columns))
    && (forall r :: 0 <= r < |rows| ==> Complete(rows[r], columns))
    && (forall key :: key in h ==> |h[key]| == |rows|)
    && forall i, r :: 0 <= i < |columns| && 0 <= r < |rows| ==> Cell(h, Names(columns)[i], r, rows[r][i].value)
  }

  predicate Cell(h: map<string, seq<Value>>, key: string, r: nat, v: Value) {
    key in h && r < |h[key]| && h[key][r] == v
  }

  /** What the hash of columns holds between two rows: before the first one, an empty list for each column name. */
  ghost predicate Between(h: map<string, seq<Value>>, columns: seq<string>, rows: seq<Row>) {
    if rows == [] then h.Keys == Elements(columns) && forall key :: key in h ==> h[key] == []
    else IsColumns(h, columns, rows)
  }

  /** The lists that were used in this row are longer by one than the others. */
  predicate Lengths(h: map<string, seq<Value>>, used: set<string>, n: nat) {
    forall key :: key in h ==> |h[key]| == if key in used then n + 1 else n
  }

  /** What a hash of lists holds when `i` values of a row were added: at least the keys `own`, no others than `all`,
      and the lists of the keys `used` are longer by one. */
  ghost predicate Partial(h: map<string, seq<Value>>, names: seq<string>, own: set<string>, all: set<string>,
                          used: set<string>, rows: seq<Row>, row: Row, i: nat)
    requires i <= |names| == |row|
  {
    && own <= h.Keys <= all && used <= h.Keys && (rows != [] ==> h.Keys == all)
    && (forall r :: 0 <= r < |rows| ==> Complete(rows[r], names))
    && Lengths(h, used, |rows|)
    && (forall j, r :: 0 <= j < |names| && 0 <= r < |rows| ==> Cell(h, names[j], r, rows[r][j].value))
    && forall j :: 0 <= j < i ==> row[j].Some? && Cell(h, names[j], |rows|, row[j].value)
  }

  ghost predicate Within(h: map<string, seq<Value>>, columns: seq<string>, rows: seq<Row>, row: Row, i: nat)
    requires i <= |columns| == |row|
  {
    Partial(h, Names(columns), Elements(columns), Elements(Names(columns)), Keys(columns, i), rows, row, i)
  }

  lemma RowStarts(h: map<string, seq<Value>>, columns: seq<string>, rows: seq<Row>, row: Row)
    requires Between(h, columns, rows) && |columns| == |row|
    ensures Within(h, columns, rows, row, 0)
  {
    forall name | name in Elements(columns) ensures name in Elements(Names(columns)) {
      var i :| 0 <= i < |columns| && columns[i] == name;
      NamesCover(columns, i);
    }
    assert Names(columns)[..0] == [];
    hide Names;
  }

  lemma RowEnds(h: map<string, seq<Value>>, columns: seq<string>, rows: seq<Row>, row: Row)
    requires |columns| == |row| && Within(h, columns, rows, row, |columns|)
    ensures IsColumns(h, columns, rows + [row]) && Complete(row, columns)
  {
    assert Names(columns)[..|columns|] == Names(columns);
    hide Names;
  }

  function Pushed(h: map<string, seq<Value>>, key: string, v: Value): map<string, seq<Value>> {
    h[key := (if key in h then h[key] else []) + [v]]
  }

  lemma LengthsAdded(h: map<string, seq<Value>>, used: set<string>, n: nat, key: string, v: Value)
    requires Lengths(h, used, n) && used <= h.Keys && key !in used && (key !in h ==> n == 0)
    ensures Lengths(Pushed(h, key, v), used + {key}, n) && Cell(Pushed(h, key, v), key, n, v)
    ensures Pushed(h, key, v).Keys == h.Keys + {key}
  {
  }

  lemma CellKept(h: map<string, seq<Value>>, key: string, v: Value, k: string, r: nat, w: Value)
    requires Cell(h, k, r, w)
    ensures Cell(Pushed(h, key, v), k, r, w)
  {
  }

  lemma ValueAdded(h: map<string, seq<Value>>, names: seq<string>, own: set<string>, all: set<string>,
                   used: set<string>, rows: seq<Row>, row: Row, i: nat)
    requires i < |names| == |row| && Partial(h, names, own, all, used, rows, row, i) && row[i].Some?
    requires names[i] in all && names[i] !in used
    ensures Partial(Pushed(h, names[i], row[i].value), names, own, all, used + {names[i]}, rows, row, i + 1)
  {
    var key, v := names[i], row[i].value;
    var h' := Pushed(h, key, v);
    LengthsAdded(h, used, |rows|, key, v);
    hide Lengths, Cell, Pushed;
    forall j, r | 0 <= j < |names| && 0 <= r < |rows| ensures Cell(h', names[j], r, rows[r][j].value) {
      CellKept(h, key, v, names[j], r, rows[r][j].value);
    }
    forall j | 0 <= j < i ensures row[j].Some? && Cell(h', names[j], |rows|, row[j].value) {
      CellKept(h, key, v, names[j], |rows|, row[j].value);
    }
  }

  lemma ColumnAdded(h: map<string, seq<Value>>, columns: seq<string>, rows: seq<Row>, row: Row, i: nat)
    requires |columns| == |row| && i < |columns| && Within(h, columns, rows, row, i) && row[i].Some?
    ensures Within(Pushed(h, Names(columns)[i], row[i].value), columns, rows, row, i + 1)
  {
    hide Names, Chosen, Partial;
    NextName(columns, i);
    NameIsKey(columns, i);
    hide Elements, Keys;
    ValueAdded(h, Names(columns), Elements(columns), Elements(Names(columns)), Keys(columns, i), rows, row, i);
  }

  lemma NameIsKey(columns: seq<string>, i: nat)
    requires i < |columns|
    ensures Names(columns)[i] in Elements(Names(columns))
  {
    hide Names;
  }

  /** The list for a column whose name was used in this row already: the first numbered one that was not. */
  method FindList(name: string, csize: nat, h: map<string, seq<Value>>, ghost used: set<string>) returns (key: string)
    requires used <= h.Keys && Lengths(h, used, csize)
    ensures name in used ==> key == Chosen(name, used)
  {
    var num := 1;
    while Suffixed(name, num) in h && |h[Suffixed(name, num)]| != csize
      invariant 1 <= num <= FirstFree(name, used, 1)
      decreases FirstFree(name, used, 1) - num
    {
      num := num + 1;
    }
    key := Suffixed(name, num);
  }

  /** Adds a row to the hash of columns; stops at a value that cannot be read. */
  method AddRow(columns: seq<string>, row: Row, h: map<string, seq<Value>>, ghost rows: seq<Row>)
    returns (h': map<string, seq<Value>>, ok: bool)
    requires |row| == |columns| && Between(h, columns, rows)
    ensures ok <==> Complete(row, columns)
    ensures ok ==> IsColumns(h', columns, rows + [row])
  {
    h', ok := h, true;
    var csize := 0;
    RowStarts(h, columns, rows, row);
    hide Between, IsColumns, Names, Chosen, Cell;
    var i := 0;
    while ok && i < |columns|
      invariant i <= |columns|
      invariant ok ==> Within(h', columns, rows, row, i) && (i > 0 ==> csize == |rows|)
      invariant !ok ==> !Complete(row, columns)
      decreases ok, |columns| - i
    {
      var key := columns[i];
      assert key in Elements(columns);
      NextName(columns, i);
      NotTaken(key, Keys(columns, i));
      assert i == 0 ==> Keys(columns, i) == {};
      if i == 0 {
        csize := |h'[key]|;
      } else if |h'[key]| > csize {
        key := FindList(key, csize, h', Keys(columns, i));
      }
      ok := row[i].Some?;
      if ok {
        ColumnAdded(h', columns, rows, row, i);
        h' := Pushed(h', key, row[i].value);
        i := i + 1;
      }
    }
    if ok {
      RowEnds(h', columns, rows, row);
    }
  }

  /** The hash of columns is the list of rows transposed, under the same keys. */
  lemma Transposed(h: map<string, seq<Value>>, list: seq<map<string, Value>>, columns: seq<string>, rows: seq<Row>)
    requires IsColumns(h, columns, rows)
    requires |list| == |rows| && forall r :: 0 <= r < |rows| ==> IsRow(list[r], columns, rows[r])
    ensures forall r :: 0 <= r < |list| ==> list[r].Keys == h.Keys
    ensures forall key, r :: key in h && 0 <= r < |list| ==> |h[key]| == |list| && h[key][r] == list[r][key]
  {
    forall key, r | key in h && 0 <= r < |list| ensures h[key][r] == list[r][key] {
      var i :| 0 <= i < |columns| && Names(columns)[i] == key;
      assert Cell(h, Names(columns)[i], r, rows[r][i].value);
    }
  }

  /* ---- Columnar results ---- */

  /** Each builder has the values of its column in the rows. */
  ghost predicate Builds(builders: seq<seq<Value>>, columns: seq<string>, rows: seq<Row>) {
    && |builders| == |columns| && (forall r :: 0 <= r < |rows| ==> Complete(rows[r], columns))
    && forall i :: 0 <= i < |columns| ==> HasColumn(builders[i], rows, i)
  }

  /** The values of a column, in rows that have it. */
  ghost predicate HasColumn(values: seq<Value>, rows: seq<Row>, i: nat) {
    |values| == |rows| && forall r :: 0 <= r < |rows| ==> i < |rows[r]| && rows[r][i] == Some(values[r])
  }

  /** A column is found under its key, unless a later column has the same key. */
  ghost predicate IsColumnar(h: map<string, seq<Value>>, columns: seq<string>, rows: seq<Row>) {
    var names := ColumnarNames(columns);
    && h.Keys == Elements(names) && (forall r :: 0 <= r < |rows| ==> Complete(rows[r], columns))
    && forall i :: 0 <= i < |names| && names[i] !in names[i + 1..] ==> HasColumn(h[names[i]], rows, i)
  }

  ghost predicate ColumnarOf(h: map<string, seq<Value>>, columns: seq<string>, rows: seq<Row>) {
    if rows == [] then forall key :: key in h ==> h[key] == [] else IsColumnar(h, columns, rows)
  }

  /** Adds a row to the builders; stops at a value that cannot be read. */
  method AppendRow(builders: seq<seq<Value>>, columns: seq<string>, row: Row, ghost rows: seq<Row>)
    returns (builders': seq<seq<Value>>, ok: bool)
    requires |row| == |columns| && Builds(builders, columns, rows)
    ensures ok <==> Complete(row, columns)
    ensures ok ==> Builds(builders', columns, rows + [row])
  {
    builders', ok := builders, true;
    var i := 0;
    while ok && i < |builders|
      invariant i <= |builders'| == |columns|
      invariant ok ==> forall j :: 0 <= j < i ==> row[j].Some? && HasColumn(builders'[j], rows + [row], j)
      invariant ok ==> forall j :: i <= j < |columns| ==> HasColumn(builders'[j], rows, j)
      invariant !ok ==> !Complete(row, columns)
      decreases ok, |builders| - i
    {
      ok := row[i].Some?;
      if ok {
        builders' := builders'[i := builders'[i] + [row[i].value]];
        i := i + 1;
      }
    }
  }

  /** Puts the columns under their keys; the last one of several with the same key stays. */
  method FinishColumns(builders: seq<seq<Value>>, columns: seq<string>, names: seq<string>, ghost rows: seq<Row>)
    returns (h: map<string, seq<Value>>)
    requires Builds(builders, columns, rows) && names == ColumnarNames(columns)
    ensures IsColumnar(h, columns, rows)
  {
    hide ColumnarNames;
    h := map[];
    for i := 0 to |builders|
      invariant h.Keys == Elements(names[..i])
      invariant forall j :: 0 <= j < i && names[j] !in names[j + 1..i] ==> h[names[j]] == builders[j]
    {
      h := h[names[i] := builders[i]];
      KeysGrow(names, i);
      forall j | 0 <= j < i + 1 && names[j] !in names[j + 1..i + 1] ensures h[names[j]] == builders[j] {
        if j < i {
          assert names[j + 1..i + 1][i - j - 1] == names[i] && names[j + 1..i + 1][..i - j - 1] == names[j + 1..i];
        }
      }
    }
    assert names[..|names|] == names;
    forall j | 0 <= j < |names| && names[j] !in names[j + 1..] ensures h[names[j]] == builders[j] {
      assert names[j + 1..|names|] == names[j + 1..];
    }
  }

  /** Unless two columns clash, a columnar result has the same columns under the same keys as a hash of columns. */
  lemma ColumnarIsColumns(h: map<string, seq<Value>>, columns: seq<string>, rows: seq<Row>)
    requires ColumnarOf(h, columns, rows) && !Clash(columns)
    ensures ColumnsOf(h, columns, rows)
  {
    hide Clash, Complete, Names, ColumnarNames;
    DistinctUnlessClash(columns);
    NamesAgree(columns);
    var names := Names(columns);
    if rows != [] {
      forall i | 0 <= i < |columns| ensures names[i] in h && HasColumn(h[names[i]], rows, i) {
        NameIsKey(columns, i);
      }
    }
  }

  lemma {:induction false} KeysCounted(names: seq<string>)
    ensures |Elements(names)| <= |names| && (|Elements(names)| == |names| <==> Distinct(names))
  {
    if names != [] {
      var n := |names| - 1;
      var before, name := names[..n], names[n];
      KeysCounted(before);
      assert names == before + [name];
      ElementsPushed(before, name);
      if name in Elements(before) {
        var i :| 0 <= i < n && before[i] == name;
        assert names[i] == names[n];
        assert Elements(names) == Elements(before);
      } else if Distinct(before) {
        forall i, j | 0 <= i < j < |names| ensures names[i] != names[j] {
          assert names[i] == before[i] && names[i] in Elements(before);
        }
      } else {
        var i, j :| 0 <= i < j < n && before[i] == before[j];
        assert names[i] == names[j];
      }
    }
  }

  /** A columnar result has all columns if and only if no two of them clash; otherwise columns are lost. */
  lemma AllColumnsThere(h: map<string, seq<Value>>, columns: seq<string>, rows: seq<Row>)
    requires IsColumnar(h, columns, rows)
    ensures |h.Keys| == |columns| <==> !Clash(columns)
  {
    hide Clash, Complete;
    KeysCounted(ColumnarNames(columns));
    DistinctUnlessClash(columns);
  }

  /* ---- Blocks ---- */

  /** The rows that are left, and what the statement knows about the end of the data. */
  datatype Progress = Progress(source: seq<Row>, complete: bool, warned: bool)

  /** How many rows a block takes; a size that is not positive takes all. */
  function Taken(source: seq<Row>, size: int): (n: nat)
    ensures n <= |source|
  {
    if 0 < size < |source| then size else |source|
  }

  /** What a call for a block of rows gives when nothing fails; None is the error after the end of the data. */
  function Block(p: Progress, size: int): (Progress, Option<seq<Row>>) {
    if p.warned then (p, None)
    else if p.complete then (p.(warned := true), Some([]))
    else
      var n := Taken(p.source, size);
      (Progress(p.source[n..], n < size, false), Some(p.source[..n]))
  }

  ghost predicate RowsOf(list: seq<map<string, Value>>, columns: seq<string>, rows: seq<Row>) {
    |list| == |rows| && forall k :: 0 <= k < |rows| ==> IsRow(list[k], columns, rows[k])
  }

  ghost predicate ColumnsOf(h: map<string, seq<Value>>, columns: seq<string>, rows: seq<Row>) {
    if rows == [] then forall key :: key in h ==> h[key] == [] else IsColumns(h, columns, rows)
  }

  datatype Fetched = Row | EndOfData | Failed

  /** What fetchRow() gives: an error as no row was fetched, an unreadable value, the current row, or whatever the
      buffers hold although no row was fetched into them. */
  datatype RowResult = NotFetched | Unreadable | RowHash(h: map<string, Value>) | Unfilled

  class Statement {
    const columns: seq<string>
    var fetchDone: bool
    var fetchComplete: bool
    var fetchWarned: bool
    var current: Option<Row>  // the values of the row that was fetched last
    var source: seq<Row>    // the rows that the server has not sent yet
    ghost var faults: nat   // calls of the client that failed

    constructor (columns: seq<string>, rows: seq<Row>)
      requires forall k :: 0 <= k < |rows| ==> |rows[k]| == |columns|
      ensures Valid() && this.columns == columns && AtWork() == Progress(rows, false, false) && !fetchDone
    {
      this.columns, source := columns, rows;
      fetchDone, fetchComplete, fetchWarned, current, faults := false, false, false, None, 0;
    }

    predicate Valid()
      reads this
    {
      && (forall k :: 0 <= k < |source| ==> |source[k]| == |columns|)
      && (current.Some? ==> |current.value| == |columns| && fetchDone)
    }

    function AtWork(): Progress
      reads this
    {
      Progress(source, fetchComplete, fetchWarned)
    }

    /** Fetches the next row, if there is one. */
    method Next() returns (r: Fetched)
      requires Valid()
      modifies this`source, this`current, this`fetchDone, this`faults
      ensures Valid()
      ensures match r
        case Row =>
          old(source) != [] && source == old(source)[1..] && current == Some(old(source)[0]) && faults == old(faults)
        case EndOfData => old(source) == [] && unchanged(this)
        case Failed => faults > old(faults) && unchanged(`source, `current, `fetchDone)
    {
      if * {
        faults := faults + 1;
        return Failed;
      }
      if source == [] {
        return EndOfData;
      }
      current, source, fetchDone := Some(source[0]), source[1..], true;
      r := Row;
    }

    /** Makes the hash of the current row; the check that a row was fetched is passed by any block, even by an empty
        one. */
    method FetchRow() returns (r: RowResult)
      requires Valid()
      ensures r == NotFetched <==> !fetchDone
      ensures r == Unfilled <==> fetchDone && current == None
      ensures r == Unreadable <==> current.Some? && !Complete(current.value, columns)
      ensures r.RowHash? ==> current.Some? && IsRow(r.h, columns, current.value)
    {
      if !fetchDone {
        return NotFetched;
      }
      if current == None {
        return Unfilled;
      }
      var h := MakeRow(columns, current.value);
      r := if h == None then Unreadable else RowHash(h.value);
    }

    /** Setting the prefetch count or defining the columns may fail. */
    method Prepare() returns (ok: bool)
      modifies this`faults
      ensures if ok then faults == old(faults) else faults > old(faults)
    {
      ok := *;
      if !ok {
        faults := faults + 1;
      }
    }

    /** What a call for a block promises: unless a call of the client or a value fails, the rows of the block. */
    twostate predicate Fetches(rows: int, got: bool)
      reads this
    {
      var (next, block) := Block(old(AtWork()), rows);
      && Valid() && faults >= old(faults) && (got ==> faults == old(faults) && (fetchDone || old(fetchComplete)))
      && (block == None ==> AtWork() == next && faults == old(faults))
      && (old(source) == [] ==> current == old(current))
      && if block.Some? && (forall k :: 0 <= k < |block.value| ==> Complete(block.value[k], columns)) then
           faults == old(faults) ==> got && AtWork() == next
         else !got
    }

    /** Fetches a block of rows as a list of hashes. */
    method FetchRows(rows: int) returns (r: Option<seq<map<string, Value>>>)
      requires Valid()
      modifies this
      ensures Fetches(rows, r.Some?)
      ensures r.Some? ==> RowsOf(r.value, columns, Block(old(AtWork()), rows).1.value)
    {
      hide IsRow;
      if fetchWarned {
        return None;
      }
      if fetchComplete {
        fetchWarned := true;
        return Some([]);
      }
      var ok := Prepare();
      if !ok {
        return None;
      }
      r := ReadRows(rows);
      if r.Some? {
        fetchDone := true;
        if |r.value| < rows {
          fetchComplete := true;
        }
      }
    }

    /** The first row with a value that cannot be read was fetched last. */
    ghost predicate StopsAtRow(all: seq<Row>, n: nat)
      requires n <= |all|
      reads this
    {
      exists k :: 0 <= k < n && !Complete(all[k], columns) && source == all[k + 1..] && AllComplete(all[..k], columns)
    }

    method ReadRows(rows: int) returns (r: Option<seq<map<string, Value>>>)
      requires Valid()
      modifies this`source, this`current, this`fetchDone, this`faults
      ensures Valid() && old(faults) <= faults
      ensures old(source) == [] ==> current == old(current)
      ensures var n := Taken(old(source), rows);
        && (r.Some? ==>
              RowsOf(r.value, columns, old(source)[..n]) && source == old(source)[n..] && faults == old(faults))
        && (r.Some? ==> forall k :: 0 <= k < n ==> Complete(old(source)[k], columns))
        && (r == None ==> faults > old(faults) || StopsAtRow(old(source), n))
    {
      ghost var all := source;
      var list: seq<map<string, Value>> := [];
      var fetched := Next();
      while fetched == Row
        invariant Valid() && |list| <= |all| && RowsOf(list, columns, all[..|list|])
        invariant fetched == Row ==>
          |list| < |all| && current == Some(all[|list|]) && source == all[|list| + 1..] && (rows > 0 ==> |list| < rows)
        invariant fetched == EndOfData ==> |list| == Taken(all, rows) && source == all[|list|..]
        invariant all == [] ==> current == old(current)
        invariant if fetched == Failed then faults > old(faults) else faults == old(faults)
        decreases fetched == Row, |all| - |list|
      {
        var h := MakeRow(columns, current.value);
        if h == None {
          assert !Complete(all[|list|], columns) && AllComplete(all[..|list|], columns);
          return None;
        }
        list := list + [h.value];
        if rows > 0 && |list| == rows {
          fetched := EndOfData; // the block is full
        } else {
          fetched := Next();
        }
      }
      r := if fetched == Failed then None else Some(list);
    }

    /** Fetches a block of rows as a hash of columns; `cols` asks for the columns even if there are no rows. */
    method FetchColumns(rows: int, cols: bool) returns (r: Option<map<string, seq<Value>>>)
      requires Valid() && (cols ==> !fetchComplete)
      modifies this
      ensures Fetches(rows, r.Some?)
      ensures r.Some? ==> ColumnsOf(r.value, columns, Block(old(AtWork()), rows).1.value)
    {
      hide IsColumns;
      if fetchWarned {
        return None;
      }
      if fetchComplete {
        fetchWarned := true;
        return Some(map[]);
      }
      var ok := Prepare();
      if !ok {
        return None;
      }
      var count;
      r, count := ReadColumns(rows, cols);
      if r.Some? {
        fetchDone := true;
        if count < rows {
          fetchComplete := true;
        }
      }
    }

    /** After a value that cannot be read, the rest of the block is fetched, but none of its values. */
    method ReadColumns(rows: int, cols: bool) returns (r: Option<map<string, seq<Value>>>, count: nat)
      requires Valid()
      modifies this`source, this`current, this`fetchDone, this`faults
      ensures Valid() && old(faults) <= faults
      ensures old(source) == [] ==> current == old(current)
      ensures var n := Taken(old(source), rows);
        && (faults == old(faults) ==> count == n && source == old(source)[n..])
        && (r.Some? ==> ColumnsOf(r.value, columns, old(source)[..n]) && faults == old(faults))
        && (r.Some? ==> AllComplete(old(source)[..n], columns))
        && (r == None ==> faults > old(faults) || exists k :: 0 <= k < n && !Complete(old(source)[k], columns))
    {
      hide IsColumns, ColumnsOf, Between, Complete, EmptyLists, Names;
      ghost var all := source;
      var h: map<string, seq<Value>> := if cols then EmptyLists(columns) else map[];
      count := 0;
      var good := true;
      ghost var bad := 0;
      var fetched := Next();
      while fetched == Row
        invariant Valid() && count <= |all|
        invariant good && count > 0 ==> IsColumns(h, columns, all[..count])
        invariant good && count == 0 ==> h == map[] || h == EmptyLists(columns)
        invariant !good ==> bad < count && !Complete(all[bad], columns)
        invariant fetched == Row ==>
          count < |all| && current == Some(all[count]) && source == all[count + 1..] && (rows > 0 ==> count < rows)
        invariant fetched == EndOfData ==> count == Taken(all, rows) && source == all[count..]
        invariant all == [] ==> current == old(current)
        invariant if fetched == Failed then faults > old(faults) else faults == old(faults)
        decreases fetched == Row, |all| - count
      {
        if good {
          if h == map[] {
            h := EmptyLists(columns);
          }
          StillBetween(h, columns, all[..count]);
          h, good := AddRow(columns, current.value, h, all[..count]);
          bad := count;
        }
        assert all[..count] + [current.value] == all[..count + 1];
        count := count + 1;
        if rows > 0 && count == rows {
          fetched := EndOfData; // the block is full
        } else {
          fetched := Next();
        }
      }
      if fetched == Failed || !good {
        return None, count;
      }
      ColumnsRead(h, columns, all[..count]);
      r := Some(h);
    }

    /** Fetches a block of rows as a columnar result. */
    method FetchColumnar(rows: int, cols: bool) returns (r: Option<map<string, seq<Value>>>)
      requires Valid() && (cols ==> !fetchComplete)
      modifies this
      ensures Fetches(rows, r.Some?)
      ensures r.Some? ==> ColumnarOf(r.value, columns, Block(old(AtWork()), rows).1.value)
    {
      hide IsColumnar, ColumnarOf, Builds, ColumnarNames, Complete;
      if fetchWarned {
        return None;
      }
      if fetchComplete {
        fetchWarned := true;
        NoneThere(columns);
        return Some(map[]);
      }
      var ok := Prepare();
      if !ok {
        return None;
      }
      var names := UniqueNames(columns);
      ghost var all := source;
      var builders, count;
      builders, count, ok := ReadColumnar(rows);
      if !ok {
        return None;
      }
      fetchDone := true;
      if count < rows {
        fetchComplete := true;
      }
      ok := Prepare();
      if !ok {
        return None;
      }
      var h := FinishColumns(builders, columns, names, all[..count]);
      NoRowsNoValues(h, columns, all[..count]);
      r := Some(h);
    }

    method ReadColumnar(rows: int) returns (builders: seq<seq<Value>>, count: nat, ok: bool)
      requires Valid()
      modifies this`source, this`current, this`fetchDone, this`faults
      ensures Valid() && old(faults) <= faults
      ensures old(source) == [] ==> current == old(current)
      ensures var n := Taken(old(source), rows);
        && (ok ==> Builds(builders, columns, old(source)[..n]) && count == n)
        && (ok ==> source == old(source)[n..] && faults == old(faults) && AllComplete(old(source)[..n], columns))
        && (!ok ==> faults > old(faults) || StopsAtRow(old(source), n))
    {
      hide Complete, HasColumn;
      ghost var all := source;
      builders, count := seq(|columns|, _ => []), 0;
      NothingBuilt(builders, columns);
      assert all[..0] == [];
      var fetched := Next();
      while fetched == Row
        invariant Valid() && count <= |all| && Builds(builders, columns, all[..count])
        invariant fetched == Row ==>
          count < |all| && current == Some(all[count]) && source == all[count + 1..] && (rows > 0 ==> count < rows)
        invariant fetched == EndOfData ==> count == Taken(all, rows) && source == all[count..]
        invariant all == [] ==> current == old(current)
        invariant if fetched == Failed then faults > old(faults) else faults == old(faults)
        decreases fetched == Row, |all| - count
      {
        builders, ok := AppendRow(builders, columns, current.value, all[..count]);
        if !ok {
          assert !Complete(all[count], columns) && AllComplete(all[..count], columns);
          return;
        }
        assert all[..count] + [current.value] == all[..count + 1];
        count := count + 1;
        if rows > 0 && count == rows {
          fetched := EndOfData; // the block is full
        } else {
          fetched := Next();
        }
      }
      ok := fetched != Failed;
    }
  }

  lemma NoneThere(columns: seq<string>)
    ensures ColumnarOf(map[], columns, [])
  {
  }

  lemma NothingBuilt(builders: seq<seq<Value>>, columns: seq<string>)
    requires |builders| == |columns| && forall i :: 0 <= i < |builders| ==> builders[i] == []
    ensures Builds(builders, columns, [])
  {
  }

  lemma NoRowsNoValues(h: map<string, seq<Value>>, columns: seq<string>, rows: seq<Row>)
    requires IsColumnar(h, columns, rows)
    ensures ColumnarOf(h, columns, rows)
  {
    if rows == [] {
      forall key | key in h ensures h[key] == [] {
        var i := LastWithKey(ColumnarNames(columns), key);
      }
    }
  }

  /** The last column that has a key. */
  lemma {:induction false} LastWithKey(names: seq<string>, key: string) returns (i: nat)
    requires key in names
    ensures i < |names| && names[i] == key && key !in names[i + 1..]
  {
    if key in names[1..] {
      var k := LastWithKey(names[1..], key);
      i := k + 1;
      assert names[1..][k + 1..] == names[k + 2..];
    } else {
      i := 0;
    }
  }

  /** A list for each column name. */
  function EmptyLists(columns: seq<string>): map<string, seq<Value>> {
    map name | name in Elements(columns) :: []
  }

  lemma ColumnsRead(h: map<string, seq<Value>>, columns: seq<string>, rows: seq<Row>)
    requires if rows == [] then h == map[] || h == EmptyLists(columns) else IsColumns(h, columns, rows)
    ensures ColumnsOf(h, columns, rows) && forall k :: 0 <= k < |rows| ==> Complete(rows[k], columns)
  {
  }

  lemma StillBetween(h: map<string, seq<Value>>, columns: seq<string>, rows: seq<Row>)
    requires rows == [] ==> h == EmptyLists(columns)
    requires rows != [] ==> IsColumns(h, columns, rows) || (IsColumns(map[], columns, rows) && h == EmptyLists(columns))
    ensures Between(h, columns, rows)
  {
    if rows != [] && !IsColumns(h, columns, rows) {
      NoColumns(columns, rows);
    }
  }

  lemma NoColumns(columns: seq<string>, rows: seq<Row>)
    requires rows != [] && IsColumns(map[], columns, rows)
    ensures columns == []
  {
    if columns != [] {
      NamesCover(columns, 0);
    }
  }

  /* ---- Runs of calls ---- */

  /** A call for a block of rows as hashes, as lists or as a columnar result, or for the next row. */
  datatype Ask = AskRows(size: int) | AskColumns(size: int) | AskColumnar(size: int) | AskNext

  /** What a call gives; the next row is there at any time, also after the end of the blocks. */
  function Answer(p: Progress, ask: Ask): (Progress, Option<seq<Row>>) {
    if ask.AskNext? then
      var n := Taken(p.source, 1);
      (p.(source := p.source[n..]), Some(p.source[..n]))
    else
      Block(p, ask.size)
  }

  /** What the calls give, one after the other. */
  function Answers(p: Progress, asks: seq<Ask>): (blocks: seq<Option<seq<Row>>>)
    ensures |blocks| == |asks|
    decreases asks
  {
    if asks == [] then []
    else
      var (next, block) := Answer(p, asks[0]);
      [block] + Answers(next, asks[1..])
  }

  function After(p: Progress, asks: seq<Ask>): Progress
    decreases asks
  {
    if asks == [] then p else After(Answer(p, asks[0]).0, asks[1..])
  }

  function AllRows(blocks: seq<Option<seq<Row>>>): seq<Row> {
    if blocks == [] then []
    else (if blocks[0].Some? then blocks[0].value else []) + AllRows(blocks[1..])
  }

  /** The blocks and the rows that are left are the rows of the cursor, each once and in order. */
  lemma {:induction false} BlocksInOrder(p: Progress, asks: seq<Ask>)
    ensures AllRows(Answers(p, asks)) + After(p, asks).source == p.source
    decreases asks
  {
    if asks != [] {
      hide Answer;
      var (next, block) := Answer(p, asks[0]);
      BlocksInOrder(next, asks[1..]);
      var rows := if block.Some? then block.value else [];
      assert Answers(p, asks)[1..] == Answers(next, asks[1..]);
      AnswerSplits(p, asks[0]);
      Chain(rows, AllRows(Answers(next, asks[1..])), After(next, asks[1..]).source, p.source);
    }
  }

  lemma AnswerSplits(p: Progress, ask: Ask)
    ensures var (next, block) := Answer(p, ask);
      (if block.Some? then block.value else []) + next.source == p.source
  {
  }

  lemma Chain(a: seq<Row>, b: seq<Row>, c: seq<Row>, all: seq<Row>)
    requires a + (b + c) == all
    ensures (a + b) + c == all
  {
  }

  /** Calls for blocks, of positive sizes. */
  predicate ForBlocks(asks: seq<Ask>) {
    forall j :: 0 <= j < |asks| ==> !asks[j].AskNext? && asks[j].size > 0
  }

  function Sum(asks: seq<Ask>): int
    requires ForBlocks(asks)
  {
    if asks == [] then 0 else asks[0].size + Sum(asks[1..])
  }

  /** A call for a block of a size that is not positive takes all of the rows; it does not notice the end of the data,
      so every such call behind it gives an empty block, and none of them is an error. */
  lemma {:induction false} AllAtOnce(p: Progress, asks: seq<Ask>)
    requires !p.complete && !p.warned && asks != []
    requires forall j :: 0 <= j < |asks| ==> !asks[j].AskNext? && asks[j].size <= 0
    ensures Answers(p, asks)[0] == Some(p.source) && After(p, asks) == Progress([], false, false)
    ensures forall j :: 1 <= j < |asks| ==> Answers(p, asks)[j] == Some([])
    decreases asks
  {
    var (next, block) := Answer(p, asks[0]);
    assert next == Progress([], false, false) && block == Some(p.source) by {
      assert p.source[..|p.source|] == p.source && p.source[|p.source|..] == [];
    }
    if |asks| > 1 {
      AllAtOnce(next, asks[1..]);
    }
  }

  /** With positive sizes, the blocks are full up to the first one that the rows do not fill; after that short block
      comes an empty one, and then every call is an error. */
  lemma {:induction false} BlocksEnd(p: Progress, asks: seq<Ask>, k: nat)
    requires !p.complete && !p.warned && k < |asks| && ForBlocks(asks)
    requires Sum(asks[..k]) <= |p.source| < Sum(asks[..k + 1])
    ensures var blocks := Answers(p, asks);
      && (forall j :: 0 <= j < k ==> blocks[j].Some? && |blocks[j].value| == asks[j].size)
      && blocks[k].Some? && |blocks[k].value| < asks[k].size
      && (k + 1 < |asks| ==> blocks[k + 1] == Some([]))
      && (forall j :: k + 2 <= j < |asks| ==> blocks[j] == None)
    decreases asks
  {
    var (next, block) := Answer(p, asks[0]);
    var rest := Answers(next, asks[1..]);
    assert Answers(p, asks) == [block] + rest;
    if k == 0 {
      assert asks[..1] == [asks[0]] && Sum([asks[0]]) == asks[0].size + Sum([]);
      EmptyThenErrors(next, asks[1..]);
    } else {
      assert asks[..k][1..] == asks[1..][..k - 1] && asks[..k + 1][1..] == asks[1..][..k];
      SumGrows(asks[1..][..k - 1]);
      BlocksEnd(next, asks[1..], k - 1);
    }
  }

  lemma {:induction false} SumGrows(asks: seq<Ask>)
    requires ForBlocks(asks)
    ensures Sum(asks) >= 0
  {
    if asks != [] {
      SumGrows(asks[1..]);
    }
  }

  lemma EmptyThenErrors(p: Progress, asks: seq<Ask>)
    requires p.complete && !p.warned && ForBlocks(asks)
    ensures asks != [] ==> Answers(p, asks)[0] == Some([])
    ensures forall j :: 1 <= j < |asks| ==> Answers(p, asks)[j] == None
  {
    if asks != [] {
      OnlyErrors(p.(warned := true), asks[1..]);
    }
  }

  lemma {:induction false} OnlyErrors(p: Progress, asks: seq<Ask>)
    requires p.warned && ForBlocks(asks)
    ensures forall j :: 0 <= j < |asks| ==> Answers(p, asks)[j] == None
  {
    if asks != [] {
      OnlyErrors(p, asks[1..]);
    }
  }

  /* ---- Runs of a statement ---- */

  datatype Got =
    | GotRows(rows: Option<seq<map<string, Value>>>)
    | GotColumns(lists: Option<map<string, seq<Value>>>)
    | GotColumnar(lists: Option<map<string, seq<Value>>>)
    | GotNext(row: Option<Option<map<string, Value>>>)

  /** The call got the rows of the block in the form that it asked for, or an error if there is none. */
  ghost predicate Gives(got: Got, ask: Ask, columns: seq<string>, block: Option<seq<Row>>) {
    match got
    case GotRows(rows) =>
      ask.AskRows? && (rows.Some? <==> block.Some?) && (rows.Some? ==> RowsOf(rows.value, columns, block.value))
    case GotColumns(lists) =>
      ask.AskColumns? && (lists.Some? <==> block.Some?)
        && (lists.Some? ==> ColumnsOf(lists.value, columns, block.value))
    case GotColumnar(lists) =>
      && ask.AskColumnar? && (lists.Some? <==> block.Some?)
      && (lists.Some? ==> ColumnarOf(lists.value, columns, block.value))
    case GotNext(row) =>
      && ask.AskNext? && row.Some? && block.Some? && |block.value| <= 1
      && match row.value
         case None => block.value == []
         case Some(h) => block.value != [] && IsRow(h, columns, block.value[0])
  }

  lemma {:induction false} AnswerAt(p: Progress, asks: seq<Ask>, k: nat)
    requires k < |asks|
    ensures Answer(After(p, asks[..k]), asks[k]) == (After(p, asks[..k + 1]), Answers(p, asks)[k])
    decreases k
  {
    hide Answer;
    var (next, block) := Answer(p, asks[0]);
    if k == 0 {
      assert asks[..0] == [] && asks[..1] == [asks[0]] && asks[..1][1..] == [];
    } else {
      AnswerAt(next, asks[1..], k - 1);
      assert asks[..k][1..] == asks[1..][..k - 1] && asks[..k + 1][1..] == asks[1..][..k];
    }
  }

  lemma AnswerComplete(p: Progress, ask: Ask, columns: seq<string>)
    requires AllComplete(p.source, columns)
    ensures var (next, block) := Answer(p, ask);
      AllComplete(next.source, columns) && (block.Some? ==> AllComplete(block.value, columns))
  {
    hide Complete;
    var (next, block) := Answer(p, ask);
    if block.Some? {
      assert forall k :: 0 <= k < |next.source| ==> next.source[k] == p.source[|p.source| - |next.source| + k];
    }
  }

  /** Any mix of calls for blocks in the three forms and for the next row: unless a call of the client fails or a value
      cannot be read, each call gives its part of the cursor, and the parts and the rows that are left are the rows of
      the cursor, each once and in order. */
  method AnyRun(s: Statement, asks: seq<Ask>) returns (gots: seq<Got>)
    requires s.Valid()
    modifies s
    ensures s.Valid() && |gots| == |asks| && s.faults >= old(s.faults)
    ensures s.faults == old(s.faults) && AllComplete(old(s.source), s.columns) ==>
      var blocks := Answers(old(s.AtWork()), asks);
      && (forall k :: 0 <= k < |asks| ==> Gives(gots[k], asks[k], s.columns, blocks[k]))
      && s.AtWork() == After(old(s.AtWork()), asks) && AllRows(blocks) + s.source == old(s.source)
  {
    hide Answer, Complete, Gives;
    gots := [];
    ghost var p := s.AtWork();
    assert asks[..0] == [];
    for i := 0 to |asks|
      invariant s.Valid() && |gots| == i && s.faults >= old(s.faults)
      invariant s.faults == old(s.faults) && AllComplete(p.source, s.columns) ==>
        && s.AtWork() == After(p, asks[..i]) && AllComplete(s.source, s.columns)
        && forall k :: 0 <= k < i ==> Gives(gots[k], asks[k], s.columns, Answers(p, asks)[k])
    {
      AnswerAt(p, asks, i);
      ghost var before := s.AtWork();
      if AllComplete(s.source, s.columns) {
        AnswerComplete(before, asks[i], s.columns);
      }
      var got := Perform(s, asks[i]);
      gots := gots + [got];
    }
    assert asks[..|asks|] == asks;
    BlocksInOrder(p, asks);
  }

  /** Performs one call. */
  method Perform(s: Statement, ask: Ask) returns (got: Got)
    requires s.Valid()
    modifies s
    ensures s.Valid() && s.faults >= old(s.faults)
    ensures var (next, block) := Answer(old(s.AtWork()), ask);
      s.faults == old(s.faults) && (block.Some? ==> AllComplete(block.value, s.columns)) ==>
        s.AtWork() == next && Gives(got, ask, s.columns, block)
  {
    hide Block, RowsOf, ColumnsOf, ColumnarOf, Complete, IsRow;
    match ask {
      case AskRows(size) =>
        var rows := s.FetchRows(size);
        got := GotRows(rows);
      case AskColumns(size) =>
        var lists := s.FetchColumns(size, false);
        got := GotColumns(lists);
      case AskColumnar(size) =>
        var lists := s.FetchColumnar(size, false);
        got := GotColumnar(lists);
      case AskNext =>
        var row := NextRow(s);
        got := GotNext(row);
    }
  }

  /** Fetches the next row and makes its hash. */
  method NextRow(s: Statement) returns (row: Option<Option<map<string, Value>>>)
    requires s.Valid()
    modifies s
    ensures s.Valid() && s.faults >= old(s.faults)
    ensures var (next, block) := Answer(old(s.AtWork()), AskNext);
      s.faults == old(s.faults) && AllComplete(block.value, s.columns) ==>
        s.AtWork() == next && Gives(GotNext(row), AskNext, s.columns, block)
  {
    hide Complete, IsRow;
    row := None;
    var fetched := s.Next();
    match fetched {
      case Row =>
        var r := s.FetchRow();
        if r.RowHash? {
          row := Some(Some(r.h));
        }
      case EndOfData =>
        row := Some(None);
      case Failed =>
    }
  }

  /** An empty block passes the check that a row was fetched: the row that is read next is none of the cursor. */
  method RowAfterEmptyBlock(columns: seq<string>) returns (r: RowResult, faults: bool)
    ensures !faults ==> r == Unfilled
  {
    var s := new Statement(columns, []);
    var list := s.FetchRows(1);
    r := s.FetchRow();
    faults := list == None;
  }
}

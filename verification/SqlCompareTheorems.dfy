/** What the comparison depends on, when it means equality of bags, and when it is symmetric. */
module SqlCompareTheorems {
  import opened Prelude
  import opened Sorting
  import opened Strings
  import opened SqlCompare

  // ---- The comparison reads sorted canonical rows only ----

  function CanonicalRows(rows: seq<Row>): seq<Canonical> {
    Map(CanonicalRow, rows)
  }

  function CanonicalLookup(c: Canonical, key: string): Normal {
    if c == [] then NNull else if c[0].0 == key then c[0].1 else CanonicalLookup(c[1..], key)
  }

  /** The value at position j of the sorted keys; past their end, under the key "undefined". */
  function CellOf(c: Canonical, j: nat): Normal {
    if j < |c| then c[j].1 else CanonicalLookup(c, "undefined")
  }

  predicate CanonicalMatches(c: Canonical, e: Canonical) {
    forall j :: 0 <= j < |c| ==> c[j].1 == CellOf(e, j)
  }

  function CanonicalAt(rows: seq<Canonical>, i: nat): Canonical {
    if i < |rows| then rows[i] else []
  }

  predicate CanonicalRowsMatch(x: seq<Canonical>, y: seq<Canonical>) {
    forall i :: 0 <= i < |x| ==> CanonicalMatches(x[i], CanonicalAt(y, i))
  }

  lemma {:induction false} LookupMissing(row: Row, key: string)
    requires key !in Keys(row)
    ensures Lookup(row, key) == Undefined
  {
    if row != [] {
      assert Keys(row)[0] == row[0].0;
      assert forall i :: 0 <= i < |row| - 1 ==> Keys(row[1..])[i] == Keys(row)[i + 1];
      LookupMissing(row[1..], key);
    }
  }

  lemma {:induction false} LookupAt(row: Row, keys: seq<string>, key: string)
    ensures CanonicalLookup(NormalizedAt(row, keys), key) == if key in keys then Normalize(Lookup(row, key)) else NNull
  {
    hide Normalize, Lookup;
    if keys != [] {
      assert NormalizedAt(row, keys)[1..] == NormalizedAt(row, keys[1..]);
      LookupAt(row, keys[1..], key);
    }
  }

  lemma SortedKeysKeep(row: Row)
    ensures |SortedKeys(row)| == |row| && multiset(SortedKeys(row)) == multiset(Keys(row))
    ensures forall key :: key in SortedKeys(row) <==> key in Keys(row)
  {
    hide Sort;
    SortKeeps(Keys(row), STR_LEQ);
    assert forall key :: key in SortedKeys(row) <==> key in multiset(SortedKeys(row));
    assert forall key :: key in Keys(row) <==> key in multiset(Keys(row));
  }

  lemma CellIsCanonical(row: Row, j: nat)
    ensures Normalize(Lookup(row, KeyAt(SortedKeys(row), j))) == CellOf(CanonicalRow(row), j)
    ensures |CanonicalRow(row)| == |SortedKeys(row)| == |row|
  {
    hide Lookup, SortedKeys, CanonicalLookup;
    SortedKeysKeep(row);
    LookupAt(row, SortedKeys(row), "undefined");
    if "undefined" !in Keys(row) {
      LookupMissing(row, "undefined");
    }
  }

  lemma RowMatchesCanonically(cand: Row, exp: Row)
    ensures RowMatches(cand, exp) <==> CanonicalMatches(CanonicalRow(cand), CanonicalRow(exp))
  {
    hide Normalize, Lookup, SortedKeys, CanonicalRow, CellOf;
    var c, e := CanonicalRow(cand), CanonicalRow(exp);
    forall j: nat
      ensures CellMatches(cand, exp, j) <==> CellOf(c, j) == CellOf(e, j)
      ensures |c| == |SortedKeys(cand)|
    {
      CellIsCanonical(cand, j);
      CellIsCanonical(exp, j);
    }
    assert forall j :: 0 <= j < |c| ==> CellOf(c, j) == c[j].1 by { CellInRange(c); }
    if !RowMatches(cand, exp) {
      var j :| 0 <= j < |c| && !CellMatches(cand, exp, j);
      assert c[j].1 != CellOf(e, j);
    }
  }

  lemma CellInRange(c: Canonical)
    ensures forall j :: 0 <= j < |c| ==> CellOf(c, j) == c[j].1
  {
  }

  lemma EmptyCanonicalRow()
    ensures CanonicalRow([]) == []
  {
  }

  lemma RowsMatchCanonically(cand: seq<Row>, exp: seq<Row>)
    ensures RowsMatch(cand, exp) <==> CanonicalRowsMatch(CanonicalRows(cand), CanonicalRows(exp))
  {
    hide RowMatches, CanonicalMatches, CanonicalRow, Map;
    EmptyCanonicalRow();
    var x, y := CanonicalRows(cand), CanonicalRows(exp);
    forall i | 0 <= i < |cand|
      ensures RowMatches(cand[i], RowAt(exp, i)) <==> CanonicalMatches(x[i], CanonicalAt(y, i))
    {
      RowMatchesCanonically(cand[i], RowAt(exp, i));
    }
    if !RowsMatch(cand, exp) {
      var i :| 0 <= i < |cand| && !RowMatches(cand[i], RowAt(exp, i));
      assert !CanonicalMatches(x[i], CanonicalAt(y, i));
    }
  }

  function SortedCanonical(q: QueryResult, le: (Canonical, Canonical) -> bool): seq<Canonical> {
    Sort(CanonicalRows(q.rows), le)
  }

  lemma SameCanonically(cand: QueryResult, exp: QueryResult, le: (Canonical, Canonical) -> bool)
    ensures Same(cand, exp, le) <==>
            && SortedColumns(cand) == SortedColumns(exp)
            && CountOf(cand) == CountOf(exp)
            && CanonicalRowsMatch(SortedCanonical(cand, le), SortedCanonical(exp, le))
  {
    hide SortedColumns, RowsMatch, CanonicalRowsMatch, Sort, Map, CanonicalRow;
    MapSort(CanonicalRow, cand.rows, le);
    MapSort(CanonicalRow, exp.rows, le);
    RowsMatchCanonically(SortRows(cand.rows, le), SortRows(exp.rows, le));
  }

  // ---- Order of the rows ----

  /** Only the bag of canonical rows of either side matters, whatever the keys and counts. */
  lemma OnlyBagsMatter(a: QueryResult, b: QueryResult, rows: seq<Row>, le: (Canonical, Canonical) -> bool)
    requires TotalOrder(le) && multiset(CanonicalRows(rows)) == multiset(CanonicalRows(a.rows))
    ensures Same(a.(rows := rows), b, le) <==> Same(a, b, le)
    ensures Same(b, a.(rows := rows), le) <==> Same(b, a, le)
  {
    hide CanonicalRow, Map, Sort, CanonicalRowsMatch;
    var a' := a.(rows := rows);
    assert |rows| == |multiset(CanonicalRows(rows))| && |a.rows| == |multiset(CanonicalRows(a.rows))|;
    SortCanonical(CanonicalRows(rows), CanonicalRows(a.rows), le);
    SameCanonically(a', b, le);
    SameCanonically(a, b, le);
    SameCanonically(b, a', le);
    SameCanonically(b, a, le);
  }

  /** Reordering the rows of either side never changes the verdict. */
  lemma RowOrderIrrelevant(a: QueryResult, b: QueryResult, rows: seq<Row>, le: (Canonical, Canonical) -> bool)
    requires TotalOrder(le) && multiset(rows) == multiset(a.rows)
    ensures Same(a.(rows := rows), b, le) <==> Same(a, b, le)
    ensures Same(b, a.(rows := rows), le) <==> Same(b, a, le)
  {
    hide CanonicalRow, Map, Same;
    MapBag(CanonicalRow, rows, a.rows);
    OnlyBagsMatter(a, b, rows, le);
  }

  // ---- Equality of bags ----

  /** The two results hold the same columns up to case and the same normalised rows, as bags. */
  ghost predicate SameBags(cand: QueryResult, exp: QueryResult) {
    && multiset(LowerAll(cand.columns)) == multiset(LowerAll(exp.columns))
    && multiset(CanonicalRows(cand.rows)) == multiset(CanonicalRows(exp.rows))
  }

  predicate SharedKeys(keys: seq<string>, q: QueryResult) {
    forall i :: 0 <= i < |q.rows| ==> SortedKeys(q.rows[i]) == keys
  }

  predicate TrueCount(q: QueryResult) {
    CountOf(q) == |q.rows|
  }

  /** Canonical rows with one key list. */
  predicate Keyed(keys: seq<string>, c: Canonical) {
    |c| == |keys| && forall j :: 0 <= j < |c| ==> c[j].0 == keys[j]
  }

  lemma KeyedSorted(keys: seq<string>, q: QueryResult, le: (Canonical, Canonical) -> bool)
    requires SharedKeys(keys, q)
    ensures |SortedCanonical(q, le)| == |q.rows|
    ensures forall i :: 0 <= i < |q.rows| ==> Keyed(keys, SortedCanonical(q, le)[i])
  {
    hide SortedKeys, Sort, Map;
    SortKeeps(CanonicalRows(q.rows), le);
    var sorted := SortedCanonical(q, le);
    forall i | 0 <= i < |q.rows|
      ensures Keyed(keys, sorted[i])
    {
      assert sorted[i] in multiset(CanonicalRows(q.rows));
      var k :| 0 <= k < |q.rows| && CanonicalRows(q.rows)[k] == sorted[i];
      assert sorted[i] == CanonicalRow(q.rows[k]);
    }
  }

  lemma KeyedMatch(keys: seq<string>, x: seq<Canonical>, y: seq<Canonical>)
    requires |x| == |y|
    requires forall i :: 0 <= i < |x| ==> Keyed(keys, x[i]) && Keyed(keys, y[i])
    ensures CanonicalRowsMatch(x, y) <==> x == y
  {
    if CanonicalRowsMatch(x, y) {
      forall i | 0 <= i < |x|
        ensures x[i] == y[i]
      {
        assert CanonicalMatches(x[i], CanonicalAt(y, i));
        assert forall j :: 0 <= j < |x[i]| ==> x[i][j] == y[i][j];
      }
    }
  }

  lemma ColumnsIff(cand: QueryResult, exp: QueryResult)
    ensures SortedColumns(cand) == SortedColumns(exp)
            <==> multiset(LowerAll(cand.columns)) == multiset(LowerAll(exp.columns))
  {
    hide Sort, LowerAll;
    StrLeqIsTotalOrder();
    SortCanonical(LowerAll(cand.columns), LowerAll(exp.columns), STR_LEQ);
  }

  /** With one key list throughout, and equally many rows or true counts, the comparison is equality of bags. */
  lemma SameIff(keys: seq<string>, cand: QueryResult, exp: QueryResult, le: (Canonical, Canonical) -> bool)
    requires TotalOrder(le) && SharedKeys(keys, cand) && SharedKeys(keys, exp)
    requires |cand.rows| == |exp.rows| || (TrueCount(cand) && TrueCount(exp))
    ensures Same(cand, exp, le) <==> CountOf(cand) == CountOf(exp) && SameBags(cand, exp)
  {
    hide SharedKeys, Sort, SortedColumns, LowerAll, CanonicalRowsMatch, Map, CanonicalRow, Keyed;
    ColumnsIff(cand, exp);
    SameCanonically(cand, exp, le);
    KeyedSorted(keys, cand, le);
    KeyedSorted(keys, exp, le);
    SortCanonical(CanonicalRows(cand.rows), CanonicalRows(exp.rows), le);
    if |cand.rows| == |exp.rows| {
      KeyedMatch(keys, SortedCanonical(cand, le), SortedCanonical(exp, le));
    } else {
      assert |multiset(CanonicalRows(cand.rows))| == |CanonicalRows(cand.rows)|;
      assert |multiset(CanonicalRows(exp.rows))| == |CanonicalRows(exp.rows)|;
    }
  }

  lemma MatchesItself(c: Canonical)
    ensures CanonicalMatches(c, c)
  {
  }

  /** Equal bags always pass, whatever the keys. */
  lemma EqualBagsPass(cand: QueryResult, exp: QueryResult, le: (Canonical, Canonical) -> bool)
    requires TotalOrder(le) && CountOf(cand) == CountOf(exp) && SameBags(cand, exp)
    ensures Same(cand, exp, le)
  {
    hide Sort, SortedColumns, LowerAll, Map, CanonicalRow, CanonicalMatches;
    ColumnsIff(cand, exp);
    SameCanonically(cand, exp, le);
    SortCanonical(CanonicalRows(cand.rows), CanonicalRows(exp.rows), le);
    forall c: Canonical ensures CanonicalMatches(c, c) {
      MatchesItself(c);
    }
  }

  // ---- Symmetry ----

  /** Every row has w properties and the declared count is the true one. */
  predicate HasWidth(w: nat, q: QueryResult) {
    TrueCount(q) && forall i :: 0 <= i < |q.rows| ==> |q.rows[i]| == w
  }

  function Cells(c: Canonical): (r: seq<Normal>)
    ensures |r| == |c|
    ensures forall j :: 0 <= j < |c| ==> r[j] == c[j].1
  {
    seq(|c|, j requires 0 <= j < |c| => c[j].1)
  }

  /** The values of the sorted rows, without their keys. */
  function Grid(q: QueryResult, le: (Canonical, Canonical) -> bool): seq<seq<Normal>> {
    Map(Cells, SortedCanonical(q, le))
  }

  lemma SortedWidth(w: nat, q: QueryResult, le: (Canonical, Canonical) -> bool)
    requires HasWidth(w, q)
    ensures |SortedCanonical(q, le)| == |q.rows|
    ensures forall i :: 0 <= i < |q.rows| ==> |SortedCanonical(q, le)[i]| == w
  {
    hide Sort, Map, CanonicalRow;
    SortKeeps(CanonicalRows(q.rows), le);
    var sorted := SortedCanonical(q, le);
    forall i | 0 <= i < |q.rows|
      ensures |sorted[i]| == w
    {
      assert sorted[i] in multiset(CanonicalRows(q.rows));
      var k :| 0 <= k < |q.rows| && CanonicalRows(q.rows)[k] == sorted[i];
      CellIsCanonical(q.rows[k], 0);
    }
  }

  lemma CellsMatch(c: Canonical, e: Canonical)
    requires |c| == |e|
    ensures CanonicalMatches(c, e) <==> Cells(c) == Cells(e)
  {
    if CanonicalMatches(c, e) {
      assert forall j :: 0 <= j < |c| ==> Cells(c)[j] == Cells(e)[j];
    } else {
      var j :| 0 <= j < |c| && c[j].1 != CellOf(e, j);
      assert Cells(c)[j] != Cells(e)[j];
    }
  }

  lemma GridsMatch(w: nat, x: seq<Canonical>, y: seq<Canonical>)
    requires |x| == |y| && forall i :: 0 <= i < |x| ==> |x[i]| == |y[i]| == w
    ensures CanonicalRowsMatch(x, y) <==> Map(Cells, x) == Map(Cells, y)
  {
    hide Map, Cells, CanonicalMatches;
    forall i | 0 <= i < |x|
      ensures CanonicalMatches(x[i], CanonicalAt(y, i)) <==> Map(Cells, x)[i] == Map(Cells, y)[i]
    {
      CellsMatch(x[i], y[i]);
    }
    if !CanonicalRowsMatch(x, y) {
      var i :| 0 <= i < |x| && !CanonicalMatches(x[i], CanonicalAt(y, i));
      assert Map(Cells, x)[i] != Map(Cells, y)[i];
    }
  }

  /** Results of one width are the same exactly when their columns and their grids of values are. */
  lemma SameIffGrids(w: nat, a: QueryResult, b: QueryResult, le: (Canonical, Canonical) -> bool)
    requires HasWidth(w, a) && HasWidth(w, b)
    ensures Same(a, b, le) <==> SortedColumns(a) == SortedColumns(b) && Grid(a, le) == Grid(b, le)
  {
    hide Sort, SortedColumns, CanonicalRowsMatch, Map, CanonicalRow, SortedCanonical, Cells;
    SameCanonically(a, b, le);
    SortedWidth(w, a, le);
    SortedWidth(w, b, le);
    assert |Grid(a, le)| == |a.rows| && |Grid(b, le)| == |b.rows|;
    if |a.rows| == |b.rows| {
      GridsMatch(w, SortedCanonical(a, le), SortedCanonical(b, le));
    }
  }

  /** Every result is the same as itself. */
  lemma SameIsReflexive(a: QueryResult, le: (Canonical, Canonical) -> bool)
    ensures Same(a, a, le)
  {
    hide Sort, SortedColumns, Map, CanonicalRow;
    SameCanonically(a, a, le);
    assert forall c: Canonical :: CanonicalMatches(c, c);
  }

  /** On results of one width with true counts the comparison is an equivalence, with no key in common. */
  lemma SameIsEquivalence(w: nat, a: QueryResult, b: QueryResult, c: QueryResult, le: (Canonical, Canonical) -> bool)
    requires HasWidth(w, a) && HasWidth(w, b) && HasWidth(w, c)
    ensures Same(a, a, le)
    ensures Same(a, b, le) <==> Same(b, a, le)
    ensures Same(a, b, le) && Same(b, c, le) ==> Same(a, c, le)
  {
    hide Same, HasWidth, Grid, SortedColumns;
    SameIffGrids(w, a, a, le);
    SameIffGrids(w, a, b, le);
    SameIffGrids(w, b, a, le);
    SameIffGrids(w, b, c, le);
    SameIffGrids(w, a, c, le);
  }

  /** The shape of what the driver returns: row objects have the distinct column names as keys. */
  ghost predicate FromDriver(q: QueryResult) {
    && TrueCount(q)
    && forall i :: 0 <= i < |q.rows| ==>
         && (forall k :: k in q.columns <==> k in Keys(q.rows[i]))
         && (forall k, l :: 0 <= k < l < |q.rows[i]| ==> q.rows[i][k].0 != q.rows[i][l].0)
  }

  /** n letters a, the one at position i in upper case. */
  function Spelling(n: nat, i: nat): (r: string)
    ensures |r| == n && forall k :: 0 <= k < n ==> r[k] == if k == i then 'A' else 'a'
  {
    seq(n, (k: nat) => if k == i then 'A' else 'a')
  }

  lemma SpellingsAlike(n: nat, i: nat, j: nat)
    ensures ToLower(Spelling(n, i)) == ToLower(Spelling(n, j))
  {
    hide ToLower, Spelling;
    forall k | 0 <= k < n
      ensures ToLower(Spelling(n, i))[k] == ToLower(Spelling(n, j))[k]
    {
      LowerAt(Spelling(n, i), k);
      LowerAt(Spelling(n, j), k);
    }
  }

  lemma SpellingsDiffer(n: nat, i: nat, j: nat)
    requires i < n && j < n && i != j
    ensures Spelling(n, i) != Spelling(n, j)
  {
    assert Spelling(n, i)[i] != Spelling(n, j)[i];
  }

  /** n columns with m different spellings, and a row of m zeros. */
  function Zeros(n: nat, m: nat): (r: Row)
    ensures |r| == m && forall i :: 0 <= i < m ==> r[i] == (Spelling(n, i), Num(0.0))
  {
    seq(m, (i: nat) => (Spelling(n, i), Num(0.0)))
  }

  function Columns(n: nat, m: nat): (r: seq<string>)
    ensures |r| == n && forall i :: 0 <= i < n ==> r[i] == Spelling(n, if i < m then i else 0)
  {
    seq(n, (i: nat) => Spelling(n, if i < m then i else 0))
  }

  function ZeroResult(n: nat, m: nat): QueryResult {
    QueryResult(Columns(n, m), [Zeros(n, m)], Some(1))
  }

  lemma {:induction false} LookupZero(row: Row, key: string)
    requires forall i :: 0 <= i < |row| ==> row[i].1 == Num(0.0)
    requires key in Keys(row)
    ensures Lookup(row, key) == Num(0.0)
  {
    var i :| 0 <= i < |row| && Keys(row)[i] == key;
    if row[0].0 != key {
      assert Keys(row[1..])[i - 1] == key;
      LookupZero(row[1..], key);
    }
  }

  lemma ZeroCells(n: nat, m: nat, j: nat)
    requires n > 0
    ensures CellOf(CanonicalRow(Zeros(n, m)), j) == if j < m then NNum(0.0) else NNull
  {
    hide Zeros, Spelling, Lookup, CanonicalRow, CellOf, SortedKeys;
    var row := Zeros(n, m);
    CellIsCanonical(row, j);
    SortedKeysKeep(row);
    if j < m {
      assert SortedKeys(row)[j] in Keys(row);
      LookupZero(row, SortedKeys(row)[j]);
    } else {
      forall i | 0 <= i < m ensures Keys(row)[i] != "undefined" {
        assert Spelling(n, i)[0] in {'a', 'A'};
      }
      LookupMissing(row, "undefined");
    }
  }

  lemma ZeroResultIsDriven(n: nat, m: nat)
    requires 0 < m <= n
    ensures FromDriver(ZeroResult(n, m))
  {
    hide Spelling, Columns, Zeros;
    var row, columns := Zeros(n, m), Columns(n, m);
    forall k, l | 0 <= k < l < m
      ensures row[k].0 != row[l].0
    {
      SpellingsDiffer(n, k, l);
    }
    forall k
      ensures k in columns <==> k in Keys(row)
    {
      if k in columns {
        var i :| 0 <= i < n && columns[i] == k;
        assert Keys(row)[if i < m then i else 0] == k;
      }
      if k in Keys(row) {
        var i :| 0 <= i < m && Keys(row)[i] == k;
        assert columns[i] == k;
      }
    }
  }

  lemma ZeroColumnsAlike(n: nat, m: nat)
    ensures SortedColumns(ZeroResult(n, m)) == SortedColumns(ZeroResult(n, n))
  {
    hide Spelling, Sort, ToLower;
    var a, b := LowerAll(Columns(n, m)), LowerAll(Columns(n, n));
    forall i | 0 <= i < n
      ensures a[i] == b[i]
    {
      SpellingsAlike(n, if i < m then i else 0, i);
    }
    assert a == b;
  }

  /** A narrower candidate can pass against a wider result that it does not pass as the expected side. */
  lemma NarrowerIsAsymmetric(m: nat, n: nat, le: (Canonical, Canonical) -> bool)
    requires m < n
    ensures HasWidth(m, ZeroResult(n, m)) && HasWidth(n, ZeroResult(n, n))
    ensures Same(ZeroResult(n, m), ZeroResult(n, n), le) && !Same(ZeroResult(n, n), ZeroResult(n, m), le)
    ensures m > 0 ==> FromDriver(ZeroResult(n, m)) && FromDriver(ZeroResult(n, n))
  {
    hide Spelling, Columns, Zeros, CanonicalRow, SortedColumns, CellOf, Sort, FromDriver;
    var a, b := ZeroResult(n, m), ZeroResult(n, n);
    if m > 0 {
      ZeroResultIsDriven(n, m);
      ZeroResultIsDriven(n, n);
    }
    ZeroColumnsAlike(n, m);
    SameCanonically(a, b, le);
    SameCanonically(b, a, le);
    var x, y := CanonicalRow(Zeros(n, m)), CanonicalRow(Zeros(n, n));
    OneRow(a, Zeros(n, m), le);
    OneRow(b, Zeros(n, n), le);
    CellIsCanonical(Zeros(n, m), 0);
    CellIsCanonical(Zeros(n, n), 0);
    forall j: nat
      ensures CellOf(x, j) == (if j < m then NNum(0.0) else NNull) && CellOf(y, j) == if j < n then NNum(0.0) else NNull
    {
      ZeroCells(n, m, j);
      ZeroCells(n, n, j);
    }
    CellInRange(x);
    CellInRange(y);
    assert CanonicalMatches(x, y);
    assert y[m].1 != CellOf(x, m);
    assert !CanonicalMatches(y, CanonicalAt([x], 0));
  }

  lemma OneRow(q: QueryResult, row: Row, le: (Canonical, Canonical) -> bool)
    requires q.rows == [row]
    ensures SortedCanonical(q, le) == [CanonicalRow(row)]
  {
    hide CanonicalRow, Sort;
    assert CanonicalRows([row]) == [CanonicalRow(row)];
    SortSingle(CanonicalRow(row), le);
  }

  ghost predicate SymmetricAt(a: QueryResult, b: QueryResult, le: (Canonical, Canonical) -> bool) {
    Same(a, b, le) <==> Same(b, a, le)
  }

  /** With true counts, two widths compare symmetrically exactly when they are one width. */
  lemma SymmetricIffEqualWidths(m: nat, n: nat, le: (Canonical, Canonical) -> bool)
    ensures (forall a, b :: HasWidth(m, a) && HasWidth(n, b) ==> SymmetricAt(a, b, le)) <==> m == n
  {
    hide HasWidth, Same;
    if m == n {
      forall a, b | HasWidth(m, a) && HasWidth(n, b)
        ensures SymmetricAt(a, b, le)
      {
        SameIsEquivalence(m, a, b, a, le);
      }
    } else if m < n {
      NarrowerIsAsymmetric(m, n, le);
      assert !SymmetricAt(ZeroResult(n, m), ZeroResult(n, n), le);
    } else {
      NarrowerIsAsymmetric(n, m, le);
      assert !SymmetricAt(ZeroResult(m, m), ZeroResult(m, n), le);
    }
  }

  ghost function Names(q: QueryResult): set<string> {
    set c | c in q.columns
  }

  lemma {:induction false} DistinctCount(s: seq<string>)
    requires forall k, l :: 0 <= k < l < |s| ==> s[k] != s[l]
    ensures |set c | c in s| == |s|
  {
    if s != [] {
      var t, x := s[..|s| - 1], s[|s| - 1];
      DistinctCount(t);
      assert s == t + [x];
      assert (set c | c in s) == (set c | c in t) + {x};
    }
  }

  lemma DriverWidth(q: QueryResult)
    requires FromDriver(q)
    ensures HasWidth(|Names(q)|, q)
  {
    forall i | 0 <= i < |q.rows|
      ensures |q.rows[i]| == |Names(q)|
    {
      DistinctCount(Keys(q.rows[i]));
      assert Names(q) == set c | c in Keys(q.rows[i]);
    }
  }

  /** Driver results with equally many distinct column names compare the same either way round. */
  lemma DriverResultsAreSymmetric(a: QueryResult, b: QueryResult, le: (Canonical, Canonical) -> bool)
    requires FromDriver(a) && FromDriver(b) && |Names(a)| == |Names(b)|
    ensures SymmetricAt(a, b, le)
  {
    hide FromDriver, HasWidth, Same, Names;
    DriverWidth(a);
    DriverWidth(b);
    SameIsEquivalence(|Names(a)|, a, b, a, le);
  }

  const REPEATED_COLUMN: QueryResult := QueryResult(["a", "a"], [[("a", Num(2.0))]], Some(1))
  const TWO_SPELLINGS: QueryResult := QueryResult(["a", "A"], [[("a", Num(3.0)), ("A", Num(2.0))]], Some(1))

  /** Two results the driver can return: a repeated column name passes against two spellings, not the reverse. */
  lemma AsymmetricWithoutSharedKeys(le: (Canonical, Canonical) -> bool)
    ensures FromDriver(REPEATED_COLUMN) && FromDriver(TWO_SPELLINGS)
    ensures Same(REPEATED_COLUMN, TWO_SPELLINGS, le) && !Same(TWO_SPELLINGS, REPEATED_COLUMN, le)
  {
    hide Sort;
    var one, two := REPEATED_COLUMN.rows[0], TWO_SPELLINGS.rows[0];
    assert Keys(one) == ["a"] && Keys(two) == ["a", "A"];
    SortSingle("a", STR_LEQ);
    SortPair();
    SortSingle(one, By(CanonicalRow, le));
    SortSingle(two, By(CanonicalRow, le));
    assert LowerAll(["a", "a"]) == LowerAll(["a", "A"]) by {
      assert ToLower("a") == ToLower("A") == "a";
    }
    assert !CellMatches(two, one, 1);
  }

  lemma SortPair()
    ensures Sort(["a", "A"], STR_LEQ) == ["A", "a"]
  {
    var two := ["a", "A"];
    assert two[1..] == ["A"];
    SortSingle("A", STR_LEQ);
    assert !StrLe("a", "A");
    SortSingle("a", STR_LEQ);
    assert ["A"][1..] == [];
  }

  // ---- Respelling columns ----

  ghost predicate DistinctKeys(row: Row) {
    forall i, j :: 0 <= i < j < |row| ==> row[i].0 != row[j].0
  }

  function KeyOf(cell: (string, Value)): string {
    cell.0
  }

  function NormalOf(cell: (string, Value)): Normal {
    Normalize(cell.1)
  }

  const BY_KEY: ((string, Value), (string, Value)) -> bool := (x, y) => StrLe(KeyOf(x), KeyOf(y))

  lemma {:induction false} LookupPresent(row: Row, i: nat)
    requires DistinctKeys(row) && i < |row|
    ensures Lookup(row, row[i].0) == row[i].1
  {
    if i > 0 {
      LookupPresent(row[1..], i - 1);
    }
  }

  /** The cells of a row in the order the comparison takes them: its values, sorted by key. */
  lemma CellsBySortedKey(row: Row)
    requires DistinctKeys(row)
    ensures Cells(CanonicalRow(row)) == Map(NormalOf, Sort(row, BY_KEY))
  {
    hide Normalize, Lookup, Sort, DistinctKeys;
    var sorted := Sort(row, BY_KEY);
    SortKeeps(row, BY_KEY);
    assert Agree(row, BY_KEY, By(KeyOf, STR_LEQ));
    SortAgrees(row, BY_KEY, By(KeyOf, STR_LEQ));
    MapSort(KeyOf, row, STR_LEQ);
    assert Map(KeyOf, row) == Keys(row);
    forall j | 0 <= j < |row|
      ensures Cells(CanonicalRow(row))[j] == NormalOf(sorted[j])
    {
      assert sorted[j] in multiset(row);
      var i :| 0 <= i < |row| && row[i] == sorted[j];
      LookupPresent(row, i);
      assert SortedKeys(row)[j] == sorted[j].0;
    }
  }

  function RowOf(keys: seq<string>, values: seq<Value>): (r: Row)
    requires |keys| == |values|
    ensures |r| == |keys| && forall i :: 0 <= i < |keys| ==> r[i] == (keys[i], values[i])
  {
    seq(|keys|, i requires 0 <= i < |keys| => (keys[i], values[i]))
  }

  function OneRowResult(keys: seq<string>, values: seq<Value>): QueryResult
    requires |keys| == |values|
  {
    QueryResult(keys, [RowOf(keys, values)], Some(1))
  }

  /** Two spellings of the same columns, up to case, without repetitions. */
  ghost predicate Respelled(keys: seq<string>, others: seq<string>) {
    && |keys| == |others| && LowerAll(keys) == LowerAll(others)
    && (forall i, j :: 0 <= i < j < |keys| ==> keys[i] != keys[j] && others[i] != others[j])
  }

  lemma OneRowSame(keys: seq<string>, others: seq<string>, values: seq<Value>, le: (Canonical, Canonical) -> bool)
    requires Respelled(keys, others) && |values| == |keys|
    ensures Same(OneRowResult(keys, values), OneRowResult(others, values), le)
            <==> Map(NormalOf, Sort(RowOf(keys, values), BY_KEY)) == Map(NormalOf, Sort(RowOf(others, values), BY_KEY))
  {
    hide Sort, Map, CanonicalRow, Cells, RowOf, LowerAll, Same, NormalOf;
    var a, b := OneRowResult(keys, values), OneRowResult(others, values);
    SameIffGrids(|keys|, a, b, le);
    CellsBySortedKey(RowOf(keys, values));
    CellsBySortedKey(RowOf(others, values));
    OneRowGrid(a, RowOf(keys, values), le);
    OneRowGrid(b, RowOf(others, values), le);
    assert SortedColumns(a) == SortedColumns(b);
  }

  lemma OneRowGrid(q: QueryResult, row: Row, le: (Canonical, Canonical) -> bool)
    requires q.rows == [row]
    ensures Grid(q, le) == [Cells(CanonicalRow(row))]
  {
    hide CanonicalRow, Cells, SortedCanonical;
    OneRow(q, row, le);
  }

  /** The two spellings sort their columns in the same order. */
  predicate SameOrder(keys: seq<string>, others: seq<string>)
    requires |keys| == |others|
  {
    forall i, j :: 0 <= i < |keys| && 0 <= j < |keys| ==> (StrLe(keys[i], keys[j]) <==> StrLe(others[i], others[j]))
  }

  type Spelt = ((string, Value), (string, Value))

  function Left(x: Spelt): (string, Value) {
    x.0
  }

  function Right(x: Spelt): (string, Value) {
    x.1
  }

  /** The two rows side by side. */
  function Paired(keys: seq<string>, others: seq<string>, values: seq<Value>): (r: seq<Spelt>)
    requires |keys| == |others| == |values|
    ensures |r| == |keys|
    ensures forall i :: 0 <= i < |keys| ==> r[i] == ((keys[i], values[i]), (others[i], values[i]))
  {
    seq(|keys|, i requires 0 <= i < |keys| => ((keys[i], values[i]), (others[i], values[i])))
  }

  lemma SameOrderSame(keys: seq<string>, others: seq<string>, values: seq<Value>, le: (Canonical, Canonical) -> bool)
    requires Respelled(keys, others) && |values| == |keys| && SameOrder(keys, others)
    ensures Same(OneRowResult(keys, values), OneRowResult(others, values), le)
  {
    hide Same, Sort, Paired, RowOf, NormalOf, Map, StrLe;
    OneRowSame(keys, others, values, le);
    var pairs := Paired(keys, others, values);
    assert Map(Left, pairs) == RowOf(keys, values) && Map(Right, pairs) == RowOf(others, values);
    MapSort(Left, pairs, BY_KEY);
    MapSort(Right, pairs, BY_KEY);
    PairsAgree(keys, others, values);
    SortAgrees(pairs, By(Left, BY_KEY), By(Right, BY_KEY));
    var sorted := Sort(pairs, By(Left, BY_KEY));
    SortKeeps(pairs, By(Left, BY_KEY));
    forall j | 0 <= j < |sorted|
      ensures NormalOf(Left(sorted[j])) == NormalOf(Right(sorted[j]))
    {
      assert sorted[j] in multiset(pairs);
      var i :| 0 <= i < |pairs| && pairs[i] == sorted[j];
      SameValue(Left(sorted[j]), Right(sorted[j]));
    }
    assert Map(NormalOf, Map(Left, sorted)) == Map(NormalOf, Map(Right, sorted));
  }

  lemma SameValue(x: (string, Value), y: (string, Value))
    requires x.1 == y.1
    ensures NormalOf(x) == NormalOf(y)
  {
  }

  lemma PairsAgree(keys: seq<string>, others: seq<string>, values: seq<Value>)
    requires |keys| == |others| == |values| && SameOrder(keys, others)
    ensures Agree(Paired(keys, others, values), By(Left, BY_KEY), By(Right, BY_KEY))
  {
    hide Paired, StrLe;
    var pairs := Paired(keys, others, values);
    forall x, y | x in pairs && y in pairs
      ensures By(Left, BY_KEY)(x, y) == By(Right, BY_KEY)(x, y)
    {
      var i :| 0 <= i < |pairs| && pairs[i] == x;
      var j :| 0 <= j < |pairs| && pairs[j] == y;
      assert StrLe(keys[i], keys[j]) <==> StrLe(others[i], others[j]);
      assert By(Left, BY_KEY)(x, y) == BY_KEY(Left(x), Left(y)) == StrLe(keys[i], keys[j]);
      assert By(Right, BY_KEY)(x, y) == BY_KEY(Right(x), Right(y)) == StrLe(others[i], others[j]);
    }
  }

  /** Each column holds its own position. */
  function Positions(n: nat): (r: seq<Value>)
    ensures |r| == n && forall i :: 0 <= i < n ==> r[i] == Num(i as real)
  {
    seq(n, (i: nat) => Num(i as real))
  }

  /** Where column i ends up when the row is sorted by key. */
  lemma FindSorted(keys: seq<string>, i: nat) returns (p: nat)
    requires i < |keys|
    ensures var sorted := Sort(RowOf(keys, Positions(|keys|)), BY_KEY);
            |sorted| == |keys| && p < |keys| && sorted[p] == (keys[i], Num(i as real))
  {
    hide Sort;
    var row := RowOf(keys, Positions(|keys|));
    SortKeeps(row, BY_KEY);
    assert row[i] in multiset(Sort(row, BY_KEY));
    p :| 0 <= p < |keys| && Sort(row, BY_KEY)[p] == row[i];
  }

  lemma ByKeyIsOrder()
    ensures TotalPreorder(BY_KEY)
  {
    hide StrLe;
    StrLeqIsTotalOrder();
    assert forall x, y :: BY_KEY(x, y) == STR_LEQ(KeyOf(x), KeyOf(y));
  }

  /** Columns sorted earlier under one spelling are sorted earlier under the other when the verdicts agree. */
  lemma SameKeepsOrder(keys: seq<string>, others: seq<string>, i: nat, j: nat, le: (Canonical, Canonical) -> bool)
    requires Respelled(keys, others) && i < |keys| && j < |keys| && i != j
    requires Same(OneRowResult(keys, Positions(|keys|)), OneRowResult(others, Positions(|keys|)), le)
    requires StrLe(keys[i], keys[j])
    ensures StrLe(others[i], others[j])
  {
    hide Same, Sort, RowOf, Map, StrLe, Positions;
    var values := Positions(|keys|);
    OneRowSame(keys, others, values, le);
    var s, t := Sort(RowOf(keys, values), BY_KEY), Sort(RowOf(others, values), BY_KEY);
    var p := FindSorted(keys, i);
    var q := FindSorted(keys, j);
    SortKeeps(RowOf(others, values), BY_KEY);
    SameItem(others, s, t, p, i);
    SameItem(others, s, t, q, j);
    ByKeyIsOrder();
    SortSorts(RowOf(keys, values), BY_KEY);
    SortSorts(RowOf(others, values), BY_KEY);
    if p < q {
      assert BY_KEY(t[p], t[q]);
    } else {
      assert p != q && BY_KEY(s[q], s[p]);
      StrLeAntisymmetric(keys[i], keys[j]);
      assert false;
    }
  }

  /** A sorted cell that normalises to position i is column i's. */
  lemma {:induction false} SameItem(keys: seq<string>, s: Row, t: Row, p: nat, i: nat)
    requires t == Sort(RowOf(keys, Positions(|keys|)), BY_KEY) && |s| == |t| && p < |t| && i < |keys|
    requires Map(NormalOf, s) == Map(NormalOf, t) && s[p].1 == Num(i as real)
    ensures t[p] == (keys[i], Num(i as real))
  {
    hide Sort, Map;
    var row := RowOf(keys, Positions(|keys|));
    SortKeeps(row, BY_KEY);
    assert t[p] in multiset(row);
    var k :| 0 <= k < |row| && row[k] == t[p];
    assert Map(NormalOf, s)[p] == Map(NormalOf, t)[p];
    assert NNum(k as real) == NNum(i as real);
  }

  /** A row and its respelling compare the same, whatever its values, exactly when both spellings sort alike. */
  lemma RespellingIff(keys: seq<string>, others: seq<string>, le: (Canonical, Canonical) -> bool)
    requires Respelled(keys, others)
    ensures (forall values: seq<Value> | |values| == |keys| ::
               Same(OneRowResult(keys, values), OneRowResult(others, values), le))
            <==> SameOrder(keys, others)
  {
    hide Same, StrLe, RowOf, Positions;
    if SameOrder(keys, others) {
      forall values: seq<Value> | |values| == |keys|
        ensures Same(OneRowResult(keys, values), OneRowResult(others, values), le)
      {
        SameOrderSame(keys, others, values, le);
      }
    } else {
      var values := Positions(|keys|);
      if Same(OneRowResult(keys, values), OneRowResult(others, values), le) {
        SameIsEquivalent(keys, others, values, le);
        forall i, j | 0 <= i < |keys| && 0 <= j < |keys|
          ensures StrLe(keys[i], keys[j]) <==> StrLe(others[i], others[j])
        {
          if i == j {
            StrLeTotal(keys[i], keys[i]);
            StrLeTotal(others[i], others[i]);
          } else {
            if StrLe(keys[i], keys[j]) {
              SameKeepsOrder(keys, others, i, j, le);
            }
            if StrLe(others[i], others[j]) {
              SameKeepsOrder(others, keys, i, j, le);
            }
          }
        }
      }
    }
  }

  lemma SameIsEquivalent(keys: seq<string>, others: seq<string>, values: seq<Value>, le: (Canonical, Canonical) -> bool)
    requires Respelled(keys, others) && |values| == |keys|
    requires Same(OneRowResult(keys, values), OneRowResult(others, values), le)
    ensures Respelled(others, keys) && Same(OneRowResult(others, values), OneRowResult(keys, values), le)
  {
    hide Same, LowerAll, RowOf;
    SameIsEquivalence(|keys|, OneRowResult(keys, values), OneRowResult(others, values), OneRowResult(keys, values), le);
  }

  /** Columns a, b and a, B: the second spelling sorts the other way round. */
  lemma RespellingExample()
    ensures Respelled(["a", "b"], ["a", "B"]) && !SameOrder(["a", "b"], ["a", "B"])
  {
    assert ToLower("a") == "a" && ToLower("b") == "b" && ToLower("B") == "b";
    assert LowerAll(["a", "b"]) == LowerAll(["a", "B"]);
    var keys, others := ["a", "b"], ["a", "B"];
    assert StrLe(keys[0], keys[1]) && !StrLe(others[0], others[1]);
  }

  // ---- Normalisation ----

  function AsValue(n: Normal): Value {
    match n
    case NNull => Null
    case NNum(x) => Num(x)
    case NText(s) => Text(s)
    case NBool(b) => Bool(b)
  }

  lemma UnsignedEndsInDigit(s: string)
    requires IsUnsigned(s)
    ensures s != "" && '0' <= s[|s| - 1] <= '9'
  {
    hide DigitRun;
    var k := DigitRun(s);
    if k < |s| {
      var frac := s[k + 1..];
      assert DigitRun(frac) == |frac| > 0 && frac[|frac| - 1] == s[|s| - 1];
    }
  }

  lemma NumericEndsInDigit(s: string)
    requires IsNumeric(s)
    ensures s != "" && '0' <= s[|s| - 1] <= '9'
  {
    hide IsUnsigned;
    UnsignedEndsInDigit(if s != "" && s[0] == '-' then s[1..] else s);
  }

  /** Normalising a stored value again changes nothing. */
  lemma NormalizeIdempotent(v: Value)
    ensures Normalize(AsValue(Normalize(v))) == Normalize(v)
  {
    hide IsNumeric, NumericValue, Trim;
    if v.Text? {
      TrimTrims(v.s);
      TrimmedIsFixed(Trim(v.s));
    } else if v.Date? {
      TrimmedIsFixed(v.iso);
      assert !IsNumeric(v.iso) by {
        if IsNumeric(v.iso) {
          NumericEndsInDigit(v.iso);
        }
      }
    }
  }

  lemma {:induction false} DigitRunSnoc(s: string)
    requires DigitRun(s) == |s|
    ensures DigitRun(s + "0") == |s| + 1
  {
    assert s == "" || '0' <= s[0] <= '9';
    if s == "" {
      assert ("" + "0")[1..] == "";
    } else {
      assert (s + "0")[1..] == s[1..] + "0";
      DigitRunSnoc(s[1..]);
    }
  }

  lemma {:induction false} DigitRunStops(s: string, k: nat, t: string)
    requires DigitRun(s) == k < |s|
    ensures DigitRun(s + t) == k
  {
    if k > 0 {
      assert (s + t)[1..] == s[1..] + t;
      DigitRunStops(s[1..], k - 1, t);
    }
  }

  lemma ScaledFraction(d: real, p: real)
    requires p > 0.0
    ensures (10.0 * d) / (10.0 * p) == d / p
  {
  }

  lemma TrailingZeroShape(s: string)
    requires IsUnsigned(s) && DigitRun(s) < |s|
    ensures IsUnsigned(s + "0") && DigitRun(s + "0") == DigitRun(s)
    ensures (s + "0")[DigitRun(s) + 1..] == s[DigitRun(s) + 1..] + "0"
  {
    hide DigitRun;
    var k := DigitRun(s);
    DigitRunStops(s, k, "0");
    DigitRunSnoc(s[k + 1..]);
    assert (s + "0")[k + 1..] == s[k + 1..] + "0";
  }

  lemma DigitsValueZero(s: string)
    requires DigitRun(s) == |s|
    ensures DigitRun(s + "0") == |s| + 1
    ensures DigitsValue(s + "0") == 10 * DigitsValue(s)
  {
    hide DigitRun;
    DigitRunSnoc(s);
    assert (s + "0")[..|s|] == s;
  }

  lemma UnsignedZero(s: string)
    requires IsUnsigned(s) && DigitRun(s) < |s|
    ensures IsUnsigned(s + "0") && UnsignedValue(s + "0") == UnsignedValue(s)
  {
    hide DigitRun, DigitsValue;
    var k := DigitRun(s);
    var frac := s[k + 1..];
    TrailingZeroShape(s);
    DigitsValueZero(frac);
    assert (s + "0")[..k] == s[..k];
    assert TenTo(|frac| + 1) == 10.0 * TenTo(|frac|);
    ScaledFraction(DigitsValue(frac) as real, TenTo(|frac|));
  }

  /** One more zero after the decimal point does not change the value read, with or without a sign. */
  lemma NumericZero(s: string)
    requires IsNumeric(s) && '.' in s
    ensures IsNumeric(s + "0") && NumericValue(s + "0") == NumericValue(s)
  {
    hide IsUnsigned, UnsignedValue;
    if s[0] == '-' {
      assert (s + "0")[1..] == s[1..] + "0";
      PointEndsDigits(s[1..]);
      UnsignedZero(s[1..]);
    } else {
      PointEndsDigits(s);
      UnsignedZero(s);
    }
  }

  lemma PointEndsDigits(s: string)
    requires '.' in s
    ensures DigitRun(s) < |s|
  {
    hide DigitRun;
  }

  function ZeroText(k: nat): string {
    if k == 0 then "" else ZeroText(k - 1) + "0"
  }

  lemma {:induction false} NumericZeros(s: string, k: nat)
    requires IsNumeric(s) && '.' in s
    ensures IsNumeric(s + ZeroText(k)) && NumericValue(s + ZeroText(k)) == NumericValue(s)
  {
    hide IsNumeric, NumericValue;
    if k == 0 {
      assert s + "" == s;
    } else {
      NumericZeros(s, k - 1);
      assert s + ZeroText(k) == s + ZeroText(k - 1) + "0";
      NumericZero(s + ZeroText(k - 1));
    }
  }

  /** Texts that differ in outer white space and trailing decimal zeros are the same cell value. */
  lemma TrailingZero(a: string, b: string, k: nat)
    requires IsNumeric(Trim(a)) && '.' in Trim(a) && Trim(b) == Trim(a) + ZeroText(k)
    ensures Normalize(Text(a)) == Normalize(Text(b))
  {
    hide IsNumeric, NumericValue, Trim;
    NumericZeros(Trim(a), k);
  }
}

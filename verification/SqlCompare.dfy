/** The order-insensitive comparison of two query results. */
module SqlCompare {
  import opened Prelude
  import opened Sorting
  import opened Strings

  /** What toISOString answers, as far as a comparison can tell: no leading space, and a final Z. */
  type IsoText = s: string | s != "" && !IsSpace(s[0]) && s[|s| - 1] == 'Z' witness "Z"

  datatype Value =
    | Null
    | Undefined
    | Num(n: real)
    | Text(s: string)
    | Date(iso: IsoText)
    | Bool(b: bool)

  datatype Normal = NNull | NNum(n: real) | NText(s: string) | NBool(b: bool)

  // ---- Normalising one value ----

  /** The number of leading decimal digits. */
  function DigitRun(s: string): (n: nat)
    ensures n <= |s|
    ensures forall i :: 0 <= i < n ==> '0' <= s[i] <= '9'
  {
    if s == "" || !('0' <= s[0] <= '9') then 0 else 1 + DigitRun(s[1..])
  }

  function DigitsValue(s: string): nat
    requires forall i :: 0 <= i < |s| ==> '0' <= s[i] <= '9'
  {
    if s == "" then 0 else 10 * DigitsValue(s[..|s| - 1]) + (s[|s| - 1] as int - '0' as int)
  }

  function TenTo(k: nat): (p: real)
    ensures p > 0.0
  {
    if k == 0 then 1.0 else 10.0 * TenTo(k - 1)
  }

  /** Digits, optionally followed by a point and more digits. */
  predicate IsUnsigned(s: string) {
    var k := DigitRun(s);
    && k > 0
    && (k == |s| || (s[k] == '.' && k + 1 < |s| && DigitRun(s[k + 1..]) == |s| - k - 1))
  }

  function UnsignedValue(s: string): real
    requires IsUnsigned(s)
  {
    var k := DigitRun(s);
    DigitsValue(s[..k]) as real
    + if k == |s| then 0.0 else DigitsValue(s[k + 1..]) as real / TenTo(|s| - k - 1)
  }

  /** /^-?\d+(\.\d+)?$/ */
  predicate IsNumeric(s: string) {
    if s != "" && s[0] == '-' then IsUnsigned(s[1..]) else IsUnsigned(s)
  }

  function NumericValue(s: string): real
    requires IsNumeric(s)
  {
    if s[0] == '-' then -UnsignedValue(s[1..]) else UnsignedValue(s)
  }

  function Normalize(v: Value): Normal {
    match v
    case Null => NNull
    case Undefined => NNull
    case Date(iso) => NText(iso)
    case Num(n) => NNum(n)
    case Text(s) =>
      var t := Trim(s);
      if IsNumeric(t) then NNum(NumericValue(t)) else NText(t)
    case Bool(b) => NBool(b)
  }

  // ---- Rows ----

  /** A row object: its properties in insertion order. */
  type Row = seq<(string, Value)>

  function Keys(row: Row): (ks: seq<string>)
    ensures |ks| == |row|
    ensures forall i :: 0 <= i < |row| ==> ks[i] == row[i].0
  {
    seq(|row|, i requires 0 <= i < |row| => row[i].0)
  }

  function Lookup(row: Row, key: string): Value {
    if row == [] then Undefined
    else if row[0].0 == key then row[0].1
    else Lookup(row[1..], key)
  }

  function SortedKeys(row: Row): seq<string> {
    Sort(Keys(row), STR_LEQ)
  }

  type Canonical = seq<(string, Normal)>

  function NormalizedAt(row: Row, keys: seq<string>): (c: Canonical)
    ensures |c| == |keys|
    ensures forall i :: 0 <= i < |keys| ==> c[i] == (keys[i], Normalize(Lookup(row, keys[i])))
  {
    seq(|keys|, i requires 0 <= i < |keys| => (keys[i], Normalize(Lookup(row, keys[i]))))
  }

  /** The object that sortRows serialises: sorted keys with normalised values. */
  function CanonicalRow(row: Row): Canonical {
    NormalizedAt(row, SortedKeys(row))
  }

  /** canonicalLe stands for comparing the two JSON texts in the locale's order. */
  function SortRows(rows: seq<Row>, canonicalLe: (Canonical, Canonical) -> bool): seq<Row> {
    Sort(rows, By(CanonicalRow, canonicalLe))
  }

  datatype QueryResult = QueryResult(columns: seq<string>, rows: seq<Row>, rowCount: Option<nat>)

  function LowerAll(cols: seq<string>): (r: seq<string>)
    ensures |r| == |cols|
    ensures forall i :: 0 <= i < |cols| ==> r[i] == ToLower(cols[i])
  {
    seq(|cols|, i requires 0 <= i < |cols| => ToLower(cols[i]))
  }

  function SortedColumns(q: QueryResult): seq<string> {
    Sort(LowerAll(q.columns), STR_LEQ)
  }

  function CountOf(q: QueryResult): nat {
    if q.rowCount.Some? then q.rowCount.value else |q.rows|
  }

  /** Reading a property under an undefined key reads the property called "undefined". */
  function KeyAt(keys: seq<string>, j: nat): string {
    if j < |keys| then keys[j] else "undefined"
  }

  predicate CellMatches(cand: Row, exp: Row, j: nat) {
    Normalize(Lookup(cand, KeyAt(SortedKeys(cand), j))) == Normalize(Lookup(exp, KeyAt(SortedKeys(exp), j)))
  }

  /** The candidate's keys drive the comparison, position by position. */
  predicate RowMatches(cand: Row, exp: Row) {
    forall j :: 0 <= j < |SortedKeys(cand)| ==> CellMatches(cand, exp, j)
  }

  function RowAt(rows: seq<Row>, i: nat): Row {
    if i < |rows| then rows[i] else []
  }

  predicate RowsMatch(cand: seq<Row>, exp: seq<Row>) {
    forall i :: 0 <= i < |cand| ==> RowMatches(cand[i], RowAt(exp, i))
  }

  predicate Same(cand: QueryResult, exp: QueryResult, canonicalLe: (Canonical, Canonical) -> bool) {
    && SortedColumns(cand) == SortedColumns(exp)
    && CountOf(cand) == CountOf(exp)
    && RowsMatch(SortRows(cand.rows, canonicalLe), SortRows(exp.rows, canonicalLe))
  }

  method Compare(cand: QueryResult, exp: QueryResult, canonicalLe: (Canonical, Canonical) -> bool)
    returns (same: bool)
    ensures same <==> Same(cand, exp, canonicalLe)
  {
    hide SortedColumns, CountOf, SortRows, SortedKeys, Normalize, Lookup;
    var candCols := SortedColumns(cand);
    var expCols := SortedColumns(exp);
    if |candCols| != |expCols| {
      return false;
    }
    for i := 0 to |candCols|
      invariant candCols[..i] == expCols[..i]
    {
      if candCols[i] != expCols[i] {
        return false;
      }
    }
    assert candCols == candCols[..|candCols|] && expCols == expCols[..|candCols|];
    if CountOf(cand) != CountOf(exp) {
      return false;
    }
    var sortedCandidate := SortRows(cand.rows, canonicalLe);
    var sortedExpected := SortRows(exp.rows, canonicalLe);
    for i := 0 to |sortedCandidate|
      invariant forall k :: 0 <= k < i ==> RowMatches(sortedCandidate[k], RowAt(sortedExpected, k))
    {
      var candRow, expRow := sortedCandidate[i], RowAt(sortedExpected, i);
      var candKeys, expKeys := SortedKeys(candRow), SortedKeys(expRow);
      for j := 0 to |candKeys|
        invariant forall k :: 0 <= k < j ==> CellMatches(candRow, expRow, k)
      {
        var candValue := Normalize(Lookup(candRow, candKeys[j]));
        var expValue := Normalize(Lookup(expRow, KeyAt(expKeys, j)));
        if candValue != expValue {
          assert !CellMatches(candRow, expRow, j);
          return false;
        }
      }
    }
    same := true;
  }
}

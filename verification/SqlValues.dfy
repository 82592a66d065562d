/** When the comparison takes two cell values to be alike, read off their own spelling. */
module SqlValues {
  import opened Prelude
  import opened Sorting
  import opened Strings
  import opened SqlCompare
  import opened SqlCompareTheorems

  // ---- Decimal spellings ----

  predicate Digits(t: string) {
    t != "" && forall i :: 0 <= i < |t| ==> '0' <= t[i] <= '9'
  }

  function DigitOf(c: char): int {
    c as int - 48
  }

  function PowerOfTen(k: nat): int {
    if k == 0 then 1 else 10 * PowerOfTen(k - 1)
  }

  /** Each digit times the power of ten of its place. */
  function WholeValue(t: string): int {
    if t == "" then 0 else DigitOf(t[0]) * PowerOfTen(|t| - 1) + WholeValue(t[1..])
  }

  /** Tenths, hundredths and so on. */
  function FractionValue(t: string): real {
    if t == "" then 0.0 else (DigitOf(t[0]) as real + FractionValue(t[1..])) / 10.0
  }

  /** An optional minus sign, digits, and optionally a point with more digits. */
  datatype Decimal = Decimal(negative: bool, whole: string, fraction: Option<string>)

  predicate IsDecimal(d: Decimal) {
    Digits(d.whole) && (d.fraction.Some? ==> Digits(d.fraction.value))
  }

  function Unsigned(d: Decimal): string {
    d.whole + if d.fraction.Some? then "." + d.fraction.value else ""
  }

  function Spelled(d: Decimal): string {
    if d.negative then "-" + Unsigned(d) else Unsigned(d)
  }

  function Size(d: Decimal): real {
    WholeValue(d.whole) as real + if d.fraction.Some? then FractionValue(d.fraction.value) else 0.0
  }

  function ValueOf(d: Decimal): real {
    if d.negative then -Size(d) else Size(d)
  }

  // ---- The reader agrees with the spelling ----

  lemma {:induction false} DigitRunAll(t: string)
    requires t == "" || Digits(t)
    ensures DigitRun(t) == |t|
  {
    if t != "" {
      DigitRunAll(t[1..]);
    }
  }

  lemma {:induction false} DigitRunToPoint(w: string, rest: string)
    requires w == "" || Digits(w)
    ensures DigitRun(w + "." + rest) == |w|
  {
    if w == "" {
      assert ("" + "." + rest)[0] == '.';
    } else {
      assert (w + "." + rest)[1..] == w[1..] + "." + rest;
      DigitRunToPoint(w[1..], rest);
    }
  }

  lemma PlaceStep(c: int, p: int, low: int, d: int)
    ensures 10 * (c * p + low) + d == c * (10 * p) + (10 * low + d)
  {
  }

  lemma {:induction false} DigitsCons(c: char, t: string)
    requires '0' <= c <= '9' && (t == "" || Digits(t))
    ensures DigitsValue([c] + t) == DigitOf(c) * PowerOfTen(|t|) + DigitsValue(t)
  {
    if t == "" {
      assert ([c] + t)[..0] == "";
    } else {
      var n := |t| - 1;
      DigitsCons(c, t[..n]);
      assert ([c] + t)[..n + 1] == [c] + t[..n];
      PlaceStep(DigitOf(c), PowerOfTen(n), DigitsValue(t[..n]), t[n] as int - '0' as int);
    }
  }

  lemma {:induction false} WholeIs(t: string)
    requires t == "" || Digits(t)
    ensures DigitsValue(t) == WholeValue(t)
  {
    if t != "" {
      WholeIs(t[1..]);
      DigitsCons(t[0], t[1..]);
      assert t == [t[0]] + t[1..];
    }
  }

  lemma {:induction false} TenToIs(k: nat)
    ensures TenTo(k) == PowerOfTen(k) as real && PowerOfTen(k) > 0
  {
    if k > 0 {
      TenToIs(k - 1);
    }
  }

  lemma FractionStep(d: real, p: real, rest: real)
    requires p > 0.0
    ensures (d * p + rest) / (10.0 * p) == (d + rest / p) / 10.0
  {
    assert rest / p * p == rest;
    assert (d + rest / p) * p == d * p + rest;
    assert (d + rest / p) / 10.0 * (10.0 * p) == d * p + rest;
  }

  lemma ProductAsReal(a: int, b: int, c: int)
    ensures (a * b + c) as real == a as real * b as real + c as real
  {
  }

  lemma {:induction false} FractionIs(t: string)
    requires t == "" || Digits(t)
    ensures DigitsValue(t) as real / TenTo(|t|) == FractionValue(t)
  {
    hide DigitsValue;
    WholeIs(t);
    if t != "" {
      var n := |t| - 1;
      WholeIs(t[1..]);
      FractionIs(t[1..]);
      TenToIs(n);
      ProductAsReal(DigitOf(t[0]), PowerOfTen(n), WholeValue(t[1..]));
      FractionStep(DigitOf(t[0]) as real, TenTo(n), WholeValue(t[1..]) as real);
    }
  }

  lemma UnsignedReads(d: Decimal)
    requires IsDecimal(d)
    ensures IsUnsigned(Unsigned(d)) && UnsignedValue(Unsigned(d)) == Size(d)
    ensures Unsigned(d) != "" && Unsigned(d)[0] != '-'
  {
    hide DigitRun, DigitsValue, WholeValue, FractionValue, TenTo;
    var w, s := d.whole, Unsigned(d);
    WholeIs(w);
    assert s[..|w|] == w && s[0] == w[0];
    if d.fraction.Some? {
      var f := d.fraction.value;
      DigitRunToPoint(w, f);
      DigitRunAll(f);
      FractionIs(f);
      assert s == w + "." + f && s[|w| + 1..] == f && |s| - |w| - 1 == |f|;
    } else {
      DigitRunAll(w);
      assert s == w;
    }
  }

  /** A spelled decimal is numeric, and reads as its signed place value. */
  lemma SpelledReads(d: Decimal)
    requires IsDecimal(d)
    ensures IsNumeric(Spelled(d)) && NumericValue(Spelled(d)) == ValueOf(d)
  {
    hide IsUnsigned, UnsignedValue, Size, Unsigned;
    UnsignedReads(d);
    if d.negative {
      assert Spelled(d)[1..] == Unsigned(d);
    }
  }

  lemma UnsignedIsSpelled(s: string, negative: bool) returns (d: Decimal)
    requires IsUnsigned(s)
    ensures IsDecimal(d) && Unsigned(d) == s && d.negative == negative
  {
    hide DigitRun;
    var k := DigitRun(s);
    if k == |s| {
      d := Decimal(negative, s, None);
      assert s + "" == s;
    } else {
      d := Decimal(negative, s[..k], Some(s[k + 1..]));
      assert s == s[..k] + ("." + s[k + 1..]);
    }
  }

  /** Every numeric text is a spelled decimal. */
  lemma NumericIsSpelled(s: string) returns (d: Decimal)
    requires IsNumeric(s)
    ensures IsDecimal(d) && Spelled(d) == s
  {
    hide IsUnsigned;
    if s != "" && s[0] == '-' {
      d := UnsignedIsSpelled(s[1..], true);
      assert s == "-" + s[1..];
    } else {
      d := UnsignedIsSpelled(s, false);
    }
  }

  // ---- Alike values ----

  predicate Absent(v: Value) {
    v.Null? || v.Undefined?
  }

  /** A number, or a text whose trimmed spelling is a decimal of that value. */
  ghost predicate Reads(v: Value, x: real) {
    v == Num(x) || (v.Text? && exists d :: IsDecimal(d) && Spelled(d) == Trim(v.s) && ValueOf(d) == x)
  }

  ghost predicate NoDecimal(t: string) {
    forall d :: IsDecimal(d) ==> Spelled(d) != t
  }

  /** A text that spells no decimal, without its outer white space, or a date's text. */
  ghost predicate Says(v: Value, t: string) {
    (v.Text? && Trim(v.s) == t && NoDecimal(t)) || (v.Date? && v.iso == t)
  }

  /** Both absent, or one number, or one text, or one boolean. */
  ghost predicate Alike(a: Value, b: Value) {
    || (Absent(a) && Absent(b))
    || (exists x :: Reads(a, x) && Reads(b, x))
    || (exists t :: Says(a, t) && Says(b, t))
    || (a.Bool? && b == a)
  }

  lemma NumericIff(t: string)
    ensures IsNumeric(t) <==> !NoDecimal(t)
    ensures IsNumeric(t) ==> exists d :: IsDecimal(d) && Spelled(d) == t && ValueOf(d) == NumericValue(t)
    ensures forall d :: IsDecimal(d) && Spelled(d) == t ==> IsNumeric(t) && ValueOf(d) == NumericValue(t)
  {
    hide IsNumeric, NumericValue, IsDecimal, Spelled, ValueOf;
    forall d | IsDecimal(d) && Spelled(d) == t
      ensures IsNumeric(t) && ValueOf(d) == NumericValue(t)
    {
      SpelledReads(d);
    }
    if IsNumeric(t) {
      var d := NumericIsSpelled(t);
    }
  }

  /** What a value is normalised to, told from the value itself. */
  lemma NormalizeMeans(v: Value, x: real, t: string, b: bool)
    ensures Normalize(v) == NNum(x) <==> Reads(v, x)
    ensures Normalize(v) == NText(t) <==> Says(v, t)
    ensures Normalize(v) == NNull <==> Absent(v)
    ensures Normalize(v) == NBool(b) <==> v == Bool(b)
  {
    hide IsNumeric, NumericValue, IsDecimal, Spelled, ValueOf, Trim, NoDecimal;
    if v.Text? {
      NumericIff(Trim(v.s));
    }
  }

  lemma NormalizeAlways(v: Value)
    ensures forall x :: Normalize(v) == NNum(x) <==> Reads(v, x)
    ensures forall t :: Normalize(v) == NText(t) <==> Says(v, t)
    ensures Normalize(v) == NNull <==> Absent(v)
    ensures forall b :: Normalize(v) == NBool(b) <==> v == Bool(b)
  {
    hide Normalize, Reads, Says, Absent;
    NormalizeMeans(v, 0.0, "", true);
    forall x ensures Normalize(v) == NNum(x) <==> Reads(v, x) {
      NormalizeMeans(v, x, "", true);
    }
    forall t ensures Normalize(v) == NText(t) <==> Says(v, t) {
      NormalizeMeans(v, 0.0, t, true);
    }
    forall b ensures Normalize(v) == NBool(b) <==> v == Bool(b) {
      NormalizeMeans(v, 0.0, "", b);
    }
  }

  /** Two values are one cell value exactly when they are alike. */
  lemma AlikeIff(a: Value, b: Value)
    ensures Normalize(a) == Normalize(b) <==> Alike(a, b)
  {
    hide Normalize, Reads, Says, Absent;
    NormalizeAlways(a);
    NormalizeAlways(b);
    var n := Normalize(a);
    if n == Normalize(b) {
      match n
      case NNull =>
      case NNum(x) => assert Reads(a, x) && Reads(b, x);
      case NText(t) => assert Says(a, t) && Says(b, t);
      case NBool(c) =>
    }
  }

  /** The cases, kind by kind; kinds that are not listed never mix. */
  lemma AlikeByKind(x: real, y: real, p: bool, q: bool, s: string, t: string, v: Value)
    ensures Alike(Null, Undefined) && (Alike(Null, v) <==> Absent(v)) && (Alike(Undefined, v) <==> Absent(v))
    ensures Alike(Bool(p), v) <==> v == Bool(p)
    ensures Alike(Num(x), Num(y)) <==> x == y
    ensures Alike(Num(x), Text(s)) <==> exists d :: IsDecimal(d) && Spelled(d) == Trim(s) && ValueOf(d) == x
    ensures NoDecimal(Trim(s)) && NoDecimal(Trim(t)) ==> (Alike(Text(s), Text(t)) <==> Trim(s) == Trim(t))
  {
    hide IsDecimal, Spelled, ValueOf, Trim, NoDecimal;
    assert Reads(Num(x), x);
    if Alike(Num(x), Text(s)) {
      var z :| Reads(Num(x), z) && Reads(Text(s), z);
    }
    if NoDecimal(Trim(s)) && NoDecimal(Trim(t)) {
      NothingRead(s);
      assert Says(Text(s), Trim(s));
    }
  }

  lemma NothingRead(s: string)
    requires NoDecimal(Trim(s))
    ensures forall x :: !Reads(Text(s), x)
  {
    hide IsDecimal, Spelled, ValueOf, Trim;
  }

  // ---- Alike rows and results ----

  /** Rows with one key list match exactly when they are alike under every key. */
  lemma RowsMatchByKey(cand: Row, exp: Row)
    requires SortedKeys(cand) == SortedKeys(exp)
    ensures RowMatches(cand, exp) <==> forall key :: key in Keys(cand) ==> Alike(Lookup(cand, key), Lookup(exp, key))
  {
    hide Normalize, Lookup, SortedKeys, Alike;
    SortedKeysKeep(cand);
    var keys := SortedKeys(cand);
    forall j | 0 <= j < |keys|
      ensures CellMatches(cand, exp, j) <==> Alike(Lookup(cand, keys[j]), Lookup(exp, keys[j]))
    {
      AlikeIff(Lookup(cand, keys[j]), Lookup(exp, keys[j]));
    }
    if RowMatches(cand, exp) {
      forall key | key in Keys(cand)
        ensures Alike(Lookup(cand, key), Lookup(exp, key))
      {
        assert key in keys;
        var j :| 0 <= j < |keys| && keys[j] == key;
        assert CellMatches(cand, exp, j);
      }
    } else {
      var j :| 0 <= j < |keys| && !CellMatches(cand, exp, j);
      assert keys[j] in Keys(cand);
    }
  }

  lemma OneCellGrid(key: string, v: Value, le: (Canonical, Canonical) -> bool)
    ensures HasWidth(1, OneRowResult([key], [v])) && Grid(OneRowResult([key], [v]), le) == [[Normalize(v)]]
  {
    hide Normalize, CanonicalRow, Sort, Cells;
    var row := RowOf([key], [v]);
    assert row == [(key, v)];
    CellsBySortedKey(row);
    SortSingle((key, v), BY_KEY);
    OneRowGrid(OneRowResult([key], [v]), row, le);
    assert Map(NormalOf, row) == [NormalOf((key, v))];
  }

  /** Two results of one row and one column are the same exactly when their values are alike. */
  lemma OneCellSameIff(key: string, a: Value, b: Value, le: (Canonical, Canonical) -> bool)
    ensures Same(OneRowResult([key], [a]), OneRowResult([key], [b]), le) <==> Alike(a, b)
  {
    hide Normalize, Same, Alike, Grid, HasWidth, SortedColumns, RowOf;
    var x, y := OneRowResult([key], [a]), OneRowResult([key], [b]);
    OneCellGrid(key, a, le);
    OneCellGrid(key, b, le);
    SameIffGrids(1, x, y, le);
    SameColumns(x, y);
    AlikeIff(a, b);
    assert [[Normalize(a)]][0][0] == Normalize(a) && [[Normalize(b)]][0][0] == Normalize(b);
  }

  lemma SameColumns(x: QueryResult, y: QueryResult)
    requires x.columns == y.columns
    ensures SortedColumns(x) == SortedColumns(y)
  {
  }
}

/** Sums of reals over key sets and over sequences. */
module RealSums {

  /** Sum of f over a finite key set; the order of summation is immaterial (SumRemove). */
  ghost function SumOver(keys: set<string>, f: string -> real): real {
    if keys == {} then 0.0
    else
      var k :| k in keys;
      f(k) + SumOver(keys - {k}, f)
  }

  lemma {:induction false} SumRemove(keys: set<string>, f: string -> real, k: string)
    requires k in keys
    ensures SumOver(keys, f) == f(k) + SumOver(keys - {k}, f)
    decreases |keys|
  {
    var c :| c in keys && SumOver(keys, f) == f(c) + SumOver(keys - {c}, f);
    if c != k {
      SumRemove(keys - {c}, f, k);
      SumRemove(keys - {k}, f, c);
      assert keys - {c} - {k} == keys - {k} - {c};
    }
  }

  lemma {:induction false} SumMono(keys: set<string>, f: string -> real, g: string -> real)
    requires forall k :: k in keys ==> f(k) <= g(k)
    ensures SumOver(keys, f) <= SumOver(keys, g)
    decreases |keys|
  {
    if keys != {} {
      var k :| k in keys;
      SumRemove(keys, f, k);
      SumRemove(keys, g, k);
      SumMono(keys - {k}, f, g);
    }
  }

  lemma {:induction false} SumSupport(a: set<string>, b: set<string>, f: string -> real)
    requires forall k :: k in b ==> f(k) >= 0.0
    requires forall k :: k in a && k !in b ==> f(k) == 0.0
    ensures SumOver(a, f) <= SumOver(b, f)
    decreases |a| + |b|
  {
    if k :| k in a {
      SumRemove(a, f, k);
      if k in b {
        SumRemove(b, f, k);
        SumSupport(a - {k}, b - {k}, f);
      } else {
        SumSupport(a - {k}, b, f);
      }
    } else if k :| k in b {
      SumRemove(b, f, k);
      SumSupport(a, b - {k}, f);
    }
  }

  lemma {:induction false} SumSubset(a: set<string>, b: set<string>, f: string -> real)
    requires a <= b && forall k :: k in b - a ==> f(k) >= 0.0
    ensures SumOver(a, f) <= SumOver(b, f)
    decreases |b|
  {
    if k :| k in b && k !in a {
      SumRemove(b, f, k);
      SumSubset(a, b - {k}, f);
    } else {
      assert a == b;
    }
  }

  lemma SumNonNegative(keys: set<string>, f: string -> real)
    requires forall k :: k in keys ==> f(k) >= 0.0
    ensures SumOver(keys, f) >= 0.0
  {
    SumSupport({}, keys, f);
  }

  lemma {:induction false} SumAdd(keys: set<string>, f: string -> real, g: string -> real, h: string -> real)
    requires forall k :: k in keys ==> h(k) == f(k) + g(k)
    ensures SumOver(keys, h) == SumOver(keys, f) + SumOver(keys, g)
    decreases |keys|
  {
    if keys != {} {
      var k :| k in keys;
      SumRemove(keys, f, k);
      SumRemove(keys, g, k);
      SumRemove(keys, h, k);
      SumAdd(keys - {k}, f, g, h);
    }
  }

  lemma SumZero(keys: set<string>, f: string -> real)
    requires forall k :: k in keys ==> f(k) == 0.0
    ensures SumOver(keys, f) == 0.0
  {
    SumSupport(keys, {}, f);
    SumSupport({}, keys, f);
  }

  // ---- Sequences ----

  function Sum(s: seq<real>): real {
    if s == [] then 0.0 else Sum(s[..|s| - 1]) + s[|s| - 1]
  }

  /** The product as a function, so that proofs about sums can hide it. */
  function Prod(a: real, b: real): real {
    a * b
  }

  /** Sum of the products of corresponding entries. */
  function Dot(s: seq<real>, t: seq<real>): real
    requires |s| == |t|
  {
    if s == [] then 0.0 else Dot(s[..|s| - 1], t[..|t| - 1]) + Prod(s[|s| - 1], t[|t| - 1])
  }

  /** Sum of the squared deviations from c. */
  function SquaredDeviation(s: seq<real>, c: real): real {
    if s == [] then 0.0
    else SquaredDeviation(s[..|s| - 1], c) + Prod(s[|s| - 1] - c, s[|s| - 1] - c)
  }

  lemma SquareNonNegative(x: real)
    ensures Prod(x, x) >= 0.0
  {
  }

  lemma ProdCommutes(a: real, b: real)
    ensures Prod(a, b) == Prod(b, a)
  {
  }

  lemma ProdAdds(a: real, b: real, c: real)
    ensures Prod(a + b, c) == Prod(a, c) + Prod(b, c)
    ensures Prod(c, a + b) == Prod(c, a) + Prod(c, b)
  {
  }

  lemma ProdAssociates(a: real, b: real, c: real)
    ensures Prod(Prod(a, b), c) == Prod(a, Prod(b, c))
  {
  }

  lemma {:induction false} SquaredDeviationNonNegative(s: seq<real>, c: real)
    ensures SquaredDeviation(s, c) >= 0.0
  {
    hide Prod;
    if s != [] {
      SquaredDeviationNonNegative(s[..|s| - 1], c);
      SquareNonNegative(s[|s| - 1] - c);
    }
  }

  lemma DeviationStep(x: real, c: real, q: real, sum: real, n: real)
    ensures q - 2.0 * Prod(c, sum) + Prod(n, Prod(c, c)) + Prod(x - c, x - c)
            == q + Prod(x, x) - 2.0 * Prod(c, sum + x) + Prod(n + 1.0, Prod(c, c))
  {
  }

  lemma ProdZero(t: real)
    ensures Prod(t, 0.0) == 0.0 && Prod(0.0, t) == 0.0
  {
  }

  lemma {:induction false} SquaredDeviationExpands(s: seq<real>, c: real)
    ensures SquaredDeviation(s, c) == Dot(s, s) - 2.0 * Prod(c, Sum(s)) + Prod(|s| as real, Prod(c, c))
  {
    hide Prod;
    if s == [] {
      ProdZero(c);
      ProdZero(Prod(c, c));
    } else {
      var t, x := s[..|s| - 1], s[|s| - 1];
      SquaredDeviationExpands(t, c);
      DeviationStep(x, c, Dot(t, t), Sum(t), |t| as real);
    }
  }

  lemma SumSnoc(s: seq<real>, x: real)
    ensures Sum(s + [x]) == Sum(s) + x
  {
    assert (s + [x])[..|s|] == s;
  }

  lemma DotSnoc(s: seq<real>, t: seq<real>, x: real, y: real)
    requires |s| == |t|
    ensures Dot(s + [x], t + [y]) == Dot(s, t) + Prod(x, y)
  {
  }

  /** Both running sums after one more entry of x and y. */
  lemma PrefixSums(x: seq<real>, y: seq<real>, i: nat)
    requires |x| == |y| && i < |x|
    ensures Sum(x[..i + 1]) == Sum(x[..i]) + x[i]
    ensures Dot(x[..i + 1], y[..i + 1]) == Dot(x[..i], y[..i]) + Prod(x[i], y[i])
  {
    hide Prod;
    assert x[..i + 1] == x[..i] + [x[i]] && y[..i + 1] == y[..i] + [y[i]];
    SumSnoc(x[..i], x[i]);
    DotSnoc(x[..i], y[..i], x[i], y[i]);
  }

  // ---- Linear combinations ----

  function Add(x: seq<real>, y: seq<real>): (z: seq<real>)
    requires |x| == |y|
    ensures |z| == |x|
  {
    if x == [] then [] else Add(x[..|x| - 1], y[..|y| - 1]) + [x[|x| - 1] + y[|y| - 1]]
  }

  function Scale(t: real, x: seq<real>): (z: seq<real>)
    ensures |z| == |x|
  {
    if x == [] then [] else Scale(t, x[..|x| - 1]) + [Prod(t, x[|x| - 1])]
  }

  lemma {:induction false} DotSymmetric(x: seq<real>, y: seq<real>)
    requires |x| == |y|
    ensures Dot(x, y) == Dot(y, x)
  {
    hide Prod;
    if x != [] {
      DotSymmetric(x[..|x| - 1], y[..|y| - 1]);
      ProdCommutes(x[|x| - 1], y[|y| - 1]);
    }
  }

  lemma {:induction false} AddSums(x: seq<real>, y: seq<real>, z: seq<real>)
    requires |x| == |y| == |z|
    ensures Sum(Add(x, y)) == Sum(x) + Sum(y)
    ensures Dot(Add(x, y), z) == Dot(x, z) + Dot(y, z)
  {
    hide Prod;
    if x != [] {
      var n := |x| - 1;
      AddSums(x[..n], y[..n], z[..n]);
      SumSnoc(Add(x[..n], y[..n]), x[n] + y[n]);
      DotSnoc(Add(x[..n], y[..n]), z[..n], x[n] + y[n], z[n]);
      assert z == z[..n] + [z[n]];
      ProdAdds(x[n], y[n], z[n]);
    }
  }

  lemma {:induction false} ScaleSums(t: real, x: seq<real>, z: seq<real>)
    requires |x| == |z|
    ensures Sum(Scale(t, x)) == Prod(t, Sum(x))
    ensures Dot(Scale(t, x), z) == Prod(t, Dot(x, z))
  {
    hide Prod;
    if x == [] {
      ProdZero(t);
    } else {
      var n := |x| - 1;
      var x', z', a, b := x[..n], z[..n], x[n], z[n];
      ScaleSums(t, x', z');
      SumSnoc(Scale(t, x'), Prod(t, a));
      DotSnoc(Scale(t, x'), z', Prod(t, a), b);
      assert z == z' + [b];
      ProdAdds(Sum(x'), a, t);
      ProdAdds(Dot(x', z'), Prod(a, b), t);
      ProdAssociates(t, a, b);
    }
  }
}

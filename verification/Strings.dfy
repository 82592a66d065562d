/** String order, case folding, trimming, splitting and joining. */
module Strings {
  import opened Sorting

  // ---- Order ----

  /** The default order of Array.prototype.sort on strings. */
  function StrLe(a: string, b: string): bool {
    if a == "" then true
    else if b == "" then false
    else a[0] < b[0] || (a[0] == b[0] && StrLe(a[1..], b[1..]))
  }

  const STR_LEQ: (string, string) -> bool := (a, b) => StrLe(a, b)

  lemma {:induction false} StrLeTotal(a: string, b: string)
    ensures StrLe(a, b) || StrLe(b, a)
  {
    if a != "" && b != "" {
      StrLeTotal(a[1..], b[1..]);
    }
  }

  lemma {:induction false} StrLeTransitive(a: string, b: string, c: string)
    requires StrLe(a, b) && StrLe(b, c)
    ensures StrLe(a, c)
  {
    if a != "" && b != "" && c != "" && a[0] == b[0] == c[0] {
      StrLeTransitive(a[1..], b[1..], c[1..]);
    }
  }

  lemma {:induction false} StrLeAntisymmetric(a: string, b: string)
    requires StrLe(a, b) && StrLe(b, a)
    ensures a == b
  {
    if a != "" && b != "" {
      StrLeAntisymmetric(a[1..], b[1..]);
      assert a == [a[0]] + a[1..] && b == [b[0]] + b[1..];
    }
  }

  lemma StrLeqIsTotalOrder()
    ensures TotalOrder(STR_LEQ)
  {
    forall a, b ensures STR_LEQ(a, b) || STR_LEQ(b, a) {
      StrLeTotal(a, b);
    }
    forall a, b, c | STR_LEQ(a, b) && STR_LEQ(b, c) ensures STR_LEQ(a, c) {
      StrLeTransitive(a, b, c);
    }
    forall a, b | STR_LEQ(a, b) && STR_LEQ(b, a) ensures a == b {
      StrLeAntisymmetric(a, b);
    }
  }

  // ---- Case and white space ----

  function LowerChar(c: char): char {
    if 'A' <= c <= 'Z' then ((c as int) + 32) as char else c
  }

  function ToLower(s: string): (r: string)
    ensures |r| == |s|
  {
    if s == "" then "" else [LowerChar(s[0])] + ToLower(s[1..])
  }

  /** What the pattern \s matches. */
  predicate IsSpace(c: char) {
    || c in {' ', '\t', '\n', '\r', '\U{000B}', '\U{000C}', '\U{00A0}', '\U{1680}', '\U{2028}', '\U{2029}',
             '\U{202F}', '\U{205F}', '\U{3000}', '\U{FEFF}'}
    || '\U{2000}' <= c <= '\U{200A}'
  }

  /** White space by character code: the controls from 9 to 13, the blank and the listed Unicode spaces. */
  lemma SpaceCodes(c: char)
    ensures IsSpace(c) <==>
            var n := c as int;
            9 <= n <= 13 || n in {32, 160, 5760} || 8192 <= n <= 8202 || n in {8232, 8233, 8239, 8287, 12288, 65279}
  {
  }

  /** Capital letters move up by 32 codes; every other character stays. */
  lemma LowerCodes(c: char)
    ensures LowerChar(c) as int == if 65 <= c as int <= 90 then c as int + 32 else c as int
    ensures IsSpace(LowerChar(c)) <==> IsSpace(c)
  {
  }

  lemma {:induction false} LowerAt(s: string, k: nat)
    requires k < |s|
    ensures ToLower(s)[k] == LowerChar(s[k])
  {
    if k > 0 {
      LowerAt(s[1..], k - 1);
    }
  }

  function TrimLeft(s: string): string {
    if s != "" && IsSpace(s[0]) then TrimLeft(s[1..]) else s
  }

  function TrimRight(s: string): string {
    if s != "" && IsSpace(s[|s| - 1]) then TrimRight(s[..|s| - 1]) else s
  }

  function Trim(s: string): string {
    TrimRight(TrimLeft(s))
  }

  predicate Trimmed(s: string) {
    s == "" || (!IsSpace(s[0]) && !IsSpace(s[|s| - 1]))
  }

  lemma {:induction false} TrimLeftStart(s: string)
    ensures TrimLeft(s) == "" || !IsSpace(TrimLeft(s)[0])
  {
    if s != "" && IsSpace(s[0]) {
      TrimLeftStart(s[1..]);
    }
  }

  lemma {:induction false} TrimRightEnd(s: string)
    ensures TrimRight(s) <= s
    ensures TrimRight(s) == "" || !IsSpace(TrimRight(s)[|TrimRight(s)| - 1])
  {
    if s != "" && IsSpace(s[|s| - 1]) {
      TrimRightEnd(s[..|s| - 1]);
    }
  }

  lemma TrimTrims(s: string)
    ensures Trimmed(Trim(s))
  {
    TrimLeftStart(s);
    TrimRightEnd(TrimLeft(s));
  }

  lemma TrimmedIsFixed(s: string)
    requires Trimmed(s)
    ensures Trim(s) == s
  {
  }

  predicate AllSpace(s: string) {
    forall i :: 0 <= i < |s| ==> IsSpace(s[i])
  }

  lemma {:induction false} TrimRightCuts(s: string) returns (trail: string)
    ensures AllSpace(trail) && s == TrimRight(s) + trail
  {
    trail := "";
    if s != "" && IsSpace(s[|s| - 1]) {
      var t := TrimRightCuts(s[..|s| - 1]);
      trail := t + [s[|s| - 1]];
    }
  }

  lemma {:induction false} TrimLeftCuts(s: string) returns (lead: string)
    ensures AllSpace(lead) && s == lead + TrimLeft(s)
  {
    lead := "";
    if s != "" && IsSpace(s[0]) {
      var t := TrimLeftCuts(s[1..]);
      lead := [s[0]] + t;
    }
  }

  /** Trimming cuts white space off both ends, all of it and nothing else. */
  lemma TrimCuts(s: string) returns (lead: string, trail: string)
    ensures AllSpace(lead) && AllSpace(trail) && s == lead + Trim(s) + trail && Trimmed(Trim(s))
  {
    lead := TrimLeftCuts(s);
    trail := TrimRightCuts(TrimLeft(s));
    TrimTrims(s);
  }

  /** Nothing is left of a text exactly when it is all white space, in either case. */
  lemma BlankIff(s: string)
    ensures Trim(s) == "" <==> AllSpace(s)
    ensures AllSpace(s) <==> AllSpace(ToLower(s))
  {
    hide Trim, ToLower, IsSpace, LowerChar;
    var lead, trail := TrimCuts(s);
    assert forall i :: 0 <= i < |Trim(s)| ==> s[|lead| + i] == Trim(s)[i];
    forall i | 0 <= i < |s|
      ensures IsSpace(ToLower(s)[i]) <==> IsSpace(s[i])
    {
      LowerAt(s, i);
      LowerCodes(s[i]);
    }
  }

  // ---- Splitting and joining ----

  function Join(parts: seq<string>, sep: string): string {
    if parts == [] then ""
    else if |parts| == 1 then parts[0]
    else parts[0] + sep + Join(parts[1..], sep)
  }

  /** The pieces between occurrences of sep. */
  function Split(s: string, sep: char): (parts: seq<string>)
    ensures parts != []
  {
    if s == "" then [""]
    else
      var rest := Split(s[1..], sep);
      if s[0] == sep then [""] + rest else [[s[0]] + rest[0]] + rest[1..]
  }

  lemma {:induction false} SplitAfter(p: string, s: string, sep: char)
    requires sep !in p
    ensures Split(p + s, sep) == [p + Split(s, sep)[0]] + Split(s, sep)[1..]
  {
    if p == "" {
      var r := Split(s, sep);
      assert "" + s == s && "" + r[0] == r[0];
      assert r == [r[0]] + r[1..];
    } else {
      assert (p + s)[1..] == p[1..] + s;
      SplitAfter(p[1..], s, sep);
      assert [p[0]] + (p[1..] + Split(s, sep)[0]) == p + Split(s, sep)[0];
    }
  }

  /** Splitting undoes joining when no part contains the separator. */
  lemma {:induction false} SplitJoin(parts: seq<string>, sep: char)
    requires parts != [] && forall i :: 0 <= i < |parts| ==> sep !in parts[i]
    ensures Split(Join(parts, [sep]), sep) == parts
  {
    if |parts| == 1 {
      SplitAfter(parts[0], "", sep);
      assert parts[0] + "" == parts[0];
    } else {
      var rest := Join(parts[1..], [sep]);
      SplitJoin(parts[1..], sep);
      assert ([sep] + rest)[1..] == rest;
      SplitAfter(parts[0], [sep] + rest, sep);
      assert parts[0] + ([sep] + rest) == parts[0] + [sep] + rest;
      assert parts[0] + "" == parts[0];
    }
  }

  /** All the pieces of all the parts, in order; no parts give one empty piece, as the empty text does. */
  function Pieces(parts: seq<string>, sep: char): seq<string> {
    if parts == [] then [""]
    else if |parts| == 1 then Split(parts[0], sep)
    else Split(parts[0], sep) + Pieces(parts[1..], sep)
  }

  lemma {:induction false} SplitAtSep(p: string, s: string, sep: char)
    ensures Split(p + [sep] + s, sep) == Split(p, sep) + Split(s, sep)
  {
    if p == "" {
      assert ("" + [sep] + s)[1..] == s;
    } else {
      assert (p + [sep] + s)[1..] == p[1..] + [sep] + s;
      SplitAtSep(p[1..], s, sep);
    }
  }

  lemma {:induction false} SplitOfJoin(parts: seq<string>, sep: char)
    ensures Split(Join(parts, [sep]), sep) == Pieces(parts, sep)
  {
    if |parts| > 1 {
      SplitOfJoin(parts[1..], sep);
      SplitAtSep(parts[0], Join(parts[1..], [sep]), sep);
    }
  }

  lemma {:induction false} JoinOfSplit(s: string, sep: char)
    ensures Join(Split(s, sep), [sep]) == s
  {
    if s != "" {
      var rest := Split(s[1..], sep);
      JoinOfSplit(s[1..], sep);
      assert s == [s[0]] + s[1..];
      if s[0] == sep {
        assert ([""] + rest)[1..] == rest;
        assert "" + [sep] + Join(rest, [sep]) == [sep] + Join(rest, [sep]);
      } else {
        JoinHead([s[0]], rest, [sep]);
      }
    }
  }

  lemma JoinHead(h: string, parts: seq<string>, sep: string)
    requires parts != []
    ensures Join([h + parts[0]] + parts[1..], sep) == h + Join(parts, sep)
  {
    var p := [h + parts[0]] + parts[1..];
    assert p[1..] == parts[1..];
    if |parts| > 1 {
      assert h + parts[0] + sep + Join(parts[1..], sep) == h + (parts[0] + sep + Join(parts[1..], sep));
    }
  }

  /** Two joined texts are equal exactly when their parts, cut again at the separator, are. */
  lemma JoinedAlikeIff(a: seq<string>, b: seq<string>, sep: char)
    ensures Join(a, [sep]) == Join(b, [sep]) <==> Pieces(a, sep) == Pieces(b, sep)
  {
    hide Join, Pieces, Split;
    SplitOfJoin(a, sep);
    SplitOfJoin(b, sep);
    JoinOfSplit(Join(a, [sep]), sep);
    JoinOfSplit(Join(b, [sep]), sep);
  }

  // ---- Words ----

  /** replace(/\s+/g, " ") */
  function Collapse(s: string): string
    decreases |s|
  {
    if s == "" then ""
    else if IsSpace(s[0]) then
      TrimLeftShrinks(s);
      " " + Collapse(TrimLeft(s))
    else [s[0]] + Collapse(s[1..])
  }

  lemma {:induction false} TrimLeftShrinks(s: string)
    ensures |TrimLeft(s)| <= |s|
    ensures s != "" && IsSpace(s[0]) ==> |TrimLeft(s)| < |s|
  {
    if s != "" && IsSpace(s[0]) {
      TrimLeftShrinks(s[1..]);
    }
  }

  /** The length of the leading run of non-space characters. */
  function WordLength(s: string): (n: nat)
    ensures n <= |s|
    ensures forall i :: 0 <= i < n ==> !IsSpace(s[i])
    ensures n < |s| ==> IsSpace(s[n])
  {
    if s == "" || IsSpace(s[0]) then 0 else 1 + WordLength(s[1..])
  }

  /** split(/\s+/).filter(Boolean) */
  function Words(s: string): seq<string>
    decreases |s|
  {
    var t := TrimLeft(s);
    if t == "" then []
    else
      TrimLeftShrinks(s);
      TrimLeftStart(s);
      var n := WordLength(t);
      [t[..n]] + Words(t[n..])
  }

  predicate IsWord(w: string) {
    w != "" && forall i :: 0 <= i < |w| ==> !IsSpace(w[i])
  }

  lemma {:induction false} WordsAreWords(s: string)
    ensures forall i :: 0 <= i < |Words(s)| ==> IsWord(Words(s)[i])
    decreases |s|
  {
    var t := TrimLeft(s);
    if t != "" {
      TrimLeftShrinks(s);
      TrimLeftStart(s);
      WordsAreWords(t[WordLength(t)..]);
    }
  }

  lemma {:induction false} CollapseWord(w: string, s: string)
    requires forall i :: 0 <= i < |w| ==> !IsSpace(w[i])
    ensures Collapse(w + s) == w + Collapse(s)
  {
    if w == "" {
      assert "" + s == s;
    } else {
      assert (w + s)[1..] == w[1..] + s;
      CollapseWord(w[1..], s);
    }
  }

  lemma {:induction false} TrimLeftIsSuffix(s: string)
    ensures |TrimLeft(s)| <= |s| && TrimLeft(s) == s[|s| - |TrimLeft(s)|..]
    ensures TrimLeft(s) == "" ==> forall i :: 0 <= i < |s| ==> IsSpace(s[i])
  {
    if s != "" && IsSpace(s[0]) {
      TrimLeftIsSuffix(s[1..]);
    }
  }

  /** A trimmed text collapses to its words joined by single spaces. */
  lemma {:induction false} CollapseIsJoin(s: string)
    requires Trimmed(s)
    ensures Collapse(s) == Join(Words(s), " ")
    decreases |s|
  {
    if s != "" {
      var n := WordLength(s);
      var w, rest := s[..n], s[n..];
      assert s == w + rest;
      CollapseWord(w, rest);
      assert Words(s) == [w] + Words(rest);
      if rest == "" {
        assert Words(rest) == [];
      } else {
        var next := TrimLeft(rest);
        TrimLeftIsSuffix(rest);
        TrimLeftStart(rest);
        assert rest[|rest| - 1] == s[|s| - 1];
        assert next != "";
        assert next[|next| - 1] == rest[|rest| - 1];
        CollapseIsJoin(next);
        assert Words(rest) == Words(next);
        assert Collapse(rest) == " " + Collapse(next);
        assert ([w] + Words(rest))[1..] == Words(rest);
        assert Words(rest) != [];
      }
    }
  }

  lemma {:induction false} WordLengthSnoc(s: string, c: char)
    requires IsSpace(c)
    ensures WordLength(s + [c]) == WordLength(s)
  {
    if s != "" && !IsSpace(s[0]) {
      assert (s + [c])[1..] == s[1..] + [c];
      WordLengthSnoc(s[1..], c);
    }
  }

  lemma {:induction false} TrimLeftSnoc(s: string, c: char)
    requires IsSpace(c)
    ensures TrimLeft(s + [c]) == if TrimLeft(s) == "" then "" else TrimLeft(s) + [c]
  {
    if s == "" {
      assert ("" + [c])[1..] == "";
    } else if IsSpace(s[0]) {
      assert (s + [c])[1..] == s[1..] + [c];
      TrimLeftSnoc(s[1..], c);
    }
  }

  lemma {:induction false} WordsSnoc(s: string, c: char)
    requires IsSpace(c)
    ensures Words(s + [c]) == Words(s)
    decreases |s|
  {
    var t := TrimLeft(s);
    TrimLeftSnoc(s, c);
    if t != "" {
      TrimLeftShrinks(s);
      TrimLeftStart(s);
      WordLengthSnoc(t, c);
      var n := WordLength(t);
      assert (t + [c])[..n] == t[..n] && (t + [c])[n..] == t[n..] + [c];
      WordsSnoc(t[n..], c);
    }
  }

  lemma {:induction false} WordsTrimRight(s: string)
    ensures Words(TrimRight(s)) == Words(s)
  {
    if s != "" && IsSpace(s[|s| - 1]) {
      WordsTrimRight(s[..|s| - 1]);
      WordsSnoc(s[..|s| - 1], s[|s| - 1]);
      assert s == s[..|s| - 1] + [s[|s| - 1]];
    }
  }

  lemma WordsTrim(s: string)
    ensures Words(Trim(s)) == Words(s)
  {
    WordsTrimRight(TrimLeft(s));
    TrimLeftStart(s);
    assert TrimLeft(TrimLeft(s)) == TrimLeft(s);
  }

  /** trim() followed by white-space collapsing depends on the words only, and tells word lists apart. */
  lemma CollapsedTextIff(a: string, b: string)
    ensures Collapse(Trim(a)) == Collapse(Trim(b)) <==> Words(a) == Words(b)
  {
    TrimTrims(a);
    TrimTrims(b);
    CollapseIsJoin(Trim(a));
    CollapseIsJoin(Trim(b));
    WordsTrim(a);
    WordsTrim(b);
    WordsAreWords(a);
    WordsAreWords(b);
    JoinedWords(Words(a));
    JoinedWords(Words(b));
  }

  lemma JoinedWords(ws: seq<string>)
    requires forall i :: 0 <= i < |ws| ==> IsWord(ws[i])
    ensures if ws == [] then Join(ws, " ") == "" else Join(ws, " ") != "" && Split(Join(ws, " "), ' ') == ws
  {
    if ws != [] {
      assert IsWord(ws[0]);
      SplitJoin(ws, ' ');
    }
  }
}

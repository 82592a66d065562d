/** Keyword extraction: candidate phrases, word degrees and the ranked shortlist. */
module Rake {
  import opened RealSums
  import opened Sorting
  import opened Strings

  type Phrase = seq<string>

  datatype Candidate = Candidate(phrase: string, score: real)

  // ---- Text to words ----

  predicate IsKept(c: char) {
    'a' <= c <= 'z' || '0' <= c <= '9'
  }

  /** replace(/[^a-z0-9]/g, "") */
  function Clean(word: string): (r: string)
    ensures forall i :: 0 <= i < |r| ==> IsKept(r[i])
  {
    if word == "" then "" else (if IsKept(word[0]) then [word[0]] else "") + Clean(word[1..])
  }

  predicate EndsSentence(c: char) {
    c in {'.', ',', '/', '#', '!', '$', '%', '^', '&', '*', ';', ':', '{', '}', '=', '-', '_', '`', '~',
          '(', ')', '?', '\n', '\r'}
  }

  function Sentences(text: string): (r: seq<string>)
    ensures r != []
  {
    if text == "" then [""]
    else
      var rest := Sentences(text[1..]);
      if EndsSentence(text[0]) then [""] + rest else [[text[0]] + rest[0]] + rest[1..]
  }

  function Cleaned(words: seq<string>): seq<string> {
    if words == [] then []
    else (if Clean(words[0]) == "" then [] else [Clean(words[0])]) + Cleaned(words[1..])
  }

  // ---- Words to phrases ----

  /** The runs between stop words, empty runs included. */
  function Chunks(words: seq<string>, stop: set<string>): (r: seq<Phrase>)
    ensures r != []
  {
    if words == [] then [[]]
    else
      var rest := Chunks(words[1..], stop);
      if words[0] in stop then [[]] + rest else [[words[0]] + rest[0]] + rest[1..]
  }

  function NonEmpty(chunks: seq<Phrase>): seq<Phrase> {
    if chunks == [] then [] else (if chunks[0] == [] then [] else [chunks[0]]) + NonEmpty(chunks[1..])
  }

  /** The candidate phrases of the first sentences. */
  function PhrasesOf(sentences: seq<string>, stop: set<string>): seq<Phrase> {
    if sentences == [] then []
    else
      var n := |sentences| - 1;
      PhrasesOf(sentences[..n], stop) + NonEmpty(Chunks(Cleaned(Words(Trim(sentences[n]))), stop))
  }

  function CandidatePhrases(text: string, stop: set<string>): seq<Phrase> {
    if Trim(text) == "" then [] else PhrasesOf(Sentences(ToLower(text)), stop)
  }

  // ---- Counting ----

  function Occurrences(w: string, phrase: Phrase): nat {
    if phrase == [] then 0
    else Occurrences(w, phrase[..|phrase| - 1]) + if phrase[|phrase| - 1] == w then 1 else 0
  }

  function Times(a: nat, b: nat): nat {
    a * b
  }

  /** Occurrences of w, each weighted by a function of the length of the phrase it stands in. */
  function WordTotal(w: string, phrases: seq<Phrase>, weight: nat -> nat): nat {
    if phrases == [] then 0
    else
      var n := |phrases| - 1;
      WordTotal(w, phrases[..n], weight) + Times(Occurrences(w, phrases[n]), weight(|phrases[n]|))
  }

  const ONE: nat -> nat := (n: nat) => 1
  const OTHERS: nat -> nat := (n: nat) => if n == 0 then 0 else n - 1
  const LENGTH: nat -> nat := (n: nat) => n

  function Frequency(w: string, phrases: seq<Phrase>): nat {
    WordTotal(w, phrases, ONE)
  }

  /** Co-occurrences with every word of the same phrase, the word itself included. */
  function Degree(w: string, phrases: seq<Phrase>): nat {
    WordTotal(w, phrases, LENGTH)
  }

  function WordScore(w: string, phrases: seq<Phrase>): real {
    if Frequency(w, phrases) == 0 then 0.0 else Degree(w, phrases) as real / Frequency(w, phrases) as real
  }

  function PhraseScore(phrase: Phrase, phrases: seq<Phrase>): real {
    if phrase == [] then 0.0
    else PhraseScore(phrase[..|phrase| - 1], phrases) + WordScore(phrase[|phrase| - 1], phrases)
  }

  // ---- Ranking ----

  function Text(phrase: Phrase): string {
    Join(phrase, " ")
  }

  /** The first candidate with each text, in order of appearance. */
  function Distinct(phrases: seq<Phrase>): seq<Phrase> {
    if phrases == [] then []
    else
      var n := |phrases| - 1;
      var before := Distinct(phrases[..n]);
      if exists i :: 0 <= i < |before| && Text(before[i]) == Text(phrases[n]) then before
      else before + [phrases[n]]
  }

  function ScoredAgainst(all: seq<Phrase>): Phrase -> Candidate {
    (p: Phrase) => Candidate(Text(p), PhraseScore(p, all))
  }

  function Scored(all: seq<Phrase>): seq<Candidate> {
    Map(ScoredAgainst(all), Distinct(all))
  }

  function HigherFirst(a: Candidate, b: Candidate): bool {
    a.score >= b.score
  }

  const BY_SCORE: (Candidate, Candidate) -> bool := (a, b) => HigherFirst(a, b)

  /** max(3, min(8, ceil(n / 3))) */
  function Limit(n: nat): nat {
    var third := (n + 2) / 3;
    var capped := if third < 8 then third else 8;
    if capped > 3 then capped else 3
  }

  function Ranked(all: seq<Phrase>): seq<Candidate> {
    Sort(Scored(all), BY_SCORE)
  }

  function Shortlist(all: seq<Phrase>): seq<Candidate> {
    if |Ranked(all)| <= Limit(|Ranked(all)|) then Ranked(all) else Ranked(all)[..Limit(|Ranked(all)|)]
  }

  function PhraseText(c: Candidate): string {
    c.phrase
  }

  const TO_PHRASE: Candidate -> string := (c: Candidate) => PhraseText(c)

  function Keywords(text: string, stop: set<string>): seq<string> {
    Map(TO_PHRASE, Shortlist(CandidatePhrases(text, stop)))
  }

  // ---- The extractor ----

  function Get(m: map<string, nat>, w: string): nat {
    if w in m then m[w] else 0
  }

  lemma GetEmpty()
    ensures forall w :: Get(map[], w) == 0
  {
  }

  class RakeExtractor {
    const stopWords: set<string>

    constructor (stop: set<string>)
      ensures stopWords == stop
    {
      stopWords := stop;
    }

    /** The inner loop: the phrases of one sentence. */
    method CandidatesIn(words: seq<string>) returns (candidates: seq<Phrase>)
      ensures candidates == NonEmpty(Chunks(Cleaned(words), stopWords))
    {
      hide Chunks, Cleaned, NonEmpty, Clean, Prepend;
      ghost var all := NonEmpty(Chunks(Cleaned(words), stopWords));
      candidates := [];
      var current: Phrase := [];
      assert words[0..] == words;
      ChunksHead(Chunks(Cleaned(words), stopWords));
      for i := 0 to |words|
        invariant all == candidates + NonEmpty(Prepend(current, Chunks(Cleaned(words[i..]), stopWords)))
      {
        var clean := Clean(words[i]);
        CleanedStep(words, i);
        ghost var rest := Cleaned(words[i + 1..]);
        assert [] + rest == rest;
        if |clean| != 0 {
          ChunksStep(current, clean, rest, stopWords);
          ghost var later := NonEmpty(Prepend([], Chunks(rest, stopWords)));
          AppendAssociates(candidates, current, later);
          if clean in stopWords {
            if |current| > 0 {
              candidates := candidates + [current];
              current := [];
            }
          } else {
            current := current + [clean];
          }
        }
      }
      ChunksEnd(current, stopWords);
      assert words[|words|..] == [];
      CleanedEnd();
      if |current| > 0 {
        candidates := candidates + [current];
      }
    }

    method CandidatesOf(sentences: seq<string>) returns (candidates: seq<Phrase>)
      ensures candidates == PhrasesOf(sentences, stopWords)
    {
      hide Chunks, Cleaned, Words, Trim, NonEmpty;
      candidates := [];
      for s := 0 to |sentences|
        invariant candidates == PhrasesOf(sentences[..s], stopWords)
      {
        assert sentences[..s + 1][..s] == sentences[..s];
        var phrases := CandidatesIn(Words(Trim(sentences[s])));
        candidates := candidates + phrases;
      }
      assert sentences[..|sentences|] == sentences;
    }

    /** The inner loop: one phrase. */
    method CountPhrase(phrase: Phrase, freq0: map<string, nat>, degree0: map<string, nat>)
      returns (freq: map<string, nat>, degree: map<string, nat>)
      requires freq0.Keys == degree0.Keys
      ensures forall w :: Get(freq, w) == Get(freq0, w) + Occurrences(w, phrase)
      ensures forall w :: Get(degree, w) == Get(degree0, w) + Times(Occurrences(w, phrase), OTHERS(|phrase|))
      ensures freq.Keys == degree.Keys == freq0.Keys + set w | w in phrase
    {
      hide Occurrences, Times;
      freq, degree := freq0, degree0;
      OccurrencesEmpty(OTHERS(|phrase|));
      assert phrase[..0] == [];
      for i := 0 to |phrase|
        invariant forall w :: Get(freq, w) == Get(freq0, w) + Occurrences(w, phrase[..i])
        invariant forall w :: Get(degree, w) == Get(degree0, w) + Times(Occurrences(w, phrase[..i]), OTHERS(|phrase|))
        invariant freq.Keys == degree.Keys == freq0.Keys + set w | w in phrase[..i]
      {
        var d := |phrase| - 1;
        OccurrencesStep(phrase, i, d);
        var word := phrase[i];
        freq := freq[word := Get(freq, word) + 1];
        degree := degree[word := Get(degree, word) + d];
      }
      assert phrase[..|phrase|] == phrase;
    }

    method CountWords(phrases: seq<Phrase>) returns (freq: map<string, nat>, degree: map<string, nat>)
      ensures forall w :: Get(freq, w) == Frequency(w, phrases)
      ensures forall w :: Get(degree, w) == Degree(w, phrases)
      ensures freq.Keys == degree.Keys == WordsIn(phrases)
    {
      hide Occurrences, WordTotal, Times, WordsIn, Frequency, Degree, Get;
      freq, degree := map[], map[];
      CountsEmpty();
      GetEmpty();
      assert phrases[..0] == [];
      for p := 0 to |phrases|
        invariant forall w :: Get(freq, w) == Frequency(w, phrases[..p])
        invariant forall w :: Get(degree, w) == WordTotal(w, phrases[..p], OTHERS)
        invariant freq.Keys == degree.Keys == WordsIn(phrases[..p])
      {
        assert phrases[..p + 1] == phrases[..p] + [phrases[p]];
        CountsSnoc(phrases[..p], phrases[p]);
        freq, degree := CountPhrase(phrases[p], freq, degree);
      }
      assert phrases[..|phrases|] == phrases;
      degree := AddFrequencies(freq, degree);
      SelfCounts(phrases);
    }

    /** The second pass, over the words in any order. */
    method AddFrequencies(freq: map<string, nat>, degree0: map<string, nat>) returns (degree: map<string, nat>)
      requires degree0.Keys == freq.Keys
      ensures degree.Keys == freq.Keys
      ensures forall w :: Get(degree, w) == Get(degree0, w) + Get(freq, w)
    {
      degree := degree0;
      var todo := freq.Keys;
      while todo != {}
        invariant todo <= freq.Keys && degree.Keys == freq.Keys
        invariant forall w :: Get(degree, w) == Get(degree0, w) + if w in todo then 0 else Get(freq, w)
        decreases |todo|
      {
        var word :| word in todo;
        degree := degree[word := Get(degree, word) + freq[word]];
        todo := todo - {word};
      }
    }

    method ScoreWords(phrases: seq<Phrase>) returns (scores: map<string, real>)
      ensures scores.Keys == WordsIn(phrases)
      ensures forall w :: w in scores ==> scores[w] == WordScore(w, phrases)
    {
      hide Frequency, Degree, WordsIn;
      var freq, degree := CountWords(phrases);
      WordsAreCounted(phrases);
      scores := map[];
      var todo := freq.Keys;
      while todo != {}
        invariant todo <= freq.Keys && scores.Keys == freq.Keys - todo
        invariant forall w :: w in scores ==> scores[w] == WordScore(w, phrases)
        decreases |todo|
      {
        var word :| word in todo;
        assert Get(freq, word) == Frequency(word, phrases) && Get(degree, word) == Degree(word, phrases);
        scores := scores[word := degree[word] as real / freq[word] as real];
        todo := todo - {word};
      }
    }

    method ScorePhrase(phrase: Phrase, wordScores: map<string, real>, ghost phrases: seq<Phrase>) returns (score: real)
      requires phrase in phrases && wordScores.Keys == WordsIn(phrases)
      requires forall w :: w in wordScores ==> wordScores[w] == WordScore(w, phrases)
      ensures score == PhraseScore(phrase, phrases)
    {
      hide WordScore, WordsIn;
      score := 0.0;
      ghost var p :| 0 <= p < |phrases| && phrases[p] == phrase;
      for i := 0 to |phrase|
        invariant score == PhraseScore(phrase[..i], phrases)
      {
        assert phrase[..i + 1][..i] == phrase[..i];
        WordsInHas(phrases, p, i);
        score := score + if phrase[i] in wordScores then wordScores[phrase[i]] else 0.0;
      }
      assert phrase[..|phrase|] == phrase;
    }

    method ScorePhrases(phrases: seq<Phrase>) returns (phraseScores: seq<Candidate>)
      ensures phraseScores == Scored(phrases)
    {
      hide Map, Join, WordScore, WordsIn;
      var wordScores := ScoreWords(phrases);
      phraseScores := [];
      var uniquePhrases: set<string> := {};
      for p := 0 to |phrases|
        invariant phraseScores == Map(ScoredAgainst(phrases), Distinct(phrases[..p]))
        invariant forall t :: t in uniquePhrases <==>
          exists i :: 0 <= i < |Distinct(phrases[..p])| && Text(Distinct(phrases[..p])[i]) == t
      {
        assert phrases[..p + 1][..p] == phrases[..p];
        var phrase := phrases[p];
        var phraseText := Join(phrase, " ");
        ghost var before := Distinct(phrases[..p]);
        if phraseText !in uniquePhrases {
          uniquePhrases := uniquePhrases + {phraseText};
          var score := ScorePhrase(phrase, wordScores, phrases);
          phraseScores := phraseScores + [Candidate(phraseText, score)];
          MapSnoc(ScoredAgainst(phrases), before, phrase);
          assert forall i :: 0 <= i < |before| ==> (before + [phrase])[i] == before[i];
          assert (before + [phrase])[|before|] == phrase;
        }
      }
      assert phrases[..|phrases|] == phrases;
    }

    method Extract(text: string) returns (keywords: seq<string>)
      ensures keywords == Keywords(text, stopWords)
    {
      hide Scored, Trim, Map, Sort, PhrasesOf;
      NoKeywords();
      if text == "" || Trim(text) == "" {
        return [];
      }
      var candidates := CandidatesOf(Sentences(ToLower(text)));
      var phraseScores := ScorePhrases(candidates);
      phraseScores := Sort(phraseScores, BY_SCORE);
      var third := (|phraseScores| + 2) / 3;
      var limit := if third < 8 then third else 8;
      if limit < 3 {
        limit := 3;
      }
      var top := if |phraseScores| <= limit then phraseScores else phraseScores[..limit];
      keywords := Map(TO_PHRASE, top);
    }
  }

  // ---- Splitting at stop words ----

  function Prepend(current: Phrase, chunks: seq<Phrase>): seq<Phrase>
    requires chunks != []
  {
    [current + chunks[0]] + chunks[1..]
  }

  lemma AppendAssociates(done: seq<Phrase>, current: Phrase, later: seq<Phrase>)
    ensures done + ([current] + later) == done + [current] + later
    ensures done + ([] + later) == done + later
  {
  }

  lemma ChunksHead(chunks: seq<Phrase>)
    requires chunks != []
    ensures Prepend([], chunks) == chunks
  {
    assert [] + chunks[0] == chunks[0];
  }

  lemma NonEmptyCons(c: Phrase, rest: seq<Phrase>)
    ensures NonEmpty([c] + rest) == (if c == [] then [] else [c]) + NonEmpty(rest)
  {
    assert ([c] + rest)[1..] == rest;
  }

  lemma ChunksStep(current: Phrase, word: string, rest: seq<string>, stop: set<string>)
    ensures NonEmpty(Prepend(current, Chunks([word] + rest, stop)))
            == if word in stop
               then (if current == [] then [] else [current]) + NonEmpty(Prepend([], Chunks(rest, stop)))
               else NonEmpty(Prepend(current + [word], Chunks(rest, stop)))
  {
    hide NonEmpty;
    assert ([word] + rest)[1..] == rest;
    var tail := Chunks(rest, stop);
    if word in stop {
      ChunksHead(tail);
      var none: Phrase := [];
      assert current + none == current && ([none] + tail)[1..] == tail;
      assert Prepend(current, [none] + tail) == [current] + tail;
      NonEmptyCons(current, tail);
    } else {
      assert current + ([word] + tail[0]) == current + [word] + tail[0];
      assert Prepend(current, [[word] + tail[0]] + tail[1..]) == Prepend(current + [word], tail);
    }
  }

  lemma ChunksEnd(current: Phrase, stop: set<string>)
    ensures NonEmpty(Prepend(current, Chunks([], stop))) == if current == [] then [] else [current]
  {
    var none: Phrase := [];
    assert current + none == current;
    assert Prepend(current, [none]) == [current] + [];
    NonEmptyCons(current, []);
  }

  lemma CleanedStep(words: seq<string>, i: nat)
    requires i < |words|
    ensures Cleaned(words[i..])
            == (if Clean(words[i]) == "" then [] else [Clean(words[i])]) + Cleaned(words[i + 1..])
  {
    assert words[i..][1..] == words[i + 1..];
  }

  lemma CleanedEnd()
    ensures Cleaned([]) == []
  {
  }

  function Flatten(phrases: seq<Phrase>): seq<string> {
    if phrases == [] then [] else phrases[0] + Flatten(phrases[1..])
  }

  function Unstopped(words: seq<string>, stop: set<string>): seq<string> {
    if words == [] then []
    else (if words[0] in stop then [] else [words[0]]) + Unstopped(words[1..], stop)
  }

  lemma FlattenCons(c: Phrase, rest: seq<Phrase>)
    ensures Flatten([c] + rest) == c + Flatten(rest)
  {
    assert ([c] + rest)[1..] == rest;
  }

  lemma {:induction false} ChunksFlatten(words: seq<string>, stop: set<string>)
    ensures Flatten(Chunks(words, stop)) == Unstopped(words, stop)
  {
    hide Flatten;
    if words == [] {
      FlattenCons([], []);
      assert Chunks(words, stop) == [[]] + [];
      assert Flatten([]) == [] by { FlattenNone(); }
    } else {
      var rest := Chunks(words[1..], stop);
      ChunksFlatten(words[1..], stop);
      FlattenCons([], rest);
      FlattenCons(rest[0], rest[1..]);
      assert rest == [rest[0]] + rest[1..];
      FlattenCons([words[0]] + rest[0], rest[1..]);
    }
  }

  lemma FlattenNone()
    ensures Flatten([]) == []
  {
  }

  /** Splitting at stop words drops the stop words and nothing else, in order. */
  lemma ChunksConserveWords(words: seq<string>, stop: set<string>)
    ensures Flatten(NonEmpty(Chunks(words, stop))) == Unstopped(words, stop)
  {
    hide Flatten, NonEmpty, Chunks, Unstopped;
    DroppedEmpties(Chunks(words, stop));
    ChunksFlatten(words, stop);
  }

  lemma {:induction false} DroppedEmpties(chunks: seq<Phrase>)
    ensures Flatten(NonEmpty(chunks)) == Flatten(chunks)
  {
    if chunks != [] {
      DroppedEmpties(chunks[1..]);
      if chunks[0] == [] {
        assert [] + NonEmpty(chunks[1..]) == NonEmpty(chunks[1..]);
        assert chunks[0] + Flatten(chunks[1..]) == Flatten(chunks[1..]);
      } else {
        assert ([chunks[0]] + NonEmpty(chunks[1..]))[1..] == NonEmpty(chunks[1..]);
      }
    }
  }

  // ---- Counting ----

  ghost function WordsIn(phrases: seq<Phrase>): set<string> {
    set p, i | 0 <= p < |phrases| && 0 <= i < |phrases[p]| :: phrases[p][i]
  }

  lemma WordsInHas(phrases: seq<Phrase>, p: nat, i: nat)
    requires p < |phrases| && i < |phrases[p]|
    ensures phrases[p][i] in WordsIn(phrases)
  {
  }

  lemma CountsEmpty()
    ensures forall w :: Frequency(w, []) == 0 && WordTotal(w, [], OTHERS) == 0
    ensures WordsIn([]) == {}
  {
  }

  lemma TimesFacts(a: nat, b: nat)
    ensures Times(a, 0) == 0 && Times(0, b) == 0 && Times(a, 1) == a
    ensures Times(a + 1, b) == Times(a, b) + b
    ensures Times(a, b + 1) == Times(a, b) + a
  {
  }

  lemma CountsSnoc(phrases: seq<Phrase>, phrase: Phrase)
    ensures forall w :: Frequency(w, phrases + [phrase]) == Frequency(w, phrases) + Occurrences(w, phrase)
    ensures forall w :: WordTotal(w, phrases + [phrase], OTHERS)
                        == WordTotal(w, phrases, OTHERS) + Times(Occurrences(w, phrase), OTHERS(|phrase|))
    ensures WordsIn(phrases + [phrase]) == WordsIn(phrases) + set w | w in phrase
  {
    hide Times, Occurrences;
    var all := phrases + [phrase];
    assert all[..|phrases|] == phrases;
    forall w
      ensures Frequency(w, all) == Frequency(w, phrases) + Occurrences(w, phrase)
    {
      TimesFacts(Occurrences(w, phrase), 1);
    }
    forall w
      ensures w in WordsIn(all) <==> w in WordsIn(phrases) || w in phrase
    {
      if w in phrase {
        assert all[|phrases|] == phrase;
      }
      if w in WordsIn(phrases) {
        var p, i :| 0 <= p < |phrases| && 0 <= i < |phrases[p]| && phrases[p][i] == w;
        assert all[p] == phrases[p];
      }
    }
  }

  lemma OccurrencesEmpty(d: nat)
    ensures forall w :: Occurrences(w, []) == 0 && Times(Occurrences(w, []), d) == 0
  {
  }

  lemma OccurrencesStep(phrase: Phrase, i: nat, d: nat)
    requires i < |phrase|
    ensures forall w :: Occurrences(w, phrase[..i + 1]) == Occurrences(w, phrase[..i]) + if w == phrase[i] then 1 else 0
    ensures forall w :: Times(Occurrences(w, phrase[..i + 1]), d)
                        == Times(Occurrences(w, phrase[..i]), d) + if w == phrase[i] then d else 0
  {
    hide Times;
    assert phrase[..i + 1][..i] == phrase[..i];
    forall w
      ensures Times(Occurrences(w, phrase[..i + 1]), d)
              == Times(Occurrences(w, phrase[..i]), d) + if w == phrase[i] then d else 0
    {
      TimesFacts(Occurrences(w, phrase[..i]), d);
    }
  }

  /** Counting a word together with the others of its phrase is counting the whole phrase. */
  lemma {:induction false} SelfCount(w: string, phrases: seq<Phrase>)
    ensures WordTotal(w, phrases, OTHERS) + Frequency(w, phrases) == Degree(w, phrases)
  {
    hide Times, Occurrences;
    if phrases != [] {
      var n := |phrases| - 1;
      SelfCount(w, phrases[..n]);
      var o, len := Occurrences(w, phrases[n]), |phrases[n]|;
      TimesFacts(o, 1);
      if len > 0 {
        TimesFacts(o, len - 1);
      } else {
        OccurrencesNone(w, phrases[n]);
        TimesFacts(0, 0);
      }
    }
  }

  lemma {:induction false} OccurrencesNone(w: string, phrase: Phrase)
    ensures Occurrences(w, phrase) > 0 <==> w in phrase
  {
    if phrase != [] {
      var n := |phrase| - 1;
      OccurrencesNone(w, phrase[..n]);
      assert phrase == phrase[..n] + [phrase[n]];
    }
  }

  lemma SelfCounts(phrases: seq<Phrase>)
    ensures forall w :: WordTotal(w, phrases, OTHERS) + Frequency(w, phrases) == Degree(w, phrases)
  {
    forall w ensures WordTotal(w, phrases, OTHERS) + Frequency(w, phrases) == Degree(w, phrases) {
      SelfCount(w, phrases);
    }
  }

  /** A word has a frequency exactly when it occurs. */
  lemma {:induction false} WordsAreCounted(phrases: seq<Phrase>)
    ensures forall w :: w in WordsIn(phrases) <==> Frequency(w, phrases) > 0
  {
    hide Occurrences, Times, WordTotal, WordsIn;
    CountsEmpty();
    if phrases != [] {
      var n := |phrases| - 1;
      WordsAreCounted(phrases[..n]);
      CountsSnoc(phrases[..n], phrases[n]);
      assert phrases == phrases[..n] + [phrases[n]];
      forall w ensures Occurrences(w, phrases[n]) > 0 <==> w in phrases[n] {
        OccurrencesNone(w, phrases[n]);
      }
    }
  }

  lemma MapSnoc<A, B>(f: A -> B, s: seq<A>, x: A)
    ensures Map(f, s + [x]) == Map(f, s) + [f(x)]
  {
  }

  lemma NoKeywords()
    ensures Trim("") == ""
    ensures Map(TO_PHRASE, Shortlist([])) == []
  {
    assert Distinct([]) == [] && Scored([]) == [] && Ranked([]) == [];
  }

  // ---- Conservation ----

  ghost function Totals(phrases: seq<Phrase>, weight: nat -> nat): string -> real {
    w => WordTotal(w, phrases, weight) as real
  }

  ghost function PhraseTotals(phrase: Phrase, c: nat): string -> real {
    w => Times(Occurrences(w, phrase), c) as real
  }

  /** Sum over the phrases of length times weight of the length. */
  function LengthTotal(phrases: seq<Phrase>, weight: nat -> nat): nat {
    if phrases == [] then 0
    else
      var n := |phrases| - 1;
      LengthTotal(phrases[..n], weight) + Times(|phrases[n]|, weight(|phrases[n]|))
  }

  lemma SumSingle(keys: set<string>, x: string, c: nat)
    requires x in keys
    ensures SumOver(keys, w => if w == x then c as real else 0.0) == c as real
  {
    var f: string -> real := w => if w == x then c as real else 0.0;
    SumRemove(keys, f, x);
    SumZero(keys - {x}, f);
  }

  lemma {:induction false} PhraseConserved(keys: set<string>, phrase: Phrase, c: nat)
    requires forall i :: 0 <= i < |phrase| ==> phrase[i] in keys
    ensures SumOver(keys, PhraseTotals(phrase, c)) == Times(|phrase|, c) as real
  {
    hide Times, SumOver;
    TimesFacts(0, c);
    if phrase == [] {
      SumZero(keys, PhraseTotals(phrase, c));
    } else {
      var n := |phrase| - 1;
      PhraseConserved(keys, phrase[..n], c);
      SumSingle(keys, phrase[n], c);
      forall w ensures Times(Occurrences(w, phrase), c)
                       == Times(Occurrences(w, phrase[..n]), c) + if w == phrase[n] then c else 0
      {
        TimesFacts(Occurrences(w, phrase[..n]), c);
      }
      SumAdd(keys, PhraseTotals(phrase[..n], c), w => if w == phrase[n] then c as real else 0.0,
             PhraseTotals(phrase, c));
      TimesFacts(n, c);
    }
  }

  lemma {:induction false} TotalsConserved(keys: set<string>, phrases: seq<Phrase>, weight: nat -> nat)
    requires WordsIn(phrases) <= keys
    ensures SumOver(keys, Totals(phrases, weight)) == LengthTotal(phrases, weight) as real
  {
    hide Times, SumOver, Occurrences;
    if phrases == [] {
      SumZero(keys, Totals(phrases, weight));
    } else {
      var n := |phrases| - 1;
      var p := phrases[n];
      forall w | w in WordsIn(phrases[..n])
        ensures w in keys
      {
        var q, i :| 0 <= q < n && 0 <= i < |phrases[..n][q]| && phrases[..n][q][i] == w;
        WordsInHas(phrases, q, i);
      }
      TotalsConserved(keys, phrases[..n], weight);
      forall i | 0 <= i < |p|
        ensures p[i] in keys
      {
        WordsInHas(phrases, n, i);
      }
      PhraseConserved(keys, p, weight(|p|));
      SumAdd(keys, Totals(phrases[..n], weight), PhraseTotals(p, weight(|p|)), Totals(phrases, weight));
    }
  }

  ghost function Frequencies(phrases: seq<Phrase>): string -> real {
    w => Frequency(w, phrases) as real
  }

  ghost function Degrees(phrases: seq<Phrase>): string -> real {
    w => Degree(w, phrases) as real
  }

  /** Over the words of the candidates, frequencies add up to the lengths and degrees to the squared lengths. */
  lemma CountsConserved(phrases: seq<Phrase>)
    ensures SumOver(WordsIn(phrases), Frequencies(phrases)) == LengthTotal(phrases, ONE) as real
    ensures SumOver(WordsIn(phrases), Degrees(phrases)) == LengthTotal(phrases, LENGTH) as real
  {
    hide WordTotal, SumOver, LengthTotal, WordsIn;
    var ws := WordsIn(phrases);
    TotalsConserved(ws, phrases, ONE);
    TotalsConserved(ws, phrases, LENGTH);
    SumMono(ws, Frequencies(phrases), Totals(phrases, ONE));
    SumMono(ws, Totals(phrases, ONE), Frequencies(phrases));
    SumMono(ws, Degrees(phrases), Totals(phrases, LENGTH));
    SumMono(ws, Totals(phrases, LENGTH), Degrees(phrases));
  }

  // ---- Word scores ----

  lemma TimesMonotone(a: nat, b: nat, c: nat)
    requires b <= c
    ensures Times(a, b) <= Times(a, c)
  {
  }

  lemma TimesAdds(a: nat, b: nat, c: nat)
    ensures Times(a + b, c) == Times(a, c) + Times(b, c)
  {
  }

  lemma {:induction false} DegreeWithin(w: string, phrases: seq<Phrase>, longest: nat)
    requires forall i :: 0 <= i < |phrases| ==> |phrases[i]| <= longest
    ensures Frequency(w, phrases) <= Degree(w, phrases) <= Times(Frequency(w, phrases), longest)
  {
    hide Times, Occurrences;
    TimesFacts(0, longest);
    if phrases != [] {
      var n := |phrases| - 1;
      DegreeWithin(w, phrases[..n], longest);
      var o, len := Occurrences(w, phrases[n]), |phrases[n]|;
      OccurrencesNone(w, phrases[n]);
      TimesFacts(o, 1);
      TimesFacts(0, len);
      if len > 0 {
        TimesMonotone(o, 1, len);
      }
      TimesMonotone(o, len, longest);
      TimesAdds(Frequency(w, phrases[..n]), o, longest);
    }
  }

  lemma QuotientWithin(d: nat, f: nat, longest: nat)
    requires 0 < f <= d <= Times(f, longest)
    ensures 1.0 <= d as real / f as real <= longest as real
  {
  }

  /** A word's score lies between 1 and the length of the longest candidate. */
  lemma WordScoreWithin(w: string, phrases: seq<Phrase>, longest: nat)
    requires w in WordsIn(phrases)
    requires forall i :: 0 <= i < |phrases| ==> |phrases[i]| <= longest
    ensures 1.0 <= WordScore(w, phrases) <= longest as real
  {
    hide Frequency, Degree, Times, WordsIn;
    WordsAreCounted(phrases);
    DegreeWithin(w, phrases, longest);
    QuotientWithin(Degree(w, phrases), Frequency(w, phrases), longest);
  }

  /** A word's score times its frequency is its degree. */
  lemma ScoreTimesFrequency(w: string, phrases: seq<Phrase>)
    ensures Frequency(w, phrases) > 0 ==>
              WordScore(w, phrases) * Frequency(w, phrases) as real == Degree(w, phrases) as real
    ensures Frequency(w, phrases) == 0 ==> WordScore(w, phrases) == 0.0
  {
    hide Frequency, Degree;
  }

  /** An occurrence is a position of the phrase. */
  lemma {:induction false} OccurrencesAre(w: string, phrase: Phrase)
    ensures Occurrences(w, phrase) == multiset(phrase)[w]
  {
    if phrase != [] {
      OccurrencesAre(w, phrase[..|phrase| - 1]);
      assert phrase == phrase[..|phrase| - 1] + [phrase[|phrase| - 1]];
    }
  }

  /** Per phrase a word gains its occurrences in frequency and as many times the phrase's length in degree. */
  lemma CountsPerPhrase(w: string, phrases: seq<Phrase>, phrase: Phrase)
    ensures Frequency(w, phrases + [phrase]) == Frequency(w, phrases) + multiset(phrase)[w]
    ensures Degree(w, phrases + [phrase]) == Degree(w, phrases) + multiset(phrase)[w] * |phrase|
    ensures Frequency(w, []) == 0 && Degree(w, []) == 0
  {
    hide Occurrences;
    OccurrencesAre(w, phrase);
    CountsSnoc(phrases, phrase);
    assert (phrases + [phrase])[..|phrases|] == phrases;
  }

  /** A phrase's score is the sum of its words' scores. */
  lemma {:induction false} PhraseScoreAdds(p: Phrase, q: Phrase, w: string, all: seq<Phrase>)
    ensures PhraseScore(p + q, all) == PhraseScore(p, all) + PhraseScore(q, all)
    ensures PhraseScore([w], all) == WordScore(w, all) && PhraseScore([], all) == 0.0
  {
    hide WordScore;
    assert [w][..0] == [];
    assert PhraseScore([w], all) == PhraseScore([], all) + WordScore(w, all);
    if q == [] {
      assert p + q == p;
    } else {
      var n := |q| - 1;
      PhraseScoreAdds(p, q[..n], w, all);
      assert (p + q)[..|p| + n] == p + q[..n];
    }
  }

  // ---- Cutting at stop words ----

  /** Words without a stop word make one run. */
  lemma {:induction false} OneRun(words: seq<string>, stop: set<string>)
    requires forall i :: 0 <= i < |words| ==> words[i] !in stop
    ensures Chunks(words, stop) == [words]
  {
    if words != [] {
      OneRun(words[1..], stop);
      assert [words[0]] + words[1..] == words;
    }
  }

  /** A stop word ends the run before it and starts the next. */
  lemma {:induction false} CutAtStop(a: seq<string>, s: string, b: seq<string>, stop: set<string>)
    requires s in stop
    ensures Chunks(a + [s] + b, stop) == Chunks(a, stop) + Chunks(b, stop)
  {
    if a == [] {
      assert (a + [s] + b)[1..] == b;
    } else {
      assert (a + [s] + b)[1..] == a[1..] + [s] + b;
      CutAtStop(a[1..], s, b, stop);
    }
  }

  lemma CleanedHead(w: string, rest: seq<string>)
    ensures Cleaned([w] + rest) == (if Clean(w) == "" then [] else [Clean(w)]) + Cleaned(rest)
  {
    hide Clean;
    assert ([w] + rest)[1..] == rest;
  }

  /** Words are cleaned one by one, and those that clean to nothing are dropped. */
  lemma {:induction false} CleanedAdds(v: seq<string>, w: string, rest: seq<string>)
    ensures Cleaned(v + [w] + rest) == Cleaned(v) + (if Clean(w) == "" then [] else [Clean(w)]) + Cleaned(rest)
  {
    hide Clean, Cleaned;
    if v == [] {
      assert v + [w] + rest == [w] + rest;
      CleanedHead(w, rest);
      assert Cleaned([]) == [] by { CleanedEnd(); }
    } else {
      CleanedAdds(v[1..], w, rest);
      assert v + [w] + rest == [v[0]] + (v[1..] + [w] + rest);
      CleanedHead(v[0], v[1..] + [w] + rest);
      assert v == [v[0]] + v[1..];
      CleanedHead(v[0], v[1..]);
    }
  }

  /** Letter case makes no difference to the keywords. */
  lemma KeywordsIgnoreCase(a: string, b: string, stop: set<string>)
    requires ToLower(a) == ToLower(b)
    ensures Keywords(a, stop) == Keywords(b, stop)
  {
    hide ToLower, Trim, PhrasesOf, Shortlist;
    BlankIff(a);
    BlankIff(b);
  }

  // ---- Cleaning, cutting and the limit ----

  lemma {:induction false} CleanAdds(v: string, w: string)
    ensures Clean(v + w) == Clean(v) + Clean(w)
  {
    if v == "" {
      assert "" + w == w;
    } else {
      assert (v + w)[1..] == v[1..] + w;
      CleanAdds(v[1..], w);
    }
  }

  /** Cleaning keeps exactly the small letters and the digits, in order. */
  lemma CleanKeeps(v: string, c: char, w: string)
    ensures Clean(v + [c] + w) == Clean(v) + (if 'a' <= c <= 'z' || '0' <= c <= '9' then [c] else "") + Clean(w)
    ensures Clean("") == ""
  {
    hide Clean;
    CleanAdds(v + [c], w);
    CleanAdds(v, [c]);
    CleanOne(c);
    CleanNothing();
  }

  lemma CleanOne(c: char)
    ensures Clean([c]) == if 'a' <= c <= 'z' || '0' <= c <= '9' then [c] else ""
  {
    assert [c][1..] == "";
  }

  lemma CleanNothing()
    ensures Clean("") == ""
  {
  }

  /** The character codes that end a sentence; letters, digits, blanks, tabs and quotes do not. */
  lemma SentenceEnds(c: char)
    ensures EndsSentence(c) <==>
            c as int in {10, 13, 33, 35, 36, 37, 38, 40, 41, 42, 44, 45, 46, 47,
                         58, 59, 61, 63, 94, 95, 96, 123, 125, 126}
    ensures IsKept(c) || 'A' <= c <= 'Z' || c in {' ', '\t', '\'', '"'} ==> !EndsSentence(c)
  {
  }

  function Concat(parts: seq<string>): string {
    if parts == [] then "" else parts[0] + Concat(parts[1..])
  }

  function WithoutEnds(text: string): string {
    if text == "" then "" else (if EndsSentence(text[0]) then "" else [text[0]]) + WithoutEnds(text[1..])
  }

  lemma ConcatCons(head: string, rest: seq<string>)
    ensures Concat([head] + rest) == head + Concat(rest)
  {
    assert ([head] + rest)[1..] == rest;
  }

  function EndCount(text: string): nat {
    if text == "" then 0 else (if EndsSentence(text[0]) then 1 else 0) + EndCount(text[1..])
  }

  lemma SentencesStep(text: string)
    requires text != ""
    ensures Sentences(text)
            == var rest := Sentences(text[1..]);
               if EndsSentence(text[0]) then [""] + rest else [[text[0]] + rest[0]] + rest[1..]
  {
    hide EndsSentence;
  }

  lemma CutStep(text: string)
    requires text != ""
    ensures Concat(Sentences(text))
            == (if EndsSentence(text[0]) then "" else [text[0]]) + Concat(Sentences(text[1..]))
    ensures |Sentences(text)| == |Sentences(text[1..])| + if EndsSentence(text[0]) then 1 else 0
  {
    hide EndsSentence, Concat, Sentences;
    SentencesStep(text);
    var rest := Sentences(text[1..]);
    if EndsSentence(text[0]) {
      ConcatCons("", rest);
    } else {
      ConcatCons(rest[0], rest[1..]);
      assert rest == [rest[0]] + rest[1..];
      ConcatCons([text[0]] + rest[0], rest[1..]);
      assert [text[0]] + rest[0] + Concat(rest[1..]) == [text[0]] + (rest[0] + Concat(rest[1..]));
    }
  }

  /** Cutting into sentences loses the ending characters only, one cut for each. */
  lemma {:induction false} SentencesConserve(text: string)
    ensures Concat(Sentences(text)) == WithoutEnds(text) && |Sentences(text)| == EndCount(text) + 1
  {
    hide EndsSentence, Concat, Sentences;
    if text == "" {
      OneEmptySentence();
    } else {
      SentencesConserve(text[1..]);
      CutStep(text);
    }
  }

  lemma OneEmptySentence()
    ensures Sentences("") == [""] && Concat([""]) == ""
  {
    ConcatCons("", []);
  }

  /** A third of the candidates, rounded up, but at least three and at most eight. */
  lemma LimitIs(n: nat)
    ensures 3 <= Limit(n) <= 8
    ensures 7 <= n <= 24 ==> 3 * Limit(n) - 3 < n <= 3 * Limit(n)
    ensures n <= 9 ==> Limit(n) == 3
    ensures n >= 22 ==> Limit(n) == 8
  {
  }

  // ---- Candidate texts ----

  predicate IsCleaned(w: string) {
    w != "" && forall i :: 0 <= i < |w| ==> IsKept(w[i])
  }

  predicate IsKeyword(w: string, stop: set<string>) {
    IsCleaned(w) && w !in stop
  }

  predicate IsCandidate(p: Phrase, stop: set<string>) {
    p != [] && forall i :: 0 <= i < |p| ==> IsKeyword(p[i], stop)
  }

  predicate AllCandidates(phrases: seq<Phrase>, stop: set<string>) {
    forall i :: 0 <= i < |phrases| ==> IsCandidate(phrases[i], stop)
  }

  lemma {:induction false} CleanedWords(words: seq<string>)
    ensures forall i :: 0 <= i < |Cleaned(words)| ==> IsCleaned(Cleaned(words)[i])
  {
    if words != [] {
      CleanedWords(words[1..]);
    }
  }

  lemma {:induction false} ChunksAreCandidates(words: seq<string>, stop: set<string>)
    requires forall i :: 0 <= i < |words| ==> IsCleaned(words[i])
    ensures forall c, i :: 0 <= c < |Chunks(words, stop)| && 0 <= i < |Chunks(words, stop)[c]| ==>
              IsKeyword(Chunks(words, stop)[c][i], stop)
  {
    if words != [] {
      ChunksAreCandidates(words[1..], stop);
    }
  }

  lemma {:induction false} NonEmptyAreCandidates(chunks: seq<Phrase>, stop: set<string>)
    requires forall c, i :: 0 <= c < |chunks| && 0 <= i < |chunks[c]| ==> IsKeyword(chunks[c][i], stop)
    ensures AllCandidates(NonEmpty(chunks), stop)
  {
    hide IsKeyword;
    if chunks != [] {
      NonEmptyAreCandidates(chunks[1..], stop);
    }
  }

  lemma {:induction false} PhrasesAreCandidates(sentences: seq<string>, stop: set<string>)
    ensures AllCandidates(PhrasesOf(sentences, stop), stop)
  {
    hide IsKeyword, Chunks, NonEmpty, Cleaned, Words, Trim;
    if sentences != [] {
      var n := |sentences| - 1;
      PhrasesAreCandidates(sentences[..n], stop);
      var words := Words(Trim(sentences[n]));
      CleanedWords(words);
      ChunksAreCandidates(Cleaned(words), stop);
      NonEmptyAreCandidates(Chunks(Cleaned(words), stop), stop);
    }
  }

  /** Candidates hold only cleaned words that are no stop words, and at least one. */
  lemma CandidatesAreClean(text: string, stop: set<string>)
    ensures AllCandidates(CandidatePhrases(text, stop), stop)
  {
    hide PhrasesOf, IsCandidate;
    PhrasesAreCandidates(Sentences(ToLower(text)), stop);
  }

  /** A candidate's text determines its words. */
  lemma TextSeparates(p: Phrase, q: Phrase, stop: set<string>)
    requires IsCandidate(p, stop) && IsCandidate(q, stop)
    ensures Text(p) == Text(q) <==> p == q
  {
    hide Join, Split;
    assert forall i :: 0 <= i < |p| ==> IsKeyword(p[i], stop);
    assert forall i :: 0 <= i < |q| ==> IsKeyword(q[i], stop);
    SplitJoin(p, ' ');
    SplitJoin(q, ' ');
  }

  // ---- The shortlist ----

  /** d holds a phrase with p's text. */
  predicate HasText(d: seq<Phrase>, p: Phrase) {
    exists i :: 0 <= i < |d| && Text(d[i]) == Text(p)
  }

  lemma HasTextSnoc(d: seq<Phrase>, q: Phrase, p: Phrase)
    ensures HasText(d + [q], p) <==> HasText(d, p) || Text(q) == Text(p)
  {
    hide Text;
    var e := d + [q];
    assert forall i :: 0 <= i < |d| ==> e[i] == d[i];
    assert e[|d|] == q;
  }

  lemma {:induction false} DistinctCovers(phrases: seq<Phrase>, p: Phrase)
    ensures HasText(Distinct(phrases), p) <==> HasText(phrases, p)
  {
    hide Text;
    if phrases != [] {
      var n := |phrases| - 1;
      var before, q := Distinct(phrases[..n]), phrases[n];
      DistinctCovers(phrases[..n], p);
      DistinctCovers(phrases[..n], q);
      assert phrases == phrases[..n] + [q];
      HasTextSnoc(phrases[..n], q, p);
      HasTextSnoc(before, q, p);
      DistinctStep(phrases);
      SameText(before, q, p);
    }
  }

  lemma SameText(d: seq<Phrase>, q: Phrase, p: Phrase)
    ensures HasText(d, q) && Text(q) == Text(p) ==> HasText(d, p)
  {
    hide Text;
  }

  lemma DistinctStep(phrases: seq<Phrase>)
    requires phrases != []
    ensures var n := |phrases| - 1;
            Distinct(phrases)
            == if HasText(Distinct(phrases[..n]), phrases[n]) then Distinct(phrases[..n])
               else Distinct(phrases[..n]) + [phrases[n]]
  {
    hide Text;
  }

  lemma {:induction false} DistinctIsFaithful(phrases: seq<Phrase>)
    ensures forall i, j :: 0 <= i < j < |Distinct(phrases)| ==> Text(Distinct(phrases)[i]) != Text(Distinct(phrases)[j])
    ensures forall i :: 0 <= i < |Distinct(phrases)| ==> Distinct(phrases)[i] in phrases
  {
    hide Text, Distinct;
    DistinctNone();
    if phrases != [] {
      DistinctIsFaithful(phrases[..|phrases| - 1]);
      DistinctStep(phrases);
    }
  }

  lemma DistinctNone()
    ensures Distinct([]) == []
  {
  }

  lemma ByScoreIsOrder()
    ensures TotalPreorder(BY_SCORE)
  {
    assert forall a, b :: BY_SCORE(a, b) == HigherFirst(a, b);
  }

  /** The ranking holds every distinct candidate once, highest score first. */
  lemma RankedIsFaithful(all: seq<Phrase>)
    ensures multiset(Ranked(all)) == multiset(Scored(all)) && |Ranked(all)| == |Distinct(all)|
    ensures Sorted(Ranked(all), BY_SCORE)
    ensures forall i, j :: 0 <= i < j < |Ranked(all)| ==> Ranked(all)[i].phrase != Ranked(all)[j].phrase
  {
    hide Sort, Map, Text, PhraseScore, Distinct;
    SortKeeps(Scored(all), BY_SCORE);
    ByScoreIsOrder();
    SortSorts(Scored(all), BY_SCORE);
    MapBag(TO_PHRASE, Scored(all), Ranked(all));
    DistinctIsFaithful(all);
    BagKeepsDistinct(Map(TO_PHRASE, Scored(all)), Map(TO_PHRASE, Ranked(all)));
    assert forall i :: 0 <= i < |Ranked(all)| ==> Map(TO_PHRASE, Ranked(all))[i] == Ranked(all)[i].phrase;
  }

  /** p's text, with p's score. */
  predicate Entry(c: Candidate, p: Phrase, all: seq<Phrase>) {
    c.phrase == Text(p) && c.score == PhraseScore(p, all)
  }

  /** Candidates of one score stand in the order in which they first appear in the text. */
  lemma EqualScoresKeepOrder(all: seq<Phrase>, c: Candidate)
    ensures Ties(Ranked(all), c, BY_SCORE) == Ties(Scored(all), c, BY_SCORE)
    ensures forall d: Candidate :: Tie(c, d, BY_SCORE) <==> c.score == d.score
  {
    hide Sort, Scored;
    ByScoreIsOrder();
    SortKeepsTies(Scored(all), c, BY_SCORE);
    assert forall d: Candidate :: BY_SCORE(c, d) == HigherFirst(c, d) && BY_SCORE(d, c) == HigherFirst(d, c);
  }

  lemma ScoredEntry(all: seq<Phrase>, c: Candidate) returns (p: Phrase)
    requires c in Scored(all)
    ensures p in all && Entry(c, p, all)
  {
    hide Text, PhraseScore, Distinct;
    DistinctIsFaithful(all);
    var i :| 0 <= i < |Scored(all)| && Scored(all)[i] == c;
    p := Distinct(all)[i];
  }

  predicate TextOfCandidate(all: seq<Phrase>, keyword: string) {
    exists k :: 0 <= k < |all| && Text(all[k]) == keyword
  }

  /** The shortlist's size, freedom from duplicates and origin. */
  lemma KeywordsAreDistinctCandidates(text: string, stop: set<string>)
    ensures var n := |Distinct(CandidatePhrases(text, stop))|;
            |Keywords(text, stop)| == (if n <= Limit(n) then n else Limit(n)) && |Keywords(text, stop)| <= 8
    ensures forall i, j :: 0 <= i < j < |Keywords(text, stop)| ==> Keywords(text, stop)[i] != Keywords(text, stop)[j]
    ensures forall i :: 0 <= i < |Keywords(text, stop)| ==>
              TextOfCandidate(CandidatePhrases(text, stop), Keywords(text, stop)[i])
  {
    hide Ranked, Distinct, CandidatePhrases, Scored, Text;
    var all := CandidatePhrases(text, stop);
    RankedIsFaithful(all);
    forall i | 0 <= i < |Keywords(text, stop)|
      ensures TextOfCandidate(all, Keywords(text, stop)[i])
    {
      var c := Ranked(all)[i];
      assert c in multiset(Ranked(all));
      var p := ScoredEntry(all, c);
      var k :| 0 <= k < |all| && all[k] == p;
      assert Text(all[k]) == Keywords(text, stop)[i];
    }
  }

  lemma EntryIsScored(all: seq<Phrase>, stop: set<string>, p: Phrase)
    requires AllCandidates(all, stop) && p in all
    ensures Candidate(Text(p), PhraseScore(p, all)) in Scored(all)
  {
    hide Text, PhraseScore, Distinct, IsCandidate;
    DistinctIsFaithful(all);
    DistinctCovers(all, p);
    var k :| 0 <= k < |all| && all[k] == p;
    assert HasText(all, p);
    var i :| 0 <= i < |Distinct(all)| && Text(Distinct(all)[i]) == Text(p);
    TextSeparates(Distinct(all)[i], p, stop);
    assert Scored(all)[i] == Candidate(Text(p), PhraseScore(p, all));
  }

  /** Keyword i is the text of a candidate that scores at least as high as p. */
  predicate Outranks(all: seq<Phrase>, keyword: string, p: Phrase) {
    exists k :: 0 <= k < |all| && Text(all[k]) == keyword && PhraseScore(all[k], all) >= PhraseScore(p, all)
  }

  /** No candidate left out scores above a keyword that was returned. */
  lemma KeywordsOutrankTheRest(text: string, stop: set<string>, p: Phrase, i: nat)
    requires p in CandidatePhrases(text, stop) && Text(p) !in Keywords(text, stop)
    requires i < |Keywords(text, stop)|
    ensures Outranks(CandidatePhrases(text, stop), Keywords(text, stop)[i], p)
  {
    hide Text, PhraseScore, Ranked, Scored, CandidatePhrases, AllCandidates, Distinct;
    var all := CandidatePhrases(text, stop);
    CandidatesAreClean(text, stop);
    RankedIsFaithful(all);
    EntryIsScored(all, stop, p);
    var c, ranked := Candidate(Text(p), PhraseScore(p, all)), Ranked(all);
    assert c in multiset(ranked);
    var j :| 0 <= j < |ranked| && ranked[j] == c;
    var keywords := Keywords(text, stop);
    assert forall k :: 0 <= k < |keywords| ==> keywords[k] == ranked[k].phrase && keywords[k] in keywords;
    assert |keywords| <= j;
    assert BY_SCORE(ranked[i], ranked[j]);
    assert ranked[i] in multiset(ranked);
    var q := ScoredEntry(all, ranked[i]);
    var k :| 0 <= k < |all| && all[k] == q;
    assert Text(all[k]) == Keywords(text, stop)[i];
  }
}

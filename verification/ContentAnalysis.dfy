/** The content analyst as a whole: which articles it takes into account, their
  * cleaned words, their scores against each other, and its answers.
  *
  * Converting a text, cutting it into words and the weight of a word (a
  * logarithm of its document frequency) are given functions.
  */
module ContentAnalysis {
  import opened Wrappers
  import opened Utf8
  import opened Wire
  import opened Messages
  import opened Sanitizer
  import opened TermCounts
  import opened Recommendation

  /** The name of the one board that is analysed. */
  const BOARD: Bytes := [71, 111, 115, 115, 105, 112, 105, 110, 103]

  const K := 1.5
  const B := 0.75

  datatype Tools = Tools(convert: string -> string, cut: string -> seq<Word>, weight: (nat, nat) -> real)

  /** Nothing is cut out of an empty text. */
  predicate ValidTools(t: Tools) {
    t.cut("") == []
  }

  /** The difference of two 32-bit counters as a signed 32-bit number. */
  function Difference(good: U32, woo: U32): I32 {
    var d := (good - woo) % 0x1_0000_0000;
    if d >= 0x8000_0000 then d - 0x1_0000_0000 else d
  }

  /** An article is taken into account when its score is positive. */
  predicate InAccount(m: DocMetaData) {
    Difference(m.good, m.woo) > 0
  }

  /** That is more good replies than bad ones, unless they differ by 2^31 or more. */
  lemma InAccountIff(m: DocMetaData)
    ensures InAccount(m) <==> (m.woo < m.good < m.woo + 0x8000_0000) || m.good < m.woo - 0x8000_0000
  {
  }

  // ----- Reading the articles -----

  /** The text of an article that is cut into words. */
  function Prepared(t: Tools, m: DocMetaData, text: string): Option<string> {
    if InAccount(m) then Some(t.convert(Sanitize(text))) else None
  }

  function FileOf(t: Tools, m: DocMetaData, text: string): Option<seq<Word>> {
    match Prepared(t, m, text)
    case None => None
    case Some(s) => Some(t.cut(s))
  }

  function LengthOf(t: Tools, m: DocMetaData, text: string): nat {
    match Prepared(t, m, text)
    case None => 0
    case Some(s) => |s|
  }

  /** What the first loop collects about each article. */
  ghost predicate Read(
    t: Tools, metas: seq<DocMetaData>, texts: seq<string>, n: nat, corpus: Corpus, docLen: seq<nat>, calculated: seq<bool>)
    requires n <= |metas| == |texts|
  {
    && |corpus| == |docLen| == |calculated| == n
    && forall id :: 0 <= id < n ==>
         (corpus[id] == FileOf(t, metas[id], texts[id]) &&
          docLen[id] == LengthOf(t, metas[id], texts[id]) &&
          calculated[id] == InAccount(metas[id]))
  }

  function Sum(a: seq<nat>): nat {
    if a == [] then 0 else Sum(a[..|a| - 1]) + a[|a| - 1]
  }

  function NumTrue(a: seq<bool>): nat {
    if a == [] then 0 else NumTrue(a[..|a| - 1]) + if a[|a| - 1] then 1 else 0
  }

  lemma {:induction false} SomeTrue(a: seq<bool>)
    ensures NumTrue(a) > 0 <==> exists l :: 0 <= l < |a| && a[l]
  {
    if a != [] {
      SomeTrue(a[..|a| - 1]);
    }
  }

  lemma ReadNext(
    t: Tools, metas: seq<DocMetaData>, texts: seq<string>, n: nat, corpus: Corpus, docLen: seq<nat>, calculated: seq<bool>)
    requires n < |metas| == |texts| && Read(t, metas, texts, n, corpus, docLen, calculated)
    ensures var m, text := metas[n], texts[n];
            Read(t, metas, texts, n + 1, corpus + [FileOf(t, m, text)], docLen + [LengthOf(t, m, text)], calculated + [InAccount(m)])
    ensures NumTrue(calculated + [InAccount(metas[n])]) == NumTrue(calculated) + if InAccount(metas[n]) then 1 else 0
  {
    hide FileOf, LengthOf, InAccount;
    assert (calculated + [InAccount(metas[n])])[..n] == calculated;
  }

  method ReadAll(t: Tools, metas: seq<DocMetaData>, texts: seq<string>)
    returns (corpus: Corpus, docLen: seq<nat>, calculated: seq<bool>, calculatedNum: nat)
    requires |metas| == |texts|
    ensures Read(t, metas, texts, |metas|, corpus, docLen, calculated)
    ensures calculatedNum == NumTrue(calculated) && |corpus| == |docLen| == |calculated| == |metas|
    ensures forall id :: 0 <= id < |metas| ==>
              var text := t.convert(Sanitize(texts[id]));
              if Difference(metas[id].good, metas[id].woo) > 0
              then calculated[id] && corpus[id] == Some(t.cut(text)) && docLen[id] == |text|
              else !calculated[id] && corpus[id] == None && docLen[id] == 0
  {
    corpus, docLen, calculated, calculatedNum := [], [], [], 0;
    for id := 0 to |metas|
      invariant Read(t, metas, texts, id, corpus, docLen, calculated)
      invariant calculatedNum == NumTrue(calculated)
    {
      hide Read, NumTrue;
      ghost var was, wasLen, wasCalculated := corpus, docLen, calculated;
      if InAccount(metas[id]) {
        var content := SanitizedCopy(texts[id]);
        content := t.convert(content);
        corpus, docLen, calculated := corpus + [Some(t.cut(content))], docLen + [|content|], calculated + [true];
        calculatedNum := calculatedNum + 1;
      } else {
        corpus, docLen, calculated := corpus + [None], docLen + [0], calculated + [false];
      }
      ReadNext(t, metas, texts, id, was, wasLen, wasCalculated);
    }
  }

  method SanitizedCopy(text: string) returns (content: string)
    ensures content == Sanitize(text)
  {
    var s := new char[|text|](i requires 0 <= i < |text| => text[i]);
    assert s[..] == text;
    var newSize := SanitizeContent(s);
    content := s[..newSize];
  }

  /** When some word is left to score by, some article has a text. */
  lemma {:induction false} WordsNeedText(
    t: Tools, metas: seq<DocMetaData>, texts: seq<string>, n: nat, corpus: Corpus, docLen: seq<nat>, calculated: seq<bool>, w: Word)
    requires n <= |metas| == |texts| && Read(t, metas, texts, n, corpus, docLen, calculated) && ValidTools(t)
    requires Total(corpus, w) > 0
    ensures Sum(docLen) > 0
    decreases n
  {
    if n > 0 && Occurrences(corpus[n - 1], w) == 0 {
      WordsNeedText(t, metas, texts, n - 1, corpus[..n - 1], docLen[..n - 1], calculated[..n - 1], w);
    } else if n > 0 {
      assert docLen[n - 1] > 0;
    }
  }

  // ----- Scores -----

  lemma PositiveNorm(len: nat, avg: real)
    requires avg > 0.0
    ensures 1.0 - B + B * len as real / avg > 0.0
  {
    assert B * len as real / avg >= 0.0;
  }

  /** What one word that occurs fw times in an article of the given length adds to its score. */
  function Part(idf: real, fw: nat, len: nat, avg: real): real
    requires avg > 0.0
  {
    PositiveNorm(len, avg);
    idf * (fw as real * (K + 1.0)) / (fw as real + K * (1.0 - B + B * len as real / avg))
  }

  lemma AbsentAddsNothing(idf: real, len: nat, avg: real)
    requires avg > 0.0
    ensures Part(idf, 0, len, avg) == 0.0
  {
    PositiveNorm(len, avg);
    assert idf * (0 as real * (K + 1.0)) == 0.0;
  }

  /** A word that does not occur adds nothing; of a word that counts, more occurrences add more. */
  lemma PartGrows(idf: real, fw: nat, more: nat, len: nat, avg: real)
    requires avg > 0.0 && fw < more && idf > 0.0
    ensures Part(idf, 0, len, avg) == 0.0
    ensures Part(idf, fw, len, avg) < Part(idf, more, len, avg)
  {
    PositiveNorm(len, avg);
    var c := K * (1.0 - B + B * len as real / avg);
    FractionGrows(idf * (K + 1.0), fw as real, more as real, c);
    assert idf * (fw as real * (K + 1.0)) == (idf * (K + 1.0)) * fw as real;
    assert idf * (more as real * (K + 1.0)) == (idf * (K + 1.0)) * more as real;
  }

  /** Of the same number of occurrences, those in the shorter article add more. */
  lemma PartShrinks(idf: real, fw: nat, len: nat, longer: nat, avg: real)
    requires avg > 0.0 && 0 < fw && idf > 0.0 && len < longer
    ensures Part(idf, fw, longer, avg) < Part(idf, fw, len, avg)
  {
    PositiveNorm(len, avg);
    PositiveNorm(longer, avg);
    LongerIsMore(len, longer, avg);
    var c, d := 1.0 - B + B * len as real / avg, 1.0 - B + B * longer as real / avg;
    Positive(fw as real, K + 1.0);
    Positive(idf, fw as real * (K + 1.0));
    SmallerQuotient(idf * (fw as real * (K + 1.0)), fw as real + K * c, fw as real + K * d);
  }

  lemma LongerIsMore(len: nat, longer: nat, avg: real)
    requires avg > 0.0 && len < longer
    ensures B * len as real / avg < B * longer as real / avg
  {
    CrossLess(B * len as real, avg, B * longer as real, avg) by {
      Positive(B * (longer - len) as real, avg);
    }
  }

  lemma SmallerQuotient(n: real, d: real, e: real)
    requires n > 0.0 && 0.0 < d < e
    ensures n / e < n / d
  {
    Positive(n, e - d);
    CrossLess(n, e, n, d);
  }

  lemma FractionGrows(a: real, x: real, y: real, c: real)
    requires a > 0.0 && 0.0 <= x < y && c > 0.0
    ensures a * x / (x + c) < a * y / (y + c)
  {
    Positive(a * c, y - x);
    assert a * y * (x + c) - a * x * (y + c) == (a * c) * (y - x);
    CrossLess(a * x, x + c, a * y, y + c);
  }

  lemma Positive(u: real, v: real)
    requires u > 0.0 && v > 0.0
    ensures u * v > 0.0
  {
  }

  lemma CrossLess(m: real, d: real, n: real, e: real)
    requires d > 0.0 && e > 0.0 && m * e < n * d
    ensures m / d < n / e
  {
    var p, q := m / d, n / e;
    assert m * e == p * (d * e) by {
      assert p * d == m;
    }
    assert n * d == q * (d * e) by {
      assert q * e == n;
    }
    Positive(d, e);
    if p > q {
      Positive(p - q, d * e);
    }
  }

  /** All that the analyst has worked out about its articles. */
  datatype Study = Study(
    metas: seq<DocMetaData>, texts: seq<string>, corpus: Corpus, docLen: seq<nat>, calculated: seq<bool>,
    words: map<Word, nat>, counts: seq<nat>, idf: seq<nat>, fileWord: Table, weights: seq<real>, avg: real)

  ghost predicate Shaped(s: Study) {
    && |s.fileWord| == |s.docLen| == |s.calculated| == |s.metas| && |s.weights| == |s.idf|
    && Rectangular(s.fileWord, |s.idf|)
    && (|s.idf| > 0 ==> s.avg > 0.0)
  }

  /** The words of the first n columns that occur in article l score article j. */
  function Score(s: Study, l: nat, j: nat, n: nat): real
    requires Shaped(s) && l < |s.metas| && j < |s.metas| && n <= |s.idf|
  {
    if n == 0 then 0.0
    else Score(s, l, j, n - 1) +
         if s.fileWord[l][n - 1] > 0 then Part(s.weights[n - 1], s.fileWord[j][n - 1], s.docLen[j], s.avg) else 0.0
  }

  /** The scores against article l; it has none itself. */
  function Scores(s: Study, l: nat): (r: seq<real>)
    requires Shaped(s) && l < |s.metas|
    ensures |r| == |s.metas|
  {
    seq(|s.metas|, j requires 0 <= j < |s.metas| => if j == l then 0.0 else Score(s, l, j, |s.idf|))
  }

  // ----- What the scores mean -----

  /** Some word of article l occurs in article j. */
  ghost predicate HasWordOf(s: Study, l: nat, j: nat)
    requires Shaped(s) && l < |s.metas| && j < |s.metas|
  {
    exists c :: 0 <= c < |s.idf| && s.fileWord[l][c] > 0 && s.fileWord[j][c] > 0
  }

  /** Of two other articles with the same counts, some of them of words of article l, the shorter one has strictly
    * the higher score, when these words have positive weights. */
  ghost predicate ShorterScoreHigher(s: Study, l: nat, score: seq<real>)
    requires Shaped(s) && l < |s.metas| == |score|
  {
    (forall c :: 0 <= c < |s.idf| && s.fileWord[l][c] > 0 ==> s.weights[c] > 0.0) ==>
      forall i, j :: 0 <= i < |score| && 0 <= j < |score| && i != l && j != l
                     && s.fileWord[i] == s.fileWord[j] && s.docLen[i] < s.docLen[j] && HasWordOf(s, l, i) ==>
                       score[i] > score[j]
  }

  /** The counts of two articles differ in column c only, where article j has more. */
  ghost predicate MoreInColumn(s: Study, i: nat, j: nat, c: nat)
    requires Shaped(s) && i < |s.metas| && j < |s.metas| && c < |s.idf|
  {
    s.fileWord[i][c] < s.fileWord[j][c] && forall d :: 0 <= d < |s.idf| && d != c ==> s.fileWord[i][d] == s.fileWord[j][d]
  }

  /** Of two other articles of one length whose counts differ in one word of article l, of positive weight, the one
    * with more of it has strictly the higher score. */
  ghost predicate MoreScoreHigher(s: Study, l: nat, score: seq<real>)
    requires Shaped(s) && l < |s.metas| == |score|
  {
    forall i, j, c :: 0 <= i < |score| && 0 <= j < |score| && i != l && j != l && 0 <= c < |s.idf|
                      && s.fileWord[l][c] > 0 && s.weights[c] > 0.0 && s.docLen[i] == s.docLen[j] && MoreInColumn(s, i, j, c) ==>
                        score[i] < score[j]
  }

  /** With one selected word, which article l has, the score of another article by its count of the word and its
    * length; of one of average length it is weight * fw * 2.5 / (fw + 1.5). */
  ghost predicate OneWordScores(s: Study, l: nat, score: seq<real>)
    requires Shaped(s) && l < |s.metas| == |score|
  {
    |s.idf| == 1 && s.fileWord[l][0] > 0 ==>
      forall j :: 0 <= j < |score| && j != l ==>
        var w, fw, len := s.weights[0], s.fileWord[j][0] as real, s.docLen[j] as real;
        && fw + 1.5 * (0.25 + 0.75 * len / s.avg) > 0.0
        && score[j] == w * (fw * 2.5) / (fw + 1.5 * (0.25 + 0.75 * len / s.avg))
        && (len == s.avg ==> score[j] == w * (fw * 2.5) / (fw + 1.5))
  }

  lemma {:induction false} ShorterPartialScore(s: Study, l: nat, i: nat, j: nat, n: nat)
    requires Shaped(s) && l < |s.metas| && i < |s.metas| && j < |s.metas| && n <= |s.idf|
    requires forall c :: 0 <= c < |s.idf| && s.fileWord[l][c] > 0 ==> s.weights[c] > 0.0
    requires s.fileWord[i] == s.fileWord[j] && s.docLen[i] < s.docLen[j]
    ensures Score(s, l, i, n) >= Score(s, l, j, n)
    ensures (exists c :: 0 <= c < n && s.fileWord[l][c] > 0 && s.fileWord[i][c] > 0) ==> Score(s, l, i, n) > Score(s, l, j, n)
  {
    if n > 0 {
      ShorterPartialScore(s, l, i, j, n - 1);
      var w, fw := s.weights[n - 1], s.fileWord[i][n - 1];
      if s.fileWord[l][n - 1] > 0 {
        if fw > 0 {
          PartShrinks(w, fw, s.docLen[i], s.docLen[j], s.avg);
        } else {
          AbsentAddsNothing(w, s.docLen[i], s.avg);
          AbsentAddsNothing(w, s.docLen[j], s.avg);
        }
      }
      hide Part;
    }
  }

  lemma {:induction false} MorePartialScore(s: Study, l: nat, i: nat, j: nat, c: nat, n: nat)
    requires Shaped(s) && l < |s.metas| && i < |s.metas| && j < |s.metas| && n <= |s.idf| && c < |s.idf|
    requires s.fileWord[l][c] > 0 && s.weights[c] > 0.0 && s.docLen[i] == s.docLen[j] && MoreInColumn(s, i, j, c)
    ensures if c < n then Score(s, l, i, n) < Score(s, l, j, n) else Score(s, l, i, n) == Score(s, l, j, n)
  {
    if n > 0 {
      MorePartialScore(s, l, i, j, c, n - 1);
      if n - 1 == c {
        PartGrows(s.weights[c], s.fileWord[i][c], s.fileWord[j][c], s.docLen[i], s.avg);
      }
      hide Part;
    }
  }

  lemma ScoresMean(s: Study, l: nat, score: seq<real>)
    requires Shaped(s) && l < |s.metas| && score == Scores(s, l)
    ensures ShorterScoreHigher(s, l, score) && MoreScoreHigher(s, l, score)
  {
    hide Score, MoreInColumn;
    if forall c :: 0 <= c < |s.idf| && s.fileWord[l][c] > 0 ==> s.weights[c] > 0.0 {
      forall i, j | 0 <= i < |score| && 0 <= j < |score| && i != l && j != l
                    && s.fileWord[i] == s.fileWord[j] && s.docLen[i] < s.docLen[j] && HasWordOf(s, l, i)
        ensures score[i] > score[j]
      {
        ShorterPartialScore(s, l, i, j, |s.idf|);
      }
    }
    forall i, j, c | 0 <= i < |score| && 0 <= j < |score| && i != l && j != l && 0 <= c < |s.idf|
                     && s.fileWord[l][c] > 0 && s.weights[c] > 0.0 && s.docLen[i] == s.docLen[j] && MoreInColumn(s, i, j, c)
      ensures score[i] < score[j]
    {
      MorePartialScore(s, l, i, j, c, |s.idf|);
    }
  }

  lemma OneWordMeans(s: Study, l: nat, score: seq<real>)
    requires Shaped(s) && l < |s.metas| && score == Scores(s, l)
    ensures OneWordScores(s, l, score)
  {
    if |s.idf| == 1 && s.fileWord[l][0] > 0 {
      forall j | 0 <= j < |score| && j != l
        ensures var w, fw, len := s.weights[0], s.fileWord[j][0] as real, s.docLen[j] as real;
                && fw + 1.5 * (0.25 + 0.75 * len / s.avg) > 0.0
                && score[j] == w * (fw * 2.5) / (fw + 1.5 * (0.25 + 0.75 * len / s.avg))
                && (len == s.avg ==> score[j] == w * (fw * 2.5) / (fw + 1.5))
      {
        PositiveNorm(s.docLen[j], s.avg);
        assert Score(s, l, j, 1) == Score(s, l, j, 0) + Part(s.weights[0], s.fileWord[j][0], s.docLen[j], s.avg);
        if s.docLen[j] as real == s.avg {
          OwnLength(s.avg);
        }
      }
    }
  }

  lemma OwnLength(avg: real)
    requires avg > 0.0
    ensures 0.75 * avg / avg == 0.75
  {
  }

  method ScoreAgainst(s: Study, l: nat) returns (score: seq<real>)
    requires Shaped(s) && l < |s.metas|
    ensures score == Scores(s, l)
    ensures ShorterScoreHigher(s, l, score) && MoreScoreHigher(s, l, score) && OneWordScores(s, l, score)
  {
    hide ShorterScoreHigher, MoreScoreHigher, OneWordScores;
    score := seq(|s.metas|, j => 0.0);
    for i := 0 to |s.idf|
      invariant |score| == |s.metas|
      invariant forall j :: 0 <= j < |score| ==> score[j] == if j == l then 0.0 else Score(s, l, j, i)
    {
      if s.fileWord[l][i] > 0 {
        for j := 0 to |s.metas|
          invariant |score| == |s.metas|
          invariant forall k :: 0 <= k < |score| ==>
                      score[k] == if k == l then 0.0 else Score(s, l, k, if k < j then i + 1 else i)
        {
          if j == l {
            continue;
          }
          score := score[j := score[j] + Part(s.weights[i], s.fileWord[j][i], s.docLen[j], s.avg)];
        }
      }
    }
    ScoresMean(s, l, score);
    OneWordMeans(s, l, score);
  }

  /** What the study's parts are to each other. */
  ghost predicate Studied(t: Tools, s: Study) {
    && |s.metas| == |s.texts| && Read(t, s.metas, s.texts, |s.metas|, s.corpus, s.docLen, s.calculated)
    && Selected(s.corpus, s.words, s.counts, s.idf)
    && Shaped(s) && RowsCount(s.corpus, s.words, s.fileWord, |s.idf|)
    && (forall i :: 0 <= i < |s.idf| ==> s.weights[i] == t.weight(NumTrue(s.calculated), s.idf[i]))
    && (NumTrue(s.calculated) > 0 ==> s.avg == Sum(s.docLen) as real / NumTrue(s.calculated) as real)
  }

  /** The marked positions are counted. */
  lemma {:induction false} MarkedCounted(a: seq<bool>)
    ensures NumTrue(a) == |Marked(a)|
    decreases |a|
  {
    if a != [] {
      var init := a[..|a| - 1];
      MarkedCounted(init);
      assert Marked(a) == Marked(init) + if a[|a| - 1] then {|a| - 1} else {};
    }
  }

  ghost function Marked(a: seq<bool>): set<nat> {
    set l: nat | l < |a| && a[l]
  }

  lemma {:induction false} EqualLengthsAddUp(
    t: Tools, metas: seq<DocMetaData>, texts: seq<string>, n: nat, corpus: Corpus, docLen: seq<nat>, calculated: seq<bool>, d: nat)
    requires n <= |metas| == |texts| && Read(t, metas, texts, n, corpus, docLen, calculated)
    requires forall l :: 0 <= l < n && calculated[l] ==> docLen[l] == d
    ensures Sum(docLen) == d * NumTrue(calculated)
    decreases n
  {
    if n > 0 {
      EqualLengthsAddUp(t, metas, texts, n - 1, corpus[..n - 1], docLen[..n - 1], calculated[..n - 1], d);
      assert docLen[n - 1] == if calculated[n - 1] then d else 0;
      Distribute(d, NumTrue(calculated[..n - 1]));
    }
  }

  lemma Distribute(d: nat, n: nat)
    ensures d * (n + 1) == d * n + d
  {
  }

  /** When all articles in the account are of one length, that is the average; others do not matter. */
  lemma EqualLengthsAverage(t: Tools, s: Study, d: nat)
    requires Studied(t, s) && Marked(s.calculated) != {}
    requires forall l :: 0 <= l < |s.metas| && InAccount(s.metas[l]) ==> s.docLen[l] == d
    ensures s.avg == d as real
  {
    MarkedCounted(s.calculated);
    AccountIsMarked(t, s);
    hide *;
    EqualLengthsAddUp(t, s.metas, s.texts, |s.metas|, s.corpus, s.docLen, s.calculated, d);
    AverageIs(s.avg, Sum(s.docLen), NumTrue(s.calculated), d);
  }

  lemma AccountIsMarked(t: Tools, s: Study)
    requires Studied(t, s)
    ensures |s.metas| == |s.texts| && Read(t, s.metas, s.texts, |s.metas|, s.corpus, s.docLen, s.calculated)
    ensures |s.calculated| == |s.docLen| == |s.metas|
    ensures forall l :: 0 <= l < |s.metas| ==> s.calculated[l] == InAccount(s.metas[l])
    ensures NumTrue(s.calculated) > 0 ==> s.avg == Sum(s.docLen) as real / NumTrue(s.calculated) as real
  {
    hide FileOf, LengthOf, InAccount, Selected, RowsCount, Rectangular, NumTrue, Sum;
  }

  lemma AverageIs(avg: real, sum: nat, n: nat, d: nat)
    requires n > 0 && avg == sum as real / n as real && sum == d * n
    ensures avg == d as real
  {
    assert sum as real == d as real * n as real;
    QuotientOf(d as real, n as real);
  }

  lemma QuotientOf(d: real, n: real)
    requires n > 0.0
    ensures d * n / n == d
  {
  }

  /** The selected word occurs in both articles. */
  ghost predicate Shares(s: Study, l: nat, j: nat, w: Word)
    requires |s.corpus| == |s.metas| && l < |s.metas| && j < |s.metas|
  {
    w in s.words && Occurrences(s.corpus[l], w) > 0 && Occurrences(s.corpus[j], w) > 0
  }

  /** An article that shares no selected word with another one has no score against it. */
  lemma NothingSharedNoScore(t: Tools, s: Study, l: nat, j: nat)
    requires Studied(t, s) && l < |s.metas| && j < |s.metas|
    requires forall w :: !Shares(s, l, j, w)
    ensures Scores(s, l)[j] == 0.0
  {
    forall i | 0 <= i < |s.idf| ensures s.fileWord[l][i] == 0 || s.fileWord[j][i] == 0 {
      assert Taken(s.words, i);
      var w :| w in s.words && s.words[w] == i;
      assert RowCounts(s.corpus[l], s.words, s.fileWord[l], |s.idf|) && RowCounts(s.corpus[j], s.words, s.fileWord[j], |s.idf|);
      assert !Shares(s, l, j, w);
    }
    NoColumnNoScore(s, l, j, |s.idf|);
  }

  lemma {:induction false} NoColumnNoScore(s: Study, l: nat, j: nat, n: nat)
    requires Shaped(s) && l < |s.metas| && j < |s.metas| && n <= |s.idf|
    requires forall i :: 0 <= i < n ==> s.fileWord[l][i] == 0 || s.fileWord[j][i] == 0
    ensures Score(s, l, j, n) == 0.0
  {
    if n > 0 {
      NoColumnNoScore(s, l, j, n - 1);
      AbsentAddsNothing(s.weights[n - 1], s.docLen[j], s.avg);
    }
  }

  // ----- Answers -----

  /** The identity is that of an article taken into account. */
  ghost predicate AnswersFor(metas: seq<DocMetaData>, id: DocIdentity) {
    id.board == BOARD && exists l :: 0 <= l < |metas| && metas[l].id == id.id && InAccount(metas[l])
  }

  ghost predicate Identities(metas: seq<DocMetaData>, best: seq<nat>, docs: seq<DocIdentity>) {
    && |docs| == |best|
    && forall k :: 0 <= k < |best| ==> best[k] < |metas| && docs[k] == DocIdentity(BOARD, metas[best[k]].id)
  }

  ghost predicate Recommended(s: Study, l: nat, best: seq<nat>)
    requires Shaped(s) && l < |s.metas|
  {
    if s.calculated[l] then Best(EarlierFirst, Scores(s, l), l, |s.metas|, best) else best == []
  }

  ghost predicate Consecutive(metas: seq<DocMetaData>) {
    forall l :: 0 <= l < |metas| ==> metas[l].id == metas[0].id + l
  }

  class ContentAnalyst {
    const tools: Tools
    var idBase: I32
    var fileCalculated: seq<bool>
    var recommendedFile: seq<seq<nat>>
    ghost var study: Study

    /** Each article taken into account has its best articles, any other has none. */
    ghost predicate Valid()
      reads this
    {
      && Studied(tools, study) && study.metas != [] && Consecutive(study.metas)
      && idBase == study.metas[0].id && fileCalculated == study.calculated
      && |recommendedFile| == |study.metas|
      && forall l :: 0 <= l < |study.metas| ==> Recommended(study, l, recommendedFile[l])
    }

    /** Runs the whole analysis. */
    constructor (tools: Tools, metas: seq<DocMetaData>, texts: seq<string>)
      requires metas != [] && Consecutive(metas) && |metas| == |texts| && ValidTools(tools)
      ensures Valid() && this.tools == tools && study.metas == metas && study.texts == texts
    {
      this.tools, idBase, fileCalculated, recommendedFile := tools, metas[0].id, [], [];
      new;
      var s := RunStudy(tools, metas, texts);
      study, fileCalculated := s, s.calculated;
      recommendedFile := RecommendAll(s);
    }

    /** The best articles for an article under its id, or none for an article outside the account. */
    method GetDocRelInfo(id: DocIdentity) returns (r: DocRelInfo)
      requires Valid()
      ensures r.posRelDocs == r.negRelDocs == r.neutralRelDocs
      ensures !AnswersFor(study.metas, id) ==> r.posRelDocs == []
      ensures AnswersFor(study.metas, id) ==>
                exists l, best ::
                  0 <= l < |study.metas| && study.metas[l].id == id.id &&
                  Best(EarlierFirst, Scores(study, l), l, |study.metas|, best) &&
                  Identities(study.metas, best, r.posRelDocs)
    {
      hide Scores, Selected, RowsCount, Rectangular, ColumnMax;
      var relevant: seq<DocIdentity> := [];
      var idx := id.id - idBase;
      if id.board == BOARD && 0 <= idx < |fileCalculated| && fileCalculated[idx] {
        ghost var best := recommendedFile[idx];
        assert Recommended(study, idx, best);
        for i := 0 to |recommendedFile[idx]|
          invariant |relevant| == i
          invariant forall k :: 0 <= k < i ==> relevant[k] == DocIdentity(BOARD, study.metas[best[k]].id)
        {
          assert Candidate(|study.metas|, idx, best[i]) && study.metas[best[i]].id == idBase + best[i];
          relevant := relevant + [DocIdentity(BOARD, recommendedFile[idx][i] + idBase)];
        }
        assert study.metas[idx].id == id.id && Identities(study.metas, best, relevant);
      }
      r := DocRelInfo(relevant, relevant, relevant);
    }
  }

  method RecommendAll(s: Study) returns (recommendedFile: seq<seq<nat>>)
    requires Shaped(s)
    ensures |recommendedFile| == |s.metas|
    ensures forall l :: 0 <= l < |s.metas| ==> Recommended(s, l, recommendedFile[l])
  {
    hide Scores, Best, Rectangular;
    recommendedFile := [];
    for l := 0 to |s.metas|
      invariant |recommendedFile| == l
      invariant forall k :: 0 <= k < l ==> Recommended(s, k, recommendedFile[k])
    {
      var bestIdx := [];
      if s.calculated[l] {
        var score := ScoreAgainst(s, l);
        bestIdx := SelectBest(EarlierFirst, score, l);
      }
      recommendedFile := recommendedFile + [bestIdx];
    }
  }

  method TotalLength(docLen: seq<nat>) returns (total: nat)
    ensures total == Sum(docLen)
  {
    total := 0;
    for i := 0 to |docLen|
      invariant total == Sum(docLen[..i])
    {
      assert docLen[..i + 1][..i] == docLen[..i];
      total := total + docLen[i];
    }
    assert docLen[..|docLen|] == docLen;
  }

  method RunStudy(t: Tools, metas: seq<DocMetaData>, texts: seq<string>) returns (s: Study)
    requires |metas| == |texts| && ValidTools(t)
    ensures Studied(t, s) && s.metas == metas && s.texts == texts
  {
    hide Read, Selected, RowsCount, ColumnMax, ColumnAgrees, NumTrue, Sum, Rectangular;
    var corpus, docLen, calculated, num := ReadAll(t, metas, texts);
    var words, counts, idf, fileWord, maxNounCount := CountTerms(corpus);
    var weights := [];
    for i := 0 to |idf|
      invariant |weights| == i && forall k :: 0 <= k < i ==> weights[k] == t.weight(num, idf[k])
    {
      weights := weights + [t.weight(num, idf[i])];
    }
    var total := TotalLength(docLen);
    var avg := if num > 0 then total as real / num as real else 0.0;
    if |idf| > 0 {
      TextToScoreBy(t, metas, texts, corpus, docLen, calculated, words, counts, idf);
    }
    s := Study(metas, texts, corpus, docLen, calculated, words, counts, idf, fileWord, weights, avg);
  }

  lemma TextToScoreBy(
    t: Tools, metas: seq<DocMetaData>, texts: seq<string>, corpus: Corpus, docLen: seq<nat>, calculated: seq<bool>,
    words: map<Word, nat>, counts: seq<nat>, idf: seq<nat>)
    requires |metas| == |texts| && Read(t, metas, texts, |metas|, corpus, docLen, calculated) && ValidTools(t)
    requires Selected(corpus, words, counts, idf) && |idf| > 0
    ensures Sum(docLen) > 0 && NumTrue(calculated) > 0
  {
    assert Taken(words, 0);
    var w :| w in words && words[w] == 0;
    WordsNeedText(t, metas, texts, |metas|, corpus, docLen, calculated, w);
    LengthNeedsArticle(t, metas, texts, |metas|, corpus, docLen, calculated);
    SomeTrue(calculated);
  }

  lemma {:induction false} LengthNeedsArticle(
    t: Tools, metas: seq<DocMetaData>, texts: seq<string>, n: nat, corpus: Corpus, docLen: seq<nat>, calculated: seq<bool>)
    requires n <= |metas| == |texts| && Read(t, metas, texts, n, corpus, docLen, calculated)
    ensures Sum(docLen) > 0 ==> exists l :: 0 <= l < n && calculated[l]
    decreases n
  {
    if n > 0 && !calculated[n - 1] {
      LengthNeedsArticle(t, metas, texts, n - 1, corpus[..n - 1], docLen[..n - 1], calculated[..n - 1]);
    }
  }
}

/** The two counting passes of the content analyst, with their parallel vectors.
  *
  * Cutting an article into words is a given function, so an article is here the
  * list of its words; an article that is left out of account is None.
  */
module TermCounts {
  import opened Wrappers

  type Word = string

  type Corpus = seq<Option<seq<Word>>>

  const STOP_WORD := 20

  function WordsOf(file: Option<seq<Word>>): seq<Word> {
    if file.Some? then file.value else []
  }

  /** How often the word occurs in a file. */
  function Occurrences(file: Option<seq<Word>>, w: Word): nat {
    multiset(WordsOf(file))[w]
  }

  /** How often the word occurs in all files. */
  function Total(c: Corpus, w: Word): nat {
    if c == [] then 0 else Total(c[..|c| - 1], w) + Occurrences(c[|c| - 1], w)
  }

  /** In how many files the word occurs. */
  function DocFreq(c: Corpus, w: Word): nat {
    if c == [] then 0
    else DocFreq(c[..|c| - 1], w) + if Occurrences(c[|c| - 1], w) > 0 then 1 else 0
  }

  /** The files with the word. */
  ghost function FilesWith(c: Corpus, w: Word): set<nat> {
    set f: nat | f < |c| && w in WordsOf(c[f])
  }

  lemma {:induction false} DocFreqCounts(c: Corpus, w: Word)
    ensures DocFreq(c, w) == |FilesWith(c, w)|
    decreases |c|
  {
    if c != [] {
      DocFreqCounts(c[..|c| - 1], w);
      FilesWithNext(c[..|c| - 1], c[|c| - 1], w);
      assert c[..|c| - 1] + [c[|c| - 1]] == c;
      hide FilesWith;
    }
  }

  lemma FilesWithNext(c: Corpus, file: Option<seq<Word>>, w: Word)
    ensures FilesWith(c + [file], w) == if w in WordsOf(file) then FilesWith(c, w) + {|c|} else FilesWith(c, w)
    ensures |c| !in FilesWith(c, w)
  {
    hide WordsOf;
  }

  /** All words of all files, one file after the other. */
  function AllWords(c: Corpus): seq<Word> {
    if c == [] then [] else AllWords(c[..|c| - 1]) + WordsOf(c[|c| - 1])
  }

  lemma {:induction false} TotalCounts(c: Corpus, w: Word)
    ensures Total(c, w) == multiset(AllWords(c))[w]
    decreases |c|
  {
    if c != [] {
      TotalCounts(c[..|c| - 1], w);
    }
  }

  /** The words numbered 0, 1, ...: the map and the list are inverse to each other. */
  ghost predicate Numbers(m: map<Word, nat>, names: seq<Word>) {
    && (forall i :: 0 <= i < |names| ==> names[i] in m && m[names[i]] == i)
    && (forall w :: w in m ==> m[w] < |names| && names[m[w]] == w)
  }

  ghost predicate Taken(m: map<Word, nat>, i: nat) {
    exists w :: w in m && m[w] == i
  }

  /** The map takes its words one to one onto 0, ..., n - 1. */
  ghost predicate Bijection(m: map<Word, nat>, n: nat) {
    && (forall w :: w in m ==> m[w] < n)
    && (forall v, w :: v in m && w in m && m[v] == m[w] ==> v == w)
    && (forall i :: 0 <= i < n ==> Taken(m, i))
  }

  lemma NumbersIsBijection(m: map<Word, nat>, names: seq<Word>)
    requires Numbers(m, names)
    ensures Bijection(m, |names|)
  {
    forall i | 0 <= i < |names| ensures Taken(m, i) {
      assert names[i] in m;
    }
    forall v, w | v in m && w in m && m[v] == m[w] ensures v == w {
      assert names[m[v]] == v && names[m[w]] == w;
    }
  }

  lemma TotalNext(c: Corpus, file: Option<seq<Word>>, w: Word)
    ensures Total(c + [file], w) == Total(c, w) + Occurrences(file, w)
    ensures DocFreq(c + [file], w) == DocFreq(c, w) + if Occurrences(file, w) > 0 then 1 else 0
  {
    assert (c + [file])[..|c|] == c;
  }

  /** A word has been met when it occurs in the files before or in the part read of the present one. */
  ghost predicate Met(c: Corpus, part: seq<Word>, m: map<Word, nat>) {
    forall w :: w in m <==> Total(c, w) > 0 || w in part
  }

  ghost predicate Counted(c: Corpus, part: seq<Word>, names: seq<Word>, counts: seq<nat>) {
    && |counts| == |names|
    && forall i :: 0 <= i < |names| ==> counts[i] == Total(c, names[i]) + multiset(part)[names[i]]
  }

  ghost predicate Marked(part: seq<Word>, names: seq<Word>, marks: seq<bool>) {
    && |marks| == |names|
    && forall i :: 0 <= i < |names| ==> (marks[i] <==> names[i] in part)
  }

  ghost predicate Frequencies(c: Corpus, names: seq<Word>, idf: seq<nat>) {
    && |idf| == |names|
    && forall i :: 0 <= i < |names| ==> idf[i] == DocFreq(c, names[i])
  }

  /** A word that has not occurred has no document frequency. */
  lemma {:induction false} FrequentIffOccurs(c: Corpus, w: Word)
    ensures DocFreq(c, w) > 0 <==> Total(c, w) > 0
    decreases |c|
  {
    if c != [] {
      FrequentIffOccurs(c[..|c| - 1], w);
    }
  }

  lemma OneMore(part: seq<Word>, w: Word, x: Word)
    ensures multiset(part + [w])[x] == multiset(part)[x] + if x == w then 1 else 0
    ensures x in part + [w] <==> x in part || x == w
  {
  }

  lemma KnownWord(c: Corpus, part: seq<Word>, w: Word, names: seq<Word>, m: map<Word, nat>, counts: seq<nat>, marks: seq<bool>)
    requires Numbers(m, names) && w in m
    requires Met(c, part, m) && Counted(c, part, names, counts) && Marked(part, names, marks)
    ensures Met(c, part + [w], m)
    ensures Counted(c, part + [w], names, counts[m[w] := counts[m[w]] + 1])
    ensures Marked(part + [w], names, marks[m[w] := true])
  {
    hide Total;
    forall i | 0 <= i < |names|
      ensures multiset(part + [w])[names[i]] == multiset(part)[names[i]] + (if i == m[w] then 1 else 0)
      ensures names[i] in part + [w] <==> names[i] in part || i == m[w]
    {
      OneMore(part, w, names[i]);
      assert m[names[i]] == i;
    }
  }

  lemma NewWord(
    c: Corpus, part: seq<Word>, w: Word, names: seq<Word>, m: map<Word, nat>, counts: seq<nat>, marks: seq<bool>, idf: seq<nat>)
    requires Numbers(m, names) && w !in m
    requires Met(c, part, m) && Counted(c, part, names, counts) && Marked(part, names, marks) && Frequencies(c, names, idf)
    ensures Numbers(m[w := |names|], names + [w])
    ensures Met(c, part + [w], m[w := |names|])
    ensures Counted(c, part + [w], names + [w], counts + [1])
    ensures Marked(part + [w], names + [w], marks + [true])
    ensures Frequencies(c, names + [w], idf + [0])
  {
    hide Total, DocFreq;
    FrequentIffOccurs(c, w);
    OneMore(part, w, w);
    forall i | 0 <= i < |names|
      ensures multiset(part + [w])[names[i]] == multiset(part)[names[i]]
      ensures names[i] in part + [w] <==> names[i] in part
    {
      OneMore(part, w, names[i]);
      assert names[i] in m;
    }
  }

  lemma FileDone(c: Corpus, file: Option<seq<Word>>, names: seq<Word>, m: map<Word, nat>, counts: seq<nat>)
    requires Met(c, WordsOf(file), m) && Counted(c, WordsOf(file), names, counts)
    ensures Met(c + [file], [], m) && Counted(c + [file], [], names, counts)
  {
    hide Total;
    forall w ensures Total(c + [file], w) == Total(c, w) + multiset(WordsOf(file))[w] {
      TotalNext(c, file, w);
    }
  }

  lemma FrequenciesNext(c: Corpus, file: Option<seq<Word>>, names: seq<Word>, marks: seq<bool>, idf: seq<nat>, idf': seq<nat>)
    requires Marked(WordsOf(file), names, marks) && Frequencies(c, names, idf) && |idf'| == |idf|
    requires forall i :: 0 <= i < |idf| ==> idf'[i] == idf[i] + if marks[i] then 1 else 0
    ensures Frequencies(c + [file], names, idf')
  {
    hide Total, DocFreq;
    forall i | 0 <= i < |names| ensures idf'[i] == DocFreq(c + [file], names[i]) {
      TotalNext(c, file, names[i]);
    }
  }

  /** What the first pass leaves: every word that occurs has a number of its own, and under that number the
    * total of its occurrences and the number of articles it occurs in. */
  ghost predicate Tabulated(c: Corpus, m: map<Word, nat>, counts: seq<nat>, idf: seq<nat>) {
    && |counts| == |idf| && Bijection(m, |idf|)
    && (forall w :: w in m <==> Total(c, w) > 0)
    && (forall w :: w in m ==> counts[m[w]] == Total(c, w) && idf[m[w]] == DocFreq(c, w))
  }

  lemma CountedIsTabulated(c: Corpus, names: seq<Word>, m: map<Word, nat>, counts: seq<nat>, idf: seq<nat>)
    requires Numbers(m, names) && Met(c, [], m) && Counted(c, [], names, counts) && Frequencies(c, names, idf)
    ensures Tabulated(c, m, counts, idf)
  {
    hide Total, DocFreq;
    NumbersIsBijection(m, names);
    forall w | w in m ensures counts[m[w]] == Total(c, w) && idf[m[w]] == DocFreq(c, w) {
      assert names[m[w]] == w;
    }
  }

  /** The words of one article are added to the table; the marks say which words it has. */
  method CountWords(
    ghost c: Corpus, tagres: seq<Word>, ghost names0: seq<Word>, m0: map<Word, nat>, counts0: seq<nat>, idf0: seq<nat>)
    returns (ghost names: seq<Word>, wordMap: map<Word, nat>, nounCount: seq<nat>, idf: seq<nat>, idfAdd: seq<bool>)
    requires Numbers(m0, names0) && Met(c, [], m0) && Counted(c, [], names0, counts0) && Frequencies(c, names0, idf0)
    ensures Numbers(wordMap, names) && Met(c, tagres, wordMap) && Counted(c, tagres, names, nounCount)
    ensures Frequencies(c, names, idf) && Marked(tagres, names, idfAdd)
  {
    hide Numbers, Met, Counted, Frequencies, Marked;
    names, wordMap, nounCount, idf, idfAdd := names0, m0, counts0, idf0, seq(|idf0|, i => false);
    Lengths(c, [], names0, m0, counts0, idf0);
    NothingMarked(names0);
    for t := 0 to |tagres|
      invariant Numbers(wordMap, names) && Met(c, tagres[..t], wordMap) && Counted(c, tagres[..t], names, nounCount)
      invariant Frequencies(c, names, idf) && Marked(tagres[..t], names, idfAdd)
    {
      var w := tagres[t];
      assert tagres[..t + 1] == tagres[..t] + [w];
      Lengths(c, tagres[..t], names, wordMap, nounCount, idf);
      MarksLength(tagres[..t], names, idfAdd);
      if w !in wordMap {
        NewWord(c, tagres[..t], w, names, wordMap, nounCount, idfAdd, idf);
        wordMap := wordMap[w := |nounCount|];
        nounCount, idf, idfAdd := nounCount + [1], idf + [0], idfAdd + [true];
        names := names + [w];
      } else {
        KnownWord(c, tagres[..t], w, names, wordMap, nounCount, idfAdd);
        var i := wordMap[w];
        nounCount := nounCount[i := nounCount[i] + 1];
        if !idfAdd[i] {
          idfAdd := idfAdd[i := true];
        } else {
          assert idfAdd[i := true] == idfAdd;
        }
      }
    }
    assert tagres[..|tagres|] == tagres;
  }

  lemma Lengths(c: Corpus, part: seq<Word>, names: seq<Word>, m: map<Word, nat>, counts: seq<nat>, idf: seq<nat>)
    requires Numbers(m, names) && Counted(c, part, names, counts) && Frequencies(c, names, idf)
    ensures |counts| == |idf| == |names| && forall w :: w in m ==> m[w] < |names|
  {
  }

  lemma MarksLength(part: seq<Word>, names: seq<Word>, marks: seq<bool>)
    requires Marked(part, names, marks)
    ensures |marks| == |names|
  {
  }

  lemma NothingMarked(names: seq<Word>)
    ensures Marked([], names, seq(|names|, i => false))
  {
  }

  /** Adds one to the document frequency of each marked word. */
  method AddMarks(idf0: seq<nat>, idfAdd: seq<bool>) returns (idf: seq<nat>)
    requires |idf0| == |idfAdd|
    ensures |idf| == |idf0| && forall i :: 0 <= i < |idf| ==> idf[i] == idf0[i] + if idfAdd[i] then 1 else 0
  {
    idf := idf0;
    for i := 0 to |idfAdd|
      invariant |idf| == |idf0|
      invariant forall k :: 0 <= k < |idf| ==> idf[k] == idf0[k] + if k < i && idfAdd[k] then 1 else 0
    {
      if idfAdd[i] {
        idf := idf[i := idf[i] + 1];
      }
    }
  }

  /** The first pass over all articles. */
  method CountAll(c: Corpus) returns (wordMap: map<Word, nat>, nounCount: seq<nat>, idf: seq<nat>)
    ensures Tabulated(c, wordMap, nounCount, idf)
  {
    wordMap, nounCount, idf := map[], [], [];
    ghost var names: seq<Word> := [];
    for id := 0 to |c|
      invariant Numbers(wordMap, names) && Met(c[..id], [], wordMap)
      invariant Counted(c[..id], [], names, nounCount) && Frequencies(c[..id], names, idf)
    {
      hide Numbers, Met, Counted, Frequencies, Marked;
      assert c[..id + 1] == c[..id] + [c[id]];
      if c[id].Some? {
        var idfAdd;
        names, wordMap, nounCount, idf, idfAdd := CountWords(c[..id], c[id].value, names, wordMap, nounCount, idf);
        Lengths(c[..id], c[id].value, names, wordMap, nounCount, idf);
        MarksLength(c[id].value, names, idfAdd);
        ghost var was := idf;
        idf := AddMarks(idf, idfAdd);
        FrequenciesNext(c[..id], c[id], names, idfAdd, was, idf);
      } else {
        LeftOut(c[..id], names, idf);
      }
      FileDone(c[..id], c[id], names, wordMap, nounCount);
    }
    assert c[..|c|] == c;
    CountedIsTabulated(c, names, wordMap, nounCount, idf);
  }

  lemma LeftOut(c: Corpus, names: seq<Word>, idf: seq<nat>)
    requires Frequencies(c, names, idf)
    ensures Frequencies(c + [None], names, idf)
  {
    hide Total, DocFreq;
    forall i | 0 <= i < |names| ensures idf[i] == DocFreq(c + [None], names[i]) {
      TotalNext(c, None, names[i]);
    }
  }

  // ----- Stop words -----

  predicate Significant(freq: nat) {
    2 < freq < STOP_WORD
  }

  /** What is left after the stop words are removed, numbered anew. */
  ghost predicate Selected(c: Corpus, m: map<Word, nat>, counts: seq<nat>, idf: seq<nat>) {
    && |counts| == |idf| && Bijection(m, |idf|)
    && (forall w :: w in m <==> Total(c, w) > 0 && Significant(DocFreq(c, w)))
    && (forall w :: w in m ==> counts[m[w]] == Total(c, w) && idf[m[w]] == DocFreq(c, w))
  }

  /** Selected are exactly the words in at least three and at most nineteen files, each with its number of
    * occurrences and its number of files. */
  lemma SelectedExactly(c: Corpus, m: map<Word, nat>, counts: seq<nat>, idf: seq<nat>, w: Word)
    requires Selected(c, m, counts, idf)
    ensures w in m <==> 3 <= |FilesWith(c, w)| <= 19
    ensures w in m ==> m[w] < |idf| == |counts| && counts[m[w]] == multiset(AllWords(c))[w] && idf[m[w]] == |FilesWith(c, w)|
  {
    hide Total, DocFreq, FilesWith, AllWords;
    DocFreqCounts(c, w);
    TotalCounts(c, w);
    FrequentIffOccurs(c, w);
  }

  /** The significant words outside the rest have moved to the new table, with their counts. */
  ghost predicate Sifted(
    m: map<Word, nat>, counts: seq<nat>, idf: seq<nat>, rest: set<Word>, fm: map<Word, nat>, fc: seq<nat>, fi: seq<nat>)
    requires |counts| == |idf| && Bijection(m, |idf|)
  {
    && |fc| == |fi|
    && (forall w :: w in fm <==> w in m.Keys - rest && Significant(idf[m[w]]))
    && (forall w :: w in fm ==> fm[w] < |fi| && fc[fm[w]] == counts[m[w]] && fi[fm[w]] == idf[m[w]])
  }

  lemma SiftOne(
    m: map<Word, nat>, counts: seq<nat>, idf: seq<nat>, rest: set<Word>, w: Word, names: seq<Word>,
    fm: map<Word, nat>, fc: seq<nat>, fi: seq<nat>)
    requires |counts| == |idf| && Bijection(m, |idf|) && Sifted(m, counts, idf, rest, fm, fc, fi)
    requires w in rest && w in m && Numbers(fm, names) && |names| == |fc|
    ensures if Significant(idf[m[w]]) then
              && Sifted(m, counts, idf, rest - {w}, fm[w := |fc|], fc + [counts[m[w]]], fi + [idf[m[w]]])
              && Numbers(fm[w := |fc|], names + [w])
            else
              Sifted(m, counts, idf, rest - {w}, fm, fc, fi)
  {
  }

  /** The order in which the words are gone through only decides their new numbers. */
  method RemoveStopWords(ghost c: Corpus, wordMap: map<Word, nat>, nounCount: seq<nat>, idf: seq<nat>)
    returns (finalMap: map<Word, nat>, finalCount: seq<nat>, finalIdf: seq<nat>)
    requires Tabulated(c, wordMap, nounCount, idf)
    ensures Selected(c, finalMap, finalCount, finalIdf)
  {
    hide Total, DocFreq;
    finalMap, finalCount, finalIdf := map[], [], [];
    ghost var names: seq<Word> := [];
    var rest := wordMap.Keys;
    while rest != {}
      invariant rest <= wordMap.Keys
      invariant Numbers(finalMap, names) && |names| == |finalCount| == |finalIdf|
      invariant Sifted(wordMap, nounCount, idf, rest, finalMap, finalCount, finalIdf)
      decreases |rest|
    {
      hide Numbers, Sifted;
      var w :| w in rest;
      var i := wordMap[w];
      SiftOne(wordMap, nounCount, idf, rest, w, names, finalMap, finalCount, finalIdf);
      if idf[i] > 2 && idf[i] < STOP_WORD {
        finalMap := finalMap[w := |finalCount|];
        finalCount, finalIdf := finalCount + [nounCount[i]], finalIdf + [idf[i]];
        names := names + [w];
      }
      rest := rest - {w};
    }
    NumbersIsBijection(finalMap, names);
  }

  // ----- Second pass -----

  /** A table with a row for each file and a column for each selected word. */
  type Table = seq<seq<nat>>

  ghost predicate Rectangular(table: Table, n: nat) {
    forall f :: 0 <= f < |table| ==> |table[f]| == n
  }

  function ColumnSum(table: Table, i: nat): nat
    requires forall f :: 0 <= f < |table| ==> i < |table[f]|
  {
    if table == [] then 0 else ColumnSum(table[..|table| - 1], i) + table[|table| - 1][i]
  }

  function NonZeroRows(table: Table, i: nat): nat
    requires forall f :: 0 <= f < |table| ==> i < |table[f]|
  {
    if table == [] then 0
    else NonZeroRows(table[..|table| - 1], i) + if table[|table| - 1][i] > 0 then 1 else 0
  }

  /** The column counts the word file by file. */
  ghost predicate ColumnCounts(c: Corpus, table: Table, i: nat, w: Word) {
    |table| == |c| && forall f :: 0 <= f < |c| ==> i < |table[f]| && table[f][i] == Occurrences(c[f], w)
  }

  /** Both passes agree: a column adds up to the word's total, and is non-zero in as many rows as the word
    * has articles. */
  lemma {:induction false} ColumnsAddUp(c: Corpus, table: Table, i: nat, w: Word)
    requires ColumnCounts(c, table, i, w)
    ensures ColumnSum(table, i) == Total(c, w) && NonZeroRows(table, i) == DocFreq(c, w)
    decreases |c|
  {
    if c != [] {
      ColumnsAddUp(c[..|c| - 1], table[..|table| - 1], i, w);
    }
  }

  /** Each row of the table counts the selected words of its file. */
  ghost predicate RowCounts(file: Option<seq<Word>>, m: map<Word, nat>, row: seq<nat>, n: nat) {
    |row| == n && forall w :: w in m ==> m[w] < n && row[m[w]] == Occurrences(file, w)
  }

  /** The largest count of each column. */
  ghost predicate ColumnMax(table: Table, max: seq<nat>) {
    && (forall f, i :: 0 <= f < |table| && 0 <= i < |max| && i < |table[f]| ==> table[f][i] <= max[i])
    && (forall i :: 0 <= i < |max| ==>
          max[i] == 0 || exists f :: 0 <= f < |table| && i < |table[f]| && table[f][i] == max[i])
  }

  ghost predicate RowsCount(c: Corpus, m: map<Word, nat>, table: Table, n: nat) {
    |table| <= |c| && forall f :: 0 <= f < |table| ==> RowCounts(c[f], m, table[f], n)
  }

  lemma RowsNext(c: Corpus, m: map<Word, nat>, table: Table, row: seq<nat>, n: nat)
    requires RowsCount(c, m, table, n) && |table| < |c| && RowCounts(c[|table|], m, row, n)
    ensures RowsCount(c, m, table + [row], n) && |row| == n
  {
    hide Occurrences;
  }

  lemma RowCount(file: Option<seq<Word>>, m: map<Word, nat>, row: seq<nat>, n: nat)
    requires RowCounts(file, m, row, n)
    ensures |row| == n && forall w :: w in m ==> m[w] < n
  {
  }

  /** One row, filled word by word. */
  method CountRow(tagres: seq<Word>, finalMap: map<Word, nat>, n: nat) returns (row: seq<nat>, tempCount: seq<nat>)
    requires Bijection(finalMap, n)
    ensures RowCounts(Some(tagres), finalMap, row, n) && tempCount == row
  {
    hide RowCounts;
    row, tempCount := seq(n, i => 0), seq(n, i => 0);
    EmptyRow(finalMap, n);
    for t := 0 to |tagres|
      invariant tempCount == row && |row| == n && RowCounts(Some(tagres[..t]), finalMap, row, n)
    {
      ghost var was := row;
      var w := tagres[t];
      assert tagres[..t + 1] == tagres[..t] + [w];
      RowCount(Some(tagres[..t]), finalMap, row, n);
      if w in finalMap {
        row := row[finalMap[w] := row[finalMap[w]] + 1];
        tempCount := tempCount[finalMap[w] := tempCount[finalMap[w]] + 1];
      }
      NextInRow(tagres[..t], w, finalMap, was, row, n);
    }
    assert tagres[..|tagres|] == tagres;
  }

  lemma NextInRow(part: seq<Word>, w: Word, m: map<Word, nat>, was: seq<nat>, row: seq<nat>, n: nat)
    requires Bijection(m, n) && RowCounts(Some(part), m, was, n)
    requires row == if w in m then was[m[w] := was[m[w]] + 1] else was
    ensures RowCounts(Some(part + [w]), m, row, n)
  {
    forall x | x in m ensures row[m[x]] == multiset(part + [w])[x] {
      OneMore(part, w, x);
      assert was[m[x]] == Occurrences(Some(part), x);
    }
  }

  function Larger(a: nat, b: nat): nat {
    if b > a then b else a
  }

  method RaiseMax(max0: seq<nat>, tempCount: seq<nat>) returns (max: seq<nat>)
    requires |max0| == |tempCount|
    ensures |max| == |max0| && forall i :: 0 <= i < |max| ==> max[i] == Larger(max0[i], tempCount[i])
  {
    max := max0;
    for i := 0 to |max0|
      invariant |max| == |max0|
      invariant forall k :: 0 <= k < i ==> max[k] == Larger(max0[k], tempCount[k])
      invariant forall k :: i <= k < |max0| ==> max[k] == max0[k]
    {
      if tempCount[i] > max[i] {
        max := max[i := tempCount[i]];
      }
    }
  }

  lemma MaxNext(table: Table, row: seq<nat>, max0: seq<nat>, max: seq<nat>, n: nat)
    requires Rectangular(table, n) && |row| == |max| == |max0| == n && ColumnMax(table, max0)
    requires forall i :: 0 <= i < n ==> max[i] == Larger(max0[i], row[i])
    ensures ColumnMax(table + [row], max)
  {
    var table' := table + [row];
    forall i | 0 <= i < n ensures max[i] == 0 || exists f :: 0 <= f < |table'| && i < |table'[f]| && table'[f][i] == max[i] {
      if max[i] == row[i] {
        assert table'[|table|] == row;
      } else if max0[i] != 0 {
        var f :| 0 <= f < |table| && i < |table[f]| && table[f][i] == max0[i];
        assert table'[f] == table[f];
      }
    }
  }

  /** The second pass: reads every article again and counts its selected words. */
  method CountFiles(c: Corpus, finalMap: map<Word, nat>, n: nat) returns (fileWord: Table, maxNounCount: seq<nat>)
    requires Bijection(finalMap, n)
    ensures |fileWord| == |c| && Rectangular(fileWord, n) && |maxNounCount| == n
    ensures RowsCount(c, finalMap, fileWord, n)
    ensures ColumnMax(fileWord, maxNounCount)
  {
    fileWord, maxNounCount := [], seq(n, i => 0);
    for sz := 0 to |c|
      invariant |fileWord| == sz && Rectangular(fileWord, n) && |maxNounCount| == n
      invariant RowsCount(c, finalMap, fileWord, n)
      invariant ColumnMax(fileWord, maxNounCount)
    {
      hide ColumnMax, RowCounts, RowsCount;
      var row := seq(n, i => 0);
      if c[sz].None? {
        EmptyRow(finalMap, n);
        RowsNext(c, finalMap, fileWord, row, n);
        MaxNext(fileWord, row, maxNounCount, maxNounCount, n);
      } else {
        var tempCount;
        row, tempCount := CountRow(c[sz].value, finalMap, n);
        RowsNext(c, finalMap, fileWord, row, n);
        ghost var was := maxNounCount;
        maxNounCount := RaiseMax(maxNounCount, tempCount);
        MaxNext(fileWord, row, was, maxNounCount, n);
      }
      fileWord := fileWord + [row];
    }
  }

  lemma EmptyRow(m: map<Word, nat>, n: nat)
    requires Bijection(m, n)
    ensures RowCounts(None, m, seq(n, i => 0), n) && RowCounts(Some([]), m, seq(n, i => 0), n)
  {
  }

  /** Column i belongs to a word of which the two passes give the same account. */
  ghost predicate ColumnAgrees(c: Corpus, m: map<Word, nat>, counts: seq<nat>, idf: seq<nat>, table: Table, i: nat)
    requires Rectangular(table, |idf|) && |counts| == |idf| && i < |idf|
  {
    exists w :: w in m && m[w] == i && ColumnCounts(c, table, i, w) && Significant(DocFreq(c, w))
                && ColumnSum(table, i) == counts[i] && NonZeroRows(table, i) == idf[i]
  }

  /** Both passes together.  The second pass finds what the first one counted: each column adds up to the
    * first pass's count of its word, and is non-zero in as many rows as the first pass's document frequency. */
  method CountTerms(c: Corpus)
    returns (finalMap: map<Word, nat>, finalCount: seq<nat>, finalIdf: seq<nat>, fileWord: Table, maxNounCount: seq<nat>)
    ensures Selected(c, finalMap, finalCount, finalIdf)
    ensures |fileWord| == |c| && Rectangular(fileWord, |finalIdf|) && |maxNounCount| == |finalIdf|
    ensures RowsCount(c, finalMap, fileWord, |finalIdf|)
    ensures forall i :: 0 <= i < |finalIdf| ==> ColumnAgrees(c, finalMap, finalCount, finalIdf, fileWord, i)
    ensures ColumnMax(fileWord, maxNounCount)
  {
    var wordMap, nounCount, idf := CountAll(c);
    finalMap, finalCount, finalIdf := RemoveStopWords(c, wordMap, nounCount, idf);
    fileWord, maxNounCount := CountFiles(c, finalMap, |finalIdf|);
    forall i | 0 <= i < |finalIdf| ensures ColumnAgrees(c, finalMap, finalCount, finalIdf, fileWord, i) {
      PassesAgree(c, finalMap, finalCount, finalIdf, fileWord, i);
    }
  }

  lemma PassesAgree(c: Corpus, m: map<Word, nat>, counts: seq<nat>, idf: seq<nat>, table: Table, i: nat)
    requires Selected(c, m, counts, idf) && i < |idf|
    requires |table| == |c| && Rectangular(table, |idf|)
    requires RowsCount(c, m, table, |idf|)
    ensures ColumnAgrees(c, m, counts, idf, table, i)
  {
    hide Total, DocFreq, ColumnSum, NonZeroRows, Occurrences;
    assert Taken(m, i);
    var w :| w in m && m[w] == i;
    forall f | 0 <= f < |c| ensures i < |table[f]| && table[f][i] == Occurrences(c[f], w) {
      assert RowCounts(c[f], m, table[f], |idf|);
    }
    ColumnsAddUp(c, table, i, w);
  }
}

/** Addresses as text: how the listener reads the number of an address out of
  * its text, and how it makes the text of a stub.
  */
module UrlText {
  import opened Wrappers
  import opened Urls
  import opened Arithmetic

  const SERVER := "https://www.ptt.cc"

  /** Index of the first occurrence of sub at or after i, or -1. */
  function FindFrom(s: string, sub: string, i: nat): int
    decreases |s| - i
  {
    if i + |sub| > |s| then -1
    else if s[i..i + |sub|] == sub then i
    else FindFrom(s, sub, i + 1)
  }

  function Find(s: string, sub: string): int {
    FindFrom(s, sub, 0)
  }

  /** s without its first k characters. */
  function Drop(s: string, k: int): string {
    if k <= 0 then s else if k >= |s| then [] else s[k..]
  }

  /** The first k characters of s; a negative k counts from the end. */
  function Take(s: string, k: int): string {
    var e := if k < 0 then |s| + k else k;
    if e <= 0 then [] else if e >= |s| then s else s[..e]
  }

  function Digit(d: nat): char
    requires d < 10
  {
    ['0', '1', '2', '3', '4', '5', '6', '7', '8', '9'][d]
  }

  function DigitValue(c: char): Option<nat> {
    if '0' <= c <= '9' then Some(c as int - '0' as int) else None
  }

  function Digits(n: nat): (s: string)
    ensures |s| >= 1
  {
    if n < 10 then [Digit(n)] else Digits(n / 10) + [Digit(n % 10)]
  }

  /** The number a string of digits stands for; anything else is an error. */
  function ParseNat(s: string): Option<nat> {
    if s == [] then None
    else
      var d :- DigitValue(s[|s| - 1]);
      if |s| == 1 then Some(d)
      else
        var rest :- ParseNat(s[..|s| - 1]);
        Some(10 * rest + d)
  }

  /** Twice the number that orders the address with this text. */
  function CompareNum(board: string, url: string): Option<int> {
    TailNum(Drop(url, Find(url, board) + |board| + 3))
  }

  /** Twice the number read from what comes after the board. */
  function TailNum(a: string): Option<int> {
    var dot := Find(a, ".");
    if dot >= 0 then
      var n :- ParseNat(Take(a, dot));
      Some(2 * n)
    else
      var n :- ParseNat(Take(a, Find(a, "_")));
      Some(2 * n - 1)
  }

  /** The text of the stub made from the last text handed out. */
  function StubText(prev: string): string {
    Take(prev, -11) + "_x"
  }

  /** What comes after the server and the board in the text of an address. */
  function Tail(u: Url): string
    requires !u.Unnamed?
  {
    match u
    case Post(n, tag) => Digits(n) + tag
    case Stub(n) => Digits(n) + "_x"
  }

  function Href(board: string, u: Url): string
    requires !u.Unnamed?
  {
    "/bbs/" + board + "/M." + Tail(u)
  }

  function Text(board: string, u: Url): string
    requires !u.Unnamed?
  {
    SERVER + Href(board, u)
  }

  /** The tag ends an article's address: a dot and ten more characters. */
  predicate ValidTag(tag: string) {
    |tag| == 11 && tag[0] == '.'
  }

  ghost predicate AllDigits(s: string) {
    forall k :: 0 <= k < |s| ==> '0' <= s[k] <= '9'
  }

  lemma {:induction false} DigitsParse(n: nat)
    ensures AllDigits(Digits(n))
    ensures ParseNat(Digits(n)) == Some(n)
  {
    DigitReads(n % 10);
    hide Digit, DigitValue;
    if n >= 10 {
      DigitsParse(n / 10);
      LastDigit(Digits(n / 10), Digit(n % 10));
    }
  }

  lemma DigitReads(d: nat)
    requires d < 10
    ensures DigitValue(Digit(d)) == Some(d) && '0' <= Digit(d) <= '9'
  {
  }

  lemma LastDigit(s: string, c: char)
    ensures (s + [c])[..|s + [c]| - 1] == s && (s + [c])[|s + [c]| - 1] == c
    ensures AllDigits(s) && '0' <= c <= '9' ==> AllDigits(s + [c])
  {
  }

  lemma {:induction false} FindSkips(s: string, c: char, i: nat, j: nat)
    requires i <= j < |s| && s[j] == c
    requires forall k :: i <= k < j ==> s[k] != c
    ensures FindFrom(s, [c], i) == j
    decreases j - i
  {
    if i < j {
      assert s[i..i + 1][0] != c;
      FindSkips(s, c, i + 1, j);
    } else {
      assert s[i..i + 1] == [c];
    }
  }

  lemma {:induction false} FindNothing(s: string, c: char, i: nat)
    requires forall k :: i <= k < |s| ==> s[k] != c
    ensures FindFrom(s, [c], i) == -1
    decreases |s| - i
  {
    if i < |s| {
      assert s[i..i + 1][0] != c;
      FindNothing(s, c, i + 1);
    }
  }

  lemma NumberOfTail(u: Url)
    requires !u.Unnamed? && (u.Post? ==> ValidTag(u.tag))
    ensures TailNum(Tail(u)) == Some(Num(u))
  {
    hide Digits, ParseNat, FindFrom;
    DigitsParse(u.num);
    match u
    case Post(n, tag) => CutAtDot(Digits(n), tag);
    case Stub(n) => CutAtMark(Digits(n));
  }

  lemma CutAtDot(d: string, tag: string)
    requires AllDigits(d) && ValidTag(tag)
    ensures Find(d + tag, ".") == |d| && Take(d + tag, |d|) == d
  {
    hide FindFrom;
    FindSkips(d + tag, '.', 0, |d|);
  }

  lemma CutAtMark(d: string)
    requires AllDigits(d)
    ensures Find(d + "_x", ".") == -1 && Find(d + "_x", "_") == |d| && Take(d + "_x", |d|) == d
  {
    hide FindFrom;
    FindNothing(d + "_x", '.', 0);
    FindSkips(d + "_x", '_', 0, |d|);
  }

  lemma DropHead(head: string, tail: string)
    ensures Drop(head + tail, |head|) == tail
  {
  }

  lemma NumberFromText(board: string, url: string, u: Url, head: string)
    requires !u.Unnamed? && (u.Post? ==> ValidTag(u.tag))
    requires url == head + board + "/M." + Tail(u) && Find(url, board) == |head|
    ensures CompareNum(board, url) == Some(Num(u))
  {
    DropHead(head + board + "/M.", Tail(u));
    NumberOfTail(u);
  }

  /** The number read from the text of an address, with or without the server, is the number of the
    * address, provided the board's name does not occur earlier in the text. */
  lemma CompareNumReadsTheNumber(board: string, u: Url)
    requires !u.Unnamed? && (u.Post? ==> ValidTag(u.tag))
    ensures Find(Text(board, u), board) == 23 ==> CompareNum(board, Text(board, u)) == Some(Num(u))
    ensures Find(Href(board, u), board) == 5 ==> CompareNum(board, Href(board, u)) == Some(Num(u))
  {
    if Find(Text(board, u), board) == 23 {
      assert Text(board, u) == (SERVER + "/bbs/") + board + "/M." + Tail(u);
      NumberFromText(board, Text(board, u), u, SERVER + "/bbs/");
    }
    if Find(Href(board, u), board) == 5 {
      NumberFromText(board, Href(board, u), u, "/bbs/");
    }
  }

  lemma {:induction false} FindIsFirst(s: string, sub: string, i: nat, j: nat)
    requires i <= j && j + |sub| <= |s| && s[j..j + |sub|] == sub
    ensures i <= FindFrom(s, sub, i) <= j
    ensures var f := FindFrom(s, sub, i); f + |sub| <= |s| && s[f..f + |sub|] == sub
    decreases j - i
  {
    if i < j {
      FindIsFirst(s, sub, i + 1, j);
    }
  }

  /** There is a dot, and no digit before it. */
  ghost predicate WordsUntil(s: string, last: nat) {
    last < |s| && s[last] == '.' && forall k :: 0 <= k < last ==> DigitValue(s[k]).None?
  }

  lemma FirstDot(s: string, p: nat, last: nat) returns (q: nat)
    requires p <= last < |s| && s[last] == '.'
    ensures p <= q <= last && s[q] == '.' && forall k :: p <= k < q ==> s[k] != '.'
    decreases last - p
  {
    if s[p] == '.' {
      q := p;
    } else {
      q := FirstDot(s, p + 1, last);
    }
  }

  lemma NoNumberBefore(s: string, p: nat, last: nat)
    requires WordsUntil(s, last) && p <= last
    ensures TailNum(Drop(s, p)) == None
  {
    var q := FirstDot(s, p, last);
    var a := Drop(s, p);
    assert a == s[p..];
    hide FindFrom, DigitValue;
    FindSkips(a, '.', 0, q - p);
    assert Take(a, q - p) == s[p..q];
  }

  lemma HeadsHaveNoDigits()
    ensures |SERVER + "/bbs"| == 22 && |"/bbs"| == 4
    ensures forall k :: 0 <= k < |SERVER + "/bbs"| ==> DigitValue((SERVER + "/bbs")[k]).None?
    ensures forall k :: 0 <= k < |"/bbs"| ==> DigitValue("/bbs"[k]).None?
  {
  }

  lemma Forms(board: string, u: Url)
    requires !u.Unnamed?
    ensures Text(board, u) == (SERVER + "/bbs") + "/" + board + "/M." + Tail(u)
    ensures Href(board, u) == "/bbs" + "/" + board + "/M." + Tail(u)
  {
    hide Tail;
    assert "/bbs/" == "/bbs" + "/";
    assert SERVER + ("/bbs" + "/" + board + "/M." + Tail(u)) == (SERVER + "/bbs") + "/" + board + "/M." + Tail(u);
  }

  lemma CrossesSlash(board: string, s: string, f: nat, slash: nat)
    requires f + |board| <= |s| && s[f..f + |board|] == board && f <= slash < |s| && s[slash] == '/'
    ensures slash < f + |board| ==> '/' in board
  {
    assert slash < f + |board| ==> board[slash - f] == s[slash];
  }

  /** A name without a slash that is found before its place is a part of what comes before, so it has no digits. */
  lemma NoDigitsBefore(board: string, head: string, tail: string, s: string, f: nat)
    requires s == head + "/" + board + "/M." + tail && '/' !in board
    requires forall k :: 0 <= k < |head| ==> DigitValue(head[k]).None?
    requires f <= |head| && s[f..f + |board|] == board
    ensures WordsUntil(s, |head| + |board| + 3)
  {
    CrossesSlash(board, s, f, |head|);
    forall k | 0 <= k < |board| ensures DigitValue(board[k]).None? {
      assert board[k] == s[f + k];
    }
    forall k | 0 <= k < |head| + |board| + 3 ensures DigitValue(s[k]).None? {
      if |head| < k <= |head| + |board| {
        assert s[k] == board[k - |head| - 1];
      }
    }
  }

  lemma NothingIsRead(board: string, head: string, tail: string, s: string)
    requires s == head + "/" + board + "/M." + tail && '/' !in board
    requires forall k :: 0 <= k < |head| ==> DigitValue(head[k]).None?
    requires Find(s, board) != |head| + 1
    ensures CompareNum(board, s) == None
  {
    hide FindFrom, TailNum, DigitValue, WordsUntil;
    assert s[|head| + 1..|head| + 1 + |board|] == board;
    FindIsFirst(s, board, 0, |head| + 1);
    NoDigitsBefore(board, head, tail, s, Find(s, board));
    NoNumberBefore(s, Find(s, board) + |board| + 3, |head| + |board| + 3);
  }

  /** The number is read exactly when the name of the board, which is a segment of the path, does not occur earlier;
    * otherwise reading raises an error. */
  lemma CompareNumReadsIff(board: string, u: Url)
    requires !u.Unnamed? && (u.Post? ==> ValidTag(u.tag)) && '/' !in board
    ensures CompareNum(board, Text(board, u)) == if Find(Text(board, u), board) == 23 then Some(Num(u)) else None
    ensures CompareNum(board, Href(board, u)) == if Find(Href(board, u), board) == 5 then Some(Num(u)) else None
  {
    hide *;
    CompareNumReadsTheNumber(board, u);
    HeadsHaveNoDigits();
    Forms(board, u);
    if Find(Text(board, u), board) != 23 {
      NothingIsRead(board, SERVER + "/bbs", Tail(u), Text(board, u));
    }
    if Find(Href(board, u), board) != 5 {
      NothingIsRead(board, "/bbs", Tail(u), Href(board, u));
    }
  }

  /** No number can be read from any address of the board "bbs". */
  lemma BbsIsUnreadable(u: Url)
    requires !u.Unnamed? && (u.Post? ==> ValidTag(u.tag))
    ensures CompareNum("bbs", Text("bbs", u)) == None && CompareNum("bbs", Href("bbs", u)) == None
  {
    var s, h := Text("bbs", u), Href("bbs", u);
    assert h[1..1 + 3] == "bbs";
    assert s[19..19 + 3] == h[1..4];
    hide Text, Href, Tail, CompareNum, FindFrom;
    FindIsFirst(s, "bbs", 0, 19);
    FindIsFirst(h, "bbs", 0, 1);
    CompareNumReadsIff("bbs", u);
  }

  lemma {:induction false} DigitsWithoutLast(n: nat, k: nat)
    requires n >= Ten(k)
    ensures |Digits(n)| > k && Digits(n)[..|Digits(n)| - k] == Digits(n / Ten(k))
    decreases k
  {
    if k > 0 {
      assert n / 10 >= Ten(k - 1);
      DigitsWithoutLast(n / 10, k - 1);
      DivTwice(n, Ten(k - 1));
      var d := Digits(n);
      assert d[..|d| - k] == Digits(n / 10)[..|d| - k];
    } else {
      assert Digits(n)[..|Digits(n)|] == Digits(n);
    }
  }

  function Ten(k: nat): (p: nat)
    ensures p > 0
  {
    if k == 0 then 1 else 10 * Ten(k - 1)
  }

  lemma DivTwice(n: nat, m: nat)
    requires m > 0
    ensures (n / 10) / m == n / (10 * m)
  {
    var q := n / 10;
    var a, b := q / m, q % m;
    assert n == 10 * (m * a + b) + n % 10;
    assert n == (10 * m) * a + (10 * b + n % 10);
    ModUnique(n, 10 * m, a, 10 * b + n % 10);
  }

  lemma NineZeros()
    ensures Ten(9) == 1_000_000_000
  {
    assert Ten(3) == 1000 && Ten(6) == 1000000;
  }

  /** Cutting eleven characters off and appending the mark makes the text of the stub. */
  lemma StubTextIsStub(board: string, u: Url)
    requires !u.Unnamed? && (u.Post? ==> ValidTag(u.tag)) && !StubOf(u).Unnamed?
    ensures StubText(Text(board, u)) == Text(board, StubOf(u))
  {
    hide Digits, Ten;
    var head := SERVER + "/bbs/" + board + "/M.";
    var t, d := Text(board, u), Digits(u.num);
    assert t == head + Tail(u);
    if u.Post? {
      assert t[..|t| - 11] == head + d;
      assert Take(t, -11) == head + d;
    } else {
      NineZeros();
      DigitsWithoutLast(u.num, 9);
      assert t == head + (d + "_x");
      assert t[..|t| - 11] == head + d[..|d| - 9];
      assert Take(t, -11) == head + Digits(u.num / 1_000_000_000);
    }
  }
}

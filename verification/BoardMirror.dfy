/** Mirroring a board: the generator that hands out addresses from newest to
  * oldest, and the thread that stores them under decreasing ids.
  */
module BoardMirror {
  import opened Urls
  import opened MinerStore
  import opened BoardSearch

  function Reverse(us: seq<Href>): (r: seq<Href>)
    ensures |r| == |us|
    ensures forall k :: 0 <= k < |us| ==> r[k] == us[|us| - 1 - k]
  {
    if us == [] then [] else Reverse(us[1..]) + [us[0]]
  }

  /** The addresses on pages hi, ..., 1, newest first. */
  function Down(pages: Pages, hi: int): seq<Href>
    decreases hi
  {
    if hi <= 0 then [] else Reverse(Page(pages, hi)) + Down(pages, hi - 1)
  }

  /** Never newer than the one before. */
  ghost predicate Descending(us: seq<Href>)
  {
    forall i, j :: 0 <= i <= j < |us| ==> Num(us[i]) >= Num(us[j])
  }

  /** Where the generator is: the addresses not yet looked at, newest first, and the last one handed out. */
  datatype Cursor = Cursor(pending: seq<Href>, prev: Url)

  /** The next address handed out, and where that leaves the generator. */
  function HandOne(c: Cursor, minNum: int): (Url, Cursor) {
    if c.pending == [] then (StubOf(c.prev), c)
    else if Num(c.pending[0]) <= minNum then (StubOf(c.prev), Cursor(c.pending[1..], c.prev))
    else (c.pending[0], Cursor(c.pending[1..], c.pending[0]))
  }

  /** The first n addresses handed out. */
  function Handed(c: Cursor, minNum: int, n: nat): (s: seq<Url>)
    ensures |s| == n
    decreases n
  {
    if n == 0 then [] else [HandOne(c, minNum).0] + Handed(HandOne(c, minNum).1, minNum, n - 1)
  }

  /** The generator after it has handed out n addresses. */
  function After(c: Cursor, minNum: int, n: nat): Cursor
    decreases n
  {
    if n == 0 then c else After(HandOne(c, minNum).1, minNum, n - 1)
  }

  /** n times the same address. */
  function Repeat(u: Url, n: nat): (s: seq<Url>)
    ensures |s| == n && forall k :: 0 <= k < n ==> s[k] == u
  {
    if n == 0 then [] else [u] + Repeat(u, n - 1)
  }

  function Last(us: seq<Href>, prev: Url): Url {
    if us == [] then prev else us[|us| - 1]
  }

  /** When the newer addresses come first, exactly they are handed out, in order, and then one
    * stub for ever, made from the last of them. */
  lemma {:induction false} HandedIsNewerThenStubs(newer: seq<Href>, older: seq<Href>, minNum: int, prev: Url, n: nat)
    requires forall k :: 0 <= k < |newer| ==> Num(newer[k]) > minNum
    requires forall k :: 0 <= k < |older| ==> Num(older[k]) <= minNum
    ensures Handed(Cursor(newer + older, prev), minNum, n) ==
            if n <= |newer| then newer[..n] else newer + Repeat(StubOf(Last(newer, prev)), n - |newer|)
    decreases n
  {
    hide StubOf, Repeat;
    if newer == [] {
      assert newer + older == older;
      HandedIsStubs(older, minNum, prev, n);
    } else if n > 0 {
      HandedIsNewerThenStubs(newer[1..], older, minNum, newer[0], n - 1);
      assert (newer + older)[1..] == newer[1..] + older;
      assert Last(newer[1..], newer[0]) == Last(newer, prev);
    }
  }

  lemma {:induction false} HandedIsStubs(older: seq<Href>, minNum: int, prev: Url, n: nat)
    requires forall k :: 0 <= k < |older| ==> Num(older[k]) <= minNum
    ensures Handed(Cursor(older, prev), minNum, n) == Repeat(StubOf(prev), n)
    decreases n
  {
    if n > 0 {
      HandedIsStubs(if older == [] then [] else older[1..], minNum, prev, n - 1);
    }
  }

  // ----- The listing read from the end -----

  lemma {:induction false} DownElement(pages: Pages, hi: int, k: nat) returns (i: int, l: nat)
    requires k < |Down(pages, hi)|
    ensures 1 <= i <= hi && l < |Page(pages, i)| && Down(pages, hi)[k] == Page(pages, i)[l]
    decreases hi
  {
    var page := Page(pages, hi);
    if k < |page| {
      i, l := hi, |page| - 1 - k;
    } else {
      i, l := DownElement(pages, hi - 1, k - |page|);
    }
  }

  lemma {:induction false} DownSorted(pages: Pages, hi: int)
    requires SortedPages(pages)
    ensures Descending(Down(pages, hi))
    decreases hi
  {
    hide SortedPages, Reverse;
    if hi > 0 {
      DownSorted(pages, hi - 1);
      PageIsNewer(pages, hi);
      PageDescends(pages, hi);
      PageThenRest(pages, hi, Reverse(Page(pages, hi)), Down(pages, hi - 1));
    }
  }

  lemma PageThenRest(pages: Pages, hi: int, page: seq<Href>, rest: seq<Href>)
    requires hi > 0 && page == Reverse(Page(pages, hi)) && rest == Down(pages, hi - 1)
    requires Descending(page) && Descending(rest)
    requires forall i, j :: 0 <= i < |page| && 0 <= j < |rest| ==> Num(page[i]) >= Num(rest[j])
    ensures Descending(Down(pages, hi))
  {
    assert Down(pages, hi) == page + rest;
    hide *;
    DescendingConcat(page, rest);
  }

  lemma PageDescends(pages: Pages, hi: int)
    requires SortedPages(pages)
    ensures Descending(Reverse(Page(pages, hi)))
  {
  }

  lemma PageIsNewer(pages: Pages, hi: int)
    requires SortedPages(pages)
    ensures var page, rest := Reverse(Page(pages, hi)), Down(pages, hi - 1);
            forall i, j :: 0 <= i < |page| && 0 <= j < |rest| ==> Num(page[i]) >= Num(rest[j])
  {
    hide Reverse, Down;
    var page, rest := Page(pages, hi), Down(pages, hi - 1);
    forall i, j | 0 <= i < |page| && 0 <= j < |rest|
      ensures Num(Reverse(page)[i]) >= Num(rest[j])
    {
      var p, l := DownElement(pages, hi - 1, j);
      assert Num(Page(pages, p)[l]) < Num(page[|page| - 1 - i]);
    }
  }

  lemma DescendingConcat(a: seq<Href>, b: seq<Href>)
    requires Descending(a) && Descending(b)
    requires forall i, j :: 0 <= i < |a| && 0 <= j < |b| ==> Num(a[i]) >= Num(b[j])
    ensures Descending(a + b)
  {
    var c := a + b;
    forall i, j | 0 <= i <= j < |c| ensures Num(c[i]) >= Num(c[j]) {
      assert c[i] == if i < |a| then a[i] else b[i - |a|];
      assert c[j] == if j < |a| then a[j] else b[j - |a|];
    }
  }

  lemma {:induction false} NewerInConcat(a: seq<Href>, b: seq<Href>, target: int)
    ensures NewerIn(a + b, target) == NewerIn(a, target) + NewerIn(b, target)
    decreases |a|
  {
    if a == [] {
      assert a + b == b;
    } else {
      assert (a + b)[1..] == a[1..] + b;
      NewerInConcat(a[1..], b, target);
    }
  }

  lemma {:induction false} NewerInReverse(us: seq<Href>, target: int)
    ensures |NewerIn(Reverse(us), target)| == |NewerIn(us, target)|
    decreases |us|
  {
    if us != [] {
      NewerInReverse(us[1..], target);
      NewerInConcat(Reverse(us[1..]), [us[0]], target);
    }
  }

  /** The newer addresses are counted page by page. */
  lemma {:induction false} CountDown(pages: Pages, hi: nat, target: int)
    ensures |NewerIn(Down(pages, hi), target)| == CountNewer(pages, hi, target)
  {
    if hi > 0 {
      hide NewerIn, Reverse;
      CountDown(pages, hi - 1, target);
      CountPage(Page(pages, hi), Down(pages, hi - 1), target);
    }
  }

  lemma CountPage(page: seq<Href>, rest: seq<Href>, target: int)
    ensures |NewerIn(Reverse(page) + rest, target)| == |NewerIn(page, target)| + |NewerIn(rest, target)|
  {
    hide NewerIn, Reverse;
    NewerInReverse(page, target);
    NewerInConcat(Reverse(page), rest, target);
  }

  /** In a descending list the newer addresses are a prefix. */
  lemma {:induction false} NewerIsPrefix(us: seq<Href>, target: int)
    requires Descending(us)
    ensures var k := |NewerIn(us, target)|;
            && k <= |us|
            && (forall i :: 0 <= i < k ==> Num(us[i]) > target)
            && (forall i :: k <= i < |us| ==> Num(us[i]) <= target)
    decreases |us|
  {
    if us != [] {
      NewerIsPrefix(us[1..], target);
      var k := |NewerIn(us[1..], target)|;
      assert k > 0 ==> Num(us[1..][0]) > target;
      forall i | 0 < i < |us| ensures us[i] == us[1..][i - 1] {
      }
    }
  }

  /** The addresses of the board newer than the target, newest first. */
  function NewerThan(pages: Pages, target: int): seq<Href>
  {
    var d := Down(pages, |pages|);
    var k := CountNewer(pages, |pages|, target);
    if k <= |d| then d[..k] else d
  }

  lemma BoardSplits(pages: Pages, target: int)
    requires SortedPages(pages)
    ensures var d, newer := Down(pages, |pages|), NewerThan(pages, target);
            && Descending(d) && |newer| == CountNewer(pages, |pages|, target) <= |d|
            && newer == d[..|newer|]
            && (forall i :: 0 <= i < |newer| ==> Num(newer[i]) > target)
            && (forall i :: |newer| <= i < |d| ==> Num(d[i]) <= target)
  {
    DownSorted(pages, |pages|);
    CountDown(pages, |pages|, target);
    NewerIsPrefix(Down(pages, |pages|), target);
  }

  /** The addresses older than the target, in the order given. */
  function OlderIn(us: seq<Href>, target: int): (s: seq<Href>)
  {
    if us == [] then []
    else (if Num(us[0]) < target then [us[0]] else []) + OlderIn(us[1..], target)
  }

  lemma {:induction false} OlderInConcat(a: seq<Href>, b: seq<Href>, target: int)
    ensures OlderIn(a + b, target) == OlderIn(a, target) + OlderIn(b, target)
    decreases |a|
  {
    if a == [] {
      assert a + b == b;
    } else {
      assert (a + b)[1..] == a[1..] + b;
      OlderInConcat(a[1..], b, target);
    }
  }

  /** In a descending list the older addresses are the last ones. */
  lemma {:induction false} OlderIsSuffix(us: seq<Href>, target: int)
    requires Descending(us)
    ensures Descending(OlderIn(us, target)) && forall k :: 0 <= k < |OlderIn(us, target)| ==> Num(OlderIn(us, target)[k]) < target
    decreases |us|
  {
    if us != [] {
      if Num(us[0]) < target {
        OlderInAll(us, target);
      } else {
        OlderIsSuffix(us[1..], target);
        assert OlderIn(us, target) == OlderIn(us[1..], target);
      }
    }
  }

  lemma {:induction false} OlderInReverse(us: seq<Href>, target: int)
    ensures OlderIn(Reverse(us), target) == Reverse(OlderIn(us, target))
    decreases |us|
  {
    if us != [] {
      OlderInReverse(us[1..], target);
      OlderInConcat(Reverse(us[1..]), [us[0]], target);
      var older := OlderIn(us[1..], target);
      assert ([us[0]] + older)[1..] == older;
      assert [] + older == older;
    }
  }

  lemma {:induction false} OlderInAll(us: seq<Href>, target: int)
    ensures (forall k :: 0 <= k < |us| ==> Num(us[k]) < target) ==> OlderIn(us, target) == us
    ensures (forall k :: 0 <= k < |us| ==> Num(us[k]) >= target) ==> OlderIn(us, target) == []
    decreases |us|
  {
    if us != [] {
      OlderInAll(us[1..], target);
    }
  }

  /** What is pending when filling old documents from page p. */
  function OldPending(pages: Pages, p: int, target: int, startPage: int): seq<Href>
  {
    Reverse(OlderIn(Page(pages, p), target)) + Down(pages, startPage - 1)
  }

  lemma DownBelow(pages: Pages, p: nat, target: int)
    requires Separates(pages, p, target)
    ensures OlderIn(Down(pages, p - 1), target) == Down(pages, p - 1)
  {
    var d := Down(pages, p - 1);
    forall k | 0 <= k < |d| ensures Num(d[k]) < target {
      var i, l := DownElement(pages, p - 1, k);
      assert AllBelow(pages, i, target);
    }
    OlderInAll(d, target);
  }

  lemma OlderOnPage(page: seq<Href>, rest: seq<Href>, target: int)
    ensures OlderIn(Reverse(page) + rest, target) == Reverse(OlderIn(page, target)) + OlderIn(rest, target)
    ensures (forall k :: 0 <= k < |page| ==> Num(page[k]) > target) ==>
              OlderIn(Reverse(page) + rest, target) == OlderIn(rest, target)
  {
    OlderInConcat(Reverse(page), rest, target);
    OlderInReverse(page, target);
    OlderInAll(page, target);
    assert [] + OlderIn(rest, target) == OlderIn(rest, target);
  }

  lemma OlderAtPage(pages: Pages, p: nat, target: int)
    requires Separates(pages, p, target) && 1 <= p
    ensures OlderIn(Down(pages, p), target) == OldPending(pages, p, target, p)
  {
    DownBelow(pages, p, target);
    OlderOnPage(Page(pages, p), Down(pages, p - 1), target);
  }

  lemma OlderPastPage(pages: Pages, hi: nat, target: int)
    requires AllAbove(pages, hi, target) && hi >= 1
    ensures OlderIn(Down(pages, hi), target) == OlderIn(Down(pages, hi - 1), target)
  {
    OlderOnPage(Page(pages, hi), Down(pages, hi - 1), target);
  }

  lemma {:induction false} OlderFromPage(pages: Pages, p: nat, hi: nat, target: int)
    requires Separates(pages, p, target) && 1 <= p <= hi
    ensures OlderIn(Down(pages, hi), target) == OldPending(pages, p, target, p)
    decreases hi
  {
    hide Reverse, OlderIn, Down, OldPending;
    if hi == p {
      OlderAtPage(pages, p, target);
    } else {
      OlderFromPage(pages, p, hi - 1, target);
      OlderPastPage(pages, hi, target);
    }
  }

  /** Started from the separating page, the generator has every older address before it, newest first. */
  lemma OldPendingIsAllOlder(pages: Pages, p: nat, target: int)
    requires Separates(pages, p, target) && 1 <= p <= |pages| + 1
    ensures OldPending(pages, p, target, p) == OlderIn(Down(pages, |pages|), target)
  {
    if p == |pages| + 1 {
      DownBelow(pages, p, target);
      assert Page(pages, p) == [];
      assert [] + Down(pages, |pages|) == Down(pages, |pages|);
    } else {
      OlderFromPage(pages, p, |pages|, target);
    }
  }

  lemma {:induction false} DownLength(pages: Pages, lo: int, hi: int)
    requires lo <= hi
    ensures |Down(pages, hi)| == |Down(pages, lo)| + Total(pages, (if lo < 0 then 0 else lo) + 1, hi)
    decreases hi - lo
  {
    if lo < hi && hi > 0 {
      DownLength(pages, lo, hi - 1);
    }
  }

  lemma {:induction false} TotalZeroIff(pages: Pages, lo: int, hi: int)
    ensures Total(pages, lo, hi) == 0 <==> forall i :: lo <= i <= hi ==> Page(pages, i) == []
    decreases hi - lo
  {
    if lo <= hi {
      TotalZeroIff(pages, lo, hi - 1);
    }
  }

  ghost predicate EmptyBetween(pages: Pages, lo: int, hi: int) {
    forall i :: lo <= i < hi ==> Page(pages, i) == []
  }

  /** The program starts its generator from the last page of the board instead of page p.  That hands
    * out the same addresses exactly when every page in between, counted from the earlier one, is empty. */
  lemma StartingFromLastPageIff(pages: Pages, p: nat, target: int)
    requires Separates(pages, p, target) && 1 <= p <= |pages| + 1 && |pages| >= 1
    ensures OldPending(pages, p, target, |pages|) == OlderIn(Down(pages, |pages|), target) <==>
            if p < |pages| then EmptyBetween(pages, p, |pages|) else EmptyBetween(pages, |pages|, p)
  {
    OldPendingIsAllOlder(pages, p, target);
    OldPendingSameIff(pages, p, target, |pages|);
  }

  lemma OldPendingSameIff(pages: Pages, p: nat, target: int, q: nat)
    requires 1 <= p && 1 <= q
    ensures OldPending(pages, p, target, q) == OldPending(pages, p, target, p) <==>
            if p < q then EmptyBetween(pages, p, q) else EmptyBetween(pages, q, p)
  {
    hide Reverse, OlderIn, Down, EmptyBetween;
    SamePrefix(Reverse(OlderIn(Page(pages, p), target)), Down(pages, q - 1), Down(pages, p - 1));
    if p < q {
      SameDownIff(pages, p - 1, q - 1);
    } else {
      SameDownIff(pages, q - 1, p - 1);
    }
  }

  lemma SamePrefix(us: seq<Href>, a: seq<Href>, b: seq<Href>)
    ensures us + a == us + b <==> a == b
  {
    assert (us + a)[|us|..] == a && (us + b)[|us|..] == b;
  }

  lemma SameDownIff(pages: Pages, lo: int, hi: int)
    requires 0 <= lo <= hi
    ensures Down(pages, lo) == Down(pages, hi) <==> EmptyBetween(pages, lo + 1, hi + 1)
  {
    DownLength(pages, lo, hi);
    TotalZeroIff(pages, lo + 1, hi);
    if Total(pages, lo + 1, hi) == 0 {
      SameDown(pages, lo, hi);
    }
  }

  lemma {:induction false} SameDown(pages: Pages, lo: int, hi: int)
    requires lo <= hi && forall i :: lo < i <= hi ==> Page(pages, i) == []
    ensures Down(pages, lo) == Down(pages, hi)
    decreases hi - lo
  {
    if lo < hi {
      SameDown(pages, lo, hi - 1);
      if hi > 0 {
        assert [] + Down(pages, hi - 1) == Down(pages, hi - 1);
      }
    }
  }

  // ----- The effect of a run on the store -----

  /** Ids start - n + 1, ..., start are new and got the addresses in turn, from the top; nothing else changed. */
  ghost predicate Filled(was: Files, now: Files, start: int, n: nat, urls: seq<Url>)
    requires |urls| >= n
  {
    && (forall id :: id in now <==> id in was || start - n < id <= start)
    && (forall id :: id in was ==> !(start - n < id <= start) && now[id] == was[id])
    && (forall j :: 0 <= j < n ==> now[start - j].url == urls[j])
  }

  /** The store after a lone run that starts at the id: it stores what the generator hands out, id after
    * id downwards, until an id is taken already or ids run out. */
  function StoreDown(web: Web, files: Files, id: int, c: Cursor, minNum: int, fetch: nat): Files
    decreases id
  {
    if id < 0 || id in files then files
    else
      var (url, c') := HandOne(c, minNum);
      StoreDown(web, files[id := MakeDocument(id, url, web(url, fetch))], id - 1, c', minNum, fetch + 1)
  }

  /** Number of free ids in a row from the id downwards. */
  function Free(files: Files, id: int): nat
    decreases id
  {
    if id < 0 || id in files then 0 else 1 + Free(files, id - 1)
  }

  lemma {:induction false} FreeSame(files: Files, files': Files, id: int)
    requires forall j :: j <= id ==> (j in files <==> j in files')
    ensures Free(files, id) == Free(files', id)
    decreases id
  {
    if id >= 0 && id !in files {
      FreeSame(files, files', id - 1);
    }
  }

  lemma {:induction false} FreeIsFree(files: Files, id: int)
    requires -1 <= id
    ensures var n := Free(files, id);
            && n <= id + 1
            && (forall j :: id - n < j <= id ==> j !in files)
            && (n == id + 1 || id - n in files)
    decreases id
  {
    if id >= 0 && id !in files {
      FreeIsFree(files, id - 1);
    }
  }

  lemma {:induction false} FreeAboveNewest(files: Files, maxId: int, n: nat)
    requires ValidFiles(files, maxId)
    ensures Free(files, maxId + n) == n
    decreases n
  {
    if n > 0 {
      FreeAboveNewest(files, maxId, n - 1);
    }
  }

  lemma FilledCons(was: Files, now: Files, start: int, n: nat, urls: seq<Url>, doc: Document)
    requires |urls| == n && start !in was && Filled(was[start := doc], now, start - 1, n, urls)
    ensures Filled(was, now, start, n + 1, [doc.url] + urls)
  {
    var all := [doc.url] + urls;
    assert now[start] == was[start := doc][start];
    forall j | 0 <= j < n + 1 ensures now[start - j].url == all[j] {
      if j > 0 {
        assert now[start - 1 - (j - 1)].url == urls[j - 1];
      }
    }
    forall id | id in was ensures !(start - (n + 1) < id <= start) && now[id] == was[id] {
      assert id in was[start := doc];
    }
  }

  /** A run stores the addresses handed out under the free ids, in turn, and touches nothing else. */
  lemma {:induction false} StoreDownFills(web: Web, files: Files, id: int, c: Cursor, minNum: int, fetch: nat)
    requires -1 <= id
    ensures Filled(files, StoreDown(web, files, id, c, minNum, fetch), id, Free(files, id), Handed(c, minNum, Free(files, id)))
    decreases id
  {
    if id >= 0 && id !in files {
      var (url, c') := HandOne(c, minNum);
      var doc := MakeDocument(id, url, web(url, fetch));
      StoreDownFills(web, files[id := doc], id - 1, c', minNum, fetch + 1);
      FreeSame(files, files[id := doc], id - 1);
      var n := Free(files, id - 1);
      FilledCons(files, StoreDown(web, files, id, c, minNum, fetch), id, n, Handed(c', minNum, n), doc);
    }
  }

  /** The number the listener compares with: that of the newest stored address, or less than any. */
  function NewestNum(files: Files, maxId: int): int
    requires ValidFiles(files, maxId) && AllNamed(files)
  {
    if maxId >= 0 then Num(files[maxId].url) else -2
  }

  /** The store after a lone run that fetched n new documents: the newer addresses have the top ids in
    * their order, the ids below have the stub of the oldest of them, and the old ids are unchanged. */
  ghost predicate Fetched(was: Files, maxId: int, now: Files, newer: seq<Href>, n: nat) {
    && 1 <= |newer| <= n
    && (forall id :: id in now <==> id in was || maxId < id <= maxId + n)
    && (forall id :: id in was ==> now[id] == was[id])
    && (forall j :: 0 <= j < |newer| ==> now[maxId + n - j].url == newer[j])
    && (forall id :: maxId < id <= maxId + n - |newer| ==> now[id].url == StubOf(newer[|newer| - 1]))
  }

  /** The first n of the addresses, all of them when there are fewer. */
  function FirstOf(us: seq<Href>, n: nat): seq<Href> {
    if n < |us| then us[..n] else us
  }

  /** What a run leaves that fetches n documents: when the estimate n falls short, the newest n addresses. */
  lemma FetchNewStores(was: Files, maxId: int, now: Files, pages: Pages, n: nat)
    requires ValidFiles(was, maxId) && AllNamed(was) && SortedPages(pages)
    requires CountNewer(pages, |pages|, NewestNum(was, maxId)) >= 1 && n >= 1
    requires Filled(was, now, maxId + n, n, Handed(Cursor(Down(pages, |pages|), Unnamed), NewestNum(was, maxId), n))
    ensures Fetched(was, maxId, now, FirstOf(NewerThan(pages, NewestNum(was, maxId)), n), n)
  {
    hide Filled, Fetched, Handed, SortedPages, Descending, CountNewer, Down;
    var target := NewestNum(was, maxId);
    BoardSplits(pages, target);
    var d, newer := Down(pages, |pages|), NewerThan(pages, target);
    TakeDrop(d, |newer|);
    FetchedFromSplit(was, maxId, now, newer, d[|newer|..], target, n);
  }

  lemma TakeDrop(d: seq<Href>, k: nat)
    requires k <= |d|
    ensures d[..k] + d[k..] == d
  {
  }

  lemma FetchedFromSplit(was: Files, maxId: int, now: Files, newer: seq<Href>, older: seq<Href>, target: int, n: nat)
    requires ValidFiles(was, maxId) && |newer| >= 1 && n >= 1
    requires forall k :: 0 <= k < |newer| ==> Num(newer[k]) > target
    requires forall k :: 0 <= k < |older| ==> Num(older[k]) <= target
    requires Filled(was, now, maxId + n, n, Handed(Cursor(newer + older, Unnamed), target, n))
    ensures Fetched(was, maxId, now, FirstOf(newer, n), n)
  {
    hide Filled, Fetched, Handed, Repeat, StubOf;
    HandedIsNewerThenStubs(newer, older, target, Unnamed, n);
    assert n < |newer| ==> newer[..n][..n] == newer[..n];
    FilledFromTop(was, maxId, now, FirstOf(newer, n), n);
  }

  lemma FilledFromTop(was: Files, maxId: int, now: Files, newer: seq<Href>, n: nat)
    requires ValidFiles(was, maxId) && 1 <= |newer| <= n
    requires Filled(was, now, maxId + n, n,
               if n <= |newer| then newer[..n] else newer + Repeat(StubOf(Last(newer, Unnamed)), n - |newer|))
    ensures Fetched(was, maxId, now, newer, n)
  {
    var k := |newer|;
    var handed := if n <= |newer| then newer[..n] else newer + Repeat(StubOf(Last(newer, Unnamed)), n - |newer|);
    forall j | 0 <= j < k ensures now[maxId + n - j].url == newer[j] {
      assert handed[j] == newer[j];
    }
    forall id | maxId < id <= maxId + n - k ensures now[id].url == StubOf(newer[k - 1]) {
      var j := maxId + n - id;
      assert now[maxId + n - j].url == handed[j];
    }
  }

  /** The address of a document after such a run, and how its number compares with the newest stored before. */
  lemma FetchedAddress(was: Files, maxId: int, now: Files, newer: seq<Href>, n: nat, id: int)
    requires ValidFiles(was, maxId) && AllNamed(was) && SortedFiles(was)
    requires Fetched(was, maxId, now, newer, n) && id in now
    requires forall j :: 0 <= j < |newer| ==> Num(newer[j]) > NewestNum(was, maxId)
    ensures if id <= maxId then
              id in was && now[id].url == was[id].url && !was[id].url.Unnamed? && Num(was[id].url) <= NewestNum(was, maxId)
            else if id <= maxId + n - |newer| then
              now[id].url == StubOf(newer[|newer| - 1]) && Num(now[id].url) == Num(newer[|newer| - 1]) - 1 >= NewestNum(was, maxId)
            else
              0 <= maxId + n - id < |newer| && now[id].url == newer[maxId + n - id]
  {
    if id > maxId {
      StubIsOlder(newer[|newer| - 1]);
      if id > maxId + n - |newer| {
        var j := maxId + n - id;
        assert now[maxId + n - j].url == newer[j];
      }
    }
  }

  /** A lone run that fetches new documents keeps the stored numbers from decreasing. */
  lemma FetchNewKeepsOrder(was: Files, maxId: int, now: Files, newer: seq<Href>, n: nat)
    requires ValidFiles(was, maxId) && AllNamed(was) && SortedFiles(was)
    requires Fetched(was, maxId, now, newer, n) && Descending(newer)
    requires forall j :: 0 <= j < |newer| ==> Num(newer[j]) > NewestNum(was, maxId)
    ensures AllNamed(now) && SortedFiles(now)
  {
    forall id | id in now ensures !now[id].url.Unnamed? {
      FetchedAddress(was, maxId, now, newer, n, id);
    }
    forall i, j | i in now && j in now && i < j ensures Num(now[i].url) <= Num(now[j].url) {
      FetchedAddress(was, maxId, now, newer, n, i);
      FetchedAddress(was, maxId, now, newer, n, j);
    }
  }

  ghost predicate Unrepeated(files: Files) {
    forall i, j :: i in files && j in files && i < j ==> files[i].url != files[j].url
  }

  ghost predicate DistinctList(us: seq<Url>) {
    forall i, j :: 0 <= i < j < |us| ==> us[i] != us[j]
  }

  ghost predicate Stored(files: Files, url: Url) {
    exists id :: id in files && files[id].url == url
  }

  /** The run leaves every stored document an address of its own exactly when it handed out no stub, or
    * one stub that was not stored before. */
  lemma FetchNewKeepsOwnAddressesIff(was: Files, maxId: int, now: Files, newer: seq<Href>, n: nat)
    requires ValidFiles(was, maxId) && AllNamed(was) && SortedFiles(was) && Unrepeated(was)
    requires Fetched(was, maxId, now, newer, n) && DistinctList(newer)
    requires forall j :: 0 <= j < |newer| ==> Num(newer[j]) > NewestNum(was, maxId)
    ensures Unrepeated(now) <==>
            n == |newer| || (n == |newer| + 1 && !Stored(was, StubOf(newer[|newer| - 1])))
  {
    var stub := StubOf(newer[|newer| - 1]);
    if n >= |newer| + 2 {
      assert now[maxId + 1].url == stub && now[maxId + 2].url == stub;
    } else if n == |newer| + 1 && Stored(was, stub) {
      var id :| id in was && was[id].url == stub;
      assert now[id].url == now[maxId + 1].url;
    } else {
      forall i, j | i in now && j in now && i < j ensures now[i].url != now[j].url {
        FetchedAddress(was, maxId, now, newer, n, i);
        FetchedAddress(was, maxId, now, newer, n, j);
      }
    }
  }

  // ----- The program -----

  lemma NextPage(pages: Pages, i: int)
    requires i >= 1
    ensures Reverse([]) + Down(pages, i) == Reverse(Page(pages, i)) + Down(pages, i - 1)
  {
    assert [] + Down(pages, i) == Down(pages, i);
  }

  lemma NothingPending(pages: Pages, i: int)
    requires i <= 1
    ensures Reverse([]) + Down(pages, i - 1) == []
  {
  }

  lemma LastIsFirst(us: seq<Href>, u: Href, rest: seq<Href>)
    ensures Reverse(us + [u]) + rest == [u] + (Reverse(us) + rest)
  {
    hide Reverse;
    ReverseSnoc(us, u);
    assert ([u] + Reverse(us)) + rest == [u] + (Reverse(us) + rest);
  }

  lemma {:induction false} ReverseSnoc(us: seq<Href>, u: Href)
    ensures Reverse(us + [u]) == [u] + Reverse(us)
    decreases |us|
  {
    if us == [] {
      assert [u] + Reverse([]) == [u] && Reverse([u][1..]) + [u] == [u] && us + [u] == [u];
    } else {
      ReverseSnoc(us[1..], u);
      assert (us + [u])[1..] == us[1..] + [u];
      assert ([u] + Reverse(us[1..])) + [us[0]] == [u] + (Reverse(us[1..]) + [us[0]]);
    }
  }

  lemma HandFirst(u: Href, rest: seq<Href>, prev: Url, minNum: int)
    ensures HandOne(Cursor([u] + rest, prev), minNum) ==
            if Num(u) <= minNum then (StubOf(prev), Cursor(rest, prev)) else (u, Cursor(rest, u))
  {
    assert ([u] + rest)[1..] == rest;
  }

  class UrlGenerator {
    const pages: Pages
    const minUrlNum: int
    var currPageIdx: int
    var currPageUrls: seq<Href>
    var prevUrl: Url

    ghost function At(): Cursor
      reads this
    {
      Cursor(Reverse(currPageUrls) + Down(pages, currPageIdx - 1), prevUrl)
    }

    constructor (pages: Pages, minUrlNum: int, maxPageIdx: int, urls: seq<Href>, prevUrl: Url)
      ensures this.pages == pages && this.minUrlNum == minUrlNum
      ensures At() == Cursor(Reverse(urls) + Down(pages, maxPageIdx - 1), prevUrl)
    {
      this.pages, this.minUrlNum, currPageIdx, currPageUrls, this.prevUrl := pages, minUrlNum, maxPageIdx, urls, prevUrl;
    }

    method Next() returns (url: Url)
      modifies this
      ensures (url, At()) == HandOne(old(At()), minUrlNum)
    {
      hide Reverse, Down;
      ghost var start := At();
      while currPageIdx > 1 && currPageUrls == []
        invariant At() == start
        decreases currPageIdx
      {
        NextPage(pages, currPageIdx - 1);
        currPageIdx := currPageIdx - 1;
        currPageUrls := Page(pages, currPageIdx);
      }
      if currPageUrls == [] {
        NothingPending(pages, currPageIdx);
        return StubOf(prevUrl);
      }
      var last := |currPageUrls| - 1;
      var curr := currPageUrls[last];
      LastIsFirst(currPageUrls[..last], curr, Down(pages, currPageIdx - 1));
      HandFirst(curr, Reverse(currPageUrls[..last]) + Down(pages, currPageIdx - 1), prevUrl, minUrlNum);
      assert currPageUrls[..last] + [curr] == currPageUrls;
      currPageUrls := currPageUrls[..last];
      if Num(curr) <= minUrlNum {
        return StubOf(prevUrl);
      }
      prevUrl := curr;
      return curr;
    }
  }

  class UpdateThread {
    const storage: Storage
    const urlGenerator: UrlGenerator
    var currId: int

    constructor (storage: Storage, maxId: int, urlGenerator: UrlGenerator)
      ensures this.storage == storage && this.urlGenerator == urlGenerator && currId == maxId
    {
      this.storage, this.urlGenerator, currId := storage, urlGenerator, maxId;
    }

    /** Runs alone until an id is taken already or ids run out. */
    method Run()
      requires storage.Valid() && 0 <= currId
      modifies this, storage, urlGenerator
      ensures storage.Valid()
      ensures storage.files == StoreDown(storage.web, old(storage.files), old(currId), old(urlGenerator.At()),
                                         urlGenerator.minUrlNum, old(storage.fetches))
    {
      hide HandOne, Reverse, Down;
      ghost var final := StoreDown(storage.web, storage.files, currId, urlGenerator.At(),
                                   urlGenerator.minUrlNum, storage.fetches);
      while true
        invariant storage.Valid() && 0 <= currId
        invariant final == StoreDown(storage.web, storage.files, currId, urlGenerator.At(),
                                     urlGenerator.minUrlNum, storage.fetches)
        decreases currId
      {
        var url := urlGenerator.Next();
        var succ := storage.AddDoc(currId, url);
        currId := currId - 1;
        if !succ || currId < 0 {
          break;
        }
      }
    }
  }
}

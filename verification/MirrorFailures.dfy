/** Boards and stores on which the mirror does not do what it is meant to do, one for each condition. */
module MirrorFailures {
  import opened Urls
  import opened MinerStore
  import opened BoardSearch
  import opened BoardMirror
  import opened BoardListener

  // ----- Pages without articles at the end of the board -----

  /** A first page followed by n pages on which every article has been deleted. */
  function Deserted(page: seq<Href>, n: nat): (r: Pages)
    ensures |r| == n + 1
  {
    [page] + seq(n, k => [])
  }

  lemma DesertedPage(page: seq<Href>, n: nat, i: int)
    ensures Page(Deserted(page, n), i) == if i == 1 then page else []
  {
  }

  /** Far from the end of such a board the estimate counts twenty addresses a page that are not there. */
  lemma DesertedIsOverEstimated(page: seq<Href>, n: nat, target: int)
    requires n > 50 && page != [] && Num(page[0]) <= target <= Num(page[|page| - 1])
    requires forall k, l :: 0 <= k <= l < |page| ==> Num(page[k]) <= Num(page[l])
    ensures var pages := Deserted(page, n);
            && SortedPages(pages) && Holds(pages, 1, target)
            && Estimate(pages, 1, target, |pages|) == |NewerIn(page, target)| + 20 * n
            && CountNewer(pages, |pages|, target) == |NewerIn(page, target)|
  {
    hide Deserted, Page, NewerIn, CountNewer, Total;
    var pages := Deserted(page, n);
    forall i ensures Page(pages, i) == if i == 1 then page else [] {
      DesertedPage(page, n, i);
    }
    CountSeparated(pages, 1, n + 1, target);
    TotalZeroIff(pages, 2, n + 1);
  }

  lemma NothingNewer(a: Href)
    ensures |NewerIn([a], Num(a))| == 0
  {
    assert [a][1..] == [];
  }

  lemma OneNewer(a: Href, b: Href)
    requires Num(a) < Num(b)
    ensures |NewerIn([a, b], Num(a))| == 1
  {
    assert [a, b][1..] == [b] && [b][1..] == [];
    assert NewerIn([b], Num(a)) == [b] + NewerIn([], Num(a));
    assert NewerIn([a, b], Num(a)) == [] + NewerIn([b], Num(a));
  }

  lemma DesertedReadDown(a: Href, b: Href, n: nat)
    ensures Down(Deserted([a, b], n), n + 1) == [b, a]
  {
    hide Deserted, Page;
    var pages := Deserted([a, b], n);
    forall i ensures Page(pages, i) == if i == 1 then [a, b] else [] {
      DesertedPage([a, b], n, i);
    }
    SameDown(pages, 1, n + 1);
    assert Down(pages, 1) == Reverse([a, b]) + Down(pages, 0);
    assert Reverse([a, b]) == [b, a];
  }

  lemma NewerOnDeserted(a: Href, b: Href, n: nat)
    requires Num(a) < Num(b) && SortedPages(Deserted([a, b], n))
    requires CountNewer(Deserted([a, b], n), n + 1, Num(a)) == 1
    ensures NewerThan(Deserted([a, b], n), Num(a)) == [b]
  {
    hide Deserted, Down, SortedPages, CountNewer;
    DesertedReadDown(a, b, n);
    BoardSplits(Deserted([a, b], n), Num(a));
  }

  /** A store with one document, whose address is on the first page. */
  ghost predicate Single(was: Files, d: Document, a: Href) {
    was == map[0 := d] && d.url == a && d.meta.idid == 0
  }

  lemma SingleStore(was: Files, d: Document, a: Href)
    requires Single(was, d, a)
    ensures ValidFiles(was, 0) && AllNamed(was) && SortedFiles(was) && NewestNum(was, 0) == Num(a)
  {
  }

  /** Nothing is newer than the newest stored document, and yet documents are stored, twenty for each deserted
    * page, all under an address without a number. */
  lemma NumberlessDocuments(was: Files, d: Document, a: Href, n: nat, web: Web, fetch: nat)
    requires Single(was, d, a) && n > 50
    ensures ValidFiles(was, 0) && AllNamed(was) && NewestNum(was, 0) == Num(a)
    ensures var pages := Deserted([a], n);
            && SortedPages(pages) && Holds(pages, 1, Num(a)) && CountNewer(pages, |pages|, Num(a)) == 0
            && Estimate(pages, 1, Num(a), |pages|) == 20 * n
            && var now := FetchedFiles(web, was, 0, pages, 20 * n, fetch);
               forall id :: 0 < id <= 20 * n ==> id in now && now[id].url == Unnamed
  {
    hide FetchedFiles, Estimate, CountNewer, Fetched, Deserted, SortedPages, SortedFiles, Holds, Down, NewerIn, Single;
    var pages := Deserted([a], n);
    SingleStore(was, d, a);
    DesertedIsOverEstimated([a], n, Num(a));
    NothingNewer(a);
    BoardSplits(pages, Num(a));
    FetchRun(web, was, 0, pages, 20 * n, fetch);
  }

  /** One address is newer, and the documents below it all get its stub. */
  lemma SharedStub(was: Files, d: Document, a: Href, b: Href, n: nat, web: Web, fetch: nat)
    requires Single(was, d, a) && Num(a) < Num(b) && n > 50
    ensures ValidFiles(was, 0) && AllNamed(was) && NewestNum(was, 0) == Num(a)
    ensures var pages := Deserted([a, b], n);
            && SortedPages(pages) && Holds(pages, 1, Num(a)) && Estimate(pages, 1, Num(a), |pages|) == 20 * n + 1
            && var now := FetchedFiles(web, was, 0, pages, 20 * n + 1, fetch);
               1 in now && 2 in now && now[1].url == now[2].url == StubOf(b) && !Unrepeated(now)
  {
    hide FetchedFiles, Estimate, CountNewer, Deserted, SortedPages, SortedFiles, Holds, Down, NewerIn, NewerThan, Single;
    SingleStore(was, d, a);
    DesertedIsOverEstimated([a, b], n, Num(a));
    OneNewer(a, b);
    NewerOnDeserted(a, b, n);
    FetchRun(web, was, 0, Deserted([a, b], n), 20 * n + 1, fetch);
  }

  // ----- Filling from the last page -----

  lemma OnPage(a: Href, b: Href)
    requires Num(a) < Num(b)
    ensures var pages := [[a], [b]];
            OldPending(pages, 1, Num(a), 2) == [a] && OlderIn(Down(pages, 2), Num(a)) == []
  {
    var pages := [[a], [b]];
    assert Reverse([a]) == [a] && Reverse([b]) == [b];
    assert Down(pages, 1) == Reverse(Page(pages, 1)) + Down(pages, 0) == [a];
    assert Down(pages, 2) == Reverse(Page(pages, 2)) + Down(pages, 1) == [b, a];
    assert OlderIn([a], Num(a)) == [] by {
      assert [a][1..] == [];
    }
    assert OlderIn([b, a], Num(a)) == [] by {
      assert [b, a][1..] == [a];
    }
  }

  /** The oldest stored address is on the first of two pages: filling below it stores that address again,
    * although nothing older is on the board. */
  lemma OldestStoredAgain(a: Href, b: Href, d: Document, web: Web, fetch: nat)
    requires d.url == a && d.meta.idid == 1 && Num(a) < Num(b)
    ensures var was, pages := map[1 := d], [[a], [b]];
            && ValidFiles(was, 1) && SortedPages(pages) && Holds(pages, 1, Num(a)) && Separates(pages, 1, Num(a))
            && OlderIn(Down(pages, 2), Num(a)) == []
            && var now := OldFiles(web, was, 1, pages, 1, fetch);
               0 in now && now[0].url == a == now[1].url
  {
    hide OldFiles;
    var was, pages := map[1 := d], [[a], [b]];
    OnPage(a, b);
    FillRun(web, was, 1, 1, pages, 1, fetch);
    assert Free(was, 0) == 1;
    FilledAt(was, OldFiles(web, was, 1, pages, 1, fetch), 1, [a], 1, 0);
  }

  lemma OlderOfTwo(b: Href, x: Href)
    requires Num(x) < Num(b)
    ensures OlderIn(Down([[x, b]], 1), Num(b)) == [x]
  {
    var pages := [[x, b]];
    assert Reverse([x, b]) == [b, x];
    assert Down(pages, 1) == Reverse(Page(pages, 1)) + Down(pages, 0) == [b, x];
    assert [b, x][1..] == [x] && [x][1..] == [];
    assert OlderIn([x], Num(b)) == [x] + OlderIn([], Num(b));
    assert OlderIn([b, x], Num(b)) == [] + OlderIn([x], Num(b));
  }

  /** One id is missing between two stored documents, and the board has an address older than both: it is
    * stored between them. */
  lemma GapFilledOutOfOrder(x: Href, c: Href, b: Href, d0: Document, d2: Document, web: Web, fetch: nat)
    requires d0.url == c && d2.url == b && d0.meta.idid == 0 && d2.meta.idid == 2 && Num(x) < Num(c) < Num(b)
    ensures var was, pages := map[0 := d0, 2 := d2], [[x, b]];
            && ValidFiles(was, 2) && AllNamed(was) && SortedFiles(was)
            && SortedPages(pages) && Holds(pages, 1, Num(b)) && Separates(pages, 1, Num(b))
            && var now := OldFiles(web, was, 2, pages, 1, fetch);
               !(AllNamed(now) && SortedFiles(now))
  {
    hide OldFiles, Down, OlderIn;
    var was, pages := map[0 := d0, 2 := d2], [[x, b]];
    OlderOfTwo(b, x);
    assert Free(was, 1) == 1;
    ProperFillKeepsOrderIff(web, was, 2, 2, pages, 1, fetch);
  }
}

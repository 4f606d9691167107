/** One round of the board listener: fetch what is new, then fill in what is old.
  *
  * The board does not change during a round and each thread runs alone to its
  * end.  `draws` are the random choices of the page search; a round whose
  * choices run out does nothing.
  */
module BoardListener {
  import opened Urls
  import opened MinerStore
  import opened BoardSearch
  import opened BoardMirror

  /** An over-estimate although nothing is newer fills the new ids with an address that has no number. */
  lemma NoNewerStoresUnnamed(was: Files, maxId: int, now: Files, pages: Pages, n: nat)
    requires ValidFiles(was, maxId) && AllNamed(was) && SortedPages(pages)
    requires CountNewer(pages, |pages|, NewestNum(was, maxId)) == 0
    requires Filled(was, now, maxId + n, n, Handed(Cursor(Down(pages, |pages|), Unnamed), NewestNum(was, maxId), n))
    ensures forall id :: maxId < id <= maxId + n ==> now[id].url == Unnamed
  {
    hide Filled, Down, Handed, Repeat, SortedPages, CountNewer, NewerThan, Descending;
    BoardSplits(pages, NewestNum(was, maxId));
    HandedIsStubs(Down(pages, |pages|), NewestNum(was, maxId), Unnamed, n);
    FilledWithOne(was, now, maxId, n, Unnamed);
  }

  lemma FilledWithOne(was: Files, now: Files, maxId: int, n: nat, url: Url)
    requires Filled(was, now, maxId + n, n, Repeat(url, n))
    ensures forall id :: maxId < id <= maxId + n ==> now[id].url == url
  {
    forall id | maxId < id <= maxId + n ensures now[id].url == url {
      assert now[maxId + n - (maxId + n - id)].url == Repeat(url, n)[maxId + n - id];
    }
  }

  /** The j-th address stored when filling old documents: the older addresses, then a stub for ever. */
  function OldAddress(older: seq<Href>, prev: Url, j: nat): Url {
    if j < |older| then older[j] else StubOf(Last(older, prev))
  }

  /** The store after n documents were filled in below id o. */
  ghost predicate OldFilled(was: Files, now: Files, o: int, older: seq<Href>, n: nat)
    requires o in was
  {
    && (forall id :: id in now <==> id in was || o - 1 - n < id <= o - 1)
    && (forall id :: id in was ==> !(o - 1 - n < id <= o - 1) && now[id] == was[id])
    && (forall j :: 0 <= j < n ==> now[o - 1 - j].url == OldAddress(older, was[o].url, j))
  }

  lemma OldHanded(older: seq<Href>, prev: Url, n: nat)
    ensures var handed := Handed(Cursor(older, prev), -2, n);
            forall j :: 0 <= j < n ==> handed[j] == OldAddress(older, prev, j)
  {
    assert older + [] == older;
    HandedIsNewerThenStubs(older, [], -2, prev, n);
  }

  lemma FilledIsOldFilled(was: Files, o: int, now: Files, older: seq<Href>, n: nat)
    requires o in was
    requires Filled(was, now, o - 1, n, Handed(Cursor(older, was[o].url), -2, n))
    ensures OldFilled(was, now, o, older, n)
  {
    OldHanded(older, was[o].url, n);
    var handed := Handed(Cursor(older, was[o].url), -2, n);
    forall j | 0 <= j < n ensures now[o - 1 - j].url == OldAddress(older, was[o].url, j) {
      assert now[o - 1 - j].url == handed[j];
    }
  }

  /** The j-th address handed out has a number, and is not newer than what is stored above it. */
  ghost predicate StepsDown(older: seq<Href>, prev: Url, j: nat) {
    var above, url := if j == 0 then prev else OldAddress(older, prev, j - 1), OldAddress(older, prev, j);
    !above.Unnamed? && !url.Unnamed? && Num(url) <= Num(above)
  }

  /** The addresses handed out below document o have numbers and do not get newer on the way down, and the
    * last of them is not older than the document stored below it. */
  ghost predicate OrderFits(was: Files, o: int, older: seq<Href>, n: nat)
    requires o in was && AllNamed(was)
  {
    && (forall j :: 0 <= j < n ==> StepsDown(older, was[o].url, j))
    && (n > 0 && o - 1 - n in was && StepsDown(older, was[o].url, n - 1) ==>
          Num(was[o - 1 - n].url) <= Num(OldAddress(older, was[o].url, n - 1)))
  }

  lemma {:induction false} OrderFitsDescends(older: seq<Href>, prev: Url, n: nat, i: nat, j: nat)
    requires (forall k :: 0 <= k < n ==> StepsDown(older, prev, k)) && i <= j < n
    ensures var a, b := OldAddress(older, prev, i), OldAddress(older, prev, j);
            !prev.Unnamed? && !a.Unnamed? && !b.Unnamed? && Num(b) <= Num(a) <= Num(prev)
    decreases j
  {
    hide OldAddress;
    assert StepsDown(older, prev, j);
    if j > i {
      OrderFitsDescends(older, prev, n, i, j - 1);
    } else if j > 0 {
      OrderFitsDescends(older, prev, n, j - 1, j - 1);
    }
  }

  lemma FilledAt(was: Files, now: Files, o: int, older: seq<Href>, n: nat, id: int)
    requires o in was && OldFilled(was, now, o, older, n) && o - 1 - n < id <= o - 1
    ensures id in now && now[id].url == OldAddress(older, was[o].url, o - 1 - id)
  {
    var j := o - 1 - id;
    assert now[o - 1 - j].url == OldAddress(older, was[o].url, j);
  }

  /** A document after the fill: filled in, with an address between those around the gap, or as it was. */
  lemma FilledOrOld(was: Files, maxId: int, now: Files, o: int, older: seq<Href>, n: nat, id: int)
    requires ValidFiles(was, maxId) && AllNamed(was) && SortedFiles(was) && o in was && id in now
    requires OldFilled(was, now, o, older, n) && OrderFits(was, o, older, n)
    ensures !now[id].url.Unnamed?
    ensures if o - 1 - n < id <= o - 1 then
              now[id].url == OldAddress(older, was[o].url, o - 1 - id) && Num(now[id].url) <= Num(was[o].url)
            else id in was && now[id] == was[id]
  {
    hide OldAddress, StepsDown, SortedFiles;
    if o - 1 - n < id <= o - 1 {
      FilledAt(was, now, o, older, n, id);
      OrderFitsDescends(older, was[o].url, n, o - 1 - id, o - 1 - id);
    }
  }

  lemma FilledPair(was: Files, maxId: int, now: Files, o: int, older: seq<Href>, n: nat, i: int, j: int)
    requires ValidFiles(was, maxId) && AllNamed(was) && SortedFiles(was) && o in was && i in now && j in now && i < j
    requires OldFilled(was, now, o, older, n) && OrderFits(was, o, older, n)
    requires n > 0 ==> (o - 1 - n in was || (forall id :: id in was ==> id > o - 1 - n))
    ensures !now[i].url.Unnamed? && !now[j].url.Unnamed? && Num(now[i].url) <= Num(now[j].url)
  {
    FilledOrOld(was, maxId, now, o, older, n, i);
    FilledOrOld(was, maxId, now, o, older, n, j);
    hide OldAddress, OldFilled;
    if o - 1 - n < i <= o - 1 {
      if j <= o - 1 {
        OrderFitsDescends(older, was[o].url, n, o - 1 - j, o - 1 - i);
      }
    } else if o - 1 - n < j <= o - 1 {
      assert StepsDown(older, was[o].url, n - 1);
      OrderFitsDescends(older, was[o].url, n, o - 1 - j, n - 1);
    }
  }

  lemma OrderFitsKeepsOrder(was: Files, maxId: int, now: Files, o: int, older: seq<Href>, n: nat)
    requires ValidFiles(was, maxId) && AllNamed(was) && SortedFiles(was) && o in was
    requires OldFilled(was, now, o, older, n) && n == Free(was, o - 1) && OrderFits(was, o, older, n)
    ensures AllNamed(now) && SortedFiles(now)
  {
    hide OldAddress, OldFilled, OrderFits;
    FreeIsFree(was, o - 1);
    forall id | id in now ensures !now[id].url.Unnamed? {
      FilledOrOld(was, maxId, now, o, older, n, id);
    }
    forall i, j | i in now && j in now && i < j ensures Num(now[i].url) <= Num(now[j].url) {
      FilledPair(was, maxId, now, o, older, n, i, j);
    }
  }

  lemma KeptOrderFits(was: Files, maxId: int, now: Files, o: int, older: seq<Href>, n: nat)
    requires ValidFiles(was, maxId) && AllNamed(was) && o in was
    requires OldFilled(was, now, o, older, n) && AllNamed(now) && SortedFiles(now)
    ensures OrderFits(was, o, older, n)
  {
    hide OldAddress;
    forall j | 0 <= j < n ensures o - 1 - j in now && now[o - 1 - j].url == OldAddress(older, was[o].url, j) {
      FilledAt(was, now, o, older, n, o - 1 - j);
    }
    forall j | 0 <= j < n ensures StepsDown(older, was[o].url, j) {
      assert now[o - 1 - j].url == OldAddress(older, was[o].url, j);
      if j == 0 {
        assert now[o].url == was[o].url;
      } else {
        assert now[o - 1 - (j - 1)].url == OldAddress(older, was[o].url, j - 1);
      }
    }
    if n > 0 && o - 1 - n in was {
      assert now[o - 1 - (n - 1)].url == OldAddress(older, was[o].url, n - 1);
    }
  }

  /** Filling in below document o keeps every number readable and in order exactly when what is handed out
    * fits; that can be read off the listing and the store before the run. */
  lemma FillKeepsOrderIff(was: Files, maxId: int, now: Files, o: int, older: seq<Href>, n: nat)
    requires ValidFiles(was, maxId) && AllNamed(was) && SortedFiles(was) && o in was
    requires OldFilled(was, now, o, older, n) && n == Free(was, o - 1)
    ensures AllNamed(now) && SortedFiles(now) <==> OrderFits(was, o, older, n)
  {
    if OrderFits(was, o, older, n) {
      OrderFitsKeepsOrder(was, maxId, now, o, older, n);
    }
    if AllNamed(now) && SortedFiles(now) {
      KeptOrderFits(was, maxId, now, o, older, n);
    }
  }

  /** When what is handed out are older addresses, newest first, it fits exactly when the stub, if one is used,
    * has a number, and the last address is not older than the document below the gap. */
  lemma OlderFitsIff(was: Files, o: int, older: seq<Href>, n: nat)
    requires o in was && AllNamed(was) && Descending(older)
    requires forall j :: 0 <= j < |older| ==> Num(older[j]) < Num(was[o].url)
    ensures OrderFits(was, o, older, n) <==>
            && (n > |older| ==> !StubOf(Last(older, was[o].url)).Unnamed?)
            && (n > 0 && o - 1 - n in was && !OldAddress(older, was[o].url, n - 1).Unnamed? ==>
                  Num(was[o - 1 - n].url) <= Num(OldAddress(older, was[o].url, n - 1)))
  {
    if n > |older| {
      assert OldAddress(older, was[o].url, n - 1) == StubOf(Last(older, was[o].url));
      if !StubOf(Last(older, was[o].url)).Unnamed? {
        StubIsOlder(Last(older, was[o].url));
      } else {
        assert !StepsDown(older, was[o].url, n - 1);
      }
    }
    if n > |older| ==> !StubOf(Last(older, was[o].url)).Unnamed? {
      forall j | 0 <= j < n ensures StepsDown(older, was[o].url, j) {
      }
    }
  }

  /** What the thread that fetches new documents stores for an estimate n, started from the last page. */
  function FetchedFiles(web: Web, was: Files, maxId: int, pages: Pages, n: nat, fetch: nat): Files
    requires ValidFiles(was, maxId) && AllNamed(was)
  {
    StoreDown(web, was, maxId + n,
      Cursor(Reverse(Page(pages, |pages|)) + Down(pages, |pages| - 1), Unnamed), NewestNum(was, maxId), fetch)
  }

  ghost predicate AllStored(files: Files, us: seq<Href>) {
    forall k :: 0 <= k < |us| ==> Stored(files, us[k])
  }

  lemma FetchRunFills(web: Web, was: Files, maxId: int, pages: Pages, n: nat, fetch: nat)
    requires ValidFiles(was, maxId) && AllNamed(was)
    ensures Filled(was, FetchedFiles(web, was, maxId, pages, n, fetch), maxId + n, n,
              Handed(Cursor(Down(pages, |pages|), Unnamed), NewestNum(was, maxId), n))
  {
    hide StoreDown, Filled, Down, Handed, Reverse;
    PendingAtEnd(pages);
    StoreDownFills(web, was, maxId + n, Cursor(Down(pages, |pages|), Unnamed), NewestNum(was, maxId), fetch);
    FreeAboveNewest(was, maxId, n);
  }

  /** Of newer addresses, different from each other, exactly the first n are stored. */
  lemma AllStoredIff(was: Files, maxId: int, now: Files, newer: seq<Href>, n: nat)
    requires ValidFiles(was, maxId) && AllNamed(was) && SortedFiles(was) && newer != [] && n >= 1
    requires Fetched(was, maxId, now, FirstOf(newer, n), n) && DistinctList(newer) && Descending(newer)
    requires forall j :: 0 <= j < |newer| ==> Num(newer[j]) > NewestNum(was, maxId)
    ensures AllStored(now, newer) <==> n >= |newer|
  {
    var top := FirstOf(newer, n);
    if n >= |newer| {
      forall k | 0 <= k < |newer| ensures Stored(now, newer[k]) {
        assert now[maxId + n - k].url == top[k];
      }
    } else if Stored(now, newer[n]) {
      var id :| id in now && now[id].url == newer[n];
      FetchedAddress(was, maxId, now, top, n, id);
      assert false;
    }
  }

  lemma FetchNothing(was: Files, maxId: int, now: Files, pages: Pages, n: nat)
    requires ValidFiles(was, maxId) && AllNamed(was) && SortedPages(pages)
    requires NewerThan(pages, NewestNum(was, maxId)) == []
    requires Filled(was, now, maxId + n, n, Handed(Cursor(Down(pages, |pages|), Unnamed), NewestNum(was, maxId), n))
    ensures forall id :: maxId < id <= maxId + n ==> id in now && now[id].url == Unnamed
  {
    hide Handed, Down, SortedPages, CountNewer, NewerThan, NewestNum, Descending;
    BoardSplits(pages, NewestNum(was, maxId));
    NoNewerStoresUnnamed(was, maxId, now, pages, n);
  }

  lemma NewerIsSorted(pages: Pages, target: int)
    requires SortedPages(pages)
    ensures var newer := NewerThan(pages, target);
            && |newer| == CountNewer(pages, |pages|, target) && Descending(newer)
            && forall j :: 0 <= j < |newer| ==> Num(newer[j]) > target
  {
    hide SortedPages, CountNewer, Down;
    BoardSplits(pages, target);
  }

  lemma FirstIsSorted(newer: seq<Href>, n: nat, target: int)
    requires Descending(newer) && forall j :: 0 <= j < |newer| ==> Num(newer[j]) > target
    ensures Descending(FirstOf(newer, n)) && forall j :: 0 <= j < |FirstOf(newer, n)| ==> Num(FirstOf(newer, n)[j]) > target
  {
  }

  lemma FetchSome(was: Files, maxId: int, now: Files, pages: Pages, n: nat, newer: seq<Href>)
    requires ValidFiles(was, maxId) && AllNamed(was) && SortedFiles(was) && SortedPages(pages) && n >= 1
    requires newer == NewerThan(pages, NewestNum(was, maxId)) && newer != []
    requires Filled(was, now, maxId + n, n, Handed(Cursor(Down(pages, |pages|), Unnamed), NewestNum(was, maxId), n))
    ensures Fetched(was, maxId, now, FirstOf(newer, n), n) && AllNamed(now) && SortedFiles(now)
    ensures DistinctList(newer) ==> (AllStored(now, newer) <==> n >= |newer|)
  {
    hide *;
    NewerIsSorted(pages, NewestNum(was, maxId));
    FetchNewStores(was, maxId, now, pages, n);
    FirstIsSorted(newer, n, NewestNum(was, maxId));
    FetchNewKeepsOrder(was, maxId, now, FirstOf(newer, n), n);
    if DistinctList(newer) {
      AllStoredIff(was, maxId, now, newer, n);
    }
  }

  /** When nothing is newer, all n new ids get an address without a number.  Otherwise the newest n of the newer
    * addresses are stored in order under the new ids, all of them when the estimate n does not fall short, with
    * stubs below them, and the stored numbers still do not decrease. */
  lemma FetchRun(web: Web, was: Files, maxId: int, pages: Pages, n: nat, fetch: nat)
    requires ValidFiles(was, maxId) && AllNamed(was) && SortedFiles(was) && SortedPages(pages) && n >= 1
    ensures var now := FetchedFiles(web, was, maxId, pages, n, fetch);
            var newer := NewerThan(pages, NewestNum(was, maxId));
            && (newer == [] ==> forall id :: maxId < id <= maxId + n ==> id in now && now[id].url == Unnamed)
            && (newer != [] ==>
                  && Fetched(was, maxId, now, FirstOf(newer, n), n) && AllNamed(now) && SortedFiles(now)
                  && (DistinctList(newer) ==> (AllStored(now, newer) <==> n >= |newer|)))
  {
    hide FetchedFiles, SortedFiles, SortedPages, Down, Handed, Filled, Fetched, CountNewer, DistinctList, AllStored;
    hide NewestNum, NewerThan, FirstOf, AllNamed, ValidFiles;
    FetchRunFills(web, was, maxId, pages, n, fetch);
    var now := FetchedFiles(web, was, maxId, pages, n, fetch);
    var newer := NewerThan(pages, NewestNum(was, maxId));
    if newer == [] {
      FetchNothing(was, maxId, now, pages, n);
    } else {
      FetchSome(was, maxId, now, pages, n, newer);
    }
  }

  /** What the thread that fills old documents leaves, started from the last page as the program starts it. */
  function OldFiles(web: Web, was: Files, o: int, pages: Pages, p: nat, fetch: nat): Files
    requires o in was && !was[o].url.Unnamed?
  {
    StoreDown(web, was, o - 1, Cursor(OldPending(pages, p, Num(was[o].url), |pages|), was[o].url), -2, fetch)
  }

  /** It fills every free id below o, with what is pending on page p and below the last page, then with one
    * stub for ever.  That is every older address, newest first, exactly when the pages in between are empty. */
  lemma FillRun(web: Web, was: Files, maxId: int, o: int, pages: Pages, p: nat, fetch: nat)
    requires ValidFiles(was, maxId) && o in was && 0 < o && !was[o].url.Unnamed?
    requires Separates(pages, p, Num(was[o].url)) && 1 <= p <= |pages| + 1 && |pages| >= 1
    ensures OldFilled(was, OldFiles(web, was, o, pages, p, fetch), o,
              OldPending(pages, p, Num(was[o].url), |pages|), Free(was, o - 1))
    ensures OldPending(pages, p, Num(was[o].url), |pages|) == OlderIn(Down(pages, |pages|), Num(was[o].url)) <==>
            if p < |pages| then EmptyBetween(pages, p, |pages|) else EmptyBetween(pages, |pages|, p)
  {
    hide OldPending, Separates, EmptyBetween, Down, OlderIn, StoreDown;
    var older := OldPending(pages, p, Num(was[o].url), |pages|);
    StoreDownFills(web, was, o - 1, Cursor(older, was[o].url), -2, fetch);
    FilledIsOldFilled(was, o, OldFiles(web, was, o, pages, p, fetch), older, Free(was, o - 1));
    StartingFromLastPageIff(pages, p, Num(was[o].url));
  }

  /** The store that the program's fill leaves is in order exactly when what it hands out fits. */
  lemma FillRunKeepsOrderIff(web: Web, was: Files, maxId: int, o: int, pages: Pages, p: nat, fetch: nat)
    requires ValidFiles(was, maxId) && AllNamed(was) && SortedFiles(was) && o in was && 0 < o
    requires Separates(pages, p, Num(was[o].url)) && 1 <= p <= |pages| + 1 && |pages| >= 1
    ensures var now := OldFiles(web, was, o, pages, p, fetch);
            AllNamed(now) && SortedFiles(now) <==>
            OrderFits(was, o, OldPending(pages, p, Num(was[o].url), |pages|), Free(was, o - 1))
  {
    hide OldPending, Separates, OldFilled, OrderFits, SortedFiles, OldFiles;
    FillRun(web, was, maxId, o, pages, p, fetch);
    FillKeepsOrderIff(was, maxId, OldFiles(web, was, o, pages, p, fetch), o,
      OldPending(pages, p, Num(was[o].url), |pages|), Free(was, o - 1));
  }

  /** When nothing lies between page p and the last page, that store is in order exactly when the stub, if one
    * is used, has a number and the last address is not older than the document below the gap. */
  lemma ProperFillKeepsOrderIff(web: Web, was: Files, maxId: int, o: int, pages: Pages, p: nat, fetch: nat)
    requires ValidFiles(was, maxId) && AllNamed(was) && SortedFiles(was) && o in was && 0 < o && SortedPages(pages)
    requires Separates(pages, p, Num(was[o].url)) && 1 <= p <= |pages| + 1 && |pages| >= 1
    requires if p < |pages| then EmptyBetween(pages, p, |pages|) else EmptyBetween(pages, |pages|, p)
    ensures var now, n := OldFiles(web, was, o, pages, p, fetch), Free(was, o - 1);
            var older := OlderIn(Down(pages, |pages|), Num(was[o].url));
            AllNamed(now) && SortedFiles(now) <==>
            && (n > |older| ==> !StubOf(Last(older, was[o].url)).Unnamed?)
            && (n > 0 && o - 1 - n in was && !OldAddress(older, was[o].url, n - 1).Unnamed? ==>
                  Num(was[o - 1 - n].url) <= Num(OldAddress(older, was[o].url, n - 1)))
  {
    hide OldPending, Separates, EmptyBetween, Down, OlderIn, OldFiles, OldFilled, OrderFits, SortedFiles, SortedPages;
    hide Descending, OldAddress;
    FillRun(web, was, maxId, o, pages, p, fetch);
    FillRunKeepsOrderIff(web, was, maxId, o, pages, p, fetch);
    DownSorted(pages, |pages|);
    OlderIsSuffix(Down(pages, |pages|), Num(was[o].url));
    OlderFitsIff(was, o, OlderIn(Down(pages, |pages|), Num(was[o].url)), Free(was, o - 1));
  }

  /** Starts a thread on what the generator hands out, and lets it run to its end. */
  method StartUpdateThread(storage: Storage, pages: Pages, maxId: int, minUrlNum: int, maxPageIdx: int,
                           urls: seq<Href>, prevUrl: Url)
    requires storage.Valid() && 0 <= maxId
    modifies storage
    ensures storage.Valid()
    ensures storage.files == StoreDown(storage.web, old(storage.files), maxId,
              Cursor(Reverse(urls) + Down(pages, maxPageIdx - 1), prevUrl), minUrlNum, old(storage.fetches))
  {
    var gen := new UrlGenerator(pages, minUrlNum, maxPageIdx, urls, prevUrl);
    var thr := new UpdateThread(storage, maxId, gen);
    thr.Run();
  }

  /** Fetches the documents newer than the newest stored one.  With p the page found, the estimate is exact
    * within fifty pages of the end, and does not fall short when pages hold at most twenty addresses. */
  method RunFetchNewDocs(storage: Storage, pages: Pages, draws: seq<nat>) returns (done: bool, n: int, ghost p: int)
    requires storage.Valid() && AllNamed(storage.files) && SortedPages(pages)
    modifies storage
    ensures storage.Valid()
    ensures Lucky(pages, draws) ==> done
    ensures var target := NewestNum(old(storage.files), old(storage.maxId));
            done ==>
              && 1 <= p <= |pages| + 1 && Separates(pages, p, target) && n == Estimate(pages, p, target, |pages|)
              && forall q :: Holds(pages, q, target) ==> p == q
    ensures done && n > 0 ==>
              storage.files ==
              FetchedFiles(storage.web, old(storage.files), old(storage.maxId), pages, n, old(storage.fetches))
    ensures !done || n <= 0 ==> storage.files == old(storage.files)
    ensures var newer := CountNewer(pages, |pages|, NewestNum(old(storage.files), old(storage.maxId)));
            done ==> (|pages| - p <= 50 ==> n == newer) && (SmallPages(pages) ==> n >= newer)
  {
    hide Separates, Holds, SortedPages, Lucky, Estimate, CountNewer, SmallPages;
    done, n, p := false, 0, 0;
    var newest := storage.NewestDoc();
    var urlNum, idid := -2, -1;
    if newest.Some? {
      urlNum, idid := Num(newest.value.url), newest.value.meta.idid;
    }
    var estimate;
    estimate, p := EstimateNumUrlsBetween(pages, urlNum, draws);
    if estimate.Some? {
      done, n := true, estimate.value;
      if n > 0 {
        StartFetch(storage, pages, idid, urlNum, n);
      }
    }
  }

  method StartFetch(storage: Storage, pages: Pages, idid: int, urlNum: int, n: nat)
    requires storage.Valid() && AllNamed(storage.files) && n > 0
    requires idid == storage.maxId && urlNum == NewestNum(storage.files, storage.maxId)
    modifies storage
    ensures storage.Valid()
    ensures storage.files ==
            FetchedFiles(storage.web, old(storage.files), old(storage.maxId), pages, n, old(storage.fetches))
  {
    FetchedFilesFrom(storage.web, storage.files, idid, urlNum, pages, n, storage.fetches);
    StartUpdateThread(storage, pages, idid + n, urlNum, |pages|, Page(pages, |pages|), Unnamed);
  }

  lemma FetchedFilesFrom(web: Web, was: Files, maxId: int, urlNum: int, pages: Pages, n: nat, fetch: nat)
    requires ValidFiles(was, maxId) && AllNamed(was) && urlNum == NewestNum(was, maxId)
    ensures FetchedFiles(web, was, maxId, pages, n, fetch) ==
            StoreDown(web, was, maxId + n,
              Cursor(Reverse(Page(pages, |pages|)) + Down(pages, |pages| - 1), Unnamed), urlNum, fetch)
  {
  }

  lemma PendingAtEnd(pages: Pages)
    ensures Reverse(Page(pages, |pages|)) + Down(pages, |pages| - 1) == Down(pages, |pages|)
  {
  }

  /** Continues below the oldest document of the newest run of ids, if ids are missing below it.  The
    * generator is started from the last page, not from the page found. */
  method RunFillOldDocs(storage: Storage, pages: Pages, draws: seq<nat>) returns (done: bool, ghost o: int, ghost p: int)
    requires storage.Valid() && AllNamed(storage.files) && SortedPages(pages)
    modifies storage
    ensures storage.Valid()
    ensures Lucky(pages, draws) ==>
              (done <==> exists id :: 0 <= id <= old(storage.maxId) && id !in old(storage.files))
    ensures !done ==> storage.files == old(storage.files)
    ensures done ==>
              && 0 < o && o in old(storage.files) && o - 1 !in old(storage.files)
              && (forall id :: o <= id <= old(storage.maxId) ==> id in old(storage.files))
              && 1 <= p <= |pages| + 1 && Separates(pages, p, Num(old(storage.files)[o].url))
              && storage.files == OldFiles(storage.web, old(storage.files), o, pages, p, old(storage.fetches))
  {
    hide Separates, SortedPages, Lucky, StoreDown, OlderIn, Down, Reverse, Page;
    done, o, p := false, 0, 0;
    var oldest := storage.OldestDoc();
    if oldest.Some? {
      var urlNum := Num(oldest.value.url);
      var found := GetPageContainUrlNum(pages, urlNum, draws);
      if found.Some? {
        done, o, p := true, oldest.value.meta.idid, found.value;
        var us := OlderIn(Page(pages, found.value), urlNum);
        StartUpdateThread(storage, pages, oldest.value.meta.idid - 1, -2, |pages|, us, oldest.value.url);
      }
    }
  }
}

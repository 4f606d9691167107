/** The cache in front of the store, run by one thread at a time.
  *
  * Calls that raise an error in the program answer None (or false) here.
  */
module DocumentCache {
  import opened Wrappers
  import opened Urls
  import opened MinerStore
  import opened CacheWindow

  /** The same document, except perhaps for the board the backend writes into it. */
  predicate SameButBoard(a: Document, b: Document) {
    a.(meta := a.meta.(board := "")) == b.(meta := b.meta.(board := ""))
  }

  function NamesOf(files: Files): Names {
    map id | id in files :: files[id].url
  }

  /** Every cached document is the stored one. */
  ghost predicate Coherent(w: Window, files: Files) {
    forall id :: At(w, id).Some? ==> id in files && SameButBoard(At(w, id).value, files[id])
  }

  /** What the store itself answers to a query for the id of an address. */
  function DirectIdByUrl(files: Files, maxId: int, url: Url): int
    requires AllNamed(files) && !url.Unnamed?
  {
    match ScanForNum(files, maxId, Num(url))
    case None => -1
    case Some(doc) => doc.meta.idid
  }

  lemma ScanResult(files: Files, maxId: int, i: int, num: int)
    requires ValidFiles(files, maxId) && AllNamed(files)
    ensures var r := ScanForNum(files, i, num);
            r.Some? ==> r.value.meta.idid in files && r.value == files[r.value.meta.idid] && Num(r.value.url) == num
    decreases i
  {
    if i >= 0 {
      ScanResult(files, maxId, i - 1, num);
    }
  }

  lemma {:induction false} ScanFindsIff(files: Files, maxId: int, i: int, id: int)
    requires ValidFiles(files, maxId) && AllNamed(files) && id in files && id <= i
    requires forall j :: j in files && j > i ==> Num(files[j].url) > Num(files[id].url)
    ensures ScanForNum(files, i, Num(files[id].url)) == Some(files[id]) <==>
            NewestWithNum(files, Num(files[id].url), id) && NoOlderAbove(files, Num(files[id].url))
    decreases i
  {
    var num := Num(files[id].url);
    if i !in files || Num(files[i].url) > num {
      ScanFindsIff(files, maxId, i - 1, id);
    } else if i == id {
      assert NewestWithNum(files, num, id);
    } else {
      assert files[i].meta.idid != files[id].meta.idid;
    }
  }

  /** Looking a stored document's address up leads to its own id exactly when it is the newest one with its number
    * and no document above it has a smaller number. */
  lemma DirectFindsIff(files: Files, maxId: int, id: int)
    requires ValidFiles(files, maxId) && AllNamed(files) && id in files
    ensures DirectIdByUrl(files, maxId, files[id].url) == id <==>
            NewestWithNum(files, Num(files[id].url), id) && NoOlderAbove(files, Num(files[id].url))
  {
    hide NewestWithNum, NoOlderAbove;
    ScanFindsIff(files, maxId, maxId, id);
    ScanResult(files, maxId, maxId, Num(files[id].url));
  }

  /** That is so for every document of a sorted store whose numbers are distinct. */
  lemma DirectFinds(files: Files, maxId: int, id: int)
    requires ValidFiles(files, maxId) && AllNamed(files) && SortedFiles(files) && DistinctNums(files) && id in files
    ensures DirectIdByUrl(files, maxId, files[id].url) == id
  {
    DirectFindsIff(files, maxId, id);
  }

  /** Two documents whose numbers are distinct but out of order.  Once the first is cached, the index leads from its
    * address to it; the store itself does not find it. */
  lemma IndexKnowsMore(d0: Document, d1: Document)
    requires d0.meta.idid == 0 && d1.meta.idid == 1 && !d0.url.Unnamed? && !d1.url.Unnamed? && Num(d0.url) > Num(d1.url)
    ensures var files, w := map[0 := d0, 1 := d1], Insert(EMPTY_WINDOW, d0, 3).0;
            && ValidFiles(files, 1) && AllNamed(files) && DistinctNums(files)
            && Insert(EMPTY_WINDOW, d0, 3).1 && WindowInv(w, 3, NamesOf(files)) && Coherent(w, files)
            && w.urlToId == map[d0.url := 0] && DirectIdByUrl(files, 1, d0.url) == -1
  {
    var w := Window([Some(d0)], 0, 0, map[d0.url := 0]);
    InsertNext(EMPTY_WINDOW, d0, w);
    hide Insert;
    assert At(w, 0) == Some(d0);
  }

  /** No stored document has the address. */
  ghost predicate NewUrl(files: Files, url: Url) {
    forall id :: id in files ==> files[id].url != url
  }

  lemma OwnNamesExtended(files: Files, id: int, url: Url)
    requires OwnNames(NamesOf(files)) && NewUrl(files, url) && id !in files
    ensures OwnNames(NamesOf(files)[id := url])
  {
    var names := NamesOf(files)[id := url];
    forall i, j | i in names && j in names && names[i] == names[j] ensures i == j {
      assert i != id ==> names[i] == NamesOf(files)[i];
      assert j != id ==> names[j] == NamesOf(files)[j];
    }
  }

  lemma RefreshKeepsNames(web: Web, was: Files, now: Files, cut: int, lo: nat, hi: nat)
    requires RefreshedAbove(web, was, now, cut, lo, hi)
    ensures NamesOf(now) == NamesOf(was)
  {
    assert NamesOf(now).Keys == NamesOf(was).Keys;
    forall id | id in was ensures NamesOf(now)[id] == NamesOf(was)[id] {
    }
  }

  lemma WindowIsAsLong(w: Window, size: nat)
    requires WellFormed(w, size)
    ensures |w.docs| == w.maxId - w.minId + 1
  {
  }

  /** Forgetting an interval that covers every re-fetched document leaves only stored documents. */
  lemma FlushedIsCoherent(web: Web, w: Window, w': Window, was: Files, now: Files, cut: int, f0: nat, f1: nat, lo: int, hi: int)
    requires Coherent(w, was) && RefreshedAbove(web, was, now, cut, f0, f1)
    requires forall id :: id in now && id > cut ==> lo <= id <= hi
    requires forall id :: At(w', id) == if lo <= id <= hi then None else At(w, id)
    ensures Coherent(w', now)
  {
    forall id | At(w', id).Some? ensures id in now && SameButBoard(At(w', id).value, now[id]) {
      assert At(w, id).Some?;
    }
  }

  /** Caching a stored document leaves only stored documents in the cache, also when it fails half-way. */
  lemma InsertIsCoherent(w: Window, doc: Document, files: Files, size: nat)
    requires WindowInv(w, size, NamesOf(files)) && size >= 1 && Coherent(w, files)
    requires doc.meta.idid in files && doc == files[doc.meta.idid]
    ensures Coherent(Insert(w, doc, size).0, files)
  {
    hide Insert;
    InsertKeeps(w, doc, size, NamesOf(files));
  }

  /** Storing a document under a free id does not touch what is cached. */
  lemma AddIsCoherent(w: Window, was: Files, id: int, doc: Document)
    requires Coherent(w, was) && id !in was
    ensures Coherent(w, was[id := doc])
  {
  }

  /** Writing a board into a cached document keeps it the stored one up to the board. */
  lemma BoardIsCoherent(w: Window, w': Window, files: Files, id: int, board: string)
    requires Coherent(w, files)
    requires forall j :: At(w', j) ==
               if j == id && At(w, j).Some? then Some(At(w, j).value.(meta := At(w, j).value.meta.(board := board)))
               else At(w, j)
    ensures Coherent(w', files)
  {
    forall j | At(w', j).Some? ensures j in files && SameButBoard(At(w', j).value, files[j]) {
      assert SameButBoard(At(w, j).value, files[j]);
    }
  }

  class Cache {
    const cacheSize: nat
    const storage: Storage
    var docs: seq<Option<Document>>
    var minId: int
    var maxId: int
    var urlToId: map<Url, int>

    ghost function View(): Window
      reads this
    {
      Window(docs, minId, maxId, urlToId)
    }

    /** Holds after every call, also after one that raised an error. */
    ghost predicate Valid()
      reads this, storage
    {
      cacheSize >= 1 && storage.Valid() && WindowInv(View(), cacheSize, NamesOf(storage.files))
    }

    /** No two stored documents share an address, and the cache agrees with the store. */
    ghost predicate Healthy()
      reads this, storage
    {
      && Valid() && OwnNames(NamesOf(storage.files))
      && Coherent(View(), storage.files) && IndexInverse(View())
    }

    constructor (cacheSize: nat, storage: Storage)
      requires cacheSize >= 1 && storage.Valid()
      ensures Valid() && this.storage == storage && this.cacheSize == cacheSize && View() == EMPTY_WINDOW
      ensures OwnNames(NamesOf(storage.files)) ==> Healthy()
    {
      this.cacheSize, this.storage := cacheSize, storage;
      docs, maxId, minId, urlToId := [], -1, 0, map[];
    }

    method CleanCacheEntry(i: nat) returns (ok: bool)
      requires i < |docs|
      modifies this`docs, this`urlToId
      ensures (View(), ok) == CleanEntry(old(View()), i)
    {
      var doc := docs[i];
      if doc.Some? {
        if doc.value.url !in urlToId {
          return false;
        }
        urlToId := urlToId - {doc.value.url};
        docs := docs[i := None];
      }
      return true;
    }

    method ShrinkCacheSize(size: nat) returns (ok: bool)
      modifies this
      ensures (View(), ok) == Shrink(old(View()), size)
      ensures maxId == old(maxId) && |docs| - (maxId - minId) == old(|docs| - (maxId - minId))
    {
      ghost var was := View();
      ok := true;
      while |docs| > size
        invariant maxId == was.maxId && |docs| - (maxId - minId) == |was.docs| - (was.maxId - was.minId)
        invariant Shrink(was, size) == Shrink(View(), size)
        decreases |docs|
      {
        ok := CleanCacheEntry(0);
        if !ok {
          return false;
        }
        docs := docs[1..];
        minId := minId + 1;
      }
    }

    method CacheDocIfOk(doc: Document) returns (ok: bool)
      requires |docs| == maxId - minId + 1
      modifies this
      ensures (View(), ok) == Insert(old(View()), doc, cacheSize)
    {
      var idid := doc.meta.idid;
      if maxId < idid {
        var numNeedAdd := idid - maxId;
        if numNeedAdd >= cacheSize {
          urlToId := map[];
          docs := [None];
          minId, maxId := idid, idid;
        } else {
          ok := ShrinkCacheSize(cacheSize - numNeedAdd);
          if !ok {
            return false;
          }
          docs := docs + Blank(numNeedAdd);
          maxId := idid;
        }
      } else if idid < minId && maxId - idid + 1 <= cacheSize {
        docs := Blank(minId - idid) + docs;
        minId := idid;
      }
      if minId <= idid <= maxId {
        docs := docs[idid - minId := Some(doc)];
        urlToId := urlToId[doc.url := idid];
      }
      ok := true;
    }

    /** Reading a document by id: as long as the cache agrees with the store, the answer is the stored document
      * and the cache goes on agreeing, also when the read fails.  It fails exactly when caching the document
      * makes the window give up slots that cannot be emptied; on a healthy cache it does not. */
    method SafeGetDocById(idid: int) returns (doc: Option<Document>)
      requires Valid() && idid in storage.files
      modifies this
      ensures Valid()
      ensures doc.Some? <==> old(ReadSucceeds(View(), idid, cacheSize))
      ensures doc.Some? ==> maxId == if idid > old(maxId) then idid else old(maxId)
      ensures old(Coherent(View(), storage.files)) ==> Coherent(View(), storage.files)
      ensures doc.Some? && old(Coherent(View(), storage.files)) ==> SameButBoard(doc.value, storage.files[idid])
      ensures old(Healthy()) ==> Healthy() && doc.Some?
      ensures doc.Some? && At(View(), idid).Some? ==> At(View(), idid) == doc
      ensures old(At(View(), idid)).Some? ==> doc == old(At(View(), idid)) && View() == old(View())
      ensures old(At(View(), idid)).None? ==>
                && View() == Insert(old(View()), storage.files[idid], cacheSize).0
                && (doc.Some? ==> doc.value == storage.files[idid])
    {
      doc := None;
      if minId <= idid <= maxId {
        doc := docs[idid - minId];
      }
      if doc.None? {
        var stored := storage.files[idid];
        InsertKeeps(View(), stored, cacheSize, NamesOf(storage.files));
        InsertSucceedsIff(View(), stored, cacheSize);
        if Coherent(View(), storage.files) {
          InsertIsCoherent(View(), stored, storage.files, cacheSize);
        }
        InverseFromDistinctIfOwn(View(), storage.files, cacheSize);
        var ok := CacheDocIfOk(stored);
        InverseFromDistinctIfOwn(View(), storage.files, cacheSize);
        doc := if ok then Some(stored) else None;
      }
    }

    /** Looking an id up by address.  An address that is not indexed is answered as the store answers it.  When the
      * cache agrees with the store, an address found in the index is that of the id answered, and the answer is
      * the store's exactly when that document is the newest with its number and none above it has a smaller one;
      * on a sorted store with distinct numbers it always is. */
    method GetIdByUrl(url: Url) returns (idid: Option<int>)
      requires Valid() && AllNamed(storage.files) && !url.Unnamed?
      modifies this
      ensures Valid()
      ensures old(Healthy()) ==> Healthy() && idid.Some?
      ensures old(Coherent(View(), storage.files)) ==> Coherent(View(), storage.files)
      ensures old(Coherent(View(), storage.files)) && SortedFiles(storage.files) && DistinctNums(storage.files) ==>
                idid.Some? ==> idid.value == DirectIdByUrl(storage.files, storage.maxId, url)
      ensures old(Coherent(View(), storage.files)) && url in old(urlToId) ==>
                old(urlToId)[url] in storage.files && storage.files[old(urlToId)[url]].url == url
      ensures old(Coherent(View(), storage.files)) && url in old(urlToId) ==>
                (idid == Some(DirectIdByUrl(storage.files, storage.maxId, url)) <==>
                 NewestWithNum(storage.files, Num(url), old(urlToId)[url]) && NoOlderAbove(storage.files, Num(url)))
      ensures url in old(urlToId) ==> idid == Some(old(urlToId)[url]) && View() == old(View())
      ensures url !in old(urlToId) && idid.Some? ==> idid.value == DirectIdByUrl(storage.files, storage.maxId, url)
      ensures url !in old(urlToId) ==>
                match ScanForNum(storage.files, storage.maxId, Num(url))
                case None => View() == old(View()) && idid.Some?
                case Some(doc) => (View(), idid.Some?) == Insert(old(View()), doc, cacheSize)
    {
      if url in urlToId {
        assert At(View(), urlToId[url]).value.url == url;
        if Coherent(View(), storage.files) {
          assert storage.files[urlToId[url]].url == url;
          DirectFindsIff(storage.files, storage.maxId, urlToId[url]);
          if SortedFiles(storage.files) && DistinctNums(storage.files) {
            DirectFinds(storage.files, storage.maxId, urlToId[url]);
          }
        }
        return Some(urlToId[url]);
      }
      var doc := storage.GetDocByUrl(url);
      if doc.None? {
        return Some(-1);
      }
      ScanResult(storage.files, storage.maxId, storage.maxId, Num(url));
      InsertKeeps(View(), doc.value, cacheSize, NamesOf(storage.files));
      if Coherent(View(), storage.files) {
        InsertIsCoherent(View(), doc.value, storage.files, cacheSize);
      }
      InverseFromDistinctIfOwn(View(), storage.files, cacheSize);
      var ok := CacheDocIfOk(doc.value);
      InverseFromDistinctIfOwn(View(), storage.files, cacheSize);
      return if ok then Some(doc.value.meta.idid) else None;
    }

    method FlushInterval(lo: int, hi: int) returns (ok: bool)
      requires |docs| == maxId - minId + 1
      modifies this`docs, this`urlToId
      ensures (View(), ok) == Flush(old(View()), lo, hi)
    {
      ghost var was := View();
      var i := (if minId >= lo then minId else lo) - minId;
      var end := (if maxId <= hi then maxId else hi) + 1 - minId;
      ok := true;
      ghost var first := i;
      while i < end
        invariant |docs| == |was.docs|
        invariant first <= i && (first < end ==> i <= end)
        invariant if first < end then CleanRange(View(), i, end) == CleanRange(was, first, end) else View() == was
      {
        ok := CleanCacheEntry(i);
        if !ok {
          return false;
        }
        i := i + 1;
      }
    }

    /** Re-fetches recent documents, then flushes them.  The interval the store reports covers all re-fetched
      * ids, so a flush that does not fail leaves a cache that agrees with the store.  It fails exactly when
      * slots of the interval hold two documents under one address, or one that is not indexed. */
    method UpdateNearestDocs(t: int) returns (ok: bool, ghost lo: int)
      requires Valid()
      modifies this, storage
      ensures Valid()
      ensures old(Healthy()) ==> Healthy() && ok
      ensures storage.maxId == old(storage.maxId) && FirstRefetched(old(storage.files), storage.maxId, t, lo)
      ensures (View(), ok) == Flush(old(View()), lo, storage.maxId)
      ensures ok <==> FlushSucceeds(old(View()), lo, storage.maxId)
      ensures ok && old(Coherent(View(), storage.files)) ==> Coherent(View(), storage.files)
      ensures RefreshedAbove(storage.web, old(storage.files), storage.files,
                NewestOlderThan(old(storage.files), storage.maxId, t), old(storage.fetches), storage.fetches)
      ensures forall id :: At(View(), id).Some? ==> At(View(), id) == old(At(View(), id))
      ensures ok ==> forall id :: id <= NewestOlderThan(old(storage.files), storage.maxId, t) && id < storage.maxId ==>
                At(View(), id) == old(At(View(), id))
    {
      ghost var wasFiles, was := storage.files, View();
      var minId, hi := storage.UpdateAfterTime(t);
      lo := minId;
      hide CleanRange, Flush, FlushSucceeds, Coherent, IndexInverse, IndexComplete, WellFormed, Stable, IndexSound;
      hide OwnNames, NamesOf, At, FirstRefetched;
      RefreshKeepsNames(storage.web, wasFiles, storage.files, NewestOlderThan(wasFiles, storage.maxId, t),
        old(storage.fetches), storage.fetches);
      FlushKeeps(was, lo, hi, cacheSize, NamesOf(storage.files));
      InverseFromDistinctIfOwn(was, storage.files, cacheSize);
      WindowIsAsLong(was, cacheSize);
      FlushSucceedsIff(was, lo, hi);
      ok := FlushInterval(minId, hi);
      InverseFromDistinctIfOwn(View(), storage.files, cacheSize);
      if ok && Coherent(was, wasFiles) {
        FlushedIsCoherent(storage.web, was, View(), wasFiles, storage.files,
          NewestOlderThan(wasFiles, storage.maxId, t), old(storage.fetches), storage.fetches, lo, hi);
      }
    }

    /** New documents are stored but not cached. */
    method AddDoc(idid: int, url: Url) returns (added: bool)
      requires Valid() && 0 <= idid
      modifies storage
      ensures Valid() && View() == old(View())
      ensures added <==> idid !in old(storage.files)
      ensures added ==>
                storage.files == old(storage.files)[idid := MakeDocument(idid, url, storage.web(url, old(storage.fetches)))]
      ensures !added ==> storage.files == old(storage.files)
      ensures storage.maxId == (if added && idid > old(storage.maxId) then idid else old(storage.maxId))
      ensures old(Coherent(View(), storage.files)) ==> Coherent(View(), storage.files)
      ensures old(Healthy()) && (added ==> NewUrl(old(storage.files), url)) ==> Healthy()
    {
      ghost var was := storage.files;
      added := storage.AddDoc(idid, url);
      if added && Coherent(View(), was) {
        AddIsCoherent(View(), was, idid, storage.files[idid]);
      }
      if added {
        assert NamesOf(storage.files) == NamesOf(was)[idid := url];
        if OwnNames(NamesOf(was)) && NewUrl(was, url) {
          OwnNamesExtended(was, idid, url);
        }
      }
    }

    /** The backend writes the board name into the document object it was given;
      * the cache holds the same object. */
    method SetBoard(idid: int, board: string)
      requires Valid()
      modifies this`docs
      ensures Valid() && (old(Healthy()) ==> Healthy())
      ensures old(Coherent(View(), storage.files)) ==> Coherent(View(), storage.files)
      ensures minId == old(minId) && maxId == old(maxId) && urlToId == old(urlToId) && |docs| == |old(docs)|
      ensures forall id :: At(View(), id) ==
                var was := old(At(View(), id));
                if id == idid && was.Some? then Some(was.value.(meta := was.value.meta.(board := board))) else was
    {
      hide WindowInv, IndexInverse, OwnNames, NamesOf, Coherent;
      ghost var was := View();
      BoardKeepsWindow(was, idid, board, cacheSize, NamesOf(storage.files));
      if 0 <= idid - minId < |docs| && docs[idid - minId].Some? {
        var doc := docs[idid - minId].value;
        docs := docs[idid - minId := Some(doc.(meta := doc.meta.(board := board)))];
      }
      assert View() == SetBoardAt(was, idid, board);
      hide At, SetBoardAt;
      if Coherent(was, storage.files) {
        BoardIsCoherent(was, View(), storage.files, idid, board);
      }
    }
  }

  lemma InverseFromDistinctIfOwn(w: Window, files: Files, size: nat)
    ensures WindowInv(w, size, NamesOf(files)) && OwnNames(NamesOf(files)) ==> (IndexInverse(w) <==> IndexComplete(w))
  {
    if WindowInv(w, size, NamesOf(files)) && OwnNames(NamesOf(files)) {
      InverseFromDistinct(w, size, NamesOf(files));
    }
  }
}

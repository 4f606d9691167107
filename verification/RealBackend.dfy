/** The backend's range queries: they walk the documents from the newest id
  * downwards through the cache, and stop at the first one that is too old.
  *
  * The ids a query visits have to be stored already (the program waits for them).
  */
module RealBackend {
  import opened Wrappers
  import opened MinerStore
  import opened CacheWindow
  import opened DocumentCache

  function MetaOf(files: Files, id: int, board: string): MetaData
    requires id in files
  {
    files[id].meta.(board := board)
  }

  /** The metadata of ids lo, ..., hi in increasing order, with the board filled in. */
  function MetasBetween(files: Files, lo: int, hi: int, board: string): (s: seq<MetaData>)
    requires forall id :: lo <= id <= hi ==> id in files
    ensures |s| == if lo <= hi then hi - lo + 1 else 0
    decreases hi - lo
  {
    if lo > hi then [] else [MetaOf(files, lo, board)] + MetasBetween(files, lo + 1, hi, board)
  }

  lemma {:induction false} MetasBetweenAt(files: Files, lo: int, hi: int, board: string, k: nat)
    requires (forall id :: lo <= id <= hi ==> id in files) && k < |MetasBetween(files, lo, hi, board)|
    ensures MetasBetween(files, lo, hi, board)[k] == MetaOf(files, lo + k, board)
    ensures MetasBetween(files, lo, hi, board)[k] == files[lo + k].meta.(board := board)
    decreases k
  {
    if k > 0 {
      MetasBetweenAt(files, lo + 1, hi, board, k - 1);
    }
  }

  ghost predicate StoredBetween(files: Files, lo: int, hi: int) {
    forall id :: lo <= id <= hi ==> id in files
  }

  /** Largest of a and b. */
  function Max(a: int, b: int): int {
    if a >= b then a else b
  }

  lemma EmptyMetas(files: Files, hi: int, board: string)
    ensures forall lo :: lo > hi ==> MetasBetween(files, lo, hi, board) == []
  {
  }

  lemma MetasStep(files: Files, i: int, hi: int, board: string)
    requires i <= hi && forall id :: i <= id <= hi ==> id in files
    ensures MetasBetween(files, i, hi, board) == [MetaOf(files, i, board)] + MetasBetween(files, i + 1, hi, board)
  {
  }

  /** The cache is in order and every cached document is the stored one. */
  ghost predicate Agrees(cache: Cache)
    reads cache, cache.storage
  {
    cache.Valid() && Coherent(cache.View(), cache.storage.files)
  }

  /** One step of the walk: the stored metadata with the board filled in, also in the cached copy; None when
    * the look-up raises an error. */
  method NextMeta(cache: Cache, idid: int, board: string) returns (meta: Option<MetaData>)
    requires Agrees(cache) && idid in cache.storage.files
    modifies cache
    ensures Agrees(cache) && (old(cache.Healthy()) ==> cache.Healthy())
    ensures meta.Some? <==> old(ReadSucceeds(cache.View(), idid, cache.cacheSize))
    ensures meta.Some? ==> meta.value == MetaOf(cache.storage.files, idid, board) && meta.value.idid == idid
    ensures meta.Some? ==> cache.maxId == if idid > old(cache.maxId) then idid else old(cache.maxId)
  {
    hide Coherent, WellFormed, Stable, IndexSound, IndexInverse, OwnNames, ReadSucceeds;
    var doc := cache.SafeGetDocById(idid);
    if doc.None? {
      return None;
    }
    cache.SetBoard(idid, board);
    SameMeta(doc.value, cache.storage.files[idid], board);
    meta := Some(doc.value.meta.(board := board));
  }

  lemma SameMeta(a: Document, b: Document, board: string)
    requires SameButBoard(a, b)
    ensures a.meta.(board := board) == b.meta.(board := board)
  {
    assert a.meta.(board := "") == b.meta.(board := "");
    assert a.meta.(board := "").(board := board) == a.meta.(board := board);
  }

  lemma MaxIdOf(cache: Cache)
    requires Agrees(cache)
    ensures -1 <= cache.storage.maxId && (cache.storage.maxId >= 0 ==> cache.storage.maxId in cache.storage.files)
  {
  }

  /** Every look-up of a query after the first one is for an id below one in the window, so it cannot fail. */
  lemma LaterReadSucceeds(w: Window, id: int, size: nat)
    requires id <= w.maxId
    ensures ReadSucceeds(w, id, size)
  {
  }

  /** A walk fails exactly when there is a first document and its look-up fails. */
  ghost predicate WalkFails(w: Window, maxId: int, size: nat) {
    maxId >= 0 && !ReadSucceeds(w, maxId, size)
  }

  /** All documents with at least the given id, oldest first; whatever is cached and whether or not documents
    * share an address. */
  method GetDocMetaDataAfterId(cache: Cache, board: string, idid: int) returns (ret: Option<seq<MetaData>>)
    requires Agrees(cache) && StoredBetween(cache.storage.files, Max(idid - 1, 0), cache.storage.maxId)
    modifies cache
    ensures Agrees(cache) && (old(cache.Healthy()) ==> cache.Healthy())
    ensures ret.None? <==> WalkFails(old(cache.View()), cache.storage.maxId, cache.cacheSize)
    ensures ret.Some? ==> ret.value == MetasBetween(cache.storage.files, Max(idid, 0), cache.storage.maxId, board)
  {
    hide MetasBetween, Agrees, ReadSucceeds;
    MaxIdOf(cache);
    EmptyMetas(cache.storage.files, cache.storage.maxId, board);
    var metas := [];
    var i := cache.storage.maxId;
    while i >= 0
      invariant -1 <= i <= cache.storage.maxId && Agrees(cache) && (old(cache.Healthy()) ==> cache.Healthy())
      invariant i == cache.storage.maxId ==> cache.View() == old(cache.View())
      invariant i < cache.storage.maxId ==>
                  i < cache.maxId && !WalkFails(old(cache.View()), cache.storage.maxId, cache.cacheSize)
      invariant i >= Max(idid, 0) - 1 || i == cache.storage.maxId
      invariant metas == MetasBetween(cache.storage.files, Max(i + 1, Max(idid, 0)), cache.storage.maxId, board)
      modifies cache
    {
      if i <= cache.maxId {
        LaterReadSucceeds(cache.View(), i, cache.cacheSize);
      }
      var meta := NextMeta(cache, i, board);
      if meta.None? {
        return None;
      }
      if meta.value.idid < idid {
        break;
      }
      MetasStep(cache.storage.files, i, cache.storage.maxId, board);
      metas := [meta.value] + metas;
      i := i - 1;
    }
    return Some(metas);
  }

  /** The documents after the newest one posted before the given time, oldest first. */
  method GetDocMetaDataAfterTime(cache: Cache, board: string, postTime: int) returns (ret: Option<seq<MetaData>>)
    requires Agrees(cache)
    requires StoredBetween(cache.storage.files,
               Max(NewestOlderThan(cache.storage.files, cache.storage.maxId, postTime), 0), cache.storage.maxId)
    modifies cache
    ensures Agrees(cache) && (old(cache.Healthy()) ==> cache.Healthy())
    ensures ret.None? <==> WalkFails(old(cache.View()), cache.storage.maxId, cache.cacheSize)
    ensures ret.Some? ==>
              ret.value == MetasBetween(cache.storage.files,
                NewestOlderThan(cache.storage.files, cache.storage.maxId, postTime) + 1, cache.storage.maxId, board)
  {
    hide MetasBetween, NewestOlderThan, Agrees, ReadSucceeds;
    MaxIdOf(cache);
    var metas := [];
    var i := cache.storage.maxId;
    ghost var cut := NewestOlderThan(cache.storage.files, i, postTime);
    EmptyMetas(cache.storage.files, i, board);
    while i >= 0
      invariant -1 <= i <= cache.storage.maxId && Agrees(cache) && cut <= i && (old(cache.Healthy()) ==> cache.Healthy())
      invariant i == cache.storage.maxId ==> cache.View() == old(cache.View())
      invariant i < cache.storage.maxId ==>
                  i < cache.maxId && !WalkFails(old(cache.View()), cache.storage.maxId, cache.cacheSize)
      invariant cut == NewestOlderThan(cache.storage.files, i, postTime)
      invariant metas == MetasBetween(cache.storage.files, i + 1, cache.storage.maxId, board)
      modifies cache
    {
      if i <= cache.maxId {
        LaterReadSucceeds(cache.View(), i, cache.cacheSize);
      }
      NewestOlderStep(cache.storage.files, i, postTime);
      var meta := NextMeta(cache, i, board);
      if meta.None? {
        return None;
      }
      if meta.value.postTime < postTime {
        break;
      }
      MetasStep(cache.storage.files, i, cache.storage.maxId, board);
      metas := [meta.value] + metas;
      i := i - 1;
    }
    return Some(metas);
  }

  /** The documents of one author, oldest first. */
  method GetDocMetaDataOfAuthor(cache: Cache, board: string, author: string) returns (ret: Option<seq<MetaData>>)
    requires Agrees(cache) && StoredBetween(cache.storage.files, 0, cache.storage.maxId)
    modifies cache
    ensures Agrees(cache) && (old(cache.Healthy()) ==> cache.Healthy())
    ensures ret.None? <==> WalkFails(old(cache.View()), cache.storage.maxId, cache.cacheSize)
    ensures ret.Some? ==> ret.value == ByAuthor(MetasBetween(cache.storage.files, 0, cache.storage.maxId, board), author)
  {
    hide MetasBetween, Agrees, ReadSucceeds;
    MaxIdOf(cache);
    EmptyMetas(cache.storage.files, cache.storage.maxId, board);
    var metas := [];
    var i := cache.storage.maxId;
    while i >= 0
      invariant -1 <= i <= cache.storage.maxId && Agrees(cache) && (old(cache.Healthy()) ==> cache.Healthy())
      invariant i == cache.storage.maxId ==> cache.View() == old(cache.View())
      invariant i < cache.storage.maxId ==>
                  i < cache.maxId && !WalkFails(old(cache.View()), cache.storage.maxId, cache.cacheSize)
      invariant metas == ByAuthor(MetasBetween(cache.storage.files, i + 1, cache.storage.maxId, board), author)
      modifies cache
    {
      if i <= cache.maxId {
        LaterReadSucceeds(cache.View(), i, cache.cacheSize);
      }
      var meta := NextMeta(cache, i, board);
      if meta.None? {
        return None;
      }
      MetasStep(cache.storage.files, i, cache.storage.maxId, board);
      AuthorStep(meta.value, MetasBetween(cache.storage.files, i + 1, cache.storage.maxId, board), author);
      if meta.value.author == author {
        metas := [meta.value] + metas;
      }
      i := i - 1;
    }
    return Some(metas);
  }

  lemma AuthorStep(meta: MetaData, metas: seq<MetaData>, author: string)
    ensures ByAuthor([meta] + metas, author) == (if meta.author == author then [meta] else []) + ByAuthor(metas, author)
  {
    assert ([meta] + metas)[1..] == metas;
  }

  function ByAuthor(metas: seq<MetaData>, author: string): seq<MetaData> {
    if metas == [] then []
    else (if metas[0].author == author then [metas[0]] else []) + ByAuthor(metas[1..], author)
  }

  lemma {:induction false} ByAuthorHolds(metas: seq<MetaData>, author: string, m: MetaData)
    ensures m in ByAuthor(metas, author) <==> m in metas && m.author == author
    decreases |metas|
  {
    if metas != [] {
      ByAuthorHolds(metas[1..], author, m);
      assert m in metas <==> m == metas[0] || m in metas[1..];
    }
  }

  /** Ids grow along the list, from lo on. */
  predicate Increasing(ms: seq<MetaData>, lo: int)
    decreases |ms|
  {
    ms == [] || (lo <= ms[0].idid && Increasing(ms[1..], ms[0].idid + 1))
  }

  lemma {:induction false} IncreasingAt(ms: seq<MetaData>, lo: int, i: nat, j: nat)
    requires Increasing(ms, lo) && i < j < |ms|
    ensures lo <= ms[i].idid < ms[j].idid
    decreases |ms|
  {
    if i > 0 {
      IncreasingAt(ms[1..], ms[0].idid + 1, i - 1, j - 1);
    } else if j > 1 {
      IncreasingAt(ms[1..], ms[0].idid + 1, 0, j - 1);
    }
  }

  lemma IncreasingCons(m: MetaData, ms: seq<MetaData>)
    requires Increasing(ms, m.idid + 1)
    ensures Increasing([m] + ms, m.idid) && Increasing([] + ms, m.idid)
  {
    assert ([m] + ms)[1..] == ms;
    assert [] + ms == ms;
  }

  lemma {:induction false} AuthorsIncrease(files: Files, lo: int, hi: int, board: string, author: string)
    requires forall id :: lo <= id <= hi ==> id in files && files[id].meta.idid == id
    ensures Increasing(ByAuthor(MetasBetween(files, lo, hi, board), author), lo)
    decreases hi - lo
  {
    hide Increasing;
    if lo > hi {
      NobodyIncreases(lo);
    } else {
      AuthorsIncrease(files, lo + 1, hi, board, author);
      var rest := MetasBetween(files, lo + 1, hi, board);
      AuthorStep(MetaOf(files, lo, board), rest, author);
      IncreasingCons(MetaOf(files, lo, board), ByAuthor(rest, author));
    }
  }

  lemma NobodyIncreases(lo: int)
    ensures Increasing([], lo)
  {
  }

  /** The documents of an author are exactly those stored with the author's name, by increasing id. */
  lemma AuthorsDocuments(files: Files, maxId: int, board: string, author: string)
    requires ValidFiles(files, maxId) && StoredBetween(files, 0, maxId)
    ensures var ms := ByAuthor(MetasBetween(files, 0, maxId, board), author);
            && (forall id :: id in files ==> (files[id].meta.author == author <==> files[id].meta.(board := board) in ms))
            && (forall i :: 0 <= i < |ms| ==> ms[i].idid in files && ms[i] == files[ms[i].idid].meta.(board := board))
            && forall i, j :: 0 <= i < j < |ms| ==> ms[i].idid < ms[j].idid
  {
    hide MetasBetween, ByAuthor;
    var all := MetasBetween(files, 0, maxId, board);
    var ms := ByAuthor(all, author);
    forall id | id in files ensures files[id].meta.author == author <==> files[id].meta.(board := board) in ms {
      ByAuthorHolds(all, author, files[id].meta.(board := board));
      InMetasIff(files, maxId, board, 0, id);
    }
    forall i | 0 <= i < |ms| ensures ms[i].idid in files && ms[i] == files[ms[i].idid].meta.(board := board) {
      ByAuthorHolds(all, author, ms[i]);
      var k :| 0 <= k < |all| && all[k] == ms[i];
      MetasBetweenAt(files, 0, maxId, board, k);
    }
    AuthorsIncrease(files, 0, maxId, board, author);
    forall i, j | 0 <= i < j < |ms| ensures ms[i].idid < ms[j].idid {
      IncreasingAt(ms, 0, i, j);
    }
  }

  /** The query by time promises every document posted since then.  It keeps the promise exactly
    * when no stored document below the newest too-old one was posted since then. */
  lemma AfterTimeIsCompleteIff(files: Files, maxId: int, board: string, t: int)
    requires ValidFiles(files, maxId) && StoredBetween(files, 0, maxId)
    ensures var cut := NewestOlderThan(files, maxId, t);
            var ret := MetasBetween(files, cut + 1, maxId, board);
            (forall id :: id in files ==> (files[id].meta.postTime >= t <==> MetaOf(files, id, board) in ret)) <==>
            (forall id :: id in files && id < cut ==> files[id].meta.postTime < t)
  {
    hide MetasBetween, MetaOf, NewestOlderThan;
    var cut := NewestOlderThan(files, maxId, t);
    forall id | id in files
      ensures MetaOf(files, id, board) in MetasBetween(files, cut + 1, maxId, board) <==> id > cut
    {
      InMetasIff(files, maxId, board, cut + 1, id);
    }
  }

  lemma InMetasIff(files: Files, maxId: int, board: string, lo: int, id: int)
    requires ValidFiles(files, maxId) && (forall j :: lo <= j <= maxId ==> j in files) && id in files
    ensures MetaOf(files, id, board) in MetasBetween(files, lo, maxId, board) <==> id >= lo
  {
    hide MetasBetween;
    var ret := MetasBetween(files, lo, maxId, board);
    if id >= lo {
      MetasBetweenAt(files, lo, maxId, board, id - lo);
    } else if MetaOf(files, id, board) in ret {
      var k :| 0 <= k < |ret| && ret[k] == MetaOf(files, id, board);
      MetasBetweenAt(files, lo, maxId, board, k);
      assert false;
    }
  }

  /** Two documents with ids in the wrong order of time: asked for what was posted since 3, the query does not
    * answer the document posted at 5. */
  lemma AfterTimeMisses(d0: Document, d1: Document, board: string)
    requires d0.meta.idid == 0 && d0.meta.postTime == 5 && d1.meta.idid == 1 && d1.meta.postTime == 1
    ensures var files := map[0 := d0, 1 := d1];
            && ValidFiles(files, 1) && StoredBetween(files, 0, 1) && NewestOlderThan(files, 1, 3) == 1
            && MetasBetween(files, NewestOlderThan(files, 1, 3) + 1, 1, board) == []
            && files[0].meta.postTime >= 3
  {
    NewestOlderStep(map[0 := d0, 1 := d1], 1, 3);
  }
}

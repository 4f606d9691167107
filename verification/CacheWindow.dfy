/** The cached documents and the index of their addresses, as values.
  *
  * Each function here is one critical section of the cache.  Deleting an
  * address that is not in the index raises an error in the program; such a
  * step answers false and leaves what was done before the error.
  */
module CacheWindow {
  import opened Wrappers
  import opened Urls
  import opened MinerStore

  datatype Window = Window(docs: seq<Option<Document>>, minId: int, maxId: int, urlToId: map<Url, int>)

  /** The address that belongs to each id. */
  type Names = map<int, Url>

  /** The cached document with the id, if there is one. */
  function At(w: Window, id: int): Option<Document> {
    if 0 <= id - w.minId < |w.docs| then w.docs[id - w.minId] else None
  }

  /** The window is at most `size` slots long, and a slot is empty or holds its document. */
  ghost predicate WellFormed(w: Window, size: nat) {
    && |w.docs| == w.maxId - w.minId + 1
    && |w.docs| <= size
    && forall id :: At(w, id).Some? ==> At(w, id).value.meta.idid == id
  }

  /** Each cached document has the address that belongs to its id. */
  ghost predicate Stable(w: Window, names: Names) {
    forall id :: At(w, id).Some? ==> id in names && At(w, id).value.url == names[id]
  }

  /** The index points only at cached documents with the indexed address. */
  ghost predicate IndexSound(w: Window) {
    forall u :: u in w.urlToId ==> At(w, w.urlToId[u]).Some? && At(w, w.urlToId[u]).value.url == u
  }

  /** Every cached document can be found through the index, by some id with its address. */
  ghost predicate IndexComplete(w: Window) {
    forall id :: At(w, id).Some? ==> At(w, id).value.url in w.urlToId
  }

  /** The index is exactly the inverse of the filled slots. */
  ghost predicate IndexInverse(w: Window) {
    forall u, id :: (u in w.urlToId && w.urlToId[u] == id) <==> (At(w, id).Some? && At(w, id).value.url == u)
  }

  ghost predicate WindowInv(w: Window, size: nat, names: Names) {
    WellFormed(w, size) && Stable(w, names) && IndexSound(w)
  }

  ghost predicate OwnNames(names: Names) {
    forall i, j :: i in names && j in names && names[i] == names[j] ==> i == j
  }

  lemma InverseFromDistinct(w: Window, size: nat, names: Names)
    requires WindowInv(w, size, names) && OwnNames(names)
    ensures IndexInverse(w) <==> IndexComplete(w)
  {
    if IndexInverse(w) {
      forall id | At(w, id).Some? ensures At(w, id).value.url in w.urlToId {
        var u := At(w, id).value.url;
        assert u in w.urlToId && w.urlToId[u] == id;
      }
    }
  }

  /** Writes a board into a cached document. */
  function SetBoardAt(w: Window, id: int, board: string): Window {
    if At(w, id).Some? then
      var doc := At(w, id).value;
      w.(docs := w.docs[id - w.minId := Some(doc.(meta := doc.meta.(board := board)))])
    else w
  }

  lemma SetBoardAtEach(w: Window, id: int, board: string, j: int)
    ensures At(SetBoardAt(w, id, board), j) ==
            if j == id && At(w, j).Some? then Some(At(w, j).value.(meta := At(w, j).value.meta.(board := board)))
            else At(w, j)
  {
  }

  lemma BoardKeepsWindow(w: Window, id: int, board: string, size: nat, names: Names)
    requires WindowInv(w, size, names)
    ensures var w' := SetBoardAt(w, id, board);
            && WindowInv(w', size, names)
            && (IndexInverse(w) ==> IndexInverse(w')) && (IndexComplete(w) ==> IndexComplete(w'))
            && forall j :: At(w', j) ==
                 if j == id && At(w, j).Some? then Some(At(w, j).value.(meta := At(w, j).value.meta.(board := board)))
                 else At(w, j)
  {
    forall j ensures At(SetBoardAt(w, id, board), j) ==
      if j == id && At(w, j).Some? then Some(At(w, j).value.(meta := At(w, j).value.meta.(board := board)))
      else At(w, j)
    {
      SetBoardAtEach(w, id, board, j);
    }
    assert |SetBoardAt(w, id, board).docs| == |w.docs|;
    hide At;
  }

  const EMPTY_WINDOW := Window([], 0, -1, map[])

  /** Empties slot i. */
  function CleanEntry(w: Window, i: nat): (Window, bool)
    requires i < |w.docs|
  {
    match w.docs[i]
    case None => (w, true)
    case Some(doc) =>
      if doc.url in w.urlToId then
        (w.(docs := w.docs[i := None], urlToId := w.urlToId - {doc.url}), true)
      else
        (w, false)
  }

  /** Empties slots i, ..., hi - 1 until one of them fails. */
  function CleanRange(w: Window, i: nat, hi: nat): (Window, bool)
    requires i <= hi <= |w.docs|
    decreases hi - i
  {
    if i == hi then (w, true)
    else
      var (w', ok) := CleanEntry(w, i);
      if ok then CleanRange(w', i + 1, hi) else (w', false)
  }

  /** Forgets every cached document with an id in the interval. */
  function Flush(w: Window, minId: int, maxId: int): (Window, bool)
    requires |w.docs| == w.maxId - w.minId + 1
  {
    var lo := (if w.minId >= minId then w.minId else minId) - w.minId;
    var hi := (if w.maxId <= maxId then w.maxId else maxId) + 1 - w.minId;
    if lo < hi then CleanRange(w, lo, hi) else (w, true)
  }

  function DropFirst(w: Window): Window
    requires |w.docs| > 0
  {
    w.(docs := w.docs[1..], minId := w.minId + 1)
  }

  /** Drops the oldest slots until at most `size` are left. */
  function Shrink(w: Window, size: nat): (Window, bool)
    decreases |w.docs|
  {
    if |w.docs| <= size then (w, true)
    else
      var (w', ok) := CleanEntry(w, 0);
      if ok then Shrink(DropFirst(w'), size) else (w', false)
  }

  function Blank(n: nat): seq<Option<Document>> {
    seq(n, i => None)
  }

  /** Makes room for the id: the window moves forward to a newer id, and reaches
    * back to an older one only when nothing has to be given up for it. */
  function MakeRoom(w: Window, id: int, size: nat): (Window, bool)
    requires |w.docs| == w.maxId - w.minId + 1
  {
    if w.maxId < id then
      var need := id - w.maxId;
      if need >= size then
        (Window([None], id, id, map[]), true)
      else
        var (w', ok) := Shrink(w, size - need);
        if ok then (w'.(docs := w'.docs + Blank(need), maxId := id), true) else (w', false)
    else if id < w.minId && w.maxId - id + 1 <= size then
      (w.(docs := Blank(w.minId - id) + w.docs, minId := id), true)
    else
      (w, true)
  }

  function Put(w: Window, doc: Document): Window {
    var i := doc.meta.idid - w.minId;
    if 0 <= i < |w.docs| then
      w.(docs := w.docs[i := Some(doc)], urlToId := w.urlToId[doc.url := doc.meta.idid])
    else
      w
  }

  /** Caches the document if there is room for it. */
  function Insert(w: Window, doc: Document, size: nat): (Window, bool)
    requires |w.docs| == w.maxId - w.minId + 1
  {
    var (w', ok) := MakeRoom(w, doc.meta.idid, size);
    if ok then (Put(w', doc), true) else (w', false)
  }

  /** Every document cached in w' was cached in w under the same id. */
  ghost predicate Below(w': Window, w: Window) {
    forall id :: At(w', id).Some? ==> At(w', id) == At(w, id)
  }

  /** What a step that forgets documents keeps. */
  ghost predicate Forgets(w: Window, w': Window, size: nat, names: Names, ok: bool) {
    && WindowInv(w', size, names) && Below(w', w)
    && (OwnNames(names) && IndexComplete(w) ==> ok && IndexComplete(w'))
  }

  lemma CleanEntryKeeps(w: Window, i: nat, size: nat, names: Names)
    requires WindowInv(w, size, names) && i < |w.docs|
    ensures var (w', ok) := CleanEntry(w, i);
            && Forgets(w, w', size, names, ok)
            && |w'.docs| == |w.docs| && w'.minId == w.minId && w'.maxId == w.maxId
            && (ok ==> w'.docs == w.docs[i := None])
  {
    var (w', ok) := CleanEntry(w, i);
    assert At(w, w.minId + i) == w.docs[i];
    forall id ensures At(w', id) == if ok && id == w.minId + i then None else At(w, id) {
    }
  }

  lemma {:induction false} CleanRangeKeeps(w: Window, i: nat, hi: nat, size: nat, names: Names)
    requires WindowInv(w, size, names) && i <= hi <= |w.docs|
    ensures var (w', ok) := CleanRange(w, i, hi);
            && Forgets(w, w', size, names, ok)
            && |w'.docs| == |w.docs| && w'.minId == w.minId && w'.maxId == w.maxId
            && (ok ==> forall id :: At(w', id) == if i <= id - w.minId < hi then None else At(w, id))
    decreases hi - i
  {
    if i < hi {
      CleanEntryKeeps(w, i, size, names);
      var (w1, ok1) := CleanEntry(w, i);
      if ok1 {
        CleanRangeKeeps(w1, i + 1, hi, size, names);
      }
    }
  }

  /** Flushing forgets exactly the interval.  It cannot fail when no two ids share an address. */
  lemma FlushKeeps(w: Window, minId: int, maxId: int, size: nat, names: Names)
    requires WindowInv(w, size, names)
    ensures var (w', ok) := Flush(w, minId, maxId);
            && Forgets(w, w', size, names, ok)
            && (ok ==> forall id :: At(w', id) == if minId <= id <= maxId then None else At(w, id))
  {
    var lo := (if w.minId >= minId then w.minId else minId) - w.minId;
    var hi := (if w.maxId <= maxId then w.maxId else maxId) + 1 - w.minId;
    if lo < hi {
      CleanRangeKeeps(w, lo, hi, size, names);
    }
  }

  lemma {:induction false} ShrinkKeeps(w: Window, n: nat, size: nat, names: Names)
    requires WindowInv(w, size, names)
    ensures var (w', ok) := Shrink(w, n);
            && Forgets(w, w', size, names, ok)
            && w'.maxId == w.maxId && w'.minId >= w.minId
            && (ok ==> |w'.docs| == if |w.docs| <= n then |w.docs| else n)
            && (ok ==> forall id :: id >= w'.minId ==> At(w', id) == At(w, id))
    decreases |w.docs|
  {
    if |w.docs| > n {
      CleanEntryKeeps(w, 0, size, names);
      var (w1, ok1) := CleanEntry(w, 0);
      if ok1 {
        var w2 := DropFirst(w1);
        forall id ensures At(w2, id) == At(w1, id) {
        }
        ShrinkKeeps(w2, n, size, names);
      }
    }
  }

  lemma MakeRoomKeeps(w: Window, id: int, size: nat, names: Names)
    requires WindowInv(w, size, names) && size >= 1
    ensures var (w', ok) := MakeRoom(w, id, size);
            && Forgets(w, w', size, names, ok)
            && (ok ==> w'.maxId == if w.maxId < id then id else w.maxId)
            && (ok && w.maxId - size < id ==> w'.minId <= id)
            && (ok && id - w.maxId < size ==> forall j :: j >= w'.minId ==> At(w', j) == At(w, j))
  {
    if w.maxId < id && id - w.maxId < size {
      ShrinkKeeps(w, size - (id - w.maxId), size, names);
      var (w1, ok1) := Shrink(w, size - (id - w.maxId));
      hide Shrink;
      if ok1 {
        SameSlotsKeeps(w1, w1.(docs := w1.docs + Blank(id - w.maxId), maxId := id), size, names);
      }
    } else if w.maxId < id {
      NoSlotsKeeps(id, size, names);
    } else if id < w.minId && w.maxId - id + 1 <= size {
      SameSlotsKeeps(w, w.(docs := Blank(w.minId - id) + w.docs, minId := id), size, names);
    }
  }

  lemma NoSlotsKeeps(id: int, size: nat, names: Names)
    requires size >= 1
    ensures var w := Window([None], id, id, map[]);
            WindowInv(w, size, names) && IndexComplete(w) && forall j :: At(w, j) == None
  {
  }

  /** Adding empty slots at either end changes nothing. */
  lemma SameSlotsKeeps(w: Window, w': Window, size: nat, names: Names)
    requires WindowInv(w, size, names) && w'.urlToId == w.urlToId
    requires |w.docs| <= |w'.docs| == w'.maxId - w'.minId + 1 <= size
    requires (w'.minId == w.minId && w'.docs == w.docs + Blank(|w'.docs| - |w.docs|)) ||
             (w'.maxId == w.maxId && w'.docs == Blank(|w'.docs| - |w.docs|) + w.docs)
    ensures WindowInv(w', size, names) && (IndexComplete(w) ==> IndexComplete(w'))
    ensures forall j :: At(w', j) == At(w, j)
  {
    forall j ensures At(w', j) == At(w, j) {
    }
  }

  /** Caching a document keeps the window and the index in order, whatever was cached before;
    * when no two ids share an address it does not fail and the index stays the exact inverse.
    * The newest document is always cached, and so is every one less than `size` below the newest. */
  lemma InsertKeeps(w: Window, doc: Document, size: nat, names: Names)
    requires WindowInv(w, size, names) && size >= 1
    requires doc.meta.idid in names && doc.url == names[doc.meta.idid]
    ensures var (w', ok) := Insert(w, doc, size);
            && WindowInv(w', size, names)
            && (OwnNames(names) && IndexComplete(w) ==> ok && IndexComplete(w'))
            && (forall id :: At(w', id).Some? ==>
                  At(w', id) == At(w, id) || (id == doc.meta.idid && At(w', id) == Some(doc)))
            && (ok && w.maxId - size < doc.meta.idid ==> At(w', doc.meta.idid) == Some(doc))
            && (ok && doc.meta.idid <= w.maxId - size ==> w' == w)
            && (ok && doc.meta.idid - w.maxId < size ==>
                  forall id :: id >= w'.minId && id != doc.meta.idid ==> At(w', id) == At(w, id))
  {
    var id := doc.meta.idid;
    MakeRoomKeeps(w, id, size, names);
    var (w1, ok1) := MakeRoom(w, id, size);
    if ok1 {
      var w' := Put(w1, doc);
      forall j ensures At(w', j) == if j == id && 0 <= j - w1.minId < |w1.docs| then Some(doc) else At(w1, j) {
      }
    }
  }

  /** The filled slots lo, ..., hi - 1 hold documents with pairwise different addresses. */
  ghost predicate DistinctUrlsIn(w: Window, lo: nat, hi: nat)
    requires lo <= hi <= |w.docs|
  {
    forall i, j :: lo <= i < j < hi && w.docs[i].Some? && w.docs[j].Some? ==>
      w.docs[i].value.url != w.docs[j].value.url
  }

  /** Every address held in slots lo, ..., hi - 1 is indexed. */
  ghost predicate IndexedIn(w: Window, lo: nat, hi: nat)
    requires lo <= hi <= |w.docs|
  {
    forall i :: lo <= i < hi && w.docs[i].Some? ==> w.docs[i].value.url in w.urlToId
  }

  /** Emptying slots succeeds exactly when their addresses are indexed and pairwise different:
    * two documents stored under one made-up address are what makes the deletion fail. */
  lemma {:induction false} CleanRangeSucceedsIff(w: Window, lo: nat, hi: nat)
    requires lo <= hi <= |w.docs|
    ensures CleanRange(w, lo, hi).1 <==> DistinctUrlsIn(w, lo, hi) && IndexedIn(w, lo, hi)
    decreases hi - lo
  {
    if lo < hi {
      var (w1, ok1) := CleanEntry(w, lo);
      if ok1 {
        CleanRangeSucceedsIff(w1, lo + 1, hi);
        if w.docs[lo].Some? {
          var u := w.docs[lo].value.url;
          if DistinctUrlsIn(w1, lo + 1, hi) && IndexedIn(w1, lo + 1, hi) {
            forall j | lo < j < hi && w.docs[j].Some? ensures w.docs[j].value.url != u {
              assert w1.docs[j] == w.docs[j];
            }
            forall i, j | lo <= i < j < hi && w.docs[i].Some? && w.docs[j].Some?
              ensures w.docs[i].value.url != w.docs[j].value.url
            {
              assert i > lo ==> w1.docs[i] == w.docs[i] && w1.docs[j] == w.docs[j];
            }
            forall i | lo <= i < hi && w.docs[i].Some? ensures w.docs[i].value.url in w.urlToId {
              assert i > lo ==> w1.docs[i] == w.docs[i];
            }
          }
          if DistinctUrlsIn(w, lo, hi) && IndexedIn(w, lo, hi) {
            forall i | lo < i < hi ensures w1.docs[i] == w.docs[i] {
            }
          }
        }
      }
    }
  }

  lemma {:induction false} CleanRangeShifted(w: Window, i: nat, hi: nat)
    requires i < hi <= |w.docs|
    ensures CleanRange(w, i + 1, hi).1 == CleanRange(DropFirst(w), i, hi - 1).1
    decreases hi - i
  {
    if i + 1 < hi {
      var (w1, ok1) := CleanEntry(w, i + 1);
      if ok1 {
        assert DropFirst(w1).docs == CleanEntry(DropFirst(w), i).0.docs;
        CleanRangeShifted(w1, i + 1, hi);
      }
    }
  }

  lemma {:induction false} ShrinkCleansFirst(w: Window, n: nat)
    ensures Shrink(w, n).1 == if |w.docs| <= n then true else CleanRange(w, 0, |w.docs| - n).1
    decreases |w.docs|
  {
    if |w.docs| > n {
      var (w1, ok1) := CleanEntry(w, 0);
      if ok1 {
        ShrinkCleansFirst(DropFirst(w1), n);
        CleanRangeShifted(w1, 0, |w.docs| - n);
      }
    }
  }

  /** Emptying the slots lo, ..., hi - 1 does not fail. */
  ghost predicate Cleanable(w: Window, lo: nat, hi: nat)
    requires lo <= hi <= |w.docs|
  {
    DistinctUrlsIn(w, lo, hi) && IndexedIn(w, lo, hi)
  }

  /** Dropping the oldest slots succeeds exactly when their addresses are indexed and pairwise different. */
  lemma ShrinkSucceedsIff(w: Window, n: nat)
    ensures Shrink(w, n).1 <==> |w.docs| <= n || Cleanable(w, 0, |w.docs| - n)
  {
    ShrinkCleansFirst(w, n);
    if |w.docs| > n {
      CleanRangeSucceedsIff(w, 0, |w.docs| - n);
    }
  }

  /** Caching a document with the id does not fail: only a move forward that gives up slots can. */
  ghost predicate InsertSucceeds(w: Window, id: int, size: nat) {
    var kept := size - (id - w.maxId);
    w.maxId < id && 0 < kept && |w.docs| > kept ==> Cleanable(w, 0, |w.docs| - kept)
  }

  /** A look-up by id does not fail. */
  ghost predicate ReadSucceeds(w: Window, id: int, size: nat) {
    At(w, id).Some? || InsertSucceeds(w, id, size)
  }

  lemma InsertSucceedsIff(w: Window, doc: Document, size: nat)
    requires |w.docs| == w.maxId - w.minId + 1
    ensures Insert(w, doc, size).1 <==> InsertSucceeds(w, doc.meta.idid, size)
    ensures Insert(w, doc, size).1 ==>
              Insert(w, doc, size).0.maxId == if w.maxId < doc.meta.idid then doc.meta.idid else w.maxId
  {
    hide Cleanable;
    var id := doc.meta.idid;
    if w.maxId < id && id - w.maxId < size {
      ShrinkSucceedsIff(w, size - (id - w.maxId));
    }
  }

  /** The slots a flush empties do not make it fail. */
  ghost predicate FlushSucceeds(w: Window, minId: int, maxId: int)
    requires |w.docs| == w.maxId - w.minId + 1
  {
    var lo := (if w.minId >= minId then w.minId else minId) - w.minId;
    var hi := (if w.maxId <= maxId then w.maxId else maxId) + 1 - w.minId;
    lo < hi ==> Cleanable(w, lo, hi)
  }

  lemma FlushSucceedsIff(w: Window, minId: int, maxId: int)
    requires |w.docs| == w.maxId - w.minId + 1
    ensures Flush(w, minId, maxId).1 <==> FlushSucceeds(w, minId, maxId)
  {
    var lo := (if w.minId >= minId then w.minId else minId) - w.minId;
    var hi := (if w.maxId <= maxId then w.maxId else maxId) + 1 - w.minId;
    if lo < hi {
      CleanRangeSucceedsIff(w, lo, hi);
    }
  }

  /** What is cached after three documents with ids 0, 1 and 2, the first two under one address. */
  function ThreeCached(d0: Document, d1: Document, d2: Document): Window {
    Window([Some(d0), Some(d1), Some(d2)], 0, 2, map[d0.url := 1, d2.url := 2])
  }

  lemma CacheThree(d0: Document, d1: Document, d2: Document)
    requires d0.meta.idid == 0 && d1.meta.idid == 1 && d2.meta.idid == 2 && d0.url == d1.url != d2.url
    ensures Insert(Insert(Insert(EMPTY_WINDOW, d0, 3).0, d1, 3).0, d2, 3) == (ThreeCached(d0, d1, d2), true)
  {
    var w1 := Window([Some(d0)], 0, 0, map[d0.url := 0]);
    var w2 := Window([Some(d0), Some(d1)], 0, 1, map[d0.url := 1]);
    InsertNext(EMPTY_WINDOW, d0, w1);
    InsertNext(w1, d1, w2);
    hide Insert;
    InsertNext(w2, d2, ThreeCached(d0, d1, d2));
  }

  /** Two documents cached under one stub, and a third one: flushing the two fails, and so does a look-up
    * that makes the window give both up. */
  lemma SharedStubFails(d0: Document, d1: Document, d2: Document, d4: Document)
    requires d0.meta.idid == 0 && d1.meta.idid == 1 && d2.meta.idid == 2 && d4.meta.idid == 4
    requires d0.url == d1.url != d2.url
    ensures var w := Insert(Insert(Insert(EMPTY_WINDOW, d0, 3).0, d1, 3).0, d2, 3).0;
            && w == ThreeCached(d0, d1, d2) && !Flush(w, 0, 1).1 && !Insert(w, d4, 3).1
  {
    hide Insert, Flush, CleanRange, Cleanable;
    CacheThree(d0, d1, d2);
    var w := ThreeCached(d0, d1, d2);
    SharedIsNotCleanable(w);
    FlushSucceedsIff(w, 0, 1);
    InsertSucceedsIff(w, d4, 3);
  }

  lemma SharedIsNotCleanable(w: Window)
    requires |w.docs| >= 2 && w.docs[0].Some? && w.docs[1].Some? && w.docs[0].value.url == w.docs[1].value.url
    ensures !Cleanable(w, 0, 2)
  {
  }

  lemma InsertNext(w: Window, doc: Document, w': Window)
    requires |w.docs| == w.maxId + 1 && w.minId == 0 && doc.meta.idid == |w.docs| < 3
    requires w' == Window(w.docs + [Some(doc)], 0, |w.docs|, w.urlToId[doc.url := |w.docs|])
    ensures Insert(w, doc, 3) == (w', true)
  {
    assert Shrink(w, 2) == (w, true);
    assert Blank(1) == [None];
    assert (w.docs + [None])[|w.docs| := Some(doc)] == w.docs + [Some(doc)];
  }
}

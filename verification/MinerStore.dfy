/** The document store of the miner: one file per document id, refreshed in place. */
module MinerStore {
  import opened Wrappers
  import opened Urls

  datatype Reply = Reply(mode: nat, user: string, message: string)

  datatype MetaData = MetaData(
    idid: int, prevId: int, title: string, author: string, postTime: int, board: string, numReplyRows: seq<nat>)

  datatype RealData = RealData(content: string, replies: seq<Reply>)

  datatype Document = Document(url: Url, meta: MetaData, body: RealData)

  /** What the web answers for an address; the answer may differ from fetch to fetch. */
  datatype Article = Article(meta: MetaData, body: RealData)

  type Web = (Url, nat) -> Article

  type Files = map<int, Document>

  function MakeDocument(id: int, url: Url, a: Article): Document {
    Document(url, a.meta.(idid := id, prevId := id), a.body)
  }

  /** The document holds, field by field, what was fetched from its address, under the id. */
  ghost predicate HoldsArticle(doc: Document, id: int, url: Url, a: Article) {
    && doc.url == url && doc.meta.idid == id && doc.meta.prevId == id
    && doc.meta.title == a.meta.title && doc.meta.author == a.meta.author && doc.meta.postTime == a.meta.postTime
    && doc.meta.board == a.meta.board && doc.meta.numReplyRows == a.meta.numReplyRows
    && doc.body.content == a.body.content && doc.body.replies == a.body.replies
  }

  /** The document holds what one of the fetches number lo, ..., hi - 1 from the address gave. */
  ghost predicate HoldsFetch(web: Web, doc: Document, id: int, url: Url, lo: nat, hi: nat) {
    exists c: nat :: lo <= c < hi && HoldsArticle(doc, id, url, web(url, c))
  }

  /** Doc is what one of the fetches number lo, ..., hi - 1 made of the address. */
  ghost predicate FetchedIn(web: Web, id: int, url: Url, doc: Document, lo: nat, hi: nat) {
    exists c: nat :: lo <= c < hi && doc == MakeDocument(id, url, web(url, c))
  }

  /** Between the two states of the store exactly the documents with ids above cut were
    * fetched again, by fetches number lo, ..., hi - 1, from the addresses they had. */
  ghost predicate RefreshedAbove(web: Web, was: Files, now: Files, cut: int, lo: nat, hi: nat) {
    && now.Keys == was.Keys
    && forall id :: id in was ==>
         if id <= cut then now[id] == was[id]
         else now[id].url == was[id].url && FetchedIn(web, id, was[id].url, now[id], lo, hi)
  }

  lemma RefreshOne(web: Web, was: Files, now: Files, id: int, lo: nat, hi: nat)
    requires lo <= hi && RefreshedAbove(web, was, now, id, lo, hi) && id in was
    ensures RefreshedAbove(web, was, now[id := MakeDocument(id, was[id].url, web(was[id].url, hi))], id - 1, lo, hi + 1)
  {
    var doc := MakeDocument(id, was[id].url, web(was[id].url, hi));
    var now' := now[id := doc];
    forall j | j in was && j > id - 1
      ensures FetchedIn(web, j, was[j].url, now'[j], lo, hi + 1)
    {
      if j > id {
        var c: nat :| lo <= c < hi && now[j] == MakeDocument(j, was[j].url, web(was[j].url, c));
      }
    }
  }

  /** The first id fetched again by a refresh of everything posted since t; the newest id when nothing is. */
  ghost predicate FirstRefetched(files: Files, maxId: int, t: int, lo: int) {
    var cut := NewestOlderThan(files, maxId, t);
    && lo <= maxId
    && (forall id :: id in files && id > cut ==> lo <= id)
    && (lo == maxId || (lo in files && lo > cut))
  }

  lemma IsFirstRefetched(files: Files, maxId: int, t: int, cut: int, lo: int)
    requires cut == NewestOlderThan(files, maxId, t) && lo <= maxId
    requires forall id :: id in files && id > cut ==> lo <= id
    requires lo != maxId ==> lo in files && lo > cut
    ensures FirstRefetched(files, maxId, t, lo)
  {
  }

  lemma NothingRefreshed(web: Web, was: Files, maxId: int, lo: nat)
    requires forall id :: id in was ==> id <= maxId
    ensures RefreshedAbove(web, was, was, maxId, lo, lo)
  {
  }

  lemma NotYetRefreshed(web: Web, was: Files, now: Files, id: int, lo: nat, hi: nat)
    requires RefreshedAbove(web, was, now, id, lo, hi)
    ensures now.Keys == was.Keys && (id in was ==> now[id] == was[id])
    ensures id !in was ==> RefreshedAbove(web, was, now, id - 1, lo, hi)
  {
  }

  /** The documents above the cut hold, field by field, one of the fetches from their own addresses; the others, and
    * the ids, are as they were. */
  ghost predicate HoldFetchesAbove(web: Web, was: Files, now: Files, cut: int, lo: nat, hi: nat) {
    && now.Keys == was.Keys
    && (forall id :: id in now && id <= cut ==> now[id] == was[id])
    && forall id :: id in now && id > cut ==> HoldsFetch(web, now[id], id, was[id].url, lo, hi)
  }

  lemma RefreshedHold(web: Web, was: Files, now: Files, cut: int, lo: nat, hi: nat)
    requires RefreshedAbove(web, was, now, cut, lo, hi)
    ensures HoldFetchesAbove(web, was, now, cut, lo, hi)
  {
    forall id | id in now && id > cut ensures HoldsFetch(web, now[id], id, was[id].url, lo, hi) {
      var c: nat :| lo <= c < hi && now[id] == MakeDocument(id, was[id].url, web(was[id].url, c));
      assert HoldsArticle(now[id], id, was[id].url, web(was[id].url, c));
    }
  }

  ghost predicate ValidFiles(files: Files, maxId: int) {
    && -1 <= maxId
    && (maxId >= 0 ==> maxId in files)
    && forall id :: id in files ==> 0 <= id <= maxId && files[id].meta.idid == id
  }

  ghost predicate AllNamed(files: Files) {
    forall id :: id in files ==> !files[id].url.Unnamed?
  }

  /** Address numbers do not decrease with the id; ids may be missing. */
  ghost predicate SortedFiles(files: Files)
    requires AllNamed(files)
  {
    forall i, j :: i in files && j in files && i < j ==> Num(files[i].url) <= Num(files[j].url)
  }

  ghost predicate DistinctNums(files: Files)
    requires AllNamed(files)
  {
    forall i, j :: i in files && j in files && i != j ==> Num(files[i].url) != Num(files[j].url)
  }

  /** The newest id up to i whose document was posted before t, or -1. */
  function NewestOlderThan(files: Files, i: int, t: int): (cut: int)
    ensures -1 <= cut
    ensures cut >= 0 ==> cut <= i && cut in files && files[cut].meta.postTime < t
    ensures forall id :: cut < id <= i && id in files ==> files[id].meta.postTime >= t
    decreases i
  {
    if i < 0 then -1
    else if i in files && files[i].meta.postTime < t then i
    else NewestOlderThan(files, i - 1, t)
  }

  lemma NewestOlderLast(files: Files, t: int)
    ensures NewestOlderThan(files, -1, t) == -1
  {
  }

  lemma NewestOlderStep(files: Files, i: int, t: int)
    requires i >= 0
    ensures NewestOlderThan(files, i, t) ==
            if i in files && files[i].meta.postTime < t then i else NewestOlderThan(files, i - 1, t)
  {
  }

  /** The scan for an address number from id i downwards, with its early exit. */
  function ScanForNum(files: Files, i: int, num: int): Option<Document>
    requires AllNamed(files)
    decreases i
  {
    if i < 0 then None
    else if i !in files then ScanForNum(files, i - 1, num)
    else if Num(files[i].url) == num then Some(files[i])
    else if Num(files[i].url) < num then None
    else ScanForNum(files, i - 1, num)
  }

  /** Id `best` is the newest document stored under the number. */
  ghost predicate NewestWithNum(files: Files, num: int, best: int)
    requires AllNamed(files)
  {
    && best in files
    && Num(files[best].url) == num
    && forall id :: id in files && id > best ==> Num(files[id].url) != num
  }

  ghost predicate SomeWithNum(files: Files, num: int)
    requires AllNamed(files)
  {
    exists id :: id in files && Num(files[id].url) == num
  }

  /** Exhaustive answer: the newest document with the number, or none when there is none. */
  ghost predicate ExhaustiveAnswer(files: Files, num: int, r: Option<Document>)
    requires AllNamed(files)
  {
    match r
    case None => !SomeWithNum(files, num)
    case Some(doc) => exists best :: NewestWithNum(files, num, best) && doc == files[best]
  }

  /** Nothing stored above the newest document of some number has a smaller number. */
  ghost predicate NoOlderAbove(files: Files, num: int)
    requires AllNamed(files)
  {
    forall i, j :: NewestWithNum(files, num, i) && j in files && j > i ==> Num(files[j].url) > num
  }

  lemma {:induction false} ScanFrom(files: Files, i: int, num: int)
    requires AllNamed(files)
    requires forall id :: id in files && id > i ==> Num(files[id].url) > num
    requires forall id :: id in files ==> id >= 0
    ensures NoOlderAbove(files, num) ==> ExhaustiveAnswer(files, num, ScanForNum(files, i, num))
    ensures ExhaustiveAnswer(files, num, ScanForNum(files, i, num)) ==> NoOlderAbove(files, num)
    decreases i
  {
    if i >= 0 {
      if i in files && Num(files[i].url) == num {
        assert NewestWithNum(files, num, i);
      } else if i in files && Num(files[i].url) < num {
        if NoOlderAbove(files, num) && SomeWithNum(files, num) {
          var best := PickNewest(files, num, i);
          assert false;
        }
      } else {
        ScanFrom(files, i - 1, num);
      }
    }
  }

  lemma PickNewest(files: Files, num: int, top: int) returns (best: int)
    requires AllNamed(files)
    requires forall id :: id in files && id > top ==> Num(files[id].url) != num
    requires forall id :: id in files ==> id >= 0
    requires SomeWithNum(files, num)
    ensures NewestWithNum(files, num, best)
    decreases top
  {
    if top in files && Num(files[top].url) == num {
      best := top;
    } else {
      var id :| id in files && Num(files[id].url) == num;
      best := PickNewest(files, num, top - 1);
    }
  }

  /** The early exit loses nothing exactly when no document with a smaller number
    * sits above the newest document with the wanted number. */
  lemma ScanIsExhaustiveIff(files: Files, maxId: int, num: int)
    requires AllNamed(files) && ValidFiles(files, maxId)
    ensures ExhaustiveAnswer(files, num, ScanForNum(files, maxId, num)) <==> NoOlderAbove(files, num)
  {
    ScanFrom(files, maxId, num);
  }

  /** On a store whose numbers do not decrease, the scan finds every stored number. */
  lemma ScanOnSortedStore(files: Files, maxId: int, num: int)
    requires AllNamed(files) && ValidFiles(files, maxId) && SortedFiles(files)
    ensures ExhaustiveAnswer(files, num, ScanForNum(files, maxId, num))
  {
    ScanIsExhaustiveIff(files, maxId, num);
  }

  class Storage {
    const web: Web
    /** Number of fetches made so far. */
    var fetches: nat
    var files: Files
    var maxId: int
    var updated: bool

    ghost predicate Valid()
      reads this
    {
      ValidFiles(files, maxId)
    }

    constructor (web: Web, files: Files, maxId: int)
      requires ValidFiles(files, maxId)
      ensures Valid() && this.web == web && this.files == files && this.maxId == maxId && !updated
    {
      this.web, this.files, this.maxId := web, files, maxId;
      fetches, updated := 0, false;
    }

    /** A stored document than which no stored one has a larger id; none exactly for an empty store. */
    method NewestDoc() returns (doc: Option<Document>)
      requires Valid()
      ensures doc.None? <==> files == map[]
      ensures doc.Some? ==>
                var newest := doc.value.meta.idid;
                newest in files && files[newest] == doc.value && forall id :: id in files ==> id <= newest
    {
      if maxId >= 0 {
        doc := Some(files[maxId]);
      } else {
        assert forall id :: id !in files;
        doc := None;
      }
    }

    /** The oldest document of the unbroken run of ids that ends at the newest one;
      * none when the run reaches down to id 0. */
    method OldestDoc() returns (doc: Option<Document>)
      requires Valid()
      ensures doc.None? <==> forall id :: 0 <= id <= maxId ==> id in files
      ensures doc.Some? ==>
                var o := doc.value.meta.idid;
                && 0 < o <= maxId && o - 1 !in files
                && (forall id :: o <= id <= maxId ==> id in files)
                && doc.value == files[o]
    {
      var prev: Option<int> := None;
      var idid := maxId;
      while idid > -1
        invariant -1 <= idid <= maxId
        invariant forall id :: idid < id <= maxId ==> id in files
        invariant prev == if idid == maxId then None else Some(idid + 1)
      {
        if idid !in files {
          if prev.None? {
            return None;
          }
          return Some(files[prev.value]);
        }
        prev := Some(idid);
        idid := idid - 1;
      }
      return None;
    }

    method AddDoc(idid: int, url: Url) returns (added: bool)
      requires Valid() && 0 <= idid
      modifies this
      ensures Valid()
      ensures added <==> idid !in old(files)
      ensures !added ==> files == old(files) && maxId == old(maxId) && fetches == old(fetches) && updated == old(updated)
      ensures added ==>
                && files == old(files)[idid := MakeDocument(idid, url, web(url, old(fetches)))]
                && HoldsArticle(files[idid], idid, url, web(url, old(fetches)))
                && maxId == (if idid > old(maxId) then idid else old(maxId))
                && fetches == old(fetches) + 1 && updated
    {
      if idid !in files {
        UpdateDoc(idid, url);
        updated := true;
        return true;
      }
      return false;
    }

    method UpdateDoc(idid: int, url: Url)
      requires Valid() && 0 <= idid
      modifies this
      ensures Valid()
      ensures files == old(files)[idid := MakeDocument(idid, url, web(url, old(fetches)))]
      ensures HoldsArticle(files[idid], idid, url, web(url, old(fetches)))
      ensures maxId == (if idid > old(maxId) then idid else old(maxId))
      ensures fetches == old(fetches) + 1 && updated == old(updated)
    {
      var doc := MakeDocument(idid, url, web(url, fetches));
      fetches := fetches + 1;
      files := files[idid := doc];
      maxId := if idid > maxId then idid else maxId;
    }

    /** Fetches again, newest first, every document down to the first one posted
      * before lastTime.  The interval returned covers exactly those documents. */
    method UpdateAfterTime(lastTime: int) returns (minId: int, newMaxId: int)
      requires Valid()
      modifies this
      ensures Valid() && maxId == old(maxId) && updated == old(updated)
      ensures newMaxId == maxId && minId <= newMaxId
      ensures fetches >= old(fetches)
      ensures var cut := NewestOlderThan(old(files), maxId, lastTime);
              && RefreshedAbove(web, old(files), files, cut, old(fetches), fetches)
              && (forall id :: id in files && id > cut ==> minId <= id <= newMaxId)
              && FirstRefetched(old(files), maxId, lastTime, minId)
              && HoldFetchesAbove(web, old(files), files, cut, old(fetches), fetches)
    {
      hide NewestOlderThan, RefreshedAbove, FirstRefetched, HoldFetchesAbove;
      ghost var was, lo := files, fetches;
      NothingRefreshed(web, was, maxId, lo);
      minId, newMaxId := maxId, maxId;
      var idid := maxId;
      while idid > -1
        invariant -1 <= idid <= maxId == old(maxId) == newMaxId && updated == old(updated)
        invariant Valid() && fetches >= lo
        invariant NewestOlderThan(was, maxId, lastTime) == NewestOlderThan(was, idid, lastTime)
        invariant RefreshedAbove(web, was, files, idid, lo, fetches)
        invariant forall id :: id in files && id > idid ==> minId <= id
        invariant minId <= newMaxId
        invariant minId != newMaxId ==> minId in files && minId > idid
      {
        NewestOlderStep(was, idid, lastTime);
        NotYetRefreshed(web, was, files, idid, lo, fetches);
        if idid in files {
          var doc := files[idid];
          if doc.meta.postTime < lastTime {
            break;
          }
          RefreshOne(web, was, files, idid, lo, fetches);
          UpdateDoc(doc.meta.idid, doc.url);
          minId := idid;
        }
        idid := idid - 1;
      }
      NewestOlderLast(was, lastTime);
      NotYetRefreshed(web, was, files, idid, lo, fetches);
      IsFirstRefetched(was, maxId, lastTime, idid, minId);
      RefreshedHold(web, was, files, idid, lo, fetches);
    }

    method GetDocByUrl(url: Url) returns (doc: Option<Document>)
      requires Valid() && AllNamed(files) && !url.Unnamed?
      ensures doc == ScanForNum(files, maxId, Num(url))
    {
      var num := Num(url);
      var idid := maxId;
      while idid > -1
        invariant -1 <= idid <= maxId
        invariant ScanForNum(files, maxId, num) == ScanForNum(files, idid, num)
      {
        if idid in files {
          var num2 := Num(files[idid].url);
          if num == num2 {
            return Some(files[idid]);
          }
          if num2 < num {
            break;
          }
        }
        idid := idid - 1;
      }
      return None;
    }
  }
}

/** The miner's metadata queries from the store to a C++ client: the range query, the packing of its answer, and
  * what the client loads from the reply.
  */
module MinerQueries {
  import opened Wrappers
  import opened MinerStore
  import opened DocumentCache
  import opened RealBackend
  import opened Utf8
  import opened Wire
  import opened Messages
  import opened MessageRoundTrip
  import opened Framing

  const QUERY_AFTER_ID: U32 := 0x200
  const QUERY_AFTER_TIME: U32 := 0x300
  const QUERY_OF_AUTHOR: U32 := 0x400

  /** The characters of a stored string; none of them is a surrogate. */
  function TextOf(s: string): (t: Text)
    ensures |t| == |s| && forall i :: 0 <= i < |s| ==> t[i] == s[i] as int
  {
    seq(|s|, i requires 0 <= i < |s| => s[i] as int)
  }

  /** Stored metadata as it is packed. */
  function PyMetaOf(m: MetaData): PyDocMetaData {
    PyDocMetaData(m.idid, m.prevId, TextOf(m.title), TextOf(m.author), m.postTime, TextOf(m.board), m.numReplyRows)
  }

  function PackMetas(metas: seq<MetaData>): Option<Bytes> {
    PackArray(Map(metas, PyMetaOf), PyDumpDocMetaData)
  }

  /** What a C++ client is to load for the metadata. */
  function CppMetasOf(metas: seq<MetaData>): seq<DocMetaData> {
    Map(Map(metas, PyMetaOf), CppMetaOf)
  }

  /** The store at the time of a query. */
  datatype Snapshot = Snapshot(files: Files, maxId: int)

  /** No document has to be waited for. */
  ghost predicate Complete(s: Snapshot) {
    ValidFiles(s.files, s.maxId) && StoredBetween(s.files, 0, s.maxId)
  }

  /** The id from which on a query asks for documents; above all of them when the argument is not of its kind. */
  function FirstSelected(s: Snapshot, t: U32, arg: Arg): int {
    if t == QUERY_AFTER_ID && arg.IdentityArg? then Max(arg.id, 0)
    else if t == QUERY_AFTER_TIME && arg.TimeArg? then NewestOlderThan(s.files, s.maxId, arg.t) + 1
    else s.maxId + 1
  }

  /** The documents that a query about the board asks for. */
  ghost function Selected(s: Snapshot, board: string, t: U32, arg: Arg): seq<MetaData>
    requires Complete(s)
  {
    MetasBetween(s.files, FirstSelected(s, t, arg), s.maxId, board)
  }

  /** The query is a metadata query about the board. */
  predicate IsAbout(board: string, t: U32, args: seq<Arg>) {
    (t == QUERY_AFTER_ID || t == QUERY_AFTER_TIME) && |args| == 2 && args[0] == StringArg(TextOf(board))
  }

  /** A backend that answers the metadata queries about one board from its store, and others in some way.  The
    * documents of an author come as an iterator without a length; packing it raises an error. */
  ghost function StoreBackend(at: nat -> Snapshot, board: string, other: Backend): Backend
    requires forall k :: Complete(at(k))
  {
    (k: nat, t: U32, args: seq<Arg>) =>
      if IsAbout(board, t, args) then PackMetas(Selected(at(k), board, t, args[1]))
      else if t == QUERY_OF_AUTHOR && |args| == 2 && args[0] == StringArg(TextOf(board)) then None
      else other(k, t, args)
  }

  /** A well-formed query for the documents of an author is not answered, and the connection ends with it. */
  lemma AuthorQueryIsUnanswered(
    at: nat -> Snapshot, board: string, other: Backend, k: nat, q: Package, author: Text, rest: seq<Package>)
    requires forall i :: Complete(at(i))
    requires q.typee == QUERY_OF_AUTHOR && Carries(q, [StringArg(TextOf(board)), StringArg(author)])
    ensures HandlePackage(StoreBackend(at, board, other), k, q) == None
    ensures Replies(MinerHandler(StoreBackend(at, board, other)), k, [q] + rest) == []
  {
    hide UnpackFrom, Map, PackAll;
    var args := [StringArg(TextOf(board)), StringArg(author)];
    ArgumentsAcceptedIff(q.body, KindsOf(q.typee).value, args);
    assert args[0] == StringArg(TextOf(board)) && !IsAbout(board, q.typee, args);
    assert StoreBackend(at, board, other)(k, q.typee, args) == None;
  }

  /** The client checks the reply's type, loads the array and checks that it ends with the body. */
  function LoadMetas(t: U32, r: Package): Option<seq<DocMetaData>> {
    if t != (if r.typee % 2 == 0 then r.typee + 1 else r.typee - 1) then None
    else
      var (metas, off) :- LoadVector(CppLoadDocMetaData, r.body, 0);
      if off == |r.body| then Some(metas) else None
  }

  lemma MetasAreLoaded(metas: seq<MetaData>, t: U32, body: Bytes)
    requires PackMetas(metas) == Some(body) && FitsSize(body) && t % 2 == 0
    ensures LoadMetas(t, Package(ReplyType(t), body)) == Some(CppMetasOf(metas))
  {
    hide PackArray, LoadVector, Map;
    HasAtIff(body, 0, body);
    assert body[0..0 + |body|] == body;
    hide HasAt;
    MetaDataArrayReadsBack(Map(metas, PyMetaOf), body, 0, body);
  }

  lemma {:induction false} CppMetasAt(metas: seq<MetaData>, i: nat)
    requires i < |metas|
    ensures |CppMetasOf(metas)| == |metas| && CppMetasOf(metas)[i] == CppMetaOf(PyMetaOf(metas[i]))
    decreases i
  {
    hide PyMetaOf, CppMetaOf;
    if i > 0 {
      CppMetasAt(metas[1..], i - 1);
    }
  }

  /** The loaded fields are those stored: texts in UTF-8, numbers as they are when they are in range, and the board
    * is the one asked for. */
  ghost predicate LoadedFrom(d: DocMetaData, m: MetaData, board: string) {
    && Encode(TextOf(m.title)) == Some(d.title) && Encode(TextOf(m.author)) == Some(d.author)
    && Encode(TextOf(board)) == Some(d.board)
    && (-0x8000_0000 <= m.idid < 0x8000_0000 ==> d.id == m.idid)
    && (-0x8000_0000 <= m.prevId < 0x8000_0000 ==> d.prevId == m.prevId)
    && (0 <= m.postTime < 0x8000_0000_0000_0000 ==> d.postTime == m.postTime)
    && (|m.numReplyRows| == 3 ==>
          && (m.numReplyRows[0] < 0x1_0000_0000 ==> d.good == m.numReplyRows[0])
          && (m.numReplyRows[1] < 0x1_0000_0000 ==> d.normal == m.numReplyRows[1])
          && (m.numReplyRows[2] < 0x1_0000_0000 ==> d.woo == m.numReplyRows[2]))
  }

  /** A text without surrogates can be encoded. */
  lemma {:induction false} ScalarsEncode(t: Text)
    requires forall i :: 0 <= i < |t| ==> Scalar(t[i])
    ensures Encode(t).Some?
    decreases |t|
  {
    if t != [] {
      ScalarsEncode(t[1..]);
    }
  }

  lemma StoredEncodes(s: string)
    ensures Encode(TextOf(s)).Some?
  {
    forall i | 0 <= i < |s| ensures Scalar(TextOf(s)[i]) {
      assert TextOf(s)[i] == s[i] as int;
    }
    ScalarsEncode(TextOf(s));
  }

  lemma StoredIsLoaded(m: MetaData, board: string)
    ensures LoadedFrom(CppMetaOf(PyMetaOf(m.(board := board))), m, board)
  {
    hide TextOf, Encode;
    StoredEncodes(m.title);
    StoredEncodes(m.author);
    StoredEncodes(board);
  }

  /** Each selected document is loaded with the fields it is stored with. */
  lemma EachSelectedDocument(s: Snapshot, board: string, t: U32, arg: Arg, i: nat)
    requires Complete(s) && FirstSelected(s, t, arg) + i <= s.maxId
    ensures var metas := CppMetasOf(Selected(s, board, t, arg));
            && |metas| == s.maxId - FirstSelected(s, t, arg) + 1
            && metas[i] == CppMetaOf(PyMetaOf(MetaOf(s.files, FirstSelected(s, t, arg) + i, board)))
            && LoadedFrom(metas[i], s.files[FirstSelected(s, t, arg) + i].meta, board)
  {
    var lo := FirstSelected(s, t, arg);
    assert lo >= 0;
    hide CppMetasOf, PyMetaOf, CppMetaOf, FirstSelected, LoadedFrom;
    MetasBetweenAt(s.files, lo, s.maxId, board, i);
    CppMetasAt(MetasBetween(s.files, lo, s.maxId, board), i);
    StoredIsLoaded(s.files[lo + i].meta, board);
  }

  /** The client has loaded exactly the documents with the ids from lo on, in order. */
  ghost predicate LoadedAll(loaded: seq<DocMetaData>, s: Snapshot, lo: int, board: string)
    requires Complete(s) && 0 <= lo <= s.maxId + 1
  {
    |loaded| == s.maxId + 1 - lo && forall i :: 0 <= i < |loaded| ==> LoadedFrom(loaded[i], s.files[lo + i].meta, board)
  }

  lemma SelectedIsLoaded(s: Snapshot, board: string, t: U32, arg: Arg)
    requires Complete(s)
    ensures 0 <= Least(FirstSelected(s, t, arg), s.maxId + 1)
    ensures LoadedAll(CppMetasOf(Selected(s, board, t, arg)), s, Least(FirstSelected(s, t, arg), s.maxId + 1), board)
  {
    hide CppMetasOf, LoadedFrom, MetasBetween;
    var lo := FirstSelected(s, t, arg);
    var loaded := CppMetasOf(Selected(s, board, t, arg));
    CppMetasLength(Selected(s, board, t, arg));
    forall i | 0 <= i < |loaded| ensures LoadedFrom(loaded[i], s.files[lo + i].meta, board) {
      EachSelectedDocument(s, board, t, arg, i);
    }
  }

  lemma CppMetasLength(metas: seq<MetaData>)
    ensures |CppMetasOf(metas)| == |metas|
  {
  }

  function Least(a: int, b: int): int {
    if a <= b then a else b
  }

  /** What comes back for the k-th query of a connection, when it asks for the documents from an id on or since a
    * time: the client loads exactly the documents selected, in order, with the fields they are stored with. */
  lemma MetaDataComesBack(at: nat -> Snapshot, board: string, other: Backend, qs: seq<Query>, ps: seq<Package>, k: nat)
    requires (forall i :: Complete(at(i))) && BackendFits(StoreBackend(at, board, other)) && k < |qs| == |ps|
    requires forall i :: 0 <= i < |qs| ==> Asks(StoreBackend(at, board, other), i, qs[i], ps[i])
    requires IsAbout(board, qs[k].typee, qs[k].args)
    ensures AllFit(ps) && AllFit(Replies(MinerHandler(StoreBackend(at, board, other)), 0, Packages(FrameAll(ps))))
    ensures var got := Packages(FrameAll(Replies(MinerHandler(StoreBackend(at, board, other)), 0, Packages(FrameAll(ps)))));
            var lo := Least(FirstSelected(at(k), qs[k].typee, qs[k].args[1]), at(k).maxId + 1);
            && |got| == |qs| && 0 <= lo
            && LoadMetas(qs[k].typee, got[k]) == Some(CppMetasOf(Selected(at(k), board, qs[k].typee, qs[k].args[1])))
            && LoadedAll(LoadMetas(qs[k].typee, got[k]).value, at(k), lo, board)
  {
    hide Replies, Packages, FrameAll, PackMetas, LoadMetas, CppMetasOf, Selected, Asks, LoadedAll, FirstSelected, Complete;
    var backend, t, arg := StoreBackend(at, board, other), qs[k].typee, qs[k].args[1];
    MinerAnswersComeBack(backend, qs, ps, k);
    assert Asks(backend, k, qs[k], ps[k]);
    AskedIsAnswered(backend, k, qs[k], ps[k]);
    MetasAreLoaded(Selected(at(k), board, t, arg), t, ReplyTo(backend, k, qs[k]).value.body);
    SelectedIsLoaded(at(k), board, t, arg);
  }

  lemma ArgsOfMetaQuery(q: Package, args: seq<Arg>)
    requires q.typee == QUERY_AFTER_ID || q.typee == QUERY_AFTER_TIME
    requires UnpackFrom(q.body, 0, KindsOf(q.typee).value) == Some(args)
    ensures |args| == 2 && args[0].StringArg?
    ensures if q.typee == QUERY_AFTER_ID then args[1].IdentityArg? else args[1].TimeArg?
  {
    hide UnpackFrom;
    ArgumentsAcceptedIff(q.body, KindsOf(q.typee).value, args);
    assert |Map(args, KindOf)| == |args|;
    assert Map(args, KindOf) == [KindOf(args[0])] + Map(args[1..], KindOf);
    assert Map(args, KindOf)[0] == KindOf(args[0]) == StringKind;
    assert Map(args[1..], KindOf) == [KindOf(args[1])] + Map(args[1..][1..], KindOf);
    assert Map(args, KindOf)[1] == KindOf(args[1]);
  }

  /** The backend of one board, when the store is the same at every query. */
  ghost function OneBoard(s: Snapshot, board: string): Backend
    requires Complete(s)
  {
    StoreBackend((k: nat) => s, board, (k: nat, t: U32, args: seq<Arg>) => None)
  }

  lemma OneBoardHandles(s: Snapshot, board: string, q: Package)
    requires Complete(s) && KindsOf(q.typee).Some?
    ensures var args := UnpackFrom(q.body, 0, KindsOf(q.typee).value);
            HandlePackage(OneBoard(s, board), 0, q) ==
            if args.None? || !IsAbout(board, q.typee, args.value) then None
            else
              var body := PackMetas(Selected(s, board, q.typee, args.value[1]));
              if body.None? then None else Some(Package(ReplyType(q.typee), body.value))
  {
    hide UnpackFrom, Complete, PackMetas, Selected, KindsOf, ReplyType;
  }

  /** The delegator in front of the cache of a board; a query about another board is for another cache. */
  method HandleMetaDataQuery(cache: Cache, board: string, q: Package) returns (reply: Option<Package>)
    requires Agrees(cache) && StoredBetween(cache.storage.files, 0, cache.storage.maxId)
    requires q.typee == QUERY_AFTER_ID || q.typee == QUERY_AFTER_TIME
    modifies cache
    ensures Agrees(cache)
    ensures var s := Snapshot(cache.storage.files, cache.storage.maxId);
            && Complete(s)
            && reply == if WalkFails(old(cache.View()), cache.storage.maxId, cache.cacheSize) then None
                        else HandlePackage(OneBoard(s, board), 0, q)
  {
    assert Complete(Snapshot(cache.storage.files, cache.storage.maxId)) && KindsOf(q.typee).Some?;
    hide Agrees, WalkFails, UnpackFrom, KindsOf, MetasBetween, NewestOlderThan, PackMetas, Complete, StoredBetween, TextOf;
    hide HandlePackage, OneBoard, Selected;
    OneBoardHandles(Snapshot(cache.storage.files, cache.storage.maxId), board, q);
    var args := UnpackArgsBuf(q.body, KindsOf(q.typee).value);
    if args.None? {
      return None;
    }
    ArgsOfMetaQuery(q, args.value);
    if args.value[0] != StringArg(TextOf(board)) {
      return None;
    }
    reply := AnswerMetaDataQuery(cache, board, q.typee, args.value[1]);
  }

  method AnswerMetaDataQuery(cache: Cache, board: string, t: U32, arg: Arg) returns (reply: Option<Package>)
    requires Agrees(cache) && Complete(Snapshot(cache.storage.files, cache.storage.maxId))
    requires (t == QUERY_AFTER_ID && arg.IdentityArg?) || (t == QUERY_AFTER_TIME && arg.TimeArg?)
    modifies cache
    ensures Agrees(cache) && Complete(Snapshot(cache.storage.files, cache.storage.maxId))
    ensures var body := PackMetas(Selected(Snapshot(cache.storage.files, cache.storage.maxId), board, t, arg));
            reply == if WalkFails(old(cache.View()), cache.storage.maxId, cache.cacheSize) || body.None? then None
                     else Some(Package(ReplyType(t), body.value))
  {
    hide Agrees, WalkFails, MetasBetween, NewestOlderThan, PackMetas;
    var metas;
    if t == QUERY_AFTER_ID {
      metas := GetDocMetaDataAfterId(cache, board, arg.id);
    } else {
      metas := GetDocMetaDataAfterTime(cache, board, arg.t);
    }
    if metas.None? {
      return None;
    }
    var body := PackMetas(metas.value);
    return if body.None? then None else Some(Package(ReplyType(t), body.value));
  }
}

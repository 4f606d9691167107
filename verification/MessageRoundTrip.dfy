/** What one side packs, the other side reads: value and offset, anywhere in any buffer. */
module MessageRoundTrip {
  import opened Wrappers
  import opened Utf8
  import opened Wire
  import opened Messages

  // ----- One field -----

  lemma StringReadsBack(buf: Bytes, off: nat, s: Text, b: Bytes)
    requires FitsSize(buf) && PyPackString(s) == Some(b) && HasAt(buf, off, b)
    ensures PyUnpackString(buf, off) == Some((s, off + |b|))
    ensures CppLoadString(buf, off) == Some((BytesOf(s), off + |b|))
  {
    PyReadPackedString(buf, off, s, b);
    CppReadPackedString(buf, off, s, b);
  }

  lemma IdReadsBack(buf: Bytes, off: nat, id: int, b: Bytes)
    requires PackIdentity(id) == Some(b) && HasAt(buf, off, b)
    ensures |b| == 4
    ensures ReadSigned(buf, off, 4) == Some((id, off + 4)) && LoadI32(buf, off) == Some((I32Of(id), off + 4))
  {
    ReadPackedSigned(buf, off, id, 4, b);
    Widths();
  }

  lemma ModeReadsBack(buf: Bytes, off: nat, mode: int, b: Bytes)
    requires PackUnsigned(mode, 2) == Some(b) && HasAt(buf, off, b)
    ensures |b| == 2 && LoadU16(buf, off) == Some((U16Of(mode), off + 2))
  {
    ReadPackedUnsigned(buf, off, mode, 2, b);
    Widths();
  }

  lemma CounterReadsBack(buf: Bytes, off: nat, n: int, b: Bytes)
    requires PackUnsigned(n, 4) == Some(b) && HasAt(buf, off, b)
    ensures |b| == 4 && LoadU32(buf, off) == Some((U32Of(n), off + 4))
  {
    ReadPackedUnsigned(buf, off, n, 4, b);
    Widths();
  }

  lemma TimeReadsBack(buf: Bytes, off: nat, t: int, b: Bytes)
    requires PackTime(t) == Some(b) && HasAt(buf, off, b)
    ensures |b| == 8 && LoadI64(buf, off) == Some((TimeOf(t), off + 8))
  {
    ReadPackedUnsigned(buf, off, t, 8, b);
    Widths();
  }

  // ----- Whole messages -----

  /** A document's identity packed by Python is read by Python as itself and by C++ field for field. */
  lemma IdentityReadsBack(d: PyDocIdentity, buf: Bytes, off: nat, p: Bytes)
    requires FitsSize(buf) && PyDumpDocIdentity(d) == Some(p) && HasAt(buf, off, p)
    ensures PyLoadDocIdentity(buf, off) == Some((d, off + |p|))
    ensures CppLoadDocIdentity(buf, off) == Some((CppIdentityOf(d), off + |p|))
  {
    hide HasAt, PyPackString, PackIdentity, PyUnpackString, CppLoadString, ReadSigned, LoadI32, BytesOf, I32Of;
    var x, y := PyPackString(d.board).value, PackIdentity(d.idid).value;
    HasConcat(buf, off, x, y);
    StringReadsBack(buf, off, d.board, x);
    IdReadsBack(buf, off + |x|, d.idid, y);
    ComposeIdentity(buf, off, off + |x|, off + |p|, d, CppIdentityOf(d));
  }

  lemma ComposeIdentity(buf: Bytes, o0: nat, o1: nat, o2: nat, p: PyDocIdentity, d: DocIdentity)
    requires PyUnpackString(buf, o0) == Some((p.board, o1)) && ReadSigned(buf, o1, 4) == Some((p.idid, o2))
    requires CppLoadString(buf, o0) == Some((d.board, o1)) && LoadI32(buf, o1) == Some((d.id, o2))
    ensures PyLoadDocIdentity(buf, o0) == Some((p, o2)) && CppLoadDocIdentity(buf, o0) == Some((d, o2))
  {
  }

  lemma ReplyReadsBack(r: PyReplyMessage, buf: Bytes, off: nat, p: Bytes)
    requires FitsSize(buf) && PyDumpReplyMessage(r) == Some(p) && HasAt(buf, off, p)
    ensures CppLoadReplyMessage(buf, off) == Some((CppReplyOf(r), off + |p|))
  {
    ReplyPartsReadBack(r, buf, off,
      PackUnsigned(r.mode, 2).value, PyPackString(r.user).value, PyPackString(r.message).value);
  }

  lemma ReplyPartsReadBack(r: PyReplyMessage, buf: Bytes, off: nat, m: Bytes, u: Bytes, t: Bytes)
    requires FitsSize(buf) && PackUnsigned(r.mode, 2) == Some(m)
    requires PyPackString(r.user) == Some(u) && PyPackString(r.message) == Some(t) && HasAt(buf, off, m + (u + t))
    ensures CppLoadReplyMessage(buf, off) == Some((CppReplyOf(r), off + |m + (u + t)|))
  {
    hide PackUnsigned, PyPackString, CppLoadString, LoadU16, HasAt, Encode;
    HasConcat(buf, off, m, u + t);
    ModeReadsBack(buf, off, r.mode, m);
    HasConcat(buf, off + 2, u, t);
    StringReadsBack(buf, off + 2, r.user, u);
    StringReadsBack(buf, off + 2 + |u|, r.message, t);
    ComposeReply(buf, off, off + 2, off + 2 + |u|, off + |m + (u + t)|, CppReplyOf(r));
  }

  lemma ComposeReply(buf: Bytes, o0: nat, o1: nat, o2: nat, o3: nat, r: ReplyMessage)
    requires LoadU16(buf, o0) == Some((r.mode, o1))
    requires CppLoadString(buf, o1) == Some((r.user, o2)) && CppLoadString(buf, o2) == Some((r.message, o3))
    ensures CppLoadReplyMessage(buf, o0) == Some((r, o3))
  {
  }

  lemma RowsReadBack(rows: seq<int>, buf: Bytes, off: nat, p: Bytes)
    requires PyDumpRows(rows) == Some(p) && HasAt(buf, off, p)
    ensures |p| == 12
    ensures LoadU32(buf, off) == Some((RowOf(rows, 0), off + 4))
    ensures LoadU32(buf, off + 4) == Some((RowOf(rows, 1), off + 8))
    ensures LoadU32(buf, off + 8) == Some((RowOf(rows, 2), off + 12))
  {
    var a, b, c := PackUnsigned(rows[0], 4).value, PackUnsigned(rows[1], 4).value, PackUnsigned(rows[2], 4).value;
    HasConcat(buf, off, a, b + c);
    CounterReadsBack(buf, off, rows[0], a);
    HasConcat(buf, off + 4, b, c);
    CounterReadsBack(buf, off + 4, rows[1], b);
    CounterReadsBack(buf, off + 8, rows[2], c);
  }

  /** The fields of packed metadata, one after the other. */
  datatype MetaParts = MetaParts(
    id: Bytes, prevId: Bytes, title: Bytes, author: Bytes, time: Bytes, board: Bytes, rows: Bytes)

  ghost predicate Parts(d: PyDocMetaData, m: MetaParts) {
    && PackIdentity(d.idid) == Some(m.id) && PackIdentity(d.prevId) == Some(m.prevId)
    && PyPackString(d.title) == Some(m.title) && PyPackString(d.author) == Some(m.author)
    && PackTime(d.postTime) == Some(m.time) && PyPackString(d.board) == Some(m.board)
    && PyDumpRows(d.numReplyRows) == Some(m.rows)
  }

  lemma DumpedParts(d: PyDocMetaData, p: Bytes) returns (m: MetaParts)
    requires PyDumpDocMetaData(d) == Some(p)
    ensures Parts(d, m)
    ensures p == m.id + (m.prevId + (m.title + (m.author + (m.time + (m.board + m.rows)))))
  {
    m := MetaParts(PackIdentity(d.idid).value, PackIdentity(d.prevId).value, PyPackString(d.title).value,
      PyPackString(d.author).value, PackTime(d.postTime).value, PyPackString(d.board).value, PyDumpRows(d.numReplyRows).value);
  }

  lemma MetaHeadReadsBack(d: PyDocMetaData, buf: Bytes, off: nat, m: MetaParts, rest: Bytes) returns (o3: nat, o4: nat)
    requires FitsSize(buf) && Parts(d, m)
    requires HasAt(buf, off, m.id + (m.prevId + (m.title + (m.author + rest))))
    ensures LoadI32(buf, off) == Some((I32Of(d.idid), off + 4)) && LoadI32(buf, off + 4) == Some((I32Of(d.prevId), off + 8))
    ensures CppLoadString(buf, off + 8) == Some((BytesOf(d.title), o3)) && CppLoadString(buf, o3) == Some((BytesOf(d.author), o4))
    ensures HasAt(buf, o4, rest) && o4 == off + |m.id| + |m.prevId| + |m.title| + |m.author|
  {
    hide PackIdentity, PyPackString, CppLoadString, LoadI32, HasAt, PackTime, PyDumpRows, Encode;
    HasConcat(buf, off, m.id, m.prevId + (m.title + (m.author + rest)));
    IdReadsBack(buf, off, d.idid, m.id);
    HasConcat(buf, off + 4, m.prevId, m.title + (m.author + rest));
    IdReadsBack(buf, off + 4, d.prevId, m.prevId);
    o3 := off + 8 + |m.title|;
    HasConcat(buf, off + 8, m.title, m.author + rest);
    StringReadsBack(buf, off + 8, d.title, m.title);
    o4 := o3 + |m.author|;
    HasConcat(buf, o3, m.author, rest);
    StringReadsBack(buf, o3, d.author, m.author);
  }

  lemma MetaTailReadsBack(d: PyDocMetaData, buf: Bytes, o4: nat, m: MetaParts) returns (o6: nat)
    requires FitsSize(buf) && Parts(d, m) && HasAt(buf, o4, m.time + (m.board + m.rows))
    ensures LoadI64(buf, o4) == Some((TimeOf(d.postTime), o4 + 8))
    ensures CppLoadString(buf, o4 + 8) == Some((BytesOf(d.board), o6))
    ensures LoadU32(buf, o6) == Some((RowOf(d.numReplyRows, 0), o6 + 4))
    ensures LoadU32(buf, o6 + 4) == Some((RowOf(d.numReplyRows, 1), o6 + 8))
    ensures LoadU32(buf, o6 + 8) == Some((RowOf(d.numReplyRows, 2), o6 + 12))
    ensures o6 + 12 == o4 + |m.time| + |m.board| + |m.rows|
  {
    hide PackTime, PyPackString, CppLoadString, LoadI64, LoadU32, HasAt, PackIdentity, PyDumpRows, Encode;
    HasConcat(buf, o4, m.time, m.board + m.rows);
    TimeReadsBack(buf, o4, d.postTime, m.time);
    HasConcat(buf, o4 + 8, m.board, m.rows);
    StringReadsBack(buf, o4 + 8, d.board, m.board);
    o6 := o4 + 8 + |m.board|;
    RowsReadBack(d.numReplyRows, buf, o6, m.rows);
  }

  lemma ComposeMeta(buf: Bytes, off: nat, o3: nat, o4: nat, o6: nat, end: nat, d: DocMetaData)
    requires LoadI32(buf, off) == Some((d.id, off + 4)) && LoadI32(buf, off + 4) == Some((d.prevId, off + 8))
    requires CppLoadString(buf, off + 8) == Some((d.title, o3)) && CppLoadString(buf, o3) == Some((d.author, o4))
    requires LoadI64(buf, o4) == Some((d.postTime, o4 + 8)) && CppLoadString(buf, o4 + 8) == Some((d.board, o6))
    requires LoadU32(buf, o6) == Some((d.good, o6 + 4)) && LoadU32(buf, o6 + 4) == Some((d.normal, o6 + 8))
    requires LoadU32(buf, o6 + 8) == Some((d.woo, o6 + 12)) && end == o6 + 12
    ensures CppLoadDocMetaData(buf, off) == Some((d, end))
  {
  }

  /** A document's metadata packed by Python is loaded by C++ field for field. */
  lemma MetaDataReadsBack(d: PyDocMetaData, buf: Bytes, off: nat, p: Bytes)
    requires FitsSize(buf) && PyDumpDocMetaData(d) == Some(p) && HasAt(buf, off, p)
    ensures CppLoadDocMetaData(buf, off) == Some((CppMetaOf(d), off + |p|))
  {
    hide PyDumpDocMetaData, CppLoadDocMetaData, Parts, HasAt, CppLoadString, LoadI32, LoadI64, LoadU32;
    var m := DumpedParts(d, p);
    var o3, o4 := MetaHeadReadsBack(d, buf, off, m, m.time + (m.board + m.rows));
    var o6 := MetaTailReadsBack(d, buf, o4, m);
    ComposeMeta(buf, off, o3, o4, o6, off + |p|, CppMetaOf(d));
  }

  /** In packed metadata that C++ loads, the time is the one packed exactly when it is below 2^63. */
  lemma TimeIsKeptIff(d: PyDocMetaData, buf: Bytes, off: nat, p: Bytes)
    requires FitsSize(buf) && PyDumpDocMetaData(d) == Some(p) && HasAt(buf, off, p)
    ensures CppLoadDocMetaData(buf, off).Some?
    ensures CppLoadDocMetaData(buf, off).value.0.postTime == d.postTime <==> d.postTime < 0x8000_0000_0000_0000
  {
    hide CppLoadDocMetaData, HasAt;
    assert PackTime(d.postTime).Some?;
    hide PyDumpDocMetaData;
    MetaDataReadsBack(d, buf, off, p);
  }

  /** The time of an article whose page cannot be read; every other time the crawler stores is smaller. */
  const TIME_INF := 0x1000_0000_0000_0000

  /** So the times the crawler stores are kept. */
  lemma CrawledTimeIsKept(d: PyDocMetaData, buf: Bytes, off: nat, p: Bytes)
    requires FitsSize(buf) && PyDumpDocMetaData(d) == Some(p) && HasAt(buf, off, p) && d.postTime <= TIME_INF
    ensures CppLoadDocMetaData(buf, off).Some? && CppLoadDocMetaData(buf, off).value.0.postTime == d.postTime
  {
    hide PyDumpDocMetaData, CppLoadDocMetaData, HasAt;
    TimeIsKeptIff(d, buf, off, p);
  }

  /** A document's content and replies packed by Python are loaded by C++, through nested arrays and strings. */
  lemma RealDataReadsBack(d: PyDocRealData, buf: Bytes, off: nat, p: Bytes)
    requires FitsSize(buf) && PyDumpDocRealData(d) == Some(p) && HasAt(buf, off, p)
    ensures CppLoadDocRealData(buf, off) == Some((CppRealOf(d), off + |p|))
  {
    hide LoadVector, PackArray, PyPackString, CppLoadDocRealData, HasAt, Map;
    RealPartsReadBack(d, buf, off, PyPackString(d.content).value, PackArray(d.replyMessages, PyDumpReplyMessage).value);
  }

  lemma RealPartsReadBack(d: PyDocRealData, buf: Bytes, off: nat, c: Bytes, r: Bytes)
    requires FitsSize(buf) && PyPackString(d.content) == Some(c)
    requires PackArray(d.replyMessages, PyDumpReplyMessage) == Some(r) && HasAt(buf, off, c + r)
    ensures CppLoadDocRealData(buf, off) == Some((CppRealOf(d), off + |c + r|))
  {
    hide LoadVector, PackArray, PyPackString, CppLoadString, HasAt, Map, CppLoadDocRealData;
    HasConcat(buf, off, c, r);
    StringReadsBack(buf, off, d.content, c);
    RepliesReadBack(d.replyMessages, buf, off + |c|, r);
    ComposeReal(buf, off, off + |c|, off + |c + r|, CppRealOf(d));
  }

  lemma ComposeReal(buf: Bytes, o0: nat, o1: nat, o2: nat, d: DocRealData)
    requires CppLoadString(buf, o0) == Some((d.content, o1))
    requires LoadVector(CppLoadReplyMessage, buf, o1) == Some((d.replyMessages, o2))
    ensures CppLoadDocRealData(buf, o0) == Some((d, o2))
  {
  }

  lemma RepliesReadBack(a: seq<PyReplyMessage>, buf: Bytes, off: nat, p: Bytes)
    requires FitsSize(buf) && PackArray(a, PyDumpReplyMessage) == Some(p) && HasAt(buf, off, p)
    ensures LoadVector(CppLoadReplyMessage, buf, off) == Some((Map(a, CppReplyOf), off + |p|))
  {
    ReplyElements(buf);
    ArrayReadsBack(a, PyDumpReplyMessage, CppLoadReplyMessage, CppReplyOf, buf, off, p);
  }

  lemma ReplyElements(buf: Bytes)
    requires FitsSize(buf)
    ensures ReadsBack(PyDumpReplyMessage, CppLoadReplyMessage, CppReplyOf, buf)
  {
    forall x, o: nat, b | PyDumpReplyMessage(x) == Some(b) && HasAt(buf, o, b)
      ensures CppLoadReplyMessage(buf, o) == Some((CppReplyOf(x), o + |b|))
    {
      ReplyReadsBack(x, buf, o, b);
    }
  }

  /** Queries about metadata are answered by an array; C++ loads all of it. */
  lemma MetaDataArrayReadsBack(a: seq<PyDocMetaData>, buf: Bytes, off: nat, p: Bytes)
    requires FitsSize(buf) && PackArray(a, PyDumpDocMetaData) == Some(p) && HasAt(buf, off, p)
    ensures LoadVector(CppLoadDocMetaData, buf, off) == Some((Map(a, CppMetaOf), off + |p|))
  {
    MetaElements(buf);
    ArrayReadsBack(a, PyDumpDocMetaData, CppLoadDocMetaData, CppMetaOf, buf, off, p);
  }

  lemma MetaElements(buf: Bytes)
    requires FitsSize(buf)
    ensures ReadsBack(PyDumpDocMetaData, CppLoadDocMetaData, CppMetaOf, buf)
  {
    forall x, o: nat, b | PyDumpDocMetaData(x) == Some(b) && HasAt(buf, o, b)
      ensures CppLoadDocMetaData(buf, o) == Some((CppMetaOf(x), o + |b|))
    {
      MetaDataReadsBack(x, buf, o, b);
    }
  }

  function Same(d: PyDocIdentity): PyDocIdentity {
    d
  }

  lemma {:induction false} MapSame(a: seq<PyDocIdentity>)
    ensures Map(a, Same) == a
    decreases |a|
  {
    if a != [] {
      MapSame(a[1..]);
      assert [a[0]] + a[1..] == a;
    }
  }

  lemma PyIdentityElements(buf: Bytes)
    requires FitsSize(buf)
    ensures ReadsBack(PyDumpDocIdentity, PyLoadDocIdentity, Same, buf)
  {
    forall x, o: nat, b | PyDumpDocIdentity(x) == Some(b) && HasAt(buf, o, b)
      ensures PyLoadDocIdentity(buf, o) == Some((Same(x), o + |b|))
    {
      IdentityReadsBack(x, buf, o, b);
    }
  }

  lemma CppIdentityElements(buf: Bytes)
    requires FitsSize(buf)
    ensures ReadsBack(PyDumpDocIdentity, CppLoadDocIdentity, CppIdentityOf, buf)
  {
    forall x, o: nat, b | PyDumpDocIdentity(x) == Some(b) && HasAt(buf, o, b)
      ensures CppLoadDocIdentity(buf, o) == Some((CppIdentityOf(x), o + |b|))
    {
      IdentityReadsBack(x, buf, o, b);
    }
  }

  lemma PyIdentitiesReadBack(a: seq<PyDocIdentity>, buf: Bytes, off: nat, p: Bytes)
    requires FitsSize(buf) && PackArray(a, PyDumpDocIdentity) == Some(p) && HasAt(buf, off, p)
    ensures LoadVector(PyLoadDocIdentity, buf, off) == Some((a, off + |p|))
  {
    PyIdentityElements(buf);
    ArrayReadsBack(a, PyDumpDocIdentity, PyLoadDocIdentity, Same, buf, off, p);
    MapSame(a);
  }

  lemma CppIdentitiesReadBack(a: seq<PyDocIdentity>, buf: Bytes, off: nat, p: Bytes)
    requires FitsSize(buf) && PackArray(a, PyDumpDocIdentity) == Some(p) && HasAt(buf, off, p)
    ensures LoadVector(CppLoadDocIdentity, buf, off) == Some((Map(a, CppIdentityOf), off + |p|))
  {
    CppIdentityElements(buf);
    ArrayReadsBack(a, PyDumpDocIdentity, CppLoadDocIdentity, CppIdentityOf, buf, off, p);
  }

  lemma ComposeRel(buf: Bytes, o0: nat, o1: nat, o2: nat, o3: nat, p: PyDocRelInfo, d: DocRelInfo)
    requires LoadVector(PyLoadDocIdentity, buf, o0) == Some((p.posRelDocs, o1))
    requires LoadVector(PyLoadDocIdentity, buf, o1) == Some((p.negRelDocs, o2))
    requires LoadVector(PyLoadDocIdentity, buf, o2) == Some((p.neutralRelDocs, o3))
    requires LoadVector(CppLoadDocIdentity, buf, o0) == Some((d.posRelDocs, o1))
    requires LoadVector(CppLoadDocIdentity, buf, o1) == Some((d.negRelDocs, o2))
    requires LoadVector(CppLoadDocIdentity, buf, o2) == Some((d.neutralRelDocs, o3))
    ensures PyLoadDocRelInfo(buf, o0) == Some((p, o3)) && CppLoadDocRelInfo(buf, o0) == Some((d, o3))
  {
  }

  /** The analyst's answer: three arrays of identities, read back by Python as they were and by C++
    * field for field. */
  lemma RelInfoReadsBack(d: PyDocRelInfo, buf: Bytes, off: nat, p: Bytes)
    requires FitsSize(buf) && PyDumpDocRelInfo(d) == Some(p) && HasAt(buf, off, p)
    ensures PyLoadDocRelInfo(buf, off) == Some((d, off + |p|))
    ensures CppLoadDocRelInfo(buf, off) == Some((CppRelInfoOf(d), off + |p|))
  {
    hide PackArray, PyLoadDocRelInfo, CppLoadDocRelInfo, HasAt, Map;
    var a, b := PackArray(d.posRelDocs, PyDumpDocIdentity).value, PackArray(d.negRelDocs, PyDumpDocIdentity).value;
    RelPartsReadBack(d, buf, off, a, b, PackArray(d.neutralRelDocs, PyDumpDocIdentity).value);
  }

  lemma RelPartsReadBack(d: PyDocRelInfo, buf: Bytes, off: nat, a: Bytes, b: Bytes, c: Bytes)
    requires FitsSize(buf) && HasAt(buf, off, a + (b + c))
    requires PackArray(d.posRelDocs, PyDumpDocIdentity) == Some(a)
    requires PackArray(d.negRelDocs, PyDumpDocIdentity) == Some(b)
    requires PackArray(d.neutralRelDocs, PyDumpDocIdentity) == Some(c)
    ensures PyLoadDocRelInfo(buf, off) == Some((d, off + |a + (b + c)|))
    ensures CppLoadDocRelInfo(buf, off) == Some((CppRelInfoOf(d), off + |a + (b + c)|))
  {
    hide LoadVector, PackArray, HasAt, Map;
    var o1, o2, o3 := off + |a|, off + |a| + |b|, off + |a + (b + c)|;
    HasConcat(buf, off, a, b + c);
    HasConcat(buf, o1, b, c);
    PyIdentitiesReadBack(d.posRelDocs, buf, off, a);
    PyIdentitiesReadBack(d.negRelDocs, buf, o1, b);
    PyIdentitiesReadBack(d.neutralRelDocs, buf, o2, c);
    CppIdentitiesReadBack(d.posRelDocs, buf, off, a);
    CppIdentitiesReadBack(d.negRelDocs, buf, o1, b);
    CppIdentitiesReadBack(d.neutralRelDocs, buf, o2, c);
    ComposeRel(buf, off, o1, o2, o3, d, CppRelInfoOf(d));
  }

  /** The C++ server accepts a query exactly when it is the dump of the identity it answers for. */
  lemma CppAcceptsIff(buf: Bytes, d: DocIdentity)
    requires FitsSize(buf)
    ensures CppLoadDocIdentity(buf, 0) == Some((d, |buf|)) <==> FitsSize(d.board) && buf == CppDumpDocIdentity(d)
  {
    hide CppLoadDocIdentity, CppDumpDocIdentity;
    if CppLoadDocIdentity(buf, 0) == Some((d, |buf|)) {
      CppLoadedIsDumped(buf, d);
    }
    if FitsSize(d.board) && buf == CppDumpDocIdentity(d) {
      CppDumpedIsLoaded(buf, d);
    }
  }

  lemma CppLoadedIsDumped(buf: Bytes, d: DocIdentity)
    requires CppLoadDocIdentity(buf, 0) == Some((d, |buf|))
    ensures FitsSize(d.board) && buf == CppDumpDocIdentity(d)
  {
    hide FromLE, ToLE, SignedOf, UnsignedOf;
    Widths();
    FromLEBound(buf[0..8]);
    PackedWhereRead(buf, 0, 8);
    var end := CppLoadString(buf, 0).value.1;
    PackedWhereRead(buf, end, 4);
    Glue(buf, 0, 8, end);
    Glue(buf, 0, end, |buf|);
    assert buf[0..|buf|] == buf;
  }

  lemma CppDumpedIsLoaded(buf: Bytes, d: DocIdentity)
    requires FitsSize(buf) && FitsSize(d.board) && buf == CppDumpDocIdentity(d)
    ensures CppLoadDocIdentity(buf, 0) == Some((d, |buf|))
  {
    hide CppLoadString, ReadSigned, HasAt, FromLE, ToLE, SignedOf, UnsignedOf;
    Widths();
    var s, i := CppDumpString(d.board), DumpI32(d.id);
    assert buf[0..0 + |buf|] == buf;
    HasAtIff(buf, 0, s + i);
    HasConcat(buf, 0, s, i);
    ReadCountedBytes(buf, 0, d.board);
    CppReadCounted(buf, 0, d.board);
    ReadPackedSigned(buf, |s|, d.id, 4, i);
  }

  // ----- Arguments of a query -----

  datatype ArgKind = StringKind | IdentityKind | TimeKind

  datatype Arg = StringArg(s: Text) | IdentityArg(id: int) | TimeArg(t: int)

  function KindOf(a: Arg): ArgKind {
    match a
    case StringArg(_) => StringKind
    case IdentityArg(_) => IdentityKind
    case TimeArg(_) => TimeKind
  }

  function PackArg(a: Arg): Option<Bytes> {
    match a
    case StringArg(s) => PyPackString(s)
    case IdentityArg(id) => PackIdentity(id)
    case TimeArg(t) => PackTime(t)
  }

  function UnpackArg(kind: ArgKind, buf: Bytes, off: nat): Option<(Arg, nat)> {
    match kind
    case StringKind =>
      var (s, off1) :- PyUnpackString(buf, off);
      Some((StringArg(s), off1))
    case IdentityKind =>
      var (id, off1) :- ReadSigned(buf, off, 4);
      Some((IdentityArg(id), off1))
    case TimeKind =>
      var (t, off1) :- ReadUnsigned(buf, off, 8);
      Some((TimeArg(t), off1))
  }

  /** The arguments read from an offset to the very end of the buffer. */
  function UnpackFrom(buf: Bytes, off: nat, kinds: seq<ArgKind>): Option<seq<Arg>>
    decreases |kinds|
  {
    if kinds == [] then if off == |buf| then Some([]) else None
    else
      var (a, off1) :- UnpackArg(kinds[0], buf, off);
      var rest :- UnpackFrom(buf, off1, kinds[1..]);
      Some([a] + rest)
  }

  lemma UnpackPackedArg(a: Arg, buf: Bytes, off: nat, p: Bytes)
    requires PackArg(a) == Some(p) && HasAt(buf, off, p)
    ensures UnpackArg(KindOf(a), buf, off) == Some((a, off + |p|))
  {
    match a
    case StringArg(s) => PyReadPackedString(buf, off, s, p);
    case IdentityArg(id) => ReadPackedSigned(buf, off, id, 4, p);
    case TimeArg(t) => ReadPackedUnsigned(buf, off, t, 8, p);
  }

  lemma PackUnpackedArg(kind: ArgKind, buf: Bytes, off: nat)
    requires UnpackArg(kind, buf, off).Some?
    ensures var (a, end) := UnpackArg(kind, buf, off).value;
            KindOf(a) == kind && off <= end <= |buf| && PackArg(a) == Some(buf[off..end])
  {
    match kind
    case StringKind => StringWhereRead(buf, off);
    case IdentityKind => PackedWhereRead(buf, off, 4);
    case TimeKind => PackedWhereRead(buf, off, 8);
  }

  lemma {:induction false} UnpackedIsPacked(buf: Bytes, off: nat, kinds: seq<ArgKind>)
    requires off <= |buf| && UnpackFrom(buf, off, kinds).Some?
    ensures var args := UnpackFrom(buf, off, kinds).value;
            Map(args, KindOf) == kinds && PackAll(args, PackArg) == Some(buf[off..])
    decreases |kinds|
  {
    hide UnpackArg, PackArg;
    if kinds == [] {
      assert buf[off..] == [];
    } else {
      PackUnpackedArg(kinds[0], buf, off);
      var (a, end) := UnpackArg(kinds[0], buf, off).value;
      UnpackedIsPacked(buf, end, kinds[1..]);
      PackCons(a, UnpackFrom(buf, end, kinds[1..]).value);
      Glue(buf, off, end, |buf|);
      assert buf[off..|buf|] == buf[off..] && buf[end..|buf|] == buf[end..];
      assert [kinds[0]] + kinds[1..] == kinds;
    }
  }

  lemma PackCons(a: Arg, args: seq<Arg>)
    requires PackArg(a).Some? && PackAll(args, PackArg).Some?
    ensures PackAll([a] + args, PackArg) == Some(PackArg(a).value + PackAll(args, PackArg).value)
    ensures Map([a] + args, KindOf) == [KindOf(a)] + Map(args, KindOf)
  {
    assert ([a] + args)[1..] == args;
  }

  lemma {:induction false} PackedIsUnpacked(buf: Bytes, off: nat, args: seq<Arg>)
    requires off <= |buf| && PackAll(args, PackArg) == Some(buf[off..])
    ensures UnpackFrom(buf, off, Map(args, KindOf)) == Some(args)
    decreases |args|
  {
    hide UnpackArg, PackArg, HasAt, KindOf;
    if args != [] {
      var first, rest := PackArg(args[0]).value, PackAll(args[1..], PackArg).value;
      TailHas(buf, off, first, rest);
      UnpackPackedArg(args[0], buf, off, first);
      PackedIsUnpacked(buf, off + |first|, args[1..]);
      assert Map(args, KindOf)[1..] == Map(args[1..], KindOf);
      assert [args[0]] + args[1..] == args;
    }
  }

  lemma TailHas(buf: Bytes, off: nat, first: Bytes, rest: Bytes)
    requires off <= |buf| && buf[off..] == first + rest
    ensures HasAt(buf, off, first) && off + |first| <= |buf| && buf[off + |first|..] == rest
  {
    assert buf[off..][..|first|] == first && buf[off..][|first|..] == rest;
    HasAtIff(buf, off, first);
  }

  /** A query's argument buffer is accepted exactly when it is the packing of the arguments it yields:
    * truncated and over-long buffers are refused, and there is one encoding per list of arguments. */
  lemma ArgumentsAcceptedIff(buf: Bytes, kinds: seq<ArgKind>, args: seq<Arg>)
    ensures UnpackFrom(buf, 0, kinds) == Some(args) <==>
            Map(args, KindOf) == kinds && PackAll(args, PackArg) == Some(buf)
  {
    assert buf[0..] == buf;
    if UnpackFrom(buf, 0, kinds).Some? {
      UnpackedIsPacked(buf, 0, kinds);
    }
    if Map(args, KindOf) == kinds && PackAll(args, PackArg) == Some(buf) {
      PackedIsUnpacked(buf, 0, args);
    }
  }

  /** A C++ client's query for what was posted since t: the miner reads the board as it is, and t itself
    * exactly when t is not negative; a time before 1970 becomes one far in the future. */
  lemma QueryTimeIff(board: Text, t: I64, body: Bytes)
    requires Encode(board).Some? && FitsSize(BytesOf(board)) && body == CppDumpString(BytesOf(board)) + DumpI64(t)
    ensures var read := if t >= 0 then t else t + 0x1_0000_0000_0000_0000;
            && UnpackFrom(body, 0, [StringKind, TimeKind]) == Some([StringArg(board), TimeArg(read)])
            && (read == t <==> t >= 0)
  {
    hide ToLE, Encode, UnpackFrom;
    Widths();
    var read := if t >= 0 then t else t + 0x1_0000_0000_0000_0000;
    assert PackArg(StringArg(board)) == Some(CppDumpString(BytesOf(board))) && PackArg(TimeArg(read)) == Some(DumpI64(t));
    hide PackArg, CppDumpString, DumpI64;
    TwoArgs(StringArg(board), TimeArg(read), CppDumpString(BytesOf(board)), DumpI64(t));
    ArgumentsAcceptedIff(body, [StringKind, TimeKind], [StringArg(board), TimeArg(read)]);
  }

  lemma TwoArgs(a: Arg, b: Arg, x: Bytes, y: Bytes)
    requires PackArg(a) == Some(x) && PackArg(b) == Some(y)
    ensures PackAll([a, b], PackArg) == Some(x + y) && Map([a, b], KindOf) == [KindOf(a), KindOf(b)]
  {
    hide PackArg, KindOf;
    assert [a, b][1..] == [b] && [b][1..] == [] && y + [] == y;
    assert PackAll([b], PackArg) == Some(y);
    assert Map([b], KindOf) == [KindOf(b)];
  }

  /** The loop over the argument kinds; None stands for the protocol error. */
  method UnpackArgsBuf(argsBuf: Bytes, kinds: seq<ArgKind>) returns (r: Option<seq<Arg>>)
    ensures r == UnpackFrom(argsBuf, 0, kinds)
  {
    var offs, args := 0, [];
    ghost var whole := UnpackFrom(argsBuf, 0, kinds);
    assert whole.Some? ==> [] + whole.value == whole.value;
    for i := 0 to |kinds|
      invariant var rest := UnpackFrom(argsBuf, offs, kinds[i..]);
                whole == if rest.Some? then Some(args + rest.value) else None
    {
      var a := UnpackArg(kinds[i], argsBuf, offs);
      assert kinds[i..][0] == kinds[i] && kinds[i..][1..] == kinds[i + 1..];
      if a.None? {
        return None;
      }
      ghost var rest := UnpackFrom(argsBuf, a.value.1, kinds[i + 1..]);
      if rest.Some? {
        assert args + ([a.value.0] + rest.value) == (args + [a.value.0]) + rest.value;
      }
      offs := a.value.1;
      args := args + [a.value.0];
    }
    assert kinds[|kinds|..] == [];
    if offs != |argsBuf| {
      return None;
    }
    assert args + [] == args;
    return Some(args);
  }
}

/** The messages of the protocol, as the Python side packs them and as the C++ side loads them. */
module Messages {
  import opened Wrappers
  import opened Utf8
  import opened Wire

  // ----- Python -----

  datatype PyDocIdentity = PyDocIdentity(board: Text, idid: int)

  datatype PyReplyMessage = PyReplyMessage(mode: int, user: Text, message: Text)

  datatype PyDocMetaData = PyDocMetaData(
    idid: int, prevId: int, title: Text, author: Text, postTime: int, board: Text, numReplyRows: seq<int>)

  datatype PyDocRealData = PyDocRealData(content: Text, replyMessages: seq<PyReplyMessage>)

  datatype PyDocRelInfo = PyDocRelInfo(
    posRelDocs: seq<PyDocIdentity>, negRelDocs: seq<PyDocIdentity>, neutralRelDocs: seq<PyDocIdentity>)

  function PackIdentity(id: int): Option<Bytes> {
    PackSigned(id, 4)
  }

  function PackTime(t: int): Option<Bytes> {
    PackUnsigned(t, 8)
  }

  function PyDumpDocIdentity(d: PyDocIdentity): Option<Bytes> {
    var x :- PyPackString(d.board);
    var y :- PackIdentity(d.idid);
    Some(x + y)
  }

  function PyLoadDocIdentity(buf: Bytes, off: nat): Option<(PyDocIdentity, nat)> {
    var (board, off1) :- PyUnpackString(buf, off);
    var (idid, off2) :- ReadSigned(buf, off1, 4);
    Some((PyDocIdentity(board, idid), off2))
  }

  function PyDumpReplyMessage(r: PyReplyMessage): Option<Bytes> {
    var m :- PackUnsigned(r.mode, 2);
    var u :- PyPackString(r.user);
    var t :- PyPackString(r.message);
    Some(m + (u + t))
  }

  /** The three reply counters, one after the other; with any other number of them the metadata cannot be built. */
  function PyDumpRows(rows: seq<int>): Option<Bytes> {
    if |rows| != 3 then None
    else
      var a :- PackUnsigned(rows[0], 4);
      var b :- PackUnsigned(rows[1], 4);
      var c :- PackUnsigned(rows[2], 4);
      Some(a + (b + c))
  }

  function PyDumpDocMetaData(d: PyDocMetaData): Option<Bytes> {
    var a :- PackIdentity(d.idid);
    var b :- PackIdentity(d.prevId);
    var c :- PyPackString(d.title);
    var e :- PyPackString(d.author);
    var f :- PackTime(d.postTime);
    var g :- PyPackString(d.board);
    var h :- PyDumpRows(d.numReplyRows);
    Some(a + (b + (c + (e + (f + (g + h))))))
  }

  function PyDumpDocRealData(d: PyDocRealData): Option<Bytes> {
    var c :- PyPackString(d.content);
    var r :- PackArray(d.replyMessages, PyDumpReplyMessage);
    Some(c + r)
  }

  function PyDumpDocRelInfo(d: PyDocRelInfo): Option<Bytes> {
    var a :- PackArray(d.posRelDocs, PyDumpDocIdentity);
    var b :- PackArray(d.negRelDocs, PyDumpDocIdentity);
    var c :- PackArray(d.neutralRelDocs, PyDumpDocIdentity);
    Some(a + (b + c))
  }

  function PyLoadDocRelInfo(buf: Bytes, off: nat): Option<(PyDocRelInfo, nat)> {
    var (p, off1) :- LoadVector(PyLoadDocIdentity, buf, off);
    var (n, off2) :- LoadVector(PyLoadDocIdentity, buf, off1);
    var (u, off3) :- LoadVector(PyLoadDocIdentity, buf, off2);
    Some((PyDocRelInfo(p, n, u), off3))
  }

  // ----- C++ -----

  datatype DocIdentity = DocIdentity(board: Bytes, id: I32)

  datatype ReplyMessage = ReplyMessage(mode: U16, user: Bytes, message: Bytes)

  datatype DocMetaData = DocMetaData(
    id: I32, prevId: I32, title: Bytes, author: Bytes, postTime: I64, board: Bytes,
    good: U32, normal: U32, woo: U32)

  datatype DocRealData = DocRealData(content: Bytes, replyMessages: seq<ReplyMessage>)

  datatype DocRelInfo = DocRelInfo(
    posRelDocs: seq<DocIdentity>, negRelDocs: seq<DocIdentity>, neutralRelDocs: seq<DocIdentity>)

  function LoadI32(buf: Bytes, off: nat): Option<(I32, nat)> {
    var (n, off1) :- ReadSigned(buf, off, 4);
    FromLEBound(buf[off..off + 4]);
    Widths();
    Some((n, off1))
  }

  function LoadI64(buf: Bytes, off: nat): Option<(I64, nat)> {
    var (n, off1) :- ReadSigned(buf, off, 8);
    FromLEBound(buf[off..off + 8]);
    Widths();
    Some((n, off1))
  }

  function LoadU16(buf: Bytes, off: nat): Option<(U16, nat)> {
    var (n, off1) :- ReadUnsigned(buf, off, 2);
    FromLEBound(buf[off..off + 2]);
    Widths();
    Some((n, off1))
  }

  function LoadU32(buf: Bytes, off: nat): Option<(U32, nat)> {
    var (n, off1) :- ReadUnsigned(buf, off, 4);
    FromLEBound(buf[off..off + 4]);
    Widths();
    Some((n, off1))
  }

  function DumpI32(n: I32): Bytes {
    Widths();
    ToLE(UnsignedOf(n, 4), 4)
  }

  function DumpI64(n: I64): Bytes {
    Widths();
    ToLE(UnsignedOf(n, 8), 8)
  }

  function CppDumpDocIdentity(d: DocIdentity): Bytes
    requires FitsSize(d.board)
  {
    CppDumpString(d.board) + DumpI32(d.id)
  }

  function CppLoadDocIdentity(buf: Bytes, off: nat): Option<(DocIdentity, nat)> {
    var (board, off1) :- CppLoadString(buf, off);
    var (id, off2) :- LoadI32(buf, off1);
    Some((DocIdentity(board, id), off2))
  }

  function CppLoadReplyMessage(buf: Bytes, off: nat): Option<(ReplyMessage, nat)> {
    var (mode, off1) :- LoadU16(buf, off);
    var (user, off2) :- CppLoadString(buf, off1);
    var (message, off3) :- CppLoadString(buf, off2);
    Some((ReplyMessage(mode, user, message), off3))
  }

  function CppLoadDocMetaData(buf: Bytes, off: nat): Option<(DocMetaData, nat)> {
    var (id, off1) :- LoadI32(buf, off);
    var (prevId, off2) :- LoadI32(buf, off1);
    var (title, off3) :- CppLoadString(buf, off2);
    var (author, off4) :- CppLoadString(buf, off3);
    var (postTime, off5) :- LoadI64(buf, off4);
    var (board, off6) :- CppLoadString(buf, off5);
    var (good, off7) :- LoadU32(buf, off6);
    var (normal, off8) :- LoadU32(buf, off7);
    var (woo, off9) :- LoadU32(buf, off8);
    Some((DocMetaData(id, prevId, title, author, postTime, board, good, normal, woo), off9))
  }

  function CppLoadDocRealData(buf: Bytes, off: nat): Option<(DocRealData, nat)> {
    var (content, off1) :- CppLoadString(buf, off);
    var (replies, off2) :- LoadVector(CppLoadReplyMessage, buf, off1);
    Some((DocRealData(content, replies), off2))
  }

  function CppLoadDocRelInfo(buf: Bytes, off: nat): Option<(DocRelInfo, nat)> {
    var (p, off1) :- LoadVector(CppLoadDocIdentity, buf, off);
    var (n, off2) :- LoadVector(CppLoadDocIdentity, buf, off1);
    var (u, off3) :- LoadVector(CppLoadDocIdentity, buf, off2);
    Some((DocRelInfo(p, n, u), off3))
  }

  // ----- The C++ value that a Python value turns into -----

  function BytesOf(s: Text): Bytes {
    match Encode(s)
    case Some(b) => b
    case None => []
  }

  function I32Of(n: int): I32 {
    if -0x8000_0000 <= n < 0x8000_0000 then n else 0
  }

  function U16Of(n: int): U16 {
    if 0 <= n < 0x1_0000 then n else 0
  }

  function U32Of(n: int): U32 {
    if 0 <= n < 0x1_0000_0000 then n else 0
  }

  /** Python packs the time unsigned and C++ loads it signed: times from 2^63 on come out negative. */
  function TimeOf(n: int): I64 {
    if 0 <= n < 0x8000_0000_0000_0000 then n
    else if 0 <= n < 0x1_0000_0000_0000_0000 then n - 0x1_0000_0000_0000_0000
    else 0
  }

  function CppIdentityOf(d: PyDocIdentity): DocIdentity {
    DocIdentity(BytesOf(d.board), I32Of(d.idid))
  }

  function CppReplyOf(r: PyReplyMessage): ReplyMessage {
    ReplyMessage(U16Of(r.mode), BytesOf(r.user), BytesOf(r.message))
  }

  function RowOf(rows: seq<int>, i: nat): U32 {
    if i < |rows| then U32Of(rows[i]) else 0
  }

  function CppMetaOf(d: PyDocMetaData): DocMetaData {
    DocMetaData(I32Of(d.idid), I32Of(d.prevId), BytesOf(d.title), BytesOf(d.author), TimeOf(d.postTime),
                BytesOf(d.board), RowOf(d.numReplyRows, 0), RowOf(d.numReplyRows, 1), RowOf(d.numReplyRows, 2))
  }

  function CppRealOf(d: PyDocRealData): DocRealData {
    DocRealData(BytesOf(d.content), Map(d.replyMessages, CppReplyOf))
  }

  function CppRelInfoOf(d: PyDocRelInfo): DocRelInfo {
    DocRelInfo(Map(d.posRelDocs, CppIdentityOf), Map(d.negRelDocs, CppIdentityOf), Map(d.neutralRelDocs, CppIdentityOf))
  }
}

/** What stands where in the bytes of the messages, and what the C++ side has in each field after loading them. */
module MessageLayout {
  import opened Wrappers
  import opened Arithmetic
  import opened Utf8
  import opened Wire
  import opened Messages
  import opened MessageRoundTrip
  import opened Framing

  // ----- Numbers, strings and packages -----

  /** The least significant byte comes first. */
  lemma {:induction false} LittleEndianByte(n: nat, k: nat, i: nat)
    requires n < Pow256(k) && i < k
    ensures ToLE(n, k)[i] == n / Pow256(i) % 256
    decreases k
  {
    if i > 0 {
      LittleEndianByte(n / 256, k - 1, i - 1);
      DivTwice(n, Pow256(i - 1));
    }
  }

  lemma DivTwice(n: nat, m: nat)
    requires m > 0
    ensures n / 256 / m == n / (256 * m)
  {
    var q := n / 256;
    var a, b := q / m, q % m;
    assert n == 256 * (m * a + b) + n % 256;
    assert n == (256 * m) * a + (256 * b + n % 256);
    ModUnique(n, 256 * m, a, 256 * b + n % 256);
  }

  /** A packed string is its length in eight bytes and its UTF-8 encoding. */
  lemma StringLayout(s: Text, p: Bytes)
    requires PyPackString(s) == Some(p)
    ensures |p| >= 8 && FromLE(p[..8]) == |p| - 8 && Encode(s) == Some(p[8..])
  {
    var b := Encode(s).value;
    FromToLE(|b|, 8);
    assert p[..8] == ToLE(|b|, 8) && p[8..] == b;
  }

  /** A framed package is its type in four bytes, the length of its body in eight, and the body. */
  lemma FrameLayout(p: Package)
    requires FitsSize(p.body)
    ensures |Frame(p)| == 12 + |p.body|
    ensures FromLE(Frame(p)[..4]) == p.typee && FromLE(Frame(p)[4..12]) == |p.body| && Frame(p)[12..] == p.body
  {
    hide ToLE, FromLE;
    Widths();
    FromToLE(p.typee, 4);
    FromToLE(|p.body|, 8);
    assert Frame(p)[..4] == ToLE(p.typee, 4);
    assert Frame(p)[4..12] == ToLE(|p.body|, 8);
  }

  /** Characters of one to four bytes: an "A", a "not identical to", an "alpha" and U+233B4. */
  lemma EncodedExamples()
    ensures Encode([0x41]) == Some([0x41])
    ensures Encode([0x2262]) == Some([0xE2, 0x89, 0xA2])
    ensures Encode([0x391]) == Some([0xCE, 0x91])
    ensures Encode([0x233B4]) == Some([0xF0, 0xA3, 0x8E, 0xB4])
  {
    OneEncoded(0x41);
    OneEncoded(0x2262);
    OneEncoded(0x391);
    OneEncoded(0x233B4);
  }

  lemma OneEncoded(c: CodePoint)
    requires Scalar(c)
    ensures Encode([c]) == Some(EncodeChar(c))
  {
    hide EncodeChar;
    EncodeCons(c, []);
    assert [c] + [] == [c] && EncodeChar(c) + [] == EncodeChar(c);
  }

  // ----- The order of the fields -----

  lemma AllOfIt(p: Bytes)
    ensures HasAt(p, 0, p)
  {
    HasAtIff(p, 0, p);
    assert p[0..0 + |p|] == p;
  }

  /** Board and id. */
  lemma IdentityLayout(d: PyDocIdentity, p: Bytes) returns (o: nat)
    requires FitsSize(p) && PyDumpDocIdentity(d) == Some(p)
    ensures PyUnpackString(p, 0) == Some((d.board, o)) && ReadSigned(p, o, 4) == Some((d.idid, |p|))
  {
    hide HasAt, PyPackString, PackIdentity, PyUnpackString, CppLoadString, ReadSigned, LoadI32;
    AllOfIt(p);
    var x, y := PyPackString(d.board).value, PackIdentity(d.idid).value;
    HasConcat(p, 0, x, y);
    o := |x|;
    StringReadsBack(p, 0, d.board, x);
    IdReadsBack(p, o, d.idid, y);
  }

  /** Mode, user and message. */
  lemma ReplyLayout(r: PyReplyMessage, p: Bytes) returns (o: nat)
    requires FitsSize(p) && PyDumpReplyMessage(r) == Some(p)
    ensures ReadUnsigned(p, 0, 2) == Some((r.mode, 2))
    ensures PyUnpackString(p, 2) == Some((r.user, o)) && PyUnpackString(p, o) == Some((r.message, |p|))
  {
    hide HasAt, PyPackString, PackUnsigned, PyUnpackString, CppLoadString, ReadUnsigned;
    AllOfIt(p);
    var m, u, t := PackUnsigned(r.mode, 2).value, PyPackString(r.user).value, PyPackString(r.message).value;
    HasConcat(p, 0, m, u + t);
    ReadPackedUnsigned(p, 0, r.mode, 2, m);
    HasConcat(p, 2, u, t);
    o := 2 + |u|;
    StringReadsBack(p, 2, r.user, u);
    StringReadsBack(p, o, r.message, t);
  }

  /** Id, previous id, title, author, time, board and the three counters. */
  lemma MetaDataLayout(d: PyDocMetaData, p: Bytes) returns (o1: nat, o2: nat, o3: nat)
    requires FitsSize(p) && PyDumpDocMetaData(d) == Some(p)
    ensures ReadSigned(p, 0, 4) == Some((d.idid, 4)) && ReadSigned(p, 4, 4) == Some((d.prevId, 8))
    ensures PyUnpackString(p, 8) == Some((d.title, o1)) && PyUnpackString(p, o1) == Some((d.author, o2))
    ensures ReadUnsigned(p, o2, 8) == Some((d.postTime, o2 + 8)) && PyUnpackString(p, o2 + 8) == Some((d.board, o3))
    ensures |d.numReplyRows| == 3
    ensures ReadUnsigned(p, o3, 4) == Some((d.numReplyRows[0], o3 + 4))
    ensures ReadUnsigned(p, o3 + 4, 4) == Some((d.numReplyRows[1], o3 + 8))
    ensures ReadUnsigned(p, o3 + 8, 4) == Some((d.numReplyRows[2], |p|))
  {
    hide Parts, PyDumpDocMetaData, HasAt, PyUnpackString, ReadSigned, ReadUnsigned;
    var m := DumpedParts(d, p);
    AllOfIt(p);
    o1, o2 := MetaHeadLayout(d, p, m, m.time + (m.board + m.rows));
    o3 := MetaTailLayout(d, p, o2, m);
  }

  lemma MetaHeadLayout(d: PyDocMetaData, p: Bytes, m: MetaParts, rest: Bytes) returns (o1: nat, o2: nat)
    requires FitsSize(p) && Parts(d, m) && HasAt(p, 0, m.id + (m.prevId + (m.title + (m.author + rest))))
    ensures ReadSigned(p, 0, 4) == Some((d.idid, 4)) && ReadSigned(p, 4, 4) == Some((d.prevId, 8))
    ensures PyUnpackString(p, 8) == Some((d.title, o1)) && PyUnpackString(p, o1) == Some((d.author, o2))
    ensures HasAt(p, o2, rest) && o2 == |m.id| + |m.prevId| + |m.title| + |m.author|
  {
    hide HasAt, PyPackString, PackIdentity, PackTime, PyUnpackString, CppLoadString, ReadSigned, LoadI32, PyDumpRows, Encode;
    HasConcat(p, 0, m.id, m.prevId + (m.title + (m.author + rest)));
    IdReadsBack(p, 0, d.idid, m.id);
    HasConcat(p, 4, m.prevId, m.title + (m.author + rest));
    IdReadsBack(p, 4, d.prevId, m.prevId);
    HasConcat(p, 8, m.title, m.author + rest);
    StringReadsBack(p, 8, d.title, m.title);
    o1 := 8 + |m.title|;
    HasConcat(p, o1, m.author, rest);
    StringReadsBack(p, o1, d.author, m.author);
    o2 := o1 + |m.author|;
  }

  lemma MetaTailLayout(d: PyDocMetaData, p: Bytes, o2: nat, m: MetaParts) returns (o3: nat)
    requires FitsSize(p) && Parts(d, m) && HasAt(p, o2, m.time + (m.board + m.rows))
    ensures ReadUnsigned(p, o2, 8) == Some((d.postTime, o2 + 8)) && PyUnpackString(p, o2 + 8) == Some((d.board, o3))
    ensures |d.numReplyRows| == 3 && ReadUnsigned(p, o3, 4) == Some((d.numReplyRows[0], o3 + 4))
    ensures ReadUnsigned(p, o3 + 4, 4) == Some((d.numReplyRows[1], o3 + 8))
    ensures ReadUnsigned(p, o3 + 8, 4) == Some((d.numReplyRows[2], o3 + 12))
    ensures o3 + 12 == o2 + |m.time| + |m.board| + |m.rows|
  {
    hide HasAt, PyPackString, PackIdentity, PackTime, PyUnpackString, CppLoadString, ReadUnsigned, Encode;
    HasConcat(p, o2, m.time, m.board + m.rows);
    TimeIsPacked(p, o2, d.postTime, m.time);
    HasConcat(p, o2 + 8, m.board, m.rows);
    StringReadsBack(p, o2 + 8, d.board, m.board);
    o3 := o2 + 8 + |m.board|;
    RowsLayout(d.numReplyRows, p, o3, m.rows);
  }

  lemma TimeIsPacked(buf: Bytes, off: nat, t: int, p: Bytes)
    requires PackTime(t) == Some(p) && HasAt(buf, off, p)
    ensures |p| == 8 && ReadUnsigned(buf, off, 8) == Some((t, off + 8))
  {
    ReadPackedUnsigned(buf, off, t, 8, p);
  }

  lemma RowsLayout(rows: seq<int>, buf: Bytes, off: nat, p: Bytes)
    requires PyDumpRows(rows) == Some(p) && HasAt(buf, off, p)
    ensures |rows| == 3 && |p| == 12
    ensures ReadUnsigned(buf, off, 4) == Some((rows[0], off + 4))
    ensures ReadUnsigned(buf, off + 4, 4) == Some((rows[1], off + 8))
    ensures ReadUnsigned(buf, off + 8, 4) == Some((rows[2], off + 12))
  {
    hide HasAt, PackUnsigned, ReadUnsigned;
    var a, b, c := PackUnsigned(rows[0], 4).value, PackUnsigned(rows[1], 4).value, PackUnsigned(rows[2], 4).value;
    HasConcat(buf, off, a, b + c);
    ReadPackedUnsigned(buf, off, rows[0], 4, a);
    HasConcat(buf, off + 4, b, c);
    ReadPackedUnsigned(buf, off + 4, rows[1], 4, b);
    ReadPackedUnsigned(buf, off + 8, rows[2], 4, c);
  }

  /** Content and replies. */
  lemma RealDataLayout(d: PyDocRealData, p: Bytes) returns (o: nat)
    requires FitsSize(p) && PyDumpDocRealData(d) == Some(p)
    ensures PyUnpackString(p, 0) == Some((d.content, o))
    ensures LoadVector(CppLoadReplyMessage, p, o) == Some((Map(d.replyMessages, CppReplyOf), |p|))
  {
    hide HasAt, PyPackString, PackArray, PyUnpackString, CppLoadString, LoadVector, Map;
    AllOfIt(p);
    var c, r := PyPackString(d.content).value, PackArray(d.replyMessages, PyDumpReplyMessage).value;
    HasConcat(p, 0, c, r);
    o := |c|;
    StringReadsBack(p, 0, d.content, c);
    RepliesReadBack(d.replyMessages, p, o, r);
  }

  /** Positive, negative and neutral ones. */
  lemma RelInfoLayout(d: PyDocRelInfo, p: Bytes) returns (o1: nat, o2: nat)
    requires FitsSize(p) && PyDumpDocRelInfo(d) == Some(p)
    ensures LoadVector(PyLoadDocIdentity, p, 0) == Some((d.posRelDocs, o1))
    ensures LoadVector(PyLoadDocIdentity, p, o1) == Some((d.negRelDocs, o2))
    ensures LoadVector(PyLoadDocIdentity, p, o2) == Some((d.neutralRelDocs, |p|))
  {
    hide HasAt, PackArray, LoadVector, Map;
    AllOfIt(p);
    var a, b, c := PackArray(d.posRelDocs, PyDumpDocIdentity).value, PackArray(d.negRelDocs, PyDumpDocIdentity).value,
      PackArray(d.neutralRelDocs, PyDumpDocIdentity).value;
    HasConcat(p, 0, a, b + c);
    o1, o2 := |a|, |a| + |b|;
    HasConcat(p, o1, b, c);
    PyIdentitiesReadBack(d.posRelDocs, p, 0, a);
    PyIdentitiesReadBack(d.negRelDocs, p, o1, b);
    PyIdentitiesReadBack(d.neutralRelDocs, p, o2, c);
  }

  // ----- The fields of what C++ loads -----

  lemma {:induction false} MapAt<A, T>(a: seq<A>, f: A -> T, i: nat)
    requires i < |a|
    ensures Map(a, f)[i] == f(a[i])
    decreases i
  {
    if i > 0 {
      MapAt(a[1..], f, i - 1);
    }
  }

  /** The same identity: board in UTF-8, and id. */
  ghost predicate SameIdentity(c: DocIdentity, d: PyDocIdentity) {
    Encode(d.board) == Some(c.board) && c.id == d.idid
  }

  ghost predicate SameReply(c: ReplyMessage, r: PyReplyMessage) {
    c.mode == r.mode && Encode(r.user) == Some(c.user) && Encode(r.message) == Some(c.message)
  }

  lemma IdentityFields(d: PyDocIdentity, p: Bytes)
    requires FitsSize(p) && PyDumpDocIdentity(d) == Some(p)
    ensures var r := CppLoadDocIdentity(p, 0); r.Some? && r.value.1 == |p| && SameIdentity(r.value.0, d)
  {
    AllOfIt(p);
    IdentityReadsBack(d, p, 0, p);
    Widths();
    hide CppLoadDocIdentity, HasAt, ToLE, Encode;
  }

  lemma PackedReply(r: PyReplyMessage)
    requires PyDumpReplyMessage(r).Some?
    ensures SameReply(CppReplyOf(r), r)
  {
    Widths();
    hide ToLE, Encode;
  }

  lemma ReplyFields(r: PyReplyMessage, p: Bytes)
    requires FitsSize(p) && PyDumpReplyMessage(r) == Some(p)
    ensures var c := CppLoadReplyMessage(p, 0); c.Some? && c.value.1 == |p| && SameReply(c.value.0, r)
  {
    AllOfIt(p);
    ReplyReadsBack(r, p, 0, p);
    PackedReply(r);
    hide CppLoadReplyMessage, HasAt, PyDumpReplyMessage, SameReply, CppReplyOf;
  }

  lemma {:induction false} PackedElements<A>(a: seq<A>, pack: A -> Option<Bytes>, i: nat)
    requires PackAll(a, pack).Some? && i < |a|
    ensures pack(a[i]).Some?
    decreases i
  {
    if i > 0 {
      PackedElements(a[1..], pack, i - 1);
    }
  }

  /** C++ has the content in UTF-8 and all replies in order, field for field. */
  lemma RealDataFields(d: PyDocRealData, p: Bytes)
    requires FitsSize(p) && PyDumpDocRealData(d) == Some(p)
    ensures var r := CppLoadDocRealData(p, 0);
            && r.Some? && r.value.1 == |p| && Encode(d.content) == Some(r.value.0.content)
            && |r.value.0.replyMessages| == |d.replyMessages|
            && forall i :: 0 <= i < |d.replyMessages| ==> SameReply(r.value.0.replyMessages[i], d.replyMessages[i])
  {
    AllOfIt(p);
    RealDataReadsBack(d, p, 0, p);
    assert Encode(d.content) == Some(BytesOf(d.content));
    hide CppLoadDocRealData, HasAt, PackAll, ToLE, Encode, SameReply, CppReplyOf, PyDumpReplyMessage;
    forall i | 0 <= i < |d.replyMessages|
      ensures SameReply(Map(d.replyMessages, CppReplyOf)[i], d.replyMessages[i])
    {
      MapAt(d.replyMessages, CppReplyOf, i);
      PackedElements(d.replyMessages, PyDumpReplyMessage, i);
      PackedReply(d.replyMessages[i]);
    }
  }

  ghost predicate SameIdentities(cs: seq<DocIdentity>, ds: seq<PyDocIdentity>) {
    |cs| == |ds| && forall i :: 0 <= i < |ds| ==> SameIdentity(cs[i], ds[i])
  }

  lemma PackedIdentities(ds: seq<PyDocIdentity>)
    requires PackArray(ds, PyDumpDocIdentity).Some?
    ensures SameIdentities(Map(ds, CppIdentityOf), ds)
  {
    assert PackAll(ds, PyDumpDocIdentity).Some?;
    hide PackArray, PackAll, ToLE, Encode;
    forall i | 0 <= i < |ds| ensures SameIdentity(Map(ds, CppIdentityOf)[i], ds[i]) {
      MapAt(ds, CppIdentityOf, i);
      PackedElements(ds, PyDumpDocIdentity, i);
      Widths();
    }
  }

  /** C++ has each of the three lists, identity by identity. */
  lemma RelInfoFields(d: PyDocRelInfo, p: Bytes)
    requires FitsSize(p) && PyDumpDocRelInfo(d) == Some(p)
    ensures var r := CppLoadDocRelInfo(p, 0);
            && r.Some? && r.value.1 == |p| && SameIdentities(r.value.0.posRelDocs, d.posRelDocs)
            && SameIdentities(r.value.0.negRelDocs, d.negRelDocs) && SameIdentities(r.value.0.neutralRelDocs, d.neutralRelDocs)
  {
    AllOfIt(p);
    RelInfoReadsBack(d, p, 0, p);
    hide CppLoadDocRelInfo, HasAt, PackArray, SameIdentities, Map;
    PackedIdentities(d.posRelDocs);
    PackedIdentities(d.negRelDocs);
    PackedIdentities(d.neutralRelDocs);
  }

  // ----- What the dispatcher accepts -----

  /** The arguments each query type takes: a board, and with it an id, a time or an author; for 0xa00 an address. */
  ghost predicate Takes(t: U32, args: seq<Arg>) {
    match t
    case 0x100 => |args| == 1 && args[0].StringArg?
    case 0x200 => |args| == 2 && args[0].StringArg? && args[1].IdentityArg?
    case 0x300 => |args| == 2 && args[0].StringArg? && args[1].TimeArg?
    case 0x400 => |args| == 2 && args[0].StringArg? && args[1].StringArg?
    case 0x500 => |args| == 2 && args[0].StringArg? && args[1].IdentityArg?
    case 0x600 => |args| == 2 && args[0].StringArg? && args[1].IdentityArg?
    case 0x900 => |args| == 2 && args[0].StringArg? && args[1].IdentityArg?
    case 0xa00 => |args| == 1 && args[0].StringArg?
    case _ => false
  }

  lemma KindsAt(args: seq<Arg>, kinds: seq<ArgKind>)
    ensures Map(args, KindOf) == kinds <==>
            |args| == |kinds| && forall i :: 0 <= i < |args| ==> KindOf(args[i]) == kinds[i]
  {
    forall i | 0 <= i < |args| ensures Map(args, KindOf)[i] == KindOf(args[i]) {
      MapAt(args, KindOf, i);
    }
  }

  lemma TakesIff(t: U32, args: seq<Arg>)
    ensures KindsOf(t) == Some(Map(args, KindOf)) <==> Takes(t, args)
  {
    if KindsOf(t).Some? {
      KindsAt(args, KindsOf(t).value);
    }
    hide Map;
  }

  /** Type by type: a query is answered exactly when its body is the packing of arguments that its type takes and
    * the backend answers them; the reply has the backend's bytes, and the type with the lowest bit set. */
  lemma DispatchedIff(backend: Backend, k: nat, q: Package, r: Package)
    ensures HandlePackage(backend, k, q) == Some(r) <==>
            exists args ::
              && Takes(q.typee, args) && PackAll(args, PackArg) == Some(q.body)
              && backend(k, q.typee, args) == Some(r.body)
              && r.typee % 2 == 1 && r.typee / 2 == q.typee / 2
  {
    hide HandlePackage, KindsOf, PackAll, PackArg, Takes, Map, KindOf;
    HandledIff(backend, k, q, r);
    forall args ensures Carries(q, args) <==> Takes(q.typee, args) && PackAll(args, PackArg) == Some(q.body) {
      TakesIff(q.typee, args);
    }
  }
}

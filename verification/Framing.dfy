/** Packages over a byte stream: a header with type and size, then the body.
  *
  * A connection delivers what the other side has sent in chunks cut anywhere,
  * and takes what is sent in parts cut anywhere.
  */
module Framing {
  import opened Wrappers
  import opened Utf8
  import opened Wire
  import opened Messages
  import opened MessageRoundTrip
  import opened CppDumps

  const HEADER_SIZE := 12

  datatype Package = Package(typee: U32, body: Bytes)

  function DumpHeader(typee: U32, size: U64): (b: Bytes)
    ensures |b| == HEADER_SIZE
  {
    Widths();
    ToLE(typee, 4) + ToLE(size, 8)
  }

  function Frame(p: Package): Bytes
    requires FitsSize(p.body)
  {
    DumpHeader(p.typee, |p.body|) + p.body
  }

  function HeaderType(stream: Bytes): U32
    requires |stream| >= HEADER_SIZE
  {
    FromLEBound(stream[..4]);
    Widths();
    FromLE(stream[..4])
  }

  function HeaderLength(stream: Bytes): nat
    requires |stream| >= HEADER_SIZE
  {
    FromLE(stream[4..HEADER_SIZE])
  }

  /** The first package of a stream, if all of it is there. */
  function NextPackage(stream: Bytes): (r: Option<(Package, Bytes)>)
    ensures r.Some? ==> |r.value.1| < |stream|
  {
    if |stream| < HEADER_SIZE then None
    else
      var size := HeaderLength(stream);
      if |stream| < HEADER_SIZE + size then None
      else
        Some((Package(HeaderType(stream), stream[HEADER_SIZE..HEADER_SIZE + size]), stream[HEADER_SIZE + size..]))
  }

  /** All complete packages of a stream. */
  function Packages(stream: Bytes): seq<Package>
    decreases |stream|
  {
    match NextPackage(stream)
    case None => []
    case Some((p, rest)) => [p] + Packages(rest)
  }

  ghost predicate AllFit(ps: seq<Package>) {
    forall i :: 0 <= i < |ps| ==> FitsSize(ps[i].body)
  }

  function FrameAll(ps: seq<Package>): Bytes
    requires AllFit(ps)
  {
    if ps == [] then [] else Frame(ps[0]) + FrameAll(ps[1..])
  }

  lemma HeaderReadsBack(typee: U32, size: U64, rest: Bytes)
    ensures HeaderType(DumpHeader(typee, size) + rest) == typee
    ensures HeaderLength(DumpHeader(typee, size) + rest) == size
  {
    Widths();
    FromToLE(typee, 4);
    FromToLE(size, 8);
    var s := DumpHeader(typee, size) + rest;
    assert s[..4] == ToLE(typee, 4) && s[4..HEADER_SIZE] == ToLE(size, 8);
  }

  /** A framed package is read back, whatever follows it. */
  lemma NextPackageReadsBack(p: Package, rest: Bytes)
    requires FitsSize(p.body)
    ensures NextPackage(Frame(p) + rest) == Some((p, rest))
  {
    hide DumpHeader, HeaderType, HeaderLength;
    var h := DumpHeader(p.typee, |p.body|);
    var s := Frame(p) + rest;
    assert s == h + (p.body + rest);
    HeaderReadsBack(p.typee, |p.body|, p.body + rest);
    assert s[HEADER_SIZE..HEADER_SIZE + |p.body|] == p.body;
    assert s[HEADER_SIZE + |p.body|..] == rest;
  }

  /** The packages read are the packages written, also while the next one has only arrived in part. */
  lemma {:induction false} PackagesReadBack(ps: seq<Package>, part: Bytes)
    requires AllFit(ps) && NextPackage(part).None?
    ensures Packages(FrameAll(ps) + part) == ps
    decreases |ps|
  {
    hide NextPackage, Frame;
    if ps == [] {
      assert FrameAll(ps) + part == part;
    } else {
      NextPackageReadsBack(ps[0], FrameAll(ps[1..]) + part);
      assert FrameAll(ps) + part == Frame(ps[0]) + (FrameAll(ps[1..]) + part);
      PackagesReadBack(ps[1..], part);
      assert [ps[0]] + ps[1..] == ps;
    }
  }

  lemma SameHeader(stream: Bytes)
    requires |stream| >= HEADER_SIZE
    ensures HeaderType(stream[..HEADER_SIZE]) == HeaderType(stream)
    ensures HeaderLength(stream[..HEADER_SIZE]) == HeaderLength(stream)
  {
    assert stream[..HEADER_SIZE][..4] == stream[..4];
    assert stream[..HEADER_SIZE][4..HEADER_SIZE] == stream[4..HEADER_SIZE];
  }

  lemma BodyAndRest(stream: Bytes, body: Bytes, rest: Bytes)
    requires |stream| >= HEADER_SIZE && body + rest == stream[HEADER_SIZE..]
    ensures body == stream[HEADER_SIZE..HEADER_SIZE + |body|] && rest == stream[HEADER_SIZE + |body|..]
  {
    assert body == (body + rest)[..|body|] && rest == (body + rest)[|body|..];
  }

  // ----- Sockets -----

  class Connection {
    /** Bytes the other side has sent and that have not been received yet. */
    var incoming: Bytes
    var outgoing: Bytes
    /** Decides where the stream is cut at each call. */
    const cut: nat -> nat
    var calls: nat

    constructor (incoming: Bytes, cut: nat -> nat)
      ensures this.incoming == incoming && outgoing == [] && this.cut == cut
    {
      this.incoming, outgoing, this.cut, calls := incoming, [], cut, 0;
    }

    /** At least one byte unless the stream is at its end, at most n. */
    method Recv(n: nat) returns (a: Bytes)
      requires n > 0
      modifies this`incoming, this`calls
      ensures |a| <= n && (a == [] <==> old(incoming) == [])
      ensures |a| <= |old(incoming)| && a == old(incoming)[..|a|] && incoming == old(incoming)[|a|..]
    {
      var most := if n < |incoming| then n else |incoming|;
      var k := if most == 0 then 0 else 1 + cut(calls) % most;
      a := incoming[..k];
      incoming := incoming[k..];
      calls := calls + 1;
    }

    /** Sends at least one byte of the buffer. */
    method Send(buf: Bytes) returns (sent: nat)
      requires buf != []
      modifies this`outgoing, this`calls
      ensures 1 <= sent <= |buf| && outgoing == old(outgoing) + buf[..sent]
    {
      sent := 1 + cut(calls) % |buf|;
      outgoing := outgoing + buf[..sent];
      calls := calls + 1;
    }

    /** Receives exactly sz bytes; fails when the stream ends before. */
    method RecvAll(sz: nat) returns (r: Option<Bytes>)
      modifies this`incoming, this`calls
      ensures r.Some? <==> |old(incoming)| >= sz
      ensures r.Some? ==> r.value == old(incoming)[..sz] && incoming == old(incoming)[sz..]
    {
      var buf: Bytes := [];
      ghost var all := incoming;
      while |buf| < sz
        invariant |buf| <= sz && |buf| <= |all|
        invariant buf == all[..|buf|] && incoming == all[|buf|..]
        decreases sz - |buf|
      {
        var a := Recv(sz - |buf|);
        if a == [] {
          return None;
        }
        buf := buf + a;
      }
      return Some(buf);
    }

    method SendAll(buf: Bytes)
      modifies this`outgoing, this`calls
      ensures outgoing == old(outgoing) + buf
    {
      var rest := buf;
      ghost var before := outgoing;
      while rest != []
        invariant |rest| <= |buf| && rest == buf[|buf| - |rest|..]
        invariant outgoing == before + buf[..|buf| - |rest|]
        decreases |rest|
      {
        var n := Send(rest);
        ghost var done := |buf| - |rest|;
        assert buf[..done] + rest[..n] == buf[..done + n];
        rest := rest[n..];
      }
      assert buf[..|buf|] == buf;
    }

    /** Receives a package.  When the stream ends in the header it fails; when it ends in the body it asks for
      * more for ever, which `stuck` stands for. */
    method RecvPackage() returns (r: Option<Package>, stuck: bool)
      modifies this`incoming, this`calls
      ensures stuck <==> |old(incoming)| >= HEADER_SIZE && NextPackage(old(incoming)).None?
      ensures r == if NextPackage(old(incoming)).Some? then Some(NextPackage(old(incoming)).value.0) else None
      ensures r.Some? ==> incoming == NextPackage(old(incoming)).value.1
    {
      ghost var all := incoming;
      var header := RecvAll(HEADER_SIZE);
      if header.None? {
        return None, false;
      }
      SameHeader(all);
      var size := HeaderLength(header.value);
      var buf: Bytes := [];
      while |buf| < size
        invariant |buf| <= size && HEADER_SIZE <= |all|
        invariant buf + incoming == all[HEADER_SIZE..]
        decreases size - |buf|
      {
        var a := Recv(size - |buf|);
        if a == [] {
          return None, true;
        }
        assert (buf + a) + incoming == buf + (a + incoming);
        buf := buf + a;
      }
      BodyAndRest(all, buf, incoming);
      return Some(Package(HeaderType(header.value), buf)), false;
    }

    method SendPackage(p: Package)
      requires FitsSize(p.body)
      modifies this`outgoing, this`calls
      ensures outgoing == old(outgoing) + Frame(p)
    {
      SendAll(DumpHeader(p.typee, |p.body|) + p.body);
    }
  }

  // ----- Servers -----

  /** The reply to the k-th query of a connection; None when handling it raises an error. */
  type Handler = (nat, Package) -> Option<Package>

  ghost predicate FittingReplies(handler: Handler) {
    forall k, q :: handler(k, q).Some? ==> FitsSize(handler(k, q).value.body)
  }

  /** The replies to the queries, from the k-th on, up to the first one that cannot be handled. */
  function Replies(handler: Handler, k: nat, queries: seq<Package>): seq<Package>
    decreases |queries|
  {
    if queries == [] then []
    else
      match handler(k, queries[0])
      case None => []
      case Some(r) => [r] + Replies(handler, k + 1, queries[1..])
  }

  lemma {:induction false} RepliesFit(handler: Handler, k: nat, queries: seq<Package>)
    requires FittingReplies(handler)
    ensures AllFit(Replies(handler, k, queries))
    decreases |queries|
  {
    if queries != [] && handler(k, queries[0]).Some? {
      RepliesFit(handler, k + 1, queries[1..]);
    }
  }

  /** Every query is handled, the first one being the k-th. */
  ghost predicate AllHandled(handler: Handler, k: nat, queries: seq<Package>)
    decreases |queries|
  {
    queries != [] ==> handler(k, queries[0]).Some? && AllHandled(handler, k + 1, queries[1..])
  }

  lemma {:induction false} ReplyAt(handler: Handler, k: nat, queries: seq<Package>, i: nat)
    requires i < |queries| && AllHandled(handler, k, queries)
    ensures |Replies(handler, k, queries)| == |queries|
    ensures Some(Replies(handler, k, queries)[i]) == handler(k + i, queries[i])
    decreases |queries|
  {
    if |queries| > 1 {
      ReplyAt(handler, k + 1, queries[1..], if i > 0 then i - 1 else 0);
      assert i > 0 ==> k + 1 + (i - 1) == k + i;
    } else {
      assert Replies(handler, k + 1, queries[1..]) == [];
      assert k + 0 == k;
    }
  }

  lemma {:induction false} FrameAllSnoc(ps: seq<Package>, p: Package)
    requires AllFit(ps) && FitsSize(p.body)
    ensures AllFit(ps + [p]) && FrameAll(ps + [p]) == FrameAll(ps) + Frame(p)
    decreases |ps|
  {
    hide Frame;
    if ps == [] {
      assert [p][1..] == [] && ps + [p] == [p];
      assert Frame(p) + [] == Frame(p);
    } else {
      assert (ps + [p])[1..] == ps[1..] + [p];
      FrameAllSnoc(ps[1..], p);
      assert Frame(ps[0]) + (FrameAll(ps[1..]) + Frame(p)) == (Frame(ps[0]) + FrameAll(ps[1..])) + Frame(p);
    }
  }

  /** A server has sent the replies done, and the replies to what is still to come complete all replies. */
  ghost predicate InStep(
    handler: Handler, all: seq<Package>, before: Bytes, done: seq<Package>, outgoing: Bytes, incoming: Bytes)
  {
    && AllFit(done) && outgoing == before + FrameAll(done)
    && done + Replies(handler, |done|, Packages(incoming)) == all
  }

  lemma InStepAtFirst(handler: Handler, before: Bytes, incoming: Bytes)
    ensures InStep(handler, Replies(handler, 0, Packages(incoming)), before, [], before, incoming)
  {
    assert [] + Replies(handler, 0, Packages(incoming)) == Replies(handler, 0, Packages(incoming));
    assert before + [] == before;
  }

  lemma InStepAfterReply(
    handler: Handler, all: seq<Package>, before: Bytes, done: seq<Package>, outgoing: Bytes, incoming: Bytes,
    q: Package, rest: Bytes, r: Package)
    requires InStep(handler, all, before, done, outgoing, incoming)
    requires NextPackage(incoming) == Some((q, rest)) && handler(|done|, q) == Some(r) && FitsSize(r.body)
    ensures InStep(handler, all, before, done + [r], outgoing + Frame(r), rest)
  {
    hide Frame, FrameAll, NextPackage;
    FrameAllSnoc(done, r);
    assert (before + FrameAll(done)) + Frame(r) == before + (FrameAll(done) + Frame(r));
    var tail := Replies(handler, |done| + 1, Packages(rest));
    assert Packages(incoming)[1..] == Packages(rest);
    assert done + ([r] + tail) == (done + [r]) + tail;
  }

  lemma InStepAtLast(
    handler: Handler, all: seq<Package>, before: Bytes, done: seq<Package>, outgoing: Bytes, incoming: Bytes)
    requires InStep(handler, all, before, done, outgoing, incoming)
    requires NextPackage(incoming).Some? ==> handler(|done|, NextPackage(incoming).value.0).None?
    ensures done == all
  {
    hide NextPackage, FrameAll;
    assert done + [] == done;
  }

  /** The miner's connection handler: receives, handles and replies until an error, or for ever.  However the
    * stream is cut and wherever it ends, it sends exactly the framed replies to the packages of the stream. */
  method RunHandler(conn: Connection, handler: Handler)
    requires FittingReplies(handler)
    modifies conn
    ensures AllFit(Replies(handler, 0, Packages(old(conn.incoming))))
    ensures conn.outgoing == old(conn.outgoing) + FrameAll(Replies(handler, 0, Packages(old(conn.incoming))))
  {
    hide Packages, Replies, Frame, FrameAll, NextPackage, InStep;
    ghost var all, before := Replies(handler, 0, Packages(conn.incoming)), conn.outgoing;
    RepliesFit(handler, 0, Packages(conn.incoming));
    InStepAtFirst(handler, before, conn.incoming);
    ghost var done: seq<Package> := [];
    var k := 0;
    while true
      invariant k == |done|
      invariant InStep(handler, all, before, done, conn.outgoing, conn.incoming)
      decreases |conn.incoming|
    {
      ghost var stream, sent := conn.incoming, conn.outgoing;
      var q, stuck := conn.RecvPackage();
      if q.None? {
        EndOfReplies(handler, all, before, done, sent, stream);
        break;
      }
      var r := handler(k, q.value);
      if r.None? {
        EndOfReplies(handler, all, before, done, sent, stream);
        break;
      }
      conn.SendPackage(r.value);
      InStepAfterReply(handler, all, before, done, sent, stream, q.value, conn.incoming, r.value);
      done := done + [r.value];
      k := k + 1;
    }
  }

  lemma EndOfReplies(
    handler: Handler, all: seq<Package>, before: Bytes, done: seq<Package>, outgoing: Bytes, incoming: Bytes)
    requires InStep(handler, all, before, done, outgoing, incoming) && AllFit(all)
    requires NextPackage(incoming).Some? ==> handler(|done|, NextPackage(incoming).value.0).None?
    ensures outgoing == before + FrameAll(all)
  {
    hide NextPackage, FrameAll, Replies, Packages;
    InStepAtLast(handler, all, before, done, outgoing, incoming);
  }

  // ----- The client -----

  /** The header of a reply, then its body; None stands for the client's error. */
  method ReceiveReply(conn: Connection) returns (r: Option<Package>)
    modifies conn`incoming, conn`calls
    ensures r == if NextPackage(old(conn.incoming)).Some? then Some(NextPackage(old(conn.incoming)).value.0) else None
    ensures r.Some? ==> conn.incoming == NextPackage(old(conn.incoming)).value.1
  {
    ghost var all := conn.incoming;
    var header := conn.RecvAll(HEADER_SIZE);
    if header.None? {
      return None;
    }
    SameHeader(all);
    var body := conn.RecvAll(HeaderLength(header.value));
    if body.None? {
      return None;
    }
    assert body.value + conn.incoming == all[HEADER_SIZE..];
    BodyAndRest(all, body.value, conn.incoming);
    return Some(Package(HeaderType(header.value), body.value));
  }

  /** Sends each query and reads its reply before the next; stops at the first reply that is missing. */
  method AskAll(conn: Connection, queries: seq<Package>) returns (replies: seq<Package>)
    requires AllFit(queries)
    modifies conn
    ensures |replies| <= |queries| && replies <= Packages(old(conn.incoming))
    ensures |replies| < |queries| ==> replies == Packages(old(conn.incoming))
    ensures |replies| == |queries| ==> conn.outgoing == old(conn.outgoing) + FrameAll(queries)
    ensures |replies| < |queries| ==>
              AllFit(queries[..|replies| + 1]) && conn.outgoing == old(conn.outgoing) + FrameAll(queries[..|replies| + 1])
  {
    hide NextPackage, Frame;
    replies := [];
    ghost var before, all := conn.outgoing, Packages(conn.incoming);
    assert before + [] == before;
    while |replies| < |queries|
      invariant |replies| <= |queries|
      invariant AllFit(queries[..|replies|]) && conn.outgoing == before + FrameAll(queries[..|replies|])
      invariant replies + Packages(conn.incoming) == all
      decreases |queries| - |replies|
    {
      var q := queries[|replies|];
      FrameAllSnoc(queries[..|replies|], q);
      assert queries[..|replies|] + [q] == queries[..|replies| + 1];
      conn.SendPackage(q);
      ghost var stream := conn.incoming;
      var r := ReceiveReply(conn);
      if r.None? {
        assert replies + [] == replies;
        return;
      }
      assert replies + ([r.value] + Packages(conn.incoming)) == (replies + [r.value]) + Packages(conn.incoming);
      replies := replies + [r.value];
    }
    assert queries[..|queries|] == queries;
  }

  /** What a server sends for framed queries is read by the client as the replies to those queries, the k-th
    * being the handler's answer to the k-th query, however either stream is cut. */
  lemma RepliesReachTheClient(handler: Handler, queries: seq<Package>, k: nat)
    requires AllFit(queries) && FittingReplies(handler) && AllHandled(handler, 0, queries) && k < |queries|
    ensures AllFit(Replies(handler, 0, Packages(FrameAll(queries))))
    ensures var got := Packages(FrameAll(Replies(handler, 0, Packages(FrameAll(queries)))));
            |got| == |queries| && Some(got[k]) == handler(k, queries[k])
  {
    hide Replies, Frame, FrameAll, Packages;
    FramedIsRead(queries);
    RepliesFit(handler, 0, queries);
    FramedIsRead(Replies(handler, 0, queries));
    ReplyAt(handler, 0, queries, k);
  }

  lemma FramedIsRead(ps: seq<Package>)
    requires AllFit(ps)
    ensures Packages(FrameAll(ps)) == ps
  {
    hide FrameAll, Packages;
    PackagesReadBack(ps, []);
    assert FrameAll(ps) + [] == FrameAll(ps);
  }

  // ----- The miner's queries -----

  const REPLY_QUERY_BIT: U32 := 1

  /** The type of the reply: the type of the query with its lowest bit set. */
  function ReplyType(t: U32): U32 {
    if t % 2 == 0 then t + REPLY_QUERY_BIT else t
  }

  /** The argument kinds of each query type the delegator handles. */
  function KindsOf(t: U32): Option<seq<ArgKind>> {
    if t == 0x100 || t == 0xa00 then Some([StringKind])
    else if t == 0x200 || t == 0x500 || t == 0x600 || t == 0x900 then Some([StringKind, IdentityKind])
    else if t == 0x300 then Some([StringKind, TimeKind])
    else if t == 0x400 then Some([StringKind, StringKind])
    else None
  }

  /** The backend, as a function of the query type and the arguments; its state may change from query to query. */
  type Backend = (nat, U32, seq<Arg>) -> Option<Bytes>

  function HandlePackage(backend: Backend, k: nat, q: Package): Option<Package> {
    var kinds :- KindsOf(q.typee);
    var args :- UnpackFrom(q.body, 0, kinds);
    var body :- backend(k, q.typee, args);
    Some(Package(ReplyType(q.typee), body))
  }

  function MinerHandler(backend: Backend): Handler {
    (k: nat, q: Package) => HandlePackage(backend, k, q)
  }

  /** The body is the packing of these arguments, and they are of the kinds the query type takes. */
  ghost predicate Carries(q: Package, args: seq<Arg>) {
    KindsOf(q.typee) == Some(Map(args, KindOf)) && PackAll(args, PackArg) == Some(q.body)
  }

  /** A query is answered exactly when its body is the packing of arguments of the right kinds and the backend
    * answers them; the reply carries the backend's answer under the query type with the reply bit set. */
  lemma HandledIff(backend: Backend, k: nat, q: Package, r: Package)
    ensures HandlePackage(backend, k, q) == Some(r) <==>
            exists args :: Carries(q, args) && backend(k, q.typee, args) == Some(r.body) && r.typee == ReplyType(q.typee)
  {
    hide UnpackFrom, Map, PackAll, PackArg, KindOf, KindsOf, ReplyType;
    if KindsOf(q.typee).Some? {
      var kinds := KindsOf(q.typee).value;
      if UnpackFrom(q.body, 0, kinds).Some? {
        var args := UnpackFrom(q.body, 0, kinds).value;
        ArgumentsAcceptedIff(q.body, kinds, args);
        assert Carries(q, args);
      }
      forall args | Carries(q, args) ensures UnpackFrom(q.body, 0, kinds) == Some(args) {
        ArgumentsAcceptedIff(q.body, kinds, args);
      }
    }
  }

  ghost predicate BackendFits(backend: Backend) {
    forall k, t, args :: backend(k, t, args).Some? ==> FitsSize(backend(k, t, args).value)
  }

  lemma MinerRepliesFit(backend: Backend)
    requires BackendFits(backend)
    ensures FittingReplies(MinerHandler(backend))
  {
    hide UnpackFrom, KindsOf, ReplyType;
  }

  /** A query of a client: its type and its arguments. */
  datatype Query = Query(typee: U32, args: seq<Arg>)

  /** What is to come back for the k-th query of a connection. */
  function ReplyTo(backend: Backend, k: nat, q: Query): Option<Package> {
    var body :- backend(k, q.typee, q.args);
    Some(Package(ReplyType(q.typee), body))
  }

  /** The package is the query with its arguments packed, as its type wants them, and the backend answers it. */
  ghost predicate Asks(backend: Backend, k: nat, q: Query, p: Package) {
    && p.typee == q.typee && FitsSize(p.body) && KindsOf(q.typee) == Some(Map(q.args, KindOf))
    && PackAll(q.args, PackArg) == Some(p.body) && ReplyTo(backend, k, q).Some?
  }

  lemma AskedIsHandled(backend: Backend, k: nat, q: Query, p: Package)
    requires Asks(backend, k, q, p)
    ensures HandlePackage(backend, k, p) == ReplyTo(backend, k, q)
  {
    hide UnpackFrom, Map, PackAll, PackArg, KindOf, KindsOf, ReplyType;
    ArgumentsAcceptedIff(p.body, Map(q.args, KindOf), q.args);
  }

  lemma {:induction false} AllAskedHandled(backend: Backend, k: nat, qs: seq<Query>, ps: seq<Package>)
    requires |ps| == |qs| && forall i :: 0 <= i < |qs| ==> Asks(backend, k + i, qs[i], ps[i])
    ensures AllHandled(MinerHandler(backend), k, ps)
    decreases |qs|
  {
    hide Asks, HandlePackage;
    if qs != [] {
      assert Asks(backend, k + 0, qs[0], ps[0]);
      AskedIsHandled(backend, k, qs[0], ps[0]);
      AskedIsAnswered(backend, k, qs[0], ps[0]);
      forall i | 0 <= i < |qs[1..]| ensures Asks(backend, k + 1 + i, qs[1..][i], ps[1..][i]) {
        assert Asks(backend, k + (i + 1), qs[i + 1], ps[i + 1]);
        assert k + 1 + i == k + (i + 1);
      }
      AllAskedHandled(backend, k + 1, qs[1..], ps[1..]);
    }
  }

  lemma AskedIsAnswered(backend: Backend, k: nat, q: Query, p: Package)
    requires Asks(backend, k, q, p)
    ensures ReplyTo(backend, k, q).Some? && FitsSize(p.body)
  {
  }

  /** A client of the miner reads, for its k-th query, the backend's answer to exactly that query and its
    * arguments, under the query's type with the reply bit set, however the streams are cut. */
  lemma MinerAnswersComeBack(backend: Backend, qs: seq<Query>, ps: seq<Package>, k: nat)
    requires BackendFits(backend) && k < |qs| == |ps|
    requires forall i :: 0 <= i < |qs| ==> Asks(backend, i, qs[i], ps[i])
    ensures AllFit(ps) && AllFit(Replies(MinerHandler(backend), 0, Packages(FrameAll(ps))))
    ensures var got := Packages(FrameAll(Replies(MinerHandler(backend), 0, Packages(FrameAll(ps)))));
            |got| == |qs| && Some(got[k]) == ReplyTo(backend, k, qs[k])
  {
    hide Replies, Packages, FrameAll, HandlePackage, Asks, ReplyTo;
    MinerRepliesFit(backend);
    forall i | 0 <= i < |qs| ensures FitsSize(ps[i].body) && Asks(backend, 0 + i, qs[i], ps[i]) {
      assert Asks(backend, i, qs[i], ps[i]);
      AskedIsAnswered(backend, i, qs[i], ps[i]);
    }
    AllAskedHandled(backend, 0, qs, ps);
    RepliesReachTheClient(MinerHandler(backend), ps, k);
    AskedIsHandled(backend, k, qs[k], ps[k]);
  }

  // ----- The analyst's server -----

  const QUERY_DOC_REL_INFO: U32 := 0xb00
  const REPLY_DOC_REL_INFO: U32 := 0xb01

  /** The analyst's answer, dumped. */
  type Analyst = DocIdentity -> Bytes

  function AnalystAnswer(analyst: Analyst, q: Package): Option<Package> {
    if q.typee != QUERY_DOC_REL_INFO then None
    else
      var (id, offs) :- CppLoadDocIdentity(q.body, 0);
      if offs != |q.body| then None else Some(Package(REPLY_DOC_REL_INFO, analyst(id)))
  }

  function AnalystHandler(analyst: Analyst): Handler {
    (k: nat, q: Package) => AnalystAnswer(analyst, q)
  }

  /** The analyst answers a query exactly when its body is the dump of the identity it is asked about. */
  lemma AnalystAnswersIff(analyst: Analyst, q: Package, r: Package)
    requires FitsSize(q.body)
    ensures AnalystAnswer(analyst, q) == Some(r) <==>
            exists d: DocIdentity :: q.typee == QUERY_DOC_REL_INFO && FitsSize(d.board) && q.body == CppDumpDocIdentity(d) &&
                                     r == Package(REPLY_DOC_REL_INFO, analyst(d))
  {
    hide CppLoadDocIdentity, CppDumpDocIdentity;
    if CppLoadDocIdentity(q.body, 0).Some? {
      CppAcceptsIff(q.body, CppLoadDocIdentity(q.body, 0).value.0);
    }
    forall d: DocIdentity | FitsSize(d.board) && q.body == CppDumpDocIdentity(d)
      ensures CppLoadDocIdentity(q.body, 0) == Some((d, |q.body|))
    {
      CppAcceptsIff(q.body, d);
    }
  }

  /** The loop over the queries of one connection of the C++ server.  It closes the connection at the first
    * error, also when the stream ends inside a body. */
  method ServeAnalyst(conn: Connection, analyst: Analyst)
    requires FittingReplies(AnalystHandler(analyst))
    modifies conn
    ensures AllFit(Replies(AnalystHandler(analyst), 0, Packages(old(conn.incoming))))
    ensures conn.outgoing ==
            old(conn.outgoing) + FrameAll(Replies(AnalystHandler(analyst), 0, Packages(old(conn.incoming))))
  {
    hide Packages, Replies, FrameAll, InStep, CppLoadDocIdentity, DumpHeader, HeaderType, HeaderLength;
    ghost var handler := AnalystHandler(analyst);
    ghost var all, before := Replies(handler, 0, Packages(conn.incoming)), conn.outgoing;
    RepliesFit(handler, 0, Packages(conn.incoming));
    InStepAtFirst(handler, before, conn.incoming);
    ghost var done: seq<Package> := [];
    while true
      invariant InStep(handler, all, before, done, conn.outgoing, conn.incoming)
      decreases |conn.incoming|
    {
      ghost var stream, sent := conn.incoming, conn.outgoing;
      var header := conn.RecvAll(HEADER_SIZE);
      if header.None? {
        EndOfReplies(handler, all, before, done, sent, stream);
        break;
      }
      SameHeader(stream);
      if HeaderType(header.value) != QUERY_DOC_REL_INFO {
        EndOfReplies(handler, all, before, done, sent, stream);
        break;
      }
      var s := conn.RecvAll(HeaderLength(header.value));
      if s.None? {
        EndOfReplies(handler, all, before, done, sent, stream);
        break;
      }
      assert s.value + conn.incoming == stream[HEADER_SIZE..];
      BodyAndRest(stream, s.value, conn.incoming);
      ghost var q := Package(QUERY_DOC_REL_INFO, s.value);
      assert NextPackage(stream) == Some((q, conn.incoming));
      var docId := CppLoadDocIdentity(s.value, 0);
      if docId.None? || docId.value.1 != |s.value| {
        EndOfReplies(handler, all, before, done, sent, stream);
        break;
      }
      var retBuf := analyst(docId.value.0);
      ghost var r := Package(REPLY_DOC_REL_INFO, retBuf);
      assert handler(|done|, q) == Some(r);
      conn.SendAll(DumpHeader(REPLY_DOC_REL_INFO, |retBuf|) + retBuf);
      InStepAfterReply(handler, all, before, done, sent, stream, q, conn.incoming, r);
      done := done + [r];
    }
  }

  // ----- A whole conversation -----

  /** The server's answer in the terms of the Python client. */
  type Answers = DocIdentity -> PyDocRelInfo

  ghost predicate AnswersFit(answers: Answers) {
    forall d :: PyDumpDocRelInfo(answers(d)).Some? && FitsSize(PyDumpDocRelInfo(answers(d)).value)
  }

  /** The server dumps what the answer is in C++. */
  ghost function AnalystOf(answers: Answers): Analyst {
    d => if RelInfoFits(CppRelInfoOf(answers(d))) then CppDumpDocRelInfo(CppRelInfoOf(answers(d))) else []
  }

  /** Those are the bytes Python would have packed. */
  lemma AnalystDumps(answers: Answers, d: DocIdentity)
    requires AnswersFit(answers)
    ensures AnalystOf(answers)(d) == PyDumpDocRelInfo(answers(d)).value
  {
    hide PyDumpDocRelInfo, CppDumpDocRelInfo, CppRelInfoOf, RelInfoFits;
    SameRelInfo(answers(d));
  }

  function QueryFor(d: PyDocIdentity): Package
    requires PyDumpDocIdentity(d).Some?
  {
    Package(QUERY_DOC_REL_INFO, PyDumpDocIdentity(d).value)
  }

  function QueriesFor(ds: seq<PyDocIdentity>): (qs: seq<Package>)
    requires forall k :: 0 <= k < |ds| ==> PyDumpDocIdentity(ds[k]).Some?
    ensures |qs| == |ds| && forall k :: 0 <= k < |ds| ==> qs[k] == QueryFor(ds[k])
  {
    seq(|ds|, k requires 0 <= k < |ds| => QueryFor(ds[k]))
  }

  lemma QueryIsAnswered(answers: Answers, d: PyDocIdentity)
    requires AnswersFit(answers) && PyDumpDocIdentity(d).Some? && FitsSize(QueryFor(d).body)
    ensures AnalystAnswer(AnalystOf(answers), QueryFor(d)) ==
            Some(Package(REPLY_DOC_REL_INFO, PyDumpDocRelInfo(answers(CppIdentityOf(d))).value))
  {
    hide PyDumpDocIdentity, PyDumpDocRelInfo, CppLoadDocIdentity, CppIdentityOf, HasAt, PyLoadDocIdentity;
    var b := QueryFor(d).body;
    HasWhole(b);
    IdentityReadsBack(d, b, 0, b);
    AnalystDumps(answers, CppIdentityOf(d));
  }

  lemma HasWhole(b: Bytes)
    ensures HasAt(b, 0, b)
  {
    HasInside([], b, []);
    assert [] + b + [] == b;
  }

  lemma {:induction false} AllAnswered(answers: Answers, ds: seq<PyDocIdentity>, k: nat, qs: seq<Package>)
    requires AnswersFit(answers) && |qs| == |ds|
    requires forall i :: 0 <= i < |ds| ==> PyDumpDocIdentity(ds[i]).Some? && qs[i] == QueryFor(ds[i]) && FitsSize(qs[i].body)
    ensures AllHandled(AnalystHandler(AnalystOf(answers)), k, qs)
    decreases |ds|
  {
    hide PyDumpDocIdentity, PyDumpDocRelInfo, AnalystAnswer, FitsSize;
    if qs != [] {
      QueryIsAnswered(answers, ds[0]);
      AllAnswered(answers, ds[1..], k + 1, qs[1..]);
    }
  }

  /** A Python client that asks the C++ server about documents gets, for the k-th of them, a reply that it
    * reads as the server's answer for exactly that document, however the streams are cut. */
  lemma AnswersComeBack(answers: Answers, ds: seq<PyDocIdentity>, k: nat)
    requires AnswersFit(answers) && k < |ds|
    requires forall i :: 0 <= i < |ds| ==> PyDumpDocIdentity(ds[i]).Some?
    requires AllFit(QueriesFor(ds))
    ensures AllFit(Replies(AnalystHandler(AnalystOf(answers)), 0, Packages(FrameAll(QueriesFor(ds)))))
    ensures var got := Packages(FrameAll(Replies(AnalystHandler(AnalystOf(answers)), 0, Packages(FrameAll(QueriesFor(ds))))));
            && |got| == |ds| && got[k].typee == REPLY_DOC_REL_INFO
            && PyLoadDocRelInfo(got[k].body, 0) == Some((answers(CppIdentityOf(ds[k])), |got[k].body|))
  {
    hide PyDumpDocIdentity, PyDumpDocRelInfo, PyLoadDocRelInfo, CppLoadDocRelInfo, CppIdentityOf, CppRelInfoOf;
    hide AnalystAnswer, Replies, Packages, FrameAll, HasAt;
    var handler, qs := AnalystHandler(AnalystOf(answers)), QueriesFor(ds);
    AnswersAreFitting(answers);
    AllAnswered(answers, ds, 0, qs);
    RepliesReachTheClient(handler, qs, k);
    QueryIsAnswered(answers, ds[k]);
    var p := answers(CppIdentityOf(ds[k]));
    var b := PyDumpDocRelInfo(p).value;
    HasWhole(b);
    RelInfoReadsBack(p, b, 0, b);
  }

  lemma AnswersAreFitting(answers: Answers)
    requires AnswersFit(answers)
    ensures FittingReplies(AnalystHandler(AnalystOf(answers)))
  {
    hide PyDumpDocRelInfo, CppLoadDocIdentity;
    var handler := AnalystHandler(AnalystOf(answers));
    forall k, q | handler(k, q).Some? ensures FitsSize(handler(k, q).value.body) {
      var d := CppLoadDocIdentity(q.body, 0).value.0;
      assert handler(k, q).value.body == AnalystOf(answers)(d);
      AnalystDumps(answers, d);
    }
  }
}

/** A client and a server talking over two channels, step by step.
  *
  * A step is anything either side or the network can do next: the client starts
  * a query when it has read the reply to the one before, a side sends some of
  * what it has to send, a side receives some of what is on its way and it still
  * needs, the server handles a query that is complete, the client takes a reply
  * that is complete.  Steps come in any order, and move any number of bytes.
  */
module Conversation {
  import opened Wrappers
  import opened Utf8
  import opened Framing

  datatype State = State(
    asked: nat, answered: nat, got: seq<Package>, halted: bool,
    clientOut: Bytes, toServer: Bytes, serverIn: Bytes,
    serverOut: Bytes, toClient: Bytes, clientIn: Bytes)

  const START := State(0, 0, [], false, [], [], [], [], [], [])

  datatype Step =
    | Ask
    | ClientSend(n: nat)
    | ServerRecv(n: nat)
    | Handle
    | ServerSend(n: nat)
    | ClientRecv(n: nat)
    | Take

  /** How many bytes a side that has read this much of a package asks for. */
  function Wanted(buf: Bytes): int {
    if |buf| < HEADER_SIZE then HEADER_SIZE - |buf| else HEADER_SIZE + HeaderLength(buf) - |buf|
  }

  /** Something is still missing exactly while the package is incomplete. */
  lemma WantedIff(buf: Bytes)
    ensures Wanted(buf) > 0 <==> NextPackage(buf).None?
  {
  }

  /** The effect of a step, if it can be taken.  A query that cannot be handled halts the server. */
  function Do(s: State, step: Step, handler: Handler, queries: seq<Package>): Option<State>
    requires AllFit(queries) && FittingReplies(handler)
  {
    match step
    case Ask =>
      if s.asked == |s.got| && s.asked < |queries| then
        Some(s.(asked := s.asked + 1, clientOut := s.clientOut + Frame(queries[s.asked])))
      else None
    case ClientSend(n) =>
      if 1 <= n <= |s.clientOut| then
        Some(s.(clientOut := s.clientOut[n..], toServer := s.toServer + s.clientOut[..n]))
      else None
    case ServerRecv(n) =>
      if !s.halted && s.serverOut == [] && 1 <= n <= |s.toServer| && n <= Wanted(s.serverIn) then
        Some(s.(toServer := s.toServer[n..], serverIn := s.serverIn + s.toServer[..n]))
      else None
    case Handle =>
      if s.halted || s.serverOut != [] then None
      else
        var (q, rest) :- NextPackage(s.serverIn);
        var r := handler(s.answered, q);
        if r.None? then Some(s.(halted := true))
        else Some(s.(serverIn := rest, serverOut := Frame(r.value), answered := s.answered + 1))
    case ServerSend(n) =>
      if 1 <= n <= |s.serverOut| then
        Some(s.(serverOut := s.serverOut[n..], toClient := s.toClient + s.serverOut[..n]))
      else None
    case ClientRecv(n) =>
      if |s.got| < s.asked && 1 <= n <= |s.toClient| && n <= Wanted(s.clientIn) then
        Some(s.(toClient := s.toClient[n..], clientIn := s.clientIn + s.toClient[..n]))
      else None
    case Take =>
      var (r, rest) :- NextPackage(s.clientIn);
      Some(s.(clientIn := rest, got := s.got + [r]))
  }

  function Exec(s: State, steps: seq<Step>, handler: Handler, queries: seq<Package>): Option<State>
    requires AllFit(queries) && FittingReplies(handler)
    decreases |steps|
  {
    if steps == [] then Some(s)
    else
      var s' :- Do(s, steps[0], handler, queries);
      Exec(s', steps[1..], handler, queries)
  }

  // ----- What every step keeps -----

  /** The replies due are those to the queries, up to the first that cannot be handled. */
  function Due(handler: Handler, queries: seq<Package>): seq<Package> {
    Replies(handler, 0, queries)
  }

  ghost predicate Counts(s: State, handler: Handler, queries: seq<Package>) {
    && |s.got| <= s.answered <= s.asked <= |queries| && s.asked <= |s.got| + 1
    && s.answered <= |Due(handler, queries)|
    && s.got == Due(handler, queries)[..|s.got|]
    && (s.halted ==> s.answered == |Due(handler, queries)| < s.asked)
  }

  /** What is on its way to the server, at whatever stage, are the framed queries asked and not yet answered;
    * what is on its way to the client are the framed replies given and not yet taken. */
  ghost predicate Inv(s: State, handler: Handler, queries: seq<Package>)
    requires AllFit(queries) && AllFit(Due(handler, queries))
  {
    && Counts(s, handler, queries)
    && FrameAll(queries[s.answered..s.asked]) == s.serverIn + (s.toServer + s.clientOut)
    && FrameAll(Due(handler, queries)[|s.got|..s.answered]) == s.clientIn + (s.toClient + s.serverOut)
  }

  lemma {:induction false} DueAt(handler: Handler, k: nat, queries: seq<Package>, i: nat)
    requires i < |queries| && i <= |Replies(handler, k, queries)|
    ensures match handler(k + i, queries[i])
            case None => i == |Replies(handler, k, queries)|
            case Some(r) => i < |Replies(handler, k, queries)| && Replies(handler, k, queries)[i] == r
    decreases |queries|
  {
    if i > 0 {
      DueAt(handler, k + 1, queries[1..], i - 1);
      assert k + 1 + (i - 1) == k + i;
    } else {
      assert k + 0 == k;
    }
  }

  lemma {:induction false} RepliesAreFewer(handler: Handler, k: nat, queries: seq<Package>)
    ensures |Replies(handler, k, queries)| <= |queries|
    decreases |queries|
  {
    if queries != [] && handler(k, queries[0]).Some? {
      RepliesAreFewer(handler, k + 1, queries[1..]);
    }
  }

  lemma Moves(a: Bytes, b: Bytes, c: Bytes, n: nat)
    requires n <= |b|
    ensures (a + b[..n]) + (b[n..] + c) == a + (b + c)
  {
  }

  lemma MovesLast(a: Bytes, b: Bytes, c: Bytes, n: nat)
    requires n <= |c|
    ensures a + ((b + c[..n]) + c[n..]) == a + (b + c)
  {
  }

  lemma SliceSnoc(ps: seq<Package>, lo: nat, hi: nat)
    requires AllFit(ps) && lo <= hi < |ps|
    ensures AllFit(ps[lo..hi]) && AllFit(ps[lo..hi + 1])
    ensures FrameAll(ps[lo..hi + 1]) == FrameAll(ps[lo..hi]) + Frame(ps[hi])
  {
    assert ps[lo..hi + 1] == ps[lo..hi] + [ps[hi]];
    FrameAllSnoc(ps[lo..hi], ps[hi]);
  }

  /** A complete package stays the next one when more arrives behind it. */
  lemma NextStays(a: Bytes, b: Bytes)
    requires NextPackage(a).Some?
    ensures NextPackage(a + b) == Some((NextPackage(a).value.0, NextPackage(a).value.1 + b))
  {
    var c := a + b;
    assert c[..4] == a[..4] && c[4..HEADER_SIZE] == a[4..HEADER_SIZE];
    var n := HEADER_SIZE + HeaderLength(a);
    assert c[HEADER_SIZE..n] == a[HEADER_SIZE..n] && c[n..] == a[n..] + b;
  }

  /** The package that is complete at the front of a channel is the first one of those framed into it. */
  lemma FrontIsFirst(ps: seq<Package>, lo: nat, hi: nat, front: Bytes, more: Bytes)
    requires AllFit(ps) && lo <= hi <= |ps| && AllFit(ps[lo..hi]) && FrameAll(ps[lo..hi]) == front + more
    requires NextPackage(front).Some?
    ensures lo < hi && NextPackage(front).value.0 == ps[lo]
    ensures AllFit(ps[lo + 1..hi]) && FrameAll(ps[lo + 1..hi]) == NextPackage(front).value.1 + more
  {
    hide NextPackage, Frame;
    NextStays(front, more);
    if lo == hi {
      NothingIsNoPackage();
    } else {
      assert ps[lo..hi][1..] == ps[lo + 1..hi] && ps[lo..hi][0] == ps[lo];
      NextPackageReadsBack(ps[lo], FrameAll(ps[lo + 1..hi]));
    }
  }

  lemma NothingIsNoPackage()
    ensures NextPackage([]).None?
  {
  }

  lemma StartInv(handler: Handler, queries: seq<Package>)
    requires AllFit(queries) && AllFit(Due(handler, queries))
    ensures Inv(START, handler, queries)
  {
    assert queries[0..0] == [] && Due(handler, queries)[0..0] == [] && Due(handler, queries)[..0] == [];
  }

  lemma AskKeeps(s: State, handler: Handler, queries: seq<Package>)
    requires AllFit(queries) && FittingReplies(handler) && AllFit(Due(handler, queries)) && Inv(s, handler, queries)
    requires Do(s, Ask, handler, queries).Some?
    ensures Inv(Do(s, Ask, handler, queries).value, handler, queries)
  {
    hide FrameAll, Frame, Due;
    SliceSnoc(queries, s.answered, s.asked);
    var f := Frame(queries[s.asked]);
    assert (s.serverIn + (s.toServer + s.clientOut)) + f == s.serverIn + (s.toServer + (s.clientOut + f));
  }

  lemma HandleKeeps(s: State, handler: Handler, queries: seq<Package>)
    requires AllFit(queries) && FittingReplies(handler) && AllFit(Due(handler, queries)) && Inv(s, handler, queries)
    requires Do(s, Handle, handler, queries).Some?
    ensures Inv(Do(s, Handle, handler, queries).value, handler, queries)
  {
    var due := Due(handler, queries);
    hide FrameAll, Frame, NextPackage, Replies;
    FrontIsFirst(queries, s.answered, s.asked, s.serverIn, s.toServer + s.clientOut);
    DueAt(handler, 0, queries, s.answered);
    assert 0 + s.answered == s.answered;
    match handler(s.answered, queries[s.answered])
    case None =>
    case Some(r) =>
      hide Due;
      SliceSnoc(due, |s.got|, s.answered);
      assert (s.clientIn + (s.toClient + [])) + Frame(r) == s.clientIn + (s.toClient + Frame(r));
  }

  lemma TakeKeeps(s: State, handler: Handler, queries: seq<Package>)
    requires AllFit(queries) && FittingReplies(handler) && AllFit(Due(handler, queries)) && Inv(s, handler, queries)
    requires Do(s, Take, handler, queries).Some?
    ensures Inv(Do(s, Take, handler, queries).value, handler, queries)
  {
    var due := Due(handler, queries);
    hide FrameAll, Frame, NextPackage, Due;
    FrontIsFirst(due, |s.got|, s.answered, s.clientIn, s.toClient + s.serverOut);
    assert due[..|s.got|] + [due[|s.got|]] == due[..|s.got| + 1];
  }

  lemma MoveKeeps(s: State, step: Step, handler: Handler, queries: seq<Package>)
    requires AllFit(queries) && FittingReplies(handler) && AllFit(Due(handler, queries)) && Inv(s, handler, queries)
    requires Do(s, step, handler, queries).Some? && !step.Ask? && !step.Handle? && !step.Take?
    ensures Inv(Do(s, step, handler, queries).value, handler, queries)
  {
    hide FrameAll, Frame, NextPackage, Due, Counts, Wanted;
    CountsAlike(s, Do(s, step, handler, queries).value, handler, queries);
    match step
    case ClientSend(n) => MovesLast(s.serverIn, s.toServer, s.clientOut, n);
    case ServerRecv(n) => Moves(s.serverIn, s.toServer, s.clientOut, n);
    case ServerSend(n) => MovesLast(s.clientIn, s.toClient, s.serverOut, n);
    case ClientRecv(n) => Moves(s.clientIn, s.toClient, s.serverOut, n);
  }

  lemma CountsAlike(s: State, s': State, handler: Handler, queries: seq<Package>)
    requires Counts(s, handler, queries)
    requires s'.asked == s.asked && s'.answered == s.answered && s'.got == s.got && s'.halted == s.halted
    ensures Counts(s', handler, queries)
  {
  }

  lemma StepKeeps(s: State, step: Step, handler: Handler, queries: seq<Package>)
    requires AllFit(queries) && FittingReplies(handler) && AllFit(Due(handler, queries)) && Inv(s, handler, queries)
    requires Do(s, step, handler, queries).Some?
    ensures Inv(Do(s, step, handler, queries).value, handler, queries)
  {
    hide Inv, Do;
    match step
    case Ask => AskKeeps(s, handler, queries);
    case Handle => HandleKeeps(s, handler, queries);
    case Take => TakeKeeps(s, handler, queries);
    case _ => MoveKeeps(s, step, handler, queries);
  }

  lemma {:induction false} RunKeeps(s: State, steps: seq<Step>, handler: Handler, queries: seq<Package>)
    requires AllFit(queries) && FittingReplies(handler) && AllFit(Due(handler, queries)) && Inv(s, handler, queries)
    requires Exec(s, steps, handler, queries).Some?
    ensures Inv(Exec(s, steps, handler, queries).value, handler, queries)
    decreases |steps|
  {
    hide Inv, Do;
    if steps != [] {
      StepKeeps(s, steps[0], handler, queries);
      RunKeeps(Do(s, steps[0], handler, queries).value, steps[1..], handler, queries);
    }
  }

  /** At every moment of every run the replies taken are the first ones of those due: the k-th reply is the
    * handler's answer to the k-th query. */
  lemma EveryReplyIsDue(steps: seq<Step>, handler: Handler, queries: seq<Package>, k: nat)
    requires AllFit(queries) && FittingReplies(handler) && Exec(START, steps, handler, queries).Some?
    ensures var s := Exec(START, steps, handler, queries).value;
            && s.got <= Due(handler, queries)
            && (k < |s.got| ==> k < |queries| && handler(k, queries[k]) == Some(s.got[k]))
  {
    hide Inv, Exec;
    RepliesFit(handler, 0, queries);
    StartInv(handler, queries);
    RunKeeps(START, steps, handler, queries);
    var s := Exec(START, steps, handler, queries).value;
    GotIsDue(s, handler, queries, k);
  }

  lemma GotIsDue(s: State, handler: Handler, queries: seq<Package>, k: nat)
    requires AllFit(queries) && AllFit(Due(handler, queries)) && Inv(s, handler, queries)
    ensures s.got <= Due(handler, queries)
    ensures k < |s.got| ==> k < |queries| && handler(k, queries[k]) == Some(s.got[k])
  {
    hide FrameAll, Replies;
    if k < |s.got| {
      DueAt(handler, 0, queries, k);
      assert 0 + k == k;
    }
  }

  // ----- No run stops early -----

  ghost predicate CanMove(s: State, handler: Handler, queries: seq<Package>)
    requires AllFit(queries) && FittingReplies(handler)
  {
    exists step: Step :: Do(s, step, handler, queries).Some?
  }

  /** All replies due have been taken, and either every query has one or the server has halted. */
  ghost predicate Finished(s: State, handler: Handler, queries: seq<Package>) {
    s.got == Due(handler, queries) && (|s.got| == |queries| || s.halted)
  }

  /** Nothing is on its way and no package is complete. */
  lemma NothingOnItsWay(ps: seq<Package>, lo: nat, hi: nat, front: Bytes)
    requires AllFit(ps) && lo <= hi <= |ps| && AllFit(ps[lo..hi]) && FrameAll(ps[lo..hi]) == front + ([] + [])
    requires NextPackage(front).None?
    ensures lo == hi
  {
    hide NextPackage, Frame;
    assert front + ([] + []) == front;
    if lo < hi {
      assert ps[lo..hi][1..] == ps[lo + 1..hi] && ps[lo..hi][0] == ps[lo];
      NextPackageReadsBack(ps[lo], FrameAll(ps[lo + 1..hi]));
    }
  }

  lemma SidesCannotMove(s: State, handler: Handler, queries: seq<Package>)
    requires AllFit(queries) && FittingReplies(handler) && !CanMove(s, handler, queries)
    ensures s.clientOut == [] && s.serverOut == [] && NextPackage(s.clientIn).None?
    ensures |s.got| < s.asked ==> s.toClient == []
    ensures !s.halted ==> s.toServer == [] && NextPackage(s.serverIn).None?
    ensures s.asked == |s.got| ==> s.asked >= |queries|
  {
    hide NextPackage, Wanted, Frame;
    WantedIff(s.clientIn);
    WantedIff(s.serverIn);
    assert Do(s, ClientSend(1), handler, queries).None? && Do(s, ServerSend(1), handler, queries).None?;
    assert Do(s, Take, handler, queries).None? && Do(s, Handle, handler, queries).None?;
    assert Do(s, ClientRecv(1), handler, queries).None? && Do(s, ServerRecv(1), handler, queries).None?;
    assert Do(s, Ask, handler, queries).None?;
  }

  /** A state in which nobody can move is a finished one. */
  lemma StoppedIsFinished(s: State, handler: Handler, queries: seq<Package>)
    requires AllFit(queries) && FittingReplies(handler) && AllFit(Due(handler, queries)) && Inv(s, handler, queries)
    requires !CanMove(s, handler, queries)
    ensures Finished(s, handler, queries)
  {
    SidesCannotMove(s, handler, queries);
    var due := Due(handler, queries);
    hide NextPackage, FrameAll, CanMove, Due, Finished;
    assert AllFit(queries[s.answered..s.asked]) && AllFit(due[|s.got|..s.answered]);
    hide AllFit;
    if |s.got| < s.asked {
      NothingOnItsWay(due, |s.got|, s.answered, s.clientIn);
      if !s.halted {
        NothingOnItsWay(queries, s.answered, s.asked, s.serverIn);
      }
    }
    AllDueWhenAllAsked(s, handler, queries);
  }

  lemma AllDueWhenAllAsked(s: State, handler: Handler, queries: seq<Package>)
    requires Counts(s, handler, queries) && |s.got| == s.answered
    requires s.halted || (s.asked == |queries| == s.answered)
    ensures Finished(s, handler, queries)
  {
    RepliesAreFewer(handler, 0, queries);
  }

  // ----- Every run is finite -----

  /** Bytes still to be sent count twice, bytes on their way once; each query is still to be asked and answered,
    * and its reply taken. */
  function StepsLeft(s: State, handler: Handler, queries: seq<Package>): int
    requires AllFit(queries) && AllFit(Due(handler, queries)) && Counts(s, handler, queries)
  {
    var due := Due(handler, queries);
    (|queries| - s.asked) + (|due| - s.answered) + (|queries| - |s.got|) + (if s.halted then 0 else 1)
    + 2 * (|FrameAll(queries[s.asked..])| + |s.clientOut|) + |s.toServer|
    + 2 * (|FrameAll(due[s.answered..])| + |s.serverOut|) + |s.toClient|
  }

  lemma FrameFirst(ps: seq<Package>, i: nat)
    requires AllFit(ps) && i < |ps|
    ensures AllFit(ps[i..]) && AllFit(ps[i + 1..]) && |FrameAll(ps[i..])| == |Frame(ps[i])| + |FrameAll(ps[i + 1..])|
  {
    assert ps[i..][1..] == ps[i + 1..];
  }

  lemma AskCounts(s: State, handler: Handler, queries: seq<Package>)
    requires AllFit(queries) && FittingReplies(handler) && AllFit(Due(handler, queries)) && Counts(s, handler, queries)
    requires Do(s, Ask, handler, queries).Some? && Counts(Do(s, Ask, handler, queries).value, handler, queries)
    ensures StepsLeft(Do(s, Ask, handler, queries).value, handler, queries) < StepsLeft(s, handler, queries)
  {
    hide FrameAll, Frame, Due, Counts;
    FrameFirst(queries, s.asked);
  }

  lemma HandleCounts(s: State, handler: Handler, queries: seq<Package>)
    requires AllFit(queries) && FittingReplies(handler) && AllFit(Due(handler, queries)) && Inv(s, handler, queries)
    requires Do(s, Handle, handler, queries).Some? && Counts(Do(s, Handle, handler, queries).value, handler, queries)
    ensures StepsLeft(Do(s, Handle, handler, queries).value, handler, queries) < StepsLeft(s, handler, queries)
  {
    hide FrameAll, Frame, NextPackage, Replies;
    FrontIsFirst(queries, s.answered, s.asked, s.serverIn, s.toServer + s.clientOut);
    DueAt(handler, 0, queries, s.answered);
    assert 0 + s.answered == s.answered;
    hide Due, Counts, Inv;
    if handler(s.answered, queries[s.answered]).Some? {
      FrameFirst(Due(handler, queries), s.answered);
    }
  }

  lemma OtherCounts(s: State, step: Step, handler: Handler, queries: seq<Package>)
    requires AllFit(queries) && FittingReplies(handler) && AllFit(Due(handler, queries)) && Counts(s, handler, queries)
    requires Do(s, step, handler, queries).Some? && !step.Ask? && !step.Handle?
    requires Counts(Do(s, step, handler, queries).value, handler, queries)
    ensures StepsLeft(Do(s, step, handler, queries).value, handler, queries) < StepsLeft(s, handler, queries)
  {
    hide FrameAll, Frame, NextPackage, Due, Counts, Wanted;
  }

  /** Every step leaves fewer. */
  lemma StepCounts(s: State, step: Step, handler: Handler, queries: seq<Package>)
    requires AllFit(queries) && FittingReplies(handler) && AllFit(Due(handler, queries)) && Inv(s, handler, queries)
    requires Do(s, step, handler, queries).Some?
    ensures var s' := Do(s, step, handler, queries).value;
            Inv(s', handler, queries) && StepsLeft(s', handler, queries) < StepsLeft(s, handler, queries)
  {
    StepKeeps(s, step, handler, queries);
    hide Do, StepsLeft, Counts, Due, FrameAll;
    match step
    case Ask => AskCounts(s, handler, queries);
    case Handle => HandleCounts(s, handler, queries);
    case _ => OtherCounts(s, step, handler, queries);
  }

  lemma {:induction false} RunIsShort(s: State, steps: seq<Step>, handler: Handler, queries: seq<Package>)
    requires AllFit(queries) && FittingReplies(handler) && AllFit(Due(handler, queries)) && Inv(s, handler, queries)
    requires Exec(s, steps, handler, queries).Some?
    ensures |steps| <= StepsLeft(s, handler, queries)
    decreases |steps|
  {
    hide StepsLeft, Inv, Do;
    if steps != [] {
      StepCounts(s, steps[0], handler, queries);
      RunIsShort(Do(s, steps[0], handler, queries).value, steps[1..], handler, queries);
    } else {
      StepsLeftIsNat(s, handler, queries);
    }
  }

  lemma StepsLeftIsNat(s: State, handler: Handler, queries: seq<Package>)
    requires AllFit(queries) && AllFit(Due(handler, queries)) && Inv(s, handler, queries)
    ensures StepsLeft(s, handler, queries) >= 0
  {
    RepliesAreFewer(handler, 0, queries);
  }

  /** No run goes on for ever, and a run that cannot go on has finished: the client holds the handler's answer to
    * every query, or to every one before the first that cannot be handled. */
  lemma EveryRunFinishes(steps: seq<Step>, handler: Handler, queries: seq<Package>)
    requires AllFit(queries) && FittingReplies(handler) && Exec(START, steps, handler, queries).Some?
    ensures var s := Exec(START, steps, handler, queries).value;
            && AllFit(Due(handler, queries))
            && |steps| <= 4 * |queries| + 1 + 2 * |FrameAll(queries)| + 2 * |FrameAll(Due(handler, queries))|
            && (CanMove(s, handler, queries) || Finished(s, handler, queries))
  {
    hide Inv, Exec, CanMove, Finished;
    RepliesFit(handler, 0, queries);
    StartInv(handler, queries);
    RunKeeps(START, steps, handler, queries);
    RunIsShort(START, steps, handler, queries);
    AtStart(handler, queries);
    var s := Exec(START, steps, handler, queries).value;
    if !CanMove(s, handler, queries) {
      StoppedIsFinished(s, handler, queries);
    }
  }

  lemma AtStart(handler: Handler, queries: seq<Package>)
    requires AllFit(queries) && AllFit(Due(handler, queries)) && Counts(START, handler, queries)
    ensures StepsLeft(START, handler, queries) <=
            4 * |queries| + 1 + 2 * |FrameAll(queries)| + 2 * |FrameAll(Due(handler, queries))|
  {
    RepliesAreFewer(handler, 0, queries);
    assert queries[0..] == queries && Due(handler, queries)[0..] == Due(handler, queries);
  }
}

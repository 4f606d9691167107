/** The cache and the store under concurrent callers.
  *
  * A schedule is a list of atomic steps of any number of threads: the locked
  * look-up, the reading of the newest id, each locked read of a file, the
  * locked insertion, a write of a file by the crawler, and the locked flush by
  * the refresher.  Nothing ties the steps of one call together.
  */
module CacheInterleaving {
  import opened Wrappers
  import opened Urls
  import opened MinerStore
  import opened CacheWindow
  import opened DocumentCache

  datatype Request = ById(id: int) | ByUrl(url: Url)

  /** Where a thread is between two of its steps. */
  datatype Pc =
    | Idle
    | Reading(id: int)
    | Missed(url: Url, since: set<int>)  // since: the ids stored when the call began
    | Scanning(url: Url, next: int, since: set<int>)
    | Inserting(req: Request, doc: Document)

  datatype Answer =
    | Returned(id: int, doc: Document)
    | Located(url: Url, id: int)
    | NotFound(url: Url, since: set<int>)
    | Raised(req: Request)

  datatype State = State(
    files: Files, maxId: int, window: Window, threads: map<nat, Pc>, answers: seq<Answer>,
    history: set<Document>,  // every version the store has held
    dirty: set<int>          // ids written since they were last flushed
  )

  datatype Step =
    | CallById(t: nat, id: int)
    | CallByUrl(t: nat, url: Url)
    | StartScan(t: nat)
    | ReadFile(t: nat)
    | ScanFile(t: nat)
    | InsertDoc(t: nat)
    | Write(id: int, article: Article)
    | FlushIds(lo: int, hi: int)
    | TagBoard(id: int, board: string)

  /** The addresses of ids: an id gets one address for good. */
  ghost predicate ValidNames(names: Names) {
    forall id :: id in names ==> id >= 0 && !names[id].Unnamed?
  }

  const START := State(map[], -1, EMPTY_WINDOW, map[], [], {}, {})

  function PcOf(s: State, t: nat): Pc {
    if t in s.threads then s.threads[t] else Idle
  }

  function Goto(s: State, t: nat, pc: Pc): State {
    s.(threads := s.threads[t := pc])
  }

  function Answering(s: State, t: nat, a: Answer): State {
    s.(threads := s.threads[t := Idle], answers := s.answers + [a])
  }

  /** The answer a call gives once its document is cached. */
  function AnswerFor(req: Request, doc: Document): Answer {
    match req
    case ById(id) => Returned(id, doc)
    case ByUrl(url) => Located(url, doc.meta.idid)
  }

  /** The effect of a step, if it can be taken. */
  function Do(s: State, step: Step, names: Names, size: nat): Option<State> {
    match step
    case CallById(t, id) =>
      if PcOf(s, t) != Idle then None
      else if At(s.window, id).Some? then Some(Answering(s, t, Returned(id, At(s.window, id).value)))
      else Some(Goto(s, t, Reading(id)))
    case CallByUrl(t, url) =>
      if PcOf(s, t) != Idle || url.Unnamed? then None
      else if url in s.window.urlToId then Some(Answering(s, t, Located(url, s.window.urlToId[url])))
      else Some(Goto(s, t, Missed(url, s.files.Keys)))
    case StartScan(t) =>
      var pc := PcOf(s, t);
      if pc.Missed? then Some(Goto(s, t, Scanning(pc.url, s.maxId, pc.since))) else None
    case ReadFile(t) =>
      var pc := PcOf(s, t);
      if pc.Reading? && pc.id in s.files then Some(Goto(s, t, Inserting(ById(pc.id), s.files[pc.id]))) else None
    case ScanFile(t) =>
      var pc := PcOf(s, t);
      if !pc.Scanning? || pc.url.Unnamed? then None
      else if pc.next < 0 then Some(Answering(s, t, NotFound(pc.url, pc.since)))
      else if pc.next !in s.files then Some(Goto(s, t, Scanning(pc.url, pc.next - 1, pc.since)))
      else
        var doc := s.files[pc.next];
        if doc.url.Unnamed? then None
        else if Num(doc.url) == Num(pc.url) then Some(Goto(s, t, Inserting(ByUrl(pc.url), doc)))
        else if Num(doc.url) < Num(pc.url) then Some(Answering(s, t, NotFound(pc.url, pc.since)))
        else Some(Goto(s, t, Scanning(pc.url, pc.next - 1, pc.since)))
    case InsertDoc(t) =>
      var pc := PcOf(s, t);
      if !pc.Inserting? || |s.window.docs| != s.window.maxId - s.window.minId + 1 then None
      else
        var (w, ok) := Insert(s.window, pc.doc, size);
        Some(Answering(s.(window := w), t, if ok then AnswerFor(pc.req, pc.doc) else Raised(pc.req)))
    case Write(id, article) =>
      if id !in names || id < 0 then None
      else
        var doc := MakeDocument(id, names[id], article);
        Some(s.(files := s.files[id := doc], maxId := if id > s.maxId then id else s.maxId,
                history := s.history + {doc}, dirty := s.dirty + {id}))
    case FlushIds(lo, hi) =>
      if |s.window.docs| != s.window.maxId - s.window.minId + 1 then None
      else
        var (w, ok) := Flush(s.window, lo, hi);
        Some(s.(window := w, dirty := if ok then set id | id in s.dirty && !(lo <= id <= hi) else s.dirty))
    case TagBoard(id, board) =>
      Some(s.(window := SetBoardAt(s.window, id, board)))
  }

  /** The state after a schedule, if all its steps can be taken. */
  function Exec(s: State, steps: seq<Step>, names: Names, size: nat): Option<State>
    decreases |steps|
  {
    if steps == [] then Some(s)
    else
      var s' :- Do(s, steps[0], names, size);
      Exec(s', steps[1..], names, size)
  }

  /** The store has held this document, up to the board. */
  ghost predicate WasHeld(history: set<Document>, doc: Document) {
    exists h :: h in history && SameButBoard(doc, h)
  }

  ghost predicate Proper(doc: Document, names: Names, history: set<Document>) {
    && doc.meta.idid in names && doc.url == names[doc.meta.idid]
    && WasHeld(history, doc)
  }

  ghost predicate Fits(req: Request, doc: Document) {
    match req
    case ById(id) => doc.meta.idid == id
    case ByUrl(url) => !url.Unnamed? && !doc.url.Unnamed? && Num(doc.url) == Num(url)
  }

  /** The numbers of the ids' addresses do not decrease with the id. */
  ghost predicate SortedNames(names: Names)
    requires ValidNames(names)
  {
    forall i, j :: i in names && j in names && i < j ==> Num(names[i]) <= Num(names[j])
  }

  /** None of the ids has an address with the number. */
  ghost predicate NoneOf(since: set<int>, names: Names, num: int)
    requires ValidNames(names)
  {
    forall id :: id in since ==> id in names && Num(names[id]) != num
  }

  /** A scan has met only larger numbers so far. */
  ghost predicate ScanOk(pc: Pc, files: Files, names: Names)
    requires ValidNames(names)
  {
    match pc
    case Missed(url, since) => !url.Unnamed? && since <= files.Keys
    case Scanning(url, next, since) =>
      && !url.Unnamed? && since <= files.Keys
      && forall id :: id in since && id > next ==> id in names && Num(names[id]) > Num(url)
    case _ => true
  }

  /** What every answer promises: a document has the id and the address asked for and is a version the
    * store held; an id belongs to an address with the right number; an address is missed only when nothing
    * stored at the time of the call had its number, if numbers do not decrease; errors only come from
    * shared addresses. */
  ghost predicate AnswerOk(a: Answer, names: Names, history: set<Document>)
    requires ValidNames(names)
  {
    match a
    case Returned(id, doc) => doc.meta.idid == id && Proper(doc, names, history)
    case Located(url, id) =>
      id in names && !url.Unnamed? && !names[id].Unnamed? && Num(names[id]) == Num(url)
      && exists h :: h in history && h.meta.idid == id
    case NotFound(url, since) => !url.Unnamed? && (SortedNames(names) ==> NoneOf(since, names, Num(url)))
    case Raised(_) => !OwnNames(names)
  }

  ghost predicate Inv(s: State, names: Names, size: nat)
    requires ValidNames(names)
  {
    && ValidFiles(s.files, s.maxId)
    && (forall id :: id in s.files ==> s.files[id] in s.history)
    && (forall h :: h in s.history ==> h.meta.idid in names && h.url == names[h.meta.idid])
    && WindowInv(s.window, size, names)
    && (forall id :: At(s.window, id).Some? ==> Proper(At(s.window, id).value, names, s.history))
    && (forall t :: PcOf(s, t).Inserting? ==>
          Proper(PcOf(s, t).doc, names, s.history) && Fits(PcOf(s, t).req, PcOf(s, t).doc))
    && (forall t :: ScanOk(PcOf(s, t), s.files, names))
    && (forall a :: a in s.answers ==> AnswerOk(a, names, s.history))
    && (OwnNames(names) ==> IndexComplete(s.window))
  }

  lemma HeldLonger(names: Names, h: set<Document>, h': set<Document>)
    requires h <= h' && ValidNames(names)
    ensures forall doc :: Proper(doc, names, h) ==> Proper(doc, names, h')
    ensures forall a :: AnswerOk(a, names, h) ==> AnswerOk(a, names, h')
  {
  }

  lemma AnsweringKeeps(s: State, t: nat, a: Answer, names: Names, size: nat)
    requires ValidNames(names) && Inv(s, names, size) && AnswerOk(a, names, s.history)
    ensures Inv(Answering(s, t, a), names, size)
  {
    var s' := Answering(s, t, a);
    assert forall u: nat :: PcOf(s', u) == if u == t then Idle else PcOf(s, u);
  }

  lemma GotoKeeps(s: State, t: nat, pc: Pc, names: Names, size: nat)
    requires ValidNames(names) && Inv(s, names, size)
    requires pc.Inserting? ==> Proper(pc.doc, names, s.history) && Fits(pc.req, pc.doc)
    requires ScanOk(pc, s.files, names)
    ensures Inv(Goto(s, t, pc), names, size)
  {
    var s' := Goto(s, t, pc);
    assert forall u: nat :: PcOf(s', u) == if u == t then pc else PcOf(s, u);
  }

  /** Replacing the window by one of the cache's critical sections keeps the invariant. */
  lemma WindowKeeps(s: State, w: Window, names: Names, size: nat)
    requires ValidNames(names) && Inv(s, names, size)
    requires WindowInv(w, size, names)
    requires forall id :: At(w, id).Some? ==> Proper(At(w, id).value, names, s.history)
    requires OwnNames(names) ==> IndexComplete(w)
    ensures Inv(s.(window := w), names, size)
  {
    assert forall u: nat :: PcOf(s.(window := w), u) == PcOf(s, u);
  }

  lemma SetBoardKeeps(w: Window, id: int, board: string, names: Names, size: nat, history: set<Document>)
    requires WindowInv(w, size, names)
    requires forall j :: At(w, j).Some? ==> Proper(At(w, j).value, names, history)
    ensures var w' := SetBoardAt(w, id, board);
            && WindowInv(w', size, names)
            && (forall j :: At(w', j).Some? ==> Proper(At(w', j).value, names, history))
            && (forall j :: At(w', j).Some? ==> At(w, j).Some? && SameButBoard(At(w', j).value, At(w, j).value))
            && (IndexComplete(w) ==> IndexComplete(w'))
  {
    var w' := SetBoardAt(w, id, board);
    BoardKeepsWindow(w, id, board, size, names);
    hide WindowInv, IndexComplete, SetBoardAt;
    forall j | At(w', j).Some? ensures WasHeld(history, At(w', j).value) {
      var h :| h in history && SameButBoard(At(w, j).value, h);
      assert SameButBoard(At(w', j).value, h);
    }
  }

  lemma WriteKeeps(s: State, id: int, article: Article, names: Names, size: nat)
    requires ValidNames(names) && Inv(s, names, size) && id in names
    ensures Inv(Do(s, Write(id, article), names, size).value, names, size)
  {
    var s' := Do(s, Write(id, article), names, size).value;
    HeldLonger(names, s.history, s'.history);
    assert forall u: nat :: PcOf(s', u) == PcOf(s, u);
  }

  lemma LookUpKeeps(s: State, step: Step, names: Names, size: nat)
    requires ValidNames(names) && Inv(s, names, size)
    requires (step.CallById? || step.CallByUrl? || step.StartScan?) && Do(s, step, names, size).Some?
    ensures Inv(Do(s, step, names, size).value, names, size)
  {
    match step
    case CallById(t, id) =>
      if At(s.window, id).Some? {
        AnsweringKeeps(s, t, Returned(id, At(s.window, id).value), names, size);
      } else {
        GotoKeeps(s, t, Reading(id), names, size);
      }
    case CallByUrl(t, url) =>
      if url in s.window.urlToId {
        LocatedOk(s, url, At(s.window, s.window.urlToId[url]).value, names, size);
        AnsweringKeeps(s, t, Located(url, s.window.urlToId[url]), names, size);
      } else {
        GotoKeeps(s, t, Missed(url, s.files.Keys), names, size);
      }
    case StartScan(t) =>
      var pc := PcOf(s, t);
      GotoKeeps(s, t, Scanning(pc.url, s.maxId, pc.since), names, size);
    case _ =>
  }

  /** A scan that stops at a smaller number, or at the end, has missed nothing. */
  lemma MissedNothing(pc: Pc, s: State, names: Names, size: nat)
    requires ValidNames(names) && Inv(s, names, size) && pc.Scanning? && ScanOk(pc, s.files, names)
    requires pc.next < 0 || (pc.next in s.files && pc.next in names && Num(names[pc.next]) < Num(pc.url))
    ensures AnswerOk(NotFound(pc.url, pc.since), names, s.history)
  {
    if SortedNames(names) {
      forall id | id in pc.since ensures id in names && Num(names[id]) != Num(pc.url) {
        assert s.files[id] in s.history;
      }
    }
  }

  lemma ScanKeeps(s: State, t: nat, names: Names, size: nat)
    requires ValidNames(names) && Inv(s, names, size) && Do(s, ScanFile(t), names, size).Some?
    ensures Inv(Do(s, ScanFile(t), names, size).value, names, size)
  {
    var pc := PcOf(s, t);
    if pc.next < 0 {
      MissedNothing(pc, s, names, size);
      AnsweringKeeps(s, t, NotFound(pc.url, pc.since), names, size);
    } else if pc.next !in s.files {
      GotoKeeps(s, t, Scanning(pc.url, pc.next - 1, pc.since), names, size);
    } else {
      var doc := s.files[pc.next];
      StoredIsProper(s, pc.next, names, size);
      if Num(doc.url) == Num(pc.url) {
        GotoKeeps(s, t, Inserting(ByUrl(pc.url), doc), names, size);
      } else if Num(doc.url) < Num(pc.url) {
        MissedNothing(pc, s, names, size);
        AnsweringKeeps(s, t, NotFound(pc.url, pc.since), names, size);
      } else {
        GotoKeeps(s, t, Scanning(pc.url, pc.next - 1, pc.since), names, size);
      }
    }
  }

  lemma InsertionKeeps(s: State, t: nat, names: Names, size: nat)
    requires ValidNames(names) && Inv(s, names, size) && size >= 1 && Do(s, InsertDoc(t), names, size).Some?
    ensures Inv(Do(s, InsertDoc(t), names, size).value, names, size)
  {
    var pc := PcOf(s, t);
    InsertKeeps(s.window, pc.doc, size, names);
    var (w, ok) := Insert(s.window, pc.doc, size);
    WindowKeeps(s, w, names, size);
    hide Insert;
    if ok {
      if pc.req.ByUrl? {
        LocatedOk(s, pc.req.url, pc.doc, names, size);
      }
      AnsweringKeeps(s.(window := w), t, AnswerFor(pc.req, pc.doc), names, size);
    } else {
      AnsweringKeeps(s.(window := w), t, Raised(pc.req), names, size);
    }
  }

  lemma FlushingKeeps(s: State, lo: int, hi: int, names: Names, size: nat)
    requires ValidNames(names) && Inv(s, names, size) && Do(s, FlushIds(lo, hi), names, size).Some?
    ensures Inv(Do(s, FlushIds(lo, hi), names, size).value, names, size)
  {
    FlushKeeps(s.window, lo, hi, size, names);
    WindowKeeps(s, Flush(s.window, lo, hi).0, names, size);
    assert forall u: nat :: PcOf(Do(s, FlushIds(lo, hi), names, size).value, u) == PcOf(s, u);
  }

  lemma TaggingKeeps(s: State, id: int, board: string, names: Names, size: nat)
    requires ValidNames(names) && Inv(s, names, size)
    ensures Inv(Do(s, TagBoard(id, board), names, size).value, names, size)
  {
    SetBoardKeeps(s.window, id, board, names, size, s.history);
    WindowKeeps(s, SetBoardAt(s.window, id, board), names, size);
  }

  /** Every step of every thread keeps the invariant. */
  lemma StepKeeps(s: State, step: Step, names: Names, size: nat)
    requires ValidNames(names) && Inv(s, names, size) && size >= 1
    requires Do(s, step, names, size).Some?
    ensures Inv(Do(s, step, names, size).value, names, size)
  {
    match step
    case CallById(t, id) => LookUpKeeps(s, step, names, size);
    case CallByUrl(t, url) => LookUpKeeps(s, step, names, size);
    case StartScan(t) => LookUpKeeps(s, step, names, size);
    case ReadFile(t) =>
      var id := PcOf(s, t).id;
      StoredIsProper(s, id, names, size);
      GotoKeeps(s, t, Inserting(ById(id), s.files[id]), names, size);
    case ScanFile(t) => ScanKeeps(s, t, names, size);
    case InsertDoc(t) => InsertionKeeps(s, t, names, size);
    case Write(id, article) => WriteKeeps(s, id, article, names, size);
    case FlushIds(lo, hi) => FlushingKeeps(s, lo, hi, names, size);
    case TagBoard(id, board) => TaggingKeeps(s, id, board, names, size);
  }

  lemma StoredIsProper(s: State, id: int, names: Names, size: nat)
    requires ValidNames(names) && Inv(s, names, size) && id in s.files
    ensures Proper(s.files[id], names, s.history)
  {
    assert SameButBoard(s.files[id], s.files[id]);
  }

  lemma LocatedOk(s: State, url: Url, doc: Document, names: Names, size: nat)
    requires ValidNames(names) && Proper(doc, names, s.history) && Fits(ByUrl(url), doc)
    ensures AnswerOk(Located(url, doc.meta.idid), names, s.history)
  {
    var h :| h in s.history && SameButBoard(doc, h);
    assert doc.(meta := doc.meta.(board := "")).meta.idid == h.(meta := h.meta.(board := "")).meta.idid;
  }

  lemma {:induction false} ScheduleKeeps(s: State, steps: seq<Step>, names: Names, size: nat)
    requires ValidNames(names) && Inv(s, names, size) && size >= 1
    requires Exec(s, steps, names, size).Some?
    ensures Inv(Exec(s, steps, names, size).value, names, size)
    decreases |steps|
  {
    if steps != [] {
      StepKeeps(s, steps[0], names, size);
      ScheduleKeeps(Do(s, steps[0], names, size).value, steps[1..], names, size);
    }
  }

  /** In every interleaving the window and the index stay in order and every answer is sound. */
  lemma EveryInterleavingIsSound(steps: seq<Step>, names: Names, size: nat)
    requires ValidNames(names) && size >= 1
    requires Exec(START, steps, names, size).Some?
    ensures var s := Exec(START, steps, names, size).value;
            && WindowInv(s.window, size, names)
            && (OwnNames(names) ==> IndexInverse(s.window))
            && (forall a :: a in s.answers ==> AnswerOk(a, names, s.history))
  {
    ScheduleKeeps(START, steps, names, size);
    var s := Exec(START, steps, names, size).value;
    if OwnNames(names) {
      InverseFromDistinct(s.window, size, names);
    }
  }

  // ----- A thread that is alone -----

  /** The thread has given its answer and is idle again; the window may be another one, nothing else has changed. */
  ghost predicate Answered(s: State, s': State, t: nat, w: Window, a: Answer) {
    && s'.files == s.files && s'.maxId == s.maxId && s'.history == s.history && s'.dirty == s.dirty
    && s'.window == w && s'.answers == s.answers + [a] && PcOf(s', t) == Idle
    && forall u: nat :: u != t ==> PcOf(s', u) == PcOf(s, u)
  }

  /** What becomes of a window and a call when the call's document is inserted. */
  function AfterInsert(w: Window, req: Request, doc: Document, size: nat): (Window, Answer)
    requires |w.docs| == w.maxId - w.minId + 1
  {
    var (w', ok) := Insert(w, doc, size);
    (w', if ok then AnswerFor(req, doc) else Raised(req))
  }

  lemma OneStep(s: State, step: Step, rest: seq<Step>, names: Names, size: nat)
    requires Do(s, step, names, size).Some?
    ensures Exec(s, [step] + rest, names, size) == Exec(Do(s, step, names, size).value, rest, names, size)
  {
    hide Do;
    assert ([step] + rest)[1..] == rest;
  }

  lemma LastStep(s: State, step: Step, names: Names, size: nat)
    requires Do(s, step, names, size).Some?
    ensures Exec(s, [step], names, size) == Do(s, step, names, size)
  {
    hide Do;
    OneStep(s, step, [], names, size);
    assert [step] + [] == [step];
  }

  lemma LoneInsert(s: State, t: nat, names: Names, size: nat)
    requires PcOf(s, t).Inserting? && |s.window.docs| == s.window.maxId - s.window.minId + 1
    ensures Exec(s, [InsertDoc(t)], names, size).Some?
    ensures var (w, a) := AfterInsert(s.window, PcOf(s, t).req, PcOf(s, t).doc, size);
            Answered(s, Exec(s, [InsertDoc(t)], names, size).value, t, w, a)
  {
    hide Insert;
    LastStep(s, InsertDoc(t), names, size);
    hide Exec;
  }

  /** With no other thread in between, a call by id does what the sequential cache does: a cached document is
    * returned as it is, any other is read from the store and inserted. */
  lemma LoneRead(s: State, t: nat, id: int, names: Names, size: nat) returns (steps: seq<Step>)
    requires PcOf(s, t) == Idle && id in s.files && |s.window.docs| == s.window.maxId - s.window.minId + 1
    ensures Exec(s, steps, names, size).Some?
    ensures var (w, a) := if At(s.window, id).Some? then (s.window, Returned(id, At(s.window, id).value))
                          else AfterInsert(s.window, ById(id), s.files[id], size);
            Answered(s, Exec(s, steps, names, size).value, t, w, a)
  {
    hide Exec, Insert;
    var s1 := Do(s, CallById(t, id), names, size).value;
    if At(s.window, id).Some? {
      steps := [CallById(t, id)];
      LastStep(s, CallById(t, id), names, size);
    } else {
      steps := [CallById(t, id)] + ([ReadFile(t)] + [InsertDoc(t)]);
      var s2 := Do(s1, ReadFile(t), names, size).value;
      OneStep(s, CallById(t, id), [ReadFile(t)] + [InsertDoc(t)], names, size);
      OneStep(s1, ReadFile(t), [InsertDoc(t)], names, size);
      LoneInsert(s2, t, names, size);
    }
  }

  lemma {:induction false} LoneScan(s: State, t: nat, names: Names, size: nat) returns (steps: seq<Step>)
    requires PcOf(s, t).Scanning? && !PcOf(s, t).url.Unnamed? && AllNamed(s.files)
    requires |s.window.docs| == s.window.maxId - s.window.minId + 1
    ensures Exec(s, steps, names, size).Some?
    ensures var (w, a) :=
              match ScanForNum(s.files, PcOf(s, t).next, Num(PcOf(s, t).url))
              case None => (s.window, NotFound(PcOf(s, t).url, PcOf(s, t).since))
              case Some(doc) => AfterInsert(s.window, ByUrl(PcOf(s, t).url), doc, size);
            Answered(s, Exec(s, steps, names, size).value, t, w, a)
    decreases if PcOf(s, t).next < 0 then 0 else PcOf(s, t).next + 1
  {
    hide Exec, Insert;
    var next := Do(s, ScanFile(t), names, size).value;
    if PcOf(next, t) == Idle {
      steps := [ScanFile(t)];
      LastStep(s, ScanFile(t), names, size);
    } else {
      var rest;
      if PcOf(next, t).Scanning? {
        rest := LoneScan(next, t, names, size);
      } else {
        rest := [InsertDoc(t)];
        LoneInsert(next, t, names, size);
      }
      steps := [ScanFile(t)] + rest;
      OneStep(s, ScanFile(t), rest, names, size);
    }
  }

  /** So does a call by address: an indexed address is answered from the index, any other by the store's scan, and
    * a document found is inserted. */
  lemma LoneLookUp(s: State, t: nat, url: Url, names: Names, size: nat) returns (steps: seq<Step>)
    requires PcOf(s, t) == Idle && !url.Unnamed? && AllNamed(s.files)
    requires |s.window.docs| == s.window.maxId - s.window.minId + 1
    ensures Exec(s, steps, names, size).Some?
    ensures var (w, a) :=
              if url in s.window.urlToId then (s.window, Located(url, s.window.urlToId[url]))
              else
                match ScanForNum(s.files, s.maxId, Num(url))
                case None => (s.window, NotFound(url, s.files.Keys))
                case Some(doc) => AfterInsert(s.window, ByUrl(url), doc, size);
            Answered(s, Exec(s, steps, names, size).value, t, w, a)
  {
    hide Exec, Insert, ScanForNum, AfterInsert;
    var s1 := Do(s, CallByUrl(t, url), names, size).value;
    if url in s.window.urlToId {
      steps := [CallByUrl(t, url)];
      LastStep(s, CallByUrl(t, url), names, size);
    } else {
      var s2 := Do(s1, StartScan(t), names, size).value;
      var rest := LoneScan(s2, t, names, size);
      steps := [CallByUrl(t, url)] + ([StartScan(t)] + rest);
      OneStep(s, CallByUrl(t, url), [StartScan(t)] + rest, names, size);
      OneStep(s1, StartScan(t), rest, names, size);
    }
  }

  /** What the crawler, the refresher and the backend do in their steps: a write stores the article fetched under
    * the id and its address, a board is written into one cached document only, and neither touches anything else. */
  lemma BackgroundSteps(s: State, id: int, article: Article, board: string, names: Names, size: nat, j: int)
    requires id in names && id >= 0
    ensures var s' := Do(s, Write(id, article), names, size).value;
            && s'.files.Keys == s.files.Keys + {id} && HoldsArticle(s'.files[id], id, names[id], article)
            && (j in s.files && j != id ==> s'.files[j] == s.files[j])
            && s'.window == s.window && s'.threads == s.threads && s'.answers == s.answers
    ensures var s' := Do(s, TagBoard(id, board), names, size).value;
            && s'.files == s.files && s'.threads == s.threads && s'.answers == s.answers
            && At(s'.window, j) == if j == id && At(s.window, j).Some?
                                   then Some(At(s.window, j).value.(meta := At(s.window, j).value.meta.(board := board)))
                                   else At(s.window, j)
  {
    SetBoardAtEach(s.window, id, board, j);
    hide SetBoardAt, At;
  }

  // ----- Freshness -----

  /** The document is the current version, or its id has been written and not yet flushed. */
  ghost predicate Current(s: State, doc: Document) {
    doc.meta.idid in s.dirty || (doc.meta.idid in s.files && SameButBoard(doc, s.files[doc.meta.idid]))
  }

  ghost predicate Fresh(s: State) {
    && (forall id :: At(s.window, id).Some? ==> Current(s, At(s.window, id).value))
    && (forall t :: PcOf(s, t).Inserting? ==> Current(s, PcOf(s, t).doc))
  }

  /** A flush is harmless when it fails, or when every version of a flushed id that is still to be inserted is
    * the stored one. */
  ghost predicate Harmless(s: State, step: Step)
    requires |s.window.docs| == s.window.maxId - s.window.minId + 1
  {
    step.FlushIds? && FlushSucceeds(s.window, step.lo, step.hi) ==>
      forall t :: PcOf(s, t).Inserting? ==>
        var doc := PcOf(s, t).doc;
        step.lo <= doc.meta.idid <= step.hi ==>
          doc.meta.idid in s.files && SameButBoard(doc, s.files[doc.meta.idid])
  }

  lemma GotoKeepsFresh(s: State, s': State, t: nat, pc: Pc)
    requires Fresh(s)
    requires s'.threads == s.threads[t := pc]
    requires s'.window == s.window && s'.files == s.files && s'.dirty == s.dirty
    requires pc.Inserting? ==> Current(s, pc.doc)
    ensures Fresh(s')
  {
    assert forall u: nat :: PcOf(s', u) == if u == t then pc else PcOf(s, u);
  }

  lemma InsertKeepsFresh(s: State, t: nat, names: Names, size: nat)
    requires ValidNames(names) && Inv(s, names, size) && size >= 1
    requires Fresh(s) && PcOf(s, t).Inserting?
    ensures Fresh(s.(window := Insert(s.window, PcOf(s, t).doc, size).0))
  {
    var doc := PcOf(s, t).doc;
    var s' := s.(window := Insert(s.window, doc, size).0);
    InsertKeeps(s.window, doc, size, names);
    assert forall u: nat :: PcOf(s', u) == PcOf(s, u);
    forall id | At(s'.window, id).Some? ensures Current(s', At(s'.window, id).value) {
      assert At(s'.window, id) == At(s.window, id) || At(s'.window, id) == Some(doc);
    }
  }

  lemma WriteKeepsFresh(s: State, id: int, article: Article, names: Names, size: nat)
    requires Fresh(s) && id in names && id >= 0
    ensures Fresh(Do(s, Write(id, article), names, size).value)
  {
    var s' := Do(s, Write(id, article), names, size).value;
    assert forall u: nat :: PcOf(s', u) == PcOf(s, u);
    assert forall doc :: Current(s, doc) ==> Current(s', doc);
  }

  /** A flush keeps everything fresh exactly when it is harmless. */
  lemma FlushFreshIff(s: State, lo: int, hi: int, names: Names, size: nat)
    requires ValidNames(names) && Inv(s, names, size) && Fresh(s)
    ensures |s.window.docs| == s.window.maxId - s.window.minId + 1
    ensures Fresh(Do(s, FlushIds(lo, hi), names, size).value) <==> Harmless(s, FlushIds(lo, hi))
  {
    var s' := Do(s, FlushIds(lo, hi), names, size).value;
    FlushKeeps(s.window, lo, hi, size, names);
    FlushSucceedsIff(s.window, lo, hi);
    hide Flush, FlushSucceeds;
    var ok := Flush(s.window, lo, hi).1;
    assert forall u: nat :: PcOf(s', u) == PcOf(s, u);
    assert s'.dirty == if ok then set id | id in s.dirty && !(lo <= id <= hi) else s.dirty;
    forall id | At(s'.window, id).Some? ensures Current(s', At(s'.window, id).value) {
      assert At(s'.window, id) == At(s.window, id) && (ok ==> !(lo <= id <= hi));
    }
    if Harmless(s, FlushIds(lo, hi)) {
      forall u: nat | PcOf(s', u).Inserting? ensures Current(s', PcOf(s', u).doc) {
        assert Current(s, PcOf(s, u).doc);
      }
    }
    if Fresh(s') && ok {
      forall u: nat | PcOf(s, u).Inserting? && lo <= PcOf(s, u).doc.meta.idid <= hi
        ensures var doc := PcOf(s, u).doc; doc.meta.idid in s.files && SameButBoard(doc, s.files[doc.meta.idid])
      {
        assert Current(s', PcOf(s', u).doc);
      }
    }
  }

  lemma TagKeepsFresh(s: State, id: int, board: string, names: Names, size: nat)
    requires ValidNames(names) && Inv(s, names, size) && Fresh(s)
    ensures Fresh(s.(window := SetBoardAt(s.window, id, board)))
  {
    var s' := s.(window := SetBoardAt(s.window, id, board));
    SetBoardKeeps(s.window, id, board, names, size, s.history);
    assert forall u: nat :: PcOf(s', u) == PcOf(s, u);
    forall j | At(s'.window, j).Some? ensures Current(s', At(s'.window, j).value) {
      assert Current(s, At(s.window, j).value);
      assert At(s.window, j).value.meta.idid == j == At(s'.window, j).value.meta.idid;
    }
  }

  lemma ReadingKeepsFresh(s: State, t: nat, id: int, req: Request, names: Names, size: nat)
    requires ValidNames(names) && Inv(s, names, size) && Fresh(s) && id in s.files
    ensures Fresh(Goto(s, t, Inserting(req, s.files[id])))
  {
    assert s.files[id].meta.idid == id && SameButBoard(s.files[id], s.files[id]);
    GotoKeepsFresh(s, Goto(s, t, Inserting(req, s.files[id])), t, Inserting(req, s.files[id]));
  }

  lemma ScanStepKeepsFresh(s: State, t: nat, names: Names, size: nat)
    requires ValidNames(names) && Inv(s, names, size) && Fresh(s) && Do(s, ScanFile(t), names, size).Some?
    ensures Fresh(Do(s, ScanFile(t), names, size).value)
  {
    var s', pc := Do(s, ScanFile(t), names, size).value, PcOf(s, t);
    if s'.threads[t].Inserting? {
      ReadingKeepsFresh(s, t, pc.next, ByUrl(pc.url), names, size);
    } else {
      GotoKeepsFresh(s, s', t, s'.threads[t]);
    }
  }

  lemma InsertionKeepsFresh(s: State, t: nat, names: Names, size: nat)
    requires ValidNames(names) && Inv(s, names, size) && size >= 1 && Fresh(s) && Do(s, InsertDoc(t), names, size).Some?
    ensures Fresh(Do(s, InsertDoc(t), names, size).value)
  {
    hide Insert, Fresh, Inv;
    InsertKeepsFresh(s, t, names, size);
    var s' := Do(s, InsertDoc(t), names, size).value;
    GotoKeepsFresh(s.(window := s'.window), s', t, Idle);
  }

  lemma InvLength(s: State, names: Names, size: nat)
    requires ValidNames(names) && Inv(s, names, size)
    ensures |s.window.docs| == s.window.maxId - s.window.minId + 1
  {
  }

  /** Every step keeps everything fresh exactly when it is harmless. */
  lemma StepFreshIff(s: State, step: Step, names: Names, size: nat)
    requires ValidNames(names) && Inv(s, names, size) && size >= 1
    requires Fresh(s) && Do(s, step, names, size).Some?
    ensures |s.window.docs| == s.window.maxId - s.window.minId + 1
    ensures Fresh(Do(s, step, names, size).value) <==> Harmless(s, step)
  {
    InvLength(s, names, size);
    hide Inv, Fresh, Insert, Flush, FlushSucceeds, Current;
    match step
    case CallById(t, id) =>
      var s' := Do(s, step, names, size).value;
      GotoKeepsFresh(s, s', t, s'.threads[t]);
    case CallByUrl(t, url) =>
      var s' := Do(s, step, names, size).value;
      GotoKeepsFresh(s, s', t, s'.threads[t]);
    case StartScan(t) =>
      var s' := Do(s, step, names, size).value;
      GotoKeepsFresh(s, s', t, s'.threads[t]);
    case ReadFile(t) => ReadingKeepsFresh(s, t, PcOf(s, t).id, ById(PcOf(s, t).id), names, size);
    case ScanFile(t) => ScanStepKeepsFresh(s, t, names, size);
    case InsertDoc(t) => InsertionKeepsFresh(s, t, names, size);
    case Write(id, article) => WriteKeepsFresh(s, id, article, names, size);
    case FlushIds(lo, hi) => FlushFreshIff(s, lo, hi, names, size);
    case TagBoard(id, board) => TagKeepsFresh(s, id, board, names, size);
  }

  /** Everything is fresh at every moment of the run. */
  ghost predicate FreshThroughout(s: State, steps: seq<Step>, names: Names, size: nat)
    decreases |steps|
  {
    Fresh(s) &&
    (steps != [] && Do(s, steps[0], names, size).Some? ==>
       FreshThroughout(Do(s, steps[0], names, size).value, steps[1..], names, size))
  }

  ghost predicate HarmlessThroughout(s: State, steps: seq<Step>, names: Names, size: nat)
    decreases |steps|
  {
    steps != [] ==>
      |s.window.docs| == s.window.maxId - s.window.minId + 1 && Harmless(s, steps[0]) &&
      (Do(s, steps[0], names, size).Some? ==>
         HarmlessThroughout(Do(s, steps[0], names, size).value, steps[1..], names, size))
  }

  /** The cache never serves, and no call ever holds, a version that is neither current nor still to be
    * flushed, exactly when no flush overlaps the insertion of an outdated version it was to remove. */
  lemma {:induction false} FreshThroughoutIff(s: State, steps: seq<Step>, names: Names, size: nat)
    requires ValidNames(names) && Inv(s, names, size) && size >= 1
    requires Fresh(s) && Exec(s, steps, names, size).Some?
    ensures FreshThroughout(s, steps, names, size) <==> HarmlessThroughout(s, steps, names, size)
    decreases |steps|
  {
    hide Inv, Fresh, Do, Harmless;
    InvLength(s, names, size);
    if steps != [] {
      var s' := Do(s, steps[0], names, size).value;
      StepKeeps(s, steps[0], names, size);
      StepFreshIff(s, steps[0], names, size);
      if Fresh(s') {
        FreshThroughoutIff(s', steps[1..], names, size);
      }
    }
  }

  /** From the start of the program on. */
  lemma EveryRunIsFreshIff(steps: seq<Step>, names: Names, size: nat)
    requires ValidNames(names) && size >= 1 && Exec(START, steps, names, size).Some?
    ensures FreshThroughout(START, steps, names, size) <==> HarmlessThroughout(START, steps, names, size)
  {
    FreshThroughoutIff(START, steps, names, size);
  }

  /** A caller reads version v1 of document 0; version v2 is written and flushed; then the caller caches v1. */
  function StaleStep(k: nat, a1: Article, a2: Article): Step {
    if k == 0 then Write(0, a1)
    else if k == 1 then CallById(7, 0)
    else if k == 2 then ReadFile(7)
    else if k == 3 then Write(0, a2)
    else if k == 4 then FlushIds(0, 0)
    else if k == 5 then InsertDoc(7)
    else CallById(8, 0)
  }

  function StaleState(k: nat, v1: Document, v2: Document): State {
    var cached := Window([Some(v1)], 0, 0, map[v1.url := 0]);
    if k == 0 then START
    else if k == 1 then State(map[0 := v1], 0, EMPTY_WINDOW, map[], [], {v1}, {0})
    else if k == 2 then State(map[0 := v1], 0, EMPTY_WINDOW, map[7 := Reading(0)], [], {v1}, {0})
    else if k == 3 then State(map[0 := v1], 0, EMPTY_WINDOW, map[7 := Inserting(ById(0), v1)], [], {v1}, {0})
    else if k == 4 then State(map[0 := v2], 0, EMPTY_WINDOW, map[7 := Inserting(ById(0), v1)], [], {v1, v2}, {0})
    else if k == 5 then State(map[0 := v2], 0, EMPTY_WINDOW, map[7 := Inserting(ById(0), v1)], [], {v1, v2}, {})
    else if k == 6 then State(map[0 := v2], 0, cached, map[7 := Idle], [Returned(0, v1)], {v1, v2}, {})
    else State(map[0 := v2], 0, cached, map[7 := Idle, 8 := Idle], [Returned(0, v1), Returned(0, v1)], {v1, v2}, {})
  }

  lemma StaleStepWorks(k: nat, a1: Article, a2: Article, url: Url)
    requires k < 7
    ensures var v1, v2 := MakeDocument(0, url, a1), MakeDocument(0, url, a2);
            Do(StaleState(k, v1, v2), StaleStep(k, a1, a2), map[0 := url], 4) == Some(StaleState(k + 1, v1, v2))
  {
    var v1, v2 := MakeDocument(0, url, a1), MakeDocument(0, url, a2);
    var s, s' := StaleState(k, v1, v2), StaleState(k + 1, v1, v2);
    if k == 0 {
      assert s.files[0 := v1] == s'.files && s.history + {v1} == {v1} && s.dirty + {0} == {0};
    } else if k == 1 {
      assert s.threads[7 := Reading(0)] == s'.threads;
    } else if k == 2 {
      assert s.threads[7 := Inserting(ById(0), v1)] == s'.threads;
    } else if k == 3 {
      assert s.files[0 := v2] == s'.files && s.history + {v2} == {v1, v2} && s.dirty + {0} == {0};
    } else if k == 4 {
      assert (set id | id in s.dirty && !(0 <= id <= 0)) == {};
    } else if k == 5 {
      InsertIntoEmpty(v1);
      assert s.threads[7 := Idle] == s'.threads && s.answers + [Returned(0, v1)] == s'.answers;
    } else {
      assert s.threads[8 := Idle] == s'.threads && s.answers + [Returned(0, v1)] == s'.answers;
    }
  }

  lemma {:induction false} StaleRun(k: nat, a1: Article, a2: Article, url: Url)
    requires k <= 7
    ensures var v1, v2 := MakeDocument(0, url, a1), MakeDocument(0, url, a2);
            Exec(StaleState(k, v1, v2), seq(7 - k, i requires 0 <= i => StaleStep(k + i, a1, a2)), map[0 := url], 4)
              == Some(StaleState(7, v1, v2))
    decreases 7 - k
  {
    hide Do, StaleState, StaleStep;
    if k < 7 {
      var steps := seq(7 - k, i requires 0 <= i => StaleStep(k + i, a1, a2));
      StaleStepWorks(k, a1, a2, url);
      StaleRun(k + 1, a1, a2, url);
      assert steps[1..] == seq(7 - (k + 1), i requires 0 <= i => StaleStep(k + 1 + i, a1, a2));
    }
  }

  /** Without that condition a caller can bring an old version back after the flush: the store then
    * holds the new version, nothing is pending, and the cache goes on serving the old one. */
  lemma StaleVersionCanStay(a1: Article, a2: Article, url: Url) returns (steps: seq<Step>)
    ensures var names, v1, v2 := map[0 := url], MakeDocument(0, url, a1), MakeDocument(0, url, a2);
            && Exec(START, steps, names, 4).Some?
            && var s := Exec(START, steps, names, 4).value;
               && s.files == map[0 := v2] && s.dirty == {} && (forall t :: PcOf(s, t) == Idle)
               && s.answers == [Returned(0, v1), Returned(0, v1)] && At(s.window, 0) == Some(v1)
  {
    steps := seq(7 - 0, i requires 0 <= i => StaleStep(0 + i, a1, a2));
    StaleRun(0, a1, a2, url);
  }

  lemma InsertIntoEmpty(doc: Document)
    requires doc.meta.idid == 0
    ensures Insert(EMPTY_WINDOW, doc, 4) == (Window([Some(doc)], 0, 0, map[doc.url := 0]), true)
  {
    var roomy := Window([None], 0, 0, map[]);
    assert Shrink(EMPTY_WINDOW, 3) == (EMPTY_WINDOW, true);
    assert EMPTY_WINDOW.docs + Blank(1) == [None];
    assert MakeRoom(EMPTY_WINDOW, 0, 4) == (roomy, true);
    assert roomy.docs[0 := Some(doc)] == [Some(doc)];
    assert roomy.urlToId[doc.url := 0] == map[doc.url := 0];
  }
}

/** Two threads that store documents, and the refresher, writing to one store at the same time.
  *
  * A thread takes an address from its generator, looks whether its id is free,
  * fetches and writes the document, and goes on below.  The refresher takes a
  * stored document and writes it anew.  These are steps of their own; any
  * thread's step can come between two steps of another.
  */
module MirrorRace {
  import opened Wrappers
  import opened Urls
  import opened MinerStore
  import opened BoardSearch
  import opened BoardMirror
  import opened BoardListener

  datatype Phase =
    | Ready               // about to take an address
    | Checking(url: Url)  // about to look whether the id is free
    | Writing(url: Url)   // about to fetch and write
    | Stopped

  datatype Thread = Thread(id: int, cursor: Cursor, phase: Phase)

  /** What a thread is started with, or has left to do. */
  datatype Job = Job(start: int, cursor: Cursor, minNum: int)

  /** A document the refresher has read and is about to fetch and write. */
  datatype Target = Target(id: int, url: Url)

  datatype State = State(files: Files, fetches: nat, first: Thread, second: Thread, refresher: Option<Target>)

  datatype Step =
    | First
    | Second
    | Pick(id: int)  // the refresher reads a stored document
    | Rewrite        // and writes it anew

  /** One step of a thread on the files: the thread afterwards, and the document written. */
  function Advance(t: Thread, minNum: int, files: Files, web: Web, fetch: nat): (Thread, Option<Document>) {
    match t.phase
    case Ready =>
      var (url, c) := HandOne(t.cursor, minNum);
      (t.(cursor := c, phase := Checking(url)), None)
    case Checking(url) => (t.(phase := if t.id in files then Stopped else Writing(url)), None)
    case Writing(url) =>
      (t.(id := t.id - 1, phase := if t.id - 1 < 0 then Stopped else Ready), Some(MakeDocument(t.id, url, web(url, fetch))))
    case Stopped => (t, None)
  }

  function Write(s: State, doc: Option<Document>): State {
    if doc.None? then s
    else s.(files := s.files[doc.value.meta.idid := doc.value], fetches := s.fetches + 1)
  }

  function Do(s: State, step: Step, web: Web, a: Job, b: Job): Option<State> {
    match step
    case First =>
      if s.first.phase.Stopped? then None
      else
        var (t, doc) := Advance(s.first, a.minNum, s.files, web, s.fetches);
        Some(Write(s, doc).(first := t))
    case Second =>
      if s.second.phase.Stopped? then None
      else
        var (t, doc) := Advance(s.second, b.minNum, s.files, web, s.fetches);
        Some(Write(s, doc).(second := t))
    case Pick(id) =>
      if s.refresher.Some? || id !in s.files then None
      else Some(s.(refresher := Some(Target(id, s.files[id].url))))
    case Rewrite =>
      if s.refresher.None? then None
      else
        var target := s.refresher.value;
        Some(Write(s, Some(MakeDocument(target.id, target.url, web(target.url, s.fetches)))).(refresher := None))
  }

  function Exec(s: State, steps: seq<Step>, web: Web, a: Job, b: Job): Option<State>
    decreases |steps|
  {
    if steps == [] then Some(s)
    else
      var s' :- Do(s, steps[0], web, a, b);
      Exec(s', steps[1..], web, a, b)
  }

  lemma ExecStep(s: State, step: Step, rest: seq<Step>, web: Web, a: Job, b: Job)
    requires Do(s, step, web, a, b).Some?
    ensures Exec(s, [step] + rest, web, a, b) == Exec(Do(s, step, web, a, b).value, rest, web, a, b)
  {
    hide Do;
    assert ([step] + rest)[1..] == rest;
  }

  lemma {:induction false} ExecConcat(s: State, one: seq<Step>, more: seq<Step>, web: Web, a: Job, b: Job)
    requires Exec(s, one, web, a, b).Some?
    ensures Exec(s, one + more, web, a, b) == Exec(Exec(s, one, web, a, b).value, more, web, a, b)
    decreases |one|
  {
    hide Do;
    if one == [] {
      assert one + more == more;
    } else {
      ExecConcat(Do(s, one[0], web, a, b).value, one[1..], more, web, a, b);
      assert (one + more)[1..] == one[1..] + more;
    }
  }

  function Begin(j: Job): Thread {
    Thread(j.start, j.cursor, Ready)
  }

  function Start(was: Files, a: Job, b: Job): State {
    State(was, 0, Begin(a), Begin(b), None)
  }

  ghost predicate BothStopped(s: State) {
    s.first.phase.Stopped? && s.second.phase.Stopped?
  }

  /** Number of free ids in a row from a thread's first one down: what it stores when it is alone. */
  function Room(was: Files, j: Job): nat {
    Free(was, j.start)
  }

  /** The id is one the thread has to fill. */
  predicate Fills(was: Files, j: Job, id: int) {
    j.start - Room(was, j) < id <= j.start
  }

  /** The address the thread is to store under the id. */
  function AddressOf(was: Files, j: Job, id: int): Url
    requires Fills(was, j, id)
  {
    Handed(j.cursor, j.minNum, Room(was, j))[j.start - id]
  }

  /** The id is to be filled by both threads, under different addresses. */
  predicate Contended(was: Files, a: Job, b: Job, id: int) {
    Fills(was, a, id) && Fills(was, b, id) && AddressOf(was, a, id) != AddressOf(was, b, id)
  }

  ghost predicate Agree(was: Files, a: Job, b: Job) {
    forall id :: !Contended(was, a, b, id)
  }

  /** The second thread works below everything the first one fills. */
  ghost predicate Apart(was: Files, a: Job, b: Job) {
    b.start <= a.start - Room(was, a)
  }

  /** How far a thread has come. */
  function Stored(j: Job, t: Thread): int {
    j.start - t.id
  }

  /** The thread has stored its first addresses and is at the next one. */
  ghost predicate Follows(was: Files, j: Job, t: Thread) {
    && 0 <= Stored(j, t) <= Room(was, j)
    && (!t.phase.Stopped? ==> t.id >= 0)
    && (t.phase.Ready? ==> t.cursor == After(j.cursor, j.minNum, Stored(j, t)))
    && (t.phase.Checking? || t.phase.Writing? ==>
          t.phase.url == HandOne(After(j.cursor, j.minNum, Stored(j, t)), j.minNum).0 &&
          t.cursor == After(j.cursor, j.minNum, Stored(j, t) + 1))
    && (t.phase.Writing? ==> Stored(j, t) < Room(was, j))
  }

  /** The thread has stored a document under this id already. */
  predicate Done(was: Files, j: Job, t: Thread, id: int) {
    Fills(was, j, id) && id > t.id
  }

  /** A thread stops when it has filled all its ids, or at an id filled by then. */
  ghost predicate Rested(was: Files, j: Job, t: Thread, files: Files) {
    t.phase.Stopped? ==> Stored(j, t) == Room(was, j) || t.id in files
  }

  /** The address is the one stored under the id before, or one that a thread is to store there. */
  ghost predicate Held(was: Files, a: Job, b: Job, id: int, url: Url) {
    if id in was then url == was[id].url
    else (Fills(was, a, id) && url == AddressOf(was, a, id)) || (Fills(was, b, id) && url == AddressOf(was, b, id))
  }

  /** What is stored under the id: what was, or what a thread has put there. */
  ghost predicate Right(s: State, was: Files, a: Job, b: Job, id: int) {
    && (id in s.files <==> id in was || Done(was, a, s.first, id) || Done(was, b, s.second, id))
    && (id in s.files ==> Held(was, a, b, id, s.files[id].url))
  }

  ghost predicate Inv(s: State, was: Files, a: Job, b: Job) {
    && Follows(was, a, s.first) && Rested(was, a, s.first, s.files)
    && Follows(was, b, s.second) && Rested(was, b, s.second, s.files)
    && (s.refresher.Some? ==>
          s.refresher.value.id in s.files && Held(was, a, b, s.refresher.value.id, s.refresher.value.url))
    && forall id :: Right(s, was, a, b, id)
  }

  lemma {:induction false} HandedAt(c: Cursor, minNum: int, n: nat, i: nat)
    requires i < n
    ensures Handed(c, minNum, n)[i] == HandOne(After(c, minNum, i), minNum).0
    ensures After(c, minNum, i + 1) == HandOne(After(c, minNum, i), minNum).1
    decreases n
  {
    var c' := HandOne(c, minNum).1;
    if i > 0 {
      HandedAt(c', minNum, n - 1, i - 1);
    } else {
      assert After(c', minNum, 0) == c';
    }
  }

  lemma {:induction false} AfterNext(c: Cursor, minNum: int, i: nat)
    ensures After(c, minNum, i + 1) == HandOne(After(c, minNum, i), minNum).1
    decreases i
  {
    var c' := HandOne(c, minNum).1;
    if i > 0 {
      AfterNext(c', minNum, i - 1);
    } else {
      assert After(c', minNum, 0) == c';
    }
  }

  /** A step of a thread, whatever others have stored in the meantime. */
  lemma AdvanceFollows(was: Files, j: Job, t: Thread, files: Files, web: Web, fetch: nat)
    requires 0 <= j.start && Follows(was, j, t) && !t.phase.Stopped? && was.Keys <= files.Keys
    ensures var (t', doc) := Advance(t, j.minNum, files, web, fetch);
            && Follows(was, j, t') && Rested(was, j, t', files)
            && (doc.None? ==> t'.id == t.id)
            && (doc.Some? ==> t'.id == t.id - 1 && Fills(was, j, t.id) && t.id !in was && doc.value.meta.idid == t.id
                              && doc.value.url == AddressOf(was, j, t.id))
  {
    hide HandOne, Handed, After, Free;
    FreeIsFree(was, j.start);
    AfterNext(j.cursor, j.minNum, Stored(j, t));
    if t.phase.Writing? {
      HandedAt(j.cursor, j.minNum, Room(was, j), Stored(j, t));
    }
  }

  /** The threads' places in each other's stead. */
  function Swapped(s: State): State {
    State(s.files, s.fetches, s.second, s.first, s.refresher)
  }

  lemma SwappedInv(s: State, was: Files, a: Job, b: Job)
    requires Inv(s, was, a, b)
    ensures Inv(Swapped(s), was, b, a)
  {
    hide Follows, Fills, AddressOf;
    forall id ensures Right(Swapped(s), was, b, a, id) {
      assert Right(s, was, a, b, id);
    }
  }

  lemma OldIdsStay(s: State, was: Files, a: Job, b: Job)
    requires Inv(s, was, a, b)
    ensures was.Keys <= s.files.Keys
  {
    hide Follows, Fills, Held, Rested;
    forall id | id in was ensures id in s.files {
      assert Right(s, was, a, b, id);
    }
  }

  lemma FirstKeeps(s: State, web: Web, was: Files, a: Job, b: Job)
    requires Inv(s, was, a, b) && 0 <= a.start && !s.first.phase.Stopped?
    ensures Inv(Do(s, First, web, a, b).value, was, a, b)
  {
    OldIdsStay(s, was, a, b);
    AdvanceFollows(was, a, s.first, s.files, web, s.fetches);
    hide Follows, Advance, AddressOf, Room;
    var s' := Do(s, First, web, a, b).value;
    forall id ensures Right(s', was, a, b, id) {
      assert Right(s, was, a, b, id);
    }
  }

  lemma SecondKeeps(s: State, web: Web, was: Files, a: Job, b: Job)
    requires Inv(s, was, a, b) && 0 <= b.start && !s.second.phase.Stopped?
    ensures Inv(Do(s, Second, web, a, b).value, was, a, b)
  {
    hide Inv, Advance;
    SwappedInv(s, was, a, b);
    FirstKeeps(Swapped(s), web, was, b, a);
    SwappedInv(Do(Swapped(s), First, web, b, a).value, was, b, a);
  }

  lemma RefresherKeeps(s: State, step: Step, web: Web, was: Files, a: Job, b: Job)
    requires Inv(s, was, a, b) && !step.First? && !step.Second? && Do(s, step, web, a, b).Some?
    ensures Inv(Do(s, step, web, a, b).value, was, a, b)
  {
    hide Follows, AddressOf, Fills;
    var s' := Do(s, step, web, a, b).value;
    forall id ensures Right(s', was, a, b, id) {
      assert Right(s, was, a, b, id);
    }
    if step.Pick? {
      assert Right(s, was, a, b, step.id);
    }
  }

  lemma StepKeeps(s: State, step: Step, web: Web, was: Files, a: Job, b: Job)
    requires Inv(s, was, a, b) && 0 <= a.start && 0 <= b.start && Do(s, step, web, a, b).Some?
    ensures Inv(Do(s, step, web, a, b).value, was, a, b)
  {
    hide Inv, Advance, Write;
    match step
    case First => FirstKeeps(s, web, was, a, b);
    case Second => SecondKeeps(s, web, was, a, b);
    case _ => RefresherKeeps(s, step, web, was, a, b);
  }

  lemma {:induction false} RunKeeps(s: State, steps: seq<Step>, web: Web, was: Files, a: Job, b: Job)
    requires Inv(s, was, a, b) && 0 <= a.start && 0 <= b.start && Exec(s, steps, web, a, b).Some?
    ensures Inv(Exec(s, steps, web, a, b).value, was, a, b)
    decreases |steps|
  {
    hide Inv, Do;
    if steps != [] {
      StepKeeps(s, steps[0], web, was, a, b);
      RunKeeps(Do(s, steps[0], web, a, b).value, steps[1..], web, was, a, b);
    }
  }

  lemma StartInv(was: Files, a: Job, b: Job)
    requires 0 <= a.start && 0 <= b.start
    ensures Inv(Start(was, a, b), was, a, b)
  {
    assert After(a.cursor, a.minNum, 0) == a.cursor && After(b.cursor, b.minNum, 0) == b.cursor;
  }

  // ----- What is stored in the end -----

  lemma FillsIsFree(was: Files, j: Job, id: int)
    requires 0 <= j.start
    ensures Fills(was, j, id) ==> id !in was && id >= 0
  {
    FreeIsFree(was, j.start);
  }

  /** Two threads fill the same ids below one that both fill. */
  lemma FillsTogether(was: Files, a: Job, b: Job, id: int, top: int)
    requires 0 <= a.start && 0 <= b.start && Fills(was, a, id) && Fills(was, a, top) && Fills(was, b, top) && id <= top
    ensures Fills(was, b, id)
  {
    FreeIsFree(was, a.start);
    FreeIsFree(was, b.start);
  }

  /** The first thread does not leave an id of its own empty: it stopped at one the second had filled, and then
    * the second went on below. */
  lemma FirstFillsAll(s: State, was: Files, a: Job, b: Job, id: int)
    requires Inv(s, was, a, b) && 0 <= a.start && 0 <= b.start && BothStopped(s) && Fills(was, a, id)
    ensures id in s.files
  {
    hide AddressOf, Room, Held;
    assert Right(s, was, a, b, id);
    if id !in s.files {
      var top := s.first.id;
      assert Right(s, was, a, b, top);
      FillsIsFree(was, a, top);
      FillsTogether(was, a, b, id, top);
      assert Right(s, was, a, b, s.second.id);
      FillsIsFree(was, a, s.second.id);
      assert false;
    }
  }

  /** Whatever the two threads have to fill, and however their steps and the refresher's interleave: when both
    * have stopped, the ids they were to fill are filled and no others, each under an address that one of them
    * had for it, and what was stored before has its address still. */
  lemma EveryRaceStores(steps: seq<Step>, web: Web, was: Files, a: Job, b: Job)
    requires 0 <= a.start && 0 <= b.start && Exec(Start(was, a, b), steps, web, a, b).Some?
    requires BothStopped(Exec(Start(was, a, b), steps, web, a, b).value)
    ensures var now := Exec(Start(was, a, b), steps, web, a, b).value.files;
            forall id :: && (id in now <==> id in was || Fills(was, a, id) || Fills(was, b, id))
                         && (id in now ==> Held(was, a, b, id, now[id].url))
  {
    StartInv(was, a, b);
    RunKeeps(Start(was, a, b), steps, web, was, a, b);
    var s := Exec(Start(was, a, b), steps, web, a, b).value;
    SwappedInv(s, was, a, b);
    hide Exec, AddressOf, Room, Held, Follows, Rested;
    forall id
      ensures id in s.files <==> id in was || Fills(was, a, id) || Fills(was, b, id)
      ensures id in s.files ==> Held(was, a, b, id, s.files[id].url)
    {
      assert Right(s, was, a, b, id);
      if Fills(was, a, id) {
        FirstFillsAll(s, was, a, b, id);
      }
      if Fills(was, b, id) {
        FirstFillsAll(Swapped(s), was, b, a, id);
      }
    }
  }

  // ----- A stored document changes its address -----

  /** Between two moments of a run the address stored under the id changes. */
  ghost predicate ChangesOver(web: Web, was: Files, a: Job, b: Job, id: int, one: seq<Step>, more: seq<Step>) {
    && Exec(Start(was, a, b), one, web, a, b).Some?
    && var s := Exec(Start(was, a, b), one, web, a, b).value;
       && Exec(s, more, web, a, b).Some?
       && var s' := Exec(s, more, web, a, b).value;
          id in s.files && id in s'.files && s.files[id].url != s'.files[id].url
  }

  ghost predicate AddressChanges(web: Web, was: Files, a: Job, b: Job, id: int) {
    exists one, more :: ChangesOver(web, was, a, b, id, one, more)
  }

  lemma OnlyContendedChange(web: Web, was: Files, a: Job, b: Job, id: int, one: seq<Step>, more: seq<Step>)
    requires 0 <= a.start && 0 <= b.start && ChangesOver(web, was, a, b, id, one, more)
    ensures Contended(was, a, b, id)
  {
    var s := Exec(Start(was, a, b), one, web, a, b).value;
    StartInv(was, a, b);
    RunKeeps(Start(was, a, b), one, web, was, a, b);
    RunKeeps(s, more, web, was, a, b);
    hide Exec, AddressOf, Fills, Follows, Rested;
    assert Right(s, was, a, b, id) && Right(Exec(s, more, web, a, b).value, was, a, b, id);
  }

  /** Both threads are about to take an address for an id not below this one, and nothing on their way down to it
    * is stored. */
  ghost predicate Poised(s: State, id: int) {
    && s.first.phase.Ready? && s.second.phase.Ready? && s.first.id >= id && s.second.id >= id
    && (forall i :: id <= i <= s.first.id ==> i !in s.files)
    && (forall i :: id <= i <= s.second.id ==> i !in s.files)
  }

  /** A thread alone takes three steps to store a document. */
  lemma FirstStoresOne(s: State, web: Web, a: Job, b: Job)
    requires s.first.phase.Ready? && s.first.id > 0 && s.first.id !in s.files
    ensures Exec(s, [First, First, First], web, a, b).Some?
    ensures var s' := Exec(s, [First, First, First], web, a, b).value;
            && s'.first.phase.Ready? && s'.first.id == s.first.id - 1 && s'.second == s.second
            && s'.files.Keys == s.files.Keys + {s.first.id}
  {
    hide HandOne;
    var s1 := Do(s, First, web, a, b).value;
    var s2 := Do(s1, First, web, a, b).value;
    var s3 := Do(s2, First, web, a, b).value;
    ExecStep(s, First, [First] + ([First] + []), web, a, b);
    ExecStep(s1, First, [First] + [], web, a, b);
    ExecStep(s2, First, [], web, a, b);
    assert [First] + ([First] + ([First] + [])) == [First, First, First];
  }

  lemma SecondStoresOne(s: State, web: Web, a: Job, b: Job)
    requires s.second.phase.Ready? && s.second.id > 0 && s.second.id !in s.files
    ensures Exec(s, [Second, Second, Second], web, a, b).Some?
    ensures var s' := Exec(s, [Second, Second, Second], web, a, b).value;
            && s'.second.phase.Ready? && s'.second.id == s.second.id - 1 && s'.first == s.first
            && s'.files.Keys == s.files.Keys + {s.second.id}
  {
    hide HandOne;
    var s1 := Do(s, Second, web, a, b).value;
    var s2 := Do(s1, Second, web, a, b).value;
    var s3 := Do(s2, Second, web, a, b).value;
    ExecStep(s, Second, [Second] + ([Second] + []), web, a, b);
    ExecStep(s1, Second, [Second] + [], web, a, b);
    ExecStep(s2, Second, [], web, a, b);
    assert [Second] + ([Second] + ([Second] + [])) == [Second, Second, Second];
  }

  const IN_STEP := [First, Second, First, Second, First]

  /** At the same free id, both look before either writes: the first one's address is stored, and then the second
    * one's. */
  lemma InStep(s: State, web: Web, a: Job, b: Job)
    requires s.first.phase.Ready? && s.second.phase.Ready? && 0 <= s.first.id == s.second.id && s.first.id !in s.files
    ensures Exec(s, IN_STEP, web, a, b).Some?
    ensures var s' := Exec(s, IN_STEP, web, a, b).value;
            && s.first.id in s'.files && s'.files[s.first.id].url == HandOne(s.first.cursor, a.minNum).0
            && Do(s', Second, web, a, b).Some?
            && var s'' := Do(s', Second, web, a, b).value;
               && s.first.id in s''.files && s''.files[s.first.id].url == HandOne(s.second.cursor, b.minNum).0
               && s''.first.id == s''.second.id == s.first.id - 1
               && (s.first.id > 0 ==> s''.first.phase.Ready? && s''.second.phase.Ready?)
               && s''.files.Keys == s.files.Keys + {s.first.id}
  {
    hide HandOne;
    var s1 := Do(s, First, web, a, b).value;
    var s2 := Do(s1, Second, web, a, b).value;
    var s3 := Do(s2, First, web, a, b).value;
    var s4 := Do(s3, Second, web, a, b).value;
    var s5 := Do(s4, First, web, a, b).value;
    ExecStep(s, First, [Second] + ([First] + ([Second] + ([First] + []))), web, a, b);
    ExecStep(s1, Second, [First] + ([Second] + ([First] + [])), web, a, b);
    ExecStep(s2, First, [Second] + ([First] + []), web, a, b);
    ExecStep(s3, Second, [First] + [], web, a, b);
    ExecStep(s4, First, [], web, a, b);
    assert [First] + ([Second] + ([First] + ([Second] + ([First] + [])))) == IN_STEP;
  }

  /** From a poised state the threads can come to stand at the id together. */
  lemma {:induction false} Meet(s: State, web: Web, a: Job, b: Job, id: int) returns (steps: seq<Step>)
    requires 0 <= id && Poised(s, id)
    ensures Exec(s, steps, web, a, b).Some?
    ensures var s' := Exec(s, steps, web, a, b).value; Poised(s', id) && s'.first.id == s'.second.id == id
    decreases s.first.id + s.second.id - 2 * id
  {
    hide Do;
    if s.first.id == s.second.id == id {
      steps := [];
    } else {
      var head;
      if s.first.id > s.second.id {
        head := [First, First, First];
        FirstStoresOne(s, web, a, b);
      } else if s.first.id < s.second.id {
        head := [Second, Second, Second];
        SecondStoresOne(s, web, a, b);
      } else {
        head := IN_STEP + [Second];
        InStep(s, web, a, b);
        ExecConcat(s, IN_STEP, [Second], web, a, b);
        ExecStep(Exec(s, IN_STEP, web, a, b).value, Second, [], web, a, b);
        assert [Second] + [] == [Second];
      }
      var s' := Exec(s, head, web, a, b).value;
      var rest := Meet(s', web, a, b, id);
      ExecConcat(s, head, rest, web, a, b);
      steps := head + rest;
    }
  }

  /** A schedule after which the first thread's address is stored under the id, and is replaced by the second
    * one's at the next step. */
  lemma Collide(web: Web, was: Files, a: Job, b: Job, id: int) returns (steps: seq<Step>)
    requires 0 <= a.start && 0 <= b.start && Fills(was, a, id) && Fills(was, b, id)
    ensures Exec(Start(was, a, b), steps, web, a, b).Some?
    ensures var s := Exec(Start(was, a, b), steps, web, a, b).value;
            && id in s.files && s.files[id].url == AddressOf(was, a, id)
            && Do(s, Second, web, a, b).Some?
            && var s' := Do(s, Second, web, a, b).value;
               id in s'.files && s'.files[id].url == AddressOf(was, b, id) && s'.first.id < id && s'.second.id < id
  {
    FreeIsFree(was, a.start);
    FreeIsFree(was, b.start);
    var start := Start(was, a, b);
    hide Do, Exec, AddressOf, Inv;
    var meet := Meet(start, web, a, b, id);
    var met := Exec(start, meet, web, a, b).value;
    StartInv(was, a, b);
    RunKeeps(start, meet, web, was, a, b);
    InStep(met, web, a, b);
    ExecConcat(start, meet, IN_STEP, web, a, b);
    AddressWhenReady(met, was, a, b, id);
    steps := meet + IN_STEP;
  }

  lemma AddressWhenReady(s: State, was: Files, a: Job, b: Job, id: int)
    requires Inv(s, was, a, b) && Fills(was, a, id) && Fills(was, b, id)
    requires s.first.phase.Ready? && s.second.phase.Ready? && s.first.id == s.second.id == id
    ensures HandOne(s.first.cursor, a.minNum).0 == AddressOf(was, a, id)
    ensures HandOne(s.second.cursor, b.minNum).0 == AddressOf(was, b, id)
  {
    hide Handed, HandOne, After, Right;
    HandedAt(a.cursor, a.minNum, Room(was, a), a.start - id);
    HandedAt(b.cursor, b.minNum, Room(was, b), b.start - id);
  }

  /** In some run the address stored under the id changes, exactly when both threads are to fill it, under
    * different addresses. */
  lemma AddressChangesIff(web: Web, was: Files, a: Job, b: Job, id: int)
    requires 0 <= a.start && 0 <= b.start
    ensures AddressChanges(web, was, a, b, id) <==> Contended(was, a, b, id)
  {
    hide Exec, Do, AddressOf, Fills;
    if AddressChanges(web, was, a, b, id) {
      var one, more :| ChangesOver(web, was, a, b, id, one, more);
      OnlyContendedChange(web, was, a, b, id, one, more);
    }
    if Contended(was, a, b, id) {
      var one := Collide(web, was, a, b, id);
      ExecStep(Exec(Start(was, a, b), one, web, a, b).value, Second, [], web, a, b);
      NoSteps(Do(Exec(Start(was, a, b), one, web, a, b).value, Second, web, a, b).value, web, a, b);
      assert [Second] + [] == [Second];
      assert ChangesOver(web, was, a, b, id, one, [Second]);
    }
  }

  lemma NoSteps(s: State, web: Web, a: Job, b: Job)
    ensures Exec(s, [], web, a, b) == Some(s)
  {
  }

  // ----- Both threads stop -----

  function StepsLeft(was: Files, j: Job, t: Thread): int {
    3 * (Room(was, j) - Stored(j, t)) + match t.phase case Ready => 2 case Checking(_) => 1 case _ => 0
  }

  lemma StepsLeftIsNat(was: Files, j: Job, t: Thread)
    requires Follows(was, j, t)
    ensures StepsLeft(was, j, t) >= 0
  {
  }

  lemma AdvanceCounts(was: Files, j: Job, t: Thread, files: Files, web: Web, fetch: nat)
    requires 0 <= j.start && Follows(was, j, t) && !t.phase.Stopped? && was.Keys <= files.Keys
    ensures 0 <= StepsLeft(was, j, Advance(t, j.minNum, files, web, fetch).0) < StepsLeft(was, j, t)
  {
    hide HandOne, Handed, After, Free, AddressOf;
    AdvanceFollows(was, j, t, files, web, fetch);
  }

  /** Steps of the two threads in a schedule. */
  function ThreadSteps(steps: seq<Step>): nat {
    if steps == [] then 0 else (if steps[0].First? || steps[0].Second? then 1 else 0) + ThreadSteps(steps[1..])
  }

  lemma StepCounts(s: State, step: Step, web: Web, was: Files, a: Job, b: Job)
    requires Inv(s, was, a, b) && 0 <= a.start && 0 <= b.start && Do(s, step, web, a, b).Some?
    ensures var s' := Do(s, step, web, a, b).value;
            StepsLeft(was, a, s'.first) + StepsLeft(was, b, s'.second) + (if step.First? || step.Second? then 1 else 0)
            <= StepsLeft(was, a, s.first) + StepsLeft(was, b, s.second)
  {
    hide StepsLeft, Advance, Follows, Right, Rested, Held;
    OldIdsStay(s, was, a, b);
    if step.First? {
      AdvanceCounts(was, a, s.first, s.files, web, s.fetches);
    } else if step.Second? {
      AdvanceCounts(was, b, s.second, s.files, web, s.fetches);
    }
  }

  lemma {:induction false} RunIsShort(s: State, steps: seq<Step>, web: Web, was: Files, a: Job, b: Job)
    requires Inv(s, was, a, b) && 0 <= a.start && 0 <= b.start && Exec(s, steps, web, a, b).Some?
    ensures ThreadSteps(steps) <= StepsLeft(was, a, s.first) + StepsLeft(was, b, s.second)
    decreases |steps|
  {
    if steps == [] {
      StepsLeftIsNat(was, a, s.first);
      StepsLeftIsNat(was, b, s.second);
    } else {
      StepKeeps(s, steps[0], web, was, a, b);
      StepCounts(s, steps[0], web, was, a, b);
      hide Inv, Do, StepsLeft;
      RunIsShort(Do(s, steps[0], web, a, b).value, steps[1..], web, was, a, b);
    }
  }

  /** A thread that has not stopped can always take a step, and in no run do the two take more than three steps
    * for each document they have to store and two more each. */
  lemma EveryRaceEnds(steps: seq<Step>, web: Web, was: Files, a: Job, b: Job)
    requires 0 <= a.start && 0 <= b.start && Exec(Start(was, a, b), steps, web, a, b).Some?
    ensures ThreadSteps(steps) <= 3 * (Room(was, a) + Room(was, b)) + 4
    ensures var s := Exec(Start(was, a, b), steps, web, a, b).value;
            && (Do(s, First, web, a, b).Some? <==> !s.first.phase.Stopped?)
            && (Do(s, Second, web, a, b).Some? <==> !s.second.phase.Stopped?)
  {
    StartInv(was, a, b);
    RunIsShort(Start(was, a, b), steps, web, was, a, b);
  }

  /** The two threads can be run to their end; ids above both of them are not written any more. */
  lemma {:induction false} RunOut(s: State, web: Web, was: Files, a: Job, b: Job) returns (steps: seq<Step>)
    requires Inv(s, was, a, b) && 0 <= a.start && 0 <= b.start
    ensures Exec(s, steps, web, a, b).Some? && BothStopped(Exec(s, steps, web, a, b).value)
    ensures forall id :: id in s.files && id > s.first.id && id > s.second.id ==>
              var now := Exec(s, steps, web, a, b).value.files; id in now && now[id] == s.files[id]
    decreases StepsLeft(was, a, s.first) + StepsLeft(was, b, s.second)
  {
    StepsLeftIsNat(was, a, s.first);
    StepsLeftIsNat(was, b, s.second);
    hide StepsLeft, HandOne, Inv;
    if BothStopped(s) {
      steps := [];
    } else {
      var step := if s.first.phase.Stopped? then Second else First;
      StepKeeps(s, step, web, was, a, b);
      StepCounts(s, step, web, was, a, b);
      var s' := Do(s, step, web, a, b).value;
      var rest := RunOut(s', web, was, a, b);
      ExecStep(s, step, rest, web, a, b);
      steps := [step] + rest;
    }
  }

  // ----- One after the other -----

  /** The same addresses are stored under the same ids; the documents may be of different fetches. */
  ghost predicate SameAddresses(x: Files, y: Files) {
    x.Keys == y.Keys && forall id :: id in x ==> x[id].url == y[id].url
  }

  /** What the first thread leaves alone, and then the second one alone. */
  function OneAfterTheOther(web: Web, was: Files, a: Job, b: Job, f: nat, g: nat): Files {
    StoreDown(web, StoreDown(web, was, a.start, a.cursor, a.minNum, f), b.start, b.cursor, b.minNum, g)
  }

  /** What a thread leaves alone, id by id. */
  lemma AloneAt(web: Web, was: Files, j: Job, f: nat, id: int)
    requires 0 <= j.start
    ensures var now := StoreDown(web, was, j.start, j.cursor, j.minNum, f);
            && (id in now <==> id in was || Fills(was, j, id))
            && (id in was ==> now[id] == was[id])
            && (Fills(was, j, id) ==> now[id].url == AddressOf(was, j, id))
  {
    hide StoreDown, Handed, HandOne, Free;
    StoreDownFills(web, was, j.start, j.cursor, j.minNum, f);
    var now := StoreDown(web, was, j.start, j.cursor, j.minNum, f);
    if Fills(was, j, id) {
      assert now[j.start - (j.start - id)].url == Handed(j.cursor, j.minNum, Room(was, j))[j.start - id];
    }
  }

  /** Where ids were taken in the meantime, a thread fills fewer, under the same addresses. */
  lemma FillsFewer(was: Files, one: Files, j: Job, id: int)
    requires 0 <= j.start && (forall i :: i in was ==> i in one) && Fills(one, j, id)
    ensures Fills(was, j, id) && AddressOf(one, j, id) == AddressOf(was, j, id)
  {
    FreeIsFree(was, j.start);
    FreeIsFree(one, j.start);
    hide Free, Handed, HandOne;
    HandedAt(j.cursor, j.minNum, Room(was, j), j.start - id);
    HandedAt(j.cursor, j.minNum, Room(one, j), j.start - id);
  }

  /** The second thread fills what the first one leaves of its ids. */
  lemma FillsTheRest(was: Files, one: Files, a: Job, b: Job, id: int)
    requires 0 <= a.start && 0 <= b.start
    requires forall i :: i in one <==> i in was || Fills(was, a, i)
    ensures Fills(one, b, id) <==> Fills(was, b, id) && !Fills(was, a, id)
  {
    FreeIsFree(one, b.start);
    hide AddressOf;
    if Fills(one, b, id) {
      FillsFewer(was, one, b, id);
    } else if Fills(was, b, id) && !Fills(was, a, id) {
      var top := b.start - Room(one, b);
      FreeIsFree(was, b.start);
      assert Fills(was, b, top);
      FillsTogether(was, b, a, id, top);
      assert false;
    }
  }

  lemma OneAfterTheOtherAt(web: Web, was: Files, a: Job, b: Job, f: nat, g: nat, id: int)
    requires 0 <= a.start && 0 <= b.start
    ensures var now := OneAfterTheOther(web, was, a, b, f, g);
            && (id in now <==> id in was || Fills(was, a, id) || Fills(was, b, id))
            && (id in was ==> now[id].url == was[id].url)
            && (Fills(was, a, id) ==> now[id].url == AddressOf(was, a, id))
            && (Fills(was, b, id) && !Fills(was, a, id) ==> now[id].url == AddressOf(was, b, id))
  {
    hide StoreDown, Fills, AddressOf;
    var one := StoreDown(web, was, a.start, a.cursor, a.minNum, f);
    forall i ensures i in one <==> i in was || Fills(was, a, i) {
      AloneAt(web, was, a, f, i);
    }
    AloneAt(web, was, a, f, id);
    AloneAt(web, one, b, g, id);
    FillsTheRest(was, one, a, b, id);
    if Fills(one, b, id) {
      FillsFewer(was, one, b, id);
    }
  }

  /** However the steps of two threads that agree and of the refresher interleave, when both threads have stopped
    * the store has the addresses it would have if they had run alone, one after the other. */
  lemma EveryRaceIsSequential(steps: seq<Step>, web: Web, was: Files, a: Job, b: Job, f: nat, g: nat)
    requires 0 <= a.start && 0 <= b.start && Agree(was, a, b) && Exec(Start(was, a, b), steps, web, a, b).Some?
    requires BothStopped(Exec(Start(was, a, b), steps, web, a, b).value)
    ensures SameAddresses(Exec(Start(was, a, b), steps, web, a, b).value.files, OneAfterTheOther(web, was, a, b, f, g))
  {
    EveryRaceStores(steps, web, was, a, b);
    var x, y := Exec(Start(was, a, b), steps, web, a, b).value.files, OneAfterTheOther(web, was, a, b, f, g);
    hide Exec, OneAfterTheOther, AddressOf, Fills;
    forall id
      ensures id in x <==> id in y
      ensures id in x ==> x[id].url == y[id].url
    {
      OneAfterTheOtherAt(web, was, a, b, f, g, id);
      assert !Contended(was, a, b, id);
      if id in x {
        assert Held(was, a, b, id, x[id].url);
        FillsIsFree(was, a, id);
        FillsIsFree(was, b, id);
      }
    }
  }

  /** Every complete run leaves the addresses of the two threads one after the other. */
  ghost predicate AlwaysSequential(web: Web, was: Files, a: Job, b: Job, f: nat, g: nat) {
    forall steps :: SequentialRun(web, was, a, b, f, g, steps)
  }

  ghost predicate SequentialRun(web: Web, was: Files, a: Job, b: Job, f: nat, g: nat, steps: seq<Step>) {
    Exec(Start(was, a, b), steps, web, a, b).Some? && BothStopped(Exec(Start(was, a, b), steps, web, a, b).value) ==>
      SameAddresses(Exec(Start(was, a, b), steps, web, a, b).value.files, OneAfterTheOther(web, was, a, b, f, g))
  }

  /** And that is so in every run exactly when the two have the same address for every id that both are to fill. */
  lemma AlwaysSequentialIff(web: Web, was: Files, a: Job, b: Job, f: nat, g: nat)
    requires 0 <= a.start && 0 <= b.start
    ensures AlwaysSequential(web, was, a, b, f, g) <==> Agree(was, a, b)
  {
    hide Exec, Do, OneAfterTheOther, Contended;
    if Agree(was, a, b) {
      forall steps ensures SequentialRun(web, was, a, b, f, g, steps) {
        if Exec(Start(was, a, b), steps, web, a, b).Some? && BothStopped(Exec(Start(was, a, b), steps, web, a, b).value) {
          EveryRaceIsSequential(steps, web, was, a, b, f, g);
        }
      }
    } else {
      var id :| Contended(was, a, b, id);
      var steps := SecondAddressStays(web, was, a, b, f, g, id);
      assert !SequentialRun(web, was, a, b, f, g, steps);
    }
  }

  lemma SecondAddressStays(web: Web, was: Files, a: Job, b: Job, f: nat, g: nat, id: int) returns (steps: seq<Step>)
    requires 0 <= a.start && 0 <= b.start && Contended(was, a, b, id)
    ensures !SequentialRun(web, was, a, b, f, g, steps)
  {
    var start := Start(was, a, b);
    var one := Collide(web, was, a, b, id);
    var s := Exec(start, one, web, a, b).value;
    StartInv(was, a, b);
    RunKeeps(start, one, web, was, a, b);
    StepKeeps(s, Second, web, was, a, b);
    hide Exec, Do, Inv, AddressOf, Fills, OneAfterTheOther;
    var s' := Do(s, Second, web, a, b).value;
    var rest := RunOut(s', web, was, a, b);
    ExecStep(s, Second, rest, web, a, b);
    ExecConcat(start, one, [Second] + rest, web, a, b);
    OneAfterTheOtherAt(web, was, a, b, f, g, id);
    steps := one + ([Second] + rest);
  }

  // ----- A round of the listener -----

  /** The thread that fetches n new documents. */
  function FetchJob(was: Files, maxId: int, pages: Pages, n: nat): Job
    requires ValidFiles(was, maxId) && AllNamed(was)
  {
    Job(maxId + n, Cursor(Reverse(Page(pages, |pages|)) + Down(pages, |pages| - 1), Unnamed), NewestNum(was, maxId))
  }

  /** The thread that fills old documents in below id o, with page p found for it. */
  function FillJob(was: Files, o: int, pages: Pages, p: nat): Job
    requires o in was && !was[o].url.Unnamed?
  {
    Job(o - 1, Cursor(OldPending(pages, p, Num(was[o].url), |pages|), was[o].url), -2)
  }

  lemma ApartAgree(was: Files, a: Job, b: Job)
    requires Apart(was, a, b)
    ensures Agree(was, a, b)
  {
  }

  /** The two threads of a round work at the same time, and the refresher with them; once both have stopped, the
    * addresses stored are those of a run that fetches first and then fills. */
  lemma RoundIsSequential(
    steps: seq<Step>, web: Web, was: Files, maxId: int, n: nat, o: int, pages: Pages, p: nat, f: nat, g: nat)
    requires ValidFiles(was, maxId) && AllNamed(was) && 0 < o && o in was
    requires var a, b := FetchJob(was, maxId, pages, n), FillJob(was, o, pages, p);
             && Exec(Start(was, a, b), steps, web, a, b).Some?
             && BothStopped(Exec(Start(was, a, b), steps, web, a, b).value)
    ensures var a, b := FetchJob(was, maxId, pages, n), FillJob(was, o, pages, p);
            var fetched := FetchedFiles(web, was, maxId, pages, n, f);
            && o in fetched && fetched[o].url == was[o].url
            && SameAddresses(Exec(Start(was, a, b), steps, web, a, b).value.files, OldFiles(web, fetched, o, pages, p, g))
  {
    hide Exec, StoreDown, Down, Reverse, OldPending, SameAddresses, Handed;
    var a, b := FetchJob(was, maxId, pages, n), FillJob(was, o, pages, p);
    FreeAboveNewest(was, maxId, n);
    ApartAgree(was, a, b);
    EveryRaceIsSequential(steps, web, was, a, b, f, g);
    AloneAt(web, was, a, f, o);
  }

  // ----- Rounds that overlap -----

  /** A round's thread is about to store u as the first document, when a thread of the next round does the same
    * with v: u is stored under id 0, and then v in its place. */
  lemma TwoFirstDocuments(web: Web, u: Href, v: Href)
    requires u != v
    ensures var a, b := Job(0, Cursor([u], Unnamed), -2), Job(0, Cursor([v], Unnamed), -2);
            && Exec(Start(map[], a, b), IN_STEP, web, a, b).Some?
            && var s := Exec(Start(map[], a, b), IN_STEP, web, a, b).value;
               && 0 in s.files && s.files[0].url == u
               && Do(s, Second, web, a, b).Some?
               && var s' := Do(s, Second, web, a, b).value; 0 in s'.files && s'.files[0].url == v
    ensures AddressChanges(web, map[], Job(0, Cursor([u], Unnamed), -2), Job(0, Cursor([v], Unnamed), -2), 0)
  {
    hide Exec, Do, AddressChanges;
    var a, b := Job(0, Cursor([u], Unnamed), -2), Job(0, Cursor([v], Unnamed), -2);
    InStep(Start(map[], a, b), web, a, b);
    AddressChangesIff(web, map[], a, b, 0);
    assert Handed(a.cursor, -2, 1) == [u] && Handed(b.cursor, -2, 1) == [v];
  }

  /** What a thread has left to do when it has stored k documents. */
  function Rest(j: Job, k: nat): Job {
    Job(j.start - k, After(j.cursor, j.minNum, k), j.minNum)
  }

  lemma ThreePagesAt(x: Href, y: Href, z: Href, i: int)
    ensures Page([[x], [y], [z]], i) == if i == 1 then [x] else if i == 2 then [y] else if i == 3 then [z] else []
  {
  }

  lemma ThreePagesSorted(x: Href, y: Href, z: Href)
    requires Num(x) < Num(y) < Num(z)
    ensures SortedPages([[x], [y], [z]]) && Holds([[x], [y], [z]], 2, Num(y))
  {
    hide Num, Page;
    forall i
      ensures Page([[x], [y], [z]], i) == if i == 1 then [x] else if i == 2 then [y] else if i == 3 then [z] else []
    {
      ThreePagesAt(x, y, z, i);
    }
  }

  lemma ThreePagesDown(x: Href, y: Href, z: Href)
    ensures Down([[x], [y], [z]], 2) == [y, x]
  {
    var pages := [[x], [y], [z]];
    assert Page(pages, 1) == [x] && Page(pages, 2) == [y];
    assert Reverse([x]) == [x] && Reverse([y]) == [y];
    hide Reverse, Page;
    assert Down(pages, 1) == Reverse(Page(pages, 1)) + Down(pages, 0) == [x];
    assert Down(pages, 2) == Reverse(Page(pages, 2)) + Down(pages, 1) == [y] + [x];
  }

  lemma ThreePages(x: Href, y: Href, z: Href)
    requires Num(x) < Num(y) < Num(z)
    ensures var pages := [[x], [y], [z]];
            && FetchJob(map[], -1, pages, 3) == Job(2, Cursor([z, y, x], Unnamed), -2)
            && OldPending(pages, 2, Num(y), 3) == [y, x]
  {
    var pages := [[x], [y], [z]];
    ThreePagesDown(x, y, z);
    hide Down;
    assert Page(pages, 3) == [z] && Page(pages, 2) == [y] && Reverse([z]) == [z];
    assert [z] + [y, x] == [z, y, x];
    assert [y][1..] == [];
    assert OlderIn([y], Num(y)) == [] && Reverse([]) == [];
    assert [] + [y, x] == [y, x];
  }

  /** A board of three pages, and a round that fetches everything.  When its thread has stored two documents, the
    * next round begins, and starts a thread that fills in below them.  Document 0 gets the right address from
    * the one and then that of document 1 from the other. */
  lemma OverlappingRounds(web: Web, x: Href, y: Href, z: Href, files: Files)
    requires Num(x) < Num(y) < Num(z)
    requires ValidFiles(files, 2) && files.Keys == {1, 2} && files[2].url == z && files[1].url == y
    ensures var pages := [[x], [y], [z]];
            var fetch, fill := FetchJob(map[], -1, pages, 3), FillJob(files, 1, pages, 2);
            && SortedPages(pages) && Holds(pages, 2, Num(y))
            && Handed(fetch.cursor, fetch.minNum, 2) == [z, y]
            && Fills(files, Rest(fetch, 2), 0) && AddressOf(files, Rest(fetch, 2), 0) == x
            && Fills(files, fill, 0) && AddressOf(files, fill, 0) == y
            && AddressChanges(web, files, Rest(fetch, 2), fill, 0)
  {
    hide AddressChanges, SortedPages, Holds, OldPending, FetchJob;
    ThreePagesSorted(x, y, z);
    ThreePages(x, y, z);
    var pages := [[x], [y], [z]];
    var fetch, fill := FetchJob(map[], -1, pages, 3), FillJob(files, 1, pages, 2);
    assert HandOne(fetch.cursor, -2) == (z, Cursor([y, x], z)) && HandOne(Cursor([y, x], z), -2) == (y, Cursor([x], y));
    assert After(fetch.cursor, -2, 2) == After(Cursor([y, x], z), -2, 1) == After(Cursor([x], y), -2, 0) == Cursor([x], y);
    assert Handed(Cursor([x], y), -2, 1) == [x];
    assert Handed(Cursor([y, x], y), -2, 1) == [y];
    assert Handed(Cursor([y, x], z), -2, 1) == [y];
    assert Free(files, 0) == 1;
    AddressChangesIff(web, files, Rest(fetch, 2), fill, 0);
  }
}

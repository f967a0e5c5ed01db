/**
 Handing questions to backend threads: each thread reads its own pipe, and a shared counter says how many
 questions wait.

 Every step is one atomic access to shared data, and steps of senders and workers come in any order.
 */
module Distributor {
  import opened Results

  const COUNTER_LIMIT: nat := 0x1_0000_0000

  /** A sender is outside `question`, or between its increment and its write. */
  datatype Sender = Idle | Counted(id: nat)

  /**
   A worker waits, is between its read and its decrement, has a question before the test of its age, or is
   about to try it on a backend.
   */
  datatype Phase = Reading | Received(id: nat) | Taken(id: nat) | Trying(id: nat, allowRetry: bool)

  datatype Worker = Worker(backend: bool, phase: Phase)

  /** What happens on one try: making a backend, if there is none, and asking it. */
  datatype Try = Try(created: bool, ask: Ask)

  datatype Ask = Throws | Returns(answer: string)

  datatype Reply = FromBackend(answer: string) | ServFail

  /** A try that was made: whether there was a backend at hand, and the answer, None for a failed try. */
  datatype Made = Made(atHand: bool, answer: Option<string>)

  /**
   `answered`, `timedOut` and `unsent` record what became of questions, with multiplicity: `answered` counts
   callbacks.  `tries` holds the tries made for a question, and `replies` what the callback was given.
   */
  datatype State = State(queued: nat, nextId: nat, senders: seq<Sender>, pipes: seq<seq<nat>>, workers: seq<Worker>,
                         answered: multiset<nat>, timedOut: multiset<nat>, unsent: multiset<nat>,
                         tries: map<nat, seq<Made>>, replies: map<nat, Reply>)

  datatype Step =
    | Count(s: nat)
    | Write(s: nat, ok: bool)
    | Read(w: nat)
    | Uncount(w: nat)
    | Judge(w: nat, elapsed: int)
    | Attempt(w: nat, t: Try)

  /** The counter is an unsigned int. */
  function Up(n: nat): nat { (n + 1) % COUNTER_LIMIT }

  function Down(n: nat): nat { (n + COUNTER_LIMIT - 1) % COUNTER_LIMIT }

  /** A limit of zero is no limit. */
  predicate TooLate(limit: nat, elapsed: int) {
    limit != 0 && elapsed > limit * 1000
  }

  predicate Enabled(st: State, step: Step) {
    match step
    case Count(s) => s < |st.senders| && st.senders[s].Idle?
    case Write(s, _) => s < |st.senders| && st.senders[s].Counted? && |st.pipes| > 0
    case Read(w) => w < |st.workers| && w < |st.pipes| && st.workers[w].phase.Reading? && st.pipes[w] != []
    case Uncount(w) => w < |st.workers| && st.workers[w].phase.Received?
    case Judge(w, _) => w < |st.workers| && st.workers[w].phase.Taken?
    case Attempt(w, _) => w < |st.workers| && st.workers[w].phase.Trying?
  }

  function TriesOf(st: State, id: nat): seq<Made> {
    if id in st.tries then st.tries[id] else []
  }

  /** The answer of a try; it fails when a missing backend cannot be made or when asking throws. */
  function Tried(t: Try, haveBackend: bool): Option<string> {
    if (haveBackend || t.created) && t.ask.Returns? then Some(t.ask.answer) else None
  }

  function ReplyFor(a: Option<string>): Reply {
    if a.Some? then FromBackend(a.value) else ServFail
  }

  function Moved(st: State, w: nat, backend: bool, phase: Phase): State
    requires w < |st.workers|
  {
    st.(workers := st.workers[w := Worker(backend, phase)])
  }

  /** One try: without a backend there is no retry after it; a failure drops the backend. */
  function Attempted(st: State, w: nat, t: Try): State
    requires w < |st.workers| && st.workers[w].phase.Trying?
  {
    var id, b := st.workers[w].phase.id, st.workers[w].backend;
    var allowRetry, a := st.workers[w].phase.allowRetry && b, Tried(t, b);
    var next := st.(tries := st.tries[id := TriesOf(st, id) + [Made(b, a)]]);
    if a.Some? || !allowRetry then
      Moved(next, w, a.Some?, Reading).(answered := st.answered + multiset{id}, replies := st.replies[id := ReplyFor(a)])
    else
      Moved(next, w, false, Trying(id, allowRetry))
  }

  function Do(limit: nat, st: State, step: Step): State
    requires Enabled(st, step)
  {
    match step
    case Count(s) => st.(queued := Up(st.queued), nextId := st.nextId + 1, senders := st.senders[s := Counted(st.nextId)])
    case Write(s, ok) =>
      var id := st.senders[s].id;
      var p := id % |st.pipes|;
      if ok then st.(senders := st.senders[s := Idle], pipes := st.pipes[p := st.pipes[p] + [id]])
      else st.(queued := Down(st.queued), senders := st.senders[s := Idle], unsent := st.unsent + multiset{id})
    case Read(w) =>
      Moved(st, w, st.workers[w].backend, Received(st.pipes[w][0])).(pipes := st.pipes[w := st.pipes[w][1..]])
    case Uncount(w) => Moved(st, w, st.workers[w].backend, Taken(st.workers[w].phase.id)).(queued := Down(st.queued))
    case Judge(w, elapsed) =>
      var id := st.workers[w].phase.id;
      if TooLate(limit, elapsed) then Moved(st, w, st.workers[w].backend, Reading).(timedOut := st.timedOut + multiset{id})
      else Moved(st, w, st.workers[w].backend, Trying(id, true))
    case Attempt(w, t) => Attempted(st, w, t)
  }

  // ---------------------------------------------------------------- where the questions are

  /** What to count: all questions, or the copies of one. */
  datatype Want = Any | Only(id: nat)

  function Hit(id: nat, want: Want): nat {
    if want.Any? || want.id == id then 1 else 0
  }

  function InSender(s: Sender, want: Want): nat { if s.Counted? then Hit(s.id, want) else 0 }

  function InRead(w: Worker, want: Want): nat { if w.phase.Received? then Hit(w.phase.id, want) else 0 }

  function InWork(w: Worker, want: Want): nat { if HasTaken(w) then Hit(w.phase.id, want) else 0 }

  predicate HasTaken(w: Worker) { w.phase.Taken? || w.phase.Trying? }

  function InPipe(p: seq<nat>, want: Want): nat {
    if p == [] then 0 else Hit(p[0], want) + InPipe(p[1..], want)
  }

  function Sending(s: seq<Sender>, want: Want): nat {
    if s == [] then 0 else InSender(s[0], want) + Sending(s[1..], want)
  }

  function Piped(s: seq<seq<nat>>, want: Want): nat {
    if s == [] then 0 else InPipe(s[0], want) + Piped(s[1..], want)
  }

  function Reads(s: seq<Worker>, want: Want): nat {
    if s == [] then 0 else InRead(s[0], want) + Reads(s[1..], want)
  }

  function Works(s: seq<Worker>, want: Want): nat {
    if s == [] then 0 else InWork(s[0], want) + Works(s[1..], want)
  }

  /** Questions between increment and decrement. */
  function Waiting(st: State, want: Want): nat {
    Sending(st.senders, want) + Piped(st.pipes, want) + Reads(st.workers, want)
  }

  /** The counter is the number of questions between increment and decrement. */
  ghost predicate Exact(st: State) {
    st.queued == Waiting(st, Any)
  }

  /** In how many places a question is. */
  function Places(st: State, id: nat): nat {
    Waiting(st, Only(id)) + Works(st.workers, Only(id)) + st.answered[id] + st.timedOut[id] + st.unsent[id]
  }

  /** Every question handed in is in one place. */
  ghost predicate Conserved(st: State) {
    forall id: nat :: Places(st, id) == if id < st.nextId then 1 else 0
  }

  /** A question goes to the worker its id names. */
  ghost predicate Routed(st: State) {
    && |st.pipes| == |st.workers| > 0
    && (forall w, i :: 0 <= w < |st.pipes| && 0 <= i < |st.pipes[w]| ==> st.pipes[w][i] % |st.pipes| == w)
    && (forall w :: 0 <= w < |st.workers| && !st.workers[w].phase.Reading? ==> st.workers[w].phase.id % |st.pipes| == w)
  }

  ghost predicate Inv(st: State) {
    Exact(st) && Conserved(st) && Routed(st) && Accounted(st)
  }

  /** Some worker is about to try the question. */
  ghost predicate InTrial(st: State, id: nat) {
    exists w :: 0 <= w < |st.workers| && st.workers[w].phase.Trying? && st.workers[w].phase.id == id
  }

  /**
   One try, or two exactly when a backend at hand failed on the first; the callback got what the last one gave.
   */
  ghost predicate WellAnswered(st: State, id: nat) {
    var t := TriesOf(st, id);
    && 1 <= |t| <= 2
    && (|t| == 2 <==> t[0].atHand && t[0].answer == None)
    && (|t| == 2 ==> !t[1].atHand)
    && id in st.replies
    && st.replies[id] == match t[|t| - 1].answer case Some(answer) => FromBackend(answer) case None => ServFail
  }

  /** Before a second try the first one failed and took the backend with it. */
  ghost predicate TrialOk(st: State, w: Worker) {
    w.phase.Trying? ==>
      && w.phase.allowRetry
      && (TriesOf(st, w.phase.id) == [] || (TriesOf(st, w.phase.id) == [Made(true, None)] && !w.backend))
  }

  ghost predicate Accounted(st: State) {
    && (forall w :: 0 <= w < |st.workers| ==> TrialOk(st, st.workers[w]))
    && (forall id: nat :: TriesOf(st, id) != [] ==> st.answered[id] > 0 || InTrial(st, id))
    && (forall id: nat :: st.answered[id] > 0 ==> WellAnswered(st, id))
  }

  // ---------------------------------------------------------------- moving a question

  lemma {:induction false} SenderMoves(s: seq<Sender>, i: nat, x: Sender, want: Want)
    requires i < |s|
    ensures Sending(s[i := x], want) + InSender(s[i], want) == Sending(s, want) + InSender(x, want)
  {
    if i > 0 {
      SenderMoves(s[1..], i - 1, x, want);
      assert s[i := x][1..] == s[1..][i - 1 := x];
    }
  }

  lemma {:induction false} PipeMoves(s: seq<seq<nat>>, i: nat, x: seq<nat>, want: Want)
    requires i < |s|
    ensures Piped(s[i := x], want) + InPipe(s[i], want) == Piped(s, want) + InPipe(x, want)
  {
    if i > 0 {
      PipeMoves(s[1..], i - 1, x, want);
      assert s[i := x][1..] == s[1..][i - 1 := x];
    }
  }

  lemma {:induction false} WorkerMoves(s: seq<Worker>, i: nat, x: Worker, want: Want)
    requires i < |s|
    ensures Reads(s[i := x], want) + InRead(s[i], want) == Reads(s, want) + InRead(x, want)
    ensures Works(s[i := x], want) + InWork(s[i], want) == Works(s, want) + InWork(x, want)
  {
    if i > 0 {
      WorkerMoves(s[1..], i - 1, x, want);
      assert s[i := x][1..] == s[1..][i - 1 := x];
    }
  }

  lemma {:induction false} PipeGrows(p: seq<nat>, id: nat, want: Want)
    ensures InPipe(p + [id], want) == InPipe(p, want) + Hit(id, want)
  {
    if p == [] {
      assert InPipe([id], want) == Hit(id, want) + InPipe([], want);
      assert p + [id] == [id];
    } else {
      PipeGrows(p[1..], id, want);
      assert (p + [id])[1..] == p[1..] + [id];
    }
  }

  /** The question a step is about. */
  function Subject(st: State, step: Step): nat
    requires Enabled(st, step)
  {
    match step
    case Count(_) => st.nextId
    case Write(s, _) => st.senders[s].id
    case Read(w) => st.pipes[w][0]
    case Uncount(w) => st.workers[w].phase.id
    case Judge(w, _) => st.workers[w].phase.id
    case Attempt(w, _) => st.workers[w].phase.id
  }

  /** A worker is done with its question: it is too old, or its callback is made. */
  predicate Ends(limit: nat, st: State, step: Step)
    requires Enabled(st, step)
  {
    match step
    case Judge(_, elapsed) => TooLate(limit, elapsed)
    case Attempt(w, _) => Attempted(st, w, step.t).workers[w].phase.Reading?
    case _ => false
  }

  predicate StartsWaiting(step: Step) { step.Count? }

  predicate StopsWaiting(step: Step) { step.Uncount? || (step.Write? && !step.ok) }

  predicate BySender(step: Step) { step.Count? || step.Write? }

  lemma SenderStepMoves(limit: nat, st: State, step: Step, want: Want)
    requires Enabled(st, step) && |st.pipes| == |st.workers| > 0 && BySender(step)
    ensures var next := Do(limit, st, step);
            var hit: int := Hit(Subject(st, step), want);
            && next.workers == st.workers
            && Waiting(next, want) == Waiting(st, want) + (if StartsWaiting(step) then hit else if StopsWaiting(step) then -hit else 0)
  {
    hide Sending, Piped, Reads, Hit, InPipe;
    if step.Count? {
      SenderMoves(st.senders, step.s, Counted(st.nextId), want);
    } else {
      var id := st.senders[step.s].id;
      var p := id % |st.pipes|;
      SenderMoves(st.senders, step.s, Idle, want);
      if step.ok {
        PipeMoves(st.pipes, p, st.pipes[p] + [id], want);
        PipeGrows(st.pipes[p], id, want);
      }
    }
  }

  /** What a worker's step changes. */
  lemma WorkerStepFrame(limit: nat, st: State, step: Step)
    requires Enabled(st, step) && !BySender(step)
    ensures var next, was, w := Do(limit, st, step), st.workers[step.w].phase, step.w;
            && |next.workers| == |st.workers| && next.workers == st.workers[w := next.workers[w]] && next.senders == st.senders
            && (step.Read? ==> was.Reading? && next.workers[w].phase == Received(st.pipes[w][0]) && next.pipes == st.pipes[w := st.pipes[w][1..]])
            && (!step.Read? ==> next.pipes == st.pipes)
            && (step.Uncount? ==> was.Received? && next.workers[w].phase == Taken(was.id))
            && (step.Judge? || step.Attempt? ==> HasTaken(st.workers[w]))
            && (step.Read? || step.Uncount? ==> !Ends(limit, st, step))
            && (step.Judge? || step.Attempt? ==>
                  if Ends(limit, st, step) then next.workers[w].phase.Reading?
                  else HasTaken(next.workers[w]) && next.workers[w].phase.id == was.id)
  {
  }

  lemma WorkerStepMoves(limit: nat, st: State, step: Step, want: Want)
    requires Enabled(st, step) && |st.pipes| == |st.workers| > 0 && !BySender(step)
    ensures var next := Do(limit, st, step);
            var hit: int := Hit(Subject(st, step), want);
            && Waiting(next, want) == Waiting(st, want) + (if StopsWaiting(step) then -hit else 0)
            && Works(next.workers, want) == Works(st.workers, want) + (if step.Uncount? then hit else if Ends(limit, st, step) then -hit else 0)
  {
    hide Sending, Piped, Reads, Works, Hit, InPipe, Do, Ends;
    var next := Do(limit, st, step);
    WorkerStepFrame(limit, st, step);
    WorkerMoves(st.workers, step.w, next.workers[step.w], want);
    if step.Read? {
      var pipe := st.pipes[step.w];
      PipeMoves(st.pipes, step.w, pipe[1..], want);
      PipeHead(pipe, want);
    }
  }

  /** How a step changes the number waiting and the number worked on. */
  lemma Moves(limit: nat, st: State, step: Step, want: Want)
    requires Enabled(st, step) && |st.pipes| == |st.workers| > 0
    ensures var next := Do(limit, st, step);
            var hit: int := Hit(Subject(st, step), want);
            && Waiting(next, want) == Waiting(st, want) + (if StartsWaiting(step) then hit else if StopsWaiting(step) then -hit else 0)
            && Works(next.workers, want) == Works(st.workers, want) + (if step.Uncount? then hit else if Ends(limit, st, step) then -hit else 0)
  {
    hide Waiting, Works, Hit, Do, Subject;
    if BySender(step) {
      SenderStepMoves(limit, st, step, want);
    } else {
      WorkerStepMoves(limit, st, step, want);
    }
  }

  lemma PipeHead(p: seq<nat>, want: Want)
    requires p != []
    ensures InPipe(p, want) == Hit(p[0], want) + InPipe(p[1..], want)
  {
  }

  // ---------------------------------------------------------------- what every step keeps

  /** A question counted between increment and decrement makes the counter positive. */
  lemma {:induction false} SomeSending(s: seq<Sender>, i: nat)
    requires i < |s| && s[i].Counted?
    ensures Sending(s, Any) > 0
  {
    if i > 0 { SomeSending(s[1..], i - 1); }
  }

  lemma {:induction false} SomeRead(s: seq<Worker>, i: nat)
    requires i < |s| && s[i].phase.Received?
    ensures Reads(s, Any) > 0
  {
    if i > 0 { SomeRead(s[1..], i - 1); }
  }

  /** The counter stays exact, and so never goes below zero. */
  lemma CounterExact(limit: nat, st: State, step: Step)
    requires Exact(st) && Routed(st) && Enabled(st, step)
    requires st.queued < COUNTER_LIMIT && (step.Count? ==> st.queued + 1 < COUNTER_LIMIT)
    ensures Exact(Do(limit, st, step)) && Do(limit, st, step).queued < COUNTER_LIMIT
    ensures Do(limit, st, step).queued - st.queued ==
              if StartsWaiting(step) then 1 else if StopsWaiting(step) then -1 else 0
  {
    hide Sending, Piped, Reads, Works;
    Moves(limit, st, step, Any);
    if step.Uncount? { SomeRead(st.workers, step.w); }
    if step.Write? { SomeSending(st.senders, step.s); }
  }

  lemma PlacesKept(limit: nat, st: State, step: Step, id: nat)
    requires Enabled(st, step) && |st.pipes| == |st.workers| > 0
    ensures Places(Do(limit, st, step), id) == Places(st, id) + if step.Count? && id == st.nextId then 1 else 0
  {
    hide Waiting, Works;
    Moves(limit, st, step, Only(id));
  }

  lemma StepConserves(limit: nat, st: State, step: Step)
    requires Conserved(st) && Routed(st) && Enabled(st, step)
    ensures Conserved(Do(limit, st, step))
  {
    hide Places;
    forall id: nat ensures Places(Do(limit, st, step), id) == if id < Do(limit, st, step).nextId then 1 else 0 {
      PlacesKept(limit, st, step, id);
    }
  }

  lemma StepRoutes(limit: nat, st: State, step: Step)
    requires Routed(st) && Enabled(st, step)
    ensures Routed(Do(limit, st, step))
  {
    if !BySender(step) {
      hide Do, Ends;
      WorkerStepFrame(limit, st, step);
    }
  }

  // ---------------------------------------------------------------- tries and replies

  lemma {:induction false} WorkedOn(s: seq<Worker>, i: nat)
    requires i < |s| && HasTaken(s[i])
    ensures Works(s, Only(s[i].phase.id)) >= 1
  {
    if i > 0 { WorkedOn(s[1..], i - 1); }
  }

  lemma {:induction false} WorkedOnTwice(s: seq<Worker>, i: nat, j: nat)
    requires i < j < |s| && HasTaken(s[i]) && HasTaken(s[j]) && s[i].phase.id == s[j].phase.id
    ensures Works(s, Only(s[i].phase.id)) >= 2
  {
    if i > 0 { WorkedOnTwice(s[1..], i - 1, j - 1); } else { WorkedOn(s[1..], j - 1); }
  }

  /** A question a worker has taken is nowhere else. */
  lemma OnlyHere(st: State, w: nat)
    requires Conserved(st) && w < |st.workers| && HasTaken(st.workers[w])
    ensures var id := st.workers[w].phase.id;
            && st.answered[id] == 0
            && forall v :: 0 <= v < |st.workers| && v != w && HasTaken(st.workers[v]) ==> st.workers[v].phase.id != id
  {
    hide Waiting, Works;
    var id := st.workers[w].phase.id;
    WorkedOn(st.workers, w);
    assert Places(st, id) <= 1;
    forall v | 0 <= v < |st.workers| && v != w && HasTaken(st.workers[v]) ensures st.workers[v].phase.id != id {
      if st.workers[v].phase.id == id {
        WorkedOnTwice(st.workers, if v < w then v else w, if v < w then w else v);
      }
    }
  }

  /** Tries and replies stay right while no trial starts or goes on. */
  lemma AccountedFrame(st: State, next: State)
    requires Accounted(st) && next.tries == st.tries && next.answered == st.answered && next.replies == st.replies
    requires |next.workers| == |st.workers|
    requires forall v :: 0 <= v < |st.workers| ==>
               next.workers[v] == st.workers[v] || (!next.workers[v].phase.Trying? && !st.workers[v].phase.Trying?)
    ensures Accounted(next)
  {
    forall id: nat | InTrial(st, id) ensures InTrial(next, id) {
      var w :| 0 <= w < |st.workers| && st.workers[w].phase.Trying? && st.workers[w].phase.id == id;
      assert next.workers[w] == st.workers[w];
    }
  }

  lemma QuietKeeps(limit: nat, st: State, step: Step)
    requires Accounted(st) && Enabled(st, step)
    requires !step.Attempt? && (step.Judge? ==> TooLate(limit, step.elapsed))
    ensures Accounted(Do(limit, st, step))
  {
    hide Accounted;
    AccountedFrame(st, Do(limit, st, step));
  }

  lemma TrialStarts(limit: nat, st: State, step: Step)
    requires Accounted(st) && Conserved(st) && Enabled(st, step) && step.Judge? && !TooLate(limit, step.elapsed)
    ensures Accounted(Do(limit, st, step))
  {
    var next, w, id := Do(limit, st, step), step.w, st.workers[step.w].phase.id;
    OnlyHere(st, w);
    assert !InTrial(st, id);
    forall i: nat | InTrial(st, i) ensures InTrial(next, i) {
      var v :| 0 <= v < |st.workers| && st.workers[v].phase.Trying? && st.workers[v].phase.id == i;
      assert next.workers[v] == st.workers[v];
    }
  }

  /** A try ends well or leaves a trial with nothing but one failed try. */
  lemma TryEnds(st: State, w: nat, t: Try)
    requires w < |st.workers| && st.workers[w].phase.Trying? && TrialOk(st, st.workers[w])
    ensures var next, id := Attempted(st, w, t), st.workers[w].phase.id;
            && |next.workers| == |st.workers| && TrialOk(next, next.workers[w])
            && (forall v :: 0 <= v < |st.workers| && v != w ==> next.workers[v] == st.workers[v])
            && (if next.workers[w].phase.Trying? then next.workers[w].phase.id == id && next.answered == st.answered
                else next.answered[id] > 0 && WellAnswered(next, id))
  {
  }

  lemma TryKeeps(limit: nat, st: State, step: Step)
    requires Accounted(st) && Conserved(st) && Enabled(st, step) && step.Attempt?
    ensures Accounted(Do(limit, st, step))
  {
    var next, w, id := Do(limit, st, step), step.w, st.workers[step.w].phase.id;
    assert next == Attempted(st, w, step.t);
    hide Conserved, Attempted, Do;
    OnlyHere(st, w);
    TryEnds(st, w, step.t);
    OtherTries(st, w, step.t);
    forall v | 0 <= v < |next.workers| ensures TrialOk(next, next.workers[v]) {
      if v != w { assert TrialOk(st, st.workers[v]); }
    }
    forall i: nat | TriesOf(next, i) != [] ensures next.answered[i] > 0 || InTrial(next, i) {
      if i == id {
        if next.workers[w].phase.Trying? { assert InTrial(next, id); }
      } else if InTrial(st, i) {
        var v :| 0 <= v < |st.workers| && st.workers[v].phase.Trying? && st.workers[v].phase.id == i;
        assert next.workers[v] == st.workers[v];
      }
    }
    forall i: nat | next.answered[i] > 0 ensures WellAnswered(next, i) {
      if i != id { assert st.answered[i] > 0 && WellAnswered(st, i); }
    }
  }

  lemma OtherTries(st: State, w: nat, t: Try)
    requires w < |st.workers| && st.workers[w].phase.Trying?
    ensures var next, id := Attempted(st, w, t), st.workers[w].phase.id;
            && TriesOf(next, id) == TriesOf(st, id) + [Made(st.workers[w].backend, Tried(t, st.workers[w].backend))]
            && (forall i :: i != id ==> TriesOf(next, i) == TriesOf(st, i) && next.answered[i] == st.answered[i])
            && (forall i :: i != id ==> (i in next.replies <==> i in st.replies))
            && (forall i :: i != id && i in st.replies ==> next.replies[i] == st.replies[i])
  {
  }

  lemma StepAccounts(limit: nat, st: State, step: Step)
    requires Accounted(st) && Conserved(st) && Enabled(st, step)
    ensures Accounted(Do(limit, st, step))
  {
    hide Accounted, Conserved, Do;
    if step.Attempt? {
      TryKeeps(limit, st, step);
    } else if step.Judge? && !TooLate(limit, step.elapsed) {
      TrialStarts(limit, st, step);
    } else {
      QuietKeeps(limit, st, step);
    }
  }

  // ---------------------------------------------------------------- runs

  predicate Starting(st: State) {
    && st.queued == 0 && st.nextId == 0 && |st.pipes| == |st.workers| > 0
    && (forall i :: 0 <= i < |st.senders| ==> st.senders[i].Idle?)
    && (forall i :: 0 <= i < |st.pipes| ==> st.pipes[i] == [])
    && (forall i :: 0 <= i < |st.workers| ==> st.workers[i] == Worker(true, Reading))
    && st.answered == multiset{} && st.timedOut == multiset{} && st.unsent == multiset{}
    && st.tries == map[] && st.replies == map[]
  }

  /** A run of steps, none of which has 2^32 questions waiting. */
  predicate CanRun(limit: nat, st: State, steps: seq<Step>)
    decreases |steps|
  {
    steps == [] ||
    (Enabled(st, steps[0]) && (steps[0].Count? ==> st.queued + 1 < COUNTER_LIMIT)
     && CanRun(limit, Do(limit, st, steps[0]), steps[1..]))
  }

  function Run(limit: nat, st: State, steps: seq<Step>): State
    requires CanRun(limit, st, steps)
    decreases |steps|
  {
    if steps == [] then st else Run(limit, Do(limit, st, steps[0]), steps[1..])
  }

  lemma {:induction false} NothingYet(st: State, want: Want)
    requires Starting(st)
    ensures Waiting(st, want) == 0 && Works(st.workers, want) == 0
  {
    NoSenders(st.senders, want);
    NoPipes(st.pipes, want);
    NoWorkers(st.workers, want);
  }

  lemma {:induction false} NoSenders(s: seq<Sender>, want: Want)
    requires forall i :: 0 <= i < |s| ==> s[i].Idle?
    ensures Sending(s, want) == 0
  {
    if s != [] { NoSenders(s[1..], want); }
  }

  lemma {:induction false} NoPipes(s: seq<seq<nat>>, want: Want)
    requires forall i :: 0 <= i < |s| ==> s[i] == []
    ensures Piped(s, want) == 0
  {
    if s != [] { NoPipes(s[1..], want); }
  }

  lemma {:induction false} NoWorkers(s: seq<Worker>, want: Want)
    requires forall i :: 0 <= i < |s| ==> s[i].phase.Reading?
    ensures Reads(s, want) == 0 && Works(s, want) == 0
  {
    if s != [] { NoWorkers(s[1..], want); }
  }

  lemma {:induction false} RunKeeps(limit: nat, st: State, steps: seq<Step>)
    requires Inv(st) && st.queued < COUNTER_LIMIT && CanRun(limit, st, steps)
    ensures Inv(Run(limit, st, steps)) && Run(limit, st, steps).queued < COUNTER_LIMIT
    decreases |steps|
  {
    hide Exact, Conserved, Routed, Accounted, Do, Enabled;
    if steps != [] {
      StepAccounts(limit, st, steps[0]);
      CounterExact(limit, st, steps[0]);
      StepConserves(limit, st, steps[0]);
      StepRoutes(limit, st, steps[0]);
      RunKeeps(limit, Do(limit, st, steps[0]), steps[1..]);
    }
  }

  lemma StartsWell(st: State)
    requires Starting(st)
    ensures Inv(st)
  {
    hide Waiting, Works;
    forall want ensures Waiting(st, want) == 0 && Works(st.workers, want) == 0 { NothingYet(st, want); }
    assert forall id: nat :: TriesOf(st, id) == [];
  }

  /**
   In every interleaving the counter is the number of questions waiting, and each question handed in is in
   exactly one place: waiting, worked on, answered by one callback, timed out, or not sent.
   */
  lemma QuestionsAreConserved(limit: nat, st: State, steps: seq<Step>, id: nat)
    requires Starting(st) && CanRun(limit, st, steps)
    ensures var e := Run(limit, st, steps);
            && e.queued == Waiting(e, Any)
            && Waiting(e, Only(id)) + Works(e.workers, Only(id)) + e.answered[id] + e.timedOut[id] + e.unsent[id]
               == (if id < e.nextId then 1 else 0)
  {
    hide Run, CanRun, Waiting, Works;
    StartsWell(st);
    RunKeeps(limit, st, steps);
    assert Places(Run(limit, st, steps), id) == if id < Run(limit, st, steps).nextId then 1 else 0;
  }

  /**
   In every interleaving a question that got its callback was tried once, or a second time exactly when a backend at
   hand failed on it, and the callback was given the answer of the last try, or a ServFail exactly when that
   failed; a question that timed out was never tried.
   */
  lemma EveryReplyIsRight(limit: nat, st: State, steps: seq<Step>, id: nat)
    requires Starting(st) && CanRun(limit, st, steps)
    ensures var e := Run(limit, st, steps);
            && (e.answered[id] > 0 ==> e.answered[id] == 1 && WellAnswered(e, id))
            && (e.timedOut[id] > 0 ==> TriesOf(e, id) == [] && e.answered[id] == 0)
            && |TriesOf(e, id)| <= 2
  {
    hide Run, CanRun, Waiting, Works;
    StartsWell(st);
    RunKeeps(limit, st, steps);
    var e := Run(limit, st, steps);
    assert Places(e, id) <= 1;
    if InTrial(e, id) {
      var w :| 0 <= w < |e.workers| && e.workers[w].phase.Trying? && e.workers[w].phase.id == id;
      assert TrialOk(e, e.workers[w]);
      WorkedOn(e.workers, w);
    }
  }

  /** While a question waits or is worked on, someone can go on with one. */
  lemma NeverStuck(st: State)
    requires Routed(st) && Waiting(st, Any) + Works(st.workers, Any) > 0
    ensures exists step: Step :: !step.Count? && Enabled(st, step)
  {
    hide Routed;
    assert |st.pipes| == |st.workers| > 0 by { RoutedShape(st); }
    if s :| 0 <= s < |st.senders| && st.senders[s].Counted? {
      assert Enabled(st, Write(s, true));
    } else if w :| 0 <= w < |st.workers| && !st.workers[w].phase.Reading? {
      var p := st.workers[w].phase;
      var step := if p.Received? then Uncount(w) else if p.Taken? then Judge(w, 0) else Attempt(w, Try(false, Throws));
      assert Enabled(st, step);
    } else if w :| 0 <= w < |st.pipes| && st.pipes[w] != [] {
      assert Enabled(st, Read(w));
    } else {
      NoSenders(st.senders, Any);
      NoPipes(st.pipes, Any);
      NoWorkers(st.workers, Any);
    }
  }

  lemma RoutedShape(st: State)
    requires Routed(st)
    ensures |st.pipes| == |st.workers| > 0
  {
  }

  /** A question written to a pipe is read from it after exactly the questions that were in it. */
  lemma PipeIsFifo(limit: nat, st: State, s: nat, i: nat)
    requires Enabled(st, Write(s, true))
    ensures var id, next := st.senders[s].id, Do(limit, st, Write(s, true));
            var p := id % |st.pipes|;
            && |next.pipes[p]| == |st.pipes[p]| + 1 && next.pipes[p][|st.pipes[p]|] == id
            && (i < |st.pipes[p]| ==> next.pipes[p][i] == st.pipes[p][i])
    ensures forall w :: 0 <= w < |st.pipes| && Enabled(st, Read(w)) ==>
              var next := Do(limit, st, Read(w));
              && next.workers[w].phase == Received(st.pipes[w][0]) && |next.pipes[w]| == |st.pipes[w]| - 1
              && (i + 1 < |st.pipes[w]| ==> next.pipes[w][i] == st.pipes[w][i + 1])
  {
  }

  /** A question is dropped iff there is a limit, in milliseconds, and it has waited longer, in microseconds. */
  lemma JudgedByAge(limit: nat, st: State, w: nat, elapsed: int)
    requires Enabled(st, Judge(w, elapsed))
    ensures var id, next := st.workers[w].phase.id, Do(limit, st, Judge(w, elapsed));
            if limit != 0 && elapsed > limit * 1000
            then next.workers[w] == Worker(st.workers[w].backend, Reading) && next.timedOut == st.timedOut + multiset{id}
            else next.workers[w] == Worker(st.workers[w].backend, Trying(id, true)) && next.timedOut == st.timedOut
  {
  }

  /** The tries a worker makes for a question end as the unthreaded distributor does with the same events. */
  lemma WorkerLikeUnthreaded(st: State, w: nat, tries: seq<Try>)
    requires |tries| == 2 && w < |st.workers| && st.workers[w].phase.Trying? && st.workers[w].phase.allowRetry
    ensures var id, have, one := st.workers[w].phase.id, st.workers[w].backend, Attempted(st, w, tries[0]);
            var again := have && Tried(tries[0], true).None?;
            var last := if again then Tried(tries[1], false) else Tried(tries[0], have);
            && (one.workers[w].phase.Trying? <==> again)
            && var end := if again then Attempted(one, w, tries[1]) else one;
            && end.workers[w] == Worker(last.Some?, Reading)
            && end.answered == st.answered + multiset{id} && id in end.replies && end.replies[id] == ReplyFor(last)
  {
  }

  // ---------------------------------------------------------------- without threads

  /**
   The same for the unthreaded distributor: at most two tries, the second only when a backend at hand failed;
   the one callback gets the answer of the last try or, exactly when that failed, a ServFail, and then the
   backend is gone.
   */
  method AnswerQuestion(haveBackend: bool, tries: seq<Try>) returns (reply: Reply, b: bool, used: nat)
    requires |tries| == 2
    ensures used == (if haveBackend && Tried(tries[0], true).None? then 2 else 1)
    ensures var last := Tried(tries[used - 1], used == 1 && haveBackend);
            b == last.Some? && reply == ReplyFor(last)
  {
    b, used := haveBackend, 0;
    var allowRetry := true;
    while true
      invariant used <= 1
      invariant used == 0 ==> allowRetry && b == haveBackend
      invariant used == 1 ==> allowRetry && !b && haveBackend && Tried(tries[0], true).None?
      decreases 2 - used
    {
      var t := tries[used];
      used := used + 1;
      var thrown := false;
      if !b {
        allowRetry := false;
        thrown := !t.created;
        b := t.created;
      }
      if !thrown && t.ask.Returns? {
        reply := FromBackend(t.ask.answer);
        break;
      }
      b := false;
      if !allowRetry {
        reply := ServFail;
        break;
      }
    }
  }
}

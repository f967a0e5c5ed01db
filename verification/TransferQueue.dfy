/**
 The queue of zone transfers: a container with two unique indexes, a semaphore counting its elements, and
 the set of zones being transferred, shared by any number of retrieval threads.

 Every step is one critical section, and steps of different threads come in any order.
 */
module TransferQueue {
  import opened Results
  import opened ZoneNames

  const COUNTER_LIMIT: nat := 0x1_0000_0000_0000_0000

  datatype Request = Request(domain: Zone, primary: string, force: bool, priority: nat, order: nat)

  predicate SameTarget(a: Request, b: Request) {
    a.domain == b.domain && a.primary == b.primary
  }

  /** Two elements that one of the unique indexes keeps apart. */
  predicate Collide(a: Request, b: Request) {
    (a.priority == b.priority && a.order == b.order) || SameTarget(a, b)
  }

  predicate Blocked(queue: set<Request>, r: Request) {
    exists q :: q in queue && Collide(q, r)
  }

  /** Position in the queue: by priority, then by arrival. */
  predicate NotAfter(a: Request, b: Request) {
    a.priority < b.priority || (a.priority == b.priority && a.order <= b.order)
  }

  predicate First(queue: set<Request>, r: Request) {
    r in queue && forall q :: q in queue ==> NotAfter(r, q)
  }

  /** A queued request takes the place of a more urgent one for the same target. */
  function Promoted(so: Request, r: Request): Request {
    if r.priority < so.priority then so.(priority := r.priority, order := r.order) else so
  }

  /** Modifying an element in place; the container drops it when an index then collides. */
  function Modified(queue: set<Request>, so: Request, now: Request): set<Request> {
    var rest := queue - {so};
    if Blocked(rest, now) then rest else rest + {now}
  }

  // ---------------------------------------------------------------- the protocol

  datatype Phase = Waiting | Woken | Dequeued(request: Request) | Running(domain: Zone)

  datatype State = State(sem: nat, sorthelper: nat, queue: set<Request>, inprogress: set<Zone>, threads: map<nat, Phase>)

  /** `blocker` is the element a failing insertion reports, `first` the element at the front. */
  datatype Step =
    | Add(domain: Zone, primary: string, priority: nat, force: bool, blocker: Request)
    | Wake(t: nat)
    | Dequeue(t: nat, first: Request)
    | Enter(t: nat)
    | Leave(t: nat)

  function NewRequest(s: State, step: Step): Request
    requires step.Add?
  {
    Request(step.domain, step.primary, step.force, step.priority, s.sorthelper)
  }

  predicate Enabled(s: State, step: Step) {
    match step
    case Add(_, _, _, _, blocker) =>
      && s.sorthelper + 1 < COUNTER_LIMIT
      && (Blocked(s.queue, NewRequest(s, step)) ==> blocker in s.queue && Collide(blocker, NewRequest(s, step)))
    case Wake(t) => t in s.threads && s.threads[t].Waiting? && s.sem > 0
    case Dequeue(t, first) => t in s.threads && s.threads[t].Woken? && (s.queue != {} ==> First(s.queue, first))
    case Enter(t) => t in s.threads && s.threads[t].Dequeued?
    case Leave(t) => t in s.threads && s.threads[t].Running?
  }

  function Do(s: State, step: Step): State
    requires Enabled(s, step)
  {
    match step
    case Add(_, _, _, _, blocker) =>
      var r := NewRequest(s, step);
      if Blocked(s.queue, r) then s.(sorthelper := s.sorthelper + 1, queue := Modified(s.queue, blocker, Promoted(blocker, r)))
      else s.(sem := s.sem + 1, sorthelper := s.sorthelper + 1, queue := s.queue + {r})
    case Wake(t) => s.(sem := s.sem - 1, threads := s.threads[t := Woken])
    case Dequeue(t, first) =>
      if s.queue == {} then s.(threads := s.threads[t := Waiting])
      else
        var rest := s.queue - {first};
        s.(queue := rest, sorthelper := if rest == {} then 0 else s.sorthelper, threads := s.threads[t := Dequeued(first)])
    case Enter(t) =>
      var domain := s.threads[t].request.domain;
      if domain in s.inprogress then s.(threads := s.threads[t := Waiting])
      else s.(inprogress := s.inprogress + {domain}, threads := s.threads[t := Running(domain)])
    case Leave(t) =>
      s.(inprogress := s.inprogress - {s.threads[t].domain}, threads := s.threads[t := Waiting])
  }

  // ---------------------------------------------------------------- what every step keeps

  function WokenThreads(s: State): set<nat> {
    set t | t in s.threads && s.threads[t].Woken?
  }

  ghost predicate Numbered(s: State) {
    && (forall q :: q in s.queue ==> q.order < s.sorthelper)
    && (forall p, q :: p in s.queue && q in s.queue && p != q ==> p.order != q.order && !SameTarget(p, q))
  }

  ghost predicate Counted(s: State) {
    s.sem + |WokenThreads(s)| == |s.queue|
  }

  ghost predicate Exclusive(s: State) {
    && (forall t :: t in s.threads && s.threads[t].Running? ==> s.threads[t].domain in s.inprogress)
    && (forall t, u :: t in s.threads && u in s.threads && t != u && s.threads[t].Running? && s.threads[u].Running? ==>
          s.threads[t].domain != s.threads[u].domain)
    && (forall z :: z in s.inprogress ==> exists t :: t in s.threads && s.threads[t] == Running(z))
  }

  ghost predicate Inv(s: State) {
    Numbered(s) && Counted(s) && Exclusive(s)
  }

  /** A fresh number collides with none, so an insertion fails only on a queued target, reporting just that. */
  lemma BlockedByTarget(s: State, step: Step)
    requires Numbered(s) && step.Add? && Enabled(s, step)
    ensures var r := NewRequest(s, step);
            && (Blocked(s.queue, r) <==> exists q :: q in s.queue && SameTarget(q, r))
            && (Blocked(s.queue, r) ==> step.blocker in s.queue && SameTarget(step.blocker, r))
  {
  }

  /** Modifying keeps the element: its new number is fresh and its target is its own. */
  lemma NothingDropped(s: State, step: Step)
    requires Numbered(s) && step.Add? && Enabled(s, step) && Blocked(s.queue, NewRequest(s, step))
    ensures var now := Promoted(step.blocker, NewRequest(s, step));
            && now !in s.queue - {step.blocker}
            && Modified(s.queue, step.blocker, now) == s.queue - {step.blocker} + {now}
  {
    BlockedByTarget(s, step);
  }

  lemma AddNumbered(s: State, step: Step)
    requires Numbered(s) && step.Add? && Enabled(s, step)
    ensures Numbered(Do(s, step))
  {
    hide Modified, Blocked;
    var r, next := NewRequest(s, step), Do(s, step);
    BlockedByTarget(s, step);
    if Blocked(s.queue, r) {
      NothingDropped(s, step);
      var so := step.blocker;
      var now := Promoted(so, r);
      assert forall q :: q in next.queue ==> q == now || (q in s.queue && q != so);
      assert SameTarget(now, so) && now.order in {so.order, r.order};
    }
  }

  lemma AddCounted(s: State, step: Step)
    requires Numbered(s) && Counted(s) && step.Add? && Enabled(s, step)
    ensures Counted(Do(s, step))
  {
    hide Modified, Numbered;
    var r, next := NewRequest(s, step), Do(s, step);
    assert WokenThreads(next) == WokenThreads(s);
    if Blocked(s.queue, r) {
      BlockedByTarget(s, step);
      NothingDropped(s, step);
    } else {
      assert r !in s.queue by { assert Collide(r, r); }
    }
  }

  lemma AddKeeps(s: State, step: Step)
    requires Inv(s) && step.Add? && Enabled(s, step)
    ensures Inv(Do(s, step))
  {
    hide Numbered, Counted;
    AddNumbered(s, step);
    AddCounted(s, step);
  }

  lemma WakeKeeps(s: State, step: Step)
    requires Inv(s) && step.Wake? && Enabled(s, step)
    ensures Inv(Do(s, step))
  {
    var next := Do(s, step);
    assert WokenThreads(next) == WokenThreads(s) + {step.t};
    ExclusiveElsewhere(s, next, step.t);
  }

  /** Moving a thread that runs nothing to a phase that runs nothing. */
  lemma ExclusiveElsewhere(s: State, next: State, t: nat)
    requires Exclusive(s) && t in s.threads && !s.threads[t].Running? && t in next.threads && !next.threads[t].Running?
    requires next.threads == s.threads[t := next.threads[t]] && next.inprogress == s.inprogress
    ensures Exclusive(next)
  {
    forall z | z in next.inprogress ensures exists u :: u in next.threads && next.threads[u] == Running(z) {
      var u :| u in s.threads && s.threads[u] == Running(z);
      assert next.threads[u] == Running(z);
    }
  }

  /** A woken thread always finds a request. */
  lemma WokenFindsWork(s: State, t: nat)
    requires Counted(s) && t in s.threads && s.threads[t].Woken?
    ensures s.queue != {}
  {
    assert t in WokenThreads(s);
  }

  lemma DequeueKeeps(s: State, step: Step)
    requires Inv(s) && step.Dequeue? && Enabled(s, step)
    ensures Inv(Do(s, step))
  {
    var next := Do(s, step);
    WokenFindsWork(s, step.t);
    assert WokenThreads(next) == WokenThreads(s) - {step.t};
    ExclusiveElsewhere(s, next, step.t);
  }

  lemma EnterKeeps(s: State, step: Step)
    requires Inv(s) && step.Enter? && Enabled(s, step)
    ensures Inv(Do(s, step))
  {
    var next, domain := Do(s, step), s.threads[step.t].request.domain;
    assert WokenThreads(next) == WokenThreads(s);
    if domain in s.inprogress {
      ExclusiveElsewhere(s, next, step.t);
    } else {
      forall z | z in next.inprogress ensures exists u :: u in next.threads && next.threads[u] == Running(z) {
        if z == domain {
          assert next.threads[step.t] == Running(z);
        } else {
          var u :| u in s.threads && s.threads[u] == Running(z);
          assert next.threads[u] == Running(z);
        }
      }
    }
  }

  lemma LeaveKeeps(s: State, step: Step)
    requires Inv(s) && step.Leave? && Enabled(s, step)
    ensures Inv(Do(s, step))
  {
    var next := Do(s, step);
    assert WokenThreads(next) == WokenThreads(s);
    forall z | z in next.inprogress ensures exists u :: u in next.threads && next.threads[u] == Running(z) {
      var u :| u in s.threads && s.threads[u] == Running(z);
      assert next.threads[u] == Running(z);
    }
  }

  lemma StepKeeps(s: State, step: Step)
    requires Inv(s) && Enabled(s, step)
    ensures Inv(Do(s, step))
  {
    match step
    case Add(_, _, _, _, _) => AddKeeps(s, step);
    case Wake(_) => WakeKeeps(s, step);
    case Dequeue(_, _) => DequeueKeeps(s, step);
    case Enter(_) => EnterKeeps(s, step);
    case Leave(_) => LeaveKeeps(s, step);
  }

  // ---------------------------------------------------------------- runs

  predicate Starting(s: State) {
    s.sem == 0 && s.sorthelper == 0 && s.queue == {} && s.inprogress == {} && forall t :: t in s.threads ==> s.threads[t] == Waiting
  }

  predicate CanRun(s: State, steps: seq<Step>)
    decreases |steps|
  {
    steps == [] || (Enabled(s, steps[0]) && CanRun(Do(s, steps[0]), steps[1..]))
  }

  function Run(s: State, steps: seq<Step>): State
    requires CanRun(s, steps)
    decreases |steps|
  {
    if steps == [] then s else Run(Do(s, steps[0]), steps[1..])
  }

  lemma {:induction false} RunKeeps(s: State, steps: seq<Step>)
    requires Inv(s) && CanRun(s, steps)
    ensures Inv(Run(s, steps))
    decreases |steps|
  {
    hide Inv, Do, Enabled;
    if steps != [] {
      StepKeeps(s, steps[0]);
      RunKeeps(Do(s, steps[0]), steps[1..]);
    }
  }

  /** Safety over all interleavings. */
  lemma TransfersAreSafe(s: State, steps: seq<Step>)
    requires Starting(s) && CanRun(s, steps)
    ensures var e := Run(s, steps);
            && e.sem + |WokenThreads(e)| == |e.queue|
            && (forall q :: q in e.queue ==> q.order < e.sorthelper)
            && (forall p, q :: p in e.queue && q in e.queue && p != q ==> p.order != q.order && !SameTarget(p, q))
            && (forall t, u :: t in e.threads && u in e.threads && t != u && e.threads[t].Running? && e.threads[u].Running? ==>
                  e.threads[t].domain != e.threads[u].domain)
  {
    hide Run, CanRun;
    assert WokenThreads(s) == {};
    RunKeeps(s, steps);
  }

  // ---------------------------------------------------------------- what a request gets

  /**
   Its target is queued once: as asked for, or, where it was queued before, at the better of the two priorities, the
   place going with it; the other requests stay.
   */
  lemma RequestIsQueued(s: State, step: Step)
    requires Inv(s) && step.Add? && Enabled(s, step)
    ensures var r, next := NewRequest(s, step), Do(s, step);
            && (forall q :: !SameTarget(q, r) ==> (q in next.queue <==> q in s.queue))
            && (exists q :: q in next.queue && SameTarget(q, r) && NotAfter(q, r))
            && (forall q :: q in next.queue && SameTarget(q, r) ==>
                  || (q == r && forall o :: o in s.queue ==> !(o.domain == r.domain && o.primary == r.primary))
                  || exists o :: o in s.queue && o.domain == r.domain && o.primary == r.primary
                                 && q == Request(r.domain, r.primary, o.force,
                                                 if r.priority < o.priority then r.priority else o.priority,
                                                 if r.priority < o.priority then r.order else o.order))
            && (next.sem == s.sem <==> exists q :: q in s.queue && SameTarget(q, r))
            && |next.queue| == |s.queue| + next.sem - s.sem
  {
    var r, next := NewRequest(s, step), Do(s, step);
    BlockedByTarget(s, step);
    if Blocked(s.queue, r) {
      NothingDropped(s, step);
      var now := Promoted(step.blocker, r);
      assert now in next.queue && SameTarget(now, r) && NotAfter(now, r);
      forall q | q in next.queue && SameTarget(q, r) ensures q == now { OnlyTarget(s, step, q); }
    } else {
      assert r in next.queue && SameTarget(r, r) && NotAfter(r, r);
    }
  }

  lemma OnlyTarget(s: State, step: Step, q: Request)
    requires Inv(s) && step.Add? && Enabled(s, step) && Blocked(s.queue, NewRequest(s, step))
    requires q in Do(s, step).queue && SameTarget(q, NewRequest(s, step))
    ensures q == Promoted(step.blocker, NewRequest(s, step))
  {
    BlockedByTarget(s, step);
    NothingDropped(s, step);
  }

  /** A queue that is not empty has a first element, so a woken thread can go on. */
  lemma {:induction false} SomeFirst(queue: set<Request>) returns (r: Request)
    requires queue != {}
    ensures First(queue, r)
    decreases queue
  {
    var x :| x in queue;
    if queue == {x} {
      r := x;
    } else {
      var rest := queue - {x};
      assert queue == rest + {x};
      var y := SomeFirst(rest);
      r := if NotAfter(x, y) then x else y;
      forall q | q in queue ensures NotAfter(r, q) {
        assert q == x || q in rest;
      }
    }
  }

  /** With a request to be had, a waiting thread can wake up, take the first one and begin or drop it. */
  lemma WorkProceeds(s: State, t: nat)
    requires Inv(s) && t in s.threads && s.threads[t].Waiting? && s.sem > 0
    ensures Enabled(s, Wake(t)) && Do(s, Wake(t)).queue != {}
    ensures exists r :: && Enabled(Do(s, Wake(t)), Dequeue(t, r))
                        && Enabled(Do(Do(s, Wake(t)), Dequeue(t, r)), Enter(t))
  {
    var woken := Do(s, Wake(t));
    StepKeeps(s, Wake(t));
    WokenFindsWork(woken, t);
    var r := SomeFirst(woken.queue);
    assert Enabled(woken, Dequeue(t, r));
  }

  // ---------------------------------------------------------------- the shared data

  /** The critical sections, each a step of the protocol whatever the other threads do. */
  class Communicator {
    var sem: nat
    var sorthelper: nat
    var queue: set<Request>
    var inprogress: set<Zone>

    ghost function With(threads: map<nat, Phase>): State
      reads this
    {
      State(sem, sorthelper, queue, inprogress, threads)
    }

    method AddSuckRequest(domain: Zone, primary: string, priority: nat, force: bool, ghost threads: map<nat, Phase>)
      returns (ghost step: Step)
      requires sorthelper + 1 < COUNTER_LIMIT
      modifies this
      ensures step.Add? && step == Add(domain, primary, priority, force, step.blocker)
      ensures Enabled(old(With(threads)), step) && With(threads) == Do(old(With(threads)), step)
    {
      var sr := Request(domain, primary, force, priority, sorthelper);
      sorthelper := sorthelper + 1;
      if !Blocked(queue, sr) {
        queue := queue + {sr};
        sem := sem + 1;
        step := Add(domain, primary, priority, force, sr);
      } else {
        var so :| so in queue && Collide(so, sr);
        var now := so;
        if sr.priority < so.priority {
          now := so.(priority := sr.priority, order := sr.order);
        }
        queue := Modified(queue, so, now);
        step := Add(domain, primary, priority, force, so);
      }
    }

    /** One round of the retrieval loop up to the end of its critical section. */
    method TakeRequest(t: nat, ghost threads: map<nat, Phase>) returns (sr: Option<Request>, ghost step: Step)
      requires t in threads && threads[t].Woken?
      modifies this
      ensures step.Dequeue? && step.t == t && Enabled(old(With(threads)), step)
      ensures sr == if old(queue) == {} then None else Some(step.first)
      ensures sr.Some? ==>
                && sr.value in old(queue)
                && forall q :: q in old(queue) ==>
                     sr.value.priority < q.priority || (sr.value.priority == q.priority && sr.value.order <= q.order)
      ensures queue == (if sr.Some? then old(queue) - {sr.value} else {})
      ensures sem == old(sem) && inprogress == old(inprogress)
      ensures sorthelper == if sr.Some? && queue == {} then 0 else old(sorthelper)
      ensures With(threads[t := if sr.Some? then Dequeued(sr.value) else Waiting]) == Do(old(With(threads)), step)
    {
      if queue == {} {
        step := Dequeue(t, Request(Zone([], []), "", false, 0, 0));
        return None, step;
      }
      ghost var f := SomeFirst(queue);
      assert exists r :: First(queue, r);
      var first :| first in queue && First(queue, first);
      sr, step := Some(first), Dequeue(t, first);
      queue := queue - {first};
      if queue == {} { sorthelper := 0; }
    }

    /** The guard at the start of a transfer. */
    method BeginTransfer(t: nat, domain: Zone, ghost sr: Request, ghost threads: map<nat, Phase>) returns (go: bool)
      requires t in threads && threads[t] == Dequeued(sr) && sr.domain == domain
      modifies this
      ensures go <==> domain !in old(inprogress)
      ensures inprogress == old(inprogress) + {domain}
      ensures sem == old(sem) && queue == old(queue) && sorthelper == old(sorthelper)
      ensures With(threads[t := if go then Running(domain) else Waiting]) == Do(old(With(threads)), Enter(t))
    {
      go := domain !in inprogress;
      if go { inprogress := inprogress + {domain}; }
    }

    /** The sentinel's destructor. */
    method EndTransfer(t: nat, domain: Zone, ghost threads: map<nat, Phase>)
      requires t in threads && threads[t] == Running(domain)
      modifies this
      ensures inprogress == old(inprogress) - {domain}
      ensures sem == old(sem) && queue == old(queue) && sorthelper == old(sorthelper)
      ensures With(threads[t := Waiting]) == Do(old(With(threads)), Leave(t))
    {
      inprogress := inprogress - {domain};
    }
  }
}

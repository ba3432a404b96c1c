/** The calls of a run of `QueueMicroSteps`: what they ask for is what is done, and they all end. */
module QueueCalls {
  import opened Common
  import opened QueueMicroSteps

  predicate IsCall(a: Step) {
    a.CallEnqueue? || a.CallDequeue?
  }

  /** The state a run ends in. */
  function EndOf(s: State, steps: seq<Step>): (s': State)
    requires Inv(s) && Executable(s, steps)
  {
    Trace(s, steps)[|steps|]
  }

  /** The data of the Enqueue calls that thread `t` makes in a run, in order. */
  function CalledBy(steps: seq<Step>, t: nat): (r: seq<int>)
    decreases |steps|
  {
    if steps == [] then [] else Asked(steps[0], t) + CalledBy(steps[1..], t)
  }

  function Asked(a: Step, t: nat): (r: seq<int>) {
    if a.CallEnqueue? && a.t == t then [a.data] else []
  }

  /** What thread `t` has of `Pushed`. */
  function PushedOf(q: seq<Atomic>, ts: seq<nat>, t: nat): (r: seq<int>)
    requires AtomicRun(q, ts)
    decreases |ts|
  {
    if ts == [] then []
    else (if ts[0] == t then PushedBy(q[0].calls, q[1].calls, t) else []) + PushedOf(q[1..], ts[1..], t)
  }

  /** The data that a thread still has to put in the queue. */
  function Pending(pc: Pc): (r: seq<int>) {
    if CallOf(pc).Enqueueing? then [CallOf(pc).data] else []
  }

  // ---- The history is that of the calls ----

  lemma OthersStay(s: State, a: Step)
    requires Inv(s) && Enabled(s, a)
    ensures Safe(s, a) && |Apply(s, a).pcs| == |s.pcs| && a.t < |s.pcs|
    ensures Apply(s, a).pcs == s.pcs[a.t := Apply(s, a).pcs[a.t]]
  {
    NeverUnsafe(s, a);
    hide Inv, Safe, Dereferenced;
    if a.Continue? {
      hide Apply, Advanced;
      ContinueMovesOne(s, a.t);
    } else {
      hide Advanced;
    }
  }

  lemma ContinueMovesOne(s: State, t: nat)
    requires Enabled(s, Continue(t)) && Safe(s, Continue(t))
    ensures Apply(s, Continue(t)) == Advanced(s, t)
    ensures |Advanced(s, t).pcs| == |s.pcs| && Advanced(s, t).pcs == s.pcs[t := Advanced(s, t).pcs[t]]
  {
    hide Safe, Dereferenced;
  }

  /** Only a call starts anything, and it starts what it says. */
  lemma OnlyCallsStart(s: State, a: Step)
    requires Enabled(s, a) && Safe(s, a)
    ensures s.pcs[a.t].Outside? <==> IsCall(a)
    ensures a.CallEnqueue? ==> CallOf(Apply(s, a).pcs[a.t]) == Enqueueing(a.data)
    ensures a.CallDequeue? ==> CallOf(Apply(s, a).pcs[a.t]) == Dequeueing
    ensures CallOf(s.pcs[a.t]).NoCall? <==> s.pcs[a.t].Outside?
  {
    hide Safe, Dereferenced, Advanced;
  }

  lemma StepIsItsCall(s: State, a: Step, t: nat)
    requires Inv(s) && Enabled(s, a) && t < |s.pcs|
    ensures Safe(s, a) && t < |Apply(s, a).pcs|
    ensures Pending(s.pcs[t]) + Asked(a, t)
         == (if a.t == t then PushedBy(Abstract(s).calls, Abstract(Apply(s, a)).calls, t) else [])
            + Pending(Apply(s, a).pcs[t])
  {
    OthersStay(s, a);
    StepRefines(s, a);
    OnlyCallsStart(s, a);
    hide Inv, Safe, Apply, Enabled, CallOf, Entries;
  }

  /** In every run, what a thread has put in the queue is what its Enqueue calls asked for, in
      order, short of at most the call it is still in. */
  lemma {:induction false} PushedIsCalled(s: State, steps: seq<Step>, t: nat)
    requires Inv(s) && Executable(s, steps) && t < |s.pcs|
    ensures var q, ts := AbstractAll(Trace(s, steps)), Threads(steps);
            && AtomicRun(q, ts) && t < |EndOf(s, steps).pcs|
            && Pending(s.pcs[t]) + CalledBy(steps, t) == PushedOf(q, ts, t) + Pending(EndOf(s, steps).pcs[t])
    decreases |steps|
  {
    hide Inv, Enabled, Abstract, Apply, AtomicOrStutter, Pending, Asked, PushedBy;
    TraceRefines(s, steps);
    if steps != [] {
      var a := steps[0];
      StepKeepsInv(s, a);
      StepIsItsCall(s, a, t);
      var s1 := Apply(s, a);
      PushedIsCalled(s1, steps[1..], t);
      var tr, rest := Trace(s, steps), Trace(s1, steps[1..]);
      assert tr == [s] + rest;
      assert AbstractAll(tr)[1..] == AbstractAll(rest) && Threads(steps)[1..] == Threads(steps[1..]);
      var put := if a.t == t then PushedBy(Abstract(s).calls, Abstract(s1).calls, t) else [];
      Associative(Pending(s.pcs[t]), Asked(a, t), CalledBy(steps[1..], t));
      Associative(put, Pending(s1.pcs[t]), CalledBy(steps[1..], t));
      Associative(put, PushedOf(AbstractAll(rest), Threads(steps[1..]), t), Pending(EndOf(s, steps).pcs[t]));
      assert AbstractAll(tr)[0] == Abstract(s) && AbstractAll(tr)[1] == Abstract(s1);
    }
  }

  // ---- Calls end ----

  /** How many steps a thread has still to take, at most. */
  function StepsLeft(pc: Pc): (n: nat)
    ensures n == 0 <==> pc.Outside?
  {
    match pc
    case Outside => 0
    case EnqueueWait(_) => 7
    case Alloc(_) => 6
    case LinkBack(_, _) => 5
    case SetTail(_, _) => 4
    case TestHead(_, _) => 3
    case SetHead(_, _) => 2
    case LinkForward(_, _) => 2
    case ReleaseEnqueue(_) => 1
    case DequeueWait => 7
    case TestEmpty => 6
    case ReadEntry => 5
    case Advance(_, _) => 4
    case FixEnd(_, _) => 3
    case FreeNode(_, _) => 2
    case ReleaseDequeue(_) => 1
  }

  /** Every step but a call brings its thread nearer to its return; a call is at most 7 steps. */
  lemma StepsShrink(s: State, a: Step)
    requires Inv(s) && Enabled(s, a)
    ensures Safe(s, a) && a.t < |Apply(s, a).pcs|
    ensures IsCall(a) ==> StepsLeft(s.pcs[a.t]) == 0 && StepsLeft(Apply(s, a).pcs[a.t]) == 7
    ensures !IsCall(a) ==> StepsLeft(Apply(s, a).pcs[a.t]) < StepsLeft(s.pcs[a.t])
  {
    NeverUnsafe(s, a);
    OthersStay(s, a);
    hide Inv, Safe, Dereferenced;
    if a.Continue? {
      hide Apply;
      ContinueShrinks(s, a.t);
    } else {
      hide Advanced;
    }
  }

  lemma ContinueShrinks(s: State, t: nat)
    requires Enabled(s, Continue(t)) && Safe(s, Continue(t))
    ensures Apply(s, Continue(t)) == Advanced(s, t)
    ensures |Advanced(s, t).pcs| == |s.pcs|
    ensures StepsLeft(Advanced(s, t).pcs[t]) < StepsLeft(s.pcs[t])
  {
    hide Safe, Dereferenced;
    var pc := s.pcs[t];
    match pc
    case TestHead(_, _) =>
    case TestEmpty =>
    case FixEnd(_, _) =>
    case SetHead(_, _) =>
    case LinkForward(_, _) =>
    case LinkBack(_, _) =>
    case SetTail(_, _) =>
    case ReadEntry =>
    case Advance(_, _) =>
    case FreeNode(_, _) =>
    case ReleaseEnqueue(_) =>
    case ReleaseDequeue(_) =>
    case _ =>
  }

  lemma {:induction false} FreshAddress(used: set<Addr>) returns (p: Addr)
    ensures p != NULL && forall u :: u in used ==> u < p
  {
    if used == {} {
      p := 1;
    } else {
      var u :| u in used;
      p := FreshAddress(used - {u});
      assert used == (used - {u}) + {u};
      p := if p > u then p else u + 1;
    }
  }

  /** A thread in a call can go on, unless it waits for a mutex that another one holds. */
  lemma CanGoOn(s: State, t: nat) returns (a: Step)
    requires Inv(s) && t < |s.pcs| && !s.pcs[t].Outside? && (s.owner.None? || s.owner == Some(t))
    ensures Enabled(s, a) && a.t == t && !IsCall(a)
  {
    hide WellFormed, ShapeAt;
    var pc := s.pcs[t];
    var p := FreshAddress(s.heap.Keys);
    a := if pc.EnqueueWait? || pc.DequeueWait? then Acquire(t) else if pc.Alloc? then Allocate(t, p) else Continue(t);
  }

  /** What it does next is determined, up to the address of a new node. */
  lemma OnlyOneStep(s: State, a: Step, b: Step)
    requires Enabled(s, a) && Enabled(s, b) && a.t == b.t && !IsCall(a)
    ensures a == b || (a.Allocate? && b.Allocate?)
  {
  }

  /** As long as some thread is in a call, the owner of the mutex, or with the mutex free any such
      thread, has a step that brings it nearer to its return. */
  lemma NeverDeadlocked(s: State, t: nat) returns (a: Step)
    requires Inv(s) && t < |s.pcs| && !s.pcs[t].Outside?
    ensures Enabled(s, a) && !IsCall(a) && a.t == if s.owner.Some? then s.owner.value else t
    ensures Safe(s, a) && a.t < |Apply(s, a).pcs| && StepsLeft(Apply(s, a).pcs[a.t]) < StepsLeft(s.pcs[a.t])
  {
    hide WellFormed, ShapeAt, Apply, Safe;
    a := CanGoOn(s, if s.owner.Some? then s.owner.value else t);
    StepsShrink(s, a);
  }

  function AllStepsLeft(pcs: seq<Pc>): (n: nat) {
    if pcs == [] then 0 else StepsLeft(pcs[0]) + AllStepsLeft(pcs[1..])
  }

  lemma {:induction false} StepsLeftOfUpdate(pcs: seq<Pc>, t: nat, pc: Pc)
    requires t < |pcs|
    ensures AllStepsLeft(pcs[t := pc]) + StepsLeft(pcs[t]) == AllStepsLeft(pcs) + StepsLeft(pc)
  {
    hide StepsLeft;
    if t > 0 {
      StepsLeftOfUpdate(pcs[1..], t - 1, pc);
      assert pcs[t := pc][1..] == pcs[1..][t - 1 := pc];
    }
  }

  lemma {:induction false} NobodyLeft(threads: nat)
    ensures AllStepsLeft(Init(threads).pcs) == 0
  {
    if threads > 0 {
      NobodyLeft(threads - 1);
      assert Init(threads).pcs[1..] == Init(threads - 1).pcs;
    }
  }

  function CallsIn(steps: seq<Step>): (n: nat)
    decreases |steps|
  {
    if steps == [] then 0 else (if IsCall(steps[0]) then 1 else 0) + CallsIn(steps[1..])
  }

  /** Every run, under every interleaving, is bounded by the calls that are made in it. */
  lemma {:induction false} RunIsBounded(s: State, steps: seq<Step>)
    requires Inv(s) && Executable(s, steps)
    ensures |steps| + AllStepsLeft(EndOf(s, steps).pcs) <= AllStepsLeft(s.pcs) + 8 * CallsIn(steps)
    decreases |steps|
  {
    hide Inv, Enabled, Apply, StepsLeft, AllStepsLeft;
    if steps != [] {
      var a := steps[0];
      StepKeepsInv(s, a);
      OthersStay(s, a);
      StepsShrink(s, a);
      StepsLeftOfUpdate(s.pcs, a.t, Apply(s, a).pcs[a.t]);
      RunIsBounded(Apply(s, a), steps[1..]);
    }
  }

  /** A state in which nothing but a new call can happen. */
  ghost predicate AtRest(s: State) {
    forall a :: Enabled(s, a) ==> IsCall(a)
  }

  /** Every run of any number of threads makes at most 8 steps a call. What each thread has put in
      the queue is what it asked for, short of at most its last call, and all of it when the run
      cannot go on without a new call. */
  lemma CallsTakeEffect(threads: nat, steps: seq<Step>, t: nat)
    requires Executable(Start(threads), steps) && t < threads
    ensures |steps| <= 8 * CallsIn(steps)
    ensures var q, ts := AbstractAll(Trace(Start(threads), steps)), Threads(steps);
            var end := EndOf(Start(threads), steps);
            && AtomicRun(q, ts) && t < |end.pcs|
            && CalledBy(steps, t) == PushedOf(q, ts, t) + Pending(end.pcs[t])
            && (AtRest(end) ==> end.pcs[t] == Outside && CalledBy(steps, t) == PushedOf(q, ts, t))
  {
    var s := Start(threads);
    PushedIsCalled(s, steps, t);
    RunIsBounded(s, steps);
    NobodyLeft(threads);
    TraceRefines(s, steps);
    var end := EndOf(s, steps);
    assert [] + CalledBy(steps, t) == CalledBy(steps, t);
    assert Inv(end);
    hide Inv, Executable, Trace, AbstractAll, Enabled;
    if AtRest(end) && !end.pcs[t].Outside? {
      var a := NeverDeadlocked(end, t);
    }
    assert PushedOf(AbstractAll(Trace(s, steps)), Threads(steps), t) + []
        == PushedOf(AbstractAll(Trace(s, steps)), Threads(steps), t);
  }

  // ---- A call that runs alone ----

  /** What the call of thread `t` will have made of the queue, and what it will return. */
  function QueueAfter(q: Atomic, t: nat): (r: seq<int>)
    requires t < |q.calls|
  {
    match q.calls[t]
    case Enqueueing(d) => q.queue + [d]
    case Dequeueing => if q.queue == [] then [] else q.queue[1..]
    case _ => q.queue
  }

  function ResultOf(q: Atomic, t: nat): (r: Option<int>)
    requires t < |q.calls|
  {
    match q.calls[t]
    case Dequeueing => if q.queue == [] then None else Some(q.queue[0])
    case Dequeued(r) => r
    case _ => None
  }

  /** No other thread moved. */
  predicate OnlyMoved(pcs: seq<Pc>, pcs': seq<Pc>, t: nat) {
    t < |pcs| == |pcs'| && forall u :: 0 <= u < |pcs| && u != t ==> pcs'[u] == pcs[u]
  }

  lemma OnlyMovedTwice(pcs: seq<Pc>, pcs1: seq<Pc>, pcs2: seq<Pc>, t: nat)
    requires OnlyMoved(pcs, pcs1, t) && OnlyMoved(pcs1, pcs2, t)
    ensures OnlyMoved(pcs, pcs2, t)
  {
  }

  /** Only thread `t` moves, and it makes no call. */
  predicate Alone(steps: seq<Step>, t: nat) {
    forall i :: 0 <= i < |steps| ==> steps[i].t == t && !IsCall(steps[i])
  }

  /** Thread `t` is the one to move, and on its way `q` and `r` are to come out. */
  predicate OnItsWay(s: State, t: nat, q: seq<int>, r: Option<int>) {
    && t < |s.pcs| && (s.pcs[t].Outside? ==> s.owner.None?)
    && (s.owner.None? || s.owner == Some(t))
    && QueueAfter(Abstract(s), t) == q && (s.pcs[t].Outside? || ResultOf(Abstract(s), t) == r)
  }

  lemma OwnerOf(s: State, t: nat)
    requires Inv(s) && t < |s.pcs| && s.pcs[t].Outside?
    ensures s.owner != Some(t)
  {
  }

  lemma OwnerMoves(s: State, a: Step)
    requires Enabled(s, a) && Safe(s, a)
    ensures Apply(s, a).owner == s.owner || Apply(s, a).owner.None? || Apply(s, a).owner == Some(a.t)
  {
    hide Safe, Dereferenced;
  }

  lemma AtomicStaysOnItsWay(q: Atomic, q': Atomic, t: nat)
    requires AtomicOrStutter(q, q', t) && t < |q.calls| && !q.calls[t].NoCall?
    ensures t < |q'.calls| && QueueAfter(q', t) == QueueAfter(q, t)
    ensures q'.calls[t].NoCall? || ResultOf(q', t) == ResultOf(q, t)
  {
  }

  lemma CallAt(s: State, t: nat)
    requires t < |s.pcs|
    ensures |Abstract(s).calls| == |s.pcs| && Abstract(s).calls[t] == CallOf(s.pcs[t])
    ensures CallOf(s.pcs[t]).NoCall? <==> s.pcs[t].Outside?
  {
    hide Entries;
  }

  lemma StaysOnItsWay(s: State, a: Step, q: seq<int>, r: Option<int>)
    requires Inv(s) && Enabled(s, a) && !IsCall(a) && OnItsWay(s, a.t, q, r)
    ensures Safe(s, a) && Inv(Apply(s, a)) && OnItsWay(Apply(s, a), a.t, q, r)
  {
    StepKeepsInv(s, a);
    StepRefines(s, a);
    OthersStay(s, a);
    OnlyCallsStart(s, a);
    OwnerMoves(s, a);
    var s' := Apply(s, a);
    CallAt(s, a.t);
    CallAt(s', a.t);
    if s'.pcs[a.t].Outside? {
      OwnerOf(s', a.t);
    }
    hide Inv, Safe, Apply, Enabled, CallOf, Abstract, AtomicOrStutter, QueueAfter, ResultOf;
    AtomicStaysOnItsWay(Abstract(s), Abstract(s'), a.t);
  }

  /** A call that runs alone stays on its way to what it is to do. */
  lemma {:induction false} RunsAlone(s: State, steps: seq<Step>, t: nat, q: seq<int>, r: Option<int>)
    requires Inv(s) && Executable(s, steps) && Alone(steps, t) && OnItsWay(s, t, q, r)
    ensures var s' := EndOf(s, steps);
            && Inv(s') && OnItsWay(s', t, q, r) && OnlyMoved(s.pcs, s'.pcs, t)
            && |steps| + StepsLeft(s'.pcs[t]) <= StepsLeft(s.pcs[t])
    decreases |steps|
  {
    hide Inv, Enabled, Apply, StepsLeft, OnItsWay;
    assert t < |s.pcs| by { OnWayIsThread(s, t, q, r); }
    if steps != [] {
      var a := steps[0];
      StaysOnItsWay(s, a, q, r);
      OthersStay(s, a);
      StepsShrink(s, a);
      var s1 := Apply(s, a);
      assert OnlyMoved(s.pcs, s1.pcs, t);
      hide OnlyMoved;
      RunsAlone(s1, steps[1..], t, q, r);
      OnlyMovedTwice(s.pcs, s1.pcs, EndOf(s1, steps[1..]).pcs, t);
    }
  }

  lemma OnWayIsThread(s: State, t: nat, q: seq<int>, r: Option<int>)
    requires OnItsWay(s, t, q, r)
    ensures t < |s.pcs|
  {
  }

  /** From `s` only thread `t` moved. It has returned, the queue is `queue` and the mutex is free; or
      it can go on. A Dequeue about to return holds `result`. */
  ghost predicate ComesTo(s: State, s': State, t: nat, queue: seq<int>, result: Option<int>) {
    && OnlyMoved(s.pcs, s'.pcs, t)
    && (s'.pcs[t] == Outside ==> s'.owner == None && Abstract(s').queue == queue)
    && (s'.pcs[t].ReleaseDequeue? ==> s'.pcs[t].result == result)
    && (s'.pcs[t] != Outside ==> exists a :: Enabled(s', a) && a.t == t && !IsCall(a))
  }

  lemma ComesOnItsWay(s: State, s': State, t: nat, q: seq<int>, r: Option<int>)
    requires Inv(s') && OnItsWay(s', t, q, r) && OnlyMoved(s.pcs, s'.pcs, t)
    ensures ComesTo(s, s', t, q, r)
  {
    hide Inv, Enabled, OnItsWay, Abstract, OnlyMoved, IsCall;
    assert t < |s'.pcs| by { OnWayIsThread(s', t, q, r); }
    OnWayComes(s', t, q, r);
    if !s'.pcs[t].Outside? {
      var a := CanGoOn(s', t);
    } else {
      assert s'.pcs[t] == Outside;
    }
    assert OnlyMoved(s.pcs, s'.pcs, t);
  }

  lemma OnWayComes(s: State, t: nat, q: seq<int>, r: Option<int>)
    requires OnItsWay(s, t, q, r)
    ensures s.owner.None? || s.owner == Some(t)
    ensures s.pcs[t] == Outside ==> s.owner == None && Abstract(s).queue == q
    ensures s.pcs[t].ReleaseDequeue? ==> s.pcs[t].result == r
  {
    CallAt(s, t);
    hide Abstract;
  }

  /** An Enqueue that runs alone, from any state with the mutex free, can always go on until it
      returns, which it does within 7 steps, and has then appended its data. */
  lemma EnqueueAlone(s: State, t: nat, data: int, steps: seq<Step>)
    requires Inv(s) && s.owner.None? && t < |s.pcs| && s.pcs[t] == Outside && Alone(steps, t)
    requires Executable(s, [CallEnqueue(t, data)] + steps)
    ensures |steps| <= 7
    ensures ComesTo(s, EndOf(s, [CallEnqueue(t, data)] + steps), t, Abstract(s).queue + [data], None)
  {
    CallAlone(s, CallEnqueue(t, data), steps);
  }

  /** And so a Dequeue: it takes off the head, and before it returns it holds what it took. */
  lemma DequeueAlone(s: State, t: nat, steps: seq<Step>)
    requires Inv(s) && s.owner.None? && t < |s.pcs| && s.pcs[t] == Outside && Alone(steps, t)
    requires Executable(s, [CallDequeue(t)] + steps)
    ensures |steps| <= 7
    ensures var q := Abstract(s).queue;
            ComesTo(s, EndOf(s, [CallDequeue(t)] + steps), t, if q == [] then [] else q[1..],
                    if q == [] then None else Some(q[0]))
  {
    CallAlone(s, CallDequeue(t), steps);
  }

  function CalledQueue(a: Step, q: seq<int>): (r: seq<int>) {
    if a.CallEnqueue? then q + [a.data] else if q == [] then [] else q[1..]
  }

  function CalledResult(a: Step, q: seq<int>): (r: Option<int>) {
    if a.CallEnqueue? || q == [] then None else Some(q[0])
  }

  lemma CallAlone(s: State, a: Step, steps: seq<Step>)
    requires Inv(s) && s.owner.None? && IsCall(a) && Executable(s, [a] + steps) && Alone(steps, a.t)
    ensures |steps| <= 7
    ensures ComesTo(s, EndOf(s, [a] + steps), a.t, CalledQueue(a, Abstract(s).queue),
                    CalledResult(a, Abstract(s).queue))
  {
    var q := Abstract(s).queue;
    var s1 := AfterCall(s, a, steps);
    hide *;
    RunsAlone(s1, steps, a.t, CalledQueue(a, q), CalledResult(a, q));
    OnlyMovedTwice(s.pcs, s1.pcs, EndOf(s1, steps).pcs, a.t);
    ComesOnItsWay(s, EndOf(s1, steps), a.t, CalledQueue(a, q), CalledResult(a, q));
  }

  /** The state after the call itself. */
  lemma AfterCall(s: State, a: Step, steps: seq<Step>) returns (s1: State)
    requires Inv(s) && s.owner.None? && IsCall(a) && Executable(s, [a] + steps)
    ensures a.t < |s.pcs| && s.pcs[a.t].Outside? && Inv(s1) && Executable(s1, steps)
    ensures EndOf(s, [a] + steps) == EndOf(s1, steps) && s1.owner.None?
    ensures OnlyMoved(s.pcs, s1.pcs, a.t) && StepsLeft(s1.pcs[a.t]) == 7
    ensures OnItsWay(s1, a.t, CalledQueue(a, Abstract(s).queue), CalledResult(a, Abstract(s).queue))
  {
    hide *;
    FirstStep(s, a, steps);
    s1 := Apply(s, a);
    SetsOut(s, a);
  }

  lemma FirstStep(s: State, a: Step, steps: seq<Step>)
    requires Inv(s) && Executable(s, [a] + steps)
    ensures Enabled(s, a) && Safe(s, a) && Inv(Apply(s, a)) && Executable(Apply(s, a), steps)
    ensures EndOf(s, [a] + steps) == EndOf(Apply(s, a), steps)
  {
    hide Inv, Enabled, Apply;
    assert ([a] + steps)[0] == a && ([a] + steps)[1..] == steps;
    StepKeepsInv(s, a);
  }

  lemma SetsOut(s: State, a: Step)
    requires Inv(s) && s.owner.None? && IsCall(a) && Enabled(s, a)
    ensures Safe(s, a) && a.t < |s.pcs|
    ensures var s1 := Apply(s, a);
            && s1.owner.None? && s.pcs[a.t].Outside?
            && OnlyMoved(s.pcs, s1.pcs, a.t) && StepsLeft(s1.pcs[a.t]) == 7
            && OnItsWay(s1, a.t, CalledQueue(a, Abstract(s).queue), CalledResult(a, Abstract(s).queue))
  {
    StepsShrink(s, a);
    OnlyCallsStart(s, a);
    CallKeepsQueue(s, a);
    hide Inv, Safe, Abstract, CallOf, Apply, Enabled, StepsLeft, OnlyMoved, QueueAfter, ResultOf, CalledQueue,
         CalledResult;
    CallAt(Apply(s, a), a.t);
    WhatWasCalled(Abstract(Apply(s, a)), a);
  }

  lemma WhatWasCalled(q: Atomic, a: Step)
    requires a.t < |q.calls| && IsCall(a)
    requires q.calls[a.t] == if a.CallEnqueue? then Enqueueing(a.data) else Dequeueing
    ensures QueueAfter(q, a.t) == CalledQueue(a, q.queue) && ResultOf(q, a.t) == CalledResult(a, q.queue)
  {
  }

  lemma CallKeepsQueue(s: State, a: Step)
    requires Enabled(s, a) && Safe(s, a) && IsCall(a)
    ensures var s1 := Apply(s, a);
            && Abstract(s1).queue == Abstract(s).queue && s1.owner == s.owner && OnlyMoved(s.pcs, s1.pcs, a.t)
  {
    hide Safe, Entries, Calls;
  }
}

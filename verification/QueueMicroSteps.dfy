/** Enqueue and Dequeue run by any number of threads that interleave between steps, each of which
    makes at most one write to the list. The heap is a map from addresses to nodes; address 0 is
    NULL. */
module QueueMicroSteps {
  import opened Common

  type Addr = nat
  const NULL: Addr := 0

  datatype Cell = Cell(entry: int, next: Addr, prev: Addr)

  /** Where a thread stands. From `Alloc` to `Release` it holds the mutex. */
  datatype Pc =
    | Outside
    | EnqueueWait(data: int)                  // waits for the mutex
    | Alloc(data: int)                        // about to allocate and fill the node
    | LinkBack(data: int, node: Addr)         // about to set node->prev to the tail
    | SetTail(data: int, node: Addr)          // about to set the tail
    | TestHead(data: int, node: Addr)         // about to test the head
    | SetHead(data: int, node: Addr)          // about to set the head
    | LinkForward(data: int, node: Addr)      // about to set node->prev->next
    | ReleaseEnqueue(data: int)
    | DequeueWait
    | TestEmpty                               // about to test the head
    | ReadEntry                               // about to read the head node
    | Advance(node: Addr, data: int)          // about to move the head on
    | FixEnd(node: Addr, data: int)           // about to reset head->prev, or the tail
    | FreeNode(node: Addr, data: int)         // about to free the old head
    | ReleaseDequeue(result: Option<int>)

  predicate InCriticalSection(pc: Pc) {
    !pc.Outside? && !pc.EnqueueWait? && !pc.DequeueWait?
  }

  /** `chain` is an auxiliary record of the linked nodes, in order; no step reads it. */
  datatype State = State(
    heap: map<Addr, Cell>,
    head: Addr,
    tail: Addr,
    owner: Option<nat>,
    pcs: seq<Pc>,
    chain: seq<Addr>)

  function Init(threads: nat): (s': State) {
    State(map[], NULL, NULL, None, seq(threads, i => Outside), [])
  }

  /** A step names the thread; a call to Enqueue brings its data, an allocation its address. */
  datatype Step =
    | CallEnqueue(t: nat, data: int)
    | CallDequeue(t: nat)
    | Acquire(t: nat)
    | Allocate(t: nat, addr: Addr)
    | Continue(t: nat)

  predicate Enabled(s: State, a: Step) {
    a.t < |s.pcs| &&
    match a
    case CallEnqueue(t, _) => s.pcs[t].Outside?
    case CallDequeue(t) => s.pcs[t].Outside?
    case Acquire(t) => (s.pcs[t].EnqueueWait? || s.pcs[t].DequeueWait?) && s.owner.None?
    case Allocate(t, addr) => s.pcs[t].Alloc? && addr != NULL && addr !in s.heap
    case Continue(t) => InCriticalSection(s.pcs[t]) && !s.pcs[t].Alloc?
  }

  /** The addresses a step dereferences. */
  function Dereferenced(s: State, a: Step): (r: set<Addr>)
    requires Enabled(s, a)
  {
    if !a.Continue? then {}
    else
      match s.pcs[a.t]
      case LinkBack(_, n) => {n}
      case LinkForward(_, n) => if n in s.heap then {n, s.heap[n].prev} else {n}
      case ReadEntry => {s.head}
      case Advance(_, _) => {s.head}
      case FixEnd(_, _) => if s.head == NULL then {} else {s.head}
      case FreeNode(n, _) => {n}
      case _ => {}
  }

  predicate Safe(s: State, a: Step)
    requires Enabled(s, a)
  {
    forall p :: p in Dereferenced(s, a) ==> p != NULL && p in s.heap
  }

  function Goto(s: State, t: nat, pc: Pc): (s': State)
    requires t < |s.pcs|
  {
    s.(pcs := s.pcs[t := pc])
  }

  function Apply(s: State, a: Step): (s': State)
    requires Enabled(s, a) && Safe(s, a)
  {
    match a
    case CallEnqueue(t, data) => Goto(s, t, EnqueueWait(data))
    case CallDequeue(t) => Goto(s, t, DequeueWait)
    case Acquire(t) =>
      Goto(s, t, if s.pcs[t].EnqueueWait? then Alloc(s.pcs[t].data) else TestEmpty).(owner := Some(t))
    case Allocate(t, addr) =>
      Goto(s, t, LinkBack(s.pcs[t].data, addr)).(heap := s.heap[addr := Cell(s.pcs[t].data, NULL, NULL)])
    case Continue(t) => Advanced(s, t)
  }

  function Advanced(s: State, t: nat): (s': State)
    requires Enabled(s, Continue(t)) && Safe(s, Continue(t))
  {
    assert forall p :: p in Dereferenced(s, Continue(t)) ==> p in s.heap;
    match s.pcs[t]
    case LinkBack(d, n) =>
      assert n in Dereferenced(s, Continue(t));
      Goto(s, t, SetTail(d, n)).(heap := s.heap[n := s.heap[n].(prev := s.tail)])
    case SetTail(d, n) => Goto(s, t, TestHead(d, n)).(tail := n)
    case TestHead(d, n) => Goto(s, t, if s.head == NULL then SetHead(d, n) else LinkForward(d, n))
    case SetHead(d, n) => Goto(s, t, ReleaseEnqueue(d)).(head := n, chain := s.chain + [n])
    case LinkForward(d, n) =>
      assert n in Dereferenced(s, Continue(t));
      var p := s.heap[n].prev;
      assert p in Dereferenced(s, Continue(t));
      Goto(s, t, ReleaseEnqueue(d)).(heap := s.heap[p := s.heap[p].(next := n)], chain := s.chain + [n])
    case ReleaseEnqueue(_) => Goto(s, t, Outside).(owner := None)
    case TestEmpty => Goto(s, t, if s.head == NULL then ReleaseDequeue(None) else ReadEntry)
    case ReadEntry =>
      assert s.head in Dereferenced(s, Continue(t));
      Goto(s, t, Advance(s.head, s.heap[s.head].entry))
    case Advance(n, d) =>
      assert s.head in Dereferenced(s, Continue(t));
      Goto(s, t, FixEnd(n, d)).(head := s.heap[s.head].next, chain := if s.chain == [] then [] else s.chain[1..])
    case FixEnd(n, d) =>
      if s.head == NULL then Goto(s, t, FreeNode(n, d)).(tail := NULL)
      else
        assert s.head in Dereferenced(s, Continue(t));
        Goto(s, t, FreeNode(n, d)).(heap := s.heap[s.head := s.heap[s.head].(prev := NULL)])
    case FreeNode(n, d) => Goto(s, t, ReleaseDequeue(Some(d))).(heap := s.heap - {n})
    case ReleaseDequeue(_) => Goto(s, t, Outside).(owner := None)
    case _ => s
  }

  // ---- What holds in every reachable state ----

  function First(chain: seq<Addr>): (r: Addr) {
    if chain == [] then NULL else chain[0]
  }

  function Last(chain: seq<Addr>): (r: Addr) {
    if chain == [] then NULL else chain[|chain| - 1]
  }

  function ChainAt(chain: seq<Addr>, i: int): (r: Addr) {
    if 0 <= i < |chain| then chain[i] else NULL
  }

  /** The nodes of `chain` are linked both ways; `front` is what the first one's `prev` holds. */
  predicate Links(heap: map<Addr, Cell>, chain: seq<Addr>, front: Addr) {
    && Distinct(chain)
    && (forall i :: 0 <= i < |chain| ==> chain[i] != NULL && chain[i] in heap)
    && (forall i {:trigger heap[chain[i]].next} :: 0 <= i < |chain| ==> heap[chain[i]].next == ChainAt(chain, i + 1))
    && (forall i {:trigger heap[chain[i]].prev} :: 0 <= i < |chain| ==>
          heap[chain[i]].prev == if i == 0 then front else ChainAt(chain, i - 1))
  }

  /** No node outside the chain but, possibly, `extra`. */
  predicate OnlyNodes(heap: map<Addr, Cell>, chain: seq<Addr>, extra: Option<Addr>) {
    && (forall p :: p in heap ==> p in chain || extra == Some(p))
    && (extra.Some? ==> extra.value != NULL && extra.value in heap && extra.value !in chain)
  }

  predicate WellFormed(s: State) {
    && Links(s.heap, s.chain, NULL) && OnlyNodes(s.heap, s.chain, None)
    && s.head == First(s.chain) && s.tail == Last(s.chain)
  }

  /** The list while its mutex is held by a thread at `pc`. */
  predicate ShapeAt(s: State, pc: Pc) {
    match pc
    case LinkBack(d, n) =>
      && Links(s.heap, s.chain, NULL) && OnlyNodes(s.heap, s.chain, Some(n)) && s.heap[n] == Cell(d, NULL, NULL)
      && s.head == First(s.chain) && s.tail == Last(s.chain)
    case SetTail(d, n) =>
      && Links(s.heap, s.chain, NULL) && OnlyNodes(s.heap, s.chain, Some(n))
      && s.heap[n] == Cell(d, NULL, Last(s.chain))
      && s.head == First(s.chain) && s.tail == Last(s.chain)
    case TestHead(d, n) => NewTail(s, d, n)
    case SetHead(d, n) => NewTail(s, d, n) && s.chain == []
    case LinkForward(d, n) => NewTail(s, d, n) && s.chain != []
    case ReadEntry => WellFormed(s) && s.chain != []
    case Advance(n, d) => WellFormed(s) && s.chain != [] && n == s.chain[0] && s.heap[n].entry == d
    case FixEnd(n, d) =>
      && Links(s.heap, s.chain, n) && OnlyNodes(s.heap, s.chain, Some(n))
      && s.head == First(s.chain) && s.tail == if s.chain == [] then n else Last(s.chain)
    case FreeNode(n, d) =>
      && Links(s.heap, s.chain, NULL) && OnlyNodes(s.heap, s.chain, Some(n))
      && s.head == First(s.chain) && s.tail == Last(s.chain)
    case _ => WellFormed(s)
  }

  predicate NewTail(s: State, d: int, n: Addr) {
    && Links(s.heap, s.chain, NULL) && OnlyNodes(s.heap, s.chain, Some(n))
    && s.heap[n] == Cell(d, NULL, Last(s.chain))
    && s.head == First(s.chain) && s.tail == n
  }

  /** Exactly the owner of the mutex is in the critical section. */
  predicate Exclusive(s: State) {
    && (s.owner.Some? ==> s.owner.value < |s.pcs|)
    && forall t :: 0 <= t < |s.pcs| ==> (InCriticalSection(s.pcs[t]) <==> s.owner == Some(t))
  }

  predicate Inv(s: State) {
    && Exclusive(s)
    && (s.owner.None? ==> WellFormed(s))
    && (s.owner.Some? ==> ShapeAt(s, s.pcs[s.owner.value]))
  }

  lemma InitInv(threads: nat)
    ensures Inv(Init(threads))
  {
  }

  /** No thread ever dereferences NULL or a freed node. */
  lemma NeverUnsafe(s: State, a: Step)
    requires Inv(s) && Enabled(s, a)
    ensures Safe(s, a)
  {
  }

  lemma ExclusiveKeptByCall(s: State, a: Step)
    requires Exclusive(s) && Enabled(s, a) && Safe(s, a) && !a.Continue?
    ensures Exclusive(Apply(s, a))
  {
    hide Safe;
  }

  lemma ExclusiveKeptByContinue(s: State, t: nat)
    requires Exclusive(s) && Enabled(s, Continue(t)) && Safe(s, Continue(t))
    ensures Exclusive(Advanced(s, t))
  {
    hide Safe;
    hide Dereferenced;
    var s' := Advanced(s, t);
    assert s'.pcs == s.pcs[t := s'.pcs[t]];
    assert s.owner == Some(t);
    assert InCriticalSection(s'.pcs[t]) <==> s'.owner == Some(t);
    assert s'.owner == Some(t) || s'.owner == None;
  }

  lemma ExclusiveKept(s: State, a: Step)
    requires Exclusive(s) && Enabled(s, a) && Safe(s, a)
    ensures Exclusive(Apply(s, a))
  {
    hide Safe;
    hide Exclusive;
    hide Advanced;
    if a.Continue? {
      ExclusiveKeptByContinue(s, a.t);
    } else {
      ExclusiveKeptByCall(s, a);
    }
  }

  lemma ShapeKeptOutside(s: State, a: Step)
    requires Inv(s) && Enabled(s, a) && Safe(s, a) && !a.Continue?
    ensures Inv(Apply(s, a))
  {
    ExclusiveKept(s, a);
  }

  lemma ShapeKeptEnqueue(s: State, t: nat)
    requires Inv(s) && Enabled(s, Continue(t)) && Safe(s, Continue(t))
    requires s.pcs[t].LinkBack? || s.pcs[t].SetTail? || s.pcs[t].TestHead? || s.pcs[t].SetHead?
             || s.pcs[t].ReleaseEnqueue?
    ensures Inv(Apply(s, Continue(t)))
  {
    ExclusiveKept(s, Continue(t));
  }

  lemma LinksAppend(heap: map<Addr, Cell>, chain: seq<Addr>, n: Addr)
    requires Links(heap, chain, NULL) && chain != []
    requires n != NULL && n in heap && n !in chain && heap[n].next == NULL && heap[n].prev == Last(chain)
    ensures Links(heap[Last(chain) := heap[Last(chain)].(next := n)], chain + [n], NULL)
  {
    var longer := chain + [n];
    var last := |chain| - 1;
    var linked := heap[Last(chain) := heap[Last(chain)].(next := n)];
    assert Distinct(longer) by {
      assert forall i :: 0 <= i < |chain| ==> longer[i] == chain[i] && chain[i] in chain;
    }
    forall i | 0 <= i < |longer|
      ensures longer[i] != NULL && longer[i] in linked && linked[longer[i]].next == ChainAt(longer, i + 1)
      ensures linked[longer[i]].prev == if i == 0 then NULL else ChainAt(longer, i - 1)
    {
      assert i < last ==> longer[i] == chain[i] != chain[last] && heap[chain[i]].next == ChainAt(chain, i + 1);
      assert i <= last ==> longer[i] == chain[i] && heap[chain[i]].prev == if i == 0 then NULL
             else ChainAt(chain, i - 1);
    }
  }

  lemma ShapeKeptLinkForward(s: State, t: nat)
    requires Inv(s) && Enabled(s, Continue(t)) && Safe(s, Continue(t)) && s.pcs[t].LinkForward?
    ensures Inv(Apply(s, Continue(t)))
  {
    ExclusiveKept(s, Continue(t));
    LinksAppend(s.heap, s.chain, s.pcs[t].node);
    hide Links;
  }

  lemma ShapeKeptDequeue(s: State, t: nat)
    requires Inv(s) && Enabled(s, Continue(t)) && Safe(s, Continue(t))
    requires s.pcs[t].TestEmpty? || s.pcs[t].ReadEntry? || s.pcs[t].ReleaseDequeue?
    ensures Inv(Apply(s, Continue(t)))
  {
    ExclusiveKept(s, Continue(t));
    hide Safe;
  }

  lemma ShapeKeptFixEnd(s: State, t: nat)
    requires Inv(s) && Enabled(s, Continue(t)) && Safe(s, Continue(t)) && s.pcs[t].FixEnd?
    ensures Inv(Apply(s, Continue(t)))
  {
    ExclusiveKept(s, Continue(t));
    hide Safe, Exclusive;
  }

  lemma ShapeKeptFree(s: State, t: nat)
    requires Inv(s) && Enabled(s, Continue(t)) && Safe(s, Continue(t)) && s.pcs[t].FreeNode?
    ensures Inv(Apply(s, Continue(t)))
  {
    ExclusiveKept(s, Continue(t));
    LinksWithout(s.heap, s.chain, s.pcs[t].node);
    hide Safe, Exclusive, Links;
  }

  lemma LinksWithout(heap: map<Addr, Cell>, chain: seq<Addr>, n: Addr)
    requires Links(heap, chain, NULL) && n !in chain
    ensures Links(heap - {n}, chain, NULL)
  {
    var less := heap - {n};
    forall i | 0 <= i < |chain|
      ensures chain[i] in less && less[chain[i]] == heap[chain[i]]
    {
      assert chain[i] in chain;
    }
  }

  lemma LinksDropFirst(heap: map<Addr, Cell>, chain: seq<Addr>)
    requires Links(heap, chain, NULL) && chain != []
    ensures Links(heap, chain[1..], chain[0]) && heap[chain[0]].next == First(chain[1..]) && chain[0] !in chain[1..]
  {
    var rest := chain[1..];
    forall i | 0 <= i < |rest|
      ensures rest[i] == chain[i + 1] && heap[rest[i]].next == ChainAt(rest, i + 1)
      ensures heap[rest[i]].prev == if i == 0 then chain[0] else ChainAt(rest, i - 1)
    {
      assert heap[chain[i + 1]].next == ChainAt(chain, i + 2) && heap[chain[i + 1]].prev == ChainAt(chain, i);
    }
  }

  lemma ShapeKeptAdvance(s: State, t: nat)
    requires Inv(s) && Enabled(s, Continue(t)) && Safe(s, Continue(t)) && s.pcs[t].Advance?
    ensures Inv(Apply(s, Continue(t)))
  {
    ExclusiveKept(s, Continue(t));
    LinksDropFirst(s.heap, s.chain);
    hide Links;
  }

  lemma ContinueKeepsInv(s: State, t: nat)
    requires Inv(s) && Enabled(s, Continue(t)) && Safe(s, Continue(t))
    ensures Inv(Apply(s, Continue(t)))
  {
    hide Inv, Safe, Apply;
    var pc := s.pcs[t];
    if pc.Advance? {
      ShapeKeptAdvance(s, t);
    } else if pc.LinkForward? {
      ShapeKeptLinkForward(s, t);
    } else if pc.LinkBack? || pc.SetTail? || pc.TestHead? || pc.SetHead? || pc.ReleaseEnqueue? {
      ShapeKeptEnqueue(s, t);
    } else if pc.FixEnd? {
      ShapeKeptFixEnd(s, t);
    } else if pc.FreeNode? {
      ShapeKeptFree(s, t);
    } else {
      ShapeKeptDequeue(s, t);
    }
  }

  /** Every enabled step is safe, and keeps the shape of the list and the exclusion of the threads. */
  lemma StepKeepsInv(s: State, a: Step)
    requires Inv(s) && Enabled(s, a)
    ensures Safe(s, a) && Inv(Apply(s, a))
  {
    hide *;
    NeverUnsafe(s, a);
    if a.Continue? {
      ContinueKeepsInv(s, a.t);
    } else {
      ShapeKeptOutside(s, a);
    }
  }

  // ---- The atomic queue, and how the micro-steps refine it ----

  /** A thread's call as a user of an atomic queue sees it: before and after it took effect. */
  datatype Call = NoCall | Enqueueing(data: int) | Enqueued | Dequeueing | Dequeued(result: Option<int>)

  datatype Atomic = Atomic(queue: seq<int>, calls: seq<Call>)

  /** Thread `t` calls, takes effect in one step on the queue, or returns. */
  predicate AtomicStep(q: Atomic, q': Atomic, t: nat) {
    && t < |q.calls| == |q'.calls| && q'.calls == q.calls[t := q'.calls[t]]
    && match (q.calls[t], q'.calls[t])
       case (NoCall, Enqueueing(_)) => q'.queue == q.queue
       case (NoCall, Dequeueing) => q'.queue == q.queue
       case (Enqueueing(d), Enqueued) => q'.queue == q.queue + [d]
       case (Dequeueing, Dequeued(None)) => q.queue == [] == q'.queue
       case (Dequeueing, Dequeued(Some(d))) => q.queue == [d] + q'.queue
       case (Enqueued, NoCall) => q'.queue == q.queue
       case (Dequeued(_), NoCall) => q'.queue == q.queue
       case _ => false
  }

  function CallOf(pc: Pc): (r: Call) {
    match pc
    case Outside => NoCall
    case EnqueueWait(d) => Enqueueing(d)
    case Alloc(d) => Enqueueing(d)
    case LinkBack(d, _) => Enqueueing(d)
    case SetTail(d, _) => Enqueueing(d)
    case TestHead(d, _) => Enqueueing(d)
    case SetHead(d, _) => Enqueueing(d)
    case LinkForward(d, _) => Enqueueing(d)
    case ReleaseEnqueue(_) => Enqueued
    case DequeueWait => Dequeueing
    case TestEmpty => Dequeueing
    case ReadEntry => Dequeueing
    case Advance(_, _) => Dequeueing
    case FixEnd(_, d) => Dequeued(Some(d))
    case FreeNode(_, d) => Dequeued(Some(d))
    case ReleaseDequeue(r) => Dequeued(r)
  }

  function EntryOf(heap: map<Addr, Cell>, p: Addr): (r: int) {
    if p in heap then heap[p].entry else 0
  }

  function Entries(heap: map<Addr, Cell>, chain: seq<Addr>): (e: seq<int>)
    ensures |e| == |chain| && forall i :: 0 <= i < |chain| ==> e[i] == EntryOf(heap, chain[i])
  {
    seq(|chain|, i requires 0 <= i < |chain| => EntryOf(heap, chain[i]))
  }

  function Calls(pcs: seq<Pc>): (c: seq<Call>)
    ensures |c| == |pcs| && forall i :: 0 <= i < |pcs| ==> c[i] == CallOf(pcs[i])
  {
    seq(|pcs|, i requires 0 <= i < |pcs| => CallOf(pcs[i]))
  }

  /** The atomic queue a state stands for. */
  function Abstract(s: State): (r: Atomic) {
    Atomic(Entries(s.heap, s.chain), Calls(s.pcs))
  }

  predicate AtomicOrStutter(q: Atomic, q': Atomic, t: nat) {
    q' == q || AtomicStep(q, q', t)
  }

  lemma CallsOfGoto(pcs: seq<Pc>, t: nat, pc: Pc)
    requires t < |pcs|
    ensures Calls(pcs[t := pc]) == Calls(pcs)[t := CallOf(pc)]
  {
  }

  /** A step that neither links nor unlinks a node and keeps the entries of the linked ones. */
  lemma QuietStep(s: State, s': State, t: nat, pc: Pc)
    requires t < |s.pcs| && s'.pcs == s.pcs[t := pc] && s'.chain == s.chain
    requires forall p :: p in s.chain ==> EntryOf(s'.heap, p) == EntryOf(s.heap, p)
    ensures Abstract(s') == Atomic(Abstract(s).queue, Abstract(s).calls[t := CallOf(pc)])
  {
    CallsOfGoto(s.pcs, t, pc);
    assert Entries(s'.heap, s'.chain) == Entries(s.heap, s.chain);
  }

  lemma ChainIsAllocated(s: State)
    requires Inv(s)
    ensures forall p :: p in s.chain ==> p in s.heap
  {
  }

  lemma RefinesCall(s: State, a: Step)
    requires Inv(s) && Enabled(s, a) && Safe(s, a) && !a.Continue?
    ensures AtomicOrStutter(Abstract(s), Abstract(Apply(s, a)), a.t)
  {
    ChainIsAllocated(s);
    hide Calls, Entries, Inv, Safe;
    var s' := Apply(s, a);
    QuietStep(s, s', a.t, s'.pcs[a.t]);
  }

  /** The writes that only touch links, and the release of a node that is no longer linked. */
  lemma HeapWritesAreQuiet(s: State, t: nat)
    requires Inv(s) && Enabled(s, Continue(t)) && Safe(s, Continue(t))
    requires s.pcs[t].LinkBack? || s.pcs[t].FixEnd? || s.pcs[t].FreeNode?
    ensures forall p :: p in s.chain ==> EntryOf(Advanced(s, t).heap, p) == EntryOf(s.heap, p)
  {
  }

  predicate Quiet(pc: Pc) {
    !pc.SetHead? && !pc.LinkForward? && !pc.Advance?
  }

  lemma NullHeadIsEmpty(s: State, t: nat)
    requires Inv(s) && Enabled(s, Continue(t)) && s.pcs[t].TestEmpty?
    ensures s.head == NULL <==> s.chain == []
  {
  }

  lemma QuietWrites(s: State, t: nat)
    requires Inv(s) && Enabled(s, Continue(t)) && Safe(s, Continue(t)) && Quiet(s.pcs[t])
    ensures Advanced(s, t).chain == s.chain && Advanced(s, t).pcs == s.pcs[t := Advanced(s, t).pcs[t]]
    ensures forall p :: p in s.chain ==> EntryOf(Advanced(s, t).heap, p) == EntryOf(s.heap, p)
  {
    hide Inv, Safe, Dereferenced;
    var pc := s.pcs[t];
    if pc.LinkBack? || pc.FixEnd? || pc.FreeNode? {
      HeapWritesAreQuiet(s, t);
    }
  }

  lemma RefinesQuiet(s: State, t: nat)
    requires Inv(s) && Enabled(s, Continue(t)) && Safe(s, Continue(t)) && Quiet(s.pcs[t])
    ensures AtomicOrStutter(Abstract(s), Abstract(Advanced(s, t)), t)
  {
    hide Inv, Safe, Dereferenced;
    var s' := Advanced(s, t);
    QuietWrites(s, t);
    QuietStep(s, s', t, s'.pcs[t]);
    if s.pcs[t].TestEmpty? {
      NullHeadIsEmpty(s, t);
    }
    hide Calls, Entries;
    var c, c' := CallOf(s.pcs[t]), CallOf(s'.pcs[t]);
    assert c' == c || (c.Enqueued? && c'.NoCall?) || (c.Dequeued? && c'.NoCall?)
           || (c.Dequeueing? && c' == Dequeued(None) && s.chain == []);
    assert Abstract(s).calls[t] == c;
  }

  lemma EntriesSnoc(heap: map<Addr, Cell>, heap': map<Addr, Cell>, chain: seq<Addr>, n: Addr)
    requires forall p :: p in heap ==> EntryOf(heap', p) == EntryOf(heap, p)
    requires n in heap && forall p :: p in chain ==> p in heap
    ensures Entries(heap', chain + [n]) == Entries(heap, chain) + [heap[n].entry]
  {
    assert forall i :: 0 <= i < |chain| ==> chain[i] in chain;
  }

  lemma NewNodeHoldsData(s: State, t: nat)
    requires Inv(s) && Enabled(s, Continue(t)) && (s.pcs[t].SetHead? || s.pcs[t].LinkForward?)
    ensures s.pcs[t].node in s.heap && s.heap[s.pcs[t].node].entry == s.pcs[t].data
  {
  }

  lemma RefinesLink(s: State, t: nat)
    requires Inv(s) && Enabled(s, Continue(t)) && Safe(s, Continue(t))
    requires s.pcs[t].SetHead? || s.pcs[t].LinkForward?
    ensures AtomicStep(Abstract(s), Abstract(Advanced(s, t)), t)
  {
    hide Inv, Safe, Dereferenced, Entries;
    var s' := Advanced(s, t);
    ChainIsAllocated(s);
    NewNodeHoldsData(s, t);
    CallsOfGoto(s.pcs, t, s'.pcs[t]);
    EntriesSnoc(s.heap, s'.heap, s.chain, s.pcs[t].node);
  }

  lemma EntriesTail(heap: map<Addr, Cell>, chain: seq<Addr>)
    requires chain != []
    ensures Entries(heap, chain) == [EntryOf(heap, chain[0])] + Entries(heap, chain[1..])
  {
  }

  lemma HeadIsRead(s: State, t: nat)
    requires Inv(s) && Enabled(s, Continue(t)) && s.pcs[t].Advance?
    ensures s.chain != [] && EntryOf(s.heap, s.chain[0]) == s.pcs[t].data
  {
  }

  lemma RefinesUnlink(s: State, t: nat)
    requires Inv(s) && Enabled(s, Continue(t)) && Safe(s, Continue(t)) && s.pcs[t].Advance?
    ensures AtomicStep(Abstract(s), Abstract(Advanced(s, t)), t)
  {
    hide Inv, Safe, Dereferenced, Entries, EntryOf;
    HeadIsRead(s, t);
    CallsOfGoto(s.pcs, t, Advanced(s, t).pcs[t]);
    EntriesTail(s.heap, s.chain);
  }

  /** Each micro-step either is invisible or is one step of the atomic queue by its thread. */
  lemma StepRefines(s: State, a: Step)
    requires Inv(s) && Enabled(s, a)
    ensures Safe(s, a) && AtomicOrStutter(Abstract(s), Abstract(Apply(s, a)), a.t)
  {
    NeverUnsafe(s, a);
    hide Inv, Safe, Advanced, Abstract, Dereferenced;
    if !a.Continue? {
      RefinesCall(s, a);
    } else if s.pcs[a.t].SetHead? || s.pcs[a.t].LinkForward? {
      RefinesLink(s, a.t);
    } else if s.pcs[a.t].Advance? {
      RefinesUnlink(s, a.t);
    } else {
      RefinesQuiet(s, a.t);
    }
  }

  // ---- Whole runs ----

  predicate Executable(s: State, steps: seq<Step>)
    requires Inv(s)
    decreases |steps|
  {
    steps == [] ||
    (Enabled(s, steps[0]) && (StepKeepsInv(s, steps[0]); Executable(Apply(s, steps[0]), steps[1..])))
  }

  /** The states of a run, the first and the last included. */
  function Trace(s: State, steps: seq<Step>): (tr: seq<State>)
    requires Inv(s) && Executable(s, steps)
    ensures |tr| == |steps| + 1 && tr[0] == s
    decreases |steps|
  {
    if steps == [] then [s]
    else
      StepKeepsInv(s, steps[0]);
      [s] + Trace(Apply(s, steps[0]), steps[1..])
  }

  function AbstractAll(tr: seq<State>): (q: seq<Atomic>)
    ensures |q| == |tr| && forall i :: 0 <= i < |tr| ==> q[i] == Abstract(tr[i])
  {
    seq(|tr|, i requires 0 <= i < |tr| => Abstract(tr[i]))
  }

  /** The thread of each step. */
  function Threads(steps: seq<Step>): (ts: seq<nat>)
    ensures |ts| == |steps| && forall i :: 0 <= i < |steps| ==> ts[i] == steps[i].t
  {
    seq(|steps|, i requires 0 <= i < |steps| => steps[i].t)
  }

  /** A run of the atomic queue, in which some states may be repeated. */
  predicate AtomicRun(q: seq<Atomic>, ts: seq<nat>) {
    |q| == |ts| + 1 && forall i :: 0 <= i < |ts| ==> AtomicOrStutter(q[i], q[i + 1], ts[i])
  }

  lemma AtomicRunCons(q: seq<Atomic>, ts: seq<nat>, first: Atomic, t: nat)
    requires AtomicRun(q, ts) && AtomicOrStutter(first, q[0], t)
    ensures AtomicRun([first] + q, [t] + ts)
  {
    hide AtomicOrStutter;
    var q', ts' := [first] + q, [t] + ts;
    forall i | 0 <= i < |ts'|
      ensures AtomicOrStutter(q'[i], q'[i + 1], ts'[i])
    {
      if i > 0 {
        assert ts'[i] == ts[i - 1] && q'[i] == q[i - 1] && q'[i + 1] == q[i];
      }
    }
  }

  lemma {:induction false} TraceRefines(s: State, steps: seq<Step>)
    requires Inv(s) && Executable(s, steps)
    ensures AtomicRun(AbstractAll(Trace(s, steps)), Threads(steps))
    ensures forall i :: 0 <= i < |Trace(s, steps)| ==> Inv(Trace(s, steps)[i])
    decreases |steps|
  {
    hide Inv, Enabled, Abstract, Apply, AtomicOrStutter;
    if steps != [] {
      var a := steps[0];
      StepKeepsInv(s, a);
      StepRefines(s, a);
      var rest := Trace(Apply(s, a), steps[1..]);
      TraceRefines(Apply(s, a), steps[1..]);
      AtomicRunCons(AbstractAll(rest), Threads(steps[1..]), Abstract(s), a.t);
      assert AbstractAll([s] + rest) == [Abstract(s)] + AbstractAll(rest);
      assert Threads(steps) == [a.t] + Threads(steps[1..]);
    }
  }

  /** Any number of threads, before the first step. */
  function Start(threads: nat): (s: State)
    ensures Inv(s) && s == Init(threads)
  {
    InitInv(threads);
    Init(threads)
  }

  /** Every interleaving of every number of threads is a run of an atomic FIFO queue that starts
      empty, and keeps the exclusion of the threads and the shape of the list throughout. */
  lemma RunsRefineAtomicQueue(threads: nat, steps: seq<Step>)
    requires Executable(Start(threads), steps)
    ensures var tr := Trace(Start(threads), steps);
            && AtomicRun(AbstractAll(tr), Threads(steps)) && AbstractAll(tr)[0].queue == []
            && forall i :: 0 <= i < |tr| ==> Exclusive(tr[i]) && (tr[i].owner.None? ==> WellFormed(tr[i]))
  {
    TraceRefines(Start(threads), steps);
    var tr := Trace(Start(threads), steps);
    assert forall i :: 0 <= i < |tr| ==> Inv(tr[i]);
    hide Trace;
    hide Executable;
    hide WellFormed;
    hide Exclusive;
  }

  /** What the steps of a run put in the queue, and what they gave to the threads that dequeued. */
  function Pushed(q: seq<Atomic>, ts: seq<nat>): (r: seq<int>)
    requires AtomicRun(q, ts)
    decreases |ts|
  {
    if ts == [] then []
    else PushedBy(q[0].calls, q[1].calls, ts[0]) + Pushed(q[1..], ts[1..])
  }

  function Popped(q: seq<Atomic>, ts: seq<nat>): (r: seq<int>)
    requires AtomicRun(q, ts)
    decreases |ts|
  {
    if ts == [] then []
    else PoppedBy(q[0].calls, q[1].calls, ts[0]) + Popped(q[1..], ts[1..])
  }

  function PushedBy(before: seq<Call>, after: seq<Call>, t: nat): (r: seq<int>) {
    if t < |before| && t < |after| && before[t].Enqueueing? && after[t].Enqueued? then [before[t].data] else []
  }

  function PoppedBy(before: seq<Call>, after: seq<Call>, t: nat): (r: seq<int>) {
    if t < |before| && t < |after| && before[t].Dequeueing? && after[t].Dequeued? && after[t].result.Some?
    then [after[t].result.value] else []
  }

  lemma StepConserves(q: Atomic, q': Atomic, t: nat)
    requires AtomicOrStutter(q, q', t)
    ensures q.queue + PushedBy(q.calls, q'.calls, t) == PoppedBy(q.calls, q'.calls, t) + q'.queue
  {
  }

  /** First in, first out: the values the dequeuing threads got are, in order, the values that
      were enqueued, and what is missing is what is still queued. */
  lemma {:induction false} AtomicQueueIsFifo(q: seq<Atomic>, ts: seq<nat>)
    requires AtomicRun(q, ts)
    ensures q[0].queue + Pushed(q, ts) == Popped(q, ts) + q[|ts|].queue
    decreases |ts|
  {
    if ts == [] {
      assert q[0].queue + [] == [] + q[0].queue;
    } else {
      var put, got := PushedBy(q[0].calls, q[1].calls, ts[0]), PoppedBy(q[0].calls, q[1].calls, ts[0]);
      var puts, gots := Pushed(q[1..], ts[1..]), Popped(q[1..], ts[1..]);
      StepConserves(q[0], q[1], ts[0]);
      AtomicQueueIsFifo(q[1..], ts[1..]);
      calc {
        q[0].queue + (put + puts);
        (q[0].queue + put) + puts;
        (got + q[1].queue) + puts;
        got + (q[1].queue + puts);
        got + (gots + q[|ts|].queue);
        (got + gots) + q[|ts|].queue;
      }
    }
  }

  /** So over every run the values dequeued are the values enqueued, in order, short of those
      still in the list. */
  lemma RunsAreFifo(threads: nat, steps: seq<Step>)
    requires Executable(Start(threads), steps)
    ensures var q, ts := AbstractAll(Trace(Start(threads), steps)), Threads(steps);
            AtomicRun(q, ts) && Pushed(q, ts) == Popped(q, ts) + q[|steps|].queue
  {
    RunsRefineAtomicQueue(threads, steps);
    var q, ts := AbstractAll(Trace(Start(threads), steps)), Threads(steps);
    AtomicQueueIsFifo(q, ts);
    assert [] + Pushed(q, ts) == Pushed(q, ts);
  }

  // ---- Walking the list ----

  function Forward(heap: map<Addr, Cell>, p: Addr, fuel: nat): (r: seq<Addr>)
    decreases fuel
  {
    if fuel == 0 || p == NULL || p !in heap then [] else [p] + Forward(heap, heap[p].next, fuel - 1)
  }

  function Backward(heap: map<Addr, Cell>, p: Addr, fuel: nat): (r: seq<Addr>)
    decreases fuel
  {
    if fuel == 0 || p == NULL || p !in heap then [] else [p] + Backward(heap, heap[p].prev, fuel - 1)
  }

  lemma {:induction false} ForwardFrom(heap: map<Addr, Cell>, chain: seq<Addr>, i: nat, fuel: nat)
    requires Links(heap, chain, NULL) && i <= |chain| && fuel >= |chain| - i
    ensures Forward(heap, ChainAt(chain, i), fuel) == chain[i..]
    decreases fuel
  {
    if i < |chain| {
      ForwardFrom(heap, chain, i + 1, fuel - 1);
      assert chain[i..] == [chain[i]] + chain[i + 1..];
    }
  }

  lemma {:induction false} BackwardFrom(heap: map<Addr, Cell>, chain: seq<Addr>, i: nat, fuel: nat)
    requires Links(heap, chain, NULL) && i <= |chain| && fuel >= i
    ensures Backward(heap, ChainAt(chain, i - 1), fuel) == Reverse(chain[..i])
    decreases fuel
  {
    if i > 0 {
      BackwardFrom(heap, chain, i - 1, fuel - 1);
      assert chain[..i][..i - 1] == chain[..i - 1];
    }
  }

  /** Whenever the mutex is free, walking from the head meets the queued entries in order,
      walking back from the tail meets the same nodes in reverse, and no node is lost. */
  lemma ListAtRest(s: State, fuel: nat)
    requires Inv(s) && s.owner.None? && fuel >= |s.chain|
    ensures Entries(s.heap, Forward(s.heap, s.head, fuel)) == Abstract(s).queue
    ensures Backward(s.heap, s.tail, fuel) == Reverse(Forward(s.heap, s.head, fuel))
    ensures forall p :: p in s.heap <==> p in Forward(s.heap, s.head, fuel)
  {
    ForwardFrom(s.heap, s.chain, 0, fuel);
    BackwardFrom(s.heap, s.chain, |s.chain|, fuel);
    assert s.chain[0..] == s.chain && s.chain[..|s.chain|] == s.chain;
  }
}

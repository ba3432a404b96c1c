/** What holds over whole runs of the server, whatever the interleaving of its threads. */
module ServerRuns {
  import opened Common
  import opened ClientTable
  import opened SystemMessages
  import opened ChatServer
  import opened Invariants
  import opened Delivery

  // ---- All that every step keeps ----

  predicate Inv(s: State) {
    && TableInv(s) && FifoInv(s) && WakeInv(s) && ExitInv(s) && NamesDiffer(s.table)
    && OrderInv(s) && WireInv(s) && AccountInv(s) && DeliveryInv(s)
  }

  lemma InitInv(n: nat)
    requires 1 <= n < MAXIMUM_WAIT_OBJECTS
    ensures Inv(Init(n))
  {
    TableInvInit(n);
  }

  /** Every step of every thread keeps all of these. */
  lemma StepKeepsInv(s: State, a: Action)
    requires Inv(s) && Enabled(s, a)
    ensures Sound(s) && Inv(Apply(s, a))
  {
    hide Enabled, Apply, TableInv, FifoInv, WakeInv, ExitInv, OrderInv, WireInv, AccountInv, DeliveryInv, Sound;
    TableInvIsSound(s);
    TableInvKept(s, a);
    FifoInvKept(s, a);
    WakeInvKept(s, a);
    ExitInvKept(s, a);
    NamesKept(s, a);
    OrderKept(s, a);
    WireKept(s, a);
    AccountKept(s, a);
    DeliveryKept(s, a);
  }

  // ---- Runs ----

  predicate Executable(s: State, actions: seq<Action>)
    requires Inv(s)
    decreases |actions|
  {
    actions == [] ||
    (Enabled(s, actions[0]) && (StepKeepsInv(s, actions[0]); Executable(Apply(s, actions[0]), actions[1..])))
  }

  function Exec(s: State, actions: seq<Action>): (r: State)
    requires Inv(s) && Executable(s, actions)
    ensures Inv(r)
    decreases |actions|
  {
    if actions == [] then s
    else
      StepKeepsInv(s, actions[0]);
      Exec(Apply(s, actions[0]), actions[1..])
  }

  /** A server for `n` clients, before its first step. */
  function Start(n: nat): (s: State)
    requires 1 <= n < MAXIMUM_WAIT_OBJECTS
    ensures Inv(s)
  {
    InitInv(n);
    Init(n)
  }

  /** `s` is reached by some run of a server for `n` clients. */
  ghost predicate Reachable(n: nat, s: State) {
    1 <= n < MAXIMUM_WAIT_OBJECTS && exists actions :: Executable(Start(n), actions) && s == Exec(Start(n), actions)
  }

  lemma ReachableInv(n: nat, s: State)
    requires Reachable(n, s)
    ensures Inv(s)
  {
  }

  lemma {:induction false} ExecSnoc(s: State, actions: seq<Action>, a: Action)
    requires Inv(s) && Executable(s, actions) && Enabled(Exec(s, actions), a)
    ensures Sound(Exec(s, actions)) && Executable(s, actions + [a])
    ensures Exec(s, actions + [a]) == Apply(Exec(s, actions), a)
    decreases |actions|
  {
    hide Inv, Enabled, Apply;
    if actions == [] {
      StepKeepsInv(s, a);
      assert (actions + [a])[0] == a && (actions + [a])[1..] == [];
    } else {
      StepKeepsInv(s, actions[0]);
      ExecSnoc(Apply(s, actions[0]), actions[1..], a);
      assert (actions + [a])[0] == actions[0] && (actions + [a])[1..] == actions[1..] + [a];
    }
  }

  lemma ReachableStep(n: nat, s: State, a: Action)
    requires Reachable(n, s) && Enabled(s, a)
    ensures Sound(s) && Inv(s) && Reachable(n, Apply(s, a))
  {
    hide Inv, Enabled, Apply, Executable, Exec;
    var actions :| Executable(Start(n), actions) && s == Exec(Start(n), actions);
    ExecSnoc(Start(n), actions, a);
  }

  lemma StartIsReachable(n: nat)
    requires 1 <= n < MAXIMUM_WAIT_OBJECTS
    ensures Reachable(n, Start(n))
  {
    hide Inv;
    assert Executable(Start(n), []) && Exec(Start(n), []) == Start(n);
  }

  // ---- Safety ----

  /** No lost wake-up: a sender that waits beside a non-empty queue can go on, unless a handler
      has still to set the event for what it enqueued. */
  lemma NoLostWakeUp(n: nat, s: State)
    requires Reachable(n, s) && s.sender == Waiting && s.queue != []
    ensures s.event || exists k :: 0 <= k < |s.sessions| && OwesSignal(s.sessions[k].pc)
  {
    ReachableInv(n, s);
  }

  /** FIFO conservation: nothing enqueued is lost, doubled or overtaken. */
  lemma Conservation(n: nat, s: State)
    requires Reachable(n, s)
    ensures s.enqueued == s.delivered + InFlight(s) + s.queue
  {
    ReachableInv(n, s);
  }

  /** The counter agrees with the slots, with the logins and finalisations, and with what the
      allocation of a slot finds. */
  lemma TableAccounting(n: nat, s: State)
    requires Reachable(n, s)
    ensures s.active == |ValidSlots(s.table)| == |s.sessions| - CountReaped(s.sessions)
    ensures 0 <= s.active <= |s.table| < MAXIMUM_WAIT_OBJECTS
    ensures FirstFree(s.table).Some? <==> s.active < |s.table|
  {
    ReachableInv(n, s);
    FreeSlotExists(s.table);
  }

  /** Two clients with names never hold the same one, whatever bytes they logged in with. */
  lemma NamesAreUnique(n: nat, s: State, i: nat, j: nat)
    requires Reachable(n, s) && i < j < |s.table| && s.table[i].isValid && s.table[j].isValid
    requires s.table[i].usernameLength > 0 && s.table[j].usernameLength > 0
    ensures s.table[i].username != s.table[j].username
  {
    ReachableInv(n, s);
  }

  predicate AtPosition(s: State, p: nat, k: nat) {
    1 <= p <= |ValidSlots(s.table)| && ThreadAt(s, p) == Some(k)
  }

  /** A session that is not reaped yet is at exactly one position of the wait array. */
  lemma PositionOfSession(s: State, k: nat)
    requires TableInv(s) && k < |s.sessions| && s.sessions[k].pc != Reaped
    ensures exists p :: AtPosition(s, p, k)
    ensures forall p, q :: AtPosition(s, p, k) && AtPosition(s, q, k) ==> p == q
  {
    hide ValidSlots, CountValid;
    ValidSlotsBijective(s.table);
    assert SlotOf(s, k);
    var v := ValidSlots(s.table);
    var i := s.sessions[k].slot;
    var p :| 0 <= p < |v| && v[p] == i;
    assert AtPosition(s, p + 1, k);
    forall q | AtPosition(s, q, k)
      ensures q == p + 1
    {
      assert ThreadOf(s, v[q - 1]);
      assert v[q - 1] == v[p];
    }
  }

  /** Every thread that has finished is found, at exactly one position of the wait array. */
  lemma FinishedThreadIsFound(n: nat, s: State, k: nat)
    requires Reachable(n, s) && k < |s.sessions| && Finish(s.sessions[k].pc)
    ensures exists p :: AtPosition(s, p, k) && (LoopGuard(s) ==> MainEnabled(s, ReapThread(p)))
    ensures forall p, q :: AtPosition(s, p, k) && AtPosition(s, q, k) ==> p == q
  {
    ReachableInv(n, s);
    PositionOfSession(s, k);
    var p :| AtPosition(s, p, k);
    hide ValidSlots, CountValid, Reachable;
    assert LoopGuard(s) ==> MainEnabled(s, ReapThread(p));
  }

  // ---- The order in which clients see messages ----

  const SCRIPT := [Welcome, Joined, Left]

  /** What a session enqueues is a prefix of welcome, joined, left. */
  lemma SessionSpeaksInOrder(n: nat, s: State, k: nat)
    requires Reachable(n, s) && k < |s.sessions|
    ensures StartsWith(SCRIPT, KindsOf(s.enqueued, k))
  {
    ReachableInv(n, s);
    hide Reachable, KindsOf;
    SaysWhatItSaid(s, k);
    hide *;
    SaidIsPrefix(s.sessions[k].pc);
  }

  lemma SaysWhatItSaid(s: State, k: nat)
    requires OrderInv(s) && k < |s.sessions|
    ensures KindsOf(s.enqueued, k) == Said(s.sessions[k].pc)
  {
    assert SaysInOrder(s, k);
  }

  lemma SaidIsPrefix(pc: SessionPc)
    ensures StartsWith(SCRIPT, Said(pc))
  {
    assert SCRIPT[..0] == [] && SCRIPT[..1] == [Welcome] && SCRIPT[..2] == [Welcome, Joined] && SCRIPT[..3] == SCRIPT;
  }

  /** `w` is a subsequence of `h`: it is found there at the increasing positions `at`. */
  predicate FoundAt(w: seq<Entry>, h: seq<Entry>, at: seq<nat>) {
    && |w| == |at|
    && (forall i, j :: 0 <= i < j < |at| ==> at[i] < at[j])
    && (forall i :: 0 <= i < |at| ==> at[i] < |h| && h[at[i]] == w[i])
  }

  /** Each client's log is a subsequence of what was enqueued, however slots were reused. */
  lemma WireIsSubsequence(n: nat, s: State, k: nat)
    requires Reachable(n, s) && k < |s.sessions|
    ensures FoundAt(s.sessions[k].wire, s.enqueued, s.sessions[k].stamps)
  {
    ReachableInv(n, s);
    assert WireOf(s, k);
    forall i | 0 <= i < |s.sessions[k].stamps|
      ensures s.sessions[k].stamps[i] < |s.enqueued| && s.enqueued[s.sessions[k].stamps[i]] == s.sessions[k].wire[i]
    {
      assert StampOk(s, s.sessions[k], i);
    }
  }

  lemma {:induction false} KindsGrow(h: seq<Entry>, i: nat, k: nat)
    requires i <= |h|
    ensures StartsWith(KindsOf(h, k), KindsOf(h[..i], k))
  {
    if i == |h| {
      assert h[..i] == h;
    } else {
      KindsGrow(h[..|h| - 1], i, k);
      assert h[..|h| - 1][..i] == h[..i];
    }
  }

  /** The kinds up to and with position `x` end with the kind at `x`. */
  lemma KindAt(h: seq<Entry>, x: nat, k: nat)
    requires x < |h| && h[x].origin == k
    ensures KindsOf(h[..x + 1], k) == KindsOf(h[..x], k) + [h[x].kind]
  {
    assert h[..x + 1] == h[..x] + [h[x]];
    KindsOfSnoc(h[..x], h[x], k);
  }

  /** In a history that keeps to the script, joined comes before left. */
  lemma JoinedBeforeLeft(h: seq<Entry>, x: nat, y: nat, k: nat)
    requires StartsWith(SCRIPT, KindsOf(h, k)) && x < |h| && y < |h|
    requires h[x].origin == h[y].origin == k && h[x].kind == Joined && h[y].kind == Left
    ensures x < y
  {
    hide KindsOf;
    KindsGrow(h, x + 1, k);
    KindsGrow(h, y + 1, k);
    KindAt(h, x, k);
    KindAt(h, y, k);
    var upToX, upToY := KindsOf(h[..x + 1], k), KindsOf(h[..y + 1], k);
    assert SCRIPT[|upToX| - 1] == upToX[|upToX| - 1] == Joined;
    assert SCRIPT[|upToY| - 1] == upToY[|upToY| - 1] == Left;
    assert |upToX| == 2 && |upToY| == 3;
    if y <= x {
      KindsMonotone(h, y + 1, x + 1, k);
    }
  }

  lemma KindsMonotone(h: seq<Entry>, i: nat, j: nat, k: nat)
    requires i <= j <= |h|
    ensures |KindsOf(h[..i], k)| <= |KindsOf(h[..j], k)|
  {
    KindsGrow(h[..j], i, k);
    assert h[..j][..i] == h[..i];
  }

  /** Nobody sees a session's "left" before its "joined". */
  lemma NobodySeesLeftFirst(n: nat, s: State, k: nat, j: nat, a: nat, b: nat)
    requires Reachable(n, s) && k < |s.sessions| && j < |s.sessions|
    requires a < |s.sessions[k].wire| && b < |s.sessions[k].wire|
    requires s.sessions[k].wire[a].origin == s.sessions[k].wire[b].origin == j
    requires s.sessions[k].wire[a].kind == Joined && s.sessions[k].wire[b].kind == Left
    ensures a < b
  {
    hide KindsOf, Reachable;
    WireIsSubsequence(n, s, k);
    SessionSpeaksInOrder(n, s, j);
    var at := s.sessions[k].stamps;
    JoinedBeforeLeft(s.enqueued, at[a], at[b], j);
  }

  // ---- Shutdown ----

  lemma NoValidSlot(s: State)
    requires Inv(s) && s.active == 0
    ensures forall i :: 0 <= i < |s.table| ==> !s.table[i].isValid
    ensures forall k :: 0 <= k < |s.sessions| ==> s.sessions[k].pc == Reaped
  {
    CountIsZero(s.table);
    forall k | 0 <= k < |s.sessions|
      ensures s.sessions[k].pc == Reaped
    {
      assert SlotOf(s, k);
    }
  }

  /** Nothing is owed at exit: when the sender has left, no message is in flight, no handler is
      alive, and nobody is there to receive what is still queued. */
  lemma NothingOwedAtExit(n: nat, s: State)
    requires Reachable(n, s) && s.sender == Exited
    ensures s.enqueued == s.delivered + s.queue
    ensures forall e :: e in s.queue ==> Recipients(s.table, e.msg) == {}
    ensures forall k :: 0 <= k < |s.sessions| ==> s.sessions[k].pc == Reaped
  {
    ReachableInv(n, s);
    hide Reachable;
    ExitedIsEmpty(s);
    NoValidSlot(s);
    hide *;
    QueueIsForNobody(s);
  }

  lemma ExitedIsEmpty(s: State)
    requires FifoInv(s) && ExitInv(s) && s.sender == Exited
    ensures s.active == 0 && s.enqueued == s.delivered + s.queue
  {
    assert s.delivered + [] + s.queue == s.delivered + s.queue;
  }

  lemma QueueIsForNobody(s: State)
    requires forall i :: 0 <= i < |s.table| ==> !s.table[i].isValid
    ensures forall e :: e in s.queue ==> Recipients(s.table, e.msg) == {}
  {
    hide Recipients;
    forall e | e in s.queue
      ensures Recipients(s.table, e.msg) == {}
    {
      NobodyReceives(s.table, e.msg);
    }
  }

  lemma NobodyReceives(t: Table, m: MsgToSend)
    requires MsgOk(m) && forall i :: 0 <= i < |t| ==> !t[i].isValid
    ensures Recipients(t, m) == {}
  {
  }

  /** The main thread has left its loop, or is about to. */
  predicate ShuttingDown(s: State) {
    s.active == 0 && (s.main == Serving(false) || s.main == Raised || s.main == AwaitingSender || s.main == Finished)
  }

  function SenderWork(s: State): (r: nat) {
    match s.sender
    case Exited => 0
    case Broken(_, _) => 0
    case Waiting => 1
    case Dequeuing => 2
    case CheckingExit => 3
    case Sending(_, i) => (if i < |s.table| then |s.table| - i else 0) + 3
  }

  function MainWork(main: MainPc): (r: nat) {
    match main
    case Serving(_) => 6
    case Raised => 5
    case AwaitingSender => 1
    case _ => 0
  }

  /** The steps that so many messages cost the sender with a table of the given size: for each,
      taking it, every slot, and letting it go. */
  function Cost(messages: nat, slots: nat): (n: nat) {
    messages * (slots + 2)
  }

  lemma CostOfOneMore(messages: nat, slots: nat)
    ensures Cost(0, slots) == 0
    ensures messages > 0 ==> Cost(messages, slots) == Cost(messages - 1, slots) + slots + 2
  {
    assert messages * (slots + 2) == (messages - 1) * (slots + 2) + (slots + 2);
  }

  /** Bounds the steps that are left: linear in the queue. */
  function Measure(s: State): (n: nat) {
    Cost(|s.queue|, |s.table|) + SenderWork(s) + (if s.event then 3 else 0) + MainWork(s.main)
  }

  lemma SenderStepDescends(s: State)
    requires Inv(s) && Sound(s) && SenderEnabled(s)
    ensures Measure(ApplySender(s)) < Measure(s)
  {
    SenderIsFramed(s);
    hide Inv, Sound, Receives, Cost;
    CostOfOneMore(|s.queue|, |s.table|);
  }

  lemma ShutdownStep(s: State, a: Action)
    requires Inv(s) && ShuttingDown(s) && Enabled(s, a) && Sound(s)
    ensures ShuttingDown(Apply(s, a)) && Measure(Apply(s, a)) < Measure(s)
  {
    hide TableInv, FifoInv, WakeInv, OrderInv, WireInv, AccountInv, DeliveryInv, Sound, Cost;
    match a
    case MainStep(m) =>
    case HandlerStep(k, _) =>
      NoValidSlot(s);
    case SenderStep =>
      SenderIsFramed(s);
      SenderStepDescends(s);
    case SendFails =>
      NoValidSlot(s);
  }

  /** Shutdown ends: once no client is left, every run, under any interleaving and with signals
      coalesced in any way, is at most `Measure` steps long. */
  lemma {:induction false} ShutdownIsBounded(s: State, actions: seq<Action>)
    requires Inv(s) && ShuttingDown(s) && Executable(s, actions)
    ensures |actions| <= Measure(s) - Measure(Exec(s, actions))
    ensures ShuttingDown(Exec(s, actions))
    decreases |actions|
  {
    hide Measure, Inv, ShuttingDown, Apply;
    if actions != [] {
      StepKeepsInv(s, actions[0]);
      ShutdownStep(s, actions[0]);
      ShutdownIsBounded(Apply(s, actions[0]), actions[1..]);
    }
  }

  /** And it only stops when the main thread has seen the sender end. */
  lemma ShutdownIsNeverStuck(s: State)
    requires Inv(s) && ShuttingDown(s) && s.main != Finished
    ensures || Enabled(s, SenderStep) || Enabled(s, MainStep(RaiseExit))
            || Enabled(s, MainStep(SignalExit)) || Enabled(s, MainStep(JoinSender))
  {
    NoValidSlot(s);
  }

  /** So a run that cannot go on has ended: the wait of the main thread has returned, and the
      sender is gone. */
  lemma ShutdownEnds(s: State, actions: seq<Action>)
    requires Inv(s) && ShuttingDown(s) && Executable(s, actions)
    requires forall a :: !Enabled(Exec(s, actions), a)
    ensures Exec(s, actions).main == Finished && SenderGone(Exec(s, actions))
  {
    hide Executable, Exec, ShuttingDown, Enabled, SenderGone;
    ShutdownIsBounded(s, actions);
    var r := Exec(s, actions);
    if r.main != Finished {
      ShutdownIsNeverStuck(r);
      assert false;
    }
  }

  /** After the exit signal, the sender has it, is looking at the flag, or is gone. */
  lemma ExitSignalIsSeen(n: nat, s: State)
    requires Reachable(n, s) && s.main == AwaitingSender
    ensures s.exitFlag && (s.event || s.sender == CheckingExit || SenderGone(s))
  {
    ReachableInv(n, s);
  }

  // ---- Draining ----

  function SenderSteps(n: nat): (a: seq<Action>)
    ensures |a| == n && forall i :: 0 <= i < n ==> a[i] == SenderStep
  {
    seq(n, i => SenderStep)
  }

  /** The steps of the sender until its queue is empty. */
  function DrainSteps(s: State): (r: nat) {
    var messages := Cost(|s.queue|, |s.table|);
    match s.sender
    case Sending(_, i) => (if i < |s.table| then |s.table| - i else 0) + 1 + messages
    case Dequeuing => messages
    case CheckingExit => 1 + messages
    case Waiting => if s.queue == [] then 0 else 2 + messages
    case _ => 0
  }

  /** Handlers are idle, the exit flag is down, and no send has failed. */
  predicate Quiescent(s: State) {
    !SignalOwed(s) && !s.exitFlag && s.main != Aborted && !s.sender.Broken?
  }

  /** No message in hand or queued passes the test of a slot whose socket the server has closed. */
  predicate Harmless(s: State) {
    forall k :: 0 <= k < |s.sessions| && s.sessions[k].pc != Reaped && s.sessions[k].closed ==> Owed(s, k) == []
  }

  predicate Drained(s: State) {
    s.queue == [] && InFlight(s) == []
  }

  lemma DrainStep(s: State)
    requires Inv(s) && Sound(s) && Quiescent(s) && DrainSteps(s) > 0 && !ClosedHere(s)
    ensures Enabled(s, SenderStep) && Quiescent(ApplySender(s))
    ensures DrainSteps(ApplySender(s)) == DrainSteps(s) - 1
  {
    DrainGoesOn(s);
    assert ExitInv(s);
    hide Inv, Sound, Receives, Quiescent, DrainSteps;
    OneStepLess(s);
  }

  lemma DrainGoesOn(s: State)
    requires Inv(s) && Sound(s) && Quiescent(s) && DrainSteps(s) > 0 && !ClosedHere(s)
    ensures Enabled(s, SenderStep) && Quiescent(ApplySender(s))
  {
    assert WakeInv(s) && ExitInv(s);
    hide Inv, Sound, ClosedHere, ApplySender, Cost;
    assert SenderEnabled(s);
    SenderIsFramed(s);
    SenderStaysWhole(s);
  }

  lemma SenderStaysWhole(s: State)
    requires Sound(s) && SenderEnabled(s)
    ensures !ApplySender(s).sender.Broken?
  {
  }

  lemma OneStepLess(s: State)
    requires Sound(s) && SenderEnabled(s) && DrainSteps(s) > 0 && !s.exitFlag
    requires s.sender == Waiting ==> s.queue != []
    ensures DrainSteps(ApplySender(s)) == DrainSteps(s) - 1
  {
    hide Sound, Receives, Cost, ClosedHere;
    CostOfOneMore(|s.queue|, |s.table|);
  }

  lemma DrainedAtZero(s: State)
    requires Inv(s) && Quiescent(s) && DrainSteps(s) == 0
    ensures Drained(s)
  {
    assert ExitInv(s);
    hide Inv, Cost;
    CostOfOneMore(|s.queue|, |s.table|);
  }

  lemma DrainedIsDelivered(s: State)
    requires FifoInv(s) && Drained(s)
    ensures s.delivered == s.enqueued && forall k :: 0 <= k < |s.sessions| ==> Owed(s, k) == []
  {
    assert s.delivered + [] + [] == s.delivered;
    assert forall k :: 0 <= k < |s.sessions| ==> StillComing(s, s.sessions[k].slot) == [];
  }

  /** At a closed slot, the message in hand is owed to its session. */
  lemma ClosedIsOwed(s: State)
    requires Inv(s) && ClosedHere(s)
    ensures !Harmless(s)
  {
    hide WantedFrom, Passes, Receives, CountValid;
    var e, i := s.sender.entry, s.sender.next;
    var k := s.table[i].clientSocket.value;
    assert ThreadOf(s, i) && NameOf(s, k);
    ReceivesIsPasses(s.table[i], e.msg);
    WantedOfOne(s.sessions[k].name, e, s.queue);
    assert Owed(s, k) != [];
  }

  /** A step of the sender neither brings nor takes what is owed to closed sockets. */
  lemma HarmlessKept(s: State)
    requires Inv(s) && Sound(s) && SenderEnabled(s)
    ensures Harmless(ApplySender(s)) <==> Harmless(s)
  {
    assert NameInv(s) && TableInv(s) && ClosedInv(s);
    hide Inv, NameInv, TableInv, ClosedInv, Sound, SenderEnabled, ApplySender, Owed;
    SenderIsFramed(s);
    forall k | 0 <= k < |s.sessions| && s.sessions[k].pc != Reaped && s.sessions[k].closed
      ensures Owed(ApplySender(s), k) == Owed(s, k)
    {
      ClosedGetsNothing(s, k);
    }
  }

  lemma ClosedGetsNothing(s: State, k: nat)
    requires NameInv(s) && TableInv(s) && ClosedInv(s) && Sound(s) && SenderEnabled(s)
    requires k < |s.sessions| && s.sessions[k].pc != Reaped && s.sessions[k].closed
    ensures |ApplySender(s).sessions| == |s.sessions| && Owed(ApplySender(s), k) == Owed(s, k)
  {
    hide NameInv, TableInv, ClosedInv, Sound, Owed, Passes;
    SenderIsFramed(s);
    OwedBecomesSent(s, k);
    if s.sender.Sending? && s.sender.next < |s.table| {
      VisitSends(s, s.sender.entry, s.sender.next, k);
      if s.sessions[k].slot == s.sender.next {
        ClosedIsSkipped(s, k);
      }
    } else {
      OwedBetweenVisits(s, k);
    }
    Cancel(s.sessions[k].wire, Owed(ApplySender(s), k), Owed(s, k));
  }

  lemma ClosedIsSkipped(s: State, k: nat)
    requires NameInv(s) && TableInv(s) && SenderEnabled(s) && s.sender.Sending? && s.sender.next < |s.table|
    requires k < |s.sessions| && s.sessions[k].pc != Reaped && s.sessions[k].closed
             && s.sessions[k].slot == s.sender.next
    ensures !Passes(s.sessions[k].name, s.sender.entry.msg)
  {
    hide Passes, Receives, CountValid;
    assert NameOf(s, k) && SlotOf(s, k);
    ReceivesIsPasses(s.table[s.sender.next], s.sender.entry.msg);
  }

  lemma TableInvOf(s: State)
    requires Inv(s)
    ensures Sound(s)
  {
    TableInvIsSound(s);
  }

  /** One more step at the front. */
  lemma SenderStepFirst(s: State, n: nat)
    requires Inv(s) && Enabled(s, SenderStep)
    ensures Sound(s) && Inv(ApplySender(s))
    ensures Executable(s, SenderSteps(n + 1)) <==> Executable(ApplySender(s), SenderSteps(n))
    ensures Executable(s, SenderSteps(n + 1)) ==> Exec(s, SenderSteps(n + 1)) == Exec(ApplySender(s), SenderSteps(n))
  {
    hide Inv, Enabled, ApplySender;
    StepKeepsInv(s, SenderStep);
    assert SenderSteps(n + 1)[0] == SenderStep && SenderSteps(n + 1)[1..] == SenderSteps(n);
  }

  lemma NoSteps(s: State)
    requires Inv(s)
    ensures Executable(s, SenderSteps(0)) && Exec(s, SenderSteps(0)) == s
  {
    hide Inv;
    assert SenderSteps(0) == [];
  }

  /** With nothing owed to closed sockets, the sender alone empties the queue. */
  lemma {:induction false} DrainRun(s: State)
    requires Inv(s) && Quiescent(s) && Harmless(s)
    ensures Executable(s, SenderSteps(DrainSteps(s))) && Drained(Exec(s, SenderSteps(DrainSteps(s))))
    decreases DrainSteps(s)
  {
    hide Inv, Quiescent, DrainSteps, ApplySender, Harmless, Drained, ClosedHere, Executable, Exec, SenderSteps, Sound;
    if DrainSteps(s) == 0 {
      DrainedAtZero(s);
      NoSteps(s);
    } else {
      if ClosedHere(s) {
        ClosedIsOwed(s);
      }
      TableInvOf(s);
      DrainStep(s);
      SenderStepFirst(s, DrainSteps(s) - 1);
      HarmlessKept(s);
      DrainRun(ApplySender(s));
    }
  }

  /** Otherwise it gets to the closed slot, and there it can only fail. */
  lemma {:induction false} DrainStops(s: State) returns (n: nat)
    requires Inv(s) && Quiescent(s) && !Harmless(s)
    ensures n <= DrainSteps(s) && StopsAfter(s, n)
    decreases DrainSteps(s)
  {
    hide Inv, Quiescent, DrainSteps, ApplySender, Harmless, ClosedHere, Drained, Executable, Exec, SenderSteps, Sound;
    if ClosedHere(s) {
      NoSteps(s);
      return 0;
    }
    if DrainSteps(s) == 0 {
      DrainedAtZero(s);
      DrainedIsHarmless(s);
      assert false;
    }
    TableInvOf(s);
    DrainStep(s);
    SenderStepFirst(s, 0);
    HarmlessKept(s);
    n := DrainStops(ApplySender(s));
    SenderStepFirst(s, n);
    n := n + 1;
  }

  lemma DrainedIsHarmless(s: State)
    requires Drained(s)
    ensures Harmless(s)
  {
    assert forall k :: 0 <= k < |s.sessions| ==> StillComing(s, s.sessions[k].slot) == [];
  }

  /** After `n` steps the sender is at a closed slot that is to get its message. */
  predicate StopsAfter(s: State, n: nat)
    requires Inv(s)
  {
    Executable(s, SenderSteps(n)) && ClosedHere(Exec(s, SenderSteps(n)))
  }

  lemma {:induction false} HarmlessThroughout(s: State, n: nat)
    requires Inv(s) && Executable(s, SenderSteps(n))
    ensures Harmless(Exec(s, SenderSteps(n))) <==> Harmless(s)
    decreases n
  {
    hide Inv, ApplySender, Harmless, Exec, Sound;
    if n == 0 {
      NoSteps(s);
    } else {
      assert Enabled(s, SenderStep);
      hide Executable;
      SenderStepFirst(s, n - 1);
      HarmlessKept(s);
      HarmlessThroughout(ApplySender(s), n - 1);
    }
  }

  /** Drain progress: the sender alone empties the queue exactly when no message that is in hand or
      queued is for a socket that the server itself has closed, and then in a number of steps that
      is linear in the queue. Otherwise, within that number, all that is left is a send that fails. */
  lemma SenderDrainsIff(s: State)
    requires Inv(s) && Quiescent(s)
    ensures DrainSteps(s) <= Cost(|s.queue| + 1, |s.table|)
    ensures Harmless(s) ==> Executable(s, SenderSteps(DrainSteps(s))) && Drained(Exec(s, SenderSteps(DrainSteps(s))))
    ensures !Harmless(s) ==> exists n :: 0 <= n <= DrainSteps(s) && StopsAfter(s, n)
    ensures (exists n: nat :: DrainedAfter(s, n)) <==> Harmless(s)
  {
    DrainBound(s);
    hide DrainSteps, Cost, Quiescent, Inv, Executable, Exec, StopsAfter, Harmless;
    if Harmless(s) {
      DrainRun(s);
      assert DrainedAfter(s, DrainSteps(s));
    } else {
      var n := DrainStops(s);
    }
    if n: nat :| DrainedAfter(s, n) {
      HarmlessThroughout(s, n);
      DrainedIsHarmless(Exec(s, SenderSteps(n)));
    }
  }

  predicate DrainedAfter(s: State, n: nat)
    requires Inv(s)
  {
    Executable(s, SenderSteps(n)) && Drained(Exec(s, SenderSteps(n)))
  }

  lemma DrainBound(s: State)
    ensures DrainSteps(s) <= Cost(|s.queue| + 1, |s.table|)
  {
    hide Cost;
    CostOfOneMore(|s.queue| + 1, |s.table|);
  }

  /** Once the queue is drained, every message was delivered, and every live client was sent all
      that it is due, each message once and in order. */
  lemma DrainedServesEverybody(s: State, k: nat)
    requires Inv(s) && Drained(s) && k < |s.sessions| && s.sessions[k].pc != Reaped
    ensures s.delivered == s.enqueued && s.sessions[k].since <= |s.enqueued|
    ensures s.sessions[k].wire == WantedFrom(s.sessions[k].name, s.enqueued[s.sessions[k].since..])
  {
    hide WantedFrom, Owed;
    assert Accounted(s, k);
    hide Inv;
    DrainedIsDelivered(s);
    assert s.sessions[k].wire + [] == s.sessions[k].wire;
  }

  lemma {:induction false} SenderStepsFrame(s: State, n: nat)
    requires Inv(s) && Executable(s, SenderSteps(n))
    ensures SenderFrame(s, Exec(s, SenderSteps(n)))
    decreases n
  {
    hide Inv, ApplySender, Exec, Sound;
    if n == 0 {
      NoSteps(s);
    } else {
      assert Enabled(s, SenderStep);
      hide Executable;
      SenderStepFirst(s, n - 1);
      SenderIsFramed(s);
      SenderStepsFrame(ApplySender(s), n - 1);
    }
  }

  /** The drain puts on the log of every live client exactly what it was owed. */
  lemma DrainSends(s: State, k: nat)
    requires Inv(s) && Quiescent(s) && Harmless(s) && k < |s.sessions| && s.sessions[k].pc != Reaped
    ensures DrainedAfter(s, DrainSteps(s))
    ensures var r := Exec(s, SenderSteps(DrainSteps(s)));
            |r.sessions| == |s.sessions| && r.sessions[k].wire == s.sessions[k].wire + Owed(s, k)
  {
    hide Executable, Exec, DrainSteps, SenderSteps, Quiescent, Harmless, Owed, WantedFrom, Drained;
    DrainRun(s);
    var r := Exec(s, SenderSteps(DrainSteps(s)));
    SenderStepsFrame(s, DrainSteps(s));
    assert Accounted(s, k);
    DrainedServesEverybody(r, k);
  }

  // ---- When the server may end ----

  predicate IsConnection(a: Action) {
    a.MainStep? && a.m.HandleConnection?
  }

  /** Nobody was served yet, or the main thread has given up. */
  predicate BeforeFirst(s: State) {
    s.main == Serving(true) || s.main == Aborted
  }

  lemma StaysBeforeFirst(s: State, a: Action)
    requires BeforeFirst(s) && Enabled(s, a) && Sound(s) && !IsConnection(a)
    ensures a != MainStep(RaiseExit) && BeforeFirst(Apply(s, a))
  {
    hide Sound, Receives, SystemMessage;
  }

  lemma {:induction false} NoExitBeforeFirst(s: State, actions: seq<Action>, i: nat)
    requires Inv(s) && Executable(s, actions) && i < |actions| && BeforeFirst(s)
    requires forall j :: 0 <= j < i ==> !IsConnection(actions[j])
    ensures actions[i] != MainStep(RaiseExit)
    decreases i
  {
    hide Inv, Enabled, Apply;
    StepKeepsInv(s, actions[0]);
    if !IsConnection(actions[0]) {
      StaysBeforeFirst(s, actions[0]);
      if i > 0 {
        NoExitBeforeFirst(Apply(s, actions[0]), actions[1..], i - 1);
      }
    }
  }

  /** In every run the exit flag is raised only after some connection was handled. */
  lemma ExitNeedsConnection(n: nat, actions: seq<Action>, i: nat)
    requires 1 <= n < MAXIMUM_WAIT_OBJECTS && Executable(Start(n), actions)
    requires i < |actions| && actions[i] == MainStep(RaiseExit)
    ensures exists j :: 0 <= j < i && IsConnection(actions[j])
  {
    assert BeforeFirst(Start(n));
    if forall j :: 0 <= j < i ==> !IsConnection(actions[j]) {
      NoExitBeforeFirst(Start(n), actions, i);
    }
  }
}

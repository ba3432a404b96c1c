/** What every step of the server keeps. */
module Invariants {
  import opened Common
  import opened Protocol
  import opened ClientTable
  import opened SystemMessages
  import opened ChatServer
  import opened MessageParser

  // ---- The table, its counter and its threads ----

  /** The counter is the number of valid slots; every unreaped session has its own valid slot,
      and every valid slot is that of an unreaped session. */
  predicate TableInv(s: State) {
    && 1 <= |s.table| < MAXIMUM_WAIT_OBJECTS
    && s.active == CountValid(s.table)
    && (forall k :: 0 <= k < |s.sessions| ==> SlotOf(s, k))
    && (forall i :: 0 <= i < |s.table| ==> ThreadOf(s, i))
  }

  predicate SlotOf(s: State, k: nat)
    requires k < |s.sessions|
  {
    var session := s.sessions[k];
    session.slot < |s.table| && (session.pc != Reaped ==>
      var c := s.table[session.slot];
      c.isValid && c.threadHandle == Some(k) && c.clientSocket == Some(k))
  }

  predicate ThreadOf(s: State, i: nat)
    requires i < |s.table|
  {
    var c := s.table[i];
    if c.isValid then
      c.threadHandle.Some? && c.clientSocket == c.threadHandle && c.threadHandle.value < |s.sessions| &&
      s.sessions[c.threadHandle.value].slot == i && s.sessions[c.threadHandle.value].pc != Reaped
    else c == ResetClient(None)
  }

  lemma TableInvIsSound(s: State)
    requires TableInv(s)
    ensures Sound(s)
  {
    forall k | 0 <= k < |s.sessions|
      ensures s.sessions[k].slot < |s.table|
    {
      assert SlotOf(s, k);
    }
    forall i | 0 <= i < |s.table| && s.table[i].isValid
      ensures s.table[i].clientSocket.Some? && s.table[i].clientSocket.value < |s.sessions|
    {
      assert ThreadOf(s, i);
    }
  }

  lemma TableInvInit(n: nat)
    requires 1 <= n < MAXIMUM_WAIT_OBJECTS
    ensures TableInv(Init(n))
  {
    CountIsZero(EmptyTable(n));
  }

  /** A step that leaves the table and the slots of the sessions alone, and reaps no session. */
  lemma TableInvFrame(s: State, s': State)
    requires TableInv(s) && s'.table == s.table && s'.active == s.active && |s'.sessions| == |s.sessions|
    requires forall k :: 0 <= k < |s.sessions| ==>
               s'.sessions[k].slot == s.sessions[k].slot
                 && (s'.sessions[k].pc == Reaped <==> s.sessions[k].pc == Reaped)
    ensures TableInv(s')
  {
    forall k | 0 <= k < |s.sessions|
      ensures SlotOf(s', k)
    {
      assert SlotOf(s, k);
    }
    forall i | 0 <= i < |s.table|
      ensures ThreadOf(s', i)
    {
      assert ThreadOf(s, i);
    }
  }

  lemma TableInvLogin(s: State, request: Option<Decoded>)
    requires TableInv(s)
    ensures TableInv(Connected(s, request))
  {
    hide Validate, FirstFree, CountValid;
    var s' := Connected(s, request);
    if request.Some? && !Validate(s.table, request.value).Malformed? && FirstFree(s.table).Some? {
      var i, k := FirstFree(s.table).value, |s.sessions|;
      CountUpdate(s.table, i, s'.table[i]);
      forall j | 0 <= j < |s'.sessions|
        ensures SlotOf(s', j)
      {
        if j < k {
          assert SlotOf(s, j);
        }
      }
      forall j | 0 <= j < |s.table|
        ensures ThreadOf(s', j)
      {
        assert ThreadOf(s, j);
      }
    } else {
      TableInvFrame(s, s');
    }
  }

  lemma TableInvReap(s: State, p: nat)
    requires TableInv(s) && MainEnabled(s, ReapThread(p))
    ensures TableInv(Reap(s, p))
  {
    var i, k := SlotAt(s, p), ThreadAt(s, p).value;
    var s' := Reap(s, p);
    assert ThreadOf(s, i);
    if s.sessions[k].pc == Crashed {
      TableInvFrame(s, s');
    } else {
      CountUpdate(s.table, i, ResetClient(None));
      forall j | 0 <= j < |s'.sessions|
        ensures SlotOf(s', j)
      {
        assert SlotOf(s, j);
      }
      forall j | 0 <= j < |s.table|
        ensures ThreadOf(s', j)
      {
        assert ThreadOf(s, j);
      }
    }
  }

  /** A handler changes no more than its own state, the queue and the event. */
  predicate HandlerFrame(s: State, s': State, k: nat) {
    && k < |s.sessions| == |s'.sessions|
    && s'.sessions == s.sessions[k := s.sessions[k].(pc := s'.sessions[k].pc, closed := s'.sessions[k].closed)]
    && s'.table == s.table && s'.active == s.active && s'.exitFlag == s.exitFlag && s'.main == s.main
    && s'.sender == s.sender && s'.delivered == s.delivered
    && s.sessions[k].pc != Reaped && s'.sessions[k].pc != Reaped
  }

  lemma EnqueueIsFramed(s: State, k: nat, kind: Kind, pc: SessionPc)
    requires Sound(s) && k < |s.sessions| && s.sessions[k].pc != Reaped && pc != Reaped
    ensures var s' := EnqueueFor(s, k, kind, pc);
            && HandlerFrame(s, s', k) && s'.sessions[k].pc == pc && s'.event == s.event
               && s'.sessions[k].closed == s.sessions[k].closed
            && |s'.queue| == |s.queue| + 1 && s'.queue == s.queue + [s'.queue[|s.queue|]]
            && s'.enqueued == s.enqueued + [s'.queue[|s.queue|]]
            && s'.queue[|s.queue|].origin == k && s'.queue[|s.queue|].kind == kind
            && s'.queue[|s.queue|].msg == SystemMessage(kind, Name(s.table[s.sessions[k].slot]))
  {
    hide SystemMessage;
  }

  lemma HandlerIsFramed(s: State, k: nat, h: HandlerAction)
    requires Sound(s) && HandlerEnabled(s, k, h)
    ensures HandlerFrame(s, ApplyHandler(s, k, h), k)
  {
    hide Sound, RequestOf, EnqueueFor;
    match h
    case EnqueueWelcome => EnqueueIsFramed(s, k, Welcome, Welcomed);
    case EnqueueJoined => EnqueueIsFramed(s, k, Joined, Announced);
    case HandleMessage(m) => EnqueueIsFramed(s, k, Left, Leaving);
    case _ =>
  }

  /** The sender changes the queue, the event and the logs of the clients. */
  predicate SenderFrame(s: State, s': State) {
    && s'.table == s.table && s'.active == s.active && s'.exitFlag == s.exitFlag && s'.main == s.main
    && s'.enqueued == s.enqueued && |s'.sessions| == |s.sessions|
    && forall k :: 0 <= k < |s.sessions| ==>
         s'.sessions[k] == s.sessions[k].(wire := s'.sessions[k].wire, stamps := s'.sessions[k].stamps)
  }

  lemma SenderIsFramed(s: State)
    requires Sound(s) && SenderEnabled(s)
    ensures SenderFrame(s, ApplySender(s))
  {
  }

  lemma TableInvKept(s: State, a: Action)
    requires TableInv(s) && Sound(s) && Enabled(s, a)
    ensures TableInv(Apply(s, a))
  {
    match a
    case MainStep(m) =>
      if m.HandleConnection? {
        TableInvLogin(s, m.request);
      } else if m.ReapThread? {
        TableInvReap(s, m.position);
      } else {
        TableInvFrame(s, Apply(s, a));
      }
    case HandlerStep(k, h) =>
      HandlerIsFramed(s, k, h);
      TableInvFrame(s, Apply(s, a));
    case SenderStep =>
      SenderIsFramed(s);
      TableInvFrame(s, Apply(s, a));
    case SendFails => TableInvFrame(s, Apply(s, a));
  }

  // ---- Conservation ----

  function InFlight(s: State): (r: seq<Entry>) {
    if InHand(s) then [s.sender.entry] else []
  }

  /** All that was enqueued is what was delivered, then the message in flight, then the queue. */
  predicate FifoInv(s: State) {
    s.enqueued == s.delivered + InFlight(s) + s.queue
  }

  lemma FifoInvKept(s: State, a: Action)
    requires FifoInv(s) && Sound(s) && Enabled(s, a)
    ensures FifoInv(Apply(s, a))
  {
    hide Sound, ApplyHandler, ApplySender;
    match a
    case MainStep(m) =>
      MainIsFramed(s, m);
      hide ApplyMain;
    case HandlerStep(k, h) => FifoHandler(s, k, h);
    case SenderStep => FifoSender(s);
    case SendFails =>
  }

  lemma FifoHandler(s: State, k: nat, h: HandlerAction)
    requires FifoInv(s) && Sound(s) && HandlerEnabled(s, k, h)
    ensures FifoInv(ApplyHandler(s, k, h))
  {
    hide Sound, RequestOf, EnqueueFor;
    match h
    case EnqueueWelcome => FifoEnqueue(s, k, Welcome, Welcomed);
    case EnqueueJoined => FifoEnqueue(s, k, Joined, Announced);
    case HandleMessage(m) => FifoEnqueue(s, k, Left, Leaving);
    case _ =>
  }

  lemma FifoEnqueue(s: State, k: nat, kind: Kind, pc: SessionPc)
    requires FifoInv(s) && Sound(s) && k < |s.sessions|
    ensures FifoInv(EnqueueFor(s, k, kind, pc))
  {
    hide SystemMessage;
    var e := EnqueueFor(s, k, kind, pc).queue[|s.queue|];
    Associative(s.delivered + InFlight(s), s.queue, [e]);
  }

  lemma FifoSender(s: State)
    requires FifoInv(s) && Sound(s) && SenderEnabled(s)
    ensures FifoInv(ApplySender(s))
  {
    hide Receives, Sound;
    if s.sender == Dequeuing && s.queue != [] {
      assert s.queue == [s.queue[0]] + s.queue[1..];
      assert s.delivered + [] + s.queue == s.delivered + [s.queue[0]] + s.queue[1..];
    }
  }

  // ---- Wake-ups ----

  /** The handler has enqueued something and not yet set the event. */
  predicate OwesSignal(pc: SessionPc) {
    pc == Welcomed || pc == Announced || pc == Leaving
  }

  predicate SignalOwed(s: State) {
    exists k :: 0 <= k < |s.sessions| && OwesSignal(s.sessions[k].pc)
  }

  /** A sender that waits beside a non-empty queue has been, or will be, woken. */
  predicate WakeInv(s: State) {
    s.sender == Waiting && s.queue != [] ==> s.event || SignalOwed(s)
  }

  lemma WakeInvHandler(s: State, k: nat, h: HandlerAction)
    requires WakeInv(s) && Sound(s) && HandlerEnabled(s, k, h)
    ensures WakeInv(ApplyHandler(s, k, h))
  {
    hide Sound;
    var s' := ApplyHandler(s, k, h);
    HandlerIsFramed(s, k, h);
    assert s'.event || s'.queue == s.queue || OwesSignal(s'.sessions[k].pc);
    assert s'.event || OwesSignal(s.sessions[k].pc) ==> s'.event || OwesSignal(s'.sessions[k].pc);
    if SignalOwed(s) {
      var j :| 0 <= j < |s.sessions| && OwesSignal(s.sessions[j].pc);
      assert j != k ==> s'.sessions[j] == s.sessions[j];
    }
  }

  lemma WakeInvSender(s: State)
    requires WakeInv(s) && Sound(s) && SenderEnabled(s)
    ensures WakeInv(ApplySender(s))
  {
  }

  lemma WakeInvBroken(s: State)
    requires WakeInv(s) && DueHere(s)
    ensures WakeInv(s.(sender := Broken(s.sender.entry, s.sender.next)))
  {
  }

  lemma WakeInvMain(s: State, m: MainAction)
    requires WakeInv(s) && MainEnabled(s, m)
    ensures WakeInv(ApplyMain(s, m))
  {
    var s' := ApplyMain(s, m);
    if SignalOwed(s) {
      var j :| 0 <= j < |s.sessions| && OwesSignal(s.sessions[j].pc);
      assert OwesSignal(s'.sessions[j].pc);
    }
  }

  lemma WakeInvKept(s: State, a: Action)
    requires WakeInv(s) && Sound(s) && Enabled(s, a)
    ensures WakeInv(Apply(s, a))
  {
    hide WakeInv, Sound;
    match a
    case MainStep(m) => WakeInvMain(s, m);
    case HandlerStep(k, h) => WakeInvHandler(s, k, h);
    case SenderStep => WakeInvSender(s);
    case SendFails => WakeInvBroken(s);
  }

  // ---- Shutdown ----

  predicate ExitInv(s: State) {
    && (s.exitFlag <==> s.main == Raised || s.main == AwaitingSender || s.main == Finished)
    && (s.exitFlag ==> s.active == 0)
    && (s.main == AwaitingSender ==> s.event || s.sender == CheckingExit || SenderGone(s))
    && (s.sender == Exited ==> s.exitFlag)
    && (s.main == Finished ==> SenderGone(s))
  }

  lemma ExitInvKept(s: State, a: Action)
    requires ExitInv(s) && TableInv(s) && Sound(s) && Enabled(s, a)
    ensures ExitInv(Apply(s, a))
  {
    match a
    case MainStep(m) => ExitInvMain(s, m);
    case HandlerStep(k, h) =>
      HandlerIsFramed(s, k, h);
      HandlerKeepsEvent(s, k, h);
    case SenderStep => SenderIsFramed(s);
    case SendFails =>
  }

  lemma ExitInvMain(s: State, m: MainAction)
    requires ExitInv(s) && s.active >= 0 && MainEnabled(s, m)
    ensures ExitInv(ApplyMain(s, m))
  {
    hide Validate, Login, FirstFree, NewSession, SlotAt, ThreadAt, ValidSlots;
  }

  lemma HandlerKeepsEvent(s: State, k: nat, h: HandlerAction)
    requires Sound(s) && HandlerEnabled(s, k, h)
    ensures s.event ==> ApplyHandler(s, k, h).event
  {
    hide Sound;
  }

  // ---- Names ----

  lemma NamesKept(s: State, a: Action)
    requires NamesDiffer(s.table) && Sound(s) && Enabled(s, a)
    ensures NamesDiffer(Apply(s, a).table)
  {
    match a
    case MainStep(m) =>
      if m.HandleConnection? && m.request.Some? {
        LoginKeepsNames(s.table, m.request.value, Some(|s.sessions|), |s.sessions|);
      }
    case HandlerStep(k, h) => HandlerIsFramed(s, k, h);
    case SenderStep => SenderIsFramed(s);
    case SendFails =>
  }

  // ---- What each session says ----

  /** The kinds of the messages of session `k` in a history, in order. */
  function KindsOf(h: seq<Entry>, k: nat): (r: seq<Kind>) {
    if h == [] then []
    else KindsOf(h[..|h| - 1], k) + if h[|h| - 1].origin == k then [h[|h| - 1].kind] else []
  }

  /** All that a session in state `pc` has said. */
  function Said(pc: SessionPc): (r: seq<Kind>) {
    match pc
    case Starting => []
    case Welcomed => [Welcome]
    case Announced => [Welcome, Joined]
    case Receiving => [Welcome, Joined]
    case Crashed => [Welcome, Joined]
    case Leaving => [Welcome, Joined, Left]
    case Closing => [Welcome, Joined, Left]
    case Ended => [Welcome, Joined, Left]
    case Reaped => [Welcome, Joined, Left]
  }

  predicate SaysInOrder(s: State, k: nat)
    requires k < |s.sessions|
  {
    KindsOf(s.enqueued, k) == Said(s.sessions[k].pc)
  }

  predicate OrderInv(s: State) {
    && (forall k :: 0 <= k < |s.sessions| ==> SaysInOrder(s, k))
    && (forall i :: 0 <= i < |s.enqueued| ==> s.enqueued[i].origin < |s.sessions|)
  }

  lemma KindsOfSnoc(h: seq<Entry>, e: Entry, k: nat)
    ensures KindsOf(h + [e], k) == KindsOf(h, k) + if e.origin == k then [e.kind] else []
  {
    assert (h + [e])[..|h|] == h;
  }

  lemma {:induction false} NobodySaysNothing(h: seq<Entry>, k: nat)
    requires forall i :: 0 <= i < |h| ==> h[i].origin < k
    ensures KindsOf(h, k) == []
  {
    if h != [] {
      NobodySaysNothing(h[..|h| - 1], k);
    }
  }

  lemma OrderFrame(s: State, s': State)
    requires OrderInv(s) && s'.enqueued == s.enqueued && |s'.sessions| == |s.sessions|
    requires forall k :: 0 <= k < |s.sessions| ==> Said(s'.sessions[k].pc) == Said(s.sessions[k].pc)
    ensures OrderInv(s')
  {
    forall k | 0 <= k < |s.sessions|
      ensures SaysInOrder(s', k)
    {
      assert SaysInOrder(s, k);
    }
  }

  lemma OrderEnqueue(s: State, k: nat, kind: Kind, pc: SessionPc)
    requires OrderInv(s) && Sound(s) && k < |s.sessions| && Said(pc) == Said(s.sessions[k].pc) + [kind]
    ensures OrderInv(EnqueueFor(s, k, kind, pc))
  {
    var s' := EnqueueFor(s, k, kind, pc);
    var e := s'.enqueued[|s.enqueued|];
    forall j | 0 <= j < |s.sessions|
      ensures SaysInOrder(s', j)
    {
      assert SaysInOrder(s, j);
      KindsOfSnoc(s.enqueued, e, j);
    }
  }

  lemma OrderHandler(s: State, k: nat, h: HandlerAction)
    requires OrderInv(s) && Sound(s) && HandlerEnabled(s, k, h)
    ensures OrderInv(ApplyHandler(s, k, h))
  {
    hide OrderInv, Sound, EnqueueFor;
    match h
    case EnqueueWelcome => OrderEnqueue(s, k, Welcome, Welcomed);
    case EnqueueJoined => OrderEnqueue(s, k, Joined, Announced);
    case SignalLogin => OrderFrame(s, ApplyHandler(s, k, h));
    case SignalLeft => OrderFrame(s, ApplyHandler(s, k, h));
    case CloseSocket => OrderFrame(s, ApplyHandler(s, k, h));
    case HandleMessage(m) => OrderHandled(s, k, m);
  }

  lemma OrderHandled(s: State, k: nat, m: Option<Message>)
    requires OrderInv(s) && Sound(s) && k < |s.sessions| && s.sessions[k].pc == Receiving
    ensures OrderInv(Handled(s, k, m))
  {
    OrderEnqueue(s, k, Left, Leaving);
    OrderFrame(s, SetPc(s, k, Crashed));
    hide OrderInv, Sound, EnqueueFor, SetPc;
  }

  /** The main thread leaves the queue, the histories, the sender and the logs alone. A new session
      starts silent, and a reaped one has said all it had to. */
  predicate MainFrame(s: State, s': State) {
    && s'.enqueued == s.enqueued && s'.queue == s.queue && s'.delivered == s.delivered && s'.sender == s.sender
    && |s.sessions| <= |s'.sessions| <= |s.sessions| + 1
    && (forall k :: 0 <= k < |s.sessions| ==>
          && s'.sessions[k] == s.sessions[k].(pc := s'.sessions[k].pc)
          && Said(s'.sessions[k].pc) == Said(s.sessions[k].pc))
    && (|s'.sessions| > |s.sessions| ==> Fresh(s'.sessions[|s.sessions|]))
  }

  predicate Fresh(session: Session) {
    session.pc == Starting && session.wire == [] && session.stamps == []
  }

  lemma MainIsFramed(s: State, m: MainAction)
    requires MainEnabled(s, m)
    ensures MainFrame(s, ApplyMain(s, m))
  {
    match m
    case HandleConnection(request) => ConnectedIsFramed(s, request);
    case ReapThread(p) => ReapIsFramed(s, p);
    case _ =>
  }

  lemma ConnectedIsFramed(s: State, request: Option<Decoded>)
    ensures MainFrame(s, Connected(s, request))
  {
    hide Validate, Login, FirstFree;
  }

  lemma ReapIsFramed(s: State, p: nat)
    requires MainEnabled(s, ReapThread(p))
    ensures MainFrame(s, Reap(s, p))
  {
    hide SlotAt;
  }

  lemma OrderMain(s: State, s': State)
    requires OrderInv(s) && MainFrame(s, s')
    ensures OrderInv(s')
  {
    if |s'.sessions| > |s.sessions| {
      NobodySaysNothing(s.enqueued, |s.sessions|);
      forall k | 0 <= k < |s'.sessions|
        ensures SaysInOrder(s', k)
      {
        if k < |s.sessions| {
          assert SaysInOrder(s, k);
        }
      }
    } else {
      OrderFrame(s, s');
    }
  }

  lemma OrderKept(s: State, a: Action)
    requires OrderInv(s) && Sound(s) && Enabled(s, a)
    ensures OrderInv(Apply(s, a))
  {
    match a
    case MainStep(m) =>
      MainIsFramed(s, m);
      OrderMain(s, Apply(s, a));
    case HandlerStep(k, h) => OrderHandler(s, k, h);
    case SenderStep =>
      SenderIsFramed(s);
      OrderFrame(s, Apply(s, a));
    case SendFails => OrderFrame(s, Apply(s, a));
  }

  // ---- What each client receives ----

  /** The log of session `k`: each message with its position in the history, at increasing
      positions, and at most the message in flight from the part not yet delivered. */
  predicate WireOf(s: State, k: nat)
    requires k < |s.sessions|
  {
    var session := s.sessions[k];
    && |session.wire| == |session.stamps|
    && (forall i, j :: 0 <= i < j < |session.stamps| ==> session.stamps[i] < session.stamps[j])
    && (forall i :: 0 <= i < |session.stamps| ==> StampOk(s, session, i))
  }

  predicate StampOk(s: State, session: Session, i: nat)
    requires i < |session.stamps| == |session.wire|
  {
    && session.stamps[i] < |s.enqueued| && s.enqueued[session.stamps[i]] == session.wire[i]
    && (session.stamps[i] < |s.delivered|
        || (session.stamps[i] == |s.delivered| && InHand(s) && session.slot < s.sender.next))
  }

  predicate WireInv(s: State) {
    forall k :: 0 <= k < |s.sessions| ==> WireOf(s, k)
  }

  /** The histories only grow, and neither the sender nor the logs move. */
  lemma WireFrame(s: State, s': State, k: nat)
    requires k < |s.sessions| && k < |s'.sessions| && WireOf(s, k)
    requires s.enqueued <= s'.enqueued && s'.delivered == s.delivered && s'.sender == s.sender
    requires s'.sessions[k].slot == s.sessions[k].slot
    requires s'.sessions[k].wire == s.sessions[k].wire && s'.sessions[k].stamps == s.sessions[k].stamps
    ensures WireOf(s', k)
  {
    forall i | 0 <= i < |s'.sessions[k].stamps|
      ensures StampOk(s', s'.sessions[k], i)
    {
      assert StampOk(s, s.sessions[k], i);
    }
  }

  lemma HandlerHistory(s: State, k: nat, h: HandlerAction)
    requires Sound(s) && HandlerEnabled(s, k, h)
    ensures s.enqueued <= ApplyHandler(s, k, h).enqueued
  {
    hide Sound;
  }

  lemma WireHandler(s: State, k: nat, h: HandlerAction)
    requires WireInv(s) && Sound(s) && HandlerEnabled(s, k, h)
    ensures WireInv(ApplyHandler(s, k, h))
  {
    hide WireOf, Sound;
    var s' := ApplyHandler(s, k, h);
    HandlerIsFramed(s, k, h);
    HandlerHistory(s, k, h);
    forall j | 0 <= j < |s'.sessions|
      ensures WireOf(s', j)
    {
      WireFrame(s, s', j);
    }
  }

  lemma WireMain(s: State, m: MainAction)
    requires WireInv(s) && MainEnabled(s, m)
    ensures WireInv(ApplyMain(s, m))
  {
    var s' := ApplyMain(s, m);
    MainIsFramed(s, m);
    hide ApplyMain;
    forall j | 0 <= j < |s'.sessions|
      ensures WireOf(s', j)
    {
      if j < |s.sessions| {
        WireFrame(s, s', j);
      }
    }
  }

  /** A step of the sender that visits no slot: what it is done with counts as delivered. */
  lemma WireBetweenVisits(s: State, s': State, k: nat)
    requires FifoInv(s) && k < |s.sessions| && WireOf(s, k) && !s.sender.Broken?
    requires s'.sessions == s.sessions && s'.enqueued == s.enqueued
    requires if s.sender.Sending? then s'.delivered == s.delivered + [s.sender.entry] else s'.delivered == s.delivered
    ensures WireOf(s', k)
  {
    forall i | 0 <= i < |s.sessions[k].stamps|
      ensures StampOk(s', s.sessions[k], i)
    {
      assert StampOk(s, s.sessions[k], i);
    }
  }

  /** The visit of slot `i` adds to the log of its session a message it cannot have yet. */
  lemma WireVisit(s: State, e: Entry, i: nat, k: nat)
    requires FifoInv(s) && TableInv(s) && Sound(s) && s.sender == Sending(e, i) && i < |s.table|
    requires k < |s.sessions| && WireOf(s, k)
    ensures WireOf(Visit(s, e, i).(sender := Sending(e, i + 1)), k)
  {
    var s' := Visit(s, e, i).(sender := Sending(e, i + 1));
    var was, now := s.sessions[k], s'.sessions[k];
    assert ThreadOf(s, i);
    assert s.enqueued[|s.delivered|] == e;
    assert now == was || (now.stamps == was.stamps + [|s.delivered|] && now.wire == was.wire + [e] && was.slot == i);
    forall j | 0 <= j < |was.stamps|
      ensures StampOk(s', now, j) && (now != was ==> was.stamps[j] < |s.delivered|)
    {
      assert StampOk(s, was, j);
    }
  }

  lemma WireSender(s: State)
    requires WireInv(s) && FifoInv(s) && TableInv(s) && Sound(s) && SenderEnabled(s)
    ensures WireInv(ApplySender(s))
  {
    hide WireOf, FifoInv, TableInv;
    var s' := ApplySender(s);
    forall k | 0 <= k < |s'.sessions|
      ensures WireOf(s', k)
    {
      if s.sender.Sending? && s.sender.next < |s.table| {
        WireVisit(s, s.sender.entry, s.sender.next, k);
      } else {
        WireBetweenVisits(s, s', k);
      }
    }
  }

  lemma WireBroken(s: State)
    requires WireInv(s) && DueHere(s)
    ensures WireInv(s.(sender := Broken(s.sender.entry, s.sender.next)))
  {
    var s' := s.(sender := Broken(s.sender.entry, s.sender.next));
    forall k | 0 <= k < |s.sessions|
      ensures WireOf(s', k)
    {
      assert WireOf(s, k);
      assert forall i :: 0 <= i < |s.sessions[k].stamps| ==> StampOk(s, s.sessions[k], i) ==>
             StampOk(s', s.sessions[k], i);
    }
  }

  lemma WireKept(s: State, a: Action)
    requires WireInv(s) && FifoInv(s) && TableInv(s) && Sound(s) && Enabled(s, a)
    ensures WireInv(Apply(s, a))
  {
    hide WireInv, FifoInv, TableInv, Sound;
    match a
    case MainStep(m) => WireMain(s, m);
    case HandlerStep(k, h) => WireHandler(s, k, h);
    case SenderStep => WireSender(s);
    case SendFails => WireBroken(s);
  }

  // ---- Logins and finalisations ----

  function CountReaped(sessions: seq<Session>): (r: nat) {
    if sessions == [] then 0
    else CountReaped(sessions[..|sessions| - 1]) + if sessions[|sessions| - 1].pc == Reaped then 1 else 0
  }

  /** The counter is the number of allocations less the number of finalisations. */
  predicate AccountInv(s: State) {
    s.active == |s.sessions| - CountReaped(s.sessions)
  }

  lemma {:induction false} CountReapedUpdate(sessions: seq<Session>, k: nat, session: Session)
    requires k < |sessions|
    ensures CountReaped(sessions[k := session])
         == CountReaped(sessions) - (if sessions[k].pc == Reaped then 1 else 0)
            + (if session.pc == Reaped then 1 else 0)
  {
    var n := |sessions| - 1;
    if k == n {
      assert sessions[k := session][..n] == sessions[..n];
    } else {
      assert sessions[k := session][..n] == sessions[..n][k := session];
      CountReapedUpdate(sessions[..n], k, session);
    }
  }

  lemma {:induction false} CountReapedFrame(s: seq<Session>, s': seq<Session>)
    requires |s| == |s'| && forall k :: 0 <= k < |s| ==> (s'[k].pc == Reaped <==> s[k].pc == Reaped)
    ensures CountReaped(s') == CountReaped(s)
  {
    if s != [] {
      CountReapedFrame(s[..|s| - 1], s'[..|s| - 1]);
    }
  }

  lemma AccountReap(s: State, p: nat)
    requires AccountInv(s) && MainEnabled(s, ReapThread(p))
    ensures AccountInv(Reap(s, p))
  {
    hide SlotAt;
    var k := ThreadAt(s, p).value;
    CountReapedUpdate(s.sessions, k, s.sessions[k].(pc := Reaped));
  }

  lemma CountReapedSnoc(sessions: seq<Session>, session: Session)
    requires session.pc != Reaped
    ensures CountReaped(sessions + [session]) == CountReaped(sessions)
  {
    assert (sessions + [session])[..|sessions|] == sessions;
  }

  lemma AccountLogin(s: State, request: Option<Decoded>)
    requires AccountInv(s)
    ensures AccountInv(Connected(s, request))
  {
    hide CountReaped, Validate, Login, FirstFree;
    if |Connected(s, request).sessions| > |s.sessions| {
      CountReapedSnoc(s.sessions, NewSession(s, Validate(s.table, request.value), FirstFree(s.table).value));
    }
  }

  lemma AccountKept(s: State, a: Action)
    requires AccountInv(s) && Sound(s) && Enabled(s, a)
    ensures AccountInv(Apply(s, a))
  {
    hide CountReaped, Connected, Reap, Sound, ThreadAt, ValidSlots;
    match a
    case MainStep(m) =>
      if m.HandleConnection? {
        AccountLogin(s, m.request);
      } else if m.ReapThread? {
        AccountReap(s, m.position);
      }
    case HandlerStep(k, h) =>
      HandlerIsFramed(s, k, h);
      CountReapedFrame(s.sessions, Apply(s, a).sessions);
    case SenderStep =>
      SenderIsFramed(s);
      CountReapedFrame(s.sessions, Apply(s, a).sessions);
    case SendFails => CountReapedFrame(s.sessions, Apply(s, a).sessions);
  }
}

/** The server as a transition system: the main thread, the sender thread and any number of
    client-handler threads that share the send queue, the auto-reset event, the exit flag and
    the client table. Queue operations are atomic, which `QueueMicroSteps` justifies. */
module ChatServer {
  import opened Common
  import opened Protocol
  import opened MessageParser
  import opened ClientTable
  import opened SystemMessages

  type Slot = Client<Option<nat>>

  type Table = t: seq<Slot> | TableOk(t) witness []

  /** A queued message, tagged with the session that enqueued it and the place it has in it. */
  datatype RawEntry = Entry(msg: MsgToSend, origin: nat, kind: Kind)

  type Entry = e: RawEntry | MsgOk(e.msg)
    witness Entry(MsgToSend(Zeros(NAME_FIELD_SIZE), 0, Zeros(NAME_FIELD_SIZE), 0, false, Outgoing(0, 0, [])), 0,
                  Welcome)

  datatype MainPc =
    | Serving(first: bool)  // at the head of the main loop; `first`: no connection was handled yet
    | Raised                // the exit flag is up, the event not yet set
    | AwaitingSender        // waits for the sender thread to end
    | Finished
    | Aborted               // an error took the main thread out of its loop

  datatype SenderPc =
    | Dequeuing
    | Waiting                           // saw the queue empty; waits for the event
    | CheckingExit                      // woken; about to look at the exit flag
    | Sending(entry: Entry, next: nat)  // about to visit slot `next`
    | Broken(entry: Entry, next: nat)   // ended: the send to slot `next` failed
    | Exited                            // ended: it saw the exit flag

  datatype SessionPc =
    | Starting
    | Welcomed   // the welcome is enqueued
    | Announced  // joined is enqueued, the event not yet set
    | Receiving
    | Leaving    // left is enqueued, the event not yet set
    | Closing    // the event is set, the socket not yet closed
    | Ended
    | Crashed
    | Reaped

  /** A handler thread: its slot, the name its client logged in with (none if that was refused),
      whether the server closed its socket, its state, all that was sent to its client, and for each
      of these messages its position in the history of the queue. The last two are positions in that
      history: of the first message its slot was not already passed over for, and of the first one
      enqueued after its login. */
  datatype Session = Session(
    slot: nat, name: seq<byte>, closed: bool, pc: SessionPc, wire: seq<Entry>, stamps: seq<nat>, since: nat, upTo: nat)

  datatype State = State(
    table: Table,
    active: int,
    queue: seq<Entry>,
    event: bool,
    exitFlag: bool,
    main: MainPc,
    sender: SenderPc,
    sessions: seq<Session>,  // every session so far; a session's index is its thread handle and its socket
    enqueued: seq<Entry>,    // history: all that was ever enqueued
    delivered: seq<Entry>)   // history: all that the sender has finished with

  function EmptyTable(n: nat): (t: Table)
    ensures |t| == n && forall i :: 0 <= i < n ==> t[i] == ResetClient(None)
  {
    seq(n, i => ResetClient(None))
  }

  function Init(n: nat): (s': State) {
    State(EmptyTable(n), 0, [], false, false, Serving(true), Dequeuing, [], [], [])
  }

  datatype MainAction =
    | HandleConnection(request: Option<Decoded>)  // None: accepting, receiving or replying failed
    | ReapThread(position: nat)                   // the wait returned this position of its array
    | RaiseExit
    | SignalExit
    | JoinSender

  datatype HandlerAction =
    | EnqueueWelcome
    | EnqueueJoined
    | SignalLogin
    | HandleMessage(message: Option<Message>)  // None: receiving failed
    | SignalLeft
    | CloseSocket

  /** `SendFails`: the visit the sender is about to make ends the thread. */
  datatype Action = MainStep(m: MainAction) | HandlerStep(k: nat, h: HandlerAction) | SenderStep | SendFails

  /** The main loop goes on until the first connection was handled and the table is empty. */
  predicate LoopGuard(s: State) {
    s.main.Serving? && (s.main.first || s.active > 0)
  }

  predicate Finish(pc: SessionPc) {
    pc == Ended || pc == Crashed
  }

  predicate SenderGone(s: State) {
    s.sender.Exited? || s.sender.Broken?
  }

  predicate MainEnabled(s: State, a: MainAction) {
    match a
    case HandleConnection(_) => LoopGuard(s)
    case ReapThread(p) =>
      && LoopGuard(s) && 1 <= p <= s.active && p <= |ValidSlots(s.table)|
      && ThreadAt(s, p).Some? && ThreadAt(s, p).value < |s.sessions|
      && Finish(s.sessions[ThreadAt(s, p).value].pc)
    case RaiseExit => s.main.Serving? && !LoopGuard(s)
    case SignalExit => s.main.Raised?
    case JoinSender => s.main.AwaitingSender? && SenderGone(s)
  }

  /** The slot, and the thread handle, at a position of the array of handles that main waits on. */
  function SlotAt(s: State, p: nat): (i: nat)
    requires 1 <= p <= |ValidSlots(s.table)|
    ensures i < |s.table| && s.table[i].isValid
  {
    ValidSlotsBijective(s.table);
    ValidSlots(s.table)[p - 1]
  }

  function ThreadAt(s: State, p: nat): (r: Option<nat>)
    requires 1 <= p <= |ValidSlots(s.table)|
  {
    s.table[SlotAt(s, p)].threadHandle
  }

  predicate HandlerEnabled(s: State, k: nat, h: HandlerAction) {
    k < |s.sessions| &&
    match h
    case EnqueueWelcome => s.sessions[k].pc == Starting
    case EnqueueJoined => s.sessions[k].pc == Welcomed
    case SignalLogin => s.sessions[k].pc == Announced
    case HandleMessage(m) => s.sessions[k].pc == Receiving && (s.sessions[k].closed ==> m.None?)
    case SignalLeft => s.sessions[k].pc == Leaving
    case CloseSocket => s.sessions[k].pc == Closing
  }

  /** The slot the sender is about to visit is to get the message in hand. */
  predicate DueHere(s: State) {
    && s.sender.Sending? && s.sender.next < |s.table|
    && s.table[s.sender.next].isValid && Receives(s.table[s.sender.next], s.sender.entry.msg)
  }

  /** And its socket is closed, so that the send can only fail. */
  predicate ClosedHere(s: State) {
    DueHere(s) &&
    var socket := s.table[s.sender.next].clientSocket;
    socket.Some? && socket.value < |s.sessions| && s.sessions[socket.value].closed
  }

  predicate SenderEnabled(s: State) {
    !SenderGone(s) && (s.sender == Waiting ==> s.event) && !ClosedHere(s)
  }

  predicate Enabled(s: State, a: Action) {
    s.main != Aborted && s.main != Finished &&
    match a
    case MainStep(m) => MainEnabled(s, m)
    case HandlerStep(k, h) => HandlerEnabled(s, k, h)
    case SenderStep => SenderEnabled(s)
    case SendFails => DueHere(s)
  }

  /** The slots of sessions and the sockets of clients exist. */
  predicate Sound(s: State) {
    && (forall k :: 0 <= k < |s.sessions| ==> s.sessions[k].slot < |s.table|)
    && (forall i :: 0 <= i < |s.table| && s.table[i].isValid ==>
          s.table[i].clientSocket.Some? && s.table[i].clientSocket.value < |s.sessions|)
  }

  function SetPc(s: State, k: nat, pc: SessionPc): (s': State)
    requires k < |s.sessions|
  {
    s.(sessions := s.sessions[k := s.sessions[k].(pc := pc)])
  }

  /** Enqueues a message of session `k`, whose handler reads the name in its slot. */
  function EnqueueFor(s: State, k: nat, kind: Kind, pc: SessionPc): (s': State)
    requires k < |s.sessions| && s.sessions[k].slot < |s.table|
  {
    var e: Entry := Entry(SystemMessage(kind, Name(s.table[s.sessions[k].slot])), k, kind);
    SetPc(s, k, pc).(queue := s.queue + [e], enqueued := s.enqueued + [e])
  }

  predicate InHand(s: State) {
    s.sender.Sending? || s.sender.Broken?
  }

  /** The session of a login with verdict `v` that gets slot `i`. A refused one gets a closed socket. */
  function NewSession(s: State, v: Verdict, i: nat): (session: Session)
    requires v.Available? ==> v.length <= |v.name|
  {
    Session(i, if v.Available? then v.name[..v.length] else [], v.Taken?, Starting, [], [],
            |s.delivered| + (if InHand(s) && i < s.sender.next then 1 else 0), |s.enqueued|)
  }

  /** What the main thread does with a connection. With a full table, the second reply to a refused
      login fails on the socket closed after the first. */
  function Connected(s: State, request: Option<Decoded>): (s': State) {
    if request.None? || Validate(s.table, request.value).Malformed? then s.(main := Aborted)
    else
      var v, k := Validate(s.table, request.value), |s.sessions|;
      if FirstFree(s.table).None? then s.(main := if v.Taken? then Aborted else Serving(false))
      else
        s.(table := Login(s.table, v, Some(k), k),
           active := s.active + 1,
           main := Serving(false),
           sessions := s.sessions + [NewSession(s, v, FirstFree(s.table).value)])
  }

  /** A finished thread is reaped; a failed one takes the main thread out of its loop. */
  function Reap(s: State, p: nat): (s': State)
    requires MainEnabled(s, ReapThread(p))
  {
    var k := ThreadAt(s, p).value;
    if s.sessions[k].pc == Crashed then s.(main := Aborted)
    else SetPc(s, k, Reaped).(table := s.table[SlotAt(s, p) := ResetClient(None)], active := s.active - 1)
  }

  function ApplyMain(s: State, m: MainAction): (s': State)
    requires MainEnabled(s, m)
  {
    match m
    case HandleConnection(request) => Connected(s, request)
    case ReapThread(p) => Reap(s, p)
    case RaiseExit => s.(exitFlag := true, main := Raised)
    case SignalExit => s.(event := true, main := AwaitingSender)
    case JoinSender => s.(main := Finished)
  }

  /** What a handler thread makes of what it received: only a quit message says something to the
      others, and anything that cannot be parsed ends the thread with a failure. */
  function Handled(s: State, k: nat, m: Option<Message>): (s': State)
    requires k < |s.sessions| && Sound(s)
  {
    if m.None? || m.value.body == [] || RequestOf(m.value.body) == REQ_INVALID then SetPc(s, k, Crashed)
    else if RequestOf(m.value.body) == REQ_QUIT_MESSAGE then EnqueueFor(s, k, Left, Leaving)
    else s
  }

  function ApplyHandler(s: State, k: nat, h: HandlerAction): (s': State)
    requires k < |s.sessions| && Sound(s)
  {
    match h
    case EnqueueWelcome => EnqueueFor(s, k, Welcome, Welcomed)
    case EnqueueJoined => EnqueueFor(s, k, Joined, Announced)
    case SignalLogin => SetPc(s, k, Receiving).(event := true)
    case HandleMessage(m) => Handled(s, k, m)
    case SignalLeft => SetPc(s, k, Closing).(event := true)
    case CloseSocket => s.(sessions := s.sessions[k := s.sessions[k].(pc := Ended, closed := true)])
  }

  /** The visit of one slot: the message goes on the wire of its client if the slot is valid and
      its name passes the test. */
  function Visit(s: State, e: Entry, i: nat): (s': State)
    requires Sound(s) && i < |s.table|
  {
    var c := s.table[i];
    if c.isValid && Receives(c, e.msg) then
      var k := c.clientSocket.value;
      var session := s.sessions[k];
      s.(sessions := s.sessions[k := session.(wire := session.wire + [e], stamps := session.stamps + [|s.delivered|])])
    else s
  }

  function ApplySender(s: State): (s': State)
    requires SenderEnabled(s) && Sound(s)
  {
    match s.sender
    case Dequeuing =>
      if s.queue == [] then s.(sender := Waiting)
      else s.(sender := Sending(s.queue[0], 0), queue := s.queue[1..])
    case Waiting => s.(sender := CheckingExit, event := false)
    case CheckingExit => s.(sender := if s.exitFlag then Exited else Dequeuing)
    case Sending(e, i) =>
      if i < |s.table| then Visit(s, e, i).(sender := Sending(e, i + 1))
      else s.(sender := Dequeuing, delivered := s.delivered + [e])
    case _ => s
  }

  function Apply(s: State, a: Action): (s': State)
    requires Enabled(s, a) && Sound(s)
  {
    match a
    case MainStep(m) => ApplyMain(s, m)
    case HandlerStep(k, h) => ApplyHandler(s, k, h)
    case SenderStep => ApplySender(s)
    case SendFails => s.(sender := Broken(s.sender.entry, s.sender.next))
  }
}

/** One handler, with no other thread at work, as a run of the transition system: the method and the
    steps enqueue the same messages and end the same way, for all bytes a client may send. */
module HandlerRuns {
  import opened Common
  import opened Sockets
  import opened Protocol
  import opened MessageParser
  import opened MessageSpelling
  import opened ClientTable
  import opened SystemMessages
  import opened ChatServer
  import opened Invariants
  import opened Delivery
  import opened ServerRuns
  import opened Agreement
  import ClientHandler
  import ClientsContainer
  import Sender

  /** The steps of handler `k` from its first message on. */
  function ReceiveActions(k: nat, stream: seq<byte>): (a: seq<Action>)
    decreases |stream|
  {
    match Decode(stream)
    case Truncated => [HandlerStep(k, HandleMessage(None))]
    case Complete(m, rest) =>
      match ClientHandler.Handle(m)
      case Quit => [HandlerStep(k, HandleMessage(Some(m))), HandlerStep(k, SignalLeft), HandlerStep(k, CloseSocket)]
      case Ignore => [HandlerStep(k, HandleMessage(Some(m)))] + ReceiveActions(k, rest)
      case Fail => [HandlerStep(k, HandleMessage(Some(m)))]
      case Overruns => []
  }

  /** All steps of handler `k`. */
  function HandlerActions(k: nat, stream: seq<byte>): (a: seq<Action>) {
    [HandlerStep(k, EnqueueWelcome), HandlerStep(k, EnqueueJoined), HandlerStep(k, SignalLogin)]
      + ReceiveActions(k, stream)
  }

  function MessageFor(kind: Kind, name: seq<byte>, k: nat): (e: Entry)
    requires |name| <= USERNAME_MAXLENGTH
  {
    Entry(SystemMessage(kind, name), k, kind)
  }

  /** The session went to `pc`, closed or not, and `said` was enqueued; the event may have been set. */
  predicate Went(s: State, s': State, k: nat, pc: SessionPc, closed: bool, said: seq<Entry>) {
    && k < |s.sessions| && s'.sessions == s.sessions[k := s.sessions[k].(pc := pc, closed := closed)]
    && s'.table == s.table && s'.main == s.main && s'.queue == s.queue + said
  }

  lemma WentThere(s: State, s': State, k: nat, pc: SessionPc, closed: bool, said: seq<Entry>)
    requires Went(s, s', k, pc, closed, said)
    ensures k < |s.sessions| == |s'.sessions| && s'.main == s.main && s'.queue == s.queue + said
    ensures s'.sessions[k].pc == pc && s'.sessions[k].closed == closed && s'.sessions[k].name == s.sessions[k].name
  {
  }

  lemma WentOn(s: State, s1: State, s2: State, k: nat, pc1: SessionPc, pc2: SessionPc, closed1: bool, closed2: bool,
               said1: seq<Entry>, said2: seq<Entry>)
    requires Went(s, s1, k, pc1, closed1, said1) && Went(s1, s2, k, pc2, closed2, said2)
    ensures Went(s, s2, k, pc2, closed2, said1 + said2)
  {
    Associative(s.queue, said1, said2);
  }

  /** The first step of a run. */
  lemma FirstStep(s: State, k: nat, h: HandlerAction, rest: seq<Action>)
    requires Inv(s) && s.main.Serving? && HandlerEnabled(s, k, h)
    ensures Sound(s) && Inv(ApplyHandler(s, k, h))
    ensures Executable(s, [HandlerStep(k, h)] + rest) <==> Executable(ApplyHandler(s, k, h), rest)
    ensures Executable(s, [HandlerStep(k, h)] + rest) ==>
              Exec(s, [HandlerStep(k, h)] + rest) == Exec(ApplyHandler(s, k, h), rest)
  {
    hide Inv, HandlerEnabled, ApplyHandler, Sound;
    var actions := [HandlerStep(k, h)] + rest;
    assert Enabled(s, HandlerStep(k, h));
    StepKeepsInv(s, HandlerStep(k, h));
    assert actions[0] == HandlerStep(k, h) && actions[1..] == rest;
  }

  lemma NoMore(s: State)
    requires Inv(s)
    ensures Executable(s, []) && Exec(s, []) == s
  {
  }

  /** Steps of a live, open session, one by one. */
  lemma SaysAndGoes(s: State, k: nat, kind: Kind, pc: SessionPc)
    requires NameInv(s) && Sound(s) && k < |s.sessions| && s.sessions[k].pc != Reaped && pc != Reaped
    ensures |s.sessions[k].name| <= USERNAME_MAXLENGTH
    ensures Went(s, EnqueueFor(s, k, kind, pc), k, pc, s.sessions[k].closed, [MessageFor(kind, s.sessions[k].name, k)])
  {
    hide SystemMessage;
    assert NameOf(s, k);
  }

  lemma Goes(s: State, k: nat, h: HandlerAction)
    requires Sound(s) && HandlerEnabled(s, k, h) && (h.SignalLogin? || h.SignalLeft? || h.CloseSocket?)
    ensures Went(s, ApplyHandler(s, k, h), k,
                 if h.SignalLogin? then Receiving else if h.SignalLeft? then Closing else Ended,
                 s.sessions[k].closed || h.CloseSocket?, [])
  {
    assert s.queue + [] == s.queue;
  }

  /** What the handler makes of a message is what the transition system makes of it. */
  lemma HandledAgrees(s: State, k: nat, m: Message)
    requires Sound(s) && k < |s.sessions| && ClientHandler.Handle(m) != ClientHandler.Overruns
    ensures Handled(s, k, Some(m)) == match ClientHandler.Handle(m)
                                      case Quit => EnqueueFor(s, k, Left, Leaving)
                                      case Ignore => s
                                      case _ => SetPc(s, k, Crashed)
  {
    hide Sound, RequestOf, FitsBuffers, EnqueueFor, SetPc;
  }

  /** What the transition system makes of a message, by its bytes. */
  lemma HandledByBytes(s: State, k: nat, m: Message)
    requires Sound(s) && k < |s.sessions| && !RunsPast(m.body)
    ensures ClientHandler.IsQuit(m.body) ==> Handled(s, k, Some(m)) == EnqueueFor(s, k, Left, Leaving)
    ensures ClientHandler.IsIgnored(m.body) ==> Handled(s, k, Some(m)) == s
    ensures !ClientHandler.IsQuit(m.body) && !ClientHandler.IsIgnored(m.body) ==>
              Handled(s, k, Some(m)) == SetPc(s, k, Crashed)
  {
    hide RunsPast, Sound, EnqueueFor, SetPc, Handled, ClientHandler.Handle, ClientHandler.IsQuit,
         ClientHandler.IsIgnored;
    ClientHandler.HandledByBytes(m);
    HandledAgrees(s, k, m);
  }

  /** A session that can receive. */
  predicate Listening(s: State, k: nat) {
    s.main.Serving? && k < |s.sessions| && s.sessions[k].pc == Receiving && !s.sessions[k].closed
  }

  function NameIn(s: State, k: nat): (name: seq<byte>)
    requires Inv(s) && k < |s.sessions|
    ensures name == s.sessions[k].name && |name| <= USERNAME_MAXLENGTH
  {
    assert NameOf(s, k);
    s.sessions[k].name
  }

  lemma FailRun(s: State, k: nat, m: Option<Message>)
    requires Inv(s) && Listening(s, k) && (m.Some? ==> ClientHandler.Handle(m.value) == ClientHandler.Fail)
    ensures var actions := [HandlerStep(k, HandleMessage(m))];
            Executable(s, actions) && Went(s, Exec(s, actions), k, Crashed, false, [])
  {
    hide Inv, RequestOf, FitsBuffers;
    TableInvOf(s);
    if m.Some? {
      HandledAgrees(s, k, m.value);
    }
    FirstStep(s, k, HandleMessage(m), []);
    hide Executable, Exec, ClientHandler.Handle;
    NoMore(ApplyHandler(s, k, HandleMessage(m)));
    assert [HandlerStep(k, HandleMessage(m))] + [] == [HandlerStep(k, HandleMessage(m))];
    assert s.queue + [] == s.queue;
  }

  /** What a step other than a message does to its session. */
  function PcAfter(h: HandlerAction): (pc: SessionPc) {
    match h
    case EnqueueWelcome => Welcomed
    case EnqueueJoined => Announced
    case SignalLogin => Receiving
    case SignalLeft => Closing
    case CloseSocket => Ended
    case HandleMessage(_) => Crashed
  }

  function SaidBy(s: State, k: nat, h: HandlerAction): (said: seq<Entry>)
    requires Inv(s) && k < |s.sessions|
  {
    match h
    case EnqueueWelcome => [MessageFor(Welcome, NameIn(s, k), k)]
    case EnqueueJoined => [MessageFor(Joined, NameIn(s, k), k)]
    case _ => []
  }

  /** The session can go on from here. */
  predicate IsAt(s: State, k: nat, name: seq<byte>, pc: SessionPc, closed: bool) {
    Inv(s) && s.main.Serving? && k < |s.sessions|
    && s.sessions[k].name == name && s.sessions[k].pc == pc && s.sessions[k].closed == closed
  }

  lemma OneStep(s: State, k: nat, h: HandlerAction, rest: seq<Action>) returns (s': State)
    requires Inv(s) && s.main.Serving? && HandlerEnabled(s, k, h) && !h.HandleMessage?
    ensures IsAt(s', k, NameIn(s, k), PcAfter(h), s.sessions[k].closed || h.CloseSocket?)
    ensures Went(s, s', k, PcAfter(h), s.sessions[k].closed || h.CloseSocket?, SaidBy(s, k, h))
    ensures Executable(s, [HandlerStep(k, h)] + rest) <==> Executable(s', rest)
    ensures Executable(s, [HandlerStep(k, h)] + rest) ==> Exec(s, [HandlerStep(k, h)] + rest) == Exec(s', rest)
  {
    TableInvOf(s);
    assert NameInv(s);
    s' := ApplyHandler(s, k, h);
    hide Inv, Executable, Exec, Sound, MessageFor, EnqueueFor, Went;
    FirstStep(s, k, h, rest);
    match h {
      case EnqueueWelcome => SaysAndGoes(s, k, Welcome, Welcomed);
      case EnqueueJoined => SaysAndGoes(s, k, Joined, Announced);
      case _ => Goes(s, k, h);
    }
    WentThere(s, s', k, PcAfter(h), s.sessions[k].closed || h.CloseSocket?, SaidBy(s, k, h));
  }

  lemma SayGoodbye(s: State, k: nat, m: Message, rest: seq<Action>) returns (s': State)
    requires Inv(s) && Listening(s, k) && ClientHandler.Handle(m) == ClientHandler.Quit
    ensures IsAt(s', k, NameIn(s, k), Leaving, false)
    ensures Went(s, s', k, Leaving, false, [MessageFor(Left, NameIn(s, k), k)])
    ensures var a := HandlerStep(k, HandleMessage(Some(m)));
            && (Executable(s, [a] + rest) <==> Executable(s', rest))
            && (Executable(s, [a] + rest) ==> Exec(s, [a] + rest) == Exec(s', rest))
  {
    var h := HandleMessage(Some(m));
    TableInvOf(s);
    assert NameInv(s);
    hide Inv, Executable, Exec, ClientHandler.Handle, Sound, Handled, MessageFor;
    HandledAgrees(s, k, m);
    s' := EnqueueFor(s, k, Left, Leaving);
    assert s' == ApplyHandler(s, k, h);
    FirstStep(s, k, h, rest);
    SaysAndGoes(s, k, Left, Leaving);
  }

  lemma QuitRun(s: State, k: nat, m: Message)
    requires Inv(s) && Listening(s, k) && ClientHandler.Handle(m) == ClientHandler.Quit
    ensures var actions := [HandlerStep(k, HandleMessage(Some(m))), HandlerStep(k, SignalLeft),
                            HandlerStep(k, CloseSocket)];
            Executable(s, actions) && Went(s, Exec(s, actions), k, Ended, true, [MessageFor(Left, NameIn(s, k), k)])
  {
    hide Inv, Executable, Exec, ClientHandler.Handle, MessageFor, Went;
    var a1, a2, a3 := HandlerStep(k, HandleMessage(Some(m))), HandlerStep(k, SignalLeft), HandlerStep(k, CloseSocket);
    var said := [MessageFor(Left, NameIn(s, k), k)];
    assert [a1] + [a2, a3] == [a1, a2, a3] && [a2] + [a3] == [a2, a3] && [a3] + [] == [a3] && said + [] == said;
    var s1 := SayGoodbye(s, k, m, [a2, a3]);
    var s2 := OneStep(s1, k, SignalLeft, [a3]);
    WentOn(s, s1, s2, k, Leaving, Closing, false, false, said, []);
    var s3 := OneStep(s2, k, CloseSocket, []);
    WentOn(s, s2, s3, k, Closing, Ended, false, true, said, []);
    NoMore(s3);
  }

  /** How the steps end, and what they say. */
  function EndPc(end: ClientHandler.Ending): (pc: SessionPc) {
    if end == ClientHandler.Succeeded then Ended else Crashed
  }

  function LastWords(s: State, k: nat, end: ClientHandler.Ending): (said: seq<Entry>)
    requires Inv(s) && k < |s.sessions|
  {
    if end == ClientHandler.Succeeded then [MessageFor(Left, NameIn(s, k), k)] else []
  }

  lemma {:induction false} ReceiveRun(s: State, k: nat, stream: seq<byte>)
    requires Inv(s) && Listening(s, k) && ClientHandler.EndOf(stream) != ClientHandler.Undefined
    ensures var end := ClientHandler.EndOf(stream);
            && Executable(s, ReceiveActions(k, stream))
            && Went(s, Exec(s, ReceiveActions(k, stream)), k, EndPc(end), end == ClientHandler.Succeeded,
                    LastWords(s, k, end))
    decreases |stream|
  {
    hide Inv, Executable, Exec, Decode, ClientHandler.Handle, Went, MessageFor;
    match Decode(stream)
    case Truncated => FailRun(s, k, None);
    case Complete(m, rest) =>
      match ClientHandler.Handle(m)
      case Quit => QuitRun(s, k, m);
      case Fail => FailRun(s, k, Some(m));
      case Ignore =>
        DecodeShortens(stream);
        ReceiveRun(s, k, rest);
        IgnoreRun(s, k, m, ReceiveActions(k, rest));
  }

  lemma DecodeShortens(stream: seq<byte>)
    requires Decode(stream).Complete?
    ensures |Decode(stream).rest| < |stream|
  {
  }

  lemma IgnoreRun(s: State, k: nat, m: Message, rest: seq<Action>)
    requires Inv(s) && Listening(s, k) && ClientHandler.Handle(m) == ClientHandler.Ignore && Executable(s, rest)
    ensures Executable(s, [HandlerStep(k, HandleMessage(Some(m)))] + rest)
    ensures Exec(s, [HandlerStep(k, HandleMessage(Some(m)))] + rest) == Exec(s, rest)
  {
    hide Inv, Executable, Exec;
    TableInvOf(s);
    HandledAgrees(s, k, m);
    FirstStep(s, k, HandleMessage(Some(m)), rest);
  }

  /** All steps of a handler whose client is accepted: welcome, joined, and left if it ends well. */
  lemma HandlerRun(s: State, k: nat, stream: seq<byte>)
    requires Inv(s) && s.main.Serving? && k < |s.sessions| && s.sessions[k].pc == Starting && !s.sessions[k].closed
    requires ClientHandler.EndOf(stream) != ClientHandler.Undefined
    ensures var end := ClientHandler.EndOf(stream);
            var hello := [MessageFor(Welcome, NameIn(s, k), k), MessageFor(Joined, NameIn(s, k), k)];
            && Executable(s, HandlerActions(k, stream))
            && Went(s, Exec(s, HandlerActions(k, stream)), k, EndPc(end), end == ClientHandler.Succeeded,
                    hello + LastWords(s, k, end))
  {
    var s3 := LoginRun(s, k, ReceiveActions(k, stream));
    hide Inv, Executable, Exec, ClientHandler.EndOf, MessageFor, ReceiveActions;
    ReceiveRun(s3, k, stream);
    var end := ClientHandler.EndOf(stream);
    WentOn(s, s3, Exec(s3, ReceiveActions(k, stream)), k, Receiving, EndPc(end), false, end == ClientHandler.Succeeded,
           [MessageFor(Welcome, NameIn(s, k), k), MessageFor(Joined, NameIn(s, k), k)], LastWords(s, k, end));
  }

  lemma LoginRun(s: State, k: nat, rest: seq<Action>) returns (s3: State)
    requires Inv(s) && s.main.Serving? && k < |s.sessions| && s.sessions[k].pc == Starting && !s.sessions[k].closed
    ensures Inv(s3) && Listening(s3, k) && s3.sessions[k].name == s.sessions[k].name
    ensures Went(s, s3, k, Receiving, false,
                 [MessageFor(Welcome, NameIn(s, k), k), MessageFor(Joined, NameIn(s, k), k)])
    ensures var actions := [HandlerStep(k, EnqueueWelcome), HandlerStep(k, EnqueueJoined),
                            HandlerStep(k, SignalLogin)] + rest;
            && (Executable(s, actions) <==> Executable(s3, rest))
            && (Executable(s, actions) ==> Exec(s, actions) == Exec(s3, rest))
  {
    hide Inv, Executable, Exec, MessageFor, Went;
    var a1, a2, a3 := HandlerStep(k, EnqueueWelcome), HandlerStep(k, EnqueueJoined), HandlerStep(k, SignalLogin);
    var w, j := [MessageFor(Welcome, NameIn(s, k), k)], [MessageFor(Joined, NameIn(s, k), k)];
    assert w + j + [] == [w[0], j[0]];
    assert [a1] + ([a2, a3] + rest) == [a1, a2, a3] + rest && [a2] + ([a3] + rest) == [a2, a3] + rest;
    var s1 := OneStep(s, k, EnqueueWelcome, [a2, a3] + rest);
    var s2 := OneStep(s1, k, EnqueueJoined, [a3] + rest);
    WentOn(s, s1, s2, k, Welcomed, Announced, false, false, w, j);
    s3 := OneStep(s2, k, SignalLogin, rest);
    WentOn(s, s2, s3, k, Announced, Receiving, false, false, w + j, []);
  }

  lemma {:induction false} MessagesOfConcat(a: seq<Entry>, b: seq<Entry>)
    ensures MessagesOf(a + b) == MessagesOf(a) + MessagesOf(b)
  {
    if a == [] {
      assert a + b == b;
    } else {
      MessagesOfConcat(a[1..], b);
      assert (a + b)[0] == a[0] && (a + b)[1..] == a[1..] + b;
      Associative([a[0].msg], MessagesOf(a[1..]), MessagesOf(b));
    }
  }

  lemma MessagesSaid(s: State, k: nat, end: ClientHandler.Ending)
    requires Inv(s) && k < |s.sessions|
    ensures var name := NameIn(s, k);
            var hello := [MessageFor(Welcome, name, k), MessageFor(Joined, name, k)];
            var said := [SystemMessage(Welcome, name), SystemMessage(Joined, name)]
                        + if end == ClientHandler.Succeeded then [SystemMessage(Left, name)] else [];
            MessagesOf(s.queue + (hello + LastWords(s, k, end))) == MessagesOf(s.queue) + said
  {
    hide Inv, SystemMessage;
    var w, j := MessageFor(Welcome, NameIn(s, k), k), MessageFor(Joined, NameIn(s, k), k);
    var last := LastWords(s, k, end);
    MessagesOfConcat(s.queue, [w, j] + last);
    MessagesOfConcat([w, j], last);
    assert [w, j][1..] == [j] && [j][1..] == [];
    assert last != [] ==> last[1..] == [];
  }

  /** `HandleClient` for an accepted client, on a reliable connection, does what the steps of its
      handler do: the same messages are queued, the socket is closed or not, and it ends the same way. */
  method HandlerThread(clients: ClientsContainer.ClientsContainer, id: nat,
                       ghost s: State, ghost sockets: seq<Socket>, ghost k: nat)
    returns (end: ClientHandler.Ending)
    requires clients.Valid() && ContainerAgrees(s, clients, sockets) && SocketsAgree(s, sockets) && Inv(s)
             && s.main.Serving?
    requires k < |s.sessions| && s.sessions[k].pc == Starting && !s.sessions[k].closed && s.sessions[k].slot == id
    requires sockets[k].reliable && ClientHandler.EndOf(sockets[k].inbox) != ClientHandler.Undefined
    requires clients.sendQueue.Valid() && clients.sendQueue.Contents() == MessagesOf(s.queue)
    modifies clients`sendMsgsEvent, clients.sendQueue.Repr(), {sockets[k]}`inbox, {sockets[k]}`closed
    ensures Executable(s, HandlerActions(k, old(sockets[k].inbox)))
    ensures var r := Exec(s, HandlerActions(k, old(sockets[k].inbox)));
            && clients.sendQueue.Valid() && clients.sendQueue.Contents() == MessagesOf(r.queue)
            && k < |r.sessions| && sockets[k].closed == r.sessions[k].closed
            && r.sessions[k].pc == EndPc(end)
  {
    hide Inv, Executable, Exec, HandlerActions, MessagesOf, SystemMessage, SocketsAgree, TablesAgree,
         ClientHandler.EndOf, ClientsContainer.ClientsContainer.Valid;
    ghost var stream := sockets[k].inbox;
    ghost var name := NameIn(s, k);
    HandlerOutcome(s, k, stream);
    ReadyToHandle(s, clients, sockets, k);
    Sender.AlwaysApart(clients);
    assert sockets[k].Up();
    assert clients.clientsArr[id].clientSocket == sockets[k] && Name(clients.clientsArr[id]) == name;
    hide *;
    end := ClientHandler.HandleClient(clients, id);
    assert end == ClientHandler.EndOf(stream);
    assert sockets[k].closed == (end == ClientHandler.Succeeded);
  }

  /** The steps of the handler, in the terms of the method. */
  lemma HandlerOutcome(s: State, k: nat, stream: seq<byte>)
    requires Inv(s) && s.main.Serving? && k < |s.sessions| && s.sessions[k].pc == Starting && !s.sessions[k].closed
    requires ClientHandler.EndOf(stream) != ClientHandler.Undefined
    ensures Executable(s, HandlerActions(k, stream))
    ensures var r, end := Exec(s, HandlerActions(k, stream)), ClientHandler.EndOf(stream);
            && k < |r.sessions| && r.sessions[k].closed == (end == ClientHandler.Succeeded)
               && r.sessions[k].pc == EndPc(end)
            && MessagesOf(r.queue)
               == MessagesOf(s.queue)
                  + ([SystemMessage(Welcome, NameIn(s, k)), SystemMessage(Joined, NameIn(s, k))]
                     + if end == ClientHandler.Succeeded then [SystemMessage(Left, NameIn(s, k))] else [])
  {
    hide Inv, Executable, Exec, HandlerActions, ClientHandler.EndOf, Went, MessageFor, SystemMessage, LastWords,
         MessagesOf;
    HandlerRun(s, k, stream);
    var end := ClientHandler.EndOf(stream);
    MessagesSaid(s, k, end);
    var hello := [MessageFor(Welcome, NameIn(s, k), k), MessageFor(Joined, NameIn(s, k), k)];
    WentThere(s, Exec(s, HandlerActions(k, stream)), k, EndPc(end), end == ClientHandler.Succeeded,
              hello + LastWords(s, k, end));
  }

  lemma ReadyToHandle(s: State, clients: ClientsContainer.ClientsContainer, sockets: seq<Socket>, k: nat)
    requires clients.Valid() && ContainerAgrees(s, clients, sockets) && SocketsAgree(s, sockets) && Inv(s)
    requires k < |s.sessions| && s.sessions[k].pc != Reaped
    ensures var id := s.sessions[k].slot;
            && id < clients.clientsArr.Length && ClientOk(clients.clientsArr[id])
               && clients.clientsArr[id].clientSocket == sockets[k]
            && Name(clients.clientsArr[id]) == NameIn(s, k) && sockets[k].closed == s.sessions[k].closed
  {
    assert TableInv(s) && NameOf(s, k);
    hide Inv;
    LiveIsConnectedOver(s, clients.Table(), sockets, k);
    var id := s.sessions[k].slot;
    assert clients.clientsArr[id] == clients.Table()[id] && SlotsAgree(s.table[id], clients.Table()[id], sockets);
  }
}

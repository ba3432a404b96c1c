/** One client-handler thread on its own: what it enqueues and how it ends are functions of the
    bytes its client sends. `ChatServer` interleaves such threads. */
module ClientHandler {
  import opened Common
  import opened Sockets
  import opened Protocol
  import opened MessageParser
  import opened MessageSpelling
  import opened ClientTable
  import opened SystemMessages
  import opened ClientsContainer
  import SynchronizedQueue

  /** `Overruns`: parsing it would run past a buffer. */
  datatype Handling = Quit | Ignore | Fail | Overruns

  /** What a received message makes the handler do. */
  function Handle(m: Message): (h: Handling) {
    if m.body == [] then Fail
    else if !FitsBuffers(m.body) then Overruns
    else if RequestOf(m.body) == REQ_INVALID then Fail
    else if RequestOf(m.body) == REQ_QUIT_MESSAGE then Quit
    else Ignore
  }

  /** How a handler ends; after an overrun its behaviour is undefined. */
  datatype Ending = Succeeded | Failed | Undefined

  /** What the client's stream makes of its handler: the first message that is not ignored decides. */
  function EndOf(stream: seq<byte>): (e: Ending)
    decreases |stream|
  {
    match Decode(stream)
    case Truncated => Failed
    case Complete(m, rest) =>
      match Handle(m)
      case Quit => Succeeded
      case Ignore => EndOf(rest)
      case Fail => Failed
      case Overruns => Undefined
  }

  /** A message that changes nothing, and one that ends the handler well. */
  predicate IsIgnored(b: seq<byte>) {
    b != [] && !RunsPast(b) && Grammar(b) in {REQ_BROADCAST_MESSAGE, REQ_PRIVATE_MESSAGE, REQ_ACTIVE_USERS}
  }

  predicate IsQuit(b: seq<byte>) {
    b != [] && !RunsPast(b) && Grammar(b) == REQ_QUIT_MESSAGE
  }

  /** How a message is handled is decided by its bytes. */
  lemma HandledByBytes(m: Message)
    ensures Handle(m) == Ignore <==> IsIgnored(m.body)
    ensures Handle(m) == Quit <==> IsQuit(m.body)
    ensures Handle(m) == Overruns <==> RunsPast(m.body)
    ensures Handle(m) == Fail <==> m.body == [] || (!RunsPast(m.body) && Grammar(m.body) == REQ_INVALID)
  {
    hide RunsPast, FitsBuffers, RequestOf, Grammar;
    if m.body != [] {
      RequestIsGrammar(m.body);
      FitsByPositions(m.body);
    } else {
      NothingRunsPast();
    }
  }

  lemma NothingRunsPast()
    ensures !RunsPast([])
  {
  }

  /** The first message that is not ignored. */
  predicate DecidesAt(ms: seq<Message>, i: int) {
    0 <= i < |ms| && !IsIgnored(ms[i].body) && forall j :: 0 <= j < i ==> IsIgnored(ms[j].body)
  }

  /** It is handled as `h`. */
  predicate DecidesAs(ms: seq<Message>, i: int, h: Handling) {
    DecidesAt(ms, i) && Handle(ms[i]) == h
  }

  ghost predicate DecidesFor(ms: seq<Message>, h: Handling) {
    exists i :: DecidesAs(ms, i, h)
  }

  lemma DecidesLaterAs(m: Message, ms: seq<Message>, i: int, h: Handling)
    requires h != Ignore
    ensures Handle(m) == Ignore ==> (DecidesAs([m] + ms, i + 1, h) <==> DecidesAs(ms, i, h))
    ensures Handle(m) != Ignore ==> (DecidesAs([m] + ms, i, h) <==> i == 0 && Handle(m) == h)
  {
    hide Handle, IsIgnored;
    HandledByBytes(m);
    var all := [m] + ms;
    assert all[0] == m && forall j :: 0 <= j < |ms| ==> all[j + 1] == ms[j];
    assert forall j :: 0 < j < |all| ==> all[j] == ms[j - 1];
  }

  lemma DecidedLater(m: Message, ms: seq<Message>, h: Handling)
    requires h != Ignore
    ensures DecidesFor([m] + ms, h) <==> if Handle(m) == Ignore then DecidesFor(ms, h) else Handle(m) == h
  {
    hide Handle, DecidesAs;
    var all := [m] + ms;
    if i :| DecidesAs(ms, i, h) {
      DecidesLaterAs(m, ms, i, h);
    }
    if i :| DecidesAs(all, i, h) {
      DecidesLaterAs(m, ms, i, h);
      DecidesLaterAs(m, ms, i - 1, h);
    }
    DecidesLaterAs(m, ms, 0, h);
  }

  lemma {:induction false} EndIsHandled(stream: seq<byte>)
    ensures EndOf(stream) == Succeeded <==> DecidesFor(DecodeAll(stream).0, Quit)
    ensures EndOf(stream) == Undefined <==> DecidesFor(DecodeAll(stream).0, Overruns)
    decreases |stream|
  {
    hide Decode, Handle, DecidesFor;
    match Decode(stream)
    case Truncated => NothingDecides();
    case Complete(m, rest) =>
      EndIsHandled(rest);
      DecidedLater(m, DecodeAll(rest).0, Quit);
      DecidedLater(m, DecodeAll(rest).0, Overruns);
  }

  lemma NothingDecides()
    ensures forall h :: !DecidesFor([], h)
  {
  }

  /** Whatever bytes a client sends, the first of its messages that is not ignored decides how its
      handler ends: well exactly when it is a quit, undefined exactly when it runs past a buffer. */
  lemma EndIsDecided(stream: seq<byte>)
    ensures var ms := DecodeAll(stream).0;
            && (EndOf(stream) == Succeeded <==> exists i :: DecidesAt(ms, i) && IsQuit(ms[i].body))
            && (EndOf(stream) == Undefined <==> exists i :: DecidesAt(ms, i) && RunsPast(ms[i].body))
  {
    hide Handle, RunsPast, IsQuit, IsIgnored, Decode;
    EndIsHandled(stream);
    var ms := DecodeAll(stream).0;
    forall i | DecidesAt(ms, i)
      ensures DecidesAs(ms, i, Quit) <==> IsQuit(ms[i].body)
      ensures DecidesAs(ms, i, Overruns) <==> RunsPast(ms[i].body)
    {
      HandledByBytes(ms[i]);
    }
    assert forall i, h :: DecidesAs(ms, i, h) ==> DecidesAt(ms, i);
  }

  /** From the client's side: it sends whole messages, and no more than the start of another one. */
  lemma EndOfMessages(ms: seq<Message>, tail: seq<byte>)
    requires AllFit(ms) && Decode(tail) == Truncated
    ensures var cs := CarriedAll(ms);
            && (EndOf(Frames(ms) + tail) == Succeeded <==> exists i :: DecidesAt(cs, i) && IsQuit(cs[i].body))
            && (EndOf(Frames(ms) + tail) == Undefined <==> exists i :: DecidesAt(cs, i) && RunsPast(cs[i].body))
  {
    hide Frames, Decode, DecidesAt, EndOf, RunsPast, IsQuit;
    EndIsDecided(Frames(ms) + tail);
    StreamRoundTrip(ms, tail);
    NothingDecodes(tail);
    assert CarriedAll(ms) + [] == CarriedAll(ms);
  }

  /** Builds one of the three messages of a session. */
  method BuildSystemMessage(kind: Kind, client: Slot) returns (m: MsgToSend)
    requires ClientOk(client)
    ensures m == SystemMessage(kind, Name(client))
  {
    UsernameIsPaddedName(client);
    var text := Text(kind, client.username);
    var body := new byte[|text|](i requires 0 <= i < |text| => text[i]);
    assert body[..|text|] == text;
    var message := BuildChatMessage(SYSTEM_MESSAGE, body, |text|);
    var name := Pad(client.username[..client.usernameLength], NAME_FIELD_SIZE);
    if kind == Welcome {
      m := MsgToSend(Pad(SERVER_USERNAME, NAME_FIELD_SIZE), |SERVER_USERNAME|, name, client.usernameLength, false,
                     message.value);
    } else {
      m := MsgToSend(name, client.usernameLength, Zeros(NAME_FIELD_SIZE), 0, true, message.value);
    }
  }

  /** Builds and enqueues one of them. */
  method EnqueueSystemMessage(kind: Kind, client: Slot, queue: SynchronizedQueue.SynchronizedQueue<MsgToSend>)
    requires ClientOk(client) && queue.Valid()
    modifies queue.Repr()
    ensures queue.Valid() && queue.Contents() == old(queue.Contents()) + [SystemMessage(kind, Name(client))]
    ensures fresh(queue.Repr() - old(queue.Repr()))
  {
    hide SystemMessage;
    var m := BuildSystemMessage(kind, client);
    var ok := queue.Enqueue(Some(m));
  }

  /** `SetEvent` on the event of the sender. */
  method SignalSender(clients: ClientsContainer)
    requires clients.sendQueue.Valid()
    modifies clients`sendMsgsEvent
    ensures clients.sendMsgsEvent && clients.sendQueue.Valid()
    ensures clients.sendQueue.Contents() == old(clients.sendQueue.Contents())
    ensures clients.sendQueue.Repr() == old(clients.sendQueue.Repr())
  {
    clients.sendMsgsEvent := true;
  }

  /** `HandleSuccessfulLogin`: two messages, one signal. */
  method HandleSuccessfulLogin(clients: ClientsContainer, id: nat)
    requires id < clients.clientsArr.Length && ClientOk(clients.clientsArr[id]) && clients.sendQueue.Valid()
    modifies clients`sendMsgsEvent, clients.sendQueue.Repr()
    ensures clients.sendMsgsEvent && clients.sendQueue.Valid()
    ensures clients.sendQueue.Contents() == old(clients.sendQueue.Contents())
              + [SystemMessage(Welcome, Name(clients.clientsArr[id])),
                 SystemMessage(Joined, Name(clients.clientsArr[id]))]
    ensures fresh(clients.sendQueue.Repr() - old(clients.sendQueue.Repr()))
  {
    hide SystemMessage, ClientOk, SynchronizedQueue.SynchronizedQueue.Valid,
         SynchronizedQueue.SynchronizedQueue.Contents;
    EnqueueSystemMessage(Welcome, clients.clientsArr[id], clients.sendQueue);
    EnqueueSystemMessage(Joined, clients.clientsArr[id], clients.sendQueue);
    SignalSender(clients);
  }

  /** `HandleQuitCommand` and `SendMessageToSenderThread`: one message, one signal. */
  method HandleQuitCommand(clients: ClientsContainer, id: nat)
    requires id < clients.clientsArr.Length && ClientOk(clients.clientsArr[id]) && clients.sendQueue.Valid()
    modifies clients`sendMsgsEvent, clients.sendQueue.Repr()
    ensures clients.sendMsgsEvent && clients.sendQueue.Valid()
    ensures clients.sendQueue.Contents() == old(clients.sendQueue.Contents())
            + [SystemMessage(Left, Name(clients.clientsArr[id]))]
  {
    hide SystemMessage, ClientOk, SynchronizedQueue.SynchronizedQueue.Valid,
         SynchronizedQueue.SynchronizedQueue.Contents;
    EnqueueSystemMessage(Left, clients.clientsArr[id], clients.sendQueue);
    SignalSender(clients);
  }

  /** `HandleClient`, with no other thread at work. A quit closes the socket. */
  method HandleClient(clients: ClientsContainer, id: nat) returns (end: Ending)
    requires id < clients.clientsArr.Length && ClientOk(clients.clientsArr[id]) && clients.sendQueue.Valid()
    requires clients.clientsArr[id].clientSocket != null
    modifies clients`sendMsgsEvent, clients.sendQueue.Repr()
    modifies clients.clientsArr[id].clientSocket`inbox, clients.clientsArr[id].clientSocket`closed
    ensures clients.sendQueue.Valid() && clients.sendMsgsEvent
    ensures var sock := clients.clientsArr[id].clientSocket;
            && (end != Failed ==> !old(sock.closed) && end == EndOf(old(sock.inbox)))
            && (old(sock.Up()) ==> end == EndOf(old(sock.inbox)))
            && sock.closed == (old(sock.closed) || end == Succeeded)
    ensures var name := Name(clients.clientsArr[id]);
            clients.sendQueue.Contents() == old(clients.sendQueue.Contents())
              + ([SystemMessage(Welcome, name), SystemMessage(Joined, name)]
                 + if end == Succeeded then [SystemMessage(Left, name)] else [])
  {
    hide EndOf, SystemMessage, ClientOk;
    hide SynchronizedQueue.SynchronizedQueue.Valid, SynchronizedQueue.SynchronizedQueue.Contents;
    HandleSuccessfulLogin(clients, id);
    end := ReceiveUntilEnd(clients.clientsArr[id].clientSocket);
    HandleEnd(clients, id, end);
  }

  /** By the types of the objects, no socket is part of the queue. */
  lemma SocketIsApart(queue: SynchronizedQueue.SynchronizedQueue<MsgToSend>, sock: Socket)
    ensures sock !in queue.Repr()
  {
  }

  /** The end of `HandleClient`. */
  method HandleEnd(clients: ClientsContainer, id: nat, end: Ending)
    requires id < clients.clientsArr.Length && ClientOk(clients.clientsArr[id]) && clients.sendQueue.Valid()
    requires clients.clientsArr[id].clientSocket != null
    modifies clients`sendMsgsEvent, clients.sendQueue.Repr(), clients.clientsArr[id].clientSocket`closed
    ensures clients.sendQueue.Valid() && (old(clients.sendMsgsEvent) ==> clients.sendMsgsEvent)
    ensures clients.clientsArr[id].clientSocket.closed
            == (old(clients.clientsArr[id].clientSocket.closed) || end == Succeeded)
    ensures clients.sendQueue.Contents() == old(clients.sendQueue.Contents())
              + if end == Succeeded then [SystemMessage(Left, Name(clients.clientsArr[id]))] else []
  {
    hide SystemMessage, ClientOk, SynchronizedQueue.SynchronizedQueue.Valid,
         SynchronizedQueue.SynchronizedQueue.Contents;
    if end == Succeeded {
      HandleQuitCommand(clients, id);
      SocketIsApart(clients.sendQueue, clients.clientsArr[id].clientSocket);
      clients.clientsArr[id].clientSocket.Close();
    }
  }

  /** One turn of the receiving loop of `HandleClient`; nothing when receiving fails. */
  method ReceiveAndParse(sock: Socket) returns (h: Option<Handling>)
    modifies sock`inbox
    ensures sock.Up() ==> (h.None? <==> Decode(old(sock.inbox)) == Truncated)
    ensures sock.closed ==> h.None?
    ensures h.Some? ==>
              var d := Decode(old(sock.inbox));
              d.Complete? && d.rest == sock.inbox && h.value == Handle(d.message)
  {
    hide Decode, Read, Meaning, FitsBuffers;
    var received := ReceiveChatMessage(sock);
    if received.None? {
      return None;
    }
    ghost var m := Message(received.value.msgType, received.value.body);
    assert Decode(old(sock.inbox)).message == m;
    ReceivedCanArrive(old(sock.inbox));
    var parsed := ParseMessage(received.value);
    match parsed
    case Rejected => return Some(Fail);
    case Overrun => return Some(Overruns);
    case Parsed(p) =>
      match p.requestType
      case REQ_QUIT_MESSAGE => return Some(Quit);
      case REQ_INVALID => return Some(Fail);
      case _ => return Some(Ignore);
  }

  /** The receiving loop of `HandleClient`, up to the message that ends it. */
  method ReceiveUntilEnd(sock: Socket) returns (end: Ending)
    modifies sock`inbox
    ensures end != Failed ==> !sock.closed && end == EndOf(old(sock.inbox))
    ensures sock.Up() ==> end == EndOf(old(sock.inbox))
  {
    hide Decode, Handle, FitsBuffers;
    while true
      invariant EndOf(sock.inbox) == EndOf(old(sock.inbox))
      decreases |sock.inbox|
    {
      var handling := ReceiveAndParse(sock);
      if handling.None? || handling.value == Fail {
        return Failed;
      }
      if handling.value == Overruns {
        return Undefined;
      }
      if handling.value == Quit {
        return Succeeded;
      }
    }
  }
}

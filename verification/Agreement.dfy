/** The methods on the real table and sockets do what the steps of the transition system say. */
module Agreement {
  import opened Common
  import opened Sockets
  import opened Protocol
  import opened ClientTable
  import opened SystemMessages
  import opened ChatServer
  import opened Invariants
  import opened Delivery
  import opened ServerRuns
  import ClientsContainer
  import Sender

  type HeapTable = seq<ClientsContainer.Slot>

  /** The same slots; session `k` is connected over `sockets[k]`. */
  predicate SlotsAgree(c: Slot, h: ClientsContainer.Slot, sockets: seq<Socket>) {
    && h.isValid == c.isValid && h.threadHandle == c.threadHandle
    && h.usernameLength == c.usernameLength && h.username == c.username
    && (c.isValid ==>
          c.clientSocket.Some? && c.clientSocket.value < |sockets| && h.clientSocket == sockets[c.clientSocket.value])
  }

  predicate TablesAgree(t: Table, h: HeapTable, sockets: seq<Socket>) {
    |t| == |h| && forall i :: 0 <= i < |t| ==> SlotsAgree(t[i], h[i], sockets)
  }

  lemma TableOkAgrees(t: Table, h: HeapTable, sockets: seq<Socket>)
    requires TablesAgree(t, h, sockets)
    ensures TableOk(h)
  {
    forall i | 0 <= i < |h|
      ensures ClientOk(h[i])
    {
      assert ClientOk(t[i]) && SlotsAgree(t[i], h[i], sockets);
    }
  }

  lemma FirstFreeAgrees(t: Table, h: HeapTable, sockets: seq<Socket>)
    requires TablesAgree(t, h, sockets)
    ensures FirstFree(t) == FirstFree(h)
  {
    hide FirstFree;
    assert forall i :: 0 <= i < |t| ==> SlotsAgree(t[i], h[i], sockets) && t[i].isValid == h[i].isValid;
    var f, g := FirstFree(t), FirstFree(h);
    assert f.Some? ==> !h[f.value].isValid;
    assert g.Some? ==> !t[g.value].isValid;
  }

  lemma UnusedAgrees(t: Table, h: HeapTable, sockets: seq<Socket>, name: seq<byte>, length: nat)
    requires TablesAgree(t, h, sockets) && TableOk(h) && |name| == USERNAME_MAXLENGTH && length <= USERNAME_MAXLENGTH
    ensures Unused(t, name, length) == Unused(h, name, length)
  {
    forall i | 0 <= i < |t|
      ensures Answers(t[i], name, length) == Answers(h[i], name, length)
    {
      assert SlotsAgree(t[i], h[i], sockets);
    }
  }

  lemma ValidateAgrees(t: Table, h: HeapTable, sockets: seq<Socket>, request: Decoded)
    requires TablesAgree(t, h, sockets) && TableOk(h)
    ensures Validate(t, request) == Validate(h, request)
  {
    hide Unused, ClashesWithServer;
    if |request.body| <= USERNAME_MAXLENGTH {
      UnusedAgrees(t, h, sockets, Pad(request.body, USERNAME_MAXLENGTH), |request.body|);
    }
  }

  lemma LoginAgrees(t: Table, h: HeapTable, sockets: seq<Socket>, v: Verdict, sock: Socket)
    requires TablesAgree(t, h, sockets) && TableOk(h)
    requires v.Available? ==> |v.name| == USERNAME_MAXLENGTH && v.length <= USERNAME_MAXLENGTH
    ensures TablesAgree(Login(t, v, Some(|sockets|), |sockets|), Login(h, v, sock, |sockets|), sockets + [sock])
  {
    hide FirstFree;
    FirstFreeAgrees(t, h, sockets);
    var t', h' := Login(t, v, Some(|sockets|), |sockets|), Login(h, v, sock, |sockets|);
    forall i | 0 <= i < |t|
      ensures SlotsAgree(t'[i], h'[i], sockets + [sock])
    {
      assert SlotsAgree(t[i], h[i], sockets);
    }
  }

  /** The container and its sockets, as the transition system sees them. */
  ghost predicate ContainerAgrees(s: State, clients: ClientsContainer.ClientsContainer, sockets: seq<Socket>)
    reads clients`activeClientsNum, clients.clientsArr
  {
    && |sockets| == |s.sessions| && TablesAgree(s.table, clients.Table(), sockets)
    && s.active == clients.activeClientsNum
  }

  /** The server has closed the sockets that the sessions say, and no two sessions share one. */
  ghost predicate SocketsAgree(s: State, sockets: seq<Socket>)
    reads sockets`closed
  {
    && |sockets| == |s.sessions| && Distinct(sockets)
    && forall k :: 0 <= k < |sockets| && s.sessions[k].pc != Reaped ==> (sockets[k].closed <==> s.sessions[k].closed)
  }

  /** The request that a connection brings, if all of it arrives. */
  function RequestIn(stream: seq<byte>): (r: Option<Decoded>) {
    match Decode(stream)
    case Truncated => None
    case Complete(m, _) => Some(Decoded(m.msgType, |m.body|, m.body))
  }

  lemma RequestOfFrame(m: Message, rest: seq<byte>)
    requires |m.body| < 0x8000_0000
    ensures RequestIn(Frame(m) + rest) == Some(Decoded(m.msgType, |m.body|, m.body))
  {
    FrameDecodes(m, rest);
  }

  /** `HandleNewConnection` is the step of the main thread for the request that the connection
      brings, or, only when the connection itself is down, for a failure. It succeeds exactly when the
      step leaves the main thread in its loop. */
  method ConnectionStep(clients: ClientsContainer.ClientsContainer, sock: Socket, takenText: seq<byte>,
                        ghost s: State, ghost sockets: seq<Socket>, handle: nat)
    returns (ok: bool, ghost a: MainAction)
    requires clients.Valid() && |takenText| < 0x8000_0000 && ContainerAgrees(s, clients, sockets)
    requires SocketsAgree(s, sockets) && sock !in sockets && handle == |s.sessions| && LoopGuard(s)
    modifies clients`activeClientsNum, clients.clientsArr, sock
    ensures clients.Valid() && MainEnabled(s, a) && a.HandleConnection?
    ensures ok || old(sock.Up()) ==> a.request == RequestIn(old(sock.inbox))
    ensures a.request == RequestIn(old(sock.inbox)) || a.request == None
    ensures ok <==> ApplyMain(s, a).main != Aborted
    ensures var s' := ApplyMain(s, a);
            var sockets' := if |s'.sessions| > |s.sessions| then sockets + [sock] else sockets;
            ContainerAgrees(s', clients, sockets') && SocketsAgree(s', sockets')
  {
    hide SocketsAgree, Distinct, Decode, Validate, Login, FirstFree, Frame, CountValid;
    ghost var h := clients.Table();
    ghost var stream, up := sock.inbox, sock.Up();
    TableOkAgrees(s.table, h, sockets);
    ok := clients.HandleNewConnection(sock, handle, takenText);
    a := HandleConnection(if ok || up then RequestIn(stream) else None);
    ConnectionAgrees(s, h, a.request, ok, clients.Table(), clients.activeClientsNum, sockets, sock);
    SocketsAfterConnection(s, a.request, sockets, sock);
  }

  /** The outcome of the method, in terms of the real table, is that of the step. */
  lemma ConnectionAgrees(s: State, h: HeapTable, request: Option<Decoded>, ok: bool, h': HeapTable, active: int,
                         sockets: seq<Socket>, sock: Socket)
    requires TablesAgree(s.table, h, sockets) && TableOk(h) && |sockets| == |s.sessions|
    requires request.None? ==> !ok
    requires request.Some? ==>
               var v := Validate(h, request.value);
               && (ok <==> !v.Malformed? && !(v.Taken? && FirstFree(h).None?))
               && (ok ==> h' == Login(h, v, sock, |sockets|))
               && (ok ==> active == s.active + (if FirstFree(h).Some? then 1 else 0))
               && (ok && FirstFree(h).Some? ==> sock.closed == v.Taken?)
    requires !ok ==> h' == h && active == s.active
    ensures var s' := Connected(s, request);
            && (ok <==> s'.main != Aborted) && s'.active == active
            && TablesAgree(s'.table, h', if |s'.sessions| > |s.sessions| then sockets + [sock] else sockets)
            && (|s'.sessions| > |s.sessions| ==>
                  |s'.sessions| == |s.sessions| + 1 && s'.sessions[|s.sessions|].closed == sock.closed)
  {
    hide TableOk, Validate, Login, FirstFree, TablesAgree;
    if request.Some? {
      ValidateAgrees(s.table, h, sockets, request.value);
      FirstFreeAgrees(s.table, h, sockets);
      LoginAgrees(s.table, h, sockets, Validate(h, request.value), sock);
      LoginOfFull(h, Validate(h, request.value), sock, |sockets|);
    }
  }

  lemma LoginOfFull(h: HeapTable, v: Verdict, sock: Socket, handle: nat)
    requires TableOk(h) && (v.Available? ==> |v.name| == USERNAME_MAXLENGTH && v.length <= USERNAME_MAXLENGTH)
    ensures FirstFree(h).None? ==> Login(h, v, sock, handle) == h
  {
    hide FirstFree;
  }

  lemma SocketsAfterConnection(s: State, request: Option<Decoded>, sockets: seq<Socket>, sock: Socket)
    requires SocketsAgree(s, sockets) && sock !in sockets
    requires var s' := Connected(s, request);
             |s'.sessions| > |s.sessions| ==> s'.sessions[|s.sessions|].closed == sock.closed
    ensures var s' := Connected(s, request);
            SocketsAgree(s', if |s'.sessions| > |s.sessions| then sockets + [sock] else sockets)
  {
    hide Validate, Login, FirstFree;
  }

  /** `HandleThreadFinalization` is the step of the main thread that reaps the thread: it succeeds
      exactly when the step leaves the main thread in its loop. */
  method FinalizationStep(clients: ClientsContainer.ClientsContainer, clientId: nat,
                          exitCode: ClientsContainer.ExitCode,
                          ghost s: State, ghost sockets: seq<Socket>, ghost p: nat)
    returns (ok: bool)
    requires clients.Valid() && ContainerAgrees(s, clients, sockets) && TableInv(s)
    requires MainEnabled(s, ReapThread(p)) && SlotAt(s, p) == clientId
    requires exitCode == ClientsContainer.CLIENT_THREAD_SUCCESS <==> s.sessions[ThreadAt(s, p).value].pc == Ended
    modifies clients`activeClientsNum, clients.clientsArr
    ensures clients.Valid() && ContainerAgrees(Reap(s, p), clients, sockets)
    ensures ok <==> Reap(s, p).main != Aborted
  {
    ghost var h := clients.Table();
    assert SlotsAgree(s.table[clientId], h[clientId], sockets);
    ok := clients.HandleThreadFinalization(clientId, exitCode);
    if ok {
      ResetAgrees(s.table, h, sockets, clientId);
    }
  }

  lemma ResetAgrees(t: Table, h: HeapTable, sockets: seq<Socket>, i: nat)
    requires TablesAgree(t, h, sockets) && i < |t|
    ensures TablesAgree(t[i := ResetClient(None)], h[i := ResetClient(null)], sockets)
  {
    var t', h' := t[i := ResetClient(None)], h[i := ResetClient(null)];
    forall j | 0 <= j < |t|
      ensures SlotsAgree(t'[j], h'[j], sockets)
    {
      assert SlotsAgree(t[j], h[j], sockets);
    }
  }

  // ---- The main loop ----

  /** The handles of the threads that have finished. */
  predicate FinishedAgree(s: State, finished: set<nat>) {
    && (forall k :: k in finished ==> k < |s.sessions| && Finish(s.sessions[k].pc))
    && (forall k :: 0 <= k < |s.sessions| && Finish(s.sessions[k].pc) ==> k in finished)
  }

  /** A position of the wait array is one main can reap from exactly when the thread of its slot has
      finished; the slots of the positions increase. */
  lemma ReapableAgrees(s: State, h: HeapTable, sockets: seq<Socket>, finished: set<nat>, p: nat)
    requires TablesAgree(s.table, h, sockets) && TableInv(s) && LoopGuard(s) && 1 <= p <= |ValidSlots(s.table)|
    requires FinishedAgree(s, finished)
    ensures SlotAt(s, p) < |h|
    ensures MainEnabled(s, ReapThread(p)) <==> ClientsContainer.HasFinished(h[SlotAt(s, p)], finished)
  {
    hide ValidSlots;
    assert SlotsAgree(s.table[SlotAt(s, p)], h[SlotAt(s, p)], sockets);
  }

  lemma PositionsIncrease(s: State, p: nat, q: nat)
    requires 1 <= p < q <= |ValidSlots(s.table)|
    ensures SlotAt(s, p) < SlotAt(s, q)
  {
    ValidSlotsBijective(s.table);
  }

  lemma PositionOfSlot(s: State, i: nat) returns (p: nat)
    requires i < |s.table| && s.table[i].isValid
    ensures 1 <= p <= |ValidSlots(s.table)| && SlotAt(s, p) == i
  {
    ValidSlotsBijective(s.table);
    var q :| 0 <= q < |ValidSlots(s.table)| && ValidSlots(s.table)[q] == i;
    p := q + 1;
  }

  /** What `WaitForEvent` answers is what the main thread can do: it has the lowest position to reap
      from, and waits on only when there is none and no connection. */
  method WaitStep(clients: ClientsContainer.ClientsContainer, listenerReady: bool, finished: set<nat>, reliable: bool,
                  ghost s: State, ghost sockets: seq<Socket>)
    returns (r: ClientsContainer.WaitResult, ghost p: nat)
    requires clients.Valid() && ContainerAgrees(s, clients, sockets) && TableInv(s) && LoopGuard(s)
    requires FinishedAgree(s, finished)
    ensures reliable ==> !r.WaitFailed?
    ensures !r.WaitFailed? ==> (r.ListenerReady? <==> listenerReady)
    ensures r.ThreadFinished? ==>
              && MainEnabled(s, ReapThread(p)) && SlotAt(s, p) == r.clientId
              && forall q: nat :: MainEnabled(s, ReapThread(q)) ==> p <= q
    ensures r.StillWaiting? ==> forall q: nat :: !MainEnabled(s, ReapThread(q))
  {
    r := clients.WaitForEvent(listenerReady, finished, reliable);
    ghost var h := clients.Table();
    assert forall i :: 0 <= i < |h| ==> h[i] == clients.clientsArr[i];
    p := 0;
    hide ClientsContainer.HasFinished, TableInv, TablesAgree, CountValid, LoopGuard;
    if r.ThreadFinished? {
      FinishedIsValid(s, h, sockets, finished, r.clientId);
      p := PositionOfSlot(s, r.clientId);
      ReapableAgrees(s, h, sockets, finished, p);
    }
    forall q: nat | MainEnabled(s, ReapThread(q))
      ensures !r.StillWaiting? && (r.ThreadFinished? ==> p <= q)
    {
      ReapableAgrees(s, h, sockets, finished, q);
      if r.ThreadFinished? && q < p {
        PositionsIncrease(s, q, p);
      }
    }
  }

  lemma FinishedIsValid(s: State, h: HeapTable, sockets: seq<Socket>, finished: set<nat>, i: nat)
    requires TablesAgree(s.table, h, sockets) && i < |h| && ClientsContainer.HasFinished(h[i], finished)
    ensures h[i].isValid && s.table[i].isValid
  {
    assert SlotsAgree(s.table[i], h[i], sockets);
  }

  /** The threads that have finished, with their exit codes. */
  predicate ExitsAgree(s: State, exits: map<nat, ClientsContainer.ExitCode>) {
    && FinishedAgree(s, exits.Keys)
    && forall k :: k in exits ==>
                     (exits[k] == ClientsContainer.CLIENT_THREAD_SUCCESS <==> s.sessions[k].pc == Ended)
  }

  datatype Turn = GoesOn | WaitsOn | LeavesLoop

  /** The real state is that of `s`, with the socket of a session that `s` has one more of. */
  ghost predicate AllAgree(s: State, clients: ClientsContainer.ClientsContainer, sockets: seq<Socket>, sock: Socket)
    reads clients`activeClientsNum, clients.clientsArr, sockets`closed, sock`closed
  {
    var all := if |s.sessions| > |sockets| then sockets + [sock] else sockets;
    ContainerAgrees(s, clients, all) && SocketsAgree(s, all)
  }

  lemma ReapKeepsSockets(s: State, p: nat, sockets: seq<Socket>)
    requires MainEnabled(s, ReapThread(p)) && SocketsAgree(s, sockets)
    ensures |Reap(s, p).sessions| == |s.sessions| && SocketsAgree(Reap(s, p), sockets)
  {
    hide Distinct, ValidSlots;
  }

  /** The branch of the main loop for a thread that has finished. */
  method ReapTurn(clients: ClientsContainer.ClientsContainer, id: nat, exits: map<nat, ClientsContainer.ExitCode>,
                  ghost s: State, ghost sockets: seq<Socket>, ghost p: nat)
    returns (ok: bool)
    requires clients.Valid() && ContainerAgrees(s, clients, sockets) && SocketsAgree(s, sockets) && TableInv(s)
    requires MainEnabled(s, ReapThread(p)) && SlotAt(s, p) == id && ExitsAgree(s, exits)
    modifies clients`activeClientsNum, clients.clientsArr
    ensures clients.Valid() && |Reap(s, p).sessions| == |s.sessions|
    ensures ContainerAgrees(Reap(s, p), clients, sockets) && SocketsAgree(Reap(s, p), sockets)
    ensures ok <==> Reap(s, p).main != Aborted
  {
    assert SlotsAgree(s.table[id], clients.Table()[id], sockets);
    assert clients.clientsArr[id] == clients.Table()[id];
    hide SocketsAgree;
    ReapKeepsSockets(s, p, sockets);
    ok := FinalizationStep(clients, id, exits[clients.clientsArr[id].threadHandle.value], s, sockets, p);
  }

  /** One turn of the main loop, from the head to the end of its body: it waits on, or does one step of
      the main thread, the connection first; and it leaves the loop by an error exactly when the step
      does, or when the wait itself failed. */
  method MainTurn(clients: ClientsContainer.ClientsContainer, listenerReady: bool, sock: Socket, takenText: seq<byte>,
                  exits: map<nat, ClientsContainer.ExitCode>, reliable: bool,
                  ghost s: State, ghost sockets: seq<Socket>, handle: nat)
    returns (turn: Turn, ghost a: Option<MainAction>)
    requires clients.Valid() && |takenText| < 0x8000_0000 && AllAgree(s, clients, sockets, sock) && TableInv(s)
    requires |sockets| == |s.sessions| == handle && sock !in sockets && LoopGuard(s) && ExitsAgree(s, exits)
    modifies clients`activeClientsNum, clients.clientsArr, sock
    ensures clients.Valid()
    ensures a.None? ==> AllAgree(s, clients, sockets, sock) && turn != GoesOn && (reliable ==> turn == WaitsOn)
    ensures turn == WaitsOn ==> a.None? && !listenerReady && forall q: nat :: !MainEnabled(s, ReapThread(q))
    ensures a.Some? ==>
              && MainEnabled(s, a.value) && AllAgree(ApplyMain(s, a.value), clients, sockets, sock)
              && (turn == GoesOn <==> ApplyMain(s, a.value).main != Aborted)
              && (a.value.HandleConnection? <==> listenerReady)
    ensures a.Some? && a.value.HandleConnection? && old(sock.Up()) ==> a.value.request == RequestIn(old(sock.inbox))
  {
    var r, p := WaitStep(clients, listenerReady, exits.Keys, reliable, s, sockets);
    hide LoopGuard, SocketsAgree, ContainerAgrees, Connected, Reap, Decode, ClientsContainer.ClientsContainer.Valid;
    match r {
      case WaitFailed =>
        turn, a := LeavesLoop, None;
      case StillWaiting =>
        turn, a := WaitsOn, None;
      case ListenerReady =>
        ghost var c;
        var ok;
        ok, c := ConnectionStep(clients, sock, takenText, s, sockets, handle);
        turn, a := if ok then GoesOn else LeavesLoop, Some(c);
      case ThreadFinished(id) =>
        var ok := ReapTurn(clients, id, exits, s, sockets, p);
        turn, a := if ok then GoesOn else LeavesLoop, Some(ReapThread(p));
    }
  }

  function MessagesOf(q: seq<Entry>): (ms: seq<MsgToSend>)
    ensures |ms| == |q|
  {
    if q == [] then [] else [q[0].msg] + MessagesOf(q[1..])
  }

  function ContentsOf(q: seq<Entry>): (ms: seq<Message>)
    ensures AllFit(ms)
  {
    if q == [] then []
    else
      HeaderThenBodyIsFrame(q[0].msg.message);
      [Content(q[0].msg.message)] + ContentsOf(q[1..])
  }

  /** What `RunSender` sends to the socket of a live session is what the transition system says the
      session is due of the queue, message for message. */
  lemma {:induction false} SenderAgrees(s: State, h: HeapTable, sockets: seq<Socket>, k: nat, q: seq<Entry>)
    requires NameInv(s) && TableInv(s) && TablesAgree(s.table, h, sockets) && TableOk(h)
    requires k < |s.sessions| && s.sessions[k].pc != Reaped
    ensures Sender.AllOk(MessagesOf(q))
    ensures Sender.MessagesFor(h, s.sessions[k].slot, MessagesOf(q)) == ContentsOf(WantedFrom(s.sessions[k].name, q))
  {
    hide NameInv, TableInv, TablesAgree, TableOk, Passes, Recipients, Content;
    if q != [] {
      SenderAgrees(s, h, sockets, k, q[1..]);
      RecipientAgrees(s, h, sockets, k, q[0]);
      var rest := WantedFrom(s.sessions[k].name, q[1..]);
      assert ([q[0]] + rest)[1..] == rest;
    }
  }

  lemma RecipientAgrees(s: State, h: HeapTable, sockets: seq<Socket>, k: nat, e: Entry)
    requires NameInv(s) && TableInv(s) && TablesAgree(s.table, h, sockets) && TableOk(h)
    requires k < |s.sessions| && s.sessions[k].pc != Reaped
    ensures s.sessions[k].slot in Recipients(h, e.msg) <==> Passes(s.sessions[k].name, e.msg)
  {
    hide Passes, Receives, CountValid, SystemMessage;
    var i := s.sessions[k].slot;
    assert NameOf(s, k) && SlotOf(s, k) && SlotsAgree(s.table[i], h[i], sockets);
    ReceivesIsPasses(h[i], e.msg);
  }

  // ---- The drain ----

  /** The valid slots are those of the live sessions, each with a socket of its own. */
  lemma AgreeingIsConnected(s: State, clients: ClientsContainer.ClientsContainer, sockets: seq<Socket>)
    requires ContainerAgrees(s, clients, sockets) && SocketsAgree(s, sockets) && TableInv(s)
    ensures clients.Connected()
  {
    hide CountValid;
    var h := clients.Table();
    forall i | 0 <= i < |h| && h[i].isValid
      ensures ConnectedOver(s, h, sockets, i)
    {
      assert SlotsAgree(s.table[i], h[i], sockets) && ThreadOf(s, i);
    }
    assert forall i :: 0 <= i < |h| && clients.clientsArr[i].isValid ==> ConnectedOver(s, h, sockets, i);
  }

  predicate ConnectedOver(s: State, h: HeapTable, sockets: seq<Socket>, i: nat)
    requires i < |h|
  {
    h[i].threadHandle.Some? &&
    var k := h[i].threadHandle.value;
    k < |sockets| && k < |s.sessions| && h[i].clientSocket == sockets[k] && s.sessions[k].slot == i
      && s.sessions[k].pc != Reaped
  }

  lemma LiveIsConnectedOver(s: State, h: HeapTable, sockets: seq<Socket>, k: nat)
    requires TablesAgree(s.table, h, sockets) && |sockets| == |s.sessions| && TableInv(s)
    requires k < |s.sessions| && s.sessions[k].pc != Reaped
    ensures var i := s.sessions[k].slot;
            i < |h| && h[i].isValid && ConnectedOver(s, h, sockets, i) && h[i].threadHandle == Some(k)
  {
    hide CountValid;
    assert SlotOf(s, k) && SlotsAgree(s.table[s.sessions[k].slot], h[s.sessions[k].slot], sockets);
  }

  lemma ValidIsConnectedOver(s: State, h: HeapTable, sockets: seq<Socket>, i: nat)
    requires TablesAgree(s.table, h, sockets) && |sockets| == |s.sessions| && TableInv(s)
    requires i < |h| && h[i].isValid
    ensures ConnectedOver(s, h, sockets, i)
  {
    hide CountValid;
    assert SlotsAgree(s.table[i], h[i], sockets) && ThreadOf(s, i);
  }

  lemma {:induction false} WantedIsNone(name: seq<byte>, q: seq<Entry>)
    ensures WantedFrom(name, q) == [] <==> forall j :: 0 <= j < |q| ==> !Passes(name, q[j].msg)
  {
    hide Passes;
    if q != [] {
      WantedIsNone(name, q[1..]);
      assert forall j :: 0 <= j < |q[1..]| ==> q[1..][j] == q[j + 1];
      assert forall j :: 0 < j < |q| ==> q[j] == q[1..][j - 1];
    }
  }

  lemma {:induction false} MessageAt(q: seq<Entry>, j: nat)
    requires j < |q|
    ensures MessagesOf(q)[j] == q[j].msg
  {
    if j > 0 {
      MessageAt(q[1..], j - 1);
    }
  }

  /** Some message of the queue is for the live session `k`, and its socket is closed. */
  predicate ClosedWants(s: State, k: nat, j: nat) {
    && k < |s.sessions| && j < |s.queue|
    && s.sessions[k].pc != Reaped && s.sessions[k].closed && Passes(s.sessions[k].name, s.queue[j].msg)
  }

  lemma HarmlessIffNoneWants(s: State)
    requires s.sender == Dequeuing
    ensures Harmless(s) <==> forall k, j :: !ClosedWants(s, k, j)
  {
    hide Passes, WantedFrom;
    forall k | 0 <= k < |s.sessions|
      ensures Owed(s, k) == [] <==> forall j :: 0 <= j < |s.queue| ==> !Passes(s.sessions[k].name, s.queue[j].msg)
    {
      assert StillComing(s, s.sessions[k].slot) == s.queue;
      WantedIsNone(s.sessions[k].name, s.queue);
    }
    hide Owed;
    if !Harmless(s) {
      var k :| 0 <= k < |s.sessions| && s.sessions[k].pc != Reaped && s.sessions[k].closed && Owed(s, k) != [];
      var j :| 0 <= j < |s.queue| && Passes(s.sessions[k].name, s.queue[j].msg);
      assert ClosedWants(s, k, j);
    }
  }

  lemma WantingIsForClosed(s: State, clients: ClientsContainer.ClientsContainer, sockets: seq<Socket>, k: nat, j: nat)
    requires ContainerAgrees(s, clients, sockets) && SocketsAgree(s, sockets) && NameInv(s) && TableInv(s)
    requires clients.Connected() && TableOk(clients.Table()) && Sender.AllOk(MessagesOf(s.queue))
             && ClosedWants(s, k, j)
    ensures Sender.ForClosed(clients, MessagesOf(s.queue)[j])
  {
    hide NameInv, TableInv, TablesAgree, TableOk, Passes, Recipients;
    MessageAt(s.queue, j);
    LiveIsConnectedOver(s, clients.Table(), sockets, k);
    RecipientAgrees(s, clients.Table(), sockets, k, s.queue[j]);
    assert clients.clientsArr[s.sessions[k].slot] == clients.Table()[s.sessions[k].slot];
  }

  lemma ForClosedIsWanting(s: State, clients: ClientsContainer.ClientsContainer, sockets: seq<Socket>,
                           j: nat) returns (k: nat)
    requires ContainerAgrees(s, clients, sockets) && SocketsAgree(s, sockets) && NameInv(s) && TableInv(s)
    requires clients.Connected() && TableOk(clients.Table()) && Sender.AllOk(MessagesOf(s.queue)) && j < |s.queue|
    requires Sender.ForClosed(clients, MessagesOf(s.queue)[j])
    ensures ClosedWants(s, k, j)
  {
    hide NameInv, TableInv, TablesAgree, TableOk, Passes, Recipients;
    MessageAt(s.queue, j);
    var i :| 0 <= i < clients.clientsArr.Length && clients.clientsArr[i].isValid
             && clients.clientsArr[i].clientSocket.closed
             && i in Recipients(clients.Table(), MessagesOf(s.queue)[j]);
    ValidIsConnectedOver(s, clients.Table(), sockets, i);
    k := clients.Table()[i].threadHandle.value;
    RecipientAgrees(s, clients.Table(), sockets, k, s.queue[j]);
  }

  /** What stops `RunSender` is what stops the drain of the transition system. */
  lemma HarmlessAgrees(s: State, clients: ClientsContainer.ClientsContainer, sockets: seq<Socket>)
    requires ContainerAgrees(s, clients, sockets) && SocketsAgree(s, sockets) && NameInv(s) && TableInv(s)
             && s.sender == Dequeuing
    requires clients.Connected() && TableOk(clients.Table()) && Sender.AllOk(MessagesOf(s.queue))
    ensures Sender.NoneForClosed(clients, MessagesOf(s.queue)) <==> Harmless(s)
  {
    HarmlessIffNoneWants(s);
    hide Agrees, SocketsAgree, NameInv, TableInv, TableOk, Harmless, Sender.ForClosed, ClosedWants;
    if k: nat, j: nat :| ClosedWants(s, k, j) {
      assert j < |s.queue| by { WantsQueued(s, k, j); }
      WantingIsForClosed(s, clients, sockets, k, j);
    }
    if j: nat :| j < |s.queue| && Sender.ForClosed(clients, MessagesOf(s.queue)[j]) {
      var k := ForClosedIsWanting(s, clients, sockets, j);
    }
  }

  lemma WantsQueued(s: State, k: nat, j: nat)
    requires ClosedWants(s, k, j)
    ensures j < |s.queue|
  {
  }

  /** What the drain puts on the log of session `k`. */
  function Sent(s: State, k: nat): (q: seq<Entry>)
    requires Inv(s) && Quiescent(s) && Harmless(s) && k < |s.sessions| && s.sessions[k].pc != Reaped
  {
    DrainSends(s, k);
    Exec(s, SenderSteps(DrainSteps(s))).sessions[k].wire[|s.sessions[k].wire|..]
  }

  lemma SentIsWanted(s: State, k: nat)
    requires Inv(s) && Quiescent(s) && Harmless(s) && k < |s.sessions| && s.sessions[k].pc != Reaped
             && s.sender == Dequeuing
    ensures Sent(s, k) == WantedFrom(s.sessions[k].name, s.queue)
  {
    hide Inv, Quiescent, Harmless, WantedFrom, Exec, DrainSteps, SenderSteps, DrainedAfter;
    DrainSends(s, k);
    assert StillComing(s, s.sessions[k].slot) == s.queue;
  }

  /** The bytes for a live session's slot are the frames of what the drain puts on its log. */
  lemma BytesAgree(s: State, h: HeapTable, sockets: seq<Socket>, k: nat)
    requires Inv(s) && Quiescent(s) && Harmless(s) && s.sender == Dequeuing && TablesAgree(s.table, h, sockets)
             && TableOk(h)
    requires k < |s.sessions| && s.sessions[k].pc != Reaped
    ensures Sender.AllOk(MessagesOf(s.queue))
    ensures Sender.BytesFor(h, s.sessions[k].slot, MessagesOf(s.queue)) == Frames(ContentsOf(Sent(s, k)))
  {
    hide Quiescent, Harmless, WantedFrom, TablesAgree, TableOk, Sent, Frames;
    assert NameInv(s) && TableInv(s);
    hide Inv;
    SentIsWanted(s, k);
    SenderAgrees(s, h, sockets, k, s.queue);
    Sender.BytesAreFrames(h, s.sessions[k].slot, MessagesOf(s.queue));
  }

  lemma AllMessagesOk(q: seq<Entry>)
    ensures Sender.AllOk(MessagesOf(q))
  {
    forall j | 0 <= j < |q|
      ensures MsgOk(MessagesOf(q)[j])
    {
      MessageAt(q, j);
    }
  }

  /** The sockets of live sessions are those the sender logs. */
  lemma LogOfLive(s: State, clients: ClientsContainer.ClientsContainer, sockets: seq<Socket>, k: nat)
    requires TablesAgree(s.table, clients.Table(), sockets) && |sockets| == |s.sessions| && TableInv(s)
    requires k < |s.sessions| && s.sessions[k].pc != Reaped
    ensures var i := s.sessions[k].slot;
            i < clients.clientsArr.Length && clients.clientsArr[i].isValid && Sender.Log(clients, i) == sockets[k].wire
  {
    hide TablesAgree, TableInv;
    LiveIsConnectedOver(s, clients.Table(), sockets, k);
    assert clients.clientsArr[s.sessions[k].slot] == clients.Table()[s.sessions[k].slot];
  }

  /** `RunSender`, from the head of its loop and with reliable connections, is the drain of the
      transition system: it fails exactly when that cannot be completed, and otherwise puts on every
      live session's socket the frames of what the drain puts on its log. */
  method SenderRun(clients: ClientsContainer.ClientsContainer, ghost s: State, ghost sockets: seq<Socket>)
    returns (exit: Sender.SenderExit)
    requires clients.Valid() && ContainerAgrees(s, clients, sockets) && SocketsAgree(s, sockets)
    requires Inv(s) && Quiescent(s) && s.sender == Dequeuing && forall k :: 0 <= k < |sockets| ==> sockets[k].reliable
    requires clients.sendQueue.Valid() && clients.sendQueue.Contents() == MessagesOf(s.queue)
    modifies clients`sendMsgsEvent, clients.sendQueue.Repr(), clients.SocketsInUse()`wire
    ensures exit == Sender.SENDER_THREAD_SEND_FAILED <==> !Harmless(s)
    ensures exit != Sender.SENDER_THREAD_SEND_FAILED ==> clients.sendQueue.Contents() == []
    ensures exit != Sender.SENDER_THREAD_SEND_FAILED ==>
              forall k :: 0 <= k < |sockets| && s.sessions[k].pc != Reaped ==>
                sockets[k].wire == old(sockets[k].wire) + Frames(ContentsOf(Sent(s, k)))
  {
    ReadyToRun(s, clients, sockets);
    ghost var start := Sender.Logs(clients);
    Sender.AlwaysApart(clients);
    assert |sockets| == |s.sessions| && |start| == clients.clientsArr.Length;
    hide *;
    exit := Sender.RunSender(clients);
    if exit != Sender.SENDER_THREAD_SEND_FAILED {
      forall k | 0 <= k < |sockets| && s.sessions[k].pc != Reaped
        ensures sockets[k].wire == old(sockets[k].wire) + Frames(ContentsOf(Sent(s, k)))
      {
        ServedAsSent(s, clients, sockets, start, k);
      }
    }
  }

  lemma ReadyToRun(s: State, clients: ClientsContainer.ClientsContainer, sockets: seq<Socket>)
    requires clients.Valid() && ContainerAgrees(s, clients, sockets) && SocketsAgree(s, sockets)
    requires Inv(s) && s.sender == Dequeuing && forall k :: 0 <= k < |sockets| ==> sockets[k].reliable
    ensures clients.Connected() && Sender.AllReliable(clients) && TableOk(clients.Table())
    ensures Sender.AllOk(MessagesOf(s.queue))
    ensures Sender.NoneForClosed(clients, MessagesOf(s.queue)) <==> Harmless(s)
    ensures forall k :: 0 <= k < |sockets| && s.sessions[k].pc != Reaped ==>
              s.sessions[k].slot < clients.clientsArr.Length
                && Sender.Log(clients, s.sessions[k].slot) == sockets[k].wire
  {
    hide Harmless, ClientsContainer.ClientsContainer.Connected, Sender.NoneForClosed;
    AgreeingIsConnected(s, clients, sockets);
    AgreeingIsReliable(s, clients, sockets);
    AllMessagesOk(s.queue);
    HarmlessAgrees(s, clients, sockets);
    assert TableInv(s);
    forall k | 0 <= k < |sockets| && s.sessions[k].pc != Reaped
      ensures s.sessions[k].slot < clients.clientsArr.Length
              && Sender.Log(clients, s.sessions[k].slot) == sockets[k].wire
    {
      LogOfLive(s, clients, sockets, k);
    }
  }

  lemma AgreeingIsReliable(s: State, clients: ClientsContainer.ClientsContainer, sockets: seq<Socket>)
    requires ContainerAgrees(s, clients, sockets) && TableInv(s) && clients.Connected()
    requires forall k :: 0 <= k < |sockets| ==> sockets[k].reliable
    ensures Sender.AllReliable(clients)
  {
    hide TableInv, TablesAgree;
    forall i | 0 <= i < clients.clientsArr.Length && clients.clientsArr[i].isValid
      ensures clients.clientsArr[i].clientSocket.reliable
    {
      ValidIsConnectedOver(s, clients.Table(), sockets, i);
      assert clients.clientsArr[i] == clients.Table()[i];
    }
  }

  lemma ServedAsSent(s: State, clients: ClientsContainer.ClientsContainer, sockets: seq<Socket>, start: seq<seq<byte>>,
                     k: nat)
    requires ContainerAgrees(s, clients, sockets) && TableOk(clients.Table()) && |start| == clients.clientsArr.Length
    requires Inv(s) && Quiescent(s) && Harmless(s) && s.sender == Dequeuing
    requires Sender.AllOk(MessagesOf(s.queue)) && Sender.Served(clients, start, MessagesOf(s.queue))
    requires k < |s.sessions| && s.sessions[k].pc != Reaped
    ensures s.sessions[k].slot < |start|
    ensures sockets[k].wire == start[s.sessions[k].slot] + Frames(ContentsOf(Sent(s, k)))
  {
    hide Quiescent, Harmless, Sent, Frames, Sender.BytesFor, Sender.Log;
    BytesAgree(s, clients.Table(), sockets, k);
    LogOfLive(s, clients, sockets, k);
  }
}

/** The client table in place: an array of slots, the counter of active clients, and the queue
    and event of the sender. Every method is specified by the functions of `ClientTable`. */
module ClientsContainer {
  import opened Common
  import opened ByteOrder
  import opened Sockets
  import opened Protocol
  import opened ClientTable
  import SynchronizedQueue

  const LISTENER_POSITION := 0

  const NO_AVAILABLE_SOCKET_MSG := Bytes("No available socket at the moment. Try again later.")

  datatype ExitCode = CLIENT_THREAD_SUCCESS | CLIENT_THREAD_FAILURE

  /** `StillWaiting`: nothing has happened yet, and the wait goes on. */
  datatype WaitResult = WaitFailed | StillWaiting | ListenerReady | ThreadFinished(clientId: nat)

  type Slot = Client<Socket?>

  class ClientsContainer {
    const clientsArr: array<Slot>
    var activeClientsNum: nat
    const sendQueue: SynchronizedQueue.SynchronizedQueue<MsgToSend>
    var sendMsgsEvent: bool
    var exitSender: bool

    ghost function Table(): (r: seq<Slot>)
      reads clientsArr
    {
      clientsArr[..]
    }

    ghost predicate Valid()
      reads `activeClientsNum, clientsArr
    {
      && 1 <= clientsArr.Length < MAXIMUM_WAIT_OBJECTS
      && TableOk(Table())
      && activeClientsNum == CountValid(Table())
    }

    /** `InitializeServer`, for a number of clients that `HandleParameters` accepts. */
    constructor (maxClients: nat)
      requires 0 < maxClients < 64
      ensures Valid() && activeClientsNum == 0 && !sendMsgsEvent && !exitSender
      ensures Table() == seq(maxClients, i => ResetClient(null))
      ensures sendQueue.Valid() && sendQueue.Contents() == []
    {
      var arr := new Slot[maxClients];
      activeClientsNum := 0;
      var i := 0;
      while i < maxClients
        invariant i <= maxClients
        invariant forall j :: 0 <= j < i ==> arr[j] == ResetClient(null)
      {
        arr[i] := ResetClient(null);
        i := i + 1;
      }
      clientsArr := arr;
      sendQueue := new SynchronizedQueue.SynchronizedQueue();
      sendMsgsEvent := false;
      exitSender := false;
      new;
      CountIsZero(clientsArr[..]);
    }

    /** `AllocateClientContainer`: the lowest free slot, which the caller still has to fill. */
    method AllocateClientContainer() returns (id: Option<nat>)
      requires Valid()
      modifies this`activeClientsNum
      ensures id == FirstFree(Table()) && Table() == old(Table())
      ensures activeClientsNum == old(activeClientsNum) + if id.Some? then 1 else 0
      ensures id.Some? <==> old(activeClientsNum) < clientsArr.Length
    {
      FreeSlotExists(Table());
      for i := 0 to clientsArr.Length
        invariant forall j :: 0 <= j < i ==> clientsArr[j].isValid
        invariant activeClientsNum == old(activeClientsNum)
      {
        if !clientsArr[i].isValid {
          activeClientsNum := activeClientsNum + 1;
          return Some(i);
        }
      }
      return None;
    }

    /** `GetClientByUsername`: the first valid slot whose name starts with the given bytes. */
    method GetClientByUsername(username: seq<byte>, length: nat) returns (id: Option<nat>)
      requires TableOk(Table()) && |username| == USERNAME_MAXLENGTH && length <= USERNAME_MAXLENGTH
      ensures id.None? <==> Unused(Table(), username, length)
      ensures id.Some? ==> id.value < clientsArr.Length && Answers(Table()[id.value], username, length)
      ensures id.Some? ==> forall j :: 0 <= j < id.value ==> !Answers(Table()[j], username, length)
    {
      for i := 0 to clientsArr.Length
        invariant forall j :: 0 <= j < i ==> !Answers(Table()[j], username, length)
      {
        assert clientsArr[i] == Table()[i] && ClientOk(Table()[i]);
        if clientsArr[i].isValid {
          if SameBytes(username, clientsArr[i].username, length) {
            assert Answers(Table()[i], username, length);
            return Some(i);
          }
        }
      }
      return None;
    }

    /** `ValidateLoginRequest`. */
    method ValidateLoginRequest(request: Decoded) returns (v: Verdict)
      requires TableOk(Table()) && request.length == |request.body|
      ensures v == Validate(Table(), request)
    {
      if request.msgType != LOGIN_REQUEST {
        return Malformed;
      }
      var length := request.length;
      if length > USERNAME_MAXLENGTH {
        return Malformed;
      }
      var name := Pad(request.body, USERNAME_MAXLENGTH);
      var n := if length < |SERVER_USERNAME| then length else |SERVER_USERNAME|;
      assert name[..n] == name[..length][..n] == request.body[..n];
      if SameBytes(name, SERVER_USERNAME, n) {
        return Taken;
      }
      var client := GetClientByUsername(name, length);
      if client.None? {
        v := Available(name, length);
      } else {
        v := Taken;
      }
    }

    /** The part of `HandleNewConnection` that follows a parsed login: allocate a slot and fill it. */
    method TakeSlot(v: Verdict, sock: Socket, handle: nat) returns (id: Option<nat>)
      requires Valid()
      requires v.Available? ==> |v.name| == USERNAME_MAXLENGTH && v.length <= USERNAME_MAXLENGTH
      modifies this`activeClientsNum, clientsArr
      ensures Valid() && id == FirstFree(old(Table()))
      ensures Table() == Login(old(Table()), v, sock, handle) && (id.None? ==> Table() == old(Table()))
      ensures activeClientsNum == old(activeClientsNum) + if id.Some? then 1 else 0
    {
      id := AllocateClientContainer();
      if id.Some? {
        var i := id.value;
        var client := clientsArr[i];
        ghost var free := client;
        assert ClientOk(Table()[i]);
        client := client.(isValid := true, clientSocket := sock);
        var length := if v.Available? then v.length else 0;
        var name := if v.Available? then v.name[..length] else [];
        client := client.(username := name + client.username[length..], usernameLength := length);
        client := client.(threadHandle := Some(handle));
        assert client == Occupied<Socket?>(free, v, sock, handle);
        CountUpdate(old(Table()), i, client);
        clientsArr[i] := client;
        assert Table() == old(Table())[i := client];
      }
    }

    /** Sends a refusal to a client, and closes its socket. */
    method Refuse(sock: Socket, text: seq<byte>) returns (ok: bool)
      requires |text| < TWO_31
      modifies sock`wire, sock`closed
      ensures ok ==> sock.closed && sock.wire == old(sock.wire) + Frame(Message(SYSTEM_MESSAGE_LOGIN_FAILED, text))
      ensures !ok ==> !old(sock.Up()) && sock.closed == old(sock.closed)
      ensures old(sock.closed) ==> !ok && sock.wire == old(sock.wire)
    {
      hide Frame;
      var body := new byte[|text|](i requires 0 <= i < |text| => text[i]);
      assert body[..|text|] == text;
      var o := BuildChatMessage(SYSTEM_MESSAGE_LOGIN_FAILED, body, |text|);
      ok := SendChatMessage(sock, o.value);
      if ok {
        sock.Close();
      }
    }

    /** `HandleNewConnection`, for an accepted socket and the handle of the thread to be created. As
        written, a refused name is answered, its socket closed, and then a slot taken for it as
        well; with a full table, a second reply fails on the closed socket. */
    method HandleNewConnection(sock: Socket, handle: nat, takenText: seq<byte>) returns (ok: bool)
      requires Valid() && |takenText| < TWO_31
      modifies this`activeClientsNum, clientsArr, sock
      ensures Valid()
      ensures !ok ==> Table() == old(Table()) && activeClientsNum == old(activeClientsNum) && sock.closed
      ensures ok ==> Decode(old(sock.inbox)).Complete? && sock.inbox == Decode(old(sock.inbox)).rest
      ensures ok ==>
                var t := old(Table());
                var m := Decode(old(sock.inbox)).message;
                var v := Validate(t, Decoded(m.msgType, |m.body|, m.body));
                && !v.Malformed? && (v.Available? || FirstFree(t).Some?)
                && Table() == Login(t, v, sock, handle)
                && activeClientsNum == old(activeClientsNum) + (if FirstFree(t).Some? then 1 else 0)
                && sock.closed == (v.Taken? || FirstFree(t).None?)
                && sock.wire == old(sock.wire)
                     + if v.Taken? then Frame(Message(SYSTEM_MESSAGE_LOGIN_FAILED, takenText))
                       else if FirstFree(t).None?
                         then Frame(Message(SYSTEM_MESSAGE_LOGIN_FAILED, NO_AVAILABLE_SOCKET_MSG))
                       else []
      ensures old(sock.Up()) ==>
                var t := old(Table());
                var d := Decode(old(sock.inbox));
                var v := if d.Complete? then Validate(t, Decoded(d.message.msgType, |d.message.body|, d.message.body))
                         else Malformed;
                && (ok <==> !v.Malformed? && !(v.Taken? && FirstFree(t).None?))
                && (!ok ==> sock.wire == old(sock.wire)
                              + if v.Taken? then Frame(Message(SYSTEM_MESSAGE_LOGIN_FAILED, takenText)) else [])
    {
      hide Frame, Decode, Validate, Login, FirstFree, TableOk, CountValid;
      ok := ServeConnection(sock, handle, takenText);
      if !ok {
        sock.Close();
      }
    }

    /** `HandleNewConnection` up to its clean-up. */
    method ServeConnection(sock: Socket, handle: nat, takenText: seq<byte>) returns (ok: bool)
      requires Valid() && |takenText| < TWO_31
      modifies this`activeClientsNum, clientsArr, sock
      ensures Valid()
      ensures !ok ==> Table() == old(Table()) && activeClientsNum == old(activeClientsNum)
      ensures ok ==> Decode(old(sock.inbox)).Complete? && sock.inbox == Decode(old(sock.inbox)).rest
      ensures ok ==>
                var t := old(Table());
                var m := Decode(old(sock.inbox)).message;
                var v := Validate(t, Decoded(m.msgType, |m.body|, m.body));
                && !v.Malformed? && (v.Available? || FirstFree(t).Some?)
                && Table() == Login(t, v, sock, handle)
                && activeClientsNum == old(activeClientsNum) + (if FirstFree(t).Some? then 1 else 0)
                && sock.closed == (v.Taken? || FirstFree(t).None?)
                && sock.wire == old(sock.wire)
                     + if v.Taken? then Frame(Message(SYSTEM_MESSAGE_LOGIN_FAILED, takenText))
                       else if FirstFree(t).None?
                         then Frame(Message(SYSTEM_MESSAGE_LOGIN_FAILED, NO_AVAILABLE_SOCKET_MSG))
                       else []
      ensures old(sock.Up()) ==>
                var t := old(Table());
                var d := Decode(old(sock.inbox));
                var v := if d.Complete? then Validate(t, Decoded(d.message.msgType, |d.message.body|, d.message.body))
                         else Malformed;
                && (ok <==> !v.Malformed? && !(v.Taken? && FirstFree(t).None?))
                && (!ok ==> sock.wire == old(sock.wire)
                              + if v.Taken? then Frame(Message(SYSTEM_MESSAGE_LOGIN_FAILED, takenText)) else [])
    {
      hide Frame, Decode, Validate, Login, FirstFree, TableOk, CountValid;
      var request := ReceiveChatMessage(sock);
      if request.None? {
        return false;
      }
      var v := ValidateLoginRequest(request.value);
      ghost var m := Decode(old(sock.inbox)).message;
      assert request.value == Decoded(m.msgType, |m.body|, m.body);
      if v.Malformed? {
        return false;
      }
      if v.Taken? {
        ok := Refuse(sock, takenText);
        if !ok {
          return false;
        }
      }
      var id := TakeSlot(v, sock, handle);
      if id.None? {
        ok := Refuse(sock, NO_AVAILABLE_SOCKET_MSG);
        return ok;
      }
      return true;
    }

    /** `HandleThreadFinalization`: a thread that failed changes nothing and is reported. */
    method HandleThreadFinalization(clientId: nat, exitCode: ExitCode) returns (ok: bool)
      requires Valid() && clientId < clientsArr.Length && clientsArr[clientId].isValid
      modifies this`activeClientsNum, clientsArr
      ensures Valid() && (ok <==> exitCode == CLIENT_THREAD_SUCCESS)
      ensures Table() == if ok then old(Table())[clientId := ResetClient(null)] else old(Table())
      ensures activeClientsNum == old(activeClientsNum) - if ok then 1 else 0
    {
      if exitCode != CLIENT_THREAD_SUCCESS {
        return false;
      }
      CountUpdate(Table(), clientId, ResetClient(null));
      clientsArr[clientId] := ResetClient(null);
      assert Table() == old(Table())[clientId := ResetClient(null)];
      activeClientsNum := activeClientsNum - 1;
      return true;
    }

    /** The loop of `WaitForEvent`: the handles to wait for, and the slot of each of them, fill
        exactly the positions 1 to the number of active clients. */
    method FillWaitArrays() returns (handles: array<Option<nat>>, slots: array<nat>)
      requires Valid()
      ensures handles.Length == slots.Length == 64
      ensures slots[1..activeClientsNum + 1] == ValidSlots(Table())
      ensures forall p :: 1 <= p <= activeClientsNum ==>
                slots[p] < clientsArr.Length && handles[p] == Table()[slots[p]].threadHandle
    {
      handles := new Option<nat>[MAXIMUM_WAIT_OBJECTS];
      slots := new nat[MAXIMUM_WAIT_OBJECTS];
      ghost var t := clientsArr[..];
      hide TableOk, CountValid, ValidSlots;
      ValidSlotsOfNone(t);
      var index := 1;
      for i := 0 to clientsArr.Length
        invariant index == 1 + CountValid(t[..i])
        invariant slots[1..index] == ValidSlots(t[..i])
        invariant forall p :: 1 <= p < index ==> slots[p] < |t| && handles[p] == t[slots[p]].threadHandle
      {
        ValidSlotsStep(t, i);
        if clientsArr[i].isValid {
          ghost var before := slots[1..index];
          handles[index] := clientsArr[i].threadHandle;
          slots[index] := i;
          assert slots[1..index] == before;
          index := index + 1;
          assert slots[1..index] == before + [i];
        }
      }
      assert t[..clientsArr.Length] == t;
    }

    /** `WaitForEvent`: a connection goes before any thread that has finished, and among these the
        one of the lowest slot goes first. */
    method WaitForEvent(listenerReady: bool, finished: set<nat>, reliable: bool) returns (r: WaitResult)
      requires Valid()
      ensures reliable ==> !r.WaitFailed?
      ensures !r.WaitFailed? ==> (r.ListenerReady? <==> listenerReady)
      ensures r.ThreadFinished? ==>
                && r.clientId < clientsArr.Length && HasFinished(clientsArr[r.clientId], finished)
                && forall j :: 0 <= j < r.clientId ==> !HasFinished(clientsArr[j], finished)
      ensures r.StillWaiting? ==> forall j :: 0 <= j < clientsArr.Length ==> !HasFinished(clientsArr[j], finished)
    {
      var handles, slots := FillWaitArrays();
      var handlesCount := activeClientsNum + 1;
      ghost var t := Table();
      SlotsOfPositions(t, slots[..]);
      assert slots[..][1..handlesCount] == slots[1..handlesCount];
      hide ValidSlots, CountValid, TableOk;
      var signaled := WaitForMultipleObjects(handlesCount, handles, listenerReady, finished, reliable);
      assert Signalled(handles, 0, listenerReady, finished) <==> listenerReady;
      assert forall p :: 1 <= p < handlesCount ==>
                 slots[..][p] == slots[p]
                 && (Signalled(handles, p, listenerReady, finished) <==> HasFinished(t[slots[p]], finished));
      hide Signalled, HasFinished;
      if signaled.None? {
        LowestFinished(t, slots[..], finished, handlesCount);
        return StillWaiting;
      }
      if signaled.value >= handlesCount {
        return WaitFailed;
      }
      if signaled.value == LISTENER_POSITION {
        return ListenerReady;
      }
      LowestFinished(t, slots[..], finished, signaled.value);
      return ThreadFinished(slots[signaled.value]);
    }

    /** The sockets of the clients. */
    ghost function SocketsInUse(): (r: set<Socket?>)
      reads clientsArr
    {
      set i | 0 <= i < clientsArr.Length && clientsArr[i].clientSocket != null :: clientsArr[i].clientSocket
    }

    /** Every client is connected, on a socket of its own. */
    ghost predicate Connected()
      reads clientsArr
    {
      && (forall i :: 0 <= i < clientsArr.Length && clientsArr[i].isValid ==> clientsArr[i].clientSocket != null)
      && (forall i, j :: 0 <= i < j < clientsArr.Length && clientsArr[i].isValid && clientsArr[j].isValid ==>
            clientsArr[i].clientSocket != clientsArr[j].clientSocket)
    }

    /** The turn of one valid slot in `SendMsgToDests`. */
    method SendToSlot(i: nat, m: MsgToSend) returns (ok: bool)
      requires Valid() && Connected() && MsgOk(m) && i < clientsArr.Length && clientsArr[i].isValid
      modifies clientsArr[i].clientSocket`wire
      ensures clientsArr[i].clientSocket in SocketsInUse()
      ensures forall j :: 0 <= j < clientsArr.Length && clientsArr[j].isValid && j != i ==>
                clientsArr[j].clientSocket.wire == old(clientsArr[j].clientSocket.wire)
      ensures ok ==> clientsArr[i].clientSocket.wire == old(clientsArr[i].clientSocket.wire) + BytesOf(Table(), i, m)
      ensures ok && clientsArr[i].clientSocket.closed ==> i !in Recipients(Table(), m)
      ensures !ok ==> !clientsArr[i].clientSocket.Up() && i in Recipients(Table(), m)
      ensures !ok ==> Between(old(clientsArr[i].clientSocket.wire), clientsArr[i].clientSocket.wire,
                              BytesOf(Table(), i, m))
    {
      hide Frame;
      HeaderThenBodyIsFrame(m.message);
      var client := clientsArr[i];
      assert ClientOk(Table()[i]);
      if (m.isBroadcast && !SameBytes(client.username, m.sender, client.usernameLength))
         || SameBytes(client.username, m.dest, client.usernameLength) {
        ok := SendChatMessage(client.clientSocket, m.message);
        if !ok {
          PartIsBetween(m.message, old(client.clientSocket.wire), client.clientSocket.wire);
        }
        return;
      }
      return true;
    }

    /** `SendMsgToDests`: on success one frame went to every recipient and nothing to anybody
        else; otherwise some send failed, and nobody got more than that. */
    method SendMsgToDests(m: MsgToSend) returns (ok: bool)
      requires Valid() && Connected() && MsgOk(m)
      modifies SocketsInUse()`wire
      ensures Fits(Content(m.message)) && Table() == old(Table())
      ensures ok ==> forall i :: 0 <= i < clientsArr.Length && clientsArr[i].isValid ==>
                       clientsArr[i].clientSocket.wire == old(clientsArr[i].clientSocket.wire) + BytesOf(Table(), i, m)
      ensures ok ==> forall i :: 0 <= i < clientsArr.Length && clientsArr[i].isValid ==>
                       clientsArr[i].clientSocket.closed ==> i !in Recipients(Table(), m)
      ensures !ok ==> exists i :: 0 <= i < clientsArr.Length && clientsArr[i].isValid
                                  && !clientsArr[i].clientSocket.Up() && i in Recipients(Table(), m)
      ensures !ok ==> forall i :: 0 <= i < clientsArr.Length && clientsArr[i].isValid ==>
                        Between(old(clientsArr[i].clientSocket.wire), clientsArr[i].clientSocket.wire,
                                BytesOf(Table(), i, m))
    {
      hide TableOk, BytesOf, Recipients, Receives, WellBuilt, Content, CountValid, Between;
      HeaderThenBodyIsFrame(m.message);
      for i := 0 to clientsArr.Length
        invariant forall j :: 0 <= j < i && clientsArr[j].isValid ==>
                    clientsArr[j].clientSocket.wire == old(clientsArr[j].clientSocket.wire) + BytesOf(Table(), j, m)
        invariant forall j :: 0 <= j < i && clientsArr[j].isValid && clientsArr[j].clientSocket.closed ==>
                  j !in Recipients(Table(), m)
        invariant forall j :: i <= j < clientsArr.Length && clientsArr[j].isValid ==>
                    clientsArr[j].clientSocket.wire == old(clientsArr[j].clientSocket.wire)
      {
        if clientsArr[i].isValid {
          assert clientsArr[i].clientSocket in SocketsInUse();
          var sent := SendToSlot(i, m);
          if !sent {
            NoneOrAllIsBetween();
            return false;
          }
        }
      }
      return true;
    }
  }

  /** The bytes slot `i` is due of one message. */
  function BytesOf(t: seq<Slot>, i: nat, m: MsgToSend): (r: seq<byte>)
    requires TableOk(t) && MsgOk(m)
  {
    HeaderThenBodyIsFrame(m.message);
    if i in Recipients(t, m) then Frame(Content(m.message)) else []
  }

  /** The stream grew from `before` to `after` by some first part of `data`. */
  ghost predicate Between(before: seq<byte>, after: seq<byte>, data: seq<byte>) {
    StartsWith(after, before) && StartsWith(before + data, after)
  }

  lemma NoneOrAllIsBetween()
    ensures forall before, data :: Between(before, before, data)
    ensures forall before, data :: Between(before, before + data, data)
  {
  }

  lemma PartIsBetween(o: Outgoing, before: seq<byte>, after: seq<byte>)
    requires WellBuilt(o) && Fits(Content(o)) && PartOfFrame(Content(o), before, after)
    ensures Between(before, after, Frame(Content(o)))
  {
  }

  /** The thread of the slot has finished. */
  predicate HasFinished(c: Slot, finished: set<nat>) {
    c.isValid && c.threadHandle.Some? && c.threadHandle.value in finished
  }

  /** The object at a position of the wait array is signalled. */
  predicate Signalled(handles: array<Option<nat>>, p: nat, listenerReady: bool, finished: set<nat>)
    requires p < handles.Length
    reads handles
  {
    if p == LISTENER_POSITION then listenerReady else handles[p].Some? && handles[p].value in finished
  }

  /** The slot of a position is valid, and each valid slot has one, in order. */
  lemma SlotsOfPositions(t: seq<Slot>, slots: seq<nat>)
    requires CountValid(t) < |slots| && slots[1..CountValid(t) + 1] == ValidSlots(t)
    ensures forall p :: 1 <= p <= CountValid(t) ==> slots[p] < |t| && t[slots[p]].isValid
    ensures forall p, q :: 1 <= p < q <= CountValid(t) ==> slots[p] < slots[q]
    ensures forall i :: 0 <= i < |t| && t[i].isValid ==> exists p :: 1 <= p <= CountValid(t) && slots[p] == i
  {
    ValidSlotsBijective(t);
    var v := ValidSlots(t);
    hide ValidSlots;
    hide CountValid;
    assert forall p :: 1 <= p <= |v| ==> slots[p] == slots[1..|v| + 1][p - 1] == v[p - 1];
    forall i | 0 <= i < |t| && t[i].isValid
      ensures exists p :: 1 <= p <= CountValid(t) && slots[p] == i
    {
      var q :| 0 <= q < |v| && v[q] == i;
      assert slots[q + 1] == i;
    }
  }

  /** If the thread of no position before `q` has finished, then that of no slot below the one at `q`. */
  lemma LowestFinished(t: seq<Slot>, slots: seq<nat>, finished: set<nat>, q: nat)
    requires CountValid(t) < |slots| && slots[1..CountValid(t) + 1] == ValidSlots(t)
    requires 1 <= q <= CountValid(t) + 1
    requires forall p :: 1 <= p < q ==> slots[p] < |t| ==> !HasFinished(t[slots[p]], finished)
    ensures forall j :: 0 <= j < |t| && (q <= CountValid(t) ==> j < slots[q]) ==> !HasFinished(t[j], finished)
  {
    SlotsOfPositions(t, slots);
  }

  const WAIT_FAILED: nat := 0xFFFF_FFFF

  /** `WaitForMultipleObjects`: the lowest signalled position of the first `count`; none as long as
      there is none; or a failure, when the wait may fail. */
  method WaitForMultipleObjects(count: nat, handles: array<Option<nat>>, listenerReady: bool, finished: set<nat>,
                                reliable: bool)
    returns (r: Option<nat>)
    requires count <= handles.Length <= WAIT_FAILED
    ensures reliable ==> r != Some(WAIT_FAILED)
    ensures r.Some? && r.value != WAIT_FAILED ==>
              && r.value < count && Signalled(handles, r.value, listenerReady, finished)
              && forall p :: 0 <= p < r.value ==> !Signalled(handles, p, listenerReady, finished)
    ensures r.None? ==> forall p :: 0 <= p < count ==> !Signalled(handles, p, listenerReady, finished)
  {
    var fails: bool := *;
    if fails && !reliable {
      return Some(WAIT_FAILED);
    }
    for p := 0 to count
      invariant forall q :: 0 <= q < p ==> !Signalled(handles, q, listenerReady, finished)
    {
      if Signalled(handles, p, listenerReady, finished) {
        return Some(p);
      }
    }
    return None;
  }

  /** What a connection makes of the table, from the bytes of the message it brings. */
  method ServeFrame(clients: ClientsContainer, sock: Socket, handle: nat, takenText: seq<byte>,
                    ghost m: Message, ghost rest: seq<byte>)
    returns (ok: bool)
    requires clients.Valid() && |takenText| < 0x8000_0000 && Fits(m) && sock.Up() && sock.inbox == Frame(m) + rest
    modifies clients`activeClientsNum, clients.clientsArr, sock
    ensures clients.Valid()
    ensures m.msgType != 0 || |m.body| > 16 ==>
              && !ok && sock.closed && sock.wire == old(sock.wire)
              && clients.Table() == old(clients.Table()) && clients.activeClientsNum == old(clients.activeClientsNum)
    ensures m.msgType == 0 && |m.body| <= 16 ==>
              var t := old(clients.Table());
              var refused := Refuses(t, m.body);
              match FirstFree(t)
              case Some(i) =>
                && ok && sock.inbox == rest && sock.closed == refused
                && sock.wire == old(sock.wire) + (if refused then Frame(Message(3, takenText)) else [])
                && clients.activeClientsNum == old(clients.activeClientsNum) + 1
                && clients.Table() == t[i := if refused then Slot.Client(true, Some(handle), sock, 0, Zeros(16))
                                             else Slot.Client(true, Some(handle), sock, |m.body|, Pad(m.body, 16))]
              case None =>
                && (ok <==> !refused) && sock.closed
                && sock.wire == old(sock.wire) + Frame(Message(3, if refused then takenText else FullText()))
                && clients.Table() == t && clients.activeClientsNum == old(clients.activeClientsNum)
  {
    ghost var t := clients.Table();
    FrameDecodes(m, rest);
    VerdictByBytes(t, Decoded(m.msgType, |m.body|, Carried(m).body));
    LoginByBytes(t, Carried(m), sock, handle);
    assert |m.body| <= 16 ==> Carried(m) == m;
    hide Frame, Decode, Validate, Login, FirstFree, TableOk, CountValid, Refuses;
    ok := clients.HandleNewConnection(sock, handle, takenText);
  }

  function FullText(): (r: seq<byte>)
    ensures r == Bytes("No available socket at the moment. Try again later.")
  {
    NO_AVAILABLE_SOCKET_MSG
  }

  lemma LoginByBytes(t: seq<Slot>, m: Message, sock: Socket, handle: nat)
    requires TableOk(t) && Fits(m)
    ensures var v := Validate(t, Decoded(m.msgType, |m.body|, m.body));
            FirstFree(t).Some? && !v.Malformed? ==>
              |m.body| <= 16 && FirstFree(t).value < |t|
              && Login(t, v, sock, handle)
                 == t[FirstFree(t).value := if v.Taken? then Slot.Client(true, Some(handle), sock, 0, Zeros(16))
                                            else Slot.Client(true, Some(handle), sock, |m.body|, Pad(m.body, 16))]
    ensures FirstFree(t).None? ==> Login(t, Validate(t, Decoded(m.msgType, |m.body|, m.body)), sock, handle) == t
  {
    var v := Validate(t, Decoded(m.msgType, |m.body|, m.body));
    assert v.Available? ==> v.name[..v.length] == m.body;
    hide FirstFree, Validate, Occupied;
    if FirstFree(t).Some? {
      assert ClientOk(t[FirstFree(t).value]);
      OccupiedByBytes<Socket?>(t[FirstFree(t).value], v, sock, handle);
      assert Pad([], 16) == Zeros(16);
    }
  }
}

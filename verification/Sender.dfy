/** The sender thread on its own, against the real queue, table and sockets. It stops where the
    thread would block or end; `ChatServer` interleaves it with the others. */
module Sender {
  import opened Common
  import opened Protocol
  import opened ClientTable
  import opened ClientsContainer
  import SynchronizedQueue

  datatype SenderExit = SENDER_THREAD_TERMINATED_BY_MAIN | SENDER_THREAD_SEND_FAILED | BLOCKED_ON_EVENT

  predicate AllOk(q: seq<MsgToSend>) {
    forall i :: 0 <= i < |q| ==> MsgOk(q[i])
  }

  /** The bytes slot `i` gets from the messages of a queue, in order. */
  function BytesFor(t: seq<Slot>, i: nat, q: seq<MsgToSend>): (r: seq<byte>)
    requires TableOk(t) && AllOk(q)
  {
    if q == [] then []
    else BytesOf(t, i, q[0]) + BytesFor(t, i, q[1..])
  }

  lemma {:induction false} BytesForSnoc(t: seq<Slot>, i: nat, q: seq<MsgToSend>, m: MsgToSend)
    requires TableOk(t) && AllOk(q) && MsgOk(m)
    ensures AllOk(q + [m]) && BytesFor(t, i, q + [m]) == BytesFor(t, i, q) + BytesOf(t, i, m)
  {
    hide BytesOf, TableOk, MsgOk;
    if q == [] {
      assert q + [m] == [m] && BytesFor(t, i, [m][1..]) == [];
      assert BytesOf(t, i, m) + [] == BytesOf(t, i, m) == [] + BytesOf(t, i, m);
    } else {
      BytesForSnoc(t, i, q[1..], m);
      assert (q + [m])[0] == q[0] && (q + [m])[1..] == q[1..] + [m];
      Associative(BytesOf(t, i, q[0]), BytesFor(t, i, q[1..]), BytesOf(t, i, m));
    }
  }

  /** The messages of a queue that are for slot `i`, in order. */
  function MessagesFor(t: seq<Slot>, i: nat, q: seq<MsgToSend>): (r: seq<Message>)
    requires TableOk(t) && AllOk(q)
  {
    if q == [] then []
    else if i in Recipients(t, q[0]) then [Content(q[0].message)] + MessagesFor(t, i, q[1..])
    else MessagesFor(t, i, q[1..])
  }

  lemma {:induction false} BytesAreFrames(t: seq<Slot>, i: nat, q: seq<MsgToSend>)
    requires TableOk(t) && AllOk(q)
    ensures AllFit(MessagesFor(t, i, q)) && BytesFor(t, i, q) == Frames(MessagesFor(t, i, q))
  {
    hide Frame, Recipients, Content, TableOk, Fits, WellBuilt;
    if q != [] {
      BytesAreFrames(t, i, q[1..]);
      HeaderThenBodyIsFrame(q[0].message);
      var later := MessagesFor(t, i, q[1..]);
      if i in Recipients(t, q[0]) {
        FramesCons(Content(q[0].message), later);
      } else {
        assert [] + BytesFor(t, i, q[1..]) == BytesFor(t, i, q[1..]);
      }
    }
  }

  lemma FramesCons(m: Message, ms: seq<Message>)
    requires Fits(m) && AllFit(ms)
    ensures AllFit([m] + ms) && Frames([m] + ms) == Frame(m) + Frames(ms)
  {
    hide Frame;
    assert ([m] + ms)[1..] == ms;
  }

  /** From the queue to the client: what slot `i` is sent is received as the messages that are for
      it, all of them in order and nothing else. */
  lemma ClientReceivesItsMessages(t: seq<Slot>, i: nat, q: seq<MsgToSend>)
    requires TableOk(t) && AllOk(q)
    ensures AllFit(MessagesFor(t, i, q))
    ensures DecodeAll(BytesFor(t, i, q)) == (CarriedAll(MessagesFor(t, i, q)), [])
  {
    hide BytesFor, MessagesFor, Frames;
    BytesAreFrames(t, i, q);
    var ms := MessagesFor(t, i, q);
    StreamRoundTrip(ms, []);
    assert Frames(ms) + [] == Frames(ms);
    assert CarriedAll(ms) + [] == CarriedAll(ms);
  }

  /** No client's connection fails on its own. */
  ghost predicate AllReliable(clients: ClientsContainer)
    requires clients.Connected()
    reads clients.clientsArr
  {
    forall i :: 0 <= i < clients.clientsArr.Length && clients.clientsArr[i].isValid ==>
      clients.clientsArr[i].clientSocket.reliable
  }

  /** The socket of some recipient of `m` is closed. */
  ghost predicate ForClosed(clients: ClientsContainer, m: MsgToSend)
    requires TableOk(clients.Table()) && MsgOk(m) && clients.Connected()
    reads clients.clientsArr, clients.SocketsInUse()`closed
  {
    exists i :: 0 <= i < clients.clientsArr.Length && clients.clientsArr[i].isValid
      && clients.clientsArr[i].clientSocket.closed
                && i in Recipients(clients.Table(), m)
  }

  /** The connection of some recipient of `m` is down. */
  ghost predicate ForDown(clients: ClientsContainer, m: MsgToSend)
    requires TableOk(clients.Table()) && MsgOk(m) && clients.Connected()
    reads clients.clientsArr, clients.SocketsInUse()`closed
  {
    exists i :: 0 <= i < clients.clientsArr.Length && clients.clientsArr[i].isValid
      && !clients.clientsArr[i].clientSocket.Up()
                && i in Recipients(clients.Table(), m)
  }

  lemma DownIsClosed(clients: ClientsContainer, m: MsgToSend)
    requires TableOk(clients.Table()) && MsgOk(m) && clients.Connected() && AllReliable(clients)
    ensures ForDown(clients, m) <==> ForClosed(clients, m)
  {
    hide TableOk, MsgOk, Recipients;
  }

  /** No message of `q` is for a closed socket. */
  ghost predicate NoneForClosed(clients: ClientsContainer, q: seq<MsgToSend>)
    requires TableOk(clients.Table()) && AllOk(q) && clients.Connected()
    reads clients.clientsArr, clients.SocketsInUse()`closed
  {
    forall j :: 0 <= j < |q| ==> !ForClosed(clients, q[j])
  }

  /** All that was sent to the client of slot `i`. */
  ghost function Log(clients: ClientsContainer, i: nat): (r: seq<byte>)
    requires i < clients.clientsArr.Length
    reads clients.clientsArr, clients.SocketsInUse()`wire
  {
    if clients.clientsArr[i].isValid && clients.clientsArr[i].clientSocket != null
    then clients.clientsArr[i].clientSocket.wire else []
  }

  ghost function Logs(clients: ClientsContainer): (l: seq<seq<byte>>)
    reads clients.clientsArr, clients.SocketsInUse()
    ensures |l| == clients.clientsArr.Length && forall i :: 0 <= i < |l| ==> l[i] == Log(clients, i)
  {
    seq(clients.clientsArr.Length, i requires 0 <= i < clients.clientsArr.Length
                                     reads clients.clientsArr, clients.SocketsInUse() => Log(clients, i))
  }

  /** Since `start`, every client was sent exactly its bytes of the messages `q`. */
  ghost predicate Served(clients: ClientsContainer, start: seq<seq<byte>>, q: seq<MsgToSend>)
    requires TableOk(clients.Table()) && AllOk(q) && |start| == clients.clientsArr.Length
    reads clients.clientsArr, clients.SocketsInUse()`wire
  {
    forall i :: 0 <= i < clients.clientsArr.Length && clients.clientsArr[i].isValid ==>
      Log(clients, i) == start[i] + BytesFor(clients.Table(), i, q)
  }

  /** Since `start`, every client was sent its bytes of the messages `q` and perhaps a first part
      of its bytes of `m`. */
  ghost predicate CutOff(clients: ClientsContainer, start: seq<seq<byte>>, q: seq<MsgToSend>, m: MsgToSend)
    requires TableOk(clients.Table()) && AllOk(q) && MsgOk(m) && |start| == clients.clientsArr.Length
    reads clients.clientsArr, clients.SocketsInUse()`wire
  {
    forall i :: 0 <= i < clients.clientsArr.Length && clients.clientsArr[i].isValid ==>
      Between(start[i] + BytesFor(clients.Table(), i, q), Log(clients, i), BytesOf(clients.Table(), i, m))
  }

  /** When every client was sent its bytes of one more message. */
  lemma ServedOneMore(clients: ClientsContainer, start: seq<seq<byte>>, before: seq<seq<byte>>,
                      q: seq<MsgToSend>, m: MsgToSend)
    requires TableOk(clients.Table()) && AllOk(q) && MsgOk(m) && |start| == |before| == clients.clientsArr.Length
    requires forall i :: 0 <= i < clients.clientsArr.Length && clients.clientsArr[i].isValid ==>
               before[i] == start[i] + BytesFor(clients.Table(), i, q)
    requires forall i :: 0 <= i < clients.clientsArr.Length && clients.clientsArr[i].isValid ==>
               Log(clients, i) == before[i] + BytesOf(clients.Table(), i, m)
    ensures AllOk(q + [m]) && Served(clients, start, q + [m])
  {
    hide BytesOf, BytesFor, Log, TableOk;
    forall i | 0 <= i < clients.clientsArr.Length && clients.clientsArr[i].isValid
      ensures Log(clients, i) == start[i] + BytesFor(clients.Table(), i, q + [m])
    {
      BytesForSnoc(clients.Table(), i, q, m);
    }
  }

  /** By the types of the objects, the queue shares none with the table or the sockets. */
  lemma AlwaysApart(clients: ClientsContainer)
    ensures clients !in clients.sendQueue.Repr() && clients.clientsArr !in clients.sendQueue.Repr()
    ensures forall s :: s in clients.SocketsInUse() && s != null ==> s !in clients.sendQueue.Repr()
  {
  }

  lemma AllOkParts(done: seq<MsgToSend>, m: MsgToSend, rest: seq<MsgToSend>)
    requires AllOk(done + ([m] + rest))
    ensures MsgOk(m) && AllOk(rest)
  {
    var q := done + ([m] + rest);
    assert q[|done|] == m;
    assert forall i :: 0 <= i < |rest| ==> rest[i] == q[|done| + 1 + i];
  }

  lemma NothingServed(clients: ClientsContainer)
    requires clients.Valid() && clients.Connected()
    ensures TableOk(clients.Table()) && AllOk([]) && Served(clients, Logs(clients), []) && NoneForClosed(clients, [])
  {
  }

  /** The sender ended on a failed send: the message it had in hand, for a connection that is down,
      is gone from the queue, and no client got more than its bytes of the messages up to that one. */
  ghost predicate EndedBySend(clients: ClientsContainer, start: seq<seq<byte>>, queued: seq<MsgToSend>,
                              rest: seq<MsgToSend>)
    requires TableOk(clients.Table()) && AllOk(queued) && |start| == clients.clientsArr.Length && clients.Connected()
    reads clients.clientsArr, clients.SocketsInUse()
  {
    && |rest| < |queued|
    && var n := |queued| - |rest| - 1;
       && rest == queued[n + 1..] && NoneForClosed(clients, queued[..n])
       && ForDown(clients, queued[n]) && CutOff(clients, start, queued[..n], queued[n])
  }

  lemma EndsHere(clients: ClientsContainer, start: seq<seq<byte>>, done: seq<MsgToSend>, m: MsgToSend,
                 rest: seq<MsgToSend>)
    requires TableOk(clients.Table()) && AllOk(done + ([m] + rest)) && |start| == clients.clientsArr.Length
    requires AllOk(done) && MsgOk(m) && clients.Connected()
    requires CutOff(clients, start, done, m) && ForDown(clients, m) && NoneForClosed(clients, done)
    ensures EndedBySend(clients, start, done + ([m] + rest), rest)
  {
    hide CutOff, ForDown, NoneForClosed, TableOk;
    var queued := done + ([m] + rest);
    assert queued[..|done|] == done && queued[|done|] == m && queued[|done| + 1..] == rest;
  }

  lemma OneMoreUnclosed(clients: ClientsContainer, q: seq<MsgToSend>, m: MsgToSend)
    requires TableOk(clients.Table()) && AllOk(q) && MsgOk(m) && AllOk(q + [m]) && clients.Connected()
    requires NoneForClosed(clients, q) && !ForClosed(clients, m)
    ensures NoneForClosed(clients, q + [m])
  {
    hide ForClosed, TableOk;
  }

  /** With reliable connections a send fails only on a socket the program itself has closed. */
  lemma FailsForClosed(clients: ClientsContainer, start: seq<seq<byte>>, queued: seq<MsgToSend>, rest: seq<MsgToSend>)
    requires TableOk(clients.Table()) && AllOk(queued) && |start| == clients.clientsArr.Length && clients.Connected()
    requires EndedBySend(clients, start, queued, rest) && AllReliable(clients)
    ensures !NoneForClosed(clients, queued)
  {
    hide ForClosed, ForDown, CutOff, TableOk, AllReliable;
    DownIsClosed(clients, queued[|queued| - |rest| - 1]);
  }

  /** One message of the drain, with `done` before it and `rest` behind it. */
  method SendNext(clients: ClientsContainer, m: MsgToSend, ghost start: seq<seq<byte>>,
                  ghost done: seq<MsgToSend>, ghost rest: seq<MsgToSend>)
    returns (ok: bool)
    requires clients.Valid() && clients.Connected() && AllOk(done) && AllOk(done + ([m] + rest))
    requires TableOk(clients.Table()) && |start| == clients.clientsArr.Length
    requires Served(clients, start, done) && NoneForClosed(clients, done)
    modifies clients.SocketsInUse()`wire
    ensures ok ==> AllOk(done + [m]) && Served(clients, start, done + [m]) && NoneForClosed(clients, done + [m])
    ensures !ok ==> EndedBySend(clients, start, done + ([m] + rest), rest)
  {
    hide TableOk, CountValid, BytesFor, BytesOf, Recipients, AllOk, NoneForClosed, EndedBySend;
    AllOkParts(done, m, rest);
    ghost var before := Logs(clients);
    ok := clients.SendMsgToDests(m);
    if ok {
      ServedOneMore(clients, start, before, done, m);
      OneMoreUnclosed(clients, done, m);
    } else {
      EndsHere(clients, start, done, m, rest);
    }
  }

  /** `RunSender`: everything queued goes to exactly its recipients, in the order of the queue,
      before the thread waits; a wake-up with the exit flag up ends it, and so does a failed send. */
  method RunSender(clients: ClientsContainer) returns (exit: SenderExit)
    requires clients.Valid() && clients.Connected()
    requires clients.sendQueue.Valid() && AllOk(clients.sendQueue.Contents())
    modifies clients`sendMsgsEvent, clients.sendQueue.Repr(), clients.SocketsInUse()`wire
    ensures clients.sendQueue.Valid() && clients.Valid()
    ensures exit == SENDER_THREAD_SEND_FAILED ==>
              EndedBySend(clients, old(Logs(clients)), old(clients.sendQueue.Contents()), clients.sendQueue.Contents())
    ensures exit != SENDER_THREAD_SEND_FAILED ==>
              && Served(clients, old(Logs(clients)), old(clients.sendQueue.Contents()))
              && clients.sendQueue.Contents() == [] && !clients.sendMsgsEvent
              && exit == if old(clients.sendMsgsEvent) && clients.exitSender then SENDER_THREAD_TERMINATED_BY_MAIN
                         else BLOCKED_ON_EVENT
    ensures AllReliable(clients) ==>
              (exit == SENDER_THREAD_SEND_FAILED <==> !old(NoneForClosed(clients, clients.sendQueue.Contents())))
  {
    AlwaysApart(clients);
    NothingServed(clients);
    ghost var start, queued := Logs(clients), clients.sendQueue.Contents();
    exit := DrainLoop(clients, start);
    hide TableOk, CountValid, AllOk, Served, EndedBySend, NoneForClosed, AllReliable, ClientsContainer.Connected;
    if exit == SENDER_THREAD_SEND_FAILED && AllReliable(clients) {
      FailsForClosed(clients, start, queued, clients.sendQueue.Contents());
    }
  }

  /** One turn of `RunSender` up to its wait: the oldest message is taken off the queue and sent. */
  method SendOldest(clients: ClientsContainer, ghost start: seq<seq<byte>>, ghost done: seq<MsgToSend>)
    returns (isEmpty: bool, sent: bool, ghost done': seq<MsgToSend>)
    requires clients.Valid() && clients.Connected() && TableOk(clients.Table())
    requires clients !in clients.sendQueue.Repr() && clients.clientsArr !in clients.sendQueue.Repr()
    requires forall s :: s in clients.SocketsInUse() && s != null ==> s !in clients.sendQueue.Repr()
    requires clients.sendQueue.Valid() && AllOk(done) && AllOk(done + clients.sendQueue.Contents())
    requires |start| == clients.clientsArr.Length && Served(clients, start, done) && NoneForClosed(clients, done)
    modifies clients.sendQueue.Repr(), clients.SocketsInUse()`wire
    ensures clients.sendQueue.Valid() && clients.sendQueue.Repr() <= old(clients.sendQueue.Repr())
    ensures clients.Valid() && clients.Connected() && TableOk(clients.Table())
    ensures isEmpty <==> old(clients.sendQueue.Contents()) == []
    ensures isEmpty ==> clients.sendQueue.Contents() == []
    ensures !isEmpty ==> |clients.sendQueue.Contents()| < |old(clients.sendQueue.Contents())|
    ensures isEmpty || sent ==> done' + clients.sendQueue.Contents() == done + old(clients.sendQueue.Contents())
    ensures isEmpty || sent ==> AllOk(done') && Served(clients, start, done') && NoneForClosed(clients, done')
    ensures !isEmpty && !sent ==>
              EndedBySend(clients, start, done + old(clients.sendQueue.Contents()), clients.sendQueue.Contents())
  {
    hide Served, CutOff, EndedBySend, ForClosed, ForDown, NoneForClosed, Log, Logs, BytesFor, AllOk, TableOk,
         CountValid;
    hide SynchronizedQueue.SynchronizedQueue.Valid, SynchronizedQueue.SynchronizedQueue.Contents;
    hide ClientsContainer.Valid, ClientsContainer.Connected, ClientsContainer.Table;
    done' := done;
    sent := false;
    var msg;
    isEmpty, msg := clients.sendQueue.Dequeue();
    if !isEmpty {
      label BeforeSend:
      sent := SendNext(clients, msg.value, start, done, clients.sendQueue.Contents());
      assert unchanged@BeforeSend(clients.sendQueue.Repr());
      done' := done + [msg.value];
    }
  }

  /** The endless loop of `RunSender`. */
  method DrainLoop(clients: ClientsContainer, ghost start: seq<seq<byte>>) returns (exit: SenderExit)
    requires clients.Valid() && clients.Connected() && TableOk(clients.Table())
    requires clients !in clients.sendQueue.Repr() && clients.clientsArr !in clients.sendQueue.Repr()
    requires forall s :: s in clients.SocketsInUse() && s != null ==> s !in clients.sendQueue.Repr()
    requires clients.sendQueue.Valid() && AllOk(clients.sendQueue.Contents())
    requires |start| == clients.clientsArr.Length && Served(clients, start, [])
    modifies clients`sendMsgsEvent, clients.sendQueue.Repr(), clients.SocketsInUse()`wire
    ensures clients.sendQueue.Valid() && clients.Valid() && TableOk(clients.Table())
    ensures exit == SENDER_THREAD_SEND_FAILED ==>
              EndedBySend(clients, start, old(clients.sendQueue.Contents()), clients.sendQueue.Contents())
    ensures exit != SENDER_THREAD_SEND_FAILED ==>
              && Served(clients, start, old(clients.sendQueue.Contents()))
              && NoneForClosed(clients, old(clients.sendQueue.Contents()))
              && clients.sendQueue.Contents() == [] && !clients.sendMsgsEvent
              && exit == if old(clients.sendMsgsEvent) && clients.exitSender then SENDER_THREAD_TERMINATED_BY_MAIN
                         else BLOCKED_ON_EVENT
  {
    hide Served, CutOff, EndedBySend, ForClosed, ForDown, NoneForClosed, Log, Logs, BytesFor, AllOk, TableOk,
         CountValid;
    hide SynchronizedQueue.SynchronizedQueue.Valid, SynchronizedQueue.SynchronizedQueue.Contents;
    hide ClientsContainer.Valid, ClientsContainer.Connected, ClientsContainer.Table;
    NothingServed(clients);
    ghost var queued := clients.sendQueue.Contents();
    ghost var done: seq<MsgToSend> := [];
    assert queued == done + queued;
    while true
      invariant clients.sendQueue.Valid() && clients.sendQueue.Repr() <= old(clients.sendQueue.Repr())
      invariant queued == done + clients.sendQueue.Contents() && AllOk(queued) && AllOk(done)
      invariant clients.sendMsgsEvent ==> old(clients.sendMsgsEvent)
      invariant old(clients.sendMsgsEvent) && !clients.sendMsgsEvent ==> !clients.exitSender
      invariant clients.Valid() && clients.Connected() && TableOk(clients.Table())
      invariant clients.SocketsInUse() == old(clients.SocketsInUse())
      invariant Served(clients, start, done) && NoneForClosed(clients, done)
      decreases |clients.sendQueue.Contents()|, clients.sendMsgsEvent
    {
      var isEmpty, sent;
      isEmpty, sent, done := SendOldest(clients, start, done);
      if isEmpty {
        assert done == queued;
        if !clients.sendMsgsEvent {
          return BLOCKED_ON_EVENT;
        }
        clients.sendMsgsEvent := false;
        if clients.exitSender {
          return SENDER_THREAD_TERMINATED_BY_MAIN;
        }
      } else if !sent {
        return SENDER_THREAD_SEND_FAILED;
      }
    }
  }
}

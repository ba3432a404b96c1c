/** Who is sent what. Every step keeps: the names of the sessions are those in the table and in the
    messages, and what a session was sent and is still owed is exactly what it is due. */
module Delivery {
  import opened Common
  import opened Protocol
  import opened ClientTable
  import opened SystemMessages
  import opened ChatServer
  import opened Invariants
  import opened MessageParser

  // ---- Names ----

  /** A live session's name is the one in its slot. */
  predicate NameOf(s: State, k: nat)
    requires k < |s.sessions|
  {
    var session := s.sessions[k];
    && |session.name| <= USERNAME_MAXLENGTH
    && (session.pc != Reaped ==> session.slot < |s.table| && Name(s.table[session.slot]) == session.name)
  }

  /** The message is the one for its kind and the name of its origin. */
  predicate MessageOf(sessions: seq<Session>, e: Entry) {
    && e.origin < |sessions| && |sessions[e.origin].name| <= USERNAME_MAXLENGTH
    && e.msg == SystemMessage(e.kind, sessions[e.origin].name)
  }

  predicate NameInv(s: State) {
    && (forall k :: 0 <= k < |s.sessions| ==> NameOf(s, k))
    && (forall i :: 0 <= i < |s.enqueued| ==> MessageOf(s.sessions, s.enqueued[i]))
  }

  /** What stays the same from login to reaping. */
  predicate SameLife(a: Session, b: Session) {
    b.slot == a.slot && b.name == a.name && b.since == a.since && b.upTo == a.upTo
      && (a.pc == Reaped ==> b.pc == Reaped)
  }

  /** No session but, possibly, one new one differs in these. */
  predicate LivesGoOn(s: State, s': State) {
    |s.sessions| <= |s'.sessions| && forall k :: 0 <= k < |s.sessions| ==> SameLife(s.sessions[k], s'.sessions[k])
  }

  /** A step that enqueues `said`, whose session has its name in its slot. */
  predicate Spoke(s: State, s': State, k: nat, said: seq<Entry>)
    requires k < |s.sessions| && s.sessions[k].slot < |s.table|
  {
    && |said| <= 1 && s'.enqueued == s.enqueued + said && s'.queue == s.queue + said
    && (said != [] ==>
          said[0].origin == k && said[0].msg == SystemMessage(said[0].kind, Name(s.table[s.sessions[k].slot])))
  }

  lemma HandlerSpeaks(s: State, k: nat, h: HandlerAction) returns (said: seq<Entry>)
    requires Sound(s) && HandlerEnabled(s, k, h)
    ensures Spoke(s, ApplyHandler(s, k, h), k, said)
  {
    hide EnqueueFor, SystemMessage, Sound, RequestOf;
    var s' := ApplyHandler(s, k, h);
    if s'.queue == s.queue {
      assert s.queue + [] == s.queue && s.enqueued + [] == s.enqueued;
      said := [];
      match h
      case EnqueueWelcome => EnqueueIsFramed(s, k, Welcome, Welcomed);
      case EnqueueJoined => EnqueueIsFramed(s, k, Joined, Announced);
      case HandleMessage(m) => EnqueueIsFramed(s, k, Left, Leaving);
      case _ =>
    } else {
      match h
      case EnqueueWelcome => said := EnqueueSays(s, k, Welcome, Welcomed);
      case EnqueueJoined => said := EnqueueSays(s, k, Joined, Announced);
      case HandleMessage(m) => said := EnqueueSays(s, k, Left, Leaving);
    }
  }

  lemma EnqueueSays(s: State, k: nat, kind: Kind, pc: SessionPc) returns (said: seq<Entry>)
    requires Sound(s) && k < |s.sessions| && s.sessions[k].pc != Reaped && pc != Reaped
    ensures said != [] && Spoke(s, EnqueueFor(s, k, kind, pc), k, said)
  {
    hide SystemMessage;
    said := [EnqueueFor(s, k, kind, pc).queue[|s.queue|]];
  }

  lemma MainLivesGoOn(s: State, m: MainAction)
    requires MainEnabled(s, m)
    ensures LivesGoOn(s, ApplyMain(s, m))
  {
    hide Validate, Login, FirstFree, NewSession, SlotAt, ValidSlots;
  }

  lemma StepLivesGoOn(s: State, a: Action)
    requires Sound(s) && Enabled(s, a)
    ensures LivesGoOn(s, Apply(s, a))
  {
    hide Sound, ApplyHandler, ApplySender, ApplyMain;
    match a
    case MainStep(m) => MainLivesGoOn(s, m);
    case HandlerStep(k, h) => HandlerIsFramed(s, k, h);
    case SenderStep => SenderIsFramed(s);
    case SendFails =>
  }

  lemma EntriesKept(s: State, s': State)
    requires NameInv(s) && LivesGoOn(s, s') && s'.enqueued == s.enqueued
    ensures forall i :: 0 <= i < |s'.enqueued| ==> MessageOf(s'.sessions, s'.enqueued[i])
  {
    hide SystemMessage;
    forall i | 0 <= i < |s'.enqueued|
      ensures MessageOf(s'.sessions, s'.enqueued[i])
    {
      assert MessageOf(s.sessions, s.enqueued[i]);
    }
  }

  /** A step that leaves the table alone and enqueues nothing. */
  lemma NameFrame(s: State, s': State)
    requires NameInv(s) && LivesGoOn(s, s') && |s'.sessions| == |s.sessions|
    requires s'.table == s.table && s'.enqueued == s.enqueued
    ensures NameInv(s')
  {
    hide Name;
    EntriesKept(s, s');
    forall k | 0 <= k < |s'.sessions|
      ensures NameOf(s', k)
    {
      assert NameOf(s, k);
    }
  }

  lemma NameHandler(s: State, k: nat, h: HandlerAction)
    requires NameInv(s) && Sound(s) && HandlerEnabled(s, k, h)
    ensures NameInv(ApplyHandler(s, k, h))
  {
    hide Name, SystemMessage, ApplyHandler, Sound;
    assert s.sessions[k].slot < |s.table| by { SoundSlots(s, k); }
    HandlerIsFramed(s, k, h);
    var said := HandlerSpeaks(s, k, h);
    NameSpoken(s, ApplyHandler(s, k, h), k, said);
  }

  lemma NameSpoken(s: State, s': State, k: nat, said: seq<Entry>)
    requires NameInv(s) && k < |s.sessions| && s.sessions[k].slot < |s.table| && s.sessions[k].pc != Reaped
    requires LivesGoOn(s, s') && |s'.sessions| == |s.sessions| && s'.table == s.table && Spoke(s, s', k, said)
    ensures NameInv(s')
  {
    hide Name, SystemMessage;
    assert NameOf(s, k);
    forall i | 0 <= i < |s'.enqueued|
      ensures MessageOf(s'.sessions, s'.enqueued[i])
    {
      assert i < |s.enqueued| ==> s'.enqueued[i] == s.enqueued[i] && MessageOf(s.sessions, s.enqueued[i]);
    }
    forall j | 0 <= j < |s'.sessions|
      ensures NameOf(s', j)
    {
      assert NameOf(s, j);
    }
  }

  lemma SoundSlots(s: State, k: nat)
    requires Sound(s) && k < |s.sessions|
    ensures s.sessions[k].slot < |s.table|
  {
  }

  lemma NameLogin(s: State, request: Option<Decoded>)
    requires NameInv(s) && TableInv(s)
    ensures NameInv(Connected(s, request))
  {
    hide Validate, FirstFree, CountValid, SystemMessage;
    var s' := Connected(s, request);
    assert LivesGoOn(s, s') by { ConnectedIsFramed(s, request); }
    EntriesKept(s, s');
    forall k | 0 <= k < |s'.sessions|
      ensures NameOf(s', k)
    {
      if k < |s.sessions| {
        assert NameOf(s, k) && SlotOf(s, k);
      }
    }
  }

  lemma NameReap(s: State, p: nat)
    requires NameInv(s) && TableInv(s) && MainEnabled(s, ReapThread(p))
    ensures NameInv(Reap(s, p))
  {
    hide CountValid, ValidSlots, SystemMessage;
    var s' := Reap(s, p);
    var i, j := SlotAt(s, p), ThreadAt(s, p).value;
    EntriesKept(s, s');
    forall k | 0 <= k < |s'.sessions|
      ensures NameOf(s', k)
    {
      assert NameOf(s, k) && SlotOf(s, k) && ThreadOf(s, i);
    }
  }

  lemma NameKept(s: State, a: Action)
    requires NameInv(s) && TableInv(s) && Sound(s) && Enabled(s, a)
    ensures NameInv(Apply(s, a))
  {
    hide NameInv, TableInv, Sound, LivesGoOn;
    StepLivesGoOn(s, a);
    match a
    case MainStep(m) =>
      if m.HandleConnection? {
        NameLogin(s, m.request);
      } else if m.ReapThread? {
        NameReap(s, m.position);
      } else {
        NameFrame(s, Apply(s, a));
      }
    case HandlerStep(k, h) => NameHandler(s, k, h);
    case SenderStep =>
      SenderIsFramed(s);
      NameFrame(s, Apply(s, a));
    case SendFails => NameFrame(s, Apply(s, a));
  }

  /** Two live sessions have different names, unless both have none. */
  lemma LiveNamesDiffer(s: State, j: nat, k: nat)
    requires NameInv(s) && TableInv(s) && NamesDiffer(s.table)
    requires j < |s.sessions| && k < |s.sessions| && j != k
    requires s.sessions[j].pc != Reaped && s.sessions[k].pc != Reaped && s.sessions[k].name != []
    ensures s.sessions[j].name != s.sessions[k].name
  {
    hide CountValid, SystemMessage;
    assert NameOf(s, j) && NameOf(s, k) && SlotOf(s, j) && SlotOf(s, k);
    var a, b := s.sessions[j].slot, s.sessions[k].slot;
    assert a != b;
    if Name(s.table[a]) == Name(s.table[b]) {
      SameNameSameField(s.table[a], s.table[b]);
    }
  }

  // ---- Closed sockets ----

  /** The server closes the sockets of refused logins and of clients that quit. A refused session
      gets no message of its client. */
  predicate ClosedOf(session: Session) {
    && (session.closed <==> session.name == [] || session.pc == Ended || session.pc == Reaped)
    && (session.name == [] ==> session.pc in {Starting, Welcomed, Announced, Receiving, Crashed})
  }

  predicate ClosedInv(s: State) {
    forall k :: 0 <= k < |s.sessions| ==> ClosedOf(s.sessions[k])
  }

  lemma ClosedHandler(s: State, k: nat, h: HandlerAction)
    requires ClosedInv(s) && Sound(s) && HandlerEnabled(s, k, h)
    ensures ClosedInv(ApplyHandler(s, k, h))
  {
    hide SystemMessage, RequestOf, Sound;
  }

  lemma ClosedMain(s: State, m: MainAction)
    requires ClosedInv(s) && MainEnabled(s, m)
    ensures ClosedInv(ApplyMain(s, m))
  {
    hide Validate, Login, FirstFree, SlotAt, ValidSlots;
  }

  lemma ClosedKept(s: State, a: Action)
    requires ClosedInv(s) && Sound(s) && Enabled(s, a)
    ensures ClosedInv(Apply(s, a))
  {
    hide Sound, ApplyHandler, ApplyMain, ApplySender;
    match a
    case MainStep(m) => ClosedMain(s, m);
    case HandlerStep(k, h) => ClosedHandler(s, k, h);
    case SenderStep => SenderIsFramed(s);
    case SendFails =>
  }

  // ---- What a session is due ----

  /** The messages of a history that a name passes the test for, in order. */
  function WantedFrom(name: seq<byte>, q: seq<Entry>): (w: seq<Entry>)
  {
    if q == [] then []
    else if Passes(name, q[0].msg) then [q[0]] + WantedFrom(name, q[1..])
    else WantedFrom(name, q[1..])
  }

  lemma {:induction false} WantedConcat(name: seq<byte>, a: seq<Entry>, b: seq<Entry>)
    ensures WantedFrom(name, a + b) == WantedFrom(name, a) + WantedFrom(name, b)
  {
    hide Passes;
    if a == [] {
      assert a + b == b;
    } else {
      WantedConcat(name, a[1..], b);
      assert (a + b)[0] == a[0] && (a + b)[1..] == a[1..] + b;
      Associative([a[0]], WantedFrom(name, a[1..]), WantedFrom(name, b));
    }
  }

  /** The message in hand, while the slot of the session has not been passed over. */
  function StillComing(s: State, slot: nat): (q: seq<Entry>) {
    (if InHand(s) && s.sender.next <= slot then [s.sender.entry] else []) + s.queue
  }

  /** What a live session has still to get. */
  function Owed(s: State, k: nat): (q: seq<Entry>)
    requires k < |s.sessions|
  {
    WantedFrom(s.sessions[k].name, StillComing(s, s.sessions[k].slot))
  }

  /** What a live session was sent, and then what it is owed, are all the messages that it is due. */
  predicate Accounted(s: State, k: nat)
    requires k < |s.sessions|
  {
    var session := s.sessions[k];
    session.since <= |s.enqueued| &&
    (session.pc != Reaped ==> session.wire + Owed(s, k) == WantedFrom(session.name, s.enqueued[session.since..]))
  }

  /** A step after which `said` is coming as well, and one message at most went on the wire. */
  lemma AccountedAfter(s: State, s': State, k: nat, said: seq<Entry>)
    requires k < |s.sessions| && k < |s'.sessions| && Accounted(s, k) && SameLife(s.sessions[k], s'.sessions[k])
    requires s'.enqueued == s.enqueued + said
    requires s'.sessions[k].pc != Reaped ==>
               s'.sessions[k].wire + Owed(s', k) == s.sessions[k].wire + Owed(s, k)
                 + WantedFrom(s.sessions[k].name, said)
    ensures Accounted(s', k)
  {
    hide WantedFrom, Owed;
    var session := s.sessions[k];
    WantedConcat(session.name, s.enqueued[session.since..], said);
    assert s'.enqueued[session.since..] == s.enqueued[session.since..] + said;
  }

  lemma OwedGrows(s: State, s': State, k: nat, said: seq<Entry>)
    requires k < |s.sessions| && k < |s'.sessions| && SameLife(s.sessions[k], s'.sessions[k])
    requires s'.sender == s.sender && s'.queue == s.queue + said
    ensures Owed(s', k) == Owed(s, k) + WantedFrom(s.sessions[k].name, said)
  {
    hide WantedFrom;
    var slot := s.sessions[k].slot;
    assert StillComing(s', slot) == StillComing(s, slot) + said;
    WantedConcat(s.sessions[k].name, StillComing(s, slot), said);
  }

  lemma AccountedHandler(s: State, j: nat, h: HandlerAction, k: nat)
    requires k < |s.sessions| && Accounted(s, k) && Sound(s) && HandlerEnabled(s, j, h)
    ensures Accounted(ApplyHandler(s, j, h), k)
  {
    hide WantedFrom, Owed, Accounted, ApplyHandler, SystemMessage, Sound;
    assert s.sessions[j].slot < |s.table| by { SoundSlots(s, j); }
    var s' := ApplyHandler(s, j, h);
    HandlerIsFramed(s, j, h);
    var said := HandlerSpeaks(s, j, h);
    OwedGrows(s, s', k, said);
    Associative(s.sessions[k].wire, Owed(s, k), WantedFrom(s.sessions[k].name, said));
    AccountedAfter(s, s', k, said);
  }

  /** The visit of slot `i` adds its message to the log of the live session there, if it passes. */
  lemma VisitSends(s: State, e: Entry, i: nat, k: nat)
    requires NameInv(s) && TableInv(s) && Sound(s) && i < |s.table| && k < |s.sessions|
    ensures var here := s.sessions[k].pc != Reaped && s.sessions[k].slot == i && Passes(s.sessions[k].name, e.msg);
            Visit(s, e, i).sessions[k].wire == s.sessions[k].wire + if here then [e] else []
  {
    hide Passes, Receives, CountValid, SystemMessage;
    assert NameOf(s, k) && SlotOf(s, k) && ThreadOf(s, i);
    ReceivesIsPasses(s.table[i], e.msg);
  }

  lemma WantedOfOne(name: seq<byte>, e: Entry, q: seq<Entry>)
    ensures WantedFrom(name, [e] + q) == (if Passes(name, e.msg) then [e] else []) + WantedFrom(name, q)
    ensures WantedFrom(name, [e]) == if Passes(name, e.msg) then [e] else []
  {
    hide Passes;
    assert ([e] + q)[1..] == q && [e][1..] == [];
  }

  /** A visit moves the message, if the session is owed it, to the session's log. */
  lemma OwedAtVisit(s: State, k: nat)
    requires NameInv(s) && TableInv(s) && Sound(s) && SenderEnabled(s) && k < |s.sessions| && s.sessions[k].pc != Reaped
    requires s.sender.Sending? && s.sender.next < |s.table|
    ensures ApplySender(s).sessions[k].wire + Owed(ApplySender(s), k) == s.sessions[k].wire + Owed(s, k)
  {
    hide NameInv, TableInv, Sound, WantedFrom, Passes, Receives;
    var s' := ApplySender(s);
    var e, i := s.sender.entry, s.sender.next;
    SenderIsFramed(s);
    VisitSends(s, e, i, k);
    var name, slot := s.sessions[k].name, s.sessions[k].slot;
    var sent := if slot == i && Passes(name, e.msg) then [e] else [];
    assert Owed(s, k) == sent + Owed(s', k) by {
      OwedPastSlot(s, s', k);
    }
    Associative(s.sessions[k].wire, sent, Owed(s', k));
  }

  lemma OwedPastSlot(s: State, s': State, k: nat)
    requires k < |s.sessions| && k < |s'.sessions| && SameLife(s.sessions[k], s'.sessions[k])
    requires s.sender.Sending? && s'.sender == Sending(s.sender.entry, s.sender.next + 1) && s'.queue == s.queue
    ensures Owed(s, k)
         == (if s.sessions[k].slot == s.sender.next && Passes(s.sessions[k].name, s.sender.entry.msg)
             then [s.sender.entry] else [])
            + Owed(s', k)
  {
    hide WantedFrom, Passes;
    var name, slot := s.sessions[k].name, s.sessions[k].slot;
    WantedOfOne(name, s.sender.entry, s.queue);
    if slot == s.sender.next {
      assert StillComing(s', slot) == s.queue;
    } else {
      assert StillComing(s', slot) == StillComing(s, slot);
    }
  }

  lemma OwedBetweenVisits(s: State, k: nat)
    requires Sound(s) && SenderEnabled(s) && k < |s.sessions|
    requires !(s.sender.Sending? && s.sender.next < |s.table|)
    ensures ApplySender(s).sessions == s.sessions && Owed(ApplySender(s), k) == Owed(s, k)
  {
    hide WantedFrom;
    SoundSlots(s, k);
    hide Sound;
    assert StillComing(ApplySender(s), s.sessions[k].slot) == StillComing(s, s.sessions[k].slot);
  }

  /** A step of the sender moves messages from what a live session is owed to its log, and no other way. */
  lemma OwedBecomesSent(s: State, k: nat)
    requires NameInv(s) && TableInv(s) && Sound(s) && SenderEnabled(s) && k < |s.sessions| && s.sessions[k].pc != Reaped
    ensures ApplySender(s).sessions[k].wire + Owed(ApplySender(s), k) == s.sessions[k].wire + Owed(s, k)
  {
    hide NameInv, TableInv, Sound, Owed, ApplySender;
    if s.sender.Sending? && s.sender.next < |s.table| {
      OwedAtVisit(s, k);
    } else {
      OwedBetweenVisits(s, k);
    }
  }

  lemma NothingMore(s: State, s': State, k: nat)
    requires k < |s.sessions| && k < |s'.sessions| && Accounted(s, k) && SameLife(s.sessions[k], s'.sessions[k])
    requires s'.enqueued == s.enqueued
    requires s'.sessions[k].pc != Reaped ==> s'.sessions[k].wire + Owed(s', k) == s.sessions[k].wire + Owed(s, k)
    ensures Accounted(s', k)
  {
    hide Owed, Accounted;
    assert s.enqueued + [] == s.enqueued && WantedFrom(s.sessions[k].name, []) == [];
    var before := s.sessions[k].wire + Owed(s, k);
    assert before + [] == before;
    AccountedAfter(s, s', k, []);
  }

  lemma AccountedSender(s: State, k: nat)
    requires NameInv(s) && TableInv(s) && Sound(s) && SenderEnabled(s) && k < |s.sessions| && Accounted(s, k)
    ensures Accounted(ApplySender(s), k)
  {
    hide NameInv, TableInv, Sound, Owed, Accounted, ApplySender;
    SenderIsFramed(s);
    if s.sessions[k].pc != Reaped {
      OwedBecomesSent(s, k);
    }
    NothingMore(s, ApplySender(s), k);
  }

  /** The main thread, and a failed send, leave what is coming alone. */
  lemma AccountedFrame(s: State, s': State, k: nat)
    requires k < |s.sessions| && k < |s'.sessions| && Accounted(s, k) && SameLife(s.sessions[k], s'.sessions[k])
    requires s'.enqueued == s.enqueued && s'.queue == s.queue && s'.sessions[k].wire == s.sessions[k].wire
    requires s'.sender == s.sender || (s.sender.Sending? && s'.sender == Broken(s.sender.entry, s.sender.next))
    ensures Accounted(s', k)
  {
    hide Accounted, WantedFrom;
    assert StillComing(s', s.sessions[k].slot) == StillComing(s, s.sessions[k].slot);
    NothingMore(s, s', k);
  }

  /** At its login a session is due what is still coming to its slot. */
  lemma AccountedAtLogin(s: State, v: Verdict, i: nat, s': State)
    requires FifoInv(s) && (v.Available? ==> v.length <= |v.name|)
    requires |s'.sessions| == |s.sessions| + 1 && s'.sessions[|s.sessions|] == NewSession(s, v, i)
    requires s'.enqueued == s.enqueued && s'.queue == s.queue && s'.sender == s.sender
    ensures Accounted(s', |s.sessions|)
  {
    hide WantedFrom;
    var session := s'.sessions[|s.sessions|];
    var all := s.delivered + InFlight(s) + s.queue;
    assert all == s.delivered + (InFlight(s) + s.queue);
    assert s.enqueued[session.since..] == StillComing(s', i);
    assert [] + Owed(s', |s.sessions|) == Owed(s', |s.sessions|);
  }

  lemma AccountedMain(s: State, m: MainAction, k: nat)
    requires FifoInv(s) && MainEnabled(s, m) && k < |ApplyMain(s, m).sessions|
    requires forall j :: 0 <= j < |s.sessions| ==> Accounted(s, j)
    ensures Accounted(ApplyMain(s, m), k)
  {
    hide FifoInv, Accounted, ApplyMain;
    MainIsFramed(s, m);
    MainLivesGoOn(s, m);
    if k < |s.sessions| {
      AccountedFrame(s, ApplyMain(s, m), k);
    } else {
      var v, i := LoginOf(s, m);
      AccountedAtLogin(s, v, i, ApplyMain(s, m));
    }
  }

  lemma LoginOf(s: State, m: MainAction) returns (v: Verdict, i: nat)
    requires MainEnabled(s, m) && |ApplyMain(s, m).sessions| > |s.sessions|
    ensures v.Available? ==> v.length <= |v.name|
    ensures ApplyMain(s, m).sessions == s.sessions + [NewSession(s, v, i)]
  {
    hide Validate, Login, FirstFree, NewSession, SlotAt, ValidSlots;
    v, i := Validate(s.table, m.request.value), FirstFree(s.table).value;
  }

  predicate AccountedInv(s: State) {
    forall k :: 0 <= k < |s.sessions| ==> Accounted(s, k)
  }

  lemma AccountedKept(s: State, a: Action)
    requires AccountedInv(s) && NameInv(s) && TableInv(s) && FifoInv(s) && Sound(s) && Enabled(s, a)
    ensures AccountedInv(Apply(s, a))
  {
    hide Accounted, NameInv, TableInv, FifoInv, Sound, ApplyHandler, ApplyMain, ApplySender, DueHere;
    forall k | 0 <= k < |Apply(s, a).sessions|
      ensures Accounted(Apply(s, a), k)
    {
      match a
      case MainStep(m) => AccountedMain(s, m, k);
      case HandlerStep(j, h) =>
        HandlerIsFramed(s, j, h);
        AccountedHandler(s, j, h, k);
      case SenderStep =>
        SenderIsFramed(s);
        AccountedSender(s, k);
      case SendFails =>
        AccountedBroken(s, k);
    }
  }

  lemma AccountedBroken(s: State, k: nat)
    requires DueHere(s) && k < |s.sessions| && Accounted(s, k)
    ensures Accounted(s.(sender := Broken(s.sender.entry, s.sender.next)), k)
  {
    hide Accounted;
    AccountedFrame(s, s.(sender := Broken(s.sender.entry, s.sender.next)), k);
  }

  // ---- What is on the wires ----

  /** All that was sent to a session passes the test for its name, and a refused one got nothing. */
  predicate WirePasses(session: Session) {
    && (forall a :: 0 <= a < |session.wire| ==> Passes(session.name, session.wire[a].msg))
    && (session.name == [] ==> session.wire == [])
  }

  predicate PassInv(s: State) {
    forall k :: 0 <= k < |s.sessions| ==> WirePasses(s.sessions[k])
  }

  /** The sender gets past a slot only if it owes it nothing or its socket is open. */
  lemma VisitIsOpen(s: State, i: nat, k: nat)
    requires NameInv(s) && TableInv(s) && ClosedInv(s) && Sound(s) && SenderEnabled(s)
    requires s.sender.Sending? && s.sender.next == i < |s.table| && k < |s.sessions|
    requires s.sessions[k].pc != Reaped && s.sessions[k].slot == i && Passes(s.sessions[k].name, s.sender.entry.msg)
    ensures s.sessions[k].name != []
  {
    hide Passes, Receives, CountValid, SystemMessage;
    assert NameOf(s, k) && SlotOf(s, k) && ClosedOf(s.sessions[k]);
    ReceivesIsPasses(s.table[i], s.sender.entry.msg);
  }

  lemma PassSender(s: State)
    requires PassInv(s) && NameInv(s) && TableInv(s) && ClosedInv(s) && Sound(s) && SenderEnabled(s)
    ensures PassInv(ApplySender(s))
  {
    hide NameInv, TableInv, ClosedInv, Sound, SenderEnabled, Passes, ApplySender;
    SenderIsFramed(s);
    forall k | 0 <= k < |s.sessions|
      ensures WirePasses(ApplySender(s).sessions[k])
    {
      assert WirePasses(s.sessions[k]);
      WireGrows(s, k);
    }
  }

  lemma WireGrows(s: State, k: nat)
    requires NameInv(s) && TableInv(s) && ClosedInv(s) && Sound(s) && SenderEnabled(s) && k < |s.sessions|
    ensures |ApplySender(s).sessions| == |s.sessions|
    ensures var was, now := s.sessions[k].wire, ApplySender(s).sessions[k].wire;
            now == was || (s.sender.Sending? && now == was + [s.sender.entry] && s.sessions[k].name != []
                           && Passes(s.sessions[k].name, s.sender.entry.msg))
  {
    hide NameInv, TableInv, ClosedInv, Sound, SenderEnabled, Passes;
    SenderIsFramed(s);
    if s.sender.Sending? && s.sender.next < |s.table| {
      var e, i := s.sender.entry, s.sender.next;
      VisitSends(s, e, i, k);
      if s.sessions[k].pc != Reaped && s.sessions[k].slot == i && Passes(s.sessions[k].name, e.msg) {
        VisitIsOpen(s, i, k);
      }
    } else {
      OwedBetweenVisits(s, k);
    }
  }

  lemma PassKept(s: State, a: Action)
    requires PassInv(s) && NameInv(s) && TableInv(s) && ClosedInv(s) && Sound(s) && Enabled(s, a)
    ensures PassInv(Apply(s, a))
  {
    hide NameInv, TableInv, ClosedInv, Sound, Passes, ApplyHandler, ApplyMain, ApplySender;
    match a
    case MainStep(m) => MainIsFramed(s, m);
    case HandlerStep(k, h) => HandlerIsFramed(s, k, h);
    case SenderStep => PassSender(s);
    case SendFails =>
  }

  // ---- Whose messages a session meets ----

  /** What was enqueued up to a session's login is of older sessions. While it lives, and has a
      name, nobody else enqueues under that name. */
  predicate Meets(s: State, k: nat)
    requires k < |s.sessions|
  {
    var session := s.sessions[k];
    && session.since <= session.upTo <= |s.enqueued|
    && (forall i :: 0 <= i < session.upTo ==> s.enqueued[i].origin < k)
    && (session.pc != Reaped && session.name != [] ==>
          forall i :: session.upTo <= i < |s.enqueued| ==> OwnOrOtherName(s.sessions, k, s.enqueued[i].origin))
  }

  predicate OwnOrOtherName(sessions: seq<Session>, k: nat, origin: nat)
    requires k < |sessions|
  {
    origin == k || (origin < |sessions| && sessions[origin].name != sessions[k].name)
  }

  predicate MeetInv(s: State) {
    forall k :: 0 <= k < |s.sessions| ==> Meets(s, k)
  }

  lemma MeetsFrame(s: State, s': State, k: nat)
    requires k < |s.sessions| && Meets(s, k) && LivesGoOn(s, s') && s'.enqueued == s.enqueued
    ensures Meets(s', k)
  {
    forall i | s.sessions[k].upTo <= i < |s'.enqueued| && s'.sessions[k].pc != Reaped && s'.sessions[k].name != []
      ensures OwnOrOtherName(s'.sessions, k, s'.enqueued[i].origin)
    {
      assert OwnOrOtherName(s.sessions, k, s.enqueued[i].origin);
    }
  }

  lemma MeetsHandler(s: State, j: nat, h: HandlerAction, k: nat)
    requires NameInv(s) && TableInv(s) && NamesDiffer(s.table) && Sound(s) && HandlerEnabled(s, j, h)
    requires k < |s.sessions| && Meets(s, k)
    ensures Meets(ApplyHandler(s, j, h), k)
  {
    hide NameInv, TableInv, NamesDiffer, Sound, ApplyHandler, Meets;
    assert s.sessions[j].slot < |s.table| by { SoundSlots(s, j); }
    HandlerIsFramed(s, j, h);
    var said := HandlerSpeaks(s, j, h);
    if s.sessions[k].pc != Reaped && s.sessions[k].name != [] && j != k {
      LiveNamesDiffer(s, j, k);
    }
    hide SystemMessage;
    MeetsAfter(s, ApplyHandler(s, j, h), j, k, said);
  }

  lemma MeetsAfter(s: State, s': State, j: nat, k: nat, said: seq<Entry>)
    requires j < |s.sessions| && k < |s.sessions| && Meets(s, k) && LivesGoOn(s, s') && s'.enqueued == s.enqueued + said
    requires |said| <= 1 && (said != [] ==> said[0].origin == j)
    requires s.sessions[k].pc != Reaped && s.sessions[k].name != [] ==> OwnOrOtherName(s.sessions, k, j)
    ensures Meets(s', k)
  {
    forall i | s.sessions[k].upTo <= i < |s'.enqueued| && s'.sessions[k].pc != Reaped && s'.sessions[k].name != []
      ensures OwnOrOtherName(s'.sessions, k, s'.enqueued[i].origin)
    {
      assert i < |s.enqueued| ==> OwnOrOtherName(s.sessions, k, s.enqueued[i].origin);
    }
  }

  lemma MeetsMain(s: State, m: MainAction, k: nat)
    requires MeetInv(s) && OrderInv(s) && FifoInv(s) && MainEnabled(s, m) && k < |ApplyMain(s, m).sessions|
    ensures Meets(ApplyMain(s, m), k)
  {
    hide ApplyMain;
    MainIsFramed(s, m);
    MainLivesGoOn(s, m);
    if k < |s.sessions| {
      MeetsFrame(s, ApplyMain(s, m), k);
    } else {
      var v, i := LoginOf(s, m);
      assert |s.delivered| + |InFlight(s)| <= |s.enqueued|;
    }
  }

  lemma MeetKept(s: State, a: Action)
    requires MeetInv(s) && NameInv(s) && TableInv(s) && NamesDiffer(s.table) && OrderInv(s) && FifoInv(s)
    requires Sound(s) && Enabled(s, a)
    ensures MeetInv(Apply(s, a))
  {
    hide Meets, NameInv, TableInv, NamesDiffer, OrderInv, FifoInv, Sound, ApplyHandler, ApplyMain, ApplySender,
         LivesGoOn, DueHere;
    StepLivesGoOn(s, a);
    forall k | 0 <= k < |Apply(s, a).sessions|
      ensures Meets(Apply(s, a), k)
    {
      match a
      case MainStep(m) => MeetsMain(s, m, k);
      case HandlerStep(j, h) =>
        HandlerIsFramed(s, j, h);
        MeetsHandler(s, j, h, k);
      case SenderStep =>
        SenderIsFramed(s);
        MeetsFrame(s, Apply(s, a), k);
      case SendFails => MeetsFrame(s, Apply(s, a), k);
    }
  }

  // ---- All of it ----

  predicate DeliveryInv(s: State) {
    NameInv(s) && ClosedInv(s) && AccountedInv(s) && PassInv(s) && MeetInv(s)
  }

  lemma DeliveryKept(s: State, a: Action)
    requires DeliveryInv(s) && TableInv(s) && NamesDiffer(s.table) && OrderInv(s) && FifoInv(s) && Sound(s)
             && Enabled(s, a)
    ensures DeliveryInv(Apply(s, a))
  {
    hide Apply, Enabled, NameInv, ClosedInv, AccountedInv, PassInv, MeetInv, TableInv, NamesDiffer, OrderInv, FifoInv,
         Sound;
    NameKept(s, a);
    ClosedKept(s, a);
    AccountedKept(s, a);
    PassKept(s, a);
    MeetKept(s, a);
  }

  // ---- As meant ----

  /** Every name that was ever accepted is a proper one. */
  predicate ProperSessions(s: State) {
    forall k :: 0 <= k < |s.sessions| ==> s.sessions[k].name == [] || IsCName(s.sessions[k].name)
  }

  /** A welcome is meant for the session that enqueued it, joined and left for all others. */
  predicate MeantFor(k: nat, e: Entry) {
    e.kind == Welcome <==> e.origin == k
  }

  function MeantFrom(k: nat, q: seq<Entry>): (w: seq<Entry>) {
    if q == [] then []
    else if MeantFor(k, q[0]) then [q[0]] + MeantFrom(k, q[1..])
    else MeantFrom(k, q[1..])
  }

  /** The message is of another session that has, or had, the same name. */
  predicate Namesake(s: State, k: nat, e: Entry)
    requires k < |s.sessions|
  {
    e.origin != k && e.origin < |s.sessions| && s.sessions[e.origin].name == s.sessions[k].name
  }

  /** The test for a message does what is meant exactly when no namesake sent it. */
  lemma PassesUnlessNamesake(s: State, k: nat, e: Entry)
    requires ProperSessions(s) && MessageOf(s.sessions, e) && k < |s.sessions| && s.sessions[k].name != []
    ensures Passes(s.sessions[k].name, e.msg)
            <==> (e.kind == Welcome <==> s.sessions[e.origin].name == s.sessions[k].name)
    ensures (Passes(s.sessions[k].name, e.msg) <==> MeantFor(k, e)) <==> !Namesake(s, k, e)
  {
    hide Passes, IsCName, SystemMessage;
    PassesAsMeant(s.sessions[k].name, e.kind, s.sessions[e.origin].name);
  }

  lemma {:induction false} WantedContains(name: seq<byte>, q: seq<Entry>, i: nat)
    requires i < |q|
    ensures q[i] in WantedFrom(name, q) <==> Passes(name, q[i].msg)
  {
    WantedOnly(name, q);
    WantedConcat(name, q[..i], q[i..]);
    WantedOfOne(name, q[i], q[i + 1..]);
    assert q == q[..i] + q[i..] && q[i..] == [q[i]] + q[i + 1..];
  }

  lemma {:induction false} WantedOnly(name: seq<byte>, q: seq<Entry>)
    ensures forall e :: e in WantedFrom(name, q) ==> Passes(name, e.msg)
  {
    hide Passes;
    if q != [] {
      WantedOnly(name, q[1..]);
    }
  }

  lemma {:induction false} MeantOnly(k: nat, q: seq<Entry>)
    ensures forall e :: e in MeantFrom(k, q) ==> MeantFor(k, e)
  {
    if q != [] {
      MeantOnly(k, q[1..]);
    }
  }

  lemma {:induction false} MeantContains(k: nat, q: seq<Entry>, i: nat)
    requires i < |q| && MeantFor(k, q[i])
    ensures q[i] in MeantFrom(k, q)
  {
    if i > 0 {
      MeantContains(k, q[1..], i - 1);
    }
  }

  predicate Agrees(name: seq<byte>, k: nat, e: Entry) {
    Passes(name, e.msg) <==> MeantFor(k, e)
  }

  /** The two selections are the same exactly when they agree on every message. */
  lemma {:induction false} WantedIsMeantIff(name: seq<byte>, k: nat, q: seq<Entry>)
    ensures WantedFrom(name, q) == MeantFrom(k, q) <==> forall i :: 0 <= i < |q| ==> Agrees(name, k, q[i])
  {
    if forall i :: 0 <= i < |q| ==> Agrees(name, k, q[i]) {
      WantedIsMeant(name, k, q);
    } else {
      var i :| 0 <= i < |q| && !Agrees(name, k, q[i]);
      WantedContains(name, q, i);
      MeantOnly(k, q);
      if MeantFor(k, q[i]) {
        MeantContains(k, q, i);
      }
    }
  }

  lemma {:induction false} WantedIsMeant(name: seq<byte>, k: nat, q: seq<Entry>)
    requires forall i :: 0 <= i < |q| ==> Agrees(name, k, q[i])
    ensures WantedFrom(name, q) == MeantFrom(k, q)
  {
    hide Passes, MeantFor;
    if q != [] {
      assert Agrees(name, k, q[0]);
      WantedIsMeant(name, k, q[1..]);
    }
  }

  /** No message of a namesake was still coming when the session logged in. */
  predicate NoStaleNamesake(s: State, k: nat)
    requires k < |s.sessions| && s.sessions[k].since <= s.sessions[k].upTo <= |s.enqueued|
  {
    forall i :: s.sessions[k].since <= i < s.sessions[k].upTo ==> !Namesake(s, k, s.enqueued[i])
  }

  lemma NamesakesAreStale(s: State, k: nat)
    requires k < |s.sessions| && Meets(s, k) && s.sessions[k].pc != Reaped && s.sessions[k].name != []
    ensures NoStaleNamesake(s, k) <==>
            forall i :: s.sessions[k].since <= i < |s.enqueued| ==> !Namesake(s, k, s.enqueued[i])
  {
    forall i | s.sessions[k].upTo <= i < |s.enqueued|
      ensures !Namesake(s, k, s.enqueued[i])
    {
      assert OwnOrOtherName(s.sessions, k, s.enqueued[i].origin);
    }
  }

  /** What a live client was sent and is owed is what is meant for it exactly when, at its login, no
      message of an earlier client of its name was still coming. */
  lemma SentAsMeantIff(s: State, k: nat)
    requires DeliveryInv(s) && ProperSessions(s) && k < |s.sessions|
    requires s.sessions[k].pc != Reaped && s.sessions[k].name != []
    ensures s.sessions[k].since <= s.sessions[k].upTo <= |s.enqueued|
    ensures s.sessions[k].wire + Owed(s, k) == MeantFrom(k, s.enqueued[s.sessions[k].since..])
            <==> NoStaleNamesake(s, k)
  {
    hide ProperSessions, Owed, WantedFrom, MeantFrom, Agrees, Namesake, NoStaleNamesake, NameInv, ClosedInv, PassInv;
    assert Meets(s, k) && Accounted(s, k);
    var session := s.sessions[k];
    WantedIsMeantIff(session.name, k, s.enqueued[session.since..]);
    NamesakesAreStale(s, k);
    AgreeUnlessNamesake(s, k, session.since);
  }

  lemma AgreeUnlessNamesake(s: State, k: nat, from: nat)
    requires NameInv(s) && ProperSessions(s) && k < |s.sessions| && s.sessions[k].name != [] && from <= |s.enqueued|
    ensures (forall i :: 0 <= i < |s.enqueued[from..]| ==> Agrees(s.sessions[k].name, k, s.enqueued[from..][i])) <==>
            (forall i :: from <= i < |s.enqueued| ==> !Namesake(s, k, s.enqueued[i]))
  {
    hide ProperSessions, Passes, MeantFor, Namesake, SystemMessage;
    var q := s.enqueued[from..];
    forall i | 0 <= i < |q|
      ensures Agrees(s.sessions[k].name, k, q[i]) <==> !Namesake(s, k, s.enqueued[from + i])
    {
      assert MessageOf(s.sessions, s.enqueued[from + i]);
      PassesUnlessNamesake(s, k, q[i]);
    }
    assert forall i :: from <= i < |s.enqueued| ==> s.enqueued[i] == q[i - from];
  }
}

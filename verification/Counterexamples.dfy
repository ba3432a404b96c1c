/** Two runs with proper, accepted logins that do not end well: one in which a message goes to the
    wrong client, and one in which the server's own close of a socket stops the sender. */
module Counterexamples {
  import opened Common
  import opened Protocol
  import opened MessageParser
  import MessageSpelling
  import opened ClientTable
  import opened SystemMessages
  import opened ChatServer
  import opened Invariants
  import opened Delivery
  import opened ServerRuns
  import opened LoginRuns

  predicate MayLogIn(name: seq<byte>) {
    IsCName(name) && !StartsWith(name, Bytes("server"))
  }

  /** A login under a proper name that nobody in the table has. */
  lemma LogIn(n: nat, s: State, name: seq<byte>, i: nat) returns (s': State)
    requires Reachable(n, s) && s.main.Serving? && (s.main.first || s.active > 0) && MayLogIn(name)
    requires ProperNames(s.table) && FirstFree(s.table) == Some(i) && !InHand(s)
    requires forall j :: 0 <= j < |s.table| && s.table[j].isValid ==> Name(s.table[j]) != name
    ensures |name| <= USERNAME_MAXLENGTH && i < |s.table| && ClientOk(NamedSlot(name, |s.sessions|))
    ensures Reachable(n, s')
    ensures s' == s.(table := WithSlot(s.table, i, NamedSlot(name, |s.sessions|)), active := s.active + 1,
              main := Serving(false),
              sessions := s.sessions + [Session(i, name, false, Starting, [], [], |s.delivered|, |s.enqueued|)])
  {
    hide Inv, Reachable, ProperNames, IsCName, FirstFree, StartsWith;
    CNameFits(name);
    var request := Decoded(LOGIN_REQUEST, |name|, name);
    LoginVerdictIsExact(s.table, request);
    VerdictOfRefused(s.table, request);
    LoginEndsAsIntendedIff(s, request);
    hide Validate, Refused;
    var a := MainStep(HandleConnection(Some(request)));
    ReachableInv(n, s);
    assert Enabled(s, a);
    ReachableStep(n, s, a);
    s' := Apply(s, a);
  }

  /** A step of a handler, from one reachable state to the next. */
  lemma Handle(n: nat, s: State, k: nat, h: HandlerAction) returns (s': State)
    requires Reachable(n, s) && s.main.Serving? && HandlerEnabled(s, k, h)
    ensures Sound(s) && Reachable(n, s') && s' == ApplyHandler(s, k, h)
  {
    assert k < |s.sessions|;
    hide Inv, Reachable, HandlerEnabled, ApplyHandler, Sound;
    ReachableStep(n, s, HandlerStep(k, h));
    s' := ApplyHandler(s, k, h);
  }

  function WelcomeOf(name: seq<byte>, k: nat): (e: Entry)
    requires |name| <= USERNAME_MAXLENGTH
  {
    Entry(SystemMessage(Welcome, name), k, Welcome)
  }

  /** Nothing but the queue, the event, the history and the session itself changes. */
  predicate OnlySession(s: State, s': State, k: nat, session: Session) {
    && k < |s.sessions| && s'.sessions == s.sessions[k := session]
    && s'.table == s.table && s'.active == s.active && s'.main == s.main && s'.sender == s.sender
       && s'.delivered == s.delivered
    && StartsWith(s'.queue, s.queue)
  }

  /** A client says hello while the sender does not get a turn. */
  lemma ComeIn(n: nat, s: State, k: nat) returns (s': State)
    requires Reachable(n, s) && s.main.Serving? && s.queue == [] && k < |s.sessions|
    requires s.sessions[k].pc == Starting && s.sessions[k].name != []
    ensures Reachable(n, s') && |s.sessions[k].name| <= USERNAME_MAXLENGTH && !s.sessions[k].closed
    ensures OnlySession(s, s', k, s.sessions[k].(pc := Receiving))
    ensures s'.queue != [] && s'.queue[0] == WelcomeOf(s.sessions[k].name, k)
  {
    hide Inv, Reachable, SystemMessage;
    ReachableInv(n, s);
    OpenAtStart(s, k);
    hide Name, Sound;
    s' := Handle(n, s, k, EnqueueWelcome);
    s' := Handle(n, s', k, EnqueueJoined);
    s' := Handle(n, s', k, SignalLogin);
  }

  /** And goodbye. */
  lemma GoOut(n: nat, s: State, k: nat) returns (s': State)
    requires Reachable(n, s) && s.main.Serving? && k < |s.sessions|
    requires s.sessions[k].pc == Receiving && !s.sessions[k].closed
    ensures Reachable(n, s') && OnlySession(s, s', k, s.sessions[k].(pc := Ended, closed := true))
  {
    hide Inv, Reachable, Sound;
    s' := SayGoodbye(n, s, k);
    s' := Handle(n, s', k, SignalLeft);
    s' := Handle(n, s', k, CloseSocket);
  }

  lemma SayGoodbye(n: nat, s: State, k: nat) returns (s': State)
    requires Reachable(n, s) && s.main.Serving? && k < |s.sessions|
    requires s.sessions[k].pc == Receiving && !s.sessions[k].closed
    ensures Reachable(n, s') && OnlySession(s, s', k, s.sessions[k].(pc := Leaving))
  {
    hide Inv, Reachable, SystemMessage, RequestOf, Name;
    QuitIsQuit();
    s' := Handle(n, s, k, HandleMessage(Some(Message(USER_MESSAGE, Bytes("/quit")))));
  }

  lemma OpenAtStart(s: State, k: nat)
    requires Inv(s) && k < |s.sessions| && s.sessions[k].pc == Starting && s.sessions[k].name != []
    ensures !s.sessions[k].closed && s.sessions[k].slot < |s.table|
            && Name(s.table[s.sessions[k].slot]) == s.sessions[k].name
  {
    assert ClosedOf(s.sessions[k]) && NameOf(s, k);
  }

  lemma QuitIsQuit()
    ensures RequestOf(Bytes("/quit")) == REQ_QUIT_MESSAGE
  {
    hide RequestOf;
    MessageSpelling.WordsDecide([]);
    assert Bytes("/quit") + [] == Bytes("/quit");
  }

  /** The main thread reaps a session that has ended. */
  lemma ReapEnded(n: nat, s: State, k: nat) returns (s': State)
    requires Reachable(n, s) && LoopGuard(s) && k < |s.sessions| && s.sessions[k].pc == Ended
    ensures Reachable(n, s') && s.sessions[k].slot < |s.table|
    ensures s' == SetPc(s, k, Reaped).(table := WithSlot(s.table, s.sessions[k].slot, ResetClient(None)),
                                       active := s.active - 1)
  {
    FinishedThreadIsFound(n, s, k);
    var p :| AtPosition(s, p, k) && MainEnabled(s, ReapThread(p));
    ReachableInv(n, s);
    assert ThreadOf(s, SlotAt(s, p));
    hide Inv, Reachable, ValidSlots;
    ReachableStep(n, s, MainStep(ReapThread(p)));
    s' := Reap(s, p);
  }

  lemma NamedSlotHasName(name: seq<byte>, k: nat)
    requires |name| <= USERNAME_MAXLENGTH
    ensures ClientOk(NamedSlot(name, k)) && Name(NamedSlot(name, k)) == name
  {
  }

  /** The lowest free slot, when there are valid slots below it only. */
  function FreeSlot(t: Table, i: nat): (j: nat)
    requires i < |t| && !t[i].isValid && forall k :: 0 <= k < i ==> t[k].isValid
    ensures FirstFree(t) == Some(j) && j == i
  {
    i
  }

  /** "b" gets slot 0 and keeps the server alive, "a" gets slot 1, as session 1. */
  lemma TwoLogIn(a: seq<byte>, b: seq<byte>) returns (s: State)
    requires MayLogIn(a) && MayLogIn(b) && a != b
    ensures |a| <= USERNAME_MAXLENGTH && |b| <= USERNAME_MAXLENGTH
    ensures Reachable(2, s) && s.main == Serving(false) && s.active == 2 && s.sender == Dequeuing && s.queue == []
    ensures s.table == [NamedSlot(b, 0), NamedSlot(a, 1)]
    ensures s.sessions == [Session(0, b, false, Starting, [], [], 0, 0), Session(1, a, false, Starting, [], [], 0, 0)]
  {
    hide Inv, Reachable, StartsWith, IsCName, FirstFree;
    CNameFits(a);
    CNameFits(b);
    NamedSlotHasName(b, 0);
    NamedSlotHasName(a, 1);
    StartIsReachable(2);
    s := LogIn(2, Start(2), b, FreeSlot(Start(2).table, 0));
    s := LogIn(2, s, a, FreeSlot(s.table, 1));
  }

  /** Session 1 comes and goes, is reaped, and slot 1 is taken again under its name; the sender has
      not had a turn, so that the first welcome is still queued. */
  lemma TakeNameAgain(a: seq<byte>, b: seq<byte>) returns (s: State)
    requires MayLogIn(a) && MayLogIn(b) && a != b
    ensures |a| <= USERNAME_MAXLENGTH && |b| <= USERNAME_MAXLENGTH
    ensures Reachable(2, s) && s.main.Serving? && s.sender == Dequeuing && s.queue != []
            && s.queue[0] == WelcomeOf(a, 1)
    ensures s.table == [NamedSlot(b, 0), NamedSlot(a, 2)] && |s.sessions| == 3
    ensures s.sessions[0].name == b && s.sessions[1].name == a && s.sessions[2].name == a
    ensures !s.sessions[2].closed && s.sessions[2].wire == []
  {
    hide Inv, Reachable, IsCName, FirstFree, WelcomeOf;
    s := TwoLogIn(a, b);
    NamedSlotHasName(b, 0);
    CNameIsNotNone(a);
    s := ComeIn(2, s, 1);
    s := GoOut(2, s, 1);
    s := ReapEnded(2, s, 1);
    s := LogIn(2, s, a, FreeSlot(s.table, 1));
  }

  lemma CNameIsNotNone(a: seq<byte>)
    requires MayLogIn(a)
    ensures a != []
  {
  }

  /** A turn of the sender: it takes a message. */
  lemma TakeMessage(n: nat, s: State) returns (s': State)
    requires Reachable(n, s) && s.main.Serving? && s.sender == Dequeuing && s.queue != []
    ensures Reachable(n, s') && s' == s.(sender := Sending(s.queue[0], 0), queue := s.queue[1..])
  {
    hide Inv, Reachable;
    ReachableStep(n, s, SenderStep);
    s' := ApplySender(s);
  }

  /** It passes over a slot that the message is not for. */
  lemma PassOver(n: nat, s: State) returns (s': State)
    requires Reachable(n, s) && s.main.Serving? && s.sender.Sending? && s.sender.next < |s.table|
    requires !Receives(s.table[s.sender.next], s.sender.entry.msg)
    ensures Reachable(n, s') && s' == s.(sender := Sending(s.sender.entry, s.sender.next + 1))
  {
    hide Inv, Reachable, Receives;
    ReachableStep(n, s, SenderStep);
    s' := ApplySender(s);
  }

  /** It sends to a slot that the message is for. */
  lemma SendTo(n: nat, s: State, k: nat) returns (s': State)
    requires Reachable(n, s) && s.main.Serving? && s.sender.Sending? && s.sender.next < |s.table| && k < |s.sessions|
    requires s.table[s.sender.next].isValid && s.table[s.sender.next].clientSocket == Some(k) && !s.sessions[k].closed
    requires Receives(s.table[s.sender.next], s.sender.entry.msg)
    ensures Reachable(n, s') && |s'.sessions| == |s.sessions|
    ensures s'.sessions[k].wire == s.sessions[k].wire + [s.sender.entry]
    ensures forall j :: 0 <= j < |s.sessions| ==> s'.sessions[j].name == s.sessions[j].name
  {
    hide Inv, Reachable, Receives;
    ReachableStep(n, s, SenderStep);
    s' := ApplySender(s);
  }

  /** Which of the two slots the stale welcome is for. */
  lemma StaleIsForSecond(a: seq<byte>, b: seq<byte>)
    requires MayLogIn(a) && MayLogIn(b) && a != b && |a| <= USERNAME_MAXLENGTH && |b| <= USERNAME_MAXLENGTH
    ensures ClientOk(NamedSlot(a, 2)) && ClientOk(NamedSlot(b, 0))
    ensures !Receives(NamedSlot(b, 0), WelcomeOf(a, 1).msg) && Receives(NamedSlot(a, 2), WelcomeOf(a, 1).msg)
  {
    hide IsCName, Passes, Receives, SystemMessage;
    NamedSlotHasName(a, 2);
    NamedSlotHasName(b, 0);
    ReceivesIsPasses(NamedSlot(b, 0), WelcomeOf(a, 1).msg);
    ReceivesIsPasses(NamedSlot(a, 2), WelcomeOf(a, 1).msg);
    PassesAsMeant(b, Welcome, a);
    PassesAsMeant(a, Welcome, a);
  }

  /** The sender takes a message, passes over slot 0 and sends it to the client of slot 1. */
  lemma ThreeTurns(n: nat, s: State, k: nat) returns (s': State)
    requires Reachable(n, s) && s.main.Serving? && s.sender == Dequeuing && s.queue != [] && |s.table| >= 2
    requires !Receives(s.table[0], s.queue[0].msg) && Receives(s.table[1], s.queue[0].msg)
    requires s.table[1].isValid && s.table[1].clientSocket == Some(k) && k < |s.sessions| && !s.sessions[k].closed
    ensures Reachable(n, s') && |s'.sessions| == |s.sessions|
    ensures s'.sessions[k].wire == s.sessions[k].wire + [s.queue[0]]
    ensures forall j :: 0 <= j < |s.sessions| ==> s'.sessions[j].name == s.sessions[j].name
  {
    hide Reachable, Receives;
    s' := TakeMessage(n, s);
    s' := PassOver(n, s');
    s' := SendTo(n, s', k);
  }

  /** Slot 1 is that of session 2, and the oldest queued message passes its test. */
  predicate SecondIsNext(s: State) {
    && |s.sessions| == 3 && !s.sessions[2].closed && s.sessions[2].wire == []
    && s.main.Serving? && s.sender == Dequeuing && s.queue != [] && |s.table| >= 2
    && s.table[1].isValid && s.table[1].clientSocket == Some(2)
    && !Receives(s.table[0], s.queue[0].msg) && Receives(s.table[1], s.queue[0].msg)
  }

  lemma TakenAgainIsNext(a: seq<byte>, b: seq<byte>, s: State)
    requires MayLogIn(a) && MayLogIn(b) && a != b && |a| <= USERNAME_MAXLENGTH && |b| <= USERNAME_MAXLENGTH
    requires s.main.Serving? && s.sender == Dequeuing && s.queue != [] && s.queue[0] == WelcomeOf(a, 1)
    requires s.table == [NamedSlot(b, 0), NamedSlot(a, 2)] && |s.sessions| == 3
    requires !s.sessions[2].closed && s.sessions[2].wire == []
    ensures SecondIsNext(s) && s.queue[0].kind == Welcome && s.queue[0].origin == 1
  {
    hide MayLogIn, Receives, SystemMessage;
    StaleIsForSecond(a, b);
  }

  lemma ThreeAreProper(a: seq<byte>, b: seq<byte>, s: State)
    requires MayLogIn(a) && MayLogIn(b) && |s.sessions| == 3
    requires s.sessions[0].name == b && s.sessions[1].name == a && s.sessions[2].name == a
    ensures ProperSessions(s)
  {
    hide IsCName, StartsWith;
  }

  /** Routing goes by name only: in a run whose logins are all proper and accepted, the welcome of one
      client is sent to a later client of the same name. */
  lemma WelcomeGoesToNamesake(a: seq<byte>, b: seq<byte>) returns (s: State)
    requires MayLogIn(a) && MayLogIn(b) && a != b
    ensures Reachable(2, s) && ProperSessions(s) && |s.sessions| == 3 && |s.sessions[2].wire| == 1
    ensures s.sessions[2].wire[0].kind == Welcome && s.sessions[2].wire[0].origin == 1
  {
    hide MayLogIn, Reachable, WelcomeOf, NamedSlot, Receives, ProperSessions;
    s := TakeNameAgain(a, b);
    TakenAgainIsNext(a, b, s);
    s := ThreeTurns(2, s, 2);
    ThreeAreProper(a, b, s);
  }

  /** The welcome of session 1 is still queued, for its own slot. */
  lemma WelcomeIsOwed(s: State, name: seq<byte>)
    requires |s.sessions| == 2 && s.sessions[1].name == name && IsCName(name) && |name| <= USERNAME_MAXLENGTH
    requires !InHand(s) && s.queue != [] && s.queue[0] == WelcomeOf(name, 1)
    ensures Owed(s, 1) != []
  {
    hide IsCName, Passes, SystemMessage, WantedFrom;
    PassesAsMeant(name, Welcome, name);
    WantedOfOne(name, s.queue[0], s.queue[1..]);
    assert StillComing(s, s.sessions[1].slot) == s.queue == [s.queue[0]] + s.queue[1..];
  }

  /** A client that quits before the sender has got to its welcome: its socket is closed, its slot still
      valid, and the sender cannot empty its queue, however long it goes on. All that is left to it in
      the end is a send that fails. */
  lemma QuitStopsSender(a: seq<byte>, b: seq<byte>) returns (s: State)
    requires MayLogIn(a) && MayLogIn(b) && a != b
    ensures Reachable(2, s) && Inv(s) && Quiescent(s) && ProperSessions(s) && !Harmless(s)
    ensures forall n: nat :: !DrainedAfter(s, n)
    ensures exists n :: 0 <= n <= DrainSteps(s) && StopsAfter(s, n)
  {
    hide Reachable, IsCName, WelcomeOf, Executable, Exec, Owed, DrainSteps;
    s := TwoLogIn(a, b);
    CNameIsNotNone(a);
    s := ComeIn(2, s, 1);
    s := GoOut(2, s, 1);
    ReachableInv(2, s);
    assert ExitInv(s);
    hide Inv;
    WelcomeIsOwed(s, a);
    SenderDrainsIff(s);
  }
}

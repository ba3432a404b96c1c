/** The server ends: without new connections, every run is bounded but for the messages that change
    nothing, and one that cannot go on has the main thread finished, aborted, or still waiting for the
    first connection. */
module Termination {
  import opened Common
  import opened MessageParser
  import opened Protocol
  import opened ClientTable
  import opened SystemMessages
  import opened ChatServer
  import opened Invariants
  import opened ServerRuns

  /** The steps a session has still to make, with all they cost the sender: three messages, each of
      them `cost` steps, two signals, and the reaping. */
  function SessionWork(pc: SessionPc, cost: nat): (n: nat) {
    match pc
    case Starting => 15 + 3 * cost
    case Welcomed => 14 + 2 * cost
    case Announced => 13 + cost
    case Receiving => 8 + cost
    case Leaving => 7
    case Closing => 2
    case Ended => 1
    case Crashed => 1
    case Reaped => 0
  }

  function SessionsWork(sessions: seq<Session>, cost: nat): (n: nat) {
    if sessions == [] then 0
    else SessionsWork(sessions[..|sessions| - 1], cost) + SessionWork(sessions[|sessions| - 1].pc, cost)
  }

  lemma {:induction false} SessionsWorkUpdate(sessions: seq<Session>, k: nat, session: Session, cost: nat)
    requires k < |sessions|
    ensures SessionsWork(sessions[k := session], cost)
         == SessionsWork(sessions, cost) - SessionWork(sessions[k].pc, cost) + SessionWork(session.pc, cost)
  {
    hide SessionWork;
    var n := |sessions| - 1;
    if k == n {
      assert sessions[k := session][..n] == sessions[..n];
    } else {
      assert sessions[k := session][..n] == sessions[..n][k := session];
      SessionsWorkUpdate(sessions[..n], k, session, cost);
    }
  }

  lemma {:induction false} SessionsWorkFrame(s: seq<Session>, s': seq<Session>, cost: nat)
    requires |s| == |s'| && forall k :: 0 <= k < |s| ==> s'[k].pc == s[k].pc
    ensures SessionsWork(s', cost) == SessionsWork(s, cost)
  {
    hide SessionWork;
    if s != [] {
      SessionsWorkFrame(s[..|s| - 1], s'[..|s| - 1], cost);
    }
  }

  /** Bounds the steps that are left when nobody connects any more: linear in the queue and in the
      number of sessions. */
  function Work(s: State): (n: nat) {
    Measure(s) + SessionsWork(s.sessions, |s.table| + 2)
  }

  predicate Connects(a: Action) {
    a.MainStep? && a.m.HandleConnection?
  }

  /** A message of a client that its handler ignores. */
  predicate Ignored(s: State, a: Action)
    requires Enabled(s, a) && Sound(s)
  {
    a.HandlerStep? && a.h.HandleMessage? && Apply(s, a) == s
  }

  lemma EnqueueWorks(s: State, k: nat, kind: Kind, pc: SessionPc)
    requires Sound(s) && k < |s.sessions| && SessionWork(pc, |s.table| + 2) + |s.table|
             + 2 < SessionWork(s.sessions[k].pc, |s.table| + 2)
    ensures Work(EnqueueFor(s, k, kind, pc)) < Work(s)
  {
    hide SystemMessage, SessionWork, SessionsWork, Cost;
    var s' := EnqueueFor(s, k, kind, pc);
    SessionsWorkUpdate(s.sessions, k, s.sessions[k].(pc := pc), |s.table| + 2);
    CostOfOneMore(|s'.queue|, |s.table|);
  }

  /** A step of a session that enqueues nothing, and sets the event at most. */
  lemma SignalWorks(s: State, s': State, k: nat)
    requires k < |s.sessions| == |s'.sessions| && s'.sessions == s.sessions[k := s'.sessions[k]]
    requires s'.queue == s.queue && s'.table == s.table && s'.sender == s.sender && s'.main == s.main
    requires var cost := |s.table| + 2;
             SessionWork(s'.sessions[k].pc, cost)
               + (if s'.event && !s.event then 3 else 0) < SessionWork(s.sessions[k].pc, cost)
    requires s.event ==> s'.event
    ensures Work(s') < Work(s)
  {
    hide SessionWork, SessionsWork, Cost;
    SessionsWorkUpdate(s.sessions, k, s'.sessions[k], |s.table| + 2);
  }

  lemma HandlerWorks(s: State, k: nat, h: HandlerAction)
    requires Sound(s) && Enabled(s, HandlerStep(k, h)) && !Ignored(s, HandlerStep(k, h))
    ensures Work(ApplyHandler(s, k, h)) < Work(s)
  {
    hide Sound, Work, EnqueueFor, RequestOf, SystemMessage;
    var s' := ApplyHandler(s, k, h);
    match h
    case EnqueueWelcome => EnqueueWorks(s, k, Welcome, Welcomed);
    case EnqueueJoined => EnqueueWorks(s, k, Joined, Announced);
    case SignalLogin => SignalWorks(s, s', k);
    case SignalLeft => SignalWorks(s, s', k);
    case CloseSocket => SignalWorks(s, s', k);
    case HandleMessage(m) => MessageWorks(s, k, m);
  }

  lemma MessageWorks(s: State, k: nat, m: Option<Message>)
    requires Sound(s) && k < |s.sessions| && s.sessions[k].pc == Receiving && Handled(s, k, m) != s
    ensures Work(Handled(s, k, m)) < Work(s)
  {
    hide Sound, Work, EnqueueFor, RequestOf;
    EnqueueWorks(s, k, Left, Leaving);
    SignalWorks(s, SetPc(s, k, Crashed), k);
  }

  lemma SenderWorks(s: State)
    requires Inv(s) && Sound(s) && SenderEnabled(s)
    ensures Work(ApplySender(s)) < Work(s)
  {
    hide Inv, Sound, Measure, SenderEnabled, ApplySender;
    SenderStepDescends(s);
    SenderIsFramed(s);
    SessionsWorkFrame(s.sessions, ApplySender(s).sessions, |s.table| + 2);
  }

  lemma BreakingWorks(s: State)
    requires DueHere(s)
    ensures Work(s.(sender := Broken(s.sender.entry, s.sender.next))) < Work(s)
  {
    hide Cost, SessionsWork, Receives;
  }

  lemma MainWorks(s: State, m: MainAction)
    requires TableInv(s) && MainEnabled(s, m) && !m.HandleConnection?
    ensures Work(ApplyMain(s, m)) < Work(s)
  {
    hide Cost, SessionsWork, TableInv, ValidSlots;
    if m.ReapThread? {
      var k := ThreadAt(s, m.position).value;
      SessionsWorkUpdate(s.sessions, k, s.sessions[k].(pc := Reaped), |s.table| + 2);
    }
  }

  lemma SessionsWorkSnoc(sessions: seq<Session>, session: Session, cost: nat)
    ensures SessionsWork(sessions + [session], cost) == SessionsWork(sessions, cost) + SessionWork(session.pc, cost)
  {
    hide SessionWork;
    assert (sessions + [session])[..|sessions|] == sessions;
  }

  /** A connection brings the work of one session. */
  lemma ConnectionWorks(s: State, request: Option<Decoded>)
    requires LoopGuard(s)
    ensures Work(Connected(s, request)) <= Work(s) + SessionWork(Starting, |s.table| + 2)
  {
    hide Cost, SessionsWork, Validate, Login, FirstFree;
    if |Connected(s, request).sessions| > |s.sessions| {
      SessionsWorkSnoc(s.sessions, NewSession(s, Validate(s.table, request.value), FirstFree(s.table).value),
                       |s.table| + 2);
    }
  }

  /** What a step may bring: a connection the work of a session, an ignored message itself. */
  function Brings(s: State, a: Action): (n: nat)
    requires Enabled(s, a) && Sound(s)
  {
    if Connects(a) then SessionWork(Starting, |s.table| + 2) + 1 else if Ignored(s, a) then 1 else 0
  }

  /** Every step but a connection and an ignored message takes work away. */
  lemma StepWorks(s: State, a: Action)
    requires Inv(s) && Sound(s) && Enabled(s, a)
    ensures Work(Apply(s, a)) + 1 <= Work(s) + Brings(s, a)
  {
    assert TableInv(s);
    hide Inv, Sound, Work, ApplyHandler, Connected, ApplySender, Reap;
    match a
    case MainStep(m) =>
      if m.HandleConnection? {
        ConnectionWorks(s, m.request);
      } else {
        MainWorks(s, m);
      }
    case HandlerStep(k, h) =>
      if !Ignored(s, a) {
        HandlerWorks(s, k, h);
      }
    case SenderStep => SenderWorks(s);
    case SendFails => BreakingWorks(s);
  }

  /** What all steps of a run may bring. */
  function BroughtBy(s: State, actions: seq<Action>): (n: nat)
    requires Inv(s) && Executable(s, actions)
    decreases |actions|
  {
    if actions == [] then 0
    else
      StepKeepsInv(s, actions[0]);
      Brings(s, actions[0]) + BroughtBy(Apply(s, actions[0]), actions[1..])
  }

  /** Every run of the server, under any interleaving, is bounded by the work there is at its start and
      by what connections and ignored messages bring: no thread makes work for another without end. */
  lemma {:induction false} RunIsBounded(s: State, actions: seq<Action>)
    requires Inv(s) && Executable(s, actions)
    ensures |actions| + Work(Exec(s, actions)) <= Work(s) + BroughtBy(s, actions)
    decreases |actions|
  {
    hide Inv, Work, Brings, Apply;
    if actions != [] {
      StepKeepsInv(s, actions[0]);
      assert Enabled(s, actions[0]);
      hide Enabled;
      StepWorks(s, actions[0]);
      RunIsBounded(Apply(s, actions[0]), actions[1..]);
    }
  }

  /** While a client is there, some handler can go on or the main thread can reap it. */
  lemma ClientGoesOn(s: State)
    requires Inv(s) && s.main.Serving? && s.active > 0
    ensures exists a :: Enabled(s, a) && !Connects(a)
  {
    CountIsZero(s.table);
    var i :| 0 <= i < |s.table| && s.table[i].isValid;
    assert ThreadOf(s, i);
    var k := s.table[i].threadHandle.value;
    if Finish(s.sessions[k].pc) {
      PositionOfSession(s, k);
      var p :| AtPosition(s, p, k);
      assert Enabled(s, MainStep(ReapThread(p)));
    } else {
      SessionGoesOn(s, k);
    }
  }

  lemma SessionGoesOn(s: State, k: nat)
    requires s.main.Serving? && k < |s.sessions| && s.sessions[k].pc != Reaped && !Finish(s.sessions[k].pc)
    ensures exists a :: Enabled(s, a) && !Connects(a)
  {
    var h := match s.sessions[k].pc
      case Starting => EnqueueWelcome
      case Welcomed => EnqueueJoined
      case Announced => SignalLogin
      case Receiving => HandleMessage(None)
      case Leaving => SignalLeft
      case _ => CloseSocket;
    assert Enabled(s, HandlerStep(k, h));
  }

  /** A state in which only a connection could go on has the main thread finished or aborted, or
      still waiting for the first connection. */
  lemma StuckHasEnded(s: State)
    requires Inv(s) && forall a :: Enabled(s, a) ==> Connects(a)
    ensures s.main == Finished || s.main == Aborted || (s.main == Serving(true) && s.active == 0)
  {
    assert TableInv(s) && ExitInv(s);
    if s.main.Serving? {
      if s.active > 0 {
        ClientGoesOn(s);
      } else {
        assert !Enabled(s, MainStep(RaiseExit));
      }
    } else if s.main != Finished && s.main != Aborted {
      ShutdownIsNeverStuck(s);
    }
  }
}

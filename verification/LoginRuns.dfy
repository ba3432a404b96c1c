/** Logins over whole runs of the server: what a client is sent between its login and its reaping,
    and what becomes of a login that is refused. */
module LoginRuns {
  import opened Common
  import opened Protocol
  import opened ClientTable
  import opened SystemMessages
  import opened ChatServer
  import opened Invariants
  import opened Delivery
  import opened ServerRuns

  // ---- From login to reaping ----

  lemma {:induction false} RunLivesGoOn(s: State, actions: seq<Action>)
    requires Inv(s) && Executable(s, actions)
    ensures LivesGoOn(s, Exec(s, actions)) && StartsWith(Exec(s, actions).enqueued, s.enqueued)
    decreases |actions|
  {
    hide Inv, Apply, Enabled;
    if actions != [] {
      StepKeepsInv(s, actions[0]);
      assert Enabled(s, actions[0]);
      StepLivesGoOn(s, actions[0]);
      StepKeepsHistory(s, actions[0]);
      RunLivesGoOn(Apply(s, actions[0]), actions[1..]);
    }
  }

  lemma StepKeepsHistory(s: State, a: Action)
    requires Sound(s) && Enabled(s, a)
    ensures StartsWith(Apply(s, a).enqueued, s.enqueued)
  {
    hide Sound, ApplyHandler, ApplyMain, ApplySender;
    match a
    case MainStep(m) => MainIsFramed(s, m);
    case HandlerStep(k, h) => HandlerHistory(s, k, h);
    case SenderStep => SenderIsFramed(s);
    case SendFails =>
  }

  /** The main thread's step gives session `k` its slot, and `actions` follow it. */
  predicate LogsIn(s: State, m: MainAction, actions: seq<Action>, k: nat)
    requires Inv(s)
  {
    && MainEnabled(s, m) && k == |s.sessions| && |ApplyMain(s, m).sessions| == k + 1
    && Executable(s, [MainStep(m)] + actions)
    && k < |Exec(s, [MainStep(m)] + actions).sessions|
    && Exec(s, [MainStep(m)] + actions).sessions[k].pc != Reaped
  }

  /** What happens to the session between its login and any later state of its life. */
  lemma AfterLogin(s: State, m: MainAction, actions: seq<Action>, k: nat)
    requires Inv(s) && LogsIn(s, m, actions, k)
    ensures var r := Exec(s, [MainStep(m)] + actions);
            var session := r.sessions[k];
            && session.since <= session.upTo == |s.enqueued| && StartsWith(r.enqueued, s.enqueued)
            && r.enqueued[session.since..] == StillComing(s, session.slot) + r.enqueued[|s.enqueued|..]
            && s.enqueued[session.since..] == StillComing(s, session.slot)
            && LivesGoOn(s, r)
  {
    hide Inv, ApplyMain, LivesGoOn;
    var s1 := ApplyMain(s, m);
    assert ([MainStep(m)] + actions)[1..] == actions;
    StepKeepsInv(s, MainStep(m));
    var r := Exec(s1, actions);
    assert r == Exec(s, [MainStep(m)] + actions);
    hide Exec, Executable;
    RunLivesGoOn(s1, actions);
    MainLivesGoOn(s, m);
    MainIsFramed(s, m);
    var v, i := LoginOf(s, m);
    ComingAtLogin(s, v, i);
    LifeOfNew(s, s1, r, k);
    var session := r.sessions[k];
    assert r.enqueued[..|s.enqueued|] == s.enqueued;
    assert r.enqueued[session.since..] == s.enqueued[session.since..] + r.enqueued[|s.enqueued|..];
  }

  lemma LifeOfNew(s: State, s1: State, r: State, k: nat)
    requires LivesGoOn(s, s1) && LivesGoOn(s1, r) && k == |s.sessions| && |s1.sessions| == k + 1
    ensures LivesGoOn(s, r) && SameLife(s1.sessions[k], r.sessions[k])
  {
  }

  lemma ComingAtLogin(s: State, v: Verdict, i: nat)
    requires Inv(s) && (v.Available? ==> v.length <= |v.name|)
    ensures var session := NewSession(s, v, i);
            session.since <= |s.enqueued| && s.enqueued[session.since..] == StillComing(s, i)
  {
    assert FifoInv(s);
    hide Inv;
    Suffixes(s.delivered, InFlight(s), s.queue);
    assert [] + s.queue == s.queue;
  }

  lemma Suffixes(a: seq<Entry>, b: seq<Entry>, c: seq<Entry>)
    ensures (a + b + c)[|a|..] == b + c && (a + b + c)[|a| + |b|..] == c
  {
  }

  /** Exactly once: from a client's login to its reaping, whatever the other threads do, what it was
      sent and is still owed are the messages that were coming to its slot at its login and those
      enqueued since, as far as they pass the test for its name: each of them once, and in order. */
  lemma SentAndOwedIsDue(s: State, m: MainAction, actions: seq<Action>, k: nat)
    requires Inv(s) && LogsIn(s, m, actions, k)
    ensures var r := Exec(s, [MainStep(m)] + actions);
            var session := r.sessions[k];
            && |s.enqueued| <= |r.enqueued|
            && session.wire + Owed(r, k)
               == WantedFrom(session.name, StillComing(s, session.slot) + r.enqueued[|s.enqueued|..])
  {
    hide WantedFrom, Owed;
    AfterLogin(s, m, actions, k);
    var r := Exec(s, [MainStep(m)] + actions);
    assert Accounted(r, k);
  }

  /** As meant: with proper names, these are the client's own welcome and the announcements of all
      others exactly when no message of an earlier client of the same name was coming at its login. */
  lemma SentAsMeantFromLoginIff(s: State, m: MainAction, actions: seq<Action>, k: nat)
    requires Inv(s) && LogsIn(s, m, actions, k)
    requires var r := Exec(s, [MainStep(m)] + actions); ProperSessions(r) && r.sessions[k].name != []
    ensures var r := Exec(s, [MainStep(m)] + actions);
            var session := r.sessions[k];
            && |s.enqueued| <= |r.enqueued|
            && (session.wire + Owed(r, k) == MeantFrom(k, StillComing(s, session.slot) + r.enqueued[|s.enqueued|..])
                <==> forall e :: e in StillComing(s, session.slot) ==> !UnderName(s.sessions, e, session.name))
  {
    AfterLogin(s, m, actions, k);
    var r := Exec(s, [MainStep(m)] + actions);
    assert DeliveryInv(r);
    SentAsMeantIff(r, k);
    StaleIsComing(s, r, k);
  }

  predicate UnderName(sessions: seq<Session>, e: Entry, name: seq<byte>) {
    e.origin < |sessions| && sessions[e.origin].name == name
  }

  lemma StaleIsComing(s: State, r: State, k: nat)
    requires OrderInv(s) && LivesGoOn(s, r) && k == |s.sessions| < |r.sessions| && StartsWith(r.enqueued, s.enqueued)
    requires r.sessions[k].since <= r.sessions[k].upTo == |s.enqueued|
    requires s.enqueued[r.sessions[k].since..] == StillComing(s, r.sessions[k].slot)
    ensures NoStaleNamesake(r, k) <==>
            forall e :: e in StillComing(s, r.sessions[k].slot) ==> !UnderName(s.sessions, e, r.sessions[k].name)
  {
    var since := r.sessions[k].since;
    var coming := s.enqueued[since..];
    forall i | since <= i < |s.enqueued|
      ensures Namesake(r, k, r.enqueued[i]) <==> UnderName(s.sessions, coming[i - since], r.sessions[k].name)
    {
      assert r.enqueued[i] == r.enqueued[..|s.enqueued|][i] == s.enqueued[i] == coming[i - since];
      assert SameLife(s.sessions[s.enqueued[i].origin], r.sessions[s.enqueued[i].origin]);
    }
    if NoStaleNamesake(r, k) {
      forall e | e in coming
        ensures !UnderName(s.sessions, e, r.sessions[k].name)
      {
        var j :| 0 <= j < |coming| && coming[j] == e;
        assert !Namesake(r, k, r.enqueued[since + j]);
      }
    } else {
      var i :| since <= i < r.sessions[k].upTo && Namesake(r, k, r.enqueued[i]);
      assert coming[i - since] in coming;
    }
  }

  /** What is on a wire, also after its session was reaped: a welcome only under the session's own
      name, joined and left only under other names. */
  lemma WireHasTheRightNames(n: nat, s: State, k: nat, a: nat)
    requires Reachable(n, s) && ProperSessions(s) && k < |s.sessions| && a < |s.sessions[k].wire|
    ensures var e := s.sessions[k].wire[a];
            && e.origin < |s.sessions|
            && (e.kind == Welcome <==> s.sessions[e.origin].name == s.sessions[k].name)
  {
    ReachableInv(n, s);
    hide Reachable, ProperSessions;
    assert WirePasses(s.sessions[k]) && WireOf(s, k) && StampOk(s, s.sessions[k], a);
    assert MessageOf(s.sessions, s.sessions[k].wire[a]);
    hide Inv;
    PassesUnlessNamesake(s, k, s.sessions[k].wire[a]);
  }

  // ---- Refused logins ----

  /** The request is refused: its bytes clash with "server", or a client answers to them. */
  predicate Refused(t: Table, request: Decoded) {
    request.msgType == 0 && |request.body| <= 16 && Refuses(t, request.body)
  }

  /** The slot of a client that logged in as session `k` with a name. */
  function NamedSlot(name: seq<byte>, k: nat): (c: Slot)
    requires |name| <= USERNAME_MAXLENGTH
  {
    Client(true, Some(k), Some(k), |name|, Pad(name, USERNAME_MAXLENGTH))
  }

  /** What is meant to become of a request: a malformed one takes the main thread out of its loop; a
      refused one, and one that finds the table full, end with a reply; any other gets the lowest
      free slot, under the name it brought. */
  function Intended(s: State, request: Decoded): (s': State) {
    if request.msgType != 0 || |request.body| > 16 then s.(main := Aborted)
    else if Refused(s.table, request) || FirstFree(s.table).None? then s.(main := Serving(false))
    else
      var i, k := FirstFree(s.table).value, |s.sessions|;
      var since := |s.delivered| + if InHand(s) && i < s.sender.next then 1 else 0;
      s.(table := WithSlot(s.table, i, NamedSlot(request.body, k)), active := s.active + 1, main := Serving(false),
         sessions := s.sessions + [Session(i, request.body, false, Starting, [], [], since, |s.enqueued|)])
  }

  function WithSlot(t: Table, i: nat, c: Slot): (t': Table)
    requires i < |t| && ClientOk(c)
  {
    t[i := c]
  }

  lemma LoginFillsSlot(t: Table, request: Decoded, k: nat)
    requires Validate(t, request).Available? && FirstFree(t).Some?
    ensures |request.body| <= USERNAME_MAXLENGTH
    ensures Login(t, Validate(t, request), Some(k), k) == WithSlot(t, FirstFree(t).value, NamedSlot(request.body, k))
    ensures var v := Validate(t, request); v.name[..v.length] == request.body
  {
    hide FirstFree, Unused, ClashesWithServer;
    var i, v := FirstFree(t).value, Validate(t, request);
    var c := Occupied(t[i], v, Some(k), k);
    assert ClientOk(t[i]);
    assert v.name[..v.length] == request.body;
    assert c.username == Pad(request.body, USERNAME_MAXLENGTH);
  }

  lemma VerdictOfRefused(t: Table, request: Decoded)
    ensures Validate(t, request).Taken? <==> Refused(t, request)
    ensures Validate(t, request).Malformed? <==> request.msgType != LOGIN_REQUEST || |request.body| > USERNAME_MAXLENGTH
  {
    hide Validate, Refuses;
    VerdictByBytes(t, request);
  }

  /** A login ends as intended exactly when it is not refused. Refused, it takes a slot as well, or,
      with the table full, the main thread out of its loop. */
  lemma LoginEndsAsIntendedIff(s: State, request: Decoded)
    ensures Connected(s, Some(request)) == Intended(s, request) <==> !Refused(s.table, request)
  {
    hide Validate, Refused, Login, FirstFree, WithSlot, NamedSlot;
    VerdictOfRefused(s.table, request);
    if Validate(s.table, request).Available? && FirstFree(s.table).Some? {
      LoginFillsSlot(s.table, request, |s.sessions|);
    }
    if Refused(s.table, request) {
      RefusedGoesWrong(s, request);
    }
  }

  lemma RefusedGoesWrong(s: State, request: Decoded)
    requires Refused(s.table, request)
    ensures Intended(s, request) == s.(main := Serving(false))
    ensures var s' := Connected(s, Some(request));
            if FirstFree(s.table).Some? then |s'.sessions| == |s.sessions| + 1 && s'.sessions[|s.sessions|].name == []
              else s'.main == Aborted
  {
    hide Validate, Login, FirstFree;
    VerdictOfRefused(s.table, request);
  }

  /** For instance the very first client is refused the name "server", and gets a slot without a
      name and with a closed socket. */
  lemma RefusedNameTakesSlot()
    ensures var request := Decoded(LOGIN_REQUEST, 7, Bytes("server") + [NUL]);
            && Refused(Init(1).table, request)
            && |Connected(Init(1), Some(request)).sessions| == 1 && Connected(Init(1), Some(request)).sessions[0].closed
            && Connected(Init(1), Some(request)).table[0].isValid
  {
    var name := Bytes("server") + [NUL];
    VerdictOfRefused(Init(1).table, Decoded(LOGIN_REQUEST, 7, name));
    assert name[..6] == Bytes("server");
    assert FirstFree(Init(1).table) == Some(0);
  }

  /** And a server for one client does not survive that its client's name is asked for again. */
  lemma RefusedAtFullTableAborts(name: seq<byte>)
    requires IsCName(name) && !StartsWith(name, Bytes("server"))
    ensures var request := Decoded(LOGIN_REQUEST, |name|, name);
            var s := Connected(Start(1), Some(request));
            && s.main == Serving(false) && FirstFree(s.table).None?
            && Refused(s.table, request) && Connected(s, Some(request)).main == Aborted
  {
    hide Inv;
    var request := Decoded(LOGIN_REQUEST, |name|, name);
    FirstLogin(1, name);
    var s := Connected(Start(1), Some(request));
    assert Answers(s.table[0], Pad(name, USERNAME_MAXLENGTH), |name|);
    VerdictOfRefused(s.table, request);
    RefusedGoesWrong(s, request);
  }

  /** The first login under a proper name gets slot 0. */
  lemma FirstLogin(n: nat, name: seq<byte>)
    requires 1 <= n < MAXIMUM_WAIT_OBJECTS && IsCName(name) && !StartsWith(name, Bytes("server"))
    ensures |name| <= USERNAME_MAXLENGTH
    ensures var request := Decoded(LOGIN_REQUEST, |name|, name);
            && Connected(Start(n), Some(request)) == Intended(Start(n), request)
            && FirstFree(Start(n).table) == Some(0) && !Refused(Start(n).table, request)
  {
    hide Inv;
    var request := Decoded(LOGIN_REQUEST, |name|, name);
    assert Start(n).table == EmptyTable(n) && !Start(n).table[0].isValid;
    LoginVerdictIsExact(Start(n).table, request);
    VerdictOfRefused(Start(n).table, request);
    LoginEndsAsIntendedIff(Start(n), request);
  }

  /** A refused session is never reaped: while it is there the server does not end by itself. */
  lemma RefusedSessionStays(s: State, k: nat)
    requires Inv(s) && k < |s.sessions| && s.sessions[k].name == []
    ensures s.sessions[k].pc != Reaped && s.sessions[k].closed && s.sessions[k].wire == []
    ensures s.active > 0 && (s.main.Serving? || s.main == Aborted)
  {
    assert ClosedOf(s.sessions[k]) && WirePasses(s.sessions[k]) && SlotOf(s, k);
    CountIsZero(s.table);
    assert s.active != 0;
  }

  /** So after a refused login has got a slot, every run stays in the main loop or aborts. */
  lemma RefusalNeverFinishes(s: State, k: nat, actions: seq<Action>)
    requires Inv(s) && Executable(s, actions) && k < |s.sessions| && s.sessions[k].name == []
    ensures Exec(s, actions).main.Serving? || Exec(s, actions).main == Aborted
  {
    hide Inv, Executable, Exec;
    RunLivesGoOn(s, actions);
    RefusedSessionStays(Exec(s, actions), k);
  }

  /** The slot of a refused session stops the sender: any message passes its test, and the send
      fails on the closed socket. */
  lemma RefusedSlotStopsSender(s: State, k: nat)
    requires Inv(s) && k < |s.sessions| && s.sessions[k].name == [] && s.main != Aborted
    requires s.sender.Sending? && s.sender.next == s.sessions[k].slot
    ensures Enabled(s, SendFails) && !Enabled(s, SenderStep)
  {
    hide Receives, CountValid;
    assert ClosedOf(s.sessions[k]) && SlotOf(s, k) && NameOf(s, k) && ExitInv(s) && TableInv(s);
    var c := s.table[s.sender.next];
    ReceivesIsPasses(c, s.sender.entry.msg);
    RefusedSessionStays(s, k);
  }
}

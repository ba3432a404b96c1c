/** The client table as a value: slots, names, logins and the choice of recipients.
    `S` is the type of a client's socket. */
module ClientTable {
  import opened Common
  import opened Protocol

  const USERNAME_MAXLENGTH := 16
  const NAME_FIELD_SIZE := 17
  const MAXIMUM_WAIT_OBJECTS := 64

  const SERVER_USERNAME := Bytes("server")

  datatype Client<S> = Client(
    isValid: bool,
    threadHandle: Option<nat>,
    clientSocket: S,
    usernameLength: nat,
    username: seq<byte>)

  datatype MsgToSend = MsgToSend(
    sender: seq<byte>,
    senderLength: nat,
    dest: seq<byte>,
    destLength: nat,
    isBroadcast: bool,
    message: Outgoing)

  predicate MsgOk(m: MsgToSend) {
    |m.sender| == |m.dest| == NAME_FIELD_SIZE && WellBuilt(m.message)
  }

  /** A name field holds its name and zeros, and a free slot holds no name. */
  predicate ClientOk<S>(c: Client<S>) {
    && |c.username| == USERNAME_MAXLENGTH && c.usernameLength <= USERNAME_MAXLENGTH
    && (forall i :: c.usernameLength <= i < USERNAME_MAXLENGTH ==> c.username[i] == NUL)
    && (!c.isValid ==> c.usernameLength == 0)
  }

  predicate TableOk<S>(t: seq<Client<S>>) {
    forall i :: 0 <= i < |t| ==> ClientOk(t[i])
  }

  function Name<S>(c: Client<S>): (r: seq<byte>)
    requires ClientOk(c)
  {
    c.username[..c.usernameLength]
  }

  lemma UsernameIsPaddedName<S>(c: Client<S>)
    requires ClientOk(c)
    ensures c.username == Pad(Name(c), USERNAME_MAXLENGTH)
  {
  }

  function ResetClient<S>(socket: S): (c: Client<S>)
    ensures ClientOk(c) && !c.isValid
  {
    Client(false, None, socket, 0, Zeros(USERNAME_MAXLENGTH))
  }

  // ---- Slots ----

  function CountValid<S>(t: seq<Client<S>>): (n: nat)
    ensures n <= |t|
  {
    if t == [] then 0 else CountValid(t[..|t| - 1]) + if t[|t| - 1].isValid then 1 else 0
  }

  /** The indices of the valid slots, in increasing order. */
  function ValidSlots<S>(t: seq<Client<S>>): (v: seq<nat>)
    ensures |v| == CountValid(t)
  {
    if t == [] then []
    else ValidSlots(t[..|t| - 1]) + if t[|t| - 1].isValid then [|t| - 1] else []
  }

  lemma ValidSlotsStep<S>(t: seq<Client<S>>, i: nat)
    requires i < |t|
    ensures ValidSlots(t[..i + 1]) == ValidSlots(t[..i]) + if t[i].isValid then [i] else []
    ensures CountValid(t[..i + 1]) == CountValid(t[..i]) + if t[i].isValid then 1 else 0
  {
    assert t[..i + 1][..i] == t[..i];
  }

  lemma ValidSlotsOfNone<S>(t: seq<Client<S>>)
    ensures ValidSlots(t[..0]) == [] && CountValid(t[..0]) == 0
  {
  }

  lemma {:induction false} ValidSlotsBijective<S>(t: seq<Client<S>>)
    ensures forall p :: 0 <= p < |ValidSlots(t)| ==> ValidSlots(t)[p] < |t| && t[ValidSlots(t)[p]].isValid
    ensures forall p, q :: 0 <= p < q < |ValidSlots(t)| ==> ValidSlots(t)[p] < ValidSlots(t)[q]
    ensures forall i :: 0 <= i < |t| && t[i].isValid ==> i in ValidSlots(t)
  {
    if t != [] {
      ValidSlotsBijective(t[..|t| - 1]);
    }
  }

  lemma {:induction false} CountUpdate<S>(t: seq<Client<S>>, i: nat, c: Client<S>)
    requires i < |t|
    ensures CountValid(t[i := c]) == CountValid(t) - (if t[i].isValid then 1 else 0) + (if c.isValid then 1 else 0)
  {
    if i == |t| - 1 {
      assert t[i := c][..i] == t[..i];
    } else {
      assert t[i := c][..|t| - 1] == t[..|t| - 1][i := c];
      CountUpdate(t[..|t| - 1], i, c);
    }
  }

  lemma {:induction false} CountIsZero<S>(t: seq<Client<S>>)
    ensures CountValid(t) == 0 <==> forall i :: 0 <= i < |t| ==> !t[i].isValid
    ensures CountValid(t) == |t| <==> forall i :: 0 <= i < |t| ==> t[i].isValid
  {
    if t != [] {
      var s := t[..|t| - 1];
      CountIsZero(s);
      assert forall i :: 0 <= i < |s| ==> s[i] == t[i];
    }
  }

  /** The lowest free slot. */
  function FirstFree<S>(t: seq<Client<S>>): (r: Option<nat>)
    ensures r.Some? ==> r.value < |t| && !t[r.value].isValid && forall j :: 0 <= j < r.value ==> t[j].isValid
    ensures r.None? ==> forall j :: 0 <= j < |t| ==> t[j].isValid
  {
    if t == [] then None
    else
      var s := t[..|t| - 1];
      var r := FirstFree(s);
      assert r.None? ==> forall j :: 0 <= j < |s| ==> s[j].isValid && t[j] == s[j];
      if r.Some? then r
      else if !t[|t| - 1].isValid then Some(|t| - 1) else None
  }

  /** A slot can be allocated exactly when the counter is below the size. */
  lemma FreeSlotExists<S>(t: seq<Client<S>>)
    ensures FirstFree(t).Some? <==> CountValid(t) < |t|
  {
    CountIsZero(t);
  }

  // ---- Names ----

  /** `memcmp` with a table name, over as many bytes as the wanted name has. */
  predicate Answers<S>(c: Client<S>, name: seq<byte>, length: nat)
    requires |c.username| == |name| == USERNAME_MAXLENGTH && length <= USERNAME_MAXLENGTH
  {
    c.isValid && SameBytes(name, c.username, length)
  }

  datatype Verdict = Malformed | Taken | Available(name: seq<byte>, length: nat)

  /** No valid slot answers to the name. */
  predicate Unused<S>(t: seq<Client<S>>, name: seq<byte>, length: nat)
    requires TableOk(t) && |name| == USERNAME_MAXLENGTH && length <= USERNAME_MAXLENGTH
  {
    forall i :: 0 <= i < |t| ==> !Answers(t[i], name, length)
  }

  /** The name shares with "server" all the bytes the shorter of the two has. */
  predicate ClashesWithServer(name: seq<byte>) {
    var n := if |name| < |SERVER_USERNAME| then |name| else |SERVER_USERNAME|;
    name[..n] == SERVER_USERNAME[..n]
  }

  function Validate<S>(t: seq<Client<S>>, request: Decoded): (v: Verdict)
    requires TableOk(t)
    ensures v.Available? ==> |v.name| == USERNAME_MAXLENGTH && v.length <= USERNAME_MAXLENGTH
    ensures v.Available? ==> v.name == Pad(v.name[..v.length], USERNAME_MAXLENGTH) && v.length > 0
  {
    if request.msgType != LOGIN_REQUEST || |request.body| > USERNAME_MAXLENGTH then Malformed
    else
      var name := Pad(request.body, USERNAME_MAXLENGTH);
      if ClashesWithServer(request.body) || !Unused(t, name, |request.body|) then Taken
      else Available(name, |request.body|)
  }

  /** What a login writes to its slot. A refused one also gets there, and leaves the name empty. */
  function Occupied<S>(free: Client<S>, v: Verdict, socket: S, handle: nat): (c: Client<S>)
    requires ClientOk(free) && !free.isValid
    requires v.Available? ==> |v.name| == USERNAME_MAXLENGTH && v.length <= USERNAME_MAXLENGTH
    ensures ClientOk(c) && c.isValid && c.clientSocket == socket && c.threadHandle == Some(handle)
    ensures c.usernameLength == if v.Available? then v.length else 0
    ensures v.Available? ==> Name(c) == v.name[..v.length]
  {
    var length := if v.Available? then v.length else 0;
    var name := if v.Available? then v.name[..length] else [];
    Client(true, Some(handle), socket, length, name + free.username[length..])
  }

  /** So the slot holds the name and zeros. */
  lemma OccupiedByBytes<S>(free: Client<S>, v: Verdict, socket: S, handle: nat)
    requires ClientOk(free) && !free.isValid
    requires v.Available? ==> |v.name| == USERNAME_MAXLENGTH && v.length <= USERNAME_MAXLENGTH
    ensures var name := if v.Available? then v.name[..v.length] else [];
            Occupied(free, v, socket, handle) == Client(true, Some(handle), socket, |name|, Pad(name, 16))
  {
    UsernameIsPaddedName(Occupied(free, v, socket, handle));
  }

  /** The table after a login with verdict `v`; unchanged when it is full. */
  function Login<S>(t: seq<Client<S>>, v: Verdict, socket: S, handle: nat): (t': seq<Client<S>>)
    requires TableOk(t)
    requires v.Available? ==> |v.name| == USERNAME_MAXLENGTH && v.length <= USERNAME_MAXLENGTH
    ensures TableOk(t') && |t'| == |t|
  {
    match FirstFree(t)
    case None => t
    case Some(i) => t[i := Occupied(t[i], v, socket, handle)]
  }

  /** Two valid slots with a name never hold the same 16 bytes. */
  predicate NamesDiffer<S>(t: seq<Client<S>>) {
    forall i, j :: 0 <= i < j < |t| && t[i].isValid && t[j].isValid ==>
                     t[i].usernameLength > 0 && t[j].usernameLength > 0 ==> t[i].username != t[j].username
  }

  /** Whatever the bytes of the request, a login keeps the names different. */
  lemma LoginKeepsNames<S>(t: seq<Client<S>>, request: Decoded, socket: S, handle: nat)
    requires TableOk(t) && NamesDiffer(t)
    ensures NamesDiffer(Login(t, Validate(t, request), socket, handle))
  {
    var v := Validate(t, request);
    if FirstFree(t).Some? && v.Available? {
      var i := FirstFree(t).value;
      var c := Occupied(t[i], v, socket, handle);
      assert c.username == v.name;
      assert Unused(t, v.name, v.length);
      assert forall j :: 0 <= j < |t| && t[j].isValid ==>
             !Answers(t[j], v.name, v.length) && t[j].username != c.username;
    }
  }

  // ---- Routing ----

  /** The test of the sender for one valid slot. */
  predicate Receives<S>(c: Client<S>, m: MsgToSend)
    requires ClientOk(c) && |m.sender| == |m.dest| == NAME_FIELD_SIZE
  {
    || (m.isBroadcast && !SameBytes(c.username, m.sender, c.usernameLength))
    || SameBytes(c.username, m.dest, c.usernameLength)
  }

  function Recipients<S>(t: seq<Client<S>>, m: MsgToSend): (r: set<nat>)
    requires TableOk(t) && |m.sender| == |m.dest| == NAME_FIELD_SIZE
  {
    set i: nat | i < |t| && t[i].isValid && Receives(t[i], m)
  }

  function ValidSet<S>(t: seq<Client<S>>): (r: set<nat>) {
    set i: nat | i < |t| && t[i].isValid
  }

  /** A non-empty C string with its terminator: the only NUL is the last byte. */
  predicate IsCName(n: seq<byte>) {
    2 <= |n| <= USERNAME_MAXLENGTH && n[|n| - 1] == NUL && NUL !in n[..|n| - 1]
  }

  lemma CNameFits(n: seq<byte>)
    requires IsCName(n)
    ensures 0 < |n| <= USERNAME_MAXLENGTH
  {
  }

  predicate AllNul(n: seq<byte>) {
    forall i :: 0 <= i < |n| ==> n[i] == NUL
  }

  /** The length-limited comparison asks whether the field starts with the client's name. */
  lemma ComparesPrefix<S>(c: Client<S>, field: seq<byte>)
    requires ClientOk(c) && |field| == NAME_FIELD_SIZE
    ensures SameBytes(c.username, field, c.usernameLength) <==> StartsWith(field, Name(c))
    ensures StartsWith(Zeros(NAME_FIELD_SIZE), Name(c)) <==> AllNul(Name(c))
  {
    var z := Zeros(NAME_FIELD_SIZE);
    assert forall i :: 0 <= i < |Name(c)| ==> z[..|Name(c)|][i] == NUL;
    if AllNul(Name(c)) {
      assert z[..|Name(c)|] == Name(c);
    }
  }

  /** The test of the sender, on the name alone. */
  predicate Passes(name: seq<byte>, m: MsgToSend) {
    (m.isBroadcast && !StartsWith(m.sender, name)) || StartsWith(m.dest, name)
  }

  lemma ReceivesIsPasses<S>(c: Client<S>, m: MsgToSend)
    requires ClientOk(c) && |m.sender| == |m.dest| == NAME_FIELD_SIZE
    ensures Receives(c, m) <==> Passes(Name(c), m)
  {
    hide StartsWith, SameBytes;
    ComparesPrefix(c, m.sender);
    ComparesPrefix(c, m.dest);
  }

  /** A name field starts with such a name only if it holds that very name. */
  lemma FieldStartsWithItsName(held: seq<byte>, n: seq<byte>)
    requires IsCName(n) && (held == [] || IsCName(held))
    ensures StartsWith(Pad(held, NAME_FIELD_SIZE), n) <==> held == n
  {
    var p := Pad(held, NAME_FIELD_SIZE);
    assert forall i :: 0 <= i < |held| ==> p[i] == p[..|held|][i] == held[i];
    assert forall i :: 0 <= i < |held| - 1 ==> held[i] == held[..|held| - 1][i] && held[i] != NUL;
    assert forall i :: 0 <= i < |n| - 1 ==> n[i] == n[..|n| - 1][i] && n[i] != NUL;
    if StartsWith(p, n) {
      assert forall i :: 0 <= i < |n| ==> n[i] == p[..|n|][i] == p[i];
      assert n[0] != NUL && p[|n| - 1] == NUL;
      assert held == n;
    }
  }

  /** For such names the length-limited comparison is equality of strings. */
  lemma CompareIsEquality<S>(c: Client<S>, n: seq<byte>)
    requires ClientOk(c) && IsCName(Name(c)) && IsCName(n)
    ensures SameBytes(c.username, Pad(n, NAME_FIELD_SIZE), c.usernameLength) <==> Name(c) == n
  {
    hide IsCName, StartsWith, SameBytes;
    CNameFits(n);
    ComparesPrefix(c, Pad(n, NAME_FIELD_SIZE));
    FieldStartsWithItsName(n, Name(c));
  }

  /** Every valid slot has such a name, and no two the same. */
  predicate ProperNames<S>(t: seq<Client<S>>) {
    TableOk(t) && NamesDiffer(t) && forall i :: 0 <= i < |t| && t[i].isValid ==> IsCName(Name(t[i]))
  }

  /** A broadcast in the name of slot `s`. */
  predicate BroadcastFrom<S>(t: seq<Client<S>>, s: nat, m: MsgToSend) {
    && s < |t| && ClientOk(t[s]) && t[s].isValid && m.isBroadcast
    && m.sender == Pad(Name(t[s]), NAME_FIELD_SIZE) && m.dest == Zeros(NAME_FIELD_SIZE)
  }

  /** A broadcast goes to every valid slot but its sender's exactly when no other name starts the
      sender's name, unless it is all NUL, and the sender's name is not all NUL. */
  lemma BroadcastIsExactIff<S>(t: seq<Client<S>>, s: nat, m: MsgToSend)
    requires TableOk(t) && BroadcastFrom(t, s, m)
    ensures Recipients(t, m) == ValidSet(t) - {s} <==>
            && (forall j :: 0 <= j < |t| && t[j].isValid && j != s ==>
                !StartsWith(m.sender, Name(t[j])) || AllNul(Name(t[j])))
            && !AllNul(Name(t[s]))
  {
    hide StartsWith, AllNul, SameBytes;
    var r, v := Recipients(t, m), ValidSet(t);
    assert s in v;
    assert StartsWith(m.sender, Name(t[s])) by { OwnNameStarts(t[s]); }
    forall j | 0 <= j < |t| && t[j].isValid
      ensures j in v && (j in r <==> !StartsWith(m.sender, Name(t[j])) || AllNul(Name(t[j])))
    {
      ComparesPrefix(t[j], m.sender);
      ComparesPrefix(t[j], m.dest);
    }
    if r == v - {s} {
      assert s !in r;
      assert forall j :: 0 <= j < |t| && t[j].isValid && j != s ==> j in v - {s};
    } else {
      var j :| (j in r && j !in v - {s}) || (j !in r && j in v - {s});
      assert j in v;
    }
  }

  lemma OwnNameStarts<S>(c: Client<S>)
    requires ClientOk(c)
    ensures StartsWith(Pad(Name(c), NAME_FIELD_SIZE), Name(c))
  {
  }

  lemma CNameIsNotEmpty<S>(c: Client<S>)
    requires ClientOk(c) && IsCName(Name(c))
    ensures !AllNul(Name(c))
  {
    var a := Name(c);
    assert a[0] == a[..|a| - 1][0];
  }

  lemma SameNameSameField<S>(a: Client<S>, b: Client<S>)
    requires ClientOk(a) && ClientOk(b) && Name(a) == Name(b)
    ensures a.username == b.username
  {
    assert forall i :: 0 <= i < a.usernameLength ==> a.username[i] == Name(a)[i];
    assert forall i :: 0 <= i < b.usernameLength ==> b.username[i] == Name(b)[i];
  }

  /** Routing of broadcasts: with proper names, once to every valid slot except the sender's. */
  lemma BroadcastIsExact<S>(t: seq<Client<S>>, s: nat, m: MsgToSend)
    requires ProperNames(t) && BroadcastFrom(t, s, m)
    ensures Recipients(t, m) == ValidSet(t) - {s}
  {
    BroadcastIsExactIff(t, s, m);
    CNameIsNotEmpty(t[s]);
    forall j | 0 <= j < |t| && t[j].isValid && j != s
      ensures !StartsWith(m.sender, Name(t[j]))
    {
      ComparesPrefix(t[j], m.sender);
      CompareIsEquality(t[j], Name(t[s]));
      if Name(t[j]) == Name(t[s]) {
        SameNameSameField(t[j], t[s]);
      }
    }
  }

  /** Routing of addressed messages: to the one slot with that name, or to none. */
  lemma AddressedIsExact<S>(t: seq<Client<S>>, m: MsgToSend, n: seq<byte>)
    requires ProperNames(t) && !m.isBroadcast && IsCName(n)
    requires |m.sender| == NAME_FIELD_SIZE && m.dest == Pad(n, NAME_FIELD_SIZE)
    ensures forall i :: i in Recipients(t, m) <==> 0 <= i < |t| && t[i].isValid && Name(t[i]) == n
    ensures forall i, j :: i in Recipients(t, m) && j in Recipients(t, m) ==> i == j
  {
    forall i | 0 <= i < |t| && t[i].isValid
      ensures Receives(t[i], m) <==> Name(t[i]) == n
    {
      CompareIsEquality(t[i], n);
    }
    forall i, j | i in Recipients(t, m) && j in Recipients(t, m)
      ensures i == j
    {
      SameNameSameField(t[i], t[j]);
    }
  }

  lemma AnswersIsEquality<S>(c: Client<S>, n: seq<byte>)
    requires ClientOk(c) && c.isValid && IsCName(Name(c)) && IsCName(n)
    ensures Answers(c, Pad(n, USERNAME_MAXLENGTH), |n|) <==> Name(c) == n
  {
    var a, p := Name(c), Pad(n, USERNAME_MAXLENGTH);
    assert p[..|n|] == n;
    if Answers(c, p, |n|) {
      assert forall i :: 0 <= i < |n| ==> n[i] == c.username[..|n|][i] == c.username[i];
      assert forall i :: 0 <= i < |a| ==> a[i] == c.username[i];
      assert forall i :: 0 <= i < |n| - 1 ==> n[i] == n[..|n| - 1][i] && n[i] != NUL;
      assert forall i :: 0 <= i < |a| - 1 ==> a[i] == a[..|a| - 1][i] && a[i] != NUL;
      assert |a| == |n|;
    }
  }

  lemma ClashIsPrefix(n: seq<byte>)
    requires IsCName(n)
    ensures ClashesWithServer(n) <==> StartsWith(n, Bytes("server"))
  {
    if |n| < |SERVER_USERNAME| {
      assert n[..|n|][|n| - 1] == NUL != SERVER_USERNAME[..|n|][|n| - 1];
    }
    assert |n| >= |SERVER_USERNAME| ==> SERVER_USERNAME[..|SERVER_USERNAME|] == SERVER_USERNAME;
  }

  /** The bytes of a login start "server", or start with it, or start the name field of a client. */
  predicate Refuses<S>(t: seq<Client<S>>, name: seq<byte>) {
    || StartsWith(name, Bytes("server")) || StartsWith(Bytes("server"), name)
    || exists i :: 0 <= i < |t| && t[i].isValid && StartsWith(t[i].username, name)
  }

  lemma ClashByBytes(name: seq<byte>)
    ensures ClashesWithServer(name) <==> StartsWith(name, Bytes("server")) || StartsWith(Bytes("server"), name)
  {
    assert name[..|name|] == name && SERVER_USERNAME[..|SERVER_USERNAME|] == SERVER_USERNAME;
  }

  /** Validation of any bytes: malformed exactly with another type or more than 16 bytes. */
  lemma VerdictByBytes<S>(t: seq<Client<S>>, request: Decoded)
    requires TableOk(t)
    ensures Validate(t, request)
         == if request.msgType != 0 || |request.body| > 16 then Malformed
            else if Refuses(t, request.body) then Taken
            else Available(Pad(request.body, 16), |request.body|)
  {
    hide ClashesWithServer;
    var name := request.body;
    ClashByBytes(name);
    if |name| <= USERNAME_MAXLENGTH {
      var p := Pad(name, USERNAME_MAXLENGTH);
      forall i | 0 <= i < |t| && t[i].isValid
        ensures Answers(t[i], p, |name|) <==> StartsWith(t[i].username, name)
      {
        assert ClientOk(t[i]) && p[..|name|] == name;
      }
    }
  }

  /** Validation of proper names: refused exactly when somebody has the very name, or when it
      starts with "server"; otherwise accepted as it is. */
  lemma LoginVerdictIsExact<S>(t: seq<Client<S>>, request: Decoded)
    requires ProperNames(t) && request.msgType == LOGIN_REQUEST && IsCName(request.body)
    ensures Validate(t, request)
         == if StartsWith(request.body, Bytes("server"))
            || exists i :: 0 <= i < |t| && t[i].isValid && Name(t[i]) == request.body
            then Taken else Available(Pad(request.body, USERNAME_MAXLENGTH), |request.body|)
  {
    hide IsCName, ClashesWithServer;
    assert |request.body| <= USERNAME_MAXLENGTH by { CNameFits(request.body); }
    ClashIsPrefix(request.body);
    forall i | 0 <= i < |t| && t[i].isValid
      ensures Answers(t[i], Pad(request.body, USERNAME_MAXLENGTH), |request.body|) <==> Name(t[i]) == request.body
    {
      AnswersIsEquality(t[i], request.body);
    }
  }

  /** Without terminators routing misses: "ab" and "abc" both log in to an empty table, and "ab" does
      not get the broadcasts of "abc". */
  lemma PrefixNameMissesBroadcast(socket: nat, message: Outgoing)
    ensures var free := [ResetClient(socket), ResetClient(socket)];
            var ab := Validate(free, Decoded(LOGIN_REQUEST, 2, [97, 98]));
            var t1 := Login(free, ab, socket, 0);
            var abc := Validate(t1, Decoded(LOGIN_REQUEST, 3, [97, 98, 99]));
            var t := Login(t1, abc, socket, 1);
            var m := MsgToSend(Pad([97, 98, 99], NAME_FIELD_SIZE), 3, Zeros(NAME_FIELD_SIZE), 0, true, message);
            ab.Available? && abc.Available? && TableOk(t) && BroadcastFrom(t, 1, m) && t[0].isValid
              && 0 !in Recipients(t, m)
  {
    var t0 := [ResetClient(socket), ResetClient(socket)];
    assert SERVER_USERNAME[0] == 115 && SERVER_USERNAME[..2][0] == 115 && SERVER_USERNAME[..3][0] == 115;
    FirstOfTwo(socket);
    var ab := Client(true, Some(0), socket, 2, Pad([97, 98], USERNAME_MAXLENGTH));
    var t1 := [ab, ResetClient(socket)];
    var abc := Pad([97, 98, 99], USERNAME_MAXLENGTH);
    assert abc[..3][2] == 99 && ab.username[..3][2] == NUL;
    var v := Validate(t1, Decoded(LOGIN_REQUEST, 3, [97, 98, 99]));
    assert v == Available(abc, 3);
    assert FirstFree(t1) == Some(1);
    var t := Login(t1, v, socket, 1);
    assert Name(t[1]) == abc[..3] == [97, 98, 99];
    var sender := Pad([97, 98, 99], NAME_FIELD_SIZE);
    assert sender[..2] == sender[..3][..2] == [97, 98] == ab.username[..2];
    assert ab.username[..2][0] == 97 && Zeros(NAME_FIELD_SIZE)[..2][0] == NUL;
  }

  lemma FirstOfTwo(socket: nat)
    ensures var t0 := [ResetClient(socket), ResetClient(socket)];
            var v := Validate(t0, Decoded(LOGIN_REQUEST, 2, [97, 98]));
            && v == Available(Pad([97, 98], USERNAME_MAXLENGTH), 2)
            && Login(t0, v, socket, 0) == [Client(true, Some(0), socket, 2, v.name), ResetClient(socket)]
  {
    var t0 := [ResetClient(socket), ResetClient(socket)];
    assert SERVER_USERNAME[..2][0] == 115;
    assert FirstFree(t0) == Some(0);
    var v := Validate(t0, Decoded(LOGIN_REQUEST, 2, [97, 98]));
    assert v == Available(Pad([97, 98], USERNAME_MAXLENGTH), 2);
    var c := Occupied(t0[0], v, socket, 0);
    assert c.username == v.name;
  }
}

/** The three messages of a session: welcome to the client, joined and left to the others. */
module SystemMessages {
  import opened Common
  import opened Protocol
  import opened ClientTable

  datatype Kind = Welcome | Joined | Left

  /** The formatted text, with its terminator. */
  function Text(kind: Kind, username: seq<byte>): (t: seq<byte>)
    ensures |t| <= |username| + 64
  {
    match kind
    case Welcome => Bytes("Hello ") + CString(username) + Bytes(", welcome to the session.") + [NUL]
    case Joined => Bytes("*** ") + CString(username) + Bytes(" has joined the session ***") + [NUL]
    case Left => Bytes("*** ") + CString(username) + Bytes(" has left the session ***") + [NUL]
  }

  /** The message of a session whose client has the given name. */
  function SystemMessage(kind: Kind, name: seq<byte>): (m: MsgToSend)
    requires |name| <= USERNAME_MAXLENGTH
    ensures MsgOk(m)
    ensures m.isBroadcast <==> kind != Welcome
    ensures kind != Welcome ==> m.sender == Pad(name, NAME_FIELD_SIZE) && m.dest == Zeros(NAME_FIELD_SIZE)
    ensures kind == Welcome ==> m.dest == Pad(name, NAME_FIELD_SIZE)
    ensures Content(m.message) == Message(SYSTEM_MESSAGE, Text(kind, Pad(name, USERNAME_MAXLENGTH)))
  {
    var content := Message(SYSTEM_MESSAGE, Text(kind, Pad(name, USERNAME_MAXLENGTH)));
    BuildIsWellBuilt(content);
    if kind == Welcome then
      MsgToSend(Pad(SERVER_USERNAME, NAME_FIELD_SIZE), |SERVER_USERNAME|,
                Pad(name, NAME_FIELD_SIZE), |name|, false, Build(content))
    else
      MsgToSend(Pad(name, NAME_FIELD_SIZE), |name|, Zeros(NAME_FIELD_SIZE), 0, true, Build(content))
  }

  lemma CStringOfPadded(name: seq<byte>)
    requires IsCName(name)
    ensures CString(Pad(name, USERNAME_MAXLENGTH)) == name[..|name| - 1]
  {
    var p := Pad(name, USERNAME_MAXLENGTH);
    var c := CString(p);
    assert forall i :: 0 <= i < |name| ==> p[i] == p[..|name|][i] == name[i];
    assert forall i :: 0 <= i < |name| - 1 ==> name[i] == name[..|name| - 1][i] && name[i] != NUL;
    assert forall i :: 0 <= i < |c| ==> p[i] == c[i] && c[i] in c;
  }

  /** What a client with a proper name is announced with: a message of type 2 in these words. */
  lemma SessionWords(name: seq<byte>)
    requires IsCName(name)
    ensures var n := name[..|name| - 1];
            && Content(SystemMessage(Welcome, name).message)
               == Message(2, Bytes("Hello ") + n + Bytes(", welcome to the session.") + [0])
            && Content(SystemMessage(Joined, name).message)
               == Message(2, Bytes("*** ") + n + Bytes(" has joined the session ***") + [0])
            && Content(SystemMessage(Left, name).message)
               == Message(2, Bytes("*** ") + n + Bytes(" has left the session ***") + [0])
  {
    CStringOfPadded(name);
    hide CString, IsCName;
  }

  /** A client with a proper name passes the test for a session's message exactly as meant: the
      welcome of its own name, the announcements of all others, also of clients without a name. */
  lemma PassesAsMeant(name: seq<byte>, kind: Kind, origin: seq<byte>)
    requires IsCName(name) && (origin == [] || IsCName(origin)) && |origin| <= USERNAME_MAXLENGTH
    ensures Passes(name, SystemMessage(kind, origin)) <==> (kind == Welcome <==> origin == name)
  {
    hide IsCName, StartsWith;
    FieldStartsWithItsName(origin, name);
    FieldStartsWithItsName([], name);
    assert [] != name by { CNameFits(name); }
    assert Pad([], NAME_FIELD_SIZE) == Zeros(NAME_FIELD_SIZE);
  }

  /** Among proper names the welcome reaches its own client only, and the two announcements
      everybody but that client. */
  lemma SessionMessagesReach<S>(t: seq<Client<S>>, s: nat, kind: Kind)
    requires ProperNames(t) && s < |t| && t[s].isValid
    ensures Recipients(t, SystemMessage(kind, Name(t[s]))) == if kind == Welcome then {s} else ValidSet(t) - {s}
  {
    var m := SystemMessage(kind, Name(t[s]));
    if kind == Welcome {
      AddressedIsExact(t, m, Name(t[s]));
      assert s in Recipients(t, m);
    } else {
      BroadcastIsExact(t, s, m);
    }
  }
}

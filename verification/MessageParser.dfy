/** The command parser. A message is either plain text or a command word after a slash,
    followed by up to two fields that single spaces set apart. */
module MessageParser {
  import opened Common
  import opened ByteOrder
  import opened Protocol

  /** Room for a command word and for the name of the addressee in the parser's buffers. */
  const MAX_COMMAND_LENGTH := 20
  const DEST_USER_SIZE := 17

  datatype RequestType =
    | REQ_BROADCAST_MESSAGE
    | REQ_PRIVATE_MESSAGE
    | REQ_ACTIVE_USERS
    | REQ_QUIT_MESSAGE
    | REQ_INVALID

  /** What the parser fills in. `destUser` are the bytes copied to the field of that name; the
      two flags keep the values the code leaves in them. */
  datatype ParsedMessage = ParsedMessage(
    requestType: RequestType,
    destUser: Option<seq<byte>>,
    isBroadcast: bool,
    bodyLength: int,
    body: Option<seq<byte>>)

  /** Nothing is parsed from an empty body. `Overrun`: a copy would run past its buffer, and what
      the code does from there is undefined. */
  datatype ParseResult = Parsed(message: ParsedMessage) | Rejected | Overrun

  const ACTIVE_USERS := Bytes("active_users")
  const PRIVATE_MESSAGE := Bytes("private_message")
  const QUIT := Bytes("quit")

  const COMMANDS: seq<(seq<byte>, RequestType)> := [
    (ACTIVE_USERS, REQ_ACTIVE_USERS), (PRIVATE_MESSAGE, REQ_PRIVATE_MESSAGE), (QUIT, REQ_QUIT_MESSAGE)]

  /** Concrete syntax of a message. */
  datatype Syntax =
    | Plain(text: seq<byte>)
    | Bare(word: seq<byte>)
    | OneField(word: seq<byte>, arg: seq<byte>)
    | TwoFields(word: seq<byte>, arg: seq<byte>, text: seq<byte>)

  predicate WellFormed(x: Syntax) {
    match x
    case Plain(text) => text != [] && text[0] != SLASH
    case Bare(word) => SPACE !in word
    case OneField(word, arg) => SPACE !in word && SPACE !in arg
    case TwoFields(word, arg, _) => SPACE !in word && SPACE !in arg
  }

  function Print(x: Syntax): (r: seq<byte>) {
    match x
    case Plain(text) => text
    case Bare(word) => [SLASH] + word
    case OneField(word, arg) => [SLASH] + word + [SPACE] + arg
    case TwoFields(word, arg, text) => [SLASH] + word + [SPACE] + arg + [SPACE] + text
  }

  /** Position of the first `c`, or -1. */
  function IndexOf(s: seq<byte>, c: byte): (i: int)
    ensures -1 <= i < |s|
    ensures i >= 0 ==> s[i] == c && c !in s[..i]
    ensures i == -1 ==> c !in s
  {
    if s == [] then -1
    else if s[0] == c then 0
    else
      var i := IndexOf(s[1..], c);
      assert i >= 0 ==> s[..i + 1] == [s[0]] + s[1..][..i];
      if i == -1 then -1 else i + 1
  }

  /** The syntax of a non-empty message. */
  function Read(b: seq<byte>): (x: Syntax)
    requires b != []
  {
    if b[0] != SLASH then Plain(b)
    else
      var i := IndexOf(b[1..], SPACE);
      if i == -1 then Bare(b[1..])
      else
        var word, rest := b[1..][..i], b[1..][i + 1..];
        var j := IndexOf(rest, SPACE);
        if j == -1 then OneField(word, rest) else TwoFields(word, rest[..j], rest[j + 1..])
  }

  /** The command a word is taken for: the one it starts with. */
  function CommandOf(word: seq<byte>): (r: RequestType)
    ensures r != REQ_BROADCAST_MESSAGE
  {
    if StartsWith(word, ACTIVE_USERS) then REQ_ACTIVE_USERS
    else if StartsWith(word, PRIVATE_MESSAGE) then REQ_PRIVATE_MESSAGE
    else if StartsWith(word, QUIT) then REQ_QUIT_MESSAGE
    else REQ_INVALID
  }

  function Invalid(): (r: ParsedMessage) {
    ParsedMessage(REQ_INVALID, None, false, -1, None)
  }

  /** What a message of each form means. */
  function Meaning(x: Syntax): (r: ParsedMessage) {
    match x
    case Plain(text) => ParsedMessage(REQ_BROADCAST_MESSAGE, None, true, -1, Some(text))
    case Bare(word) =>
      if CommandOf(word) == REQ_PRIVATE_MESSAGE then Invalid()
        else ParsedMessage(CommandOf(word), None, false, -1, None)
    case OneField(word, _) =>
      if CommandOf(word) == REQ_PRIVATE_MESSAGE then Invalid()
        else ParsedMessage(CommandOf(word), None, false, -1, None)
    case TwoFields(word, arg, text) =>
      if CommandOf(word) == REQ_PRIVATE_MESSAGE
      then ParsedMessage(REQ_PRIVATE_MESSAGE, Some(arg), true, -1, Some(text))
      else Invalid()
  }

  /** The first space of a command is within reach of the command buffer, and a private
      message names a user that fits its field. */
  predicate FitsBuffers(b: seq<byte>) {
    b != [] && b[0] == SLASH ==>
      match Read(b)
      case OneField(word, _) => |word| <= MAX_COMMAND_LENGTH
      case TwoFields(word, arg, _) =>
        |word| <= MAX_COMMAND_LENGTH && (CommandOf(word) == REQ_PRIVATE_MESSAGE ==> |arg| <= DEST_USER_SIZE)
      case _ => true
  }

  lemma IndexOfIs(s: seq<byte>, c: byte, i: nat)
    requires i < |s| && s[i] == c && c !in s[..i]
    ensures IndexOf(s, c) == i
  {
    var f := IndexOf(s, c);
    assert forall k :: 0 <= k < i ==> s[k] in s[..i];
    assert f >= 0 ==> forall k :: 0 <= k < f ==> s[k] in s[..f];
  }

  lemma IndexOfSplit(a: seq<byte>, t: seq<byte>, c: byte)
    requires c !in a
    ensures IndexOf(a + [c] + t, c) == |a|
    ensures (a + [c] + t)[..|a|] == a && (a + [c] + t)[|a| + 1..] == t
  {
    assert (a + [c] + t)[..|a|] == a;
    IndexOfIs(a + [c] + t, c, |a|);
  }

  lemma SplitAtIndex(s: seq<byte>, c: byte)
    requires IndexOf(s, c) >= 0
    ensures s == s[..IndexOf(s, c)] + [c] + s[IndexOf(s, c) + 1..]
  {
  }

  lemma JoinWord(word: seq<byte>, rest: seq<byte>)
    ensures [SLASH] + (word + [SPACE] + rest) == [SLASH] + word + [SPACE] + rest
  {
  }

  lemma JoinFields(front: seq<byte>, arg: seq<byte>, text: seq<byte>)
    ensures front + (arg + [SPACE] + text) == front + arg + [SPACE] + text
  {
  }

  /** Reading loses nothing: the parts of a message concatenate back to it. */
  lemma ReadTiles(b: seq<byte>)
    requires b != []
    ensures WellFormed(Read(b)) && Print(Read(b)) == b
  {
    hide IndexOf;
    if b[0] == SLASH {
      var s := b[1..];
      assert b == [SLASH] + s;
      var i := IndexOf(s, SPACE);
      if i != -1 {
        SplitAtIndex(s, SPACE);
        var word, rest := s[..i], s[i + 1..];
        JoinWord(word, rest);
        var j := IndexOf(rest, SPACE);
        if j != -1 {
          SplitAtIndex(rest, SPACE);
          JoinFields([SLASH] + word + [SPACE], rest[..j], rest[j + 1..]);
        }
      }
    }
  }

  /** Reading is the inverse of printing, so the grammar is unambiguous. */
  lemma ReadOfPrint(x: Syntax)
    requires WellFormed(x)
    ensures Print(x) != [] && Read(Print(x)) == x
  {
    hide IndexOf;
    var b := Print(x);
    match x
    case Plain(_) =>
    case Bare(word) =>
      assert b[1..] == word;
    case OneField(word, arg) =>
      assert b[1..] == word + [SPACE] + arg;
      IndexOfSplit(word, arg, SPACE);
    case TwoFields(word, arg, text) =>
      var rest := arg + [SPACE] + text;
      assert b[1..] == word + [SPACE] + rest;
      IndexOfSplit(word, rest, SPACE);
      IndexOfSplit(arg, text, SPACE);
  }

  function RequestOf(b: seq<byte>): (r: RequestType)
    requires b != []
  {
    Meaning(Read(b)).requestType
  }

  function Spaces(b: seq<byte>): (r: nat) {
    multiset(b)[SPACE]
  }

  /** Number of spaces, and the command word, seen on the printed form. */
  lemma SpacesOfPrint(x: Syntax)
    requires WellFormed(x)
    ensures x.Bare? ==> Spaces(Print(x)) == 0
    ensures x.OneField? ==> Spaces(Print(x)) == 1
    ensures x.TwoFields? ==> Spaces(Print(x)) >= 2
  {
    match x
    case Plain(_) =>
    case Bare(word) => assert SPACE !in multiset(word);
    case OneField(word, arg) => assert SPACE !in multiset(word) && SPACE !in multiset(arg);
    case TwoFields(word, arg, _) =>
  }

  /** A slash, a word and then a space or nothing: a space-free prefix lies in the word. */
  lemma CommandPrefix(b: seq<byte>, word: seq<byte>, c: seq<byte>)
    requires SPACE !in c && |word| < |b| && b[0] == SLASH && b[1..|word| + 1] == word
    requires |b| == |word| + 1 || b[|word| + 1] == SPACE
    ensures StartsWith(b, [SLASH] + c) <==> StartsWith(word, c)
  {
    assert forall i {:trigger word[i]} :: 0 <= i < |word| ==> word[i] == b[1..|word| + 1][i] == b[i + 1];
    var p := [SLASH] + c;
    assert SPACE !in p;
    if StartsWith(b, p) {
      assert forall i :: 0 <= i < |p| ==> b[i] == b[..|p|][i] == p[i] && p[i] in p;
      assert |c| <= |word|;
      assert forall i :: 0 <= i < |c| ==> word[i] == c[i];
      assert word[..|c|] == c;
    }
    if StartsWith(word, c) {
      assert forall i :: 0 <= i < |c| ==> word[i] == word[..|c|][i];
      assert b[..|p|] == p;
    }
  }

  lemma CommandPrefixOfPrint(x: Syntax, c: seq<byte>)
    requires WellFormed(x) && !x.Plain? && SPACE !in c
    ensures StartsWith(Print(x), [SLASH] + c) <==> StartsWith(x.word, c)
  {
    hide StartsWith;
    var b := Print(x);
    match x
    case Bare(word) =>
      assert b == [SLASH] + word && b[1..|word| + 1] == word;
      CommandPrefix(b, word, c);
    case OneField(word, arg) =>
      assert b == [SLASH] + word + ([SPACE] + arg) && b[1..|word| + 1] == word;
      CommandPrefix(b, word, c);
    case TwoFields(word, arg, text) =>
      assert b == [SLASH] + word + ([SPACE] + arg + [SPACE] + text) && b[1..|word| + 1] == word;
      CommandPrefix(b, word, c);
  }

  /** No command word starts with another one, and none has a space. */
  lemma CommandsDisjoint(w: seq<byte>)
    ensures StartsWith(w, ACTIVE_USERS) ==> w[0] == 97
    ensures StartsWith(w, PRIVATE_MESSAGE) ==> w[0] == 112
    ensures StartsWith(w, QUIT) ==> w[0] == 113
    ensures SPACE !in ACTIVE_USERS && SPACE !in PRIVATE_MESSAGE && SPACE !in QUIT
  {
    assert ACTIVE_USERS[0] == 97 && PRIVATE_MESSAGE[0] == 112 && QUIT[0] == 113;
    assert StartsWith(w, ACTIVE_USERS) ==> w[..|ACTIVE_USERS|][0] == 97;
    assert StartsWith(w, PRIVATE_MESSAGE) ==> w[..|PRIVATE_MESSAGE|][0] == 112;
    assert StartsWith(w, QUIT) ==> w[..|QUIT|][0] == 113;
  }

  /** The declarative grammar: which bytes make which request. */
  function Grammar(b: seq<byte>): (r: RequestType)
    requires b != []
  {
    if b[0] != SLASH then REQ_BROADCAST_MESSAGE
    else if StartsWith(b, Bytes("/quit")) && Spaces(b) <= 1 then REQ_QUIT_MESSAGE
    else if StartsWith(b, Bytes("/active_users")) && Spaces(b) <= 1 then REQ_ACTIVE_USERS
    else if StartsWith(b, Bytes("/private_message")) && Spaces(b) >= 2 then REQ_PRIVATE_MESSAGE
    else REQ_INVALID
  }

  /** The command words behind their slash. */
  lemma SlashedWords()
    ensures Bytes("/quit") == [SLASH] + QUIT
    ensures Bytes("/active_users") == [SLASH] + ACTIVE_USERS
    ensures Bytes("/private_message") == [SLASH] + PRIVATE_MESSAGE
  {
  }

  /** The parser recognises exactly the grammar. */
  lemma RequestIsGrammar(b: seq<byte>)
    requires b != []
    ensures RequestOf(b) == Grammar(b)
  {
    var x := Read(b);
    ReadTiles(b);
    SlashedWords();
    if !x.Plain? {
      CommandsDisjoint(x.word);
      SpacesOfPrint(x);
      CommandPrefixOfPrint(x, QUIT);
      CommandPrefixOfPrint(x, ACTIVE_USERS);
      CommandPrefixOfPrint(x, PRIVATE_MESSAGE);
    }
  }

  /** Only a private message has an addressee, and then slash, command word, space, user,
      space and body are the whole message. */
  lemma PrivateTiles(b: seq<byte>)
    requires b != []
    ensures var p := Meaning(Read(b));
            && (p.destUser.Some? <==> p.requestType == REQ_PRIVATE_MESSAGE)
            && (p.body.Some? <==> p.requestType in {REQ_PRIVATE_MESSAGE, REQ_BROADCAST_MESSAGE})
            && (p.requestType == REQ_BROADCAST_MESSAGE ==> p.body.value == b)
            && (p.requestType == REQ_PRIVATE_MESSAGE ==>
                  && StartsWith(Read(b).word, PRIVATE_MESSAGE)
                  && SPACE !in Read(b).word && SPACE !in p.destUser.value
                  && b == [SLASH] + Read(b).word + [SPACE] + p.destUser.value + [SPACE] + p.body.value)
  {
    hide Read;
    ReadTiles(b);
  }

  /** A private message written out is parsed back to its user and body. */
  lemma PrivateRoundTrip(user: seq<byte>, text: seq<byte>)
    requires SPACE !in user
    ensures var b := [SLASH] + PRIVATE_MESSAGE + [SPACE] + user + [SPACE] + text;
            && Meaning(Read(b)) == ParsedMessage(REQ_PRIVATE_MESSAGE, Some(user), true, -1, Some(text))
            && (FitsBuffers(b) <==> |user| <= DEST_USER_SIZE)
  {
    ReadOfPrint(TwoFields(PRIVATE_MESSAGE, user, text));
    assert PRIVATE_MESSAGE[..|PRIVATE_MESSAGE|] == PRIVATE_MESSAGE;
    CommandsDisjoint(PRIVATE_MESSAGE);
  }

  /** The command a word spells out in full, read as a C string. */
  function SpelledCommand(word: seq<byte>): (r: RequestType) {
    if CString(word) == ACTIVE_USERS then REQ_ACTIVE_USERS
    else if CString(word) == PRIVATE_MESSAGE then REQ_PRIVATE_MESSAGE
    else if CString(word) == QUIT then REQ_QUIT_MESSAGE
    else REQ_INVALID
  }

  /** Nothing but the end of the string follows the command that starts `word`. */
  predicate EndsAfter(word: seq<byte>, c: seq<byte>) {
    StartsWith(word, c) ==> |word| == |c| || word[|c|] == NUL
  }

  lemma SpelledIsEndedPrefix(word: seq<byte>, c: seq<byte>)
    requires NUL !in c
    ensures CString(word) == c <==> StartsWith(word, c) && EndsAfter(word, c)
  {
    hide CString;
    var s := CString(word);
    assert forall i :: 0 <= i < |s| ==> word[i] == s[i] && s[i] in s;
    assert StartsWith(word, c) ==> forall i :: 0 <= i < |c| ==> word[i] == word[..|c|][i] && c[i] in c;
  }

  /** A word is taken for a command that it does not spell exactly when something other than
      the end of the string follows the command it starts with. */
  lemma CommandIsSpelledExactly(word: seq<byte>)
    ensures CommandOf(word) == SpelledCommand(word) <==>
            EndsAfter(word, ACTIVE_USERS) && EndsAfter(word, PRIVATE_MESSAGE) && EndsAfter(word, QUIT)
  {
    CommandsDisjoint(word);
    assert NUL !in ACTIVE_USERS && NUL !in PRIVATE_MESSAGE && NUL !in QUIT;
    SpelledIsEndedPrefix(word, ACTIVE_USERS);
    SpelledIsEndedPrefix(word, PRIVATE_MESSAGE);
    SpelledIsEndedPrefix(word, QUIT);
  }

  /** For instance "quitting" is taken for "quit". */
  lemma QuittingIsTakenForQuit()
    ensures CommandOf(Bytes("quitting")) == REQ_QUIT_MESSAGE && SpelledCommand(Bytes("quitting")) == REQ_INVALID
  {
    hide CString;
    var w := Bytes("quitting");
    assert w[..4] == QUIT;
    CommandsDisjoint(w);
    assert NUL !in ACTIVE_USERS && NUL !in PRIVATE_MESSAGE && NUL !in QUIT;
    SpelledIsEndedPrefix(w, ACTIVE_USERS);
    SpelledIsEndedPrefix(w, PRIVATE_MESSAGE);
    SpelledIsEndedPrefix(w, QUIT);
    assert w[4] == 116;
  }

  /** `FindChar`: the first `c` among the first `len` bytes, or -1. The code passes a length as an `int`. */
  method FindChar(str: seq<byte>, c: byte, len: int) returns (i: int)
    requires len <= |str|
    ensures i == IndexOf(str[..if len > 0 then len else 0], c)
  {
    var n := 0;
    while n < len
      invariant 0 <= n && (n <= len || n == 0) && c !in str[..n]
    {
      if str[n] == c {
        assert str[..len][..n] == str[..n];
        IndexOfIs(str[..len], c, n);
        return n;
      }
      assert str[..n + 1] == str[..n] + [str[n]];
      n := n + 1;
    }
    return -1;
  }

  /** What can be received: a body of 2^31 bytes or more arrives as zeros. */
  predicate CanArrive(b: seq<byte>) {
    |b| < TWO_31 || forall i :: 0 <= i < |b| ==> b[i] == NUL
  }

  lemma ReceivedCanArrive(s: seq<byte>)
    requires Decode(s).Complete?
    ensures CanArrive(Decode(s).message.body)
  {
    hide NetworkWord;
  }

  /** The command table is searched with a comparison of as many bytes as the command has. */
  method FindCommand(command: array<byte>) returns (t: RequestType)
    requires command.Length == MAX_COMMAND_LENGTH
    ensures t == CommandOf(command[..])
  {
    var i := 0;
    while i < |COMMANDS|
      invariant 0 <= i <= |COMMANDS| == 3
      invariant forall k :: 0 <= k < i ==> !StartsWith(command[..], COMMANDS[k].0)
    {
      var (c, request) := COMMANDS[i];
      if SameBytes(command[..], c, |c|) {
        assert c[..|c|] == c;
        assert StartsWith(command[..], COMMANDS[i].0);
        assert i > 0 ==> !StartsWith(command[..], COMMANDS[0].0);
        assert i > 1 ==> !StartsWith(command[..], COMMANDS[1].0);
        return request;
      }
      assert c[..|c|] == c;
      i := i + 1;
    }
    assert !StartsWith(command[..], COMMANDS[0].0) && !StartsWith(command[..], COMMANDS[1].0)
           && !StartsWith(command[..], COMMANDS[2].0);
    return REQ_INVALID;
  }

  /** Padding and cutting at the buffer size do not change which command a word starts with. */
  lemma BufferKeepsCommand(word: seq<byte>, n: nat)
    requires n == if |word| < MAX_COMMAND_LENGTH then |word| else MAX_COMMAND_LENGTH
    ensures CommandOf(Pad(word[..n], MAX_COMMAND_LENGTH)) == CommandOf(word)
  {
    BufferKeepsPrefix(word, n, ACTIVE_USERS);
    BufferKeepsPrefix(word, n, PRIVATE_MESSAGE);
    BufferKeepsPrefix(word, n, QUIT);
  }

  lemma BufferKeepsPrefix(word: seq<byte>, n: nat, c: seq<byte>)
    requires n == if |word| < MAX_COMMAND_LENGTH then |word| else MAX_COMMAND_LENGTH
    requires NUL !in c && |c| <= MAX_COMMAND_LENGTH
    ensures StartsWith(Pad(word[..n], MAX_COMMAND_LENGTH), c) <==> StartsWith(word, c)
  {
    var p := Pad(word[..n], MAX_COMMAND_LENGTH);
    assert forall i :: 0 <= i < n ==> p[i] == p[..n][i] == word[i];
    assert forall i :: 0 <= i < |c| ==> p[i] == p[..|c|][i] && c[i] in c;
    assert StartsWith(word, c) ==> forall i :: 0 <= i < |c| ==> word[i] == word[..|c|][i];
    assert n < MAX_COMMAND_LENGTH ==> p[n] == NUL;
    if StartsWith(p, c) {
      assert |c| <= n;
      assert word[..|c|] == c;
    }
    if StartsWith(word, c) {
      assert p[..|c|] == c;
    }
  }

  /** Where the parts of a command lie in the buffer. */
  lemma PartsOfCommand(b: seq<byte>)
    requires b != [] && b[0] == SLASH
    ensures Read(b).Plain? == false
    ensures var i := IndexOf(b[1..], SPACE);
            if i == -1 then Read(b) == Bare(b[1..])
            else
              var rest := b[i + 2..];
              var j := IndexOf(rest, SPACE);
              && Read(b).word == b[1..i + 1]
              && Read(b) == if j == -1 then OneField(b[1..i + 1], rest)
                 else TwoFields(b[1..i + 1], rest[..j], rest[j + 1..])
  {
    hide IndexOf;
    var i := IndexOf(b[1..], SPACE);
    if i != -1 {
      assert b[1..][..i] == b[1..i + 1];
      assert b[1..][i + 1..] == b[i + 2..];
    }
  }

  /** `ParseMessage`: offset arithmetic over the body, with the results of the grammar. */
  method ParseMessage(m: Decoded) returns (p: ParseResult)
    requires |m.body| == m.length && CanArrive(m.body)
    ensures p == if m.body == [] then Rejected
                 else if FitsBuffers(m.body) then Parsed(Meaning(Read(m.body))) else Overrun
  {
    if |m.body| == 0 {
      return Rejected;
    }
    if m.body[0] != SLASH {
      return Parsed(ParsedMessage(REQ_BROADCAST_MESSAGE, None, true, -1, Some(m.body)));
    }
    p := ParseCommand(m.body);
  }

  /** The branch of `ParseMessage` for a body that starts with a slash. */
  method ParseCommand(body: seq<byte>) returns (p: ParseResult)
    requires body != [] && body[0] == SLASH && |body| < TWO_31
    ensures p == if FitsBuffers(body) then Parsed(Meaning(Read(body))) else Overrun
  {
    hide *;
    var offset := 1;
    MeaningOfFields(body);
    FitOfFields(body);
    var request, commandLength := ReadCommandWord(body);
    if request.None? {
      return Overrun;
    }
    offset := offset + commandLength + 1;
    p := ParseFields(body[offset..], request.value);
  }

  /** The fields after the command word: all that follows its space, or the word itself again
      when there is no space. */
  lemma FieldsOfCommand(b: seq<byte>)
    requires b != [] && b[0] == SLASH
    ensures var i := IndexOf(b[1..], SPACE);
            var fields := b[i + 2..];
            var j := IndexOf(fields, SPACE);
            && !Read(b).Plain?
            && (i == -1 ==> j == -1 && Read(b) == Bare(fields))
            && (i != -1 && j == -1 ==> Read(b) == OneField(Read(b).word, fields) && |Read(b).word| == i)
            && (i != -1 && j != -1 ==>
                  Read(b) == TwoFields(Read(b).word, fields[..j], fields[j + 1..]) && |Read(b).word| == i)
  {
    hide IndexOf, Read;
    PartsOfCommand(b);
    if IndexOf(b[1..], SPACE) == -1 {
      assert b[-1 + 2..] == b[1..];
    }
  }

  lemma MeaningOfFields(b: seq<byte>)
    requires b != [] && b[0] == SLASH
    ensures !Read(b).Plain?
    ensures Meaning(Read(b)) == FieldsOf(CommandOf(Read(b).word), b[IndexOf(b[1..], SPACE) + 2..])
  {
    hide IndexOf, CommandOf, Read;
    FieldsOfCommand(b);
  }

  lemma FitOfFields(b: seq<byte>)
    requires b != [] && b[0] == SLASH
    ensures !Read(b).Plain?
    ensures var i := IndexOf(b[1..], SPACE);
            FitsBuffers(b) <==> i <= MAX_COMMAND_LENGTH && FieldsFit(CommandOf(Read(b).word), b[i + 2..])
  {
    hide IndexOf, CommandOf, Read;
    FieldsOfCommand(b);
  }

  /** The zeroed command buffer with the word copied to it. */
  method CommandBuffer(word: seq<byte>) returns (command: array<byte>)
    requires |word| <= MAX_COMMAND_LENGTH
    ensures command.Length == MAX_COMMAND_LENGTH && command[..] == Pad(word, MAX_COMMAND_LENGTH)
  {
    var padded := Pad(word, MAX_COMMAND_LENGTH);
    command := new byte[MAX_COMMAND_LENGTH](i requires 0 <= i < |padded| => padded[i]);
    assert command[..] == padded;
  }

  /** Finds the end of the command word, copies the word to its zeroed buffer and looks it up. */
  method ReadCommandWord(body: seq<byte>) returns (request: Option<RequestType>, commandLength: int)
    requires body != [] && body[0] == SLASH && |body| < TWO_31
    ensures commandLength == IndexOf(body[1..], SPACE)
    ensures request.None? <==> commandLength > MAX_COMMAND_LENGTH
    ensures request.Some? ==> !Read(body).Plain? && request.value == CommandOf(Read(body).word)
  {
    hide IndexOf;
    hide CommandOf;
    PartsOfCommand(body);
    ghost var word := Read(body).word;
    var rest := body[1..];
    commandLength := FindChar(rest, SPACE, AsInt32(|rest|));
    assert rest[..|rest|] == rest;
    var toCopy := commandLength;
    if commandLength == -1 {
      toCopy := if |rest| < MAX_COMMAND_LENGTH then |rest| else MAX_COMMAND_LENGTH;
    }
    if toCopy > MAX_COMMAND_LENGTH {
      return None, commandLength;
    }
    assert rest[..toCopy] == word[..toCopy];
    BufferKeepsCommand(word, toCopy);
    var command := CommandBuffer(rest[..toCopy]);
    var found := FindCommand(command);
    return Some(found), commandLength;
  }

  /** The user of a private message fits its field. */
  predicate FieldsFit(request: RequestType, fields: seq<byte>) {
    request == REQ_PRIVATE_MESSAGE ==> IndexOf(fields, SPACE) <= DEST_USER_SIZE
  }

  /** What the fields from `offset` on make of a request. */
  function FieldsOf(request: RequestType, fields: seq<byte>): (r: ParsedMessage) {
    var i := IndexOf(fields, SPACE);
    if request == REQ_PRIVATE_MESSAGE then
      if i == -1 then Invalid()
      else ParsedMessage(request, Some(fields[..i]), true, -1, Some(fields[i + 1..]))
    else if i == -1 then ParsedMessage(request, None, false, -1, None)
    else Invalid()
  }

  /** The part of `ParseMessage` after the command word: the user, the body and the check for
      fields that should not be there. */
  method ParseFields(fields: seq<byte>, request: RequestType) returns (p: ParseResult)
    requires request != REQ_BROADCAST_MESSAGE && |fields| < TWO_31
    ensures p == if FieldsFit(request, fields) then Parsed(FieldsOf(request, fields)) else Overrun
  {
    hide IndexOf;
    var requestType := request;
    var destUser: Option<seq<byte>> := None;
    var text: Option<seq<byte>> := None;
    var isBroadcast := false;
    assert fields[..|fields|] == fields;
    if requestType == REQ_PRIVATE_MESSAGE {
      var i := FindChar(fields, SPACE, AsInt32(|fields|));
      if i == -1 {
        requestType := REQ_INVALID;
      } else {
        if i > DEST_USER_SIZE {
          return Overrun;
        }
        destUser := Some(fields[..i]);
        text := Some(fields[i + 1..]);
        isBroadcast := true;
      }
    }
    if requestType == REQ_QUIT_MESSAGE || requestType == REQ_ACTIVE_USERS {
      var i := FindChar(fields, SPACE, AsInt32(|fields|));
      if i != -1 {
        requestType := REQ_INVALID;
      }
    }
    return Parsed(ParsedMessage(requestType, destUser, isBroadcast, -1, text));
  }
}

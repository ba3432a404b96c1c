/** What a message means and how it is handled, in terms of nothing but its bytes. */
module MessageSpelling {
  import opened Common
  import opened MessageParser

  // ---- Words ----

  lemma SpacesOfConcat(a: seq<byte>, b: seq<byte>)
    requires SPACE !in a
    ensures Spaces(a + b) == Spaces(b)
  {
    assert SPACE !in multiset(a);
  }

  lemma StartsItself(a: seq<byte>, b: seq<byte>)
    ensures StartsWith(a + b, a)
  {
  }

  lemma FirstLetters(b: seq<byte>)
    ensures StartsWith(b, Bytes("/quit")) ==> b[0] == 47 && b[1] == 113
    ensures StartsWith(b, Bytes("/active_users")) ==> b[0] == 47 && b[1] == 97
    ensures StartsWith(b, Bytes("/private_message")) ==> b[0] == 47 && b[1] == 112
  {
    var q, a, p := Bytes("/quit"), Bytes("/active_users"), Bytes("/private_message");
    assert StartsWith(b, q) ==> b[0] == b[..|q|][0] && b[1] == b[..|q|][1];
    assert StartsWith(b, a) ==> b[0] == b[..|a|][0] && b[1] == b[..|a|][1];
    assert StartsWith(b, p) ==> b[0] == b[..|p|][0] && b[1] == b[..|p|][1];
  }

  /** Whatever follows the word, the number of spaces in it decides. */
  lemma WordsDecide(rest: seq<byte>)
    ensures RequestOf(Bytes("/quit") + rest) == if multiset(rest)[32] <= 1 then REQ_QUIT_MESSAGE else REQ_INVALID
    ensures RequestOf(Bytes("/active_users") + rest)
         == if multiset(rest)[32] <= 1 then REQ_ACTIVE_USERS else REQ_INVALID
    ensures RequestOf(Bytes("/private_message") + rest)
         == if multiset(rest)[32] >= 2 then REQ_PRIVATE_MESSAGE else REQ_INVALID
  {
    hide RequestOf;
    var q, a, p := Bytes("/quit"), Bytes("/active_users"), Bytes("/private_message");
    SpacesOfConcat(q, rest);
    SpacesOfConcat(a, rest);
    SpacesOfConcat(p, rest);
    RequestIsGrammar(q + rest);
    RequestIsGrammar(a + rest);
    RequestIsGrammar(p + rest);
    StartsItself(q, rest);
    StartsItself(a, rest);
    StartsItself(p, rest);
    FirstLetters(q + rest);
    FirstLetters(a + rest);
    FirstLetters(p + rest);
  }

  /** A slash and none of the three words. */
  lemma OtherWordsAreInvalid(b: seq<byte>)
    requires b != [] && b[0] == 47
    requires !StartsWith(b, Bytes("/quit")) && !StartsWith(b, Bytes("/active_users"))
             && !StartsWith(b, Bytes("/private_message"))
    ensures RequestOf(b) == REQ_INVALID
  {
    hide RequestOf;
    RequestIsGrammar(b);
  }

  /** No slash: the whole message is for everybody. */
  lemma PlainIsBroadcast(b: seq<byte>)
    requires b != [] && b[0] != 47
    ensures Meaning(Read(b)) == ParsedMessage(REQ_BROADCAST_MESSAGE, None, true, -1, Some(b))
  {
    PrivateTiles(b);
  }

  lemma PrivateAsSpelled(user: seq<byte>, text: seq<byte>)
    requires 32 !in user
    ensures Meaning(Read(Bytes("/private_message ") + user + [32] + text))
         == ParsedMessage(REQ_PRIVATE_MESSAGE, Some(user), true, -1, Some(text))
  {
    SlashedWords();
    assert Bytes("/private_message ") == Bytes("/private_message") + [SPACE];
    PrivateRoundTrip(user, text);
  }

  // ---- Room ----

  /** The first space of the message, and its second one. */
  predicate FirstSpace(b: seq<byte>, i: nat) {
    i < |b| && b[i] == 32 && 32 !in b[..i]
  }

  predicate SecondSpace(b: seq<byte>, i: nat, j: nat) {
    i < j < |b| && FirstSpace(b, i) && b[j] == 32 && 32 !in b[i + 1..j]
  }

  /** The command word of a message, read up to its first space, has more than the 20 bytes of its
      buffer; or the user of a private message, read up to the second, more than the 17 of its field. */
  predicate RunsPast(b: seq<byte>) {
    && b != [] && b[0] == 47
    && (|| (exists i: nat :: i < |b| && FirstSpace(b, i) && i - 1 > 20)
        || (StartsWith(b, Bytes("/private_message"))
            && exists i: nat, j: nat :: i < j < |b| && SecondSpace(b, i, j) && j - i - 1 > 17))
  }

  lemma NoneBetween(b: seq<byte>, i: nat, k: nat)
    requires i <= k <= |b| && SPACE !in b[i..k]
    ensures forall m :: i <= m < k ==> b[m] != SPACE
  {
    assert forall m :: i <= m < k ==> b[m] == b[i..k][m - i] && b[i..k][m - i] in b[i..k];
  }

  lemma OneFirstSpace(b: seq<byte>, i: nat, k: nat)
    requires FirstSpace(b, i) && FirstSpace(b, k)
    ensures i == k
  {
    NoneBetween(b, 0, i);
    NoneBetween(b, 0, k);
  }

  lemma OneSecondSpace(b: seq<byte>, i: nat, j: nat, k: nat)
    requires SecondSpace(b, i, j) && SecondSpace(b, i, k)
    ensures j == k
  {
    NoneBetween(b, i + 1, j);
    NoneBetween(b, i + 1, k);
  }

  lemma FirstSpaceIs(a: seq<byte>, t: seq<byte>)
    requires SPACE !in a
    ensures forall i: nat :: FirstSpace(a + [SPACE] + t, i) <==> i == |a|
    ensures forall i: nat :: !FirstSpace(a, i)
  {
    var b := a + [SPACE] + t;
    assert b[..|a|] == a;
    forall i: nat | FirstSpace(b, i)
      ensures i == |a|
    {
      OneFirstSpace(b, i, |a|);
    }
  }

  lemma SecondSpaceIs(a: seq<byte>, u: seq<byte>, t: seq<byte>)
    requires SPACE !in a && SPACE !in u
    ensures forall i: nat, j: nat :: SecondSpace(a + [SPACE] + u + [SPACE] + t, i, j) <==>
                                       i == |a| && j == |a| + 1 + |u|
    ensures forall i: nat, j: nat :: !SecondSpace(a + [SPACE] + u, i, j)
  {
    var b := a + [SPACE] + u + [SPACE] + t;
    assert b == a + [SPACE] + (u + [SPACE] + t);
    FirstSpaceIs(a, u + [SPACE] + t);
    FirstSpaceIs(a, u);
    var k := |a| + 1 + |u|;
    assert b[|a| + 1..k] == u;
    assert SecondSpace(b, |a|, k);
    forall j: nat | SecondSpace(b, |a|, j)
      ensures j == k
    {
      OneSecondSpace(b, |a|, j, k);
    }
  }

  /** The positions of the first two spaces decide whether the parser stays in its buffers. */
  lemma FitsByPositions(b: seq<byte>)
    ensures FitsBuffers(b) <==> !RunsPast(b)
  {
    hide FirstSpace, SecondSpace, StartsWith, Read;
    if b != [] && b[0] == SLASH {
      ReadTiles(b);
      SlashedWords();
      var x := Read(b);
      CommandsDisjoint(x.word);
      CommandPrefixOfPrint(x, PRIVATE_MESSAGE);
      match x
      case Bare(word) =>
        FirstSpaceIs([SLASH] + word, []);
        SecondIsAfterFirst(b);
      case OneField(word, arg) =>
        FirstSpaceIs([SLASH] + word, arg);
        SecondSpaceIs([SLASH] + word, arg, []);
        assert FirstSpace(b, |word| + 1);
      case TwoFields(word, arg, text) =>
        FirstSpaceIs([SLASH] + word, arg + [SPACE] + text);
        JoinFields([SLASH] + word + [SPACE], arg, text);
        SecondSpaceIs([SLASH] + word, arg, text);
        assert FirstSpace(b, |word| + 1) && SecondSpace(b, |word| + 1, |word| + 2 + |arg|);
    }
  }

  lemma SecondIsAfterFirst(b: seq<byte>)
    ensures forall i: nat, j: nat :: SecondSpace(b, i, j) ==> FirstSpace(b, i)
  {
  }
}

/** The wire protocol: a packed header (type byte, 32-bit length in network order), then the body.

    A message is built with its length already in network order (`Outgoing`) and received with
    the length turned back to host order (`Decoded`). */
module Protocol {
  import opened Common
  import opened ByteOrder
  import opened Sockets

  const LOGIN_REQUEST: byte := 0
  const USER_MESSAGE: byte := 1
  const SYSTEM_MESSAGE: byte := 2
  const SYSTEM_MESSAGE_LOGIN_FAILED: byte := 3

  const HEADER_LENGTH := 5

  datatype Message = Message(msgType: byte, body: seq<byte>)

  datatype Outgoing = Outgoing(msgType: byte, networkLength: uint32, body: seq<byte>)

  datatype Decoded = Decoded(msgType: byte, length: uint32, body: seq<byte>)

  /** A message whose length fits the header field. */
  predicate Fits(m: Message) {
    |m.body| < TWO_32
  }

  function Build(m: Message): (o: Outgoing)
    requires Fits(m)
  {
    Outgoing(m.msgType, Swap(|m.body|), m.body)
  }

  /** The length field of an outgoing message names its body. */
  predicate WellBuilt(o: Outgoing) {
    Swap(o.networkLength) == |o.body|
  }

  lemma BuildIsWellBuilt(m: Message)
    requires Fits(m)
    ensures WellBuilt(Build(m))
  {
    SwapTwice(|m.body|);
  }

  /** The content of a well built outgoing message. */
  function Content(o: Outgoing): (r: Message) {
    Message(o.msgType, o.body)
  }

  /** How many body bytes the transfer loops move for a length field: the length is passed as a
      signed `int`, so from 2^31 on none. */
  function BodyBytesMoved(length: uint32): (n: nat)
    ensures n == if length < TWO_31 then length else 0
  {
    if AsInt32(length) > 0 then AsInt32(length) else 0
  }

  /** The bytes of a message on the stream. */
  function Frame(m: Message): (f: seq<byte>)
    requires Fits(m)
    ensures |f| == HEADER_LENGTH + BodyBytesMoved(|m.body|)
  {
    [m.msgType] + NetworkBytes(|m.body|) + m.body[..BodyBytesMoved(|m.body|)]
  }

  /** Byte for byte: the type, the four digits of the length from the highest on, the body. */
  lemma FrameByBytes(m: Message, a: byte, b: byte, c: byte, d: byte)
    requires |m.body| == 0x100_0000 * a + 0x1_0000 * b + 0x100 * c + d
    ensures Fits(m) && Frame(m) == [m.msgType, a, b, c, d] + if a < 0x80 then m.body else []
  {
    DigitsOfWord(d, c, b, a);
  }

  predicate AllFit(ms: seq<Message>) {
    forall i :: 0 <= i < |ms| ==> Fits(ms[i])
  }

  function Frames(ms: seq<Message>): (f: seq<byte>)
    requires AllFit(ms)
  {
    if ms == [] then [] else Frame(ms[0]) + Frames(ms[1..])
  }

  datatype Decoding = Complete(message: Message, rest: seq<byte>) | Truncated

  /** What a receiver makes of a stream: one message and what follows it, or a stream cut short. */
  function Decode(s: seq<byte>): (d: Decoding)
    ensures d.Complete? ==> |d.rest| + HEADER_LENGTH <= |s| && d.rest == s[|s| - |d.rest|..] && Fits(d.message)
  {
    if |s| < HEADER_LENGTH then Truncated
    else
      var length := NetworkWord(s[1..HEADER_LENGTH]);
      var n := BodyBytesMoved(length);
      if |s| < HEADER_LENGTH + n then Truncated
      else Complete(Message(s[0], s[HEADER_LENGTH..HEADER_LENGTH + n] + Zeros(length - n)), s[HEADER_LENGTH + n..])
  }

  /** Receiving over and over: the messages, and the bytes left when the stream is cut. */
  function DecodeAll(s: seq<byte>): (r: (seq<Message>, seq<byte>))
    decreases |s|
  {
    match Decode(s)
    case Truncated => ([], s)
    case Complete(m, rest) =>
      var (ms, left) := DecodeAll(rest);
      ([m] + ms, left)
  }

  /** The message that arrives when `m` is sent: bodies of 2^31 bytes or more arrive as zeros. */
  function Carried(m: Message): (c: Message)
    ensures c.msgType == m.msgType && |c.body| == |m.body|
  {
    if |m.body| < TWO_31 then m else Message(m.msgType, Zeros(|m.body|))
  }

  function CarriedAll(ms: seq<Message>): (cs: seq<Message>)
    ensures |cs| == |ms| && forall i :: 0 <= i < |ms| ==> cs[i] == Carried(ms[i])
  {
    seq(|ms|, i requires 0 <= i < |ms| => Carried(ms[i]))
  }

  /** Exactly the messages below 2^31 bytes, and all-zero bodies, arrive as they were sent. */
  lemma CarriedExactly(m: Message)
    ensures Carried(m) == m <==> |m.body| < TWO_31 || forall i :: 0 <= i < |m.body| ==> m.body[i] == NUL
  {
    if |m.body| >= TWO_31 && forall i :: 0 <= i < |m.body| ==> m.body[i] == NUL {
      assert m.body == Zeros(|m.body|);
    }
  }

  lemma HeaderSaysLength(m: Message)
    requires Fits(m)
    ensures Frame(m)[1..HEADER_LENGTH] == NetworkBytes(|m.body|)
  {
  }

  /** A frame decodes to the carried message and takes no byte of what follows it. */
  lemma FrameDecodes(m: Message, rest: seq<byte>)
    requires Fits(m)
    ensures Decode(Frame(m) + rest) == Complete(Carried(m), rest)
  {
    var s := Frame(m) + rest;
    assert s[1..HEADER_LENGTH] == NetworkBytes(|m.body|);
    WordOfDigits(|m.body|);
    var n := BodyBytesMoved(|m.body|);
    assert s[HEADER_LENGTH..HEADER_LENGTH + n] == m.body[..n];
    assert s[HEADER_LENGTH + n..] == rest;
    assert m.body[..n] + Zeros(|m.body| - n) == Carried(m).body;
  }

  /** No proper prefix of a frame decodes as a message. */
  lemma NoPrefixDecodes(m: Message, k: nat)
    requires Fits(m) && k < |Frame(m)|
    ensures Decode(Frame(m)[..k]) == Truncated
  {
    if k >= HEADER_LENGTH {
      HeaderSaysLength(m);
      assert Frame(m)[..k][1..HEADER_LENGTH] == Frame(m)[1..HEADER_LENGTH];
      WordOfDigits(|m.body|);
    }
  }

  lemma DecodeAllStep(m: Message, rest: seq<byte>)
    requires Fits(m)
    ensures DecodeAll(Frame(m) + rest) == ([Carried(m)] + DecodeAll(rest).0, DecodeAll(rest).1)
  {
    FrameDecodes(m, rest);
  }

  lemma CarriedAllUnroll(ms: seq<Message>)
    requires ms != []
    ensures CarriedAll(ms) == [Carried(ms[0])] + CarriedAll(ms[1..])
  {
  }

  lemma RoundTripOfNone(tail: seq<byte>)
    ensures DecodeAll(Frames([]) + tail) == (CarriedAll([]) + DecodeAll(tail).0, DecodeAll(tail).1)
  {
    hide DecodeAll;
    assert Frames([]) + tail == tail;
    assert CarriedAll([]) + DecodeAll(tail).0 == DecodeAll(tail).0;
  }

  lemma FramesUnroll(ms: seq<Message>, tail: seq<byte>)
    requires AllFit(ms) && ms != []
    ensures Frames(ms) + tail == Frame(ms[0]) + (Frames(ms[1..]) + tail)
  {
    hide Frame;
  }

  lemma RoundTripOfMore(ms: seq<Message>, tail: seq<byte>)
    requires AllFit(ms) && ms != []
    requires DecodeAll(Frames(ms[1..]) + tail) == (CarriedAll(ms[1..]) + DecodeAll(tail).0, DecodeAll(tail).1)
    ensures DecodeAll(Frames(ms) + tail) == (CarriedAll(ms) + DecodeAll(tail).0, DecodeAll(tail).1)
  {
    hide Frame, Frames, Carried, CarriedAll, Decode, DecodeAll;
    var rest := Frames(ms[1..]) + tail;
    var first, later, after := [Carried(ms[0])], CarriedAll(ms[1..]), DecodeAll(tail).0;
    assert DecodeAll(Frames(ms) + tail) == (first + DecodeAll(rest).0, DecodeAll(rest).1) by {
      FramesUnroll(ms, tail);
      DecodeAllStep(ms[0], rest);
    }
    assert CarriedAll(ms) == first + later by {
      CarriedAllUnroll(ms);
    }
    Associative(first, later, after);
  }

  /** The stream round trip: types and bodies come back in order and nothing is left over. */
  lemma {:induction false} StreamRoundTrip(ms: seq<Message>, tail: seq<byte>)
    requires AllFit(ms)
    ensures DecodeAll(Frames(ms) + tail) == (CarriedAll(ms) + DecodeAll(tail).0, DecodeAll(tail).1)
  {
    if ms == [] {
      RoundTripOfNone(tail);
    } else {
      StreamRoundTrip(ms[1..], tail);
      RoundTripOfMore(ms, tail);
    }
  }

  /** Below 2^31 bytes the round trip is the identity. */
  lemma StreamIdentity(ms: seq<Message>)
    requires AllFit(ms) && forall i :: 0 <= i < |ms| ==> |ms[i].body| < TWO_31
    ensures DecodeAll(Frames(ms)) == (ms, [])
  {
    StreamRoundTrip(ms, []);
    assert Frames(ms) + [] == Frames(ms);
    assert CarriedAll(ms) + [] == ms;
  }

  /** How many whole frames fit in the first `k` bytes of the stream of `ms`. */
  function WholeFrames(ms: seq<Message>, k: nat): (c: nat)
    requires AllFit(ms)
    ensures c <= |ms|
  {
    if ms == [] || k < |Frame(ms[0])| then 0 else 1 + WholeFrames(ms[1..], k - |Frame(ms[0])|)
  }

  /** What is left when receiving stops does not decode. */
  lemma {:induction false} LeftoverIsCutShort(s: seq<byte>)
    ensures Decode(DecodeAll(s).1) == Truncated
    decreases |s|
  {
    if Decode(s).Complete? {
      LeftoverIsCutShort(Decode(s).rest);
    }
  }

  /** `WholeFrames` counts the frames that end within the first `k` bytes, and no other. */
  lemma {:induction false} WholeFramesBounds(ms: seq<Message>, k: nat)
    requires AllFit(ms)
    ensures var c := WholeFrames(ms, k);
            |Frames(ms[..c])| <= k && (c < |ms| ==> k < |Frames(ms[..c + 1])|)
  {
    hide Frame;
    var c := WholeFrames(ms, k);
    if ms != [] && k >= |Frame(ms[0])| {
      WholeFramesBounds(ms[1..], k - |Frame(ms[0])|);
      CutUnroll(ms, c);
    }
    if c < |ms| {
      CutUnroll(ms, c + 1);
    }
    assert c == 0 ==> ms[..c] == [];
  }

  lemma {:induction false} PartOfFrames(ms: seq<Message>, c: nat)
    requires AllFit(ms) && c <= |ms|
    ensures Frames(ms) == Frames(ms[..c]) + Frames(ms[c..])
  {
    hide Frame;
    if c == 0 {
      assert ms[..c] == [] && ms[c..] == ms;
    } else {
      PartOfFrames(ms[1..], c - 1);
      CutUnroll(ms, c);
      assert ms[1..][c - 1..] == ms[c..];
    }
  }

  /** A stream cut after any byte yields exactly the messages whose frames are whole, then
      a failure: never a wrong or shortened message. */
  lemma CutStream(ms: seq<Message>, k: nat)
    requires AllFit(ms) && k <= |Frames(ms)|
    ensures var c := WholeFrames(ms, k);
            && |Frames(ms[..c])| <= k
            && DecodeAll(Frames(ms)[..k]) == (CarriedAll(ms[..c]), Frames(ms)[|Frames(ms[..c])|..k])
  {
    hide Frame, Frames, WholeFrames, Decode, DecodeAll, CarriedAll;
    var c := WholeFrames(ms, k);
    WholeFramesBounds(ms, k);
    PartOfFrames(ms, c);
    var whole := Frames(ms[..c]);
    var tail := Frames(ms)[|whole|..k];
    assert Frames(ms)[..k] == whole + tail;
    StreamRoundTrip(ms[..c], tail);
    if c < |ms| {
      CutUnroll(ms, c + 1);
      PartOfFrames(ms, c + 1);
      FramesSnoc(ms, c);
      assert tail == Frame(ms[c])[..k - |whole|];
      NoPrefixDecodes(ms[c], k - |whole|);
    } else {
      assert ms[..c] == ms;
    }
    NothingDecodes(tail);
    assert CarriedAll(ms[..c]) + [] == CarriedAll(ms[..c]);
  }

  lemma FramesSnoc(ms: seq<Message>, c: nat)
    requires AllFit(ms) && c < |ms|
    ensures Frames(ms[..c + 1]) == Frames(ms[..c]) + Frame(ms[c])
  {
    hide Frame;
    PartOfFrames(ms[..c + 1], c);
    assert ms[..c + 1][..c] == ms[..c];
    assert ms[..c + 1][c..] == [ms[c]];
    assert Frames([ms[c]]) == Frame(ms[c]) + Frames([]);
  }

  lemma NothingDecodes(s: seq<byte>)
    requires s == [] || Decode(s) == Truncated
    ensures DecodeAll(s) == ([], s)
  {
  }

  lemma CutUnroll(ms: seq<Message>, c: nat)
    requires AllFit(ms) && 0 < c <= |ms|
    ensures Frames(ms[..c]) == Frame(ms[0]) + Frames(ms[1..][..c - 1])
  {
    assert ms[..c][1..] == ms[1..][..c - 1];
  }

  /** Frames of different messages never overlap: equal streams come from equal carried lists. */
  lemma FramesAreUnambiguous(ms: seq<Message>, ns: seq<Message>)
    requires AllFit(ms) && AllFit(ns) && Frames(ms) == Frames(ns)
    ensures CarriedAll(ms) == CarriedAll(ns)
  {
    StreamRoundTrip(ms, []);
    StreamRoundTrip(ns, []);
    assert Frames(ms) + [] == Frames(ms);
    assert Frames(ns) + [] == Frames(ns);
    assert CarriedAll(ms) + [] == CarriedAll(ms);
    assert CarriedAll(ns) + [] == CarriedAll(ns);
  }

  /** The memory image of a header, as it is handed to `send`. */
  function HeaderBytes(msgType: byte, lengthField: uint32): (h: seq<byte>)
    ensures |h| == HEADER_LENGTH
  {
    [msgType] + HostBytes(lengthField)
  }

  lemma HeaderThenBodyIsFrame(o: Outgoing)
    requires WellBuilt(o)
    ensures Fits(Content(o))
    ensures HeaderBytes(o.msgType, o.networkLength) + o.body[..BodyBytesMoved(|o.body|)] == Frame(Content(o))
    ensures o.networkLength == 0 <==> |o.body| == 0
  {
    SwapTwice(o.networkLength);
    SwapIsNetworkOrder(|o.body|);
  }

  /** `BuildChatMessage`; a null body is refused. */
  method BuildChatMessage(msgType: byte, body: array?<byte>, bodyLength: uint32) returns (o: Option<Outgoing>)
    requires body != null ==> bodyLength <= body.Length
    ensures o.None? <==> body == null
    ensures o.Some? ==> WellBuilt(o.value) && Content(o.value) == Message(msgType, body[..bodyLength])
    ensures o.Some? ==> o.value == Build(Message(msgType, body[..bodyLength]))
  {
    if body == null {
      return None;
    }
    var copy := body[..bodyLength];
    BuildIsWellBuilt(Message(msgType, copy));
    return Some(Outgoing(msgType, Swap(bodyLength), copy));
  }

  /** The stream grew from `before` to `after` by a proper part of the frame of `m`. */
  ghost predicate PartOfFrame(m: Message, before: seq<byte>, after: seq<byte>)
    requires Fits(m)
  {
    exists k: nat :: k < |Frame(m)| && after == before + Frame(m)[..k]
  }

  /** `SendChatMessage`: on success exactly one frame went out, otherwise a proper part of one. */
  method SendChatMessage(sock: Socket?, o: Outgoing) returns (ok: bool)
    requires WellBuilt(o)
    modifies (if sock == null then {} else {sock})`wire
    ensures Fits(Content(o))
    ensures sock == null ==> !ok
    ensures ok ==> sock.wire == old(sock.wire) + Frame(Content(o))
    ensures !ok && sock != null ==>
      !sock.Up() && PartOfFrame(Content(o), old(sock.wire), sock.wire)
    ensures sock != null && sock.closed ==> !ok && sock.wire == old(sock.wire)
  {
    HeaderThenBodyIsFrame(o);
    if sock == null {
      return false;
    }
    ghost var frame := Frame(Content(o));
    ghost var before := sock.wire;
    var h := HeaderBytes(o.msgType, o.networkLength);
    assert frame[..HEADER_LENGTH] == h;
    var header := new byte[HEADER_LENGTH](i requires 0 <= i < |h| => h[i]);
    assert header[..] == h;
    var r := SendBuffer(header, HEADER_LENGTH, sock);
    if r != TRNS_SUCCEEDED {
      ghost var k: nat :| k < HEADER_LENGTH && sock.wire == before + header[..][..k];
      assert header[..][..k] == frame[..k];
      return false;
    }
    assert sock.wire == before + h;
    if o.networkLength > 0 {
      ok := SendBody(sock, o, before);
      return;
    }
    assert frame == h;
    return true;
  }

  /** Cut within its body, a frame is its header and a part of its body. */
  lemma CutInBody(o: Outgoing, before: seq<byte>, sent: nat)
    requires WellBuilt(o) && Fits(Content(o)) && sent < BodyBytesMoved(|o.body|)
    ensures PartOfFrame(Content(o), before, before + HeaderBytes(o.msgType, o.networkLength) + o.body[..sent])
  {
    HeaderThenBodyIsFrame(o);
    var h, part, f := HeaderBytes(o.msgType, o.networkLength), o.body[..sent], Frame(Content(o));
    hide *;
    assert f[..HEADER_LENGTH + sent] == h + part;
    Associative(before, h, part);
    assert before + h + part == before + f[..HEADER_LENGTH + sent];
  }

  /** The second half of `SendChatMessage`, once the header is out. */
  method SendBody(sock: Socket, o: Outgoing, ghost before: seq<byte>) returns (ok: bool)
    requires WellBuilt(o) && Fits(Content(o))
    requires sock.wire == before + HeaderBytes(o.msgType, o.networkLength)
    modifies sock`wire
    ensures ok ==> sock.wire == before + Frame(Content(o))
    ensures !ok ==> !sock.Up() && PartOfFrame(Content(o), before, sock.wire)
  {
    HeaderThenBodyIsFrame(o);
    ghost var n := BodyBytesMoved(|o.body|);
    var body := new byte[|o.body|](i requires 0 <= i < |o.body| => o.body[i]);
    assert body[..] == o.body;
    hide Frame, HeaderBytes, PartOfFrame;
    var r := SendBuffer(body, AsInt32(Swap(o.networkLength)), sock);
    if r != TRNS_SUCCEEDED {
      ghost var sent: nat :|
        sent < n && sock.wire == before + HeaderBytes(o.msgType, o.networkLength) + body[..][..sent];
      CutInBody(o, before, sent);
      return false;
    }
    assert body[..n] == o.body[..n];
    Associative(before, HeaderBytes(o.msgType, o.networkLength), o.body[..n]);
    return true;
  }

  lemma DecodeByLength(s: seq<byte>)
    ensures |s| < HEADER_LENGTH ==> Decode(s) == Truncated
    ensures |s| >= HEADER_LENGTH ==>
              var length := NetworkWord(s[1..HEADER_LENGTH]);
              var n := BodyBytesMoved(length);
              Decode(s) == if |s| < HEADER_LENGTH + n then Truncated
                           else Complete(Message(s[0], s[HEADER_LENGTH..][..n] + Zeros(length - n)),
                                         s[HEADER_LENGTH..][n..])
  {
    hide NetworkWord;
    if |s| >= HEADER_LENGTH {
      var n := BodyBytesMoved(NetworkWord(s[1..HEADER_LENGTH]));
      if |s| >= HEADER_LENGTH + n {
        assert s[HEADER_LENGTH..][..n] == s[HEADER_LENGTH..HEADER_LENGTH + n];
        assert s[HEADER_LENGTH..][n..] == s[HEADER_LENGTH + n..];
      }
    }
  }

  /** `ReceiveChatMessage`: one decoding step of the stream, for every way `recv` may cut it up. */
  method ReceiveChatMessage(sock: Socket?) returns (m: Option<Decoded>)
    modifies (if sock == null then {} else {sock})`inbox
    ensures sock == null || sock.closed ==> m.None?
    ensures sock != null ==> |sock.inbox| <= |old(sock.inbox)|
    ensures m.Some? ==> |m.value.body| == m.value.length
    ensures m.Some? ==>
      Decode(old(sock.inbox)) == Complete(Message(m.value.msgType, m.value.body), sock.inbox)
    ensures sock != null && sock.Up() ==> (m.None? <==> Decode(old(sock.inbox)) == Truncated)
  {
    if sock == null {
      return None;
    }
    hide Decode, NetworkWord;
    DecodeByLength(sock.inbox);
    var header := ReceiveHeader(sock);
    if header.None? {
      return None;
    }
    var (msgType, length) := header.value;
    var body := ReceiveBody(sock, length);
    if body.None? {
      return None;
    }
    return Some(Decoded(msgType, length, body.value));
  }

  /** The first half of `ReceiveChatMessage`: the type, and the length turned to host order. */
  method ReceiveHeader(sock: Socket) returns (h: Option<(byte, uint32)>)
    modifies sock`inbox
    ensures |sock.inbox| <= |old(sock.inbox)|
    ensures sock.closed ==> h.None?
    ensures h.Some? ==>
              && |old(sock.inbox)| >= HEADER_LENGTH && sock.inbox == old(sock.inbox)[HEADER_LENGTH..]
              && h.value == (old(sock.inbox)[0], NetworkWord(old(sock.inbox)[1..HEADER_LENGTH]))
    ensures sock.Up() ==> (h.None? <==> |old(sock.inbox)| < HEADER_LENGTH)
  {
    hide NetworkWord, HostWord, Swap;
    var header := new byte[HEADER_LENGTH](i => NUL);
    var r := ReceiveBuffer(header, HEADER_LENGTH, sock);
    if r != TRNS_SUCCEEDED {
      return None;
    }
    NetworkReading(header[1..]);
    assert header[1..] == header[..][1..] == old(sock.inbox)[1..HEADER_LENGTH];
    return Some((header[0], Swap(HostWord(header[1..]))));
  }

  /** The second half of `ReceiveChatMessage`: a zeroed buffer is filled as far as the length, as
      an `int`, says. */
  method ReceiveBody(sock: Socket, length: uint32) returns (b: Option<seq<byte>>)
    modifies sock`inbox
    ensures |sock.inbox| <= |old(sock.inbox)|
    ensures b.Some? ==>
              var n := BodyBytesMoved(length);
              && n <= |old(sock.inbox)| && b.value == old(sock.inbox)[..n] + Zeros(length - n)
              && sock.inbox == old(sock.inbox)[n..]
    ensures sock.Up() ==> (b.None? <==> |old(sock.inbox)| < BodyBytesMoved(length))
  {
    ghost var n := BodyBytesMoved(length);
    var body := new byte[length](i => NUL);
    if length > 0 {
      var r := ReceiveBuffer(body, AsInt32(length), sock);
      if r != TRNS_SUCCEEDED {
        return None;
      }
    }
    assert body[n..] == Zeros(length - n);
    assert body[..] == body[..n] + body[n..];
    return Some(body[..]);
  }
}

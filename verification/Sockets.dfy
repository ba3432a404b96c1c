/** Stream sockets and the two transfer loops. `send` and `recv` may move fewer bytes
    than asked; the loops repeat them until everything has moved. */
module Sockets {
  import opened Common

  datatype TransferResult = TRNS_FAILED | TRNS_DISCONNECTED | TRNS_SUCCEEDED

  const SOCKET_ERROR := -1

  /** One end of a connection. The class stands for the operating system: `wire` is all
      that was sent on it, `inbox` all that the peer has still to deliver before it closes.
      A closed socket always reports `SOCKET_ERROR`, and an unreliable one may do so. */
  class Socket {
    const reliable: bool
    var closed: bool
    var wire: seq<byte>
    var inbox: seq<byte>

    constructor (reliable: bool, inbox: seq<byte>)
      ensures this.reliable == reliable && this.inbox == inbox && wire == [] && !closed
    {
      this.reliable, this.inbox, wire, closed := reliable, inbox, [], false;
    }

    /** No transfer on it can fail. */
    predicate Up()
      reads `closed
    {
      reliable && !closed
    }

    /** What one transfer of at most `most` bytes may report. */
    predicate MayMove(k: int, most: nat)
    {
      1 <= k <= most || (k == SOCKET_ERROR && !reliable)
    }

    /** `closesocket`. */
    method Close()
      modifies `closed
      ensures closed
    {
      closed := true;
    }

    /** `send`: moves any positive part of the bytes. */
    method Send(buf: array<byte>, pos: nat, len: nat) returns (k: int)
      requires 0 < len && pos + len <= buf.Length
      modifies this`wire
      ensures k == SOCKET_ERROR ==> !Up() && wire == old(wire)
      ensures closed ==> k == SOCKET_ERROR
      ensures k != SOCKET_ERROR ==> 1 <= k <= len && wire == old(wire) + buf[pos..pos + k]
    {
      if closed {
        return SOCKET_ERROR;
      }
      k := *;
      if !MayMove(k, len) {
        k := 1;
      }
      if k != SOCKET_ERROR {
        wire := wire + buf[pos..pos + k];
      }
    }

    /** `recv`: moves any positive part of what is asked, and 0 only at the end of the stream. */
    method Recv(buf: array<byte>, pos: nat, len: nat) returns (k: int)
      requires 0 < len && pos + len <= buf.Length
      modifies this`inbox, buf
      ensures k == SOCKET_ERROR ==> !Up() && inbox == old(inbox) && buf[..] == old(buf[..])
      ensures closed ==> k == SOCKET_ERROR
      ensures k == 0 ==> inbox == old(inbox) == [] && buf[..] == old(buf[..])
      ensures k != SOCKET_ERROR ==> 0 <= k <= len && k <= |old(inbox)| && (k == 0 ==> old(inbox) == [])
      ensures k != SOCKET_ERROR ==> inbox == old(inbox)[k..]
      ensures k != SOCKET_ERROR ==>
        buf[..] == old(buf[..pos]) + old(inbox)[..k] + old(buf[pos + k..])
    {
      if closed {
        return SOCKET_ERROR;
      }
      var most := if len < |inbox| then len else |inbox|;
      k := *;
      if !MayMove(k, most) {
        k := if inbox == [] then 0 else 1;
      }
      if k != SOCKET_ERROR {
        forall i | 0 <= i < k {
          buf[pos + i] := inbox[i];
        }
        inbox := inbox[k..];
      }
    }
  }

  /** The stream grew from `before` to `after` by fewer than `n` bytes of `data`. */
  ghost predicate PartWent(data: seq<byte>, n: int, before: seq<byte>, after: seq<byte>)
    requires n <= |data|
  {
    exists sent: nat :: sent < n && after == before + data[..sent]
  }

  /** `SendBuffer`: on success exactly the `n` bytes went out, otherwise a proper part of them. */
  method SendBuffer(buf: array<byte>, n: int, sd: Socket) returns (r: TransferResult)
    requires n <= buf.Length
    modifies sd`wire
    ensures r == TRNS_SUCCEEDED ==> sd.wire == old(sd.wire) + buf[..if n > 0 then n else 0]
    ensures r != TRNS_SUCCEEDED ==> r == TRNS_FAILED && !sd.Up() && PartWent(buf[..], n, old(sd.wire), sd.wire)
    ensures sd.closed && n > 0 ==> r == TRNS_FAILED && sd.wire == old(sd.wire)
  {
    var place := 0;
    var remaining := n;
    while remaining > 0
      invariant 0 <= place && (n > 0 ==> remaining >= 0 && place + remaining == n) && (n <= 0 ==> place == 0)
      invariant sd.wire == old(sd.wire) + buf[..place] && (sd.closed ==> place == 0)
    {
      var transferred := sd.Send(buf, place, remaining);
      if transferred == SOCKET_ERROR {
        assert buf[..place] == buf[..][..place];
        return TRNS_FAILED;
      }
      assert buf[..place + transferred] == buf[..place] + buf[place..place + transferred];
      remaining := remaining - transferred;
      place := place + transferred;
    }
    return TRNS_SUCCEEDED;
  }

  /** `ReceiveBuffer`: on success the buffer holds exactly the next `n` bytes of the stream and
      no more were taken; a disconnection is reported only when the stream ended before `n` bytes. */
  method ReceiveBuffer(buf: array<byte>, n: int, sd: Socket) returns (r: TransferResult)
    requires n <= buf.Length
    modifies sd`inbox, buf
    ensures r == TRNS_SUCCEEDED && n > 0 ==>
      n <= |old(sd.inbox)| && buf[..n] == old(sd.inbox)[..n] && sd.inbox == old(sd.inbox)[n..]
    ensures r == TRNS_SUCCEEDED && n <= 0 ==> sd.inbox == old(sd.inbox)
    ensures n <= 0 ==> r == TRNS_SUCCEEDED
    ensures buf[if n > 0 then n else 0..] == old(buf[if n > 0 then n else 0..])
    ensures r == TRNS_DISCONNECTED ==>
      |old(sd.inbox)| < n && buf[..|old(sd.inbox)|] == old(sd.inbox) && sd.inbox == []
    ensures r == TRNS_FAILED ==> !sd.Up()
    ensures sd.Up() ==> (r == TRNS_SUCCEEDED <==> n <= |old(sd.inbox)|)
    ensures sd.closed && n > 0 ==> r == TRNS_FAILED && sd.inbox == old(sd.inbox)
    ensures |sd.inbox| <= |old(sd.inbox)|
  {
    var place := 0;
    var remaining := n;
    while remaining > 0
      invariant 0 <= place && (n > 0 ==> remaining >= 0 && place + remaining == n) && (n <= 0 ==> place == 0)
      invariant place <= |old(sd.inbox)| && sd.inbox == old(sd.inbox)[place..] && (sd.closed ==> place == 0)
      invariant buf[..place] == old(sd.inbox)[..place]
      invariant buf[if n > 0 then n else 0..] == old(buf[if n > 0 then n else 0..])
    {
      var transferred := sd.Recv(buf, place, remaining);
      if transferred == SOCKET_ERROR {
        return TRNS_FAILED;
      } else if transferred == 0 {
        return TRNS_DISCONNECTED;
      }
      remaining := remaining - transferred;
      place := place + transferred;
    }
    return TRNS_SUCCEEDED;
  }
}

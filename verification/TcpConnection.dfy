/**
 A connected TCP socket, seen from one side: the bytes still to arrive, cut into segments in an
 arbitrary way, and the bytes sent. What comes after the last segment is the end of the stream.
 */
module TcpConnection {
  import opened Wrappers
  import opened Bytes

  datatype TransportError = ConnectionClosed | ReceiveFailed | SendFailed

  function Flatten(segments: seq<seq<Byte>>): seq<Byte> {
    if segments == [] then [] else segments[0] + Flatten(segments[1..])
  }

  function Take(bytes: seq<Byte>, n: nat): seq<Byte> {
    if n < |bytes| then bytes[..n] else bytes
  }

  /** What one call of receive takes from the segments: bytes of the first one only. */
  function Delivered(segments: seq<seq<Byte>>, capacity: nat): (r: (seq<Byte>, seq<seq<Byte>>))
    requires segments != []
    ensures r.0 + Flatten(r.1) == Flatten(segments)
  {
    if |segments[0]| <= capacity then (segments[0], segments[1..])
    else
      var rest := [segments[0][capacity..]] + segments[1..];
      assert rest[1..] == segments[1..];
      assert segments[0] == segments[0][..capacity] + segments[0][capacity..];
      assert segments[0][..capacity] + Flatten(rest) == segments[0] + Flatten(segments[1..]);
      (segments[0][..capacity], rest)
  }

  ghost predicate NoneEmpty(segments: seq<seq<Byte>>) {
    forall i :: 0 <= i < |segments| ==> segments[i] != []
  }

  class TcpConnection {
    var incoming: seq<seq<Byte>>
    const atEnd: TransportError
    /** How many more bytes the peer accepts before sending fails. */
    var writable: nat
    var sent: seq<Byte>

    ghost predicate Valid()
      reads this
    {
      NoneEmpty(incoming)
    }

    ghost function Unread(): seq<Byte>
      reads this
    {
      Flatten(incoming)
    }

    constructor (incoming: seq<seq<Byte>>, atEnd: TransportError, writable: nat)
      requires NoneEmpty(incoming)
      ensures Valid() && Unread() == Flatten(incoming) && this.writable == writable && sent == []
    {
      this.incoming := incoming;
      this.atEnd := atEnd;
      this.writable := writable;
      sent := [];
    }

    /** At least one and at most `capacity` bytes, from the next segment only; or the end of the stream. */
    method Receive(capacity: nat) returns (r: Result<seq<Byte>, TransportError>)
      requires Valid() && capacity > 0
      modifies this`incoming
      ensures Valid()
      ensures r.Ok? <==> old(Unread()) != []
      ensures r.Ok? ==> 0 < |r.value| <= capacity && r.value + Unread() == old(Unread())
      ensures r.Err? ==> Unread() == [] && r.error == atEnd
      ensures r.Ok? <==> old(incoming) != []
      ensures r.Ok? ==> (r.value, incoming) == Delivered(old(incoming), capacity)
    {
      if incoming == [] {
        return Err(atEnd);
      }
      var segment := incoming[0];
      ghost var delivered := Delivered(incoming, capacity);
      if |segment| <= capacity {
        incoming := incoming[1..];
        return Ok(segment);
      }
      incoming := [segment[capacity..]] + incoming[1..];
      return Ok(segment[..capacity]);
    }

    /** All of `bytes`, or as many as the peer still accepts and an error. */
    method Send(bytes: seq<Byte>) returns (r: Result<(), TransportError>)
      modifies this`sent, this`writable
      ensures r.Ok? <==> |bytes| <= old(writable)
      ensures sent == old(sent) + Take(bytes, old(writable))
      ensures writable == if r.Ok? then old(writable) - |bytes| else 0
    {
      if |bytes| > writable {
        sent := sent + bytes[..writable];
        writable := 0;
        return Err(SendFailed);
      }
      sent := sent + bytes;
      writable := writable - |bytes|;
      return Ok(());
    }
  }
}

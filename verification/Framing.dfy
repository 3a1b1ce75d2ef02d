/** ICE-TCP framing (section 2 of RFC 4571): the splitter of `nice_agent_send_messages_nonblocking_internal`
    and the incremental deframer of `agent_recv_message_unlocked`, over one TCP connection. */
module Framing {
  import opened ByteFifo

  /** The longest payload that one frame gets. */
  const LIMIT: nat := 0xF800

  function Header(n: nat): seq<byte>
    requires n < 0x1_0000
  {
    [n / 256, n % 256]
  }

  /** A frame that the splitter makes. */
  predicate Framable(f: seq<byte>) {
    0 < |f| <= LIMIT
  }

  predicate AllFramable(fs: seq<seq<byte>>) {
    forall i :: 0 <= i < |fs| ==> Framable(fs[i])
  }

  function Concat(fs: seq<seq<byte>>): seq<byte> {
    if fs == [] then [] else fs[0] + Concat(fs[1..])
  }

  function Encode(fs: seq<seq<byte>>): seq<byte>
    requires AllFramable(fs)
  {
    if fs == [] then [] else Header(|fs[0]|) + fs[0] + Encode(fs[1..])
  }

  lemma {:induction false} ConcatSplits(a: seq<seq<byte>>, b: seq<seq<byte>>)
    ensures Concat(a + b) == Concat(a) + Concat(b)
  {
    if a == [] {
      assert a + b == b;
    } else {
      ConcatSplits(a[1..], b);
      assert (a + b)[1..] == a[1..] + b;
      Assoc(a[0], Concat(a[1..]), Concat(b));
    }
  }

  lemma {:induction false} EncodeSplits(a: seq<seq<byte>>, b: seq<seq<byte>>)
    requires AllFramable(a) && AllFramable(b)
    ensures AllFramable(a + b) && Encode(a + b) == Encode(a) + Encode(b)
  {
    if a == [] {
      assert a + b == b;
    } else {
      EncodeSplits(a[1..], b);
      assert (a + b)[1..] == a[1..] + b;
      Assoc(Header(|a[0]|) + a[0], Encode(a[1..]), Encode(b));
    }
  }

  /** What has arrived and what is on its way carry exactly the pending frames; once a header has
      been read, the first of them without it. */
  ghost predicate Carries(bytes: seq<byte>, expecting: nat, pending: seq<seq<byte>>) {
    && AllFramable(pending)
    && (expecting > 0 ==> pending != [] && |pending[0]| == expecting)
    && bytes == if expecting == 0 then Encode(pending) else pending[0] + Encode(pending[1..])
  }

  lemma CarriesMore(bytes: seq<byte>, expecting: nat, pending: seq<seq<byte>>, frames: seq<seq<byte>>)
    requires Carries(bytes, expecting, pending) && AllFramable(frames)
    ensures Carries(bytes + Encode(frames), expecting, pending + frames)
  {
    EncodeSplits(pending, frames);
    if expecting > 0 {
      EncodeRest(pending, frames);
    }
  }

  lemma EncodeRest(pending: seq<seq<byte>>, frames: seq<seq<byte>>)
    requires AllFramable(pending) && AllFramable(frames) && AllFramable(pending + frames) && pending != []
    ensures (pending + frames)[0] == pending[0]
    ensures pending[0] + Encode(pending[1..]) + Encode(frames) == (pending + frames)[0] + Encode((pending + frames)[1..])
  {
    assert (pending + frames)[1..] == pending[1..] + frames;
    EncodeSplits(pending[1..], frames);
    Assoc(pending[0], Encode(pending[1..]), Encode(frames));
  }

  /** What is pending once `n` bytes of the first frame have been delivered. */
  ghost function Less(pending: seq<seq<byte>>, n: nat): seq<seq<byte>>
    requires pending != [] && n <= |pending[0]|
  {
    if n == |pending[0]| then pending[1..] else [pending[0][n..]] + pending[1..]
  }

  lemma CarriesLess(bytes: seq<byte>, expecting: nat, pending: seq<seq<byte>>, n: nat)
    requires Carries(bytes, expecting, pending) && 0 < n <= expecting
    ensures |bytes| >= n && bytes[..n] == pending[0][..n]
    ensures Carries(bytes[n..], expecting - n, Less(pending, n))
    ensures bytes[..n] + Concat(Less(pending, n)) == Concat(pending)
  {
    var f, rest, less := pending[0], pending[1..], Less(pending, n);
    assert f == f[..n] + f[n..];
    Assoc(f[..n], f[n..], Encode(rest));
    Assoc(f[..n], f[n..], Concat(rest));
    if n < |f| {
      assert less[0] == f[n..] && less[1..] == rest;
    } else {
      assert f[n..] == [];
    }
  }

  /** The two bytes of a header tell the length of the frame after it. */
  lemma CarriesHeader(bytes: seq<byte>, pending: seq<seq<byte>>)
    requires Carries(bytes, 0, pending) && |bytes| >= 2
    ensures pending != [] && |pending[0]| == (bytes[0] as int) * 256 + bytes[1]
    ensures Carries(bytes[2..], |pending[0]|, pending)
  {
  }

  /** The frames of a message: as long as possible, none empty. */
  function Frames(message: seq<byte>): seq<seq<byte>> {
    if message == [] then []
    else if |message| <= LIMIT then [message]
    else [message[..LIMIT]] + Frames(message[LIMIT..])
  }

  /** Every byte of the message is in exactly one frame, in order. */
  lemma {:induction false} FramesOfMessage(message: seq<byte>)
    ensures AllFramable(Frames(message)) && Concat(Frames(message)) == message
    ensures forall i :: 0 <= i < |Frames(message)| - 1 ==> |Frames(message)[i]| == LIMIT
    ensures |Frames(message)| == (|message| + 0xF7FF) / 0xF800
  {
    if |message| > LIMIT {
      FramesOfMessage(message[LIMIT..]);
      assert message == message[..LIMIT] + message[LIMIT..];
    }
  }

  /** The splitter. */
  method Split(message: seq<byte>) returns (wire: seq<byte>)
    ensures AllFramable(Frames(message)) && wire == Encode(Frames(message))
  {
    FramesOfMessage(message);
    wire := [];
    var message_len, offset := |message|, 0;
    ghost var rest := message;
    while message_len > 0
      invariant 0 <= offset <= |message| && message_len == |rest| && rest == message[offset..]
      invariant AllFramable(Frames(rest)) && wire + Encode(Frames(rest)) == Encode(Frames(message))
      decreases message_len
    {
      var packet_len := if message_len > LIMIT then LIMIT else message_len;
      message_len := message_len - packet_len;
      var frame := message[offset..offset + packet_len];
      Cut(message, offset, packet_len);
      FirstFrame(rest, packet_len);
      rest := rest[packet_len..];
      Assoc(wire, Header(packet_len) + frame, Encode(Frames(rest)));
      wire := wire + (Header(packet_len) + frame);
      offset := offset + packet_len;
    }
  }

  lemma Cut(message: seq<byte>, offset: nat, n: nat)
    requires offset + n <= |message|
    ensures message[offset..][..n] == message[offset..offset + n] && message[offset..][n..] == message[offset + n..]
  {
  }

  lemma FirstFrame(rest: seq<byte>, n: nat)
    requires rest != [] && n == (if |rest| > LIMIT then LIMIT else |rest|)
    ensures AllFramable(Frames(rest)) && AllFramable(Frames(rest[n..]))
    ensures Encode(Frames(rest)) == (Header(n) + rest[..n]) + Encode(Frames(rest[n..]))
  {
    FramesOfMessage(rest);
    FramesOfMessage(rest[n..]);
    if |rest| > LIMIT {
      assert Frames(rest)[1..] == Frames(rest[n..]);
    } else {
      assert rest[..n] == rest && rest[n..] == [];
    }
  }

  datatype Status = Received | WouldBlock | OutOfBand

  class Connection {
    /** Bytes written by one end that have not arrived at the other. */
    var wire: seq<byte>
    /** Bytes that have arrived and not been read. */
    var socket: seq<byte>
    var rfc4571_expecting_length: nat
    /** Frames sent and not delivered; of the first, the part not delivered. */
    ghost var pending: seq<seq<byte>>
    ghost var sent: seq<byte>
    ghost var delivered: seq<byte>

    ghost predicate Valid()
      reads this
    {
      && Carries(socket + wire, rfc4571_expecting_length, pending)
      && sent == delivered + Concat(pending)
    }

    constructor ()
      ensures Valid() && sent == [] && delivered == [] && pending == []
    {
      wire, socket, rfc4571_expecting_length := [], [], 0;
      pending, sent, delivered := [], [], [];
    }

    method Send(message: seq<byte>)
      requires Valid()
      modifies this
      ensures Valid() && sent == old(sent) + message && delivered == old(delivered)
      ensures pending == old(pending) + Frames(message)
    {
      var bytes := Split(message);
      ghost var frames := Frames(message);
      FramesOfMessage(message);
      CarriesMore(socket + wire, rfc4571_expecting_length, pending, frames);
      ConcatSplits(pending, frames);
      Assoc(socket, wire, bytes);
      Assoc(delivered, Concat(pending), message);
      wire, pending, sent := wire + bytes, pending + frames, sent + message;
    }

    /** The network delivers any number of bytes. */
    method Arrive(n: nat)
      requires Valid() && n <= |wire|
      modifies this`wire, this`socket
      ensures Valid() && socket == old(socket) + old(wire)[..n] && wire == old(wire)[n..]
    {
      assert socket + wire == (socket + wire[..n]) + wire[n..];
      socket, wire := socket + wire[..n], wire[n..];
    }

    /** One call of the deframer with a buffer of `size` bytes.  What it delivers is the first
        pending frame, or as much of it as fits; it delivers nothing only while that frame has not
        arrived whole. */
    method Recv(size: nat) returns (status: Status, data: seq<byte>)
      requires Valid() && size > 0
      modifies this
      ensures Valid() && sent == old(sent) && delivered == old(delivered) + data
      ensures status == Received <==> data != []
      ensures data != [] ==>
                && old(pending) != [] && data == old(pending)[0][..Min(size, |old(pending)[0]|)]
                && pending == Less(old(pending), |data|)
      ensures data == [] ==> pending == old(pending)
      ensures data != [] <==> old(pending) != [] && |old(socket)| >= |old(pending)[0]| + if old(rfc4571_expecting_length) == 0 then 2 else 0
      ensures status == OutOfBand <==> data == [] && old(rfc4571_expecting_length) == 0 && |old(socket)| >= 2
    {
      data := [];
      if |socket| == 0 {
        return WouldBlock, data;
      }
      status := WouldBlock;
      if rfc4571_expecting_length == 0 && |socket| >= 2 {
        ReadHeader();
        status := OutOfBand;
      }
      if rfc4571_expecting_length > 0 && |socket| >= rfc4571_expecting_length {
        data := Take(Min(size, rfc4571_expecting_length));
        status := Received;
      }
    }

    method ReadHeader()
      requires Valid() && rfc4571_expecting_length == 0 && |socket| >= 2
      modifies this`socket, this`rfc4571_expecting_length
      ensures Valid() && rfc4571_expecting_length > 0 && socket == old(socket)[2..]
    {
      CarriesHeader(socket + wire, pending);
      assert (socket + wire)[2..] == socket[2..] + wire;
      rfc4571_expecting_length := (socket[0] as int) * 256 + socket[1];
      socket := socket[2..];
    }

    method Take(n: nat) returns (data: seq<byte>)
      requires Valid() && 0 < n <= rfc4571_expecting_length <= |socket|
      modifies this`socket, this`rfc4571_expecting_length, this`pending, this`delivered
      ensures Valid() && |data| == n && delivered == old(delivered) + data
      ensures data == old(pending)[0][..n]
      ensures pending == Less(old(pending), n)
    {
      CarriesLess(socket + wire, rfc4571_expecting_length, pending, n);
      data := socket[..n];
      assert (socket + wire)[..n] == data && (socket + wire)[n..] == socket[n..] + wire;
      Assoc(delivered, data, Concat(Less(pending, n)));
      socket := socket[n..];
      rfc4571_expecting_length := rfc4571_expecting_length - n;
      delivered, pending := delivered + data, Less(pending, n);
    }
  }
}

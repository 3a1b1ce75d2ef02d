/** The circular buffer of the pseudo-TCP socket, refined to a byte queue plus a staged area. */
module ByteFifo {

  type byte = b: int | 0 <= b < 256

  function Min(a: int, b: int): int {
    if a < b then a else b
  }

  lemma Assoc(a: seq<byte>, b: seq<byte>, c: seq<byte>)
    ensures (a + b) + c == a + (b + c)
  {
  }

  /** `s` with `bytes` written over it from position `at`. */
  function Overlay(s: seq<byte>, at: nat, bytes: seq<byte>): (r: seq<byte>)
    requires at + |bytes| <= |s|
    ensures |r| == |s|
    ensures forall i :: 0 <= i < |s| ==>
              r[i] == if at <= i < at + |bytes| then bytes[i - at] else s[i]
  {
    seq(|s|, i requires 0 <= i < |s| => if at <= i < at + |bytes| then bytes[i - at] else s[i])
  }

  /** What the circular buffer stands for: the queued bytes, oldest first, and the free area behind
      them, where bytes may be staged before they are queued. */
  datatype ByteQueue = ByteQueue(contents: seq<byte>, free: seq<byte>) {

    function ConsumeReadData(size: nat): ByteQueue
      requires size <= |contents|
    {
      ByteQueue(contents[size..], free + contents[..size])
    }

    function ConsumeWriteBuffer(size: nat): ByteQueue
      requires size <= |free|
    {
      ByteQueue(contents + free[..size], free[size..])
    }

    function ReadOffset(bytes: nat, offset: nat): seq<byte> {
      if offset >= |contents| then [] else contents[offset..offset + Min(bytes, |contents| - offset)]
    }

    /** How many of `bytes` bytes fit at `offset`. */
    function Fits(bytes: nat, offset: nat): nat {
      if offset >= |free| then 0 else Min(bytes, |free| - offset)
    }

    function WriteOffset(bytes: seq<byte>, offset: nat): ByteQueue {
      var copy := Fits(|bytes|, offset);
      if copy == 0 then this else ByteQueue(contents, Overlay(free, offset, bytes[..copy]))
    }

    function Read(bytes: nat): (seq<byte>, ByteQueue) {
      var r := ReadOffset(bytes, 0);
      (r, ConsumeReadData(|r|))
    }

    function Write(bytes: seq<byte>): (nat, ByteQueue) {
      (Fits(|bytes|, 0), WriteOffset(bytes, 0).ConsumeWriteBuffer(Fits(|bytes|, 0)))
    }
  }

  /** `x % n`, for the sums of two positions that the buffer forms. */
  function Around(x: nat, n: nat): (r: nat)
    requires x < 2 * n
  {
    if x < n then x else x - n
  }

  lemma AroundIsMod(x: nat, n: nat)
    requires x < 2 * n
    ensures Around(x, n) == x % n
  {
  }

  /** The buffer read from `start` all the way around. */
  function Rotate(buf: seq<byte>, start: nat): (r: seq<byte>)
    requires start < |buf|
    ensures |r| == |buf|
  {
    seq(|buf|, i requires 0 <= i < |buf| => buf[Around(start + i, |buf|)])
  }

  lemma RotateAt(buf: seq<byte>, start: nat)
    requires start < |buf|
    ensures forall i :: 0 <= i < |buf| ==>
              Rotate(buf, start)[i] == buf[if start + i < |buf| then start + i else start + i - |buf|]
  {
    forall i | 0 <= i < |buf|
      ensures Rotate(buf, start)[i] == buf[if start + i < |buf| then start + i else start + i - |buf|]
    {
      assert Rotate(buf, start)[i] == buf[Around(start + i, |buf|)];
    }
  }

  lemma RotateTwice(buf: seq<byte>, start: nat, n: nat)
    requires start < |buf| && n <= |buf|
    ensures Rotate(buf, Around(start + n, |buf|)) == Rotate(buf, start)[n..] + Rotate(buf, start)[..n]
  {
    RotateAt(buf, start);
    RotateAt(buf, Around(start + n, |buf|));
  }

  /** The two copies that read up to the end of the buffer and go on from its beginning. */
  lemma RotateSlice(buf: seq<byte>, start: nat, at: nat, n: nat)
    requires start < |buf| && at + n <= |buf| && at < |buf|
    ensures var p := Around(start + at, |buf|);
            var tail := Min(n, |buf| - p);
            Rotate(buf, start)[at..at + n] == buf[p..p + tail] + buf[..n - tail]
  {
    RotateAt(buf, start);
  }

  /** The two copies that write up to the end of the buffer and go on from its beginning. */
  lemma RotateOverlay(buf: seq<byte>, start: nat, at: nat, bytes: seq<byte>)
    requires start < |buf| && at + |bytes| <= |buf| && at < |buf|
    ensures var p := Around(start + at, |buf|);
            var tail := Min(|bytes|, |buf| - p);
            Rotate(Overlay(Overlay(buf, p, bytes[..tail]), 0, bytes[tail..]), start)
            == Overlay(Rotate(buf, start), at, bytes)
  {
    var p := Around(start + at, |buf|);
    var tail := Min(|bytes|, |buf| - p);
    RotateAt(buf, start);
    RotateAt(Overlay(Overlay(buf, p, bytes[..tail]), 0, bytes[tail..]), start);
  }

  function QueueOf(buf: seq<byte>, start: nat, n: nat): (q: ByteQueue)
    requires start < |buf| && n <= |buf|
    ensures |q.contents| == n && |q.free| == |buf| - n
  {
    ByteQueue(Rotate(buf, start)[..n], Rotate(buf, start)[n..])
  }

  lemma ReadFromQueueOf(buf: seq<byte>, start: nat, n: nat, offset: nat, bytes: nat)
    requires start < |buf| && offset < n <= |buf|
    ensures var copy := Min(bytes, n - offset);
            var p := Around(start + offset, |buf|);
            var tail := Min(copy, |buf| - p);
            QueueOf(buf, start, n).ReadOffset(bytes, offset) == buf[p..p + tail] + buf[..copy - tail]
  {
    var copy := Min(bytes, n - offset);
    RotateSlice(buf, start, offset, copy);
    assert Rotate(buf, start)[..n][offset..offset + copy] == Rotate(buf, start)[offset..offset + copy];
  }

  /** The two copies out of a buffer that holds `n` bytes from `start` on. */
  method CopyOut(buf: seq<byte>, start: nat, n: nat, bytes: nat, offset: nat) returns (out: seq<byte>)
    requires start < |buf| && n <= |buf|
    ensures out == QueueOf(buf, start, n).ReadOffset(bytes, offset)
  {
    if offset >= n {
      return [];
    }
    AroundIsMod(start + offset, |buf|);
    var position := (start + offset) % |buf|;
    var copy := Min(bytes, n - offset);
    var tailCopy := Min(copy, |buf| - position);
    ReadFromQueueOf(buf, start, n, offset, bytes);
    out := buf[position..position + tailCopy] + buf[..copy - tailCopy];
  }

  lemma ConsumeFromQueueOf(buf: seq<byte>, start: nat, n: nat, size: nat)
    requires start < |buf| && size <= n <= |buf|
    ensures QueueOf(buf, Around(start + size, |buf|), n - size) == QueueOf(buf, start, n).ConsumeReadData(size)
  {
    RotateTwice(buf, start, size);
    var all := Rotate(buf, start);
    assert (all[size..] + all[..size])[..n - size] == all[..n][size..];
    assert (all[size..] + all[..size])[n - size..] == all[n..] + all[..n][..size];
  }

  lemma WriteToQueueOf(buf: seq<byte>, start: nat, n: nat, offset: nat, bytes: seq<byte>)
    requires start < |buf| && n + offset + |bytes| <= |buf| && n + offset < |buf|
    ensures var p := Around(start + n + offset, |buf|);
            var tail := Min(|bytes|, |buf| - p);
            var buf' := Overlay(Overlay(buf, p, bytes[..tail]), 0, bytes[tail..]);
            QueueOf(buf', start, n).contents == QueueOf(buf, start, n).contents
            && QueueOf(buf', start, n).free == Overlay(QueueOf(buf, start, n).free, offset, bytes)
  {
    RotateOverlay(buf, start, n + offset, bytes);
  }

  class Fifo {
    var buffer: array<byte>
    var data_length: nat
    var read_position: nat

    ghost predicate Valid()
      reads this
    {
      read_position < buffer.Length && data_length <= buffer.Length
    }

    ghost function Abs(): (q: ByteQueue)
      requires Valid()
      reads this, buffer
      ensures |q.contents| == data_length && |q.free| == buffer.Length - data_length
    {
      QueueOf(buffer[..], read_position, data_length)
    }

    constructor (size: nat)
      requires size > 0
      ensures Valid() && fresh(buffer)
      ensures Abs().contents == [] && |Abs().free| == size
    {
      buffer := new byte[size];
      data_length := 0;
      read_position := 0;
    }

    method GetWriteRemaining() returns (n: nat)
      requires Valid()
      ensures n == |Abs().free|
    {
      n := buffer.Length - data_length;
    }

    /** Keeps the queued bytes.  The capacity really becomes `size` except when `size` is
        exactly the number of queued bytes, where the code returns success without resizing. */
    method SetCapacity(size: nat) returns (ok: bool)
      requires Valid()
      modifies this
      ensures Valid()
      ensures Abs().contents == old(Abs()).contents
      ensures ok <==> |old(Abs()).contents| <= size
      ensures if ok && size != |old(Abs()).contents|
              then fresh(buffer) && buffer.Length == size && read_position == 0
              else buffer == old(buffer) && Abs() == old(Abs())
    {
      if data_length > size {
        return false;
      }
      if size != data_length {
        var fresher := Relocated(size);
        RotateSlice(fresher[..], 0, 0, data_length);
        buffer := fresher;
        read_position := 0;
      }
      return true;
    }

    method Relocated(size: nat) returns (fresher: array<byte>)
      requires Valid() && data_length < size
      ensures fresh(fresher) && fresher.Length == size
      ensures fresher[..data_length] == Abs().contents
    {
      fresher := new byte[size];
      var copy := data_length;
      var tailCopy := Min(copy, buffer.Length - read_position);
      forall i | 0 <= i < tailCopy { fresher[i] := buffer[read_position + i]; }
      forall i | 0 <= i < copy - tailCopy { fresher[tailCopy + i] := buffer[i]; }
      RotateSlice(buffer[..], read_position, 0, copy);
    }

    /** Dequeues: the free area grows at its end, so what is staged there stays in place. */
    method ConsumeReadData(size: nat)
      requires Valid() && size <= |Abs().contents|
      modifies this`data_length, this`read_position
      ensures Valid()
      ensures Abs() == old(Abs()).ConsumeReadData(size)
    {
      ConsumeFromQueueOf(buffer[..], read_position, data_length, size);
      AroundIsMod(read_position + size, buffer.Length);
      read_position := (read_position + size) % buffer.Length;
      data_length := data_length - size;
    }

    /** Turns staged bytes into queued ones. */
    method ConsumeWriteBuffer(size: nat)
      requires Valid() && size <= |Abs().free|
      modifies this`data_length
      ensures Valid()
      ensures Abs() == old(Abs()).ConsumeWriteBuffer(size)
    {
      data_length := data_length + size;
    }

    method ReadOffset(bytes: nat, offset: nat) returns (out: seq<byte>)
      requires Valid()
      ensures out == Abs().ReadOffset(bytes, offset)
    {
      out := CopyOut(buffer[..], read_position, data_length, bytes, offset);
    }

    method WriteOffset(bytes: seq<byte>, offset: nat) returns (copy: nat)
      requires Valid()
      modifies buffer
      ensures Valid()
      ensures copy == old(Abs()).Fits(|bytes|, offset)
      ensures Abs() == old(Abs()).WriteOffset(bytes, offset)
    {
      if data_length + offset >= buffer.Length {
        return 0;
      }
      AroundIsMod(read_position + data_length + offset, buffer.Length);
      var position := (read_position + data_length + offset) % buffer.Length;
      copy := Min(|bytes|, buffer.Length - data_length - offset);
      var tailCopy := Min(copy, buffer.Length - position);
      WriteToQueueOf(buffer[..], read_position, data_length, offset, bytes[..copy]);
      assert bytes[..copy][..tailCopy] == bytes[..tailCopy];
      assert bytes[..copy][tailCopy..] == bytes[tailCopy..copy];
      CopyIn(position, bytes[..tailCopy]);
      CopyIn(0, bytes[tailCopy..copy]);
    }

    /** `memcpy` into the buffer. */
    method CopyIn(at: nat, bytes: seq<byte>)
      requires at + |bytes| <= buffer.Length
      modifies buffer
      ensures buffer[..] == Overlay(old(buffer[..]), at, bytes)
    {
      forall i | 0 <= i < |bytes| { buffer[at + i] := bytes[i]; }
    }

    method Read(bytes: nat) returns (out: seq<byte>)
      requires Valid()
      modifies this`data_length, this`read_position
      ensures Valid()
      ensures (out, Abs()) == old(Abs()).Read(bytes)
    {
      out := ReadOffset(bytes, 0);
      ConsumeReadData(|out|);
    }

    method Write(bytes: seq<byte>) returns (copy: nat)
      requires Valid()
      modifies this`data_length, buffer
      ensures Valid()
      ensures (copy, Abs()) == old(Abs()).Write(bytes)
    {
      copy := WriteOffset(bytes, 0);
      ConsumeWriteBuffer(copy);
    }
  }
}

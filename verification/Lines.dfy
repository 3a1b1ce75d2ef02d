/** Newline-terminated messages over a byte stream: `try_send` and `read_messages` of tcp_support.py,
    and what they give end to end over the pseudo-TCP stream. */
module Lines {
  import opened ByteFifo
  import opened Endpoint
  import opened Network

  const NEWLINE: byte := 10

  /** An encoded message: base85 text never holds a newline. */
  predicate Clean(m: seq<byte>) {
    NEWLINE !in m
  }

  predicate AllClean(ms: seq<seq<byte>>) {
    forall i :: 0 <= i < |ms| ==> Clean(ms[i])
  }

  /** The stream that carries the messages. */
  function Text(ms: seq<seq<byte>>): seq<byte> {
    if ms == [] then [] else Text(ms[..|ms| - 1]) + ms[|ms| - 1] + [NEWLINE]
  }

  lemma {:induction false} TextCons(m: seq<byte>, ms: seq<seq<byte>>)
    ensures Text([m] + ms) == m + [NEWLINE] + Text(ms)
  {
    if ms == [] {
      assert [m] + ms == [] + [m];
    } else {
      var front, last := ms[..|ms| - 1], ms[|ms| - 1];
      TextCons(m, front);
      assert [m] + ms == ([m] + front) + [last];
      Regroup(m + [NEWLINE], Text(front), last);
    }
  }

  lemma Regroup(head: seq<byte>, text: seq<byte>, last: seq<byte>)
    ensures head + text + last + [NEWLINE] == head + (text + last + [NEWLINE])
  {
    Assoc(head, text, last);
    Assoc(head, text + last, [NEWLINE]);
  }

  /** What the receiver has made of the bytes so far is forced: complete messages and a rest without
      a newline that together are the start of the text of `b` can only be the start of `b`. */
  lemma {:induction false} MessagesAreForced(a: seq<seq<byte>>, r: seq<byte>, b: seq<seq<byte>>, partial: seq<byte>)
    requires AllClean(a) && AllClean(b) && Clean(partial)
    requires Text(a) + r <= Text(b) + partial
    ensures a <= b
    decreases |a|
  {
    if a != [] {
      var m, rest := a[0], a[1..];
      assert a == [m] + rest;
      TextCons(m, rest);
      Assoc(m + [NEWLINE], Text(rest), r);
      var text := Text(b) + partial;
      assert text[|m|] == NEWLINE;
      if b == [] {
        assert false;
      } else {
        assert b == [b[0]] + b[1..];
        TextCons(b[0], b[1..]);
        Assoc(b[0] + [NEWLINE], Text(b[1..]), partial);
        SameFirst(m, b[0], text);
        assert Text(rest) + r == (Text(a) + r)[|m| + 1..];
        assert Text(b[1..]) + partial == text[|m| + 1..];
        MessagesAreForced(rest, r, b[1..], partial);
      }
    }
  }

  /** The first newline of a stream ends its first message. */
  lemma SameFirst(m: seq<byte>, n: seq<byte>, text: seq<byte>)
    requires Clean(m) && Clean(n) && m + [NEWLINE] <= text && n + [NEWLINE] <= text
    ensures m == n
  {
    assert text[|m|] == NEWLINE && text[|n|] == NEWLINE;
    assert forall i :: 0 <= i < |m| ==> text[i] == m[i];
    assert forall i :: 0 <= i < |n| ==> text[i] == n[i];
  }

  /* ---------- what is sent ---------- */

  /** A call of `try_send` on a connection: the agent accepts `n` bytes of the message and its newline. */
  datatype Attempt = Attempt(message: seq<byte>, n: nat)

  predicate Sendable(a: Attempt) {
    Clean(a.message) && a.n <= |a.message| + 1
  }

  /** Accepted whole: `try_send` returns True. */
  predicate Complete(a: Attempt) {
    a.n == |a.message| + 1
  }

  /** Accepted in part: `try_send` raises an exception, but the bytes are on their way. */
  predicate Partial(a: Attempt) {
    1 <= a.n <= |a.message|
  }

  predicate AllSendable(attempts: seq<Attempt>) {
    forall i :: 0 <= i < |attempts| ==> Sendable(attempts[i])
  }

  /** The bytes that an attempt puts on the stream. */
  function Accepted(a: Attempt): seq<byte>
    requires Sendable(a)
  {
    if Complete(a) then a.message + [NEWLINE] else a.message[..a.n]
  }

  function Wire(attempts: seq<Attempt>): seq<byte>
    requires AllSendable(attempts)
  {
    if attempts == [] then [] else Wire(attempts[..|attempts| - 1]) + Accepted(attempts[|attempts| - 1])
  }

  /** The messages whose `try_send` returned True. */
  function Sent(attempts: seq<Attempt>): seq<seq<byte>> {
    if attempts == [] then []
    else
      var a := attempts[|attempts| - 1];
      Sent(attempts[..|attempts| - 1]) + if Complete(a) then [a.message] else []
  }

  /** What a reader makes of the whole stream: complete lines, and the start of the next. */
  datatype Reading = Reading(lines: seq<seq<byte>>, tail: seq<byte>)

  function Read(attempts: seq<Attempt>): Reading
    requires AllSendable(attempts)
  {
    if attempts == [] then Reading([], [])
    else
      var a, before := attempts[|attempts| - 1], Read(attempts[..|attempts| - 1]);
      if Complete(a) then Reading(before.lines + [before.tail + a.message], [])
      else Reading(before.lines, before.tail + a.message[..a.n])
  }

  lemma {:induction false} WireReads(attempts: seq<Attempt>)
    requires AllSendable(attempts)
    ensures AllClean(Read(attempts).lines) && Clean(Read(attempts).tail)
    ensures Wire(attempts) == Text(Read(attempts).lines) + Read(attempts).tail
    ensures |Read(attempts).lines| == |Sent(attempts)|
  {
    if attempts != [] {
      var a, front := attempts[|attempts| - 1], attempts[..|attempts| - 1];
      WireReads(front);
      var before := Read(front);
      if Complete(a) {
        LineEnds(Text(before.lines), before.tail, a.message);
      } else {
        Assoc(Text(before.lines), before.tail, a.message[..a.n]);
      }
    }
  }

  lemma LineEnds(text: seq<byte>, tail: seq<byte>, m: seq<byte>)
    ensures text + tail + (m + [NEWLINE]) == text + (tail + m) + [NEWLINE] + []
  {
    Assoc(text, tail, m);
    Assoc(text + tail, m, [NEWLINE]);
  }

  /** No partial attempt comes before a complete one. */
  predicate Tidy(attempts: seq<Attempt>) {
    forall i, j :: 0 <= i < j < |attempts| ==> !(Partial(attempts[i]) && Complete(attempts[j]))
  }

  predicate NoPartial(attempts: seq<Attempt>) {
    forall i :: 0 <= i < |attempts| ==> !Partial(attempts[i])
  }

  lemma TidySnoc(front: seq<Attempt>, a: Attempt)
    ensures Tidy(front + [a]) <==> Tidy(front) && (Complete(a) ==> NoPartial(front))
    ensures NoPartial(front + [a]) <==> NoPartial(front) && !Partial(a)
  {
    var all := front + [a];
    assert forall i :: 0 <= i < |front| ==> all[i] == front[i];
    assert all[|front|] == a;
  }

  /** The lines that a reader gets are the messages whose `try_send` returned True, exactly when no
      message was accepted whole after one that was accepted in part. */
  lemma {:induction false} LinesAreSentExactly(attempts: seq<Attempt>)
    requires AllSendable(attempts)
    ensures Read(attempts).lines == Sent(attempts) <==> Tidy(attempts)
    ensures Tidy(attempts) ==> (Read(attempts).tail == [] <==> NoPartial(attempts))
  {
    if attempts != [] {
      var a, front := attempts[|attempts| - 1], attempts[..|attempts| - 1];
      assert attempts == front + [a];
      LinesAreSentExactly(front);
      WireReads(front);
      TidySnoc(front, a);
      if Complete(a) {
        LastLine(Read(front).lines, Read(front).tail, Sent(front), a.message);
      }
    }
  }

  lemma LastLine(lines: seq<seq<byte>>, tail: seq<byte>, sent: seq<seq<byte>>, m: seq<byte>)
    requires |lines| == |sent|
    ensures lines + [tail + m] == sent + [m] <==> lines == sent && tail == []
  {
    if lines + [tail + m] == sent + [m] {
      assert lines == (lines + [tail + m])[..|lines|] == (sent + [m])[..|sent|] == sent;
      assert tail + m == (lines + [tail + m])[|lines|] == (sent + [m])[|sent|] == m;
    } else if tail == [] {
      assert tail + m == m;
    }
  }

  /** One byte of a message, then a whole one: both `try_send` and the reader see one message, but not
      the same. */
  lemma MergedLine(m: seq<byte>, k: seq<byte>)
    requires m != [] && Clean(m) && Clean(k)
    ensures var attempts := [Attempt(m, 1), Attempt(k, |k| + 1)];
            AllSendable(attempts) && Sent(attempts) == [k] && Read(attempts).lines == [m[..1] + k] != [k]
  {
    var a, b := Attempt(m, 1), Attempt(k, |k| + 1);
    ReadSnoc([], a);
    ReadSnoc([a], b);
    assert [] + [a] == [a] && [a] + [b] == [a, b];
    assert [] + m[..1] == m[..1] && |m[..1] + k| == 1 + |k|;
  }

  lemma ReadSnoc(front: seq<Attempt>, a: Attempt)
    requires AllSendable(front) && Sendable(a)
    ensures AllSendable(front + [a])
    ensures Sent(front + [a]) == Sent(front) + if Complete(a) then [a.message] else []
    ensures var r := Read(front);
            Read(front + [a]) == if Complete(a) then Reading(r.lines + [r.tail + a.message], [])
                                 else Reading(r.lines, r.tail + a.message[..a.n])
  {
    assert (front + [a])[..|front|] == front;
  }

  /** Parts alone do no harm: without a newline after them nothing is read. */
  lemma PartsAlone(m: seq<byte>, k: seq<byte>)
    requires m != [] && k != [] && Clean(m) && Clean(k)
    ensures var attempts := [Attempt(m, 1), Attempt(k, 1)];
            AllSendable(attempts) && Read(attempts).lines == Sent(attempts) == []
  {
    var a, b := Attempt(m, 1), Attempt(k, 1);
    ReadSnoc([], a);
    ReadSnoc([a], b);
    assert [] + [a] == [a] && [a] + [b] == [a, b];
  }

  datatype SendResult = Returned(ok: bool) | Raised

  class OneWayConnection {
    var connected: bool
    /** The text handed to the agent and accepted by it. */
    var accepted: seq<byte>
    var bytes: seq<byte>
    /** The calls of `try_send` while connected. */
    ghost var attempts: seq<Attempt>
    /** All bytes received; the messages yielded. */
    ghost var received: seq<byte>
    ghost var yielded: seq<seq<byte>>

    ghost predicate Valid()
      reads this
    {
      && AllSendable(attempts) && accepted == Wire(attempts)
      && AllClean(yielded) && received == Text(yielded) + bytes
    }

    constructor ()
      ensures Valid() && attempts == [] && yielded == [] && received == []
    {
      connected, accepted, bytes := false, [], [];
      attempts, received, yielded := [], [], [];
    }

    /** `try_send`; the agent accepts the first `n` bytes.  Accepting fewer than all raises an
        exception, and the connection stays as it is. */
    method TrySend(message: seq<byte>, n: nat) returns (result: SendResult)
      requires Valid() && Sendable(Attempt(message, n))
      modifies this`accepted, this`attempts
      ensures Valid()
      ensures attempts == old(attempts) + if connected then [Attempt(message, n)] else []
      ensures result == if !connected then Returned(false)
                        else if Complete(Attempt(message, n)) then Returned(true) else Raised
    {
      var text := message + [NEWLINE];
      if !connected {
        return Returned(false);
      }
      ghost var a := Attempt(message, n);
      accepted, attempts := accepted + text[..n], attempts + [a];
      return if n == |text| then Returned(true) else Raised;
    }

    /** `read_messages`: all chunks queued by the receiving thread are taken, and every complete
        message is yielded, once. */
    method ReadMessages(chunks: seq<seq<byte>>) returns (messages: seq<seq<byte>>)
      requires Valid()
      modifies this`bytes, this`received, this`yielded
      ensures Valid() && Clean(bytes)
      ensures received == old(received) + Flatten(chunks) && yielded == old(yielded) + messages
    {
      messages := [];
      TakeAll(chunks);
      while NEWLINE in bytes
        invariant Valid() && received == old(received) + Flatten(chunks)
        invariant yielded == old(yielded) + messages
        decreases |bytes|
      {
        var message := NextMessage();
        messages := messages + [message];
      }
    }

    method TakeAll(chunks: seq<seq<byte>>)
      requires Valid()
      modifies this`bytes, this`received
      ensures Valid() && received == old(received) + Flatten(chunks) && bytes == old(bytes) + Flatten(chunks)
    {
      var all := [];
      for i := 0 to |chunks|
        invariant all == Flatten(chunks[..i])
      {
        assert chunks[..i + 1][..i] == chunks[..i];
        all := all + chunks[i];
      }
      assert chunks[..|chunks|] == chunks;
      Assoc(Text(yielded), bytes, all);
      bytes, received := bytes + all, received + all;
    }

    /** The text up to the first newline leaves the buffer. */
    method NextMessage() returns (message: seq<byte>)
      requires Valid() && NEWLINE in bytes
      modifies this`bytes, this`yielded
      ensures Valid() && yielded == old(yielded) + [message] && |bytes| < |old(bytes)|
    {
      var len := IndexOfNewline(bytes);
      message := bytes[..len];
      assert bytes == (message + [NEWLINE]) + bytes[len + 1..];
      TextMoves(yielded, message, bytes[len + 1..]);
      yielded, bytes := yielded + [message], bytes[len + 1..];
    }
  }

  lemma TextMoves(ms: seq<seq<byte>>, m: seq<byte>, rest: seq<byte>)
    ensures Text(ms) + ((m + [NEWLINE]) + rest) == Text(ms + [m]) + rest
  {
    Assoc(Text(ms), m, [NEWLINE]);
    Assoc(Text(ms), m + [NEWLINE], rest);
  }

  method IndexOfNewline(bytes: seq<byte>) returns (len: nat)
    requires NEWLINE in bytes
    ensures len < |bytes| && bytes[len] == NEWLINE && Clean(bytes[..len])
  {
    len := 0;
    while bytes[len] != NEWLINE
      invariant 0 <= len < |bytes| && (exists i :: len <= i < |bytes| && bytes[i] == NEWLINE)
      invariant forall i :: 0 <= i < len ==> bytes[i] != NEWLINE
      decreases |bytes| - len
    {
      len := len + 1;
    }
  }

  function Flatten(chunks: seq<seq<byte>>): seq<byte> {
    if chunks == [] then [] else Flatten(chunks[..|chunks| - 1]) + chunks[|chunks| - 1]
  }

  /** End to end: while two sockets are joined, what has been yielded from the bytes read so far is a
      prefix of the lines on the sender's stream, and all of them once every byte has been read. */
  lemma LinesArriveInOrder(s: View, r: View, attempts: seq<Attempt>, yielded: seq<seq<byte>>, bytes: seq<byte>)
    requires Joined(s, r) && AllSendable(attempts) && AllClean(yielded) && r.taken == Text(yielded) + bytes
    requires CTL_LEN <= |s.out| && s.out[CTL_LEN..] == Wire(attempts)
    ensures yielded <= Read(attempts).lines
    ensures |r.taken| == |Wire(attempts)| && Clean(bytes) ==> yielded == Read(attempts).lines
  {
    JoinedPrefix(s, r);
    WireReads(attempts);
    var lines, tail, wire := Read(attempts).lines, Read(attempts).tail, Wire(attempts);
    assert r.taken <= wire by {
      if r.taken != [] {
        assert r.taken == s.out[CTL_LEN..][..|r.taken|];
      }
    }
    MessagesAreForced(yielded, bytes, lines, tail);
    if |r.taken| == |wire| && Clean(bytes) {
      assert r.taken == wire;
      MessagesAreForced(lines, tail, yielded, bytes);
    }
  }

  /** So as long as no message was accepted whole after one accepted in part, what has been yielded is
      a prefix of the messages whose `try_send` returned True; and once every byte has been read the two
      are equal exactly then. */
  lemma MessagesArriveInOrder(s: View, r: View, attempts: seq<Attempt>, yielded: seq<seq<byte>>, bytes: seq<byte>)
    requires Joined(s, r) && AllSendable(attempts) && AllClean(yielded) && r.taken == Text(yielded) + bytes
    requires CTL_LEN <= |s.out| && s.out[CTL_LEN..] == Wire(attempts)
    ensures Tidy(attempts) ==> yielded <= Sent(attempts)
    ensures |r.taken| == |Wire(attempts)| && Clean(bytes) ==> (yielded == Sent(attempts) <==> Tidy(attempts))
  {
    LinesArriveInOrder(s, r, attempts, yielded, bytes);
    LinesAreSentExactly(attempts);
  }
}

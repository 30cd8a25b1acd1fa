/** The buffers between the debugWIRE commands and the two kinds of port.  Whatever the pattern of sends, flushes and
    receives, the bytes on the wire followed by those in the buffer are the bytes that were sent. */
module Transport {

  import opened Bytes

  /** What a list of transactions carries. */
  function Flat(transfers: seq<seq<byte>>): seq<byte> {
    if transfers == [] then [] else
    var n := |transfers| - 1;
    Flat(transfers[..n]) + transfers[n]
  }

  lemma FlatMore(transfers: seq<seq<byte>>, t: seq<byte>)
    ensures Flat(transfers + [t]) == Flat(transfers) + t
  {
    assert (transfers + [t])[..|transfers|] == transfers;
  }

  /** A buffer of fixed capacity in front of a port. */
  class OutBuffer {
    const bytes: array<byte>
    var length: nat
    ghost var transfers: seq<seq<byte>>   // what has gone out, one transaction after another

    ghost predicate Valid()
      reads this, bytes
    {
      && length <= bytes.Length && bytes.Length > 0
      && forall t <- transfers :: 1 <= |t| <= bytes.Length
    }

    /** Everything sent so far: on the wire, then in the buffer. */
    ghost function Sent(): seq<byte>
      requires Valid()
      reads this, bytes
    {
      Flat(transfers) + bytes[..length]
    }

    constructor (capacity: nat)
      requires capacity > 0
      ensures Valid() && fresh(bytes) && bytes.Length == capacity && length == 0 && transfers == []
    {
      bytes := new byte[capacity](_ => 0);
      length := 0;
      transfers := [];
    }

    /** memcpy behind the bytes that are in the buffer already. */
    method Copy(out: seq<byte>, n: nat)
      requires Valid() && n <= |out| && length + n <= bytes.Length
      modifies bytes
      ensures bytes[..length + n] == old(bytes[..length]) + out[..n]
      ensures Valid()
    {
      for i := 0 to n
        invariant bytes[..length] == old(bytes[..length])
        invariant bytes[length..length + i] == out[..i]
      {
        bytes[length + i] := out[i];
      }
    }

    /** One transaction with the whole buffer contents. */
    method Transmit(n: nat)
      requires Valid() && 1 <= n <= bytes.Length
      modifies `transfers, `length
      ensures Valid() && length == 0
      ensures transfers == old(transfers) + [bytes[..n]]
      ensures Flat(transfers) == old(Flat(transfers)) + bytes[..n]
    {
      FlatMore(transfers, bytes[..n]);
      transfers := transfers + [bytes[..n]];
      length := 0;
    }

    /** SerialFlush, digisparkBufferFlush: afterwards nothing is left behind. */
    method Flush()
      requires Valid()
      modifies `transfers, `length
      ensures Valid() && length == 0 && Sent() == old(Sent())
      ensures Flat(transfers) == old(Sent())
      ensures old(length) > 0 ==> transfers == old(transfers) + [old(bytes[..length])]
      ensures old(length) == 0 ==> transfers == old(transfers)
    {
      if length > 0 {
        Transmit(length);
      }
    }

    /** SerialSend: whole buffers go out, and the remainder stays. */
    method SerialSend(out0: seq<byte>)
      requires Valid() && length < bytes.Length
      modifies this, bytes
      ensures Valid() && Sent() == old(Sent()) + out0
      ensures length == (old(length) + |out0|) % bytes.Length
    {
      var out, outlen := out0, |out0|;
      ghost var goal := Sent() + out;
      while length + outlen >= bytes.Length
        invariant Valid() && length < bytes.Length && outlen == |out|
        invariant Sent() + out == goal
        invariant (length + outlen) % bytes.Length == (old(length) + |out0|) % bytes.Length
        decreases length + outlen
      {
        LessOne(length + outlen, bytes.Length);
        out, outlen := FillAndSend(out, outlen, goal);
      }
      Append(out, goal);
      SmallRemainder(length, bytes.Length);
    }

    /** DigisparkSend: whole buffers go out, but never the last byte: a send of at least one byte leaves at least one in
        the buffer, so that the next read transaction has something to send first. */
    method DigisparkSend(out0: seq<byte>)
      requires Valid()
      modifies this, bytes
      ensures Valid() && Sent() == old(Sent()) + out0
      ensures length == if old(length) + |out0| == 0 then 0 else (old(length) + |out0| - 1) % bytes.Length + 1
      ensures out0 != [] ==> 1 <= length <= bytes.Length
    {
      var out, outlen := out0, |out0|;
      ghost var goal := Sent() + out;
      while length + outlen > bytes.Length
        invariant Valid() && outlen == |out|
        invariant Sent() + out == goal
        invariant out0 != [] ==> outlen > 0
        invariant old(length) + |out0| > 0 ==>
                    && length + outlen > 0
                    && (length + outlen - 1) % bytes.Length == (old(length) + |out0| - 1) % bytes.Length
        decreases length + outlen
      {
        LessOne(length + outlen - 1, bytes.Length);
        out, outlen := FillAndSend(out, outlen, goal);
      }
      Append(out, goal);
      if length > 0 { SmallRemainder(length - 1, bytes.Length); }
    }

    /** The body of both loops: fill the buffer and send all of it. */
    method FillAndSend(out0: seq<byte>, outlen0: nat, ghost goal: seq<byte>) returns (out: seq<byte>, outlen: nat)
      requires Valid() && outlen0 == |out0| && length + outlen0 >= bytes.Length && Sent() + out0 == goal
      modifies this, bytes
      ensures Valid() && length == 0 && outlen == |out|
      ensures Sent() + out == goal && outlen == old(length) + outlen0 - bytes.Length
    {
      var lenToCopy := bytes.Length - length;
      ghost var before := bytes[..length];
      Copy(out0, lenToCopy);
      Transmit(bytes.Length);
      out, outlen := out0[lenToCopy..], outlen0 - lenToCopy;
      assert before + out0 == (before + out0[..lenToCopy]) + out;
    }

    /** What is left goes into the buffer. */
    method Append(out: seq<byte>, ghost goal: seq<byte>)
      requires Valid() && length + |out| <= bytes.Length && Sent() + out == goal
      modifies this, bytes
      ensures Valid() && length == old(length) + |out| && Sent() == goal
    {
      Copy(out, |out|);
      length := length + |out|;
      assert out[..|out|] == out;
    }

    /** SerialReceive and DigisparkReceive: everything sent is on the wire before the answer is read. */
    method BeforeReceive()
      requires Valid()
      modifies `transfers, `length
      ensures Valid() && length == 0 && Flat(transfers) == old(Sent())
      ensures old(length) > 0 ==> |transfers| == |old(transfers)| + 1
    {
      Flush();
    }
  }

  /** The 256 bytes of the serial port's buffer can be left with more than 127 bytes in them. */
  method LongRemainder(out: seq<byte>) returns (b: OutBuffer)
    requires |out| == 200
    ensures fresh(b) && b.bytes.Length == 256 && b.Valid() && b.length == 200 && b.transfers == []
  {
    b := new OutBuffer(256);
    b.SerialSend(out);
  }

  /** One operation on a port. */
  datatype Call = Send(bytes: seq<byte>) | FlushOut | Receive

  function SentBy(call: Call): seq<byte> { if call.Send? then call.bytes else [] }

  function AllSent(calls: seq<Call>): seq<byte> {
    if calls == [] then [] else SentBy(calls[0]) + AllSent(calls[1..])
  }

  /** One operation on a serial port or a Digispark. */
  method Perform(b: OutBuffer, serial: bool, call: Call)
    requires b.Valid() && (serial ==> b.length < b.bytes.Length)
    modifies b, b.bytes
    ensures b.Valid() && (serial ==> b.length < b.bytes.Length)
    ensures b.Sent() == old(b.Sent()) + SentBy(call)
  {
    hide Flat;
    match call
    case Send(bytes) =>
      if serial { b.SerialSend(bytes); } else { b.DigisparkSend(bytes); }
    case FlushOut => b.Flush();
    case Receive => b.BeforeReceive();
  }

  /** Any sequence of operations on either kind of port loses nothing, repeats nothing, and keeps the order. */
  method Session(b: OutBuffer, serial: bool, calls: seq<Call>)
    requires b.Valid() && (serial ==> b.length < b.bytes.Length)
    modifies b, b.bytes
    ensures b.Valid() && b.Sent() == old(b.Sent()) + AllSent(calls)
  {
    ghost var start, done := b.Sent(), [];
    assert calls[..0] == [] && calls[..|calls|] == calls;
    for i := 0 to |calls|
      invariant b.Valid() && (serial ==> b.length < b.bytes.Length)
      invariant b.Sent() == start + done && done == AllSent(calls[..i])
    {
      hide AllSent, SentBy, OutBuffer.Sent;
      AllSentMore(calls, i);
      Associates(start, done, SentBy(calls[i]));
      Perform(b, serial, calls[i]);
      done := done + SentBy(calls[i]);
    }
  }

  lemma Associates(a: seq<byte>, b: seq<byte>, c: seq<byte>)
    ensures (a + b) + c == a + (b + c)
  {
  }

  lemma {:induction false} AllSentMore(calls: seq<Call>, i: nat)
    requires i < |calls|
    ensures AllSent(calls[..i + 1]) == AllSent(calls[..i]) + SentBy(calls[i])
    decreases i
  {
    if i > 0 {
      AllSentMore(calls[1..], i - 1);
      assert calls[1..][..i] == calls[..i + 1][1..] && calls[1..][..i - 1] == calls[..i][1..];
    } else {
      assert calls[..1][1..] == [];
    }
  }
}

/** Control-in transfers as section 8.5.3 of USB 2.0 describes them: what a device sends for a given reply. */
module ControlTransfer {
  import opened Line
  import opened Crc16

  const DATA0: bv8 := 0xc3
  const DATA1: bv8 := 0x4b

  /** The token of data packet i after a SETUP: DATA1 first, then alternating. */
  function TokenAt(i: int): bv8 { if i % 2 == 0 then DATA1 else DATA0 }

  predicate IsDataToken(b: bv8) { b == DATA0 || b == DATA1 }

  function PacketOf(token: bv8, payload: seq<bv8>): (p: seq<bv8>)
    ensures |p| == |payload| + 3
  {
    [token] + payload + CrcBytes(payload)
  }

  /** A complete data packet of a low speed device: token, up to eight bytes, and their CRC. */
  ghost predicate DataPacket(p: seq<bv8>) {
    && 3 <= |p| <= 11
    && IsDataToken(p[0])
    && p == PacketOf(p[0], Payload(p))
  }

  function Payload(p: seq<bv8>): (payload: seq<bv8>)
    requires |p| >= 3
    ensures |payload| == |p| - 3
  {
    p[1..|p| - 2]
  }

  lemma PacketPayload(token: bv8, payload: seq<bv8>)
    ensures Payload(PacketOf(token, payload)) == payload
  {
  }

  /** The i-th run of eight bytes; the last run is shorter, and empty if the length is a multiple of eight. */
  function Chunk(reply: seq<bv8>, i: nat): (chunk: seq<bv8>)
    requires 8 * i <= |reply|
    ensures |chunk| == if 8 * i + 8 <= |reply| then 8 else |reply| - 8 * i
  {
    if 8 * i + 8 <= |reply| then reply[8 * i..8 * i + 8] else reply[8 * i..]
  }

  /** The first n packets of the transfer. */
  function Packets(reply: seq<bv8>, n: nat): (packets: seq<seq<bv8>>)
    requires n <= |reply| / 8 + 1
    ensures |packets| == n
  {
    if n == 0 then [] else Packets(reply, n - 1) + [PacketOf(TokenAt(n - 1), Chunk(reply, n - 1))]
  }

  /** All of them. */
  function Transfer(reply: seq<bv8>): (packets: seq<seq<bv8>>) { Packets(reply, |reply| / 8 + 1) }

  predicate LongEnough(packets: seq<seq<bv8>>) { forall i :: 0 <= i < |packets| ==> |packets[i]| >= 3 }

  /** What the host puts together. */
  function Received(packets: seq<seq<bv8>>): seq<bv8>
    requires LongEnough(packets)
  {
    if packets == [] then [] else
    var n := |packets| - 1;
    Received(packets[..n]) + Payload(packets[n])
  }

  lemma {:induction false} PacketsAt(reply: seq<bv8>, n: nat, i: nat)
    requires i < n <= |reply| / 8 + 1
    ensures Packets(reply, n)[i] == PacketOf(TokenAt(i), Chunk(reply, i))
    decreases n
  {
    if i < n - 1 { PacketsAt(reply, n - 1, i); }
  }

  lemma PacketsLong(reply: seq<bv8>, n: nat)
    requires n <= |reply| / 8 + 1
    ensures LongEnough(Packets(reply, n))
  {
    forall i | 0 <= i < n ensures |Packets(reply, n)[i]| >= 3 { PacketsAt(reply, n, i); }
  }

  lemma ReceivedStep(packets: seq<seq<bv8>>, p: seq<bv8>)
    requires LongEnough(packets) && |p| >= 3
    ensures LongEnough(packets + [p]) && Received(packets + [p]) == Received(packets) + Payload(p)
  {
    assert (packets + [p])[..|packets|] == packets;
  }

  /** How much of the reply n packets carry. */
  function Carried(reply: seq<bv8>, n: nat): (k: nat)
    ensures k <= |reply|
  {
    if 8 * n <= |reply| then 8 * n else |reply|
  }

  lemma ChunkAppends(reply: seq<bv8>, n: nat)
    requires n <= |reply| / 8
    ensures reply[..Carried(reply, n)] + Chunk(reply, n) == reply[..Carried(reply, n + 1)]
  {
  }

  /** The packets so far carry the reply so far. */
  lemma {:induction false} PacketsReassemble(reply: seq<bv8>, n: nat)
    requires n <= |reply| / 8 + 1
    ensures LongEnough(Packets(reply, n))
    ensures Received(Packets(reply, n)) == reply[..Carried(reply, n)]
    decreases n
  {
    PacketsLong(reply, n);
    if n > 0 {
      PacketsReassemble(reply, n - 1);
      var token, chunk := TokenAt(n - 1), Chunk(reply, n - 1);
      PacketPayload(token, chunk);
      ReceivedStep(Packets(reply, n - 1), PacketOf(token, chunk));
      ChunkAppends(reply, n - 1);
    }
  }

  lemma PacketIsData(reply: seq<bv8>, n: nat, i: nat)
    requires i < n <= |reply| / 8 + 1
    ensures InPlace(Packets(reply, n)[i], i, |reply| / 8 + 1)
  {
    PacketsAt(reply, n, i);
    PacketPayload(TokenAt(i), Chunk(reply, i));
  }

  /** The right tokens, and only the last packet shorter than eight bytes. */
  ghost predicate WellSequenced(packets: seq<seq<bv8>>) {
    forall i: nat :: i < |packets| ==> InPlace(packets[i], i, |packets|)
  }

  ghost predicate InPlace(p: seq<bv8>, i: nat, n: nat) {
    DataPacket(p) && p[0] == TokenAt(i) && (|p| < 11 <==> i == n - 1)
  }

  lemma TransferSequenced(reply: seq<bv8>)
    ensures WellSequenced(Transfer(reply))
  {
    var n := |reply| / 8 + 1;
    forall i: nat | i < n ensures InPlace(Transfer(reply)[i], i, n) { PacketIsData(reply, n, i); }
  }

  /** A control-in transfer: the payloads concatenate to the reply, the tokens alternate from DATA1, every packet is
      well formed, and exactly the last one is shorter than eight bytes. */
  lemma TransferReassembles(reply: seq<bv8>)
    ensures LongEnough(Transfer(reply)) && Received(Transfer(reply)) == reply
    ensures WellSequenced(Transfer(reply))
  {
    PacketsReassemble(reply, |reply| / 8 + 1);
    assert 8 * (|reply| / 8 + 1) > |reply|;
    assert reply[..|reply|] == reply;
    TransferSequenced(reply);
  }

  /** Nothing else would do: packets with those properties are the transfer. */
  lemma TransferUnique(reply: seq<bv8>, packets: seq<seq<bv8>>)
    requires packets != [] && WellSequenced(packets) && LongEnough(packets)
    requires Received(packets) == reply
    ensures packets == Transfer(reply)
  {
    var n := |packets|;
    FullButLast(packets);
    assert InPlace(packets[n - 1], n - 1, n);
    assert packets[..n] == packets;
    ReceivedAt(packets, n, n - 1);
    forall i: nat | i < n ensures packets[i] == Transfer(reply)[i] {
      UniqueAt(reply, packets, i);
      PacketsAt(reply, n, i);
    }
  }

  lemma FullButLast(packets: seq<seq<bv8>>)
    requires WellSequenced(packets)
    ensures forall j: nat :: j < |packets| - 1 ==> |packets[j]| == 11
  {
    forall j: nat | j < |packets| - 1 ensures |packets[j]| == 11 {
      assert InPlace(packets[j], j, |packets|);
    }
  }

  lemma UniqueAt(reply: seq<bv8>, packets: seq<seq<bv8>>, i: nat)
    requires i < |packets| == |reply| / 8 + 1 && LongEnough(packets)
    requires forall j: nat :: j < |packets| - 1 ==> |packets[j]| == 11
    requires Received(packets) == reply && InPlace(packets[i], i, |packets|)
    ensures packets[i] == PacketOf(TokenAt(i), Chunk(reply, i))
  {
    var n := |packets|;
    assert Payload(packets[i]) == Chunk(reply, i) by {
      assert packets[..n] == packets;
      ReceivedAt(packets, n, i);
      if i == n - 1 { ReceivedAt(packets, n, n - 1); }
    }
  }

  lemma {:induction false} ReceivedLength(packets: seq<seq<bv8>>, n: nat)
    requires n <= |packets| && LongEnough(packets)
    requires forall i: nat :: i < n ==> |packets[i]| == 11
    ensures LongEnough(packets[..n]) && |Received(packets[..n])| == 8 * n
    decreases n
  {
    if n > 0 {
      ReceivedLength(packets, n - 1);
      assert packets[..n][..n - 1] == packets[..n - 1];
    }
  }

  lemma {:induction false} ReceivedAt(packets: seq<seq<bv8>>, n: nat, i: nat)
    requires i < n <= |packets| && LongEnough(packets)
    requires forall j: nat :: j < n - 1 ==> |packets[j]| == 11
    ensures LongEnough(packets[..n]) && |Received(packets[..n])| == 8 * (n - 1) + |packets[n - 1]| - 3
    ensures i < n - 1 ==> 8 * i + 8 <= |Received(packets[..n])|
    ensures Received(packets[..n])[8 * i..8 * i + |packets[i]| - 3] == Payload(packets[i])
    decreases n
  {
    ReceivedLength(packets, n - 1);
    assert packets[..n][..n - 1] == packets[..n - 1];
    if i < n - 1 { ReceivedAt(packets, n - 1, i); }
  }
}

/** The receive loop of usbdrvasm20.inc as a register program: bits are shifted into `shift` from the top, a marker
    bit leaving at the bottom announces bit 7, and `bitcnt` counts 1 bits down from 6.  The leap cycles, which only
    adjust timing, are left out. */
module Receiver20 {
  import opened Line
  import opened Reception
  import opened Registers

  /** `shift` after the given bits of a byte: the bits at the top, below them the marker, preset at bit 6. */
  function Shifted(bits: seq<bool>): bv8
    requires |bits| <= 8
  {
    if bits == [] then 0x40 else
    var n := |bits| - 1;
    (Shifted(bits[..n]) >> 1) | (if bits[n] then 0x80 else 0)
  }

  lemma ShiftedMore(bits: seq<bool>, b: bool)
    requires |bits| < 8
    ensures Ror(Shifted(bits), b) == Shifted(bits + [b])
  {
    assert (bits + [b])[..|bits|] == bits;
  }

  /** The marker is at the bottom after six bits and nowhere before, so the seventh bit pushes it out. */
  lemma Marker(bits: seq<bool>)
    requires |bits| <= 6
    ensures (Shifted(bits) & 1) == 1 <==> |bits| == 6
  {
    MarkerAt(bits);
    assert Wire(Shifted(bits))[0] == ((Shifted(bits) & 1) == 1);
  }

  lemma MarkerPreset()
    ensures forall j: nat :: j < 8 ==> Wire(0x40)[j] == (j == 6)
  {
    WireAt(0x40);
    forall j: nat | j < 8 ensures Bit(0x40, j) == (j == 6) {
      assert (0x40 & BitAt(j)) == (if j == 6 then 0x40 else 0);
    }
  }

  /** Below the bits received, shift holds the marker and nothing else. */
  lemma {:induction false} MarkerAt(bits: seq<bool>)
    requires |bits| <= 6
    ensures forall j: nat :: j < 8 - |bits| ==> Wire(Shifted(bits))[j] == (j == 6 - |bits|)
    decreases |bits|
  {
    if bits == [] {
      MarkerPreset();
    } else {
      var n := |bits| - 1;
      MarkerAt(bits[..n]);
      ShiftedMore(bits[..n], bits[n]);
      assert bits[..n] + [bits[n]] == bits;
      hide Shifted, Ror;
      WireRor(Shifted(bits[..n]), bits[n]);
    }
  }

  /** After eight bits shift is the byte. */
  lemma {:induction false} ShiftedIsPack(bits: seq<bool>)
    requires |bits| == 8
    ensures Shifted(bits) == Pack(bits)
  {
    TopBits(bits);
    WirePack(bits);
    WireInjective(Shifted(bits), Pack(bits));
  }

  lemma {:induction false} TopBits(bits: seq<bool>)
    requires |bits| <= 8
    ensures Wire(Shifted(bits))[8 - |bits|..] == bits
    decreases |bits|
  {
    if bits != [] {
      hide Shifted, Ror, Wire;
      var n := |bits| - 1;
      TopBits(bits[..n]);
      ShiftedMore(bits[..n], bits[n]);
      assert bits == bits[..n] + [bits[n]];
      var w := Wire(Shifted(bits[..n]));
      WireRor(Shifted(bits[..n]), bits[n]);
      OneFurther(w, bits[n], n);
    }
  }

  lemma OneFurther(w: seq<bool>, b: bool, n: nat)
    requires n < |w|
    ensures (w[1..] + [b])[|w| - 1 - n..] == w[|w| - n..] + [b]
  {
  }

  datatype Registers20 = Registers20(pos: nat, shift: bv8, bitcnt: nat, x2: bv8)

  /** The registers after the given bits of the current byte, with stuff bits already dealt with. */
  ghost predicate InStep(r: Registers20, s: Rx20, bits: seq<bool>) {
    && |bits| <= 7 && r.shift == Shifted(bits)
    && r.pos == s.pos && r.x2 == s.level && s.run < 6 && r.bitcnt == 6 - s.run
  }

  /** `unstuff`: the stuff bit becomes the reference and the count starts again. */
  method Unstuff(line: nat -> bv8, r: Registers20) returns (r': Registers20)
    ensures r' == r.(pos := r.pos + 1, bitcnt := 6, x2 := line(r.pos) & USBMASK)
  {
    r' := r.(pos := r.pos + 1, bitcnt := 6, x2 := line(r.pos) & USBMASK);
  }

  /** `handleBit` and `b7handle0`'s counterpart: x1 is the sample of one bit.  carry is the bit pushed out of shift. */
  method HandleBit(line: nat -> bv8, r0: Registers20, x1: bv8, ghost s: Rx20, ghost bits: seq<bool>)
    returns (r: Registers20, carry: bool)
    requires r0.pos > 0 && InStep(r0.(pos := r0.pos - 1), s, bits)
    requires x1 == line(s.pos) & USBMASK
    ensures r.shift == Shifted(bits + [NextBit20(line, s).1])
    ensures r.pos == NextBit20(line, s).0.pos && r.x2 == NextBit20(line, s).0.level
    ensures NextBit20(line, s).0.run < 6 && r.bitcnt == 6 - NextBit20(line, s).0.run
    ensures carry == ((r0.shift & 1) == 1)
  {
    r := r0;
    carry := (r.shift & 1) == 1;
    if x1 == r.x2 {
      ShiftedMore(bits, true);
      r := r.(shift := Ror(r.shift, true), bitcnt := r.bitcnt - 1);
      if r.bitcnt == 0 { r := Unstuff(line, r); }
    } else {
      ShiftedMore(bits, false);
      r := r.(shift := Ror(r.shift, false), bitcnt := 6, x2 := x1);
    }
  }

  /** `bitloop`: bits 0 to 6 of a byte, bit 0 without a test for SE0. */
  method SevenBits(line: nat -> bv8, r0: Registers20, ghost s0: Rx20, ghost room: nat, ghost bytes: seq<bv8>)
    returns (r: Registers20, se0: bool, ghost s: Rx20, ghost bits: seq<bool>)
    requires InStep(r0, s0, [])
    ensures se0 ==> Go20(line, s0, [], room, bytes) == Packet(bytes)
    ensures !se0 ==> |bits| == 7 && InStep(r, s, bits)
                     && Go20(line, s0, [], room, bytes) == Go20(line, s, bits, room, bytes)
  {
    r, s, bits, se0 := r0, s0, [], false;
    var carry := false;
    var x1 := line(r.pos) & USBMASK;
    r := r.(pos := r.pos + 1);
    while !carry
      invariant |bits| <= 7 && (carry <==> |bits| == 7)
      invariant carry ==> InStep(r, s, bits)
      invariant !carry ==> r.pos > 0 && InStep(r.(pos := r.pos - 1), s, bits) && x1 == line(s.pos) & USBMASK
      invariant !carry && bits != [] ==> !IsSe0(line(s.pos))
      invariant Go20(line, s0, [], room, bytes) == Go20(line, s, bits, room, bytes)
      decreases 7 - |bits|
    {
      Marker(bits);
      r, carry := HandleBit(line, r, x1, s, bits);
      s, bits := NextBit20(line, s).0, bits + [NextBit20(line, s).1];
      if !carry {
        x1 := line(r.pos) & USBMASK;
        if x1 == 0 { se0 := true; return; }
        r := r.(pos := r.pos + 1);
      }
    }
  }

  /** The whole receive loop, storing at y in buf. */
  method Receive(line: nat -> bv8, buf: array<bv8>, offset: nat) returns (outcome: Outcome, y: nat)
    requires offset + USB_BUFSIZE <= buf.Length
    modifies buf
    ensures outcome == Receive20(line)
    ensures outcome.Packet? ==>
              && |outcome.bytes| <= USB_BUFSIZE && y == offset + |outcome.bytes|
              && buf[..] == old(buf[..offset]) + outcome.bytes + old(buf[y..])
    ensures buf[..offset] == old(buf[..offset]) && buf[offset + USB_BUFSIZE..] == old(buf[offset + USB_BUFSIZE..])
  {
    hide Pack, Wire;
    var r := Registers20(0, 0x40, 5, 0x10);
    var cnt: nat := USB_BUFSIZE;
    y := offset;
    ghost var s, bytes, was := START20, [], buf[..];
    while true
      invariant InStep(r, s, []) && cnt + |bytes| == USB_BUFSIZE && y == offset + |bytes|
      invariant y <= |was| && buf[..] == was[..offset] + bytes + was[y..]
      invariant Receive20(line) == Go20(line, s, [], cnt, bytes)
      decreases cnt
    {
      var se0;
      ghost var s7, bits;
      r, se0, s7, bits := SevenBits(line, r, s, cnt, bytes);
      if se0 { return Packet(buf[offset..y]), y; }
      if cnt == 0 { return Overflow, y; }
      cnt := cnt - 1;
      var x1 := line(r.pos) & USBMASK;
      var carry;
      r, carry := HandleBit(line, r.(pos := r.pos + 1), x1, s7, bits);
      ghost var bits8 := bits + [NextBit20(line, s7).1];
      ShiftedIsPack(bits8);
      buf[y] := r.shift;
      y := y + 1;
      r := r.(shift := 0x40);
      s, bytes := NextBit20(line, s7).0, bytes + [Pack(bits8)];
    }
  }
}

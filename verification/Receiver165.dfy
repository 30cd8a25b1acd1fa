/** The receive loop of usbdrvasm165.inc as a register program.  The phase locked loop (`phase`, r0) is left out;
    `line(pos)` stands for `in reg, USBIN` at the centre of bit time pos.

    `shift` holds the bits inverted, so six 1 bits in a row are six zeros, which one mask per bit position
    detects.  On an unstuff the sixth bit is flipped in `shift` to break the run, and the flip is recorded in x3,
    so that x3 ^ shift is the byte received. */
module Receiver165 {
  import opened Line
  import opened Reception
  import opened Registers

  // ---- the run of 1 bits, as shift shows it

  /** The bit received before bit i: bits go round in shift. */
  function Before(i: nat): (j: nat)
    requires i < 8
    ensures j < 8
  {
    if i == 0 then 7 else i - 1
  }

  /** Consecutive zeros read downwards, and around, from bit i, up to `limit`. */
  function Zeros(w: seq<bool>, i: nat, limit: nat): (n: nat)
    requires i < 8 && |w| == 8
    ensures n <= limit
    decreases w, limit
  {
    if limit == 0 || w[i] then 0 else 1 + Zeros(w, Before(i), limit - 1)
  }

  /** The number of 1 bits just received when bit i was the last one. */
  function RunAt(w: seq<bool>, i: nat): (n: nat)
    requires i < 8 && |w| == 8
    ensures n <= 6
  {
    Zeros(w, i, 6)
  }

  /** j is one of the n positions up to and including i. */
  predicate Within(j: nat, i: nat, n: nat)
    requires i < 8 && j < 8
  {
    (i + 8 - j) % 8 < n
  }

  lemma {:induction false} ZerosDepend(a: seq<bool>, b: seq<bool>, i: nat, limit: nat)
    requires i < 8 && |a| == |b| == 8
    requires forall j: nat :: j < 8 && Within(j, i, limit) ==> a[j] == b[j]
    ensures Zeros(a, i, limit) == Zeros(b, i, limit)
    decreases limit
  {
    if limit > 0 {
      assert Within(i, i, limit);
      ZerosDepend(a, b, Before(i), limit - 1);
    }
  }

  lemma {:induction false} ZerosLimit(a: seq<bool>, i: nat, limit: nat)
    requires i < 8 && |a| == 8 && Zeros(a, i, limit + 1) <= limit
    ensures Zeros(a, i, limit) == Zeros(a, i, limit + 1)
    decreases limit
  {
    if limit > 0 && !a[i] { ZerosLimit(a, Before(i), limit - 1); }
  }

  lemma {:induction false} ZerosFull(w: seq<bool>, i: nat, limit: nat)
    requires i < 8 && limit <= 8 && |w| == 8
    ensures Zeros(w, i, limit) == limit <==> (forall j: nat :: j < 8 && Within(j, i, limit) ==> !w[j])
    decreases limit
  {
    if limit > 0 {
      hide Within;
      ZerosFull(w, Before(i), limit - 1);
      forall j: nat | j < 8
        ensures Within(j, i, limit) <==> j == i || Within(j, Before(i), limit - 1)
      {
        WithinBefore(i, j, limit);
      }
    }
  }

  lemma WithinBefore(i: nat, j: nat, limit: nat)
    requires i < 8 && j < 8 && 1 <= limit <= 8
    ensures Within(j, i, limit) <==> j == i || Within(j, Before(i), limit - 1)
  {
  }

  /** Storing bit i extends the run, or ends it. */
  lemma StoreRun(w: seq<bool>, i: nat, t: bool)
    requires i < 8 && |w| == 8 && RunAt(w, Before(i)) < 6
    ensures RunAt(w[i := t], i) == if t then 0 else RunAt(w, Before(i)) + 1
  {
    if !t {
      forall j: nat | j < 8 && Within(j, Before(i), 5) ensures w[i := t][j] == w[j] {
        assert j != i;
      }
      ZerosDepend(w[i := t], w, Before(i), 5);
      ZerosLimit(w, Before(i), 5);
    }
  }

  /** The bits whose six zeros mean a stuff bit, after bit i: the position masks of the source. */
  function RunMask(i: nat): bv8
    requires i < 8
  {
    match i
    case 0 => 0xf9 case 1 => 0xf3 case 2 => 0xe7 case 3 => 0xcf
    case 4 => 0x9f case 5 => 0x3f case 6 => 0x7e case _ => 0xfc
  }

  lemma RunMaskBit(shift: bv8, i: nat, j: nat)
    requires i < 8 && j < 8
    ensures Bit(shift & RunMask(i), j) == (Within(j, i, 6) && Bit(shift, j))
  {
    assert (RunMask(i) & BitAt(j)) == if Within(j, i, 6) then BitAt(j) else 0;
    assert ((shift & RunMask(i)) & BitAt(j)) == (shift & (RunMask(i) & BitAt(j)));
  }

  lemma WireMask(shift: bv8, i: nat)
    requires i < 8
    ensures forall j: nat :: j < 8 ==> Wire(shift & RunMask(i))[j] == (Within(j, i, 6) && Wire(shift)[j])
  {
    forall j: nat | j < 8 ensures Wire(shift & RunMask(i))[j] == (Within(j, i, 6) && Wire(shift)[j]) {
      BitsFromAt(shift & RunMask(i), 8, j);
      BitsFromAt(shift, 8, j);
      RunMaskBit(shift, i, j);
    }
  }

  /** What a position mask leaves of shift still tells the run, and is zero exactly for a run of six. */
  lemma MaskKeepsRun(shift: bv8, i: nat)
    requires i < 8
    ensures RunAt(Wire(shift & RunMask(i)), i) == RunAt(Wire(shift), i)
    ensures (shift & RunMask(i)) == 0 <==> RunAt(Wire(shift), i) == 6
  {
    WireMask(shift, i);
    ZerosDepend(Wire(shift & RunMask(i)), Wire(shift), i, 6);
    ZeroWire(shift & RunMask(i));
    ZerosFull(Wire(shift), i, 6);
  }

  // ---- the byte, as x3 and shift together hold it

  /** The bits of the byte so far are those of x3 ^ shift; x3 has been touched below bit n at most. */
  ghost predicate ByteSoFar(bits: seq<bool>, shift: seq<bool>, x3: seq<bool>, n: nat) {
    && |bits| <= 8 && |shift| == |x3| == 8
    && (forall j :: 0 <= j < |bits| ==> bits[j] == (x3[j] != shift[j]))
    && (forall j :: n <= j < 8 ==> x3[j])
  }

  lemma ByteDone(bits: seq<bool>, shift: bv8, x3: bv8, n: nat)
    requires |bits| == 8 && ByteSoFar(bits, Wire(shift), Wire(x3), n)
    ensures x3 ^ shift == Pack(bits)
  {
    WireXor(x3, shift);
    WirePack(bits);
    WireInjective(x3 ^ shift, Pack(bits));
  }

  lemma CompareBit6(shift: bv8)
    requires !Wire(shift)[7]
    ensures shift < 2 <==> RunAt(Wire(shift), 6) == 6
  {
    WireAt(shift);
    MaskKeepsRun(shift, 6);
  }

  lemma CompareBit7(shift: bv8)
    ensures shift < 4 <==> RunAt(Wire(shift), 7) == 6
  {
    MaskKeepsRun(shift, 7);
  }

  lemma MinusOf(a: bv8, b: bv8)
    ensures Minus(a ^ b) == (Minus(a) != Minus(b))
    ensures Minus(a & USBMASK) == Minus(a)
    ensures IsSe0(a) <==> (a & USBMASK) == 0
  {
  }

  /** Bit i received at the end of a run shorter than six. */
  lemma Stored(bits: seq<bool>, run: nat, shift: bv8, x3: bv8, n: nat, t: bool)
    requires n <= |bits| < 8 && ByteSoFar(bits, Wire(shift), Wire(x3), n)
    requires run == RunAt(Wire(shift), Before(|bits|)) && run < 6
    ensures ByteSoFar(bits + [!t], Wire(Bld(shift, |bits|, t)), Wire(x3), |bits|)
    ensures RunAt(Wire(Bld(shift, |bits|, t)), |bits|) == if t then 0 else run + 1
  {
    WireBld(shift, |bits|, t);
    StoreRun(Wire(shift), |bits|, t);
  }

  lemma MaskedBits(bits: seq<bool>, shift: seq<bool>, masked: seq<bool>, x3: seq<bool>, i: nat)
    requires |bits| == i + 1 <= 6 && ByteSoFar(bits, shift, x3, i)
    requires |masked| == 8 && forall j: nat :: j < 8 ==> masked[j] == (Within(j, i, 6) && shift[j])
    ensures ByteSoFar(bits, masked, x3, i)
    ensures i == 5 ==> !masked[7]
  {
    assert !Within(7, 5, 6);
  }

  /** The masks of bits 0 to 5 only clear bits that are yet to come. */
  lemma Masked(bits: seq<bool>, shift: bv8, x3: bv8, i: nat, m: bv8)
    requires |bits| == i + 1 <= 6 && ByteSoFar(bits, Wire(shift), Wire(x3), i)
    requires m == shift & RunMask(i)
    ensures ByteSoFar(bits, Wire(m), Wire(x3), i)
    ensures RunAt(Wire(m), i) == RunAt(Wire(shift), i)
    ensures m == 0 <==> RunAt(Wire(shift), i) == 6
    ensures i == 5 ==> !Wire(m)[7]
  {
    MaskedWire(shift, i, m);
    MaskedBits(bits, Wire(shift), Wire(m), Wire(x3), i);
  }

  lemma MaskedWire(shift: bv8, i: nat, m: bv8)
    requires i < 8 && m == shift & RunMask(i)
    ensures forall j: nat :: j < 8 ==> Wire(m)[j] == (Within(j, i, 6) && Wire(shift)[j])
    ensures RunAt(Wire(m), i) == RunAt(Wire(shift), i)
    ensures m == 0 <==> RunAt(Wire(shift), i) == 6
  {
    WireMask(shift, i);
    MaskKeepsRun(shift, i);
  }

  lemma FlippedBits(bits: seq<bool>, shift: seq<bool>, x3: seq<bool>, i: nat)
    requires |bits| == i + 1 <= 8 && ByteSoFar(bits, shift, x3, i)
    requires RunAt(shift, i) == 6
    ensures ByteSoFar(bits, shift[i := true], x3[i := false], i + 1) && RunAt(shift[i := true], i) == 0
  {
  }

  /** Flipping the sixth 1 in shift and recording it in x3 ends the run and does not change the byte. */
  lemma Flipped(bits: seq<bool>, shift: bv8, x3: bv8, i: nat, shift': bv8, x3': bv8)
    requires |bits| == i + 1 <= 8 && ByteSoFar(bits, Wire(shift), Wire(x3), i)
    requires RunAt(Wire(shift), i) == 6
    requires shift' == shift | BitAt(i) && x3' == x3 & !BitAt(i)
    ensures ByteSoFar(bits, Wire(shift'), Wire(x3'), i + 1)
    ensures RunAt(Wire(shift'), i) == 0 && shift' != 0
    ensures Wire(shift') == Wire(shift)[i := true]
  {
    WireBld(shift, i, true);
    WireBld(x3, i, false);
    FlippedBits(bits, Wire(shift), Wire(x3), i);
    assert Wire(shift')[i];
    ZeroWire(shift');
  }

  lemma FlippedMasked(bits: seq<bool>, shift: bv8, x3: bv8, masked: bv8)
    requires |bits| == 5 && ByteSoFar(bits, Wire(shift), Wire(x3), 5)
    requires RunAt(Wire(shift), 4) == 0 && masked == shift & RunMask(4)
    ensures ByteSoFar(bits, Wire(masked), Wire(x3), 5)
    ensures RunAt(Wire(masked), 4) == 0 && masked != 0
  {
    MaskedWire(shift, 4, masked);
  }

  /** A sample taken after any stuff bit has been dealt with is the next bit of the specification. */
  lemma SampleIsNextBit(line: nat -> bv8, s: Rx, u: Rx, t: bool)
    requires u == Unstuffed(line, s) && u.run < 6
    requires t == (Minus(line(u.pos)) != u.prev)
    ensures NextBit(line, s) == (Rx(u.pos + 1, Minus(line(u.pos)), if t then 0 else u.run + 1), !t)
  {
  }

  /** `bld` and, for bits 0 to 5, the mask: run, byte and zero flag after bit i. */
  lemma StoredMasked(bits: seq<bool>, run: nat, shift: bv8, x3: bv8, i: nat, t: bool, shift1: bv8, shift2: bv8)
    requires |bits| == i <= 5 && run < 6
    requires ByteSoFar(bits, Wire(shift), Wire(x3), i)
    requires RunAt(Wire(shift), Before(i)) == run
    requires shift1 == Bld(shift, i, t) && shift2 == shift1 & RunMask(i)
    ensures ByteSoFar(bits + [!t], Wire(shift2), Wire(x3), i)
    ensures RunAt(Wire(shift2), i) == if t then 0 else run + 1
    ensures shift2 == 0 <==> RunAt(Wire(shift2), i) == 6
    ensures i == 5 ==> !Wire(shift2)[7]
  {
    Stored(bits, run, shift, x3, i, t);
    Masked(bits + [!t], shift1, x3, i, shift2);
  }

  lemma Took(line: nat -> bv8, s: Rx, u: Rx, bits: seq<bool>, shift: bv8, x3: bv8, i: nat, t: bool, shift1: bv8,
      shift2: bv8)
    requires |bits| == i <= 5 && u == Unstuffed(line, s) && u.run < 6
    requires ByteSoFar(bits, Wire(shift), Wire(x3), i)
    requires RunAt(Wire(shift), Before(i)) == u.run
    requires t == (Minus(line(u.pos)) != u.prev)
    requires shift1 == Bld(shift, i, t) && shift2 == shift1 & RunMask(i)
    ensures ByteSoFar(bits + [NextBit(line, s).1], Wire(shift2), Wire(x3), i)
    ensures RunAt(Wire(shift2), i) == NextBit(line, s).0.run
    ensures NextBit(line, s).0.pos == u.pos + 1 && NextBit(line, s).0.prev == Minus(line(u.pos))
    ensures shift2 == 0 <==> NextBit(line, s).0.run == 6
    ensures i == 5 ==> !Wire(shift2)[7]
  {
    SampleIsNextBit(line, s, u, t);
    StoredMasked(bits, u.run, shift, x3, i, t, shift1, shift2);
  }

  lemma FreshRegister()
    ensures forall j: nat :: j < 8 ==> Wire(0xff)[j]
    ensures RunAt(Wire(0xff), 7) == 0
  {
    WireAt(0xff);
    forall j: nat | j < 8 ensures Bit(0xff, j) {
      assert (0xff & BitAt(j)) == BitAt(j);
    }
  }

  /** The register file of the receive loop; `line` is the port, one reading per bit time. */
  class Receiver {
    const line: nat -> bv8
    var pos: nat
    var shift: bv8
    var x1: bv8
    var x2: bv8
    var x3: bv8
    var z: bool      // the zero flag, as tested by breq unstuff0..5
    var cnt: nat
    var y: nat
    const buf: array<bv8>  // usbRxBuf: two halves of USB_BUFSIZE bytes

    constructor (line: nat -> bv8, buf: array<bv8>)
      ensures this.line == line && this.buf == buf && pos == 0
    {
      this.line, this.buf := line, buf;
      pos, cnt, y, z := 0, 0, 0, false;
      shift, x1, x2, x3 := 0, 0, 0, 0;
    }

    /** shift and x3 hold the given bits of the current byte and end in a run of `run` 1 bits. */
    ghost predicate Holds(bits: seq<bool>, run: nat, n: nat)
      reads this
    {
      && |bits| <= 8
      && ByteSoFar(bits, Wire(shift), Wire(x3), n)
      && run == RunAt(Wire(shift), if bits == [] then 7 else |bits| - 1)
    }

    /** Bit |bits|-1 of a byte has just been stored; the sample it came from is `last`. */
    ghost predicate AtBit(s: Rx, bits: seq<bool>, last: bv8)
      reads this
    {
      && 1 <= |bits| && Holds(bits, s.run, |bits| - 1)
      && pos == s.pos && s.prev == Minus(last)
      && (|bits| <= 6 ==> (z <==> s.run == 6))
      && (6 <= |bits| <= 7 ==> !Wire(shift)[7])
    }

    /** `in reg, USBIN`. */
    method In() returns (port: bv8)
      modifies `pos
      ensures pos == old(pos) + 1 && port == line(old(pos))
    {
      port := line(pos);
      pos := pos + 1;
    }

    /** The two instructions every unstuff branch shares: the sixth 1 is flipped in shift and marked in x3. */
    method Flip(i: nat, ghost bits: seq<bool>)
      requires i < 8 && |bits| == i + 1 && Holds(bits, 6, i)
      modifies `shift, `x3
      ensures Holds(bits, 0, i + 1)
      ensures shift != 0 && Wire(shift) == old(Wire(shift))[i := true]
    {
      var shift', x3' := shift | BitAt(i), x3 & !BitAt(i);
      Flipped(bits, shift, x3, i, shift', x3');
      x3 := x3';
      shift := shift';
    }

    /** `eor`, `bst`, `bld` and the position mask of bits 0 to 5. */
    method StoreMasked(i: nat, previous: bv8, sample: bv8, ghost s: Rx, ghost u: Rx, ghost bits: seq<bool>)
      returns (changed: bv8)
      requires i <= 5 && |bits| == i && Holds(bits, u.run, i)
      requires u == Unstuffed(line, s) && u.run < 6 && u.prev == Minus(previous) && sample == line(u.pos)
      modifies `shift, `z
      ensures Holds(bits + [NextBit(line, s).1], NextBit(line, s).0.run, i)
      ensures NextBit(line, s).0.pos == u.pos + 1 && NextBit(line, s).0.prev == Minus(sample)
      ensures z <==> NextBit(line, s).0.run == 6
      ensures i == 5 ==> !Wire(shift)[7]
    {
      MinusOf(previous, sample);
      changed := previous ^ sample;
      var shift1 := Bld(shift, i, Minus(changed));
      var shift2 := shift1 & RunMask(i);
      Took(line, s, u, bits, shift, x3, i, Minus(changed), shift1, shift2);
      shift := shift2;
      z := shift == 0;
    }

    /** The same for bits 6 and 7, which have no mask. */
    method StoreUnmasked(i: nat, previous: bv8, sample: bv8, ghost s: Rx, ghost u: Rx, ghost bits: seq<bool>)
      returns (changed: bv8)
      requires i in {6, 7} && |bits| == i && Holds(bits, u.run, i)
      requires u == Unstuffed(line, s) && u.run < 6 && u.prev == Minus(previous) && sample == line(u.pos)
      modifies `shift
      ensures Holds(bits + [NextBit(line, s).1], NextBit(line, s).0.run, i)
      ensures NextBit(line, s).0.pos == u.pos + 1 && NextBit(line, s).0.prev == Minus(sample)
      ensures i == 6 && !old(Wire(shift))[7] ==> !Wire(shift)[7]
    {
      MinusOf(previous, sample);
      changed := previous ^ sample;
      SampleIsNextBit(line, s, u, Minus(changed));
      Stored(bits, u.run, shift, x3, i, Minus(changed));
      WireBld(shift, i, Minus(changed));
      shift := Bld(shift, i, Minus(changed));
    }

    /** From haveTwoBitsK: the reference is the K of the last sync bit, and no 1 bit counts yet. */
    method FirstBit0() returns (ghost b: bool)
      requires pos == 0
      modifies `pos, `shift, `x1, `x3, `z
      ensures b == NextBit(line, START165).1
      ensures AtBit(NextBit(line, START165).0, [b], x1)
    {
      shift := 0xff;
      x3 := 0xff;
      x1 := In();
      b := !Minus(x1);
      FreshRegister();
      Stored([], 0, shift, x3, 0, Minus(x1));
      shift := Bld(shift, 0, Minus(x1));
      z := false;
    }

    // ---- the eight bit slots; unstuffN handles a run that ended with bit N

    method Unstuff0(ghost s: Rx, ghost bits: seq<bool>) returns (se0: bool)
      requires |bits| == 1 && Holds(bits, 6, 0) && s.run == 6 && pos == s.pos + 1 && x2 == line(s.pos)
      modifies `pos, `shift, `x1, `x2, `x3
      ensures se0 <==> IsSe0(line(s.pos))
      ensures !se0 ==> Holds(bits, 0, 1) && pos == s.pos + 2 && x2 == line(s.pos + 1)
                       && Minus(x1) == Unstuffed(line, s).prev
    {
      MinusOf(x2, 0);
      x2 := x2 & USBMASK;  // check for SE0
      if x2 == 0 { return true; }
      Flip(0, bits);
      x1 := x2;
      x2 := In();
      return false;
    }

    /** Bit 1, with the SE0 test.  unstuff0 tests the stuff bit instead and samples bit 1 afterwards. */
    method Bit1(ghost s: Rx, ghost bits: seq<bool>) returns (se0: bool)
      requires |bits| == 1 && AtBit(s, bits, x1)
      modifies `pos, `shift, `x1, `x2, `x3, `z
      ensures se0 <==> IsSe0(line(s.pos))
      ensures !se0 ==> AtBit(NextBit(line, s).0, bits + [NextBit(line, s).1], x2)
    {
      x2 := In();
      if z {
        se0 := Unstuff0(s, bits);
      } else {
        se0 := x2 & USBMASK == 0;
      }
      if se0 { return; }
      x1 := StoreMasked(1, x1, x2, s, Unstuffed(line, s), bits);
    }

    method Unstuff1(ghost s: Rx, ghost bits: seq<bool>)
      requires |bits| == 2 && Holds(bits, 6, 1) && s.run == 6 && pos == s.pos + 1 && x1 == line(s.pos)
      modifies `pos, `shift, `x1, `x2, `x3
      ensures Holds(bits, 0, 2) && pos == s.pos + 2 && x1 == line(s.pos + 1) && x2 == line(s.pos)
    {
      Flip(1, bits);
      x2 := x1;
      x1 := In();
    }

    /** Bit 2, with the test for a full buffer. */
    method Bit2(ghost s: Rx, ghost bits: seq<bool>) returns (overflow: bool)
      requires |bits| == 2 && AtBit(s, bits, x2)
      modifies `pos, `shift, `x1, `x2, `x3, `z, `cnt
      ensures overflow <==> old(cnt) == 0
      ensures cnt == if overflow then old(cnt) else old(cnt) - 1
      ensures !overflow ==> AtBit(NextBit(line, s).0, bits + [NextBit(line, s).1], x1)
    {
      x1 := In();
      if z { Unstuff1(s, bits); }
      if cnt == 0 { return true; }
      cnt := cnt - 1;
      x2 := StoreMasked(2, x2, x1, s, Unstuffed(line, s), bits);
      return false;
    }

    method Unstuff2(ghost s: Rx, ghost bits: seq<bool>)
      requires |bits| == 3 && Holds(bits, 6, 2) && s.run == 6 && pos == s.pos + 1 && x2 == line(s.pos)
      modifies `pos, `shift, `x1, `x2, `x3
      ensures Holds(bits, 0, 3) && pos == s.pos + 2 && x2 == line(s.pos + 1) && x1 == line(s.pos)
    {
      Flip(2, bits);
      x1 := x2;
      x2 := In();
    }

    method Bit3(ghost s: Rx, ghost bits: seq<bool>)
      requires |bits| == 3 && AtBit(s, bits, x1)
      modifies `pos, `shift, `x1, `x2, `x3, `z
      ensures AtBit(NextBit(line, s).0, bits + [NextBit(line, s).1], x2)
    {
      x2 := In();
      if z { Unstuff2(s, bits); }
      x1 := StoreMasked(3, x1, x2, s, Unstuffed(line, s), bits);
    }

    method Unstuff3(ghost s: Rx, ghost bits: seq<bool>)
      requires |bits| == 4 && Holds(bits, 6, 3) && s.run == 6 && pos == s.pos
      modifies `pos, `shift, `x2, `x3
      ensures Holds(bits, 0, 4) && pos == s.pos + 1 && x2 == line(s.pos)
    {
      x2 := In();
      Flip(3, bits);
    }

    method Bit4(ghost s: Rx, ghost bits: seq<bool>)
      requires |bits| == 4 && AtBit(s, bits, x2)
      modifies `pos, `shift, `x1, `x2, `x3, `z
      ensures AtBit(NextBit(line, s).0, bits + [NextBit(line, s).1], x1)
    {
      if z { Unstuff3(s, bits); }
      x1 := In();
      x2 := StoreMasked(4, x2, x1, s, Unstuffed(line, s), bits);
    }

    /** Goes back to the mask of bit 4, which now finds the flipped bit. */
    method Unstuff4(ghost s: Rx, ghost bits: seq<bool>)
      requires |bits| == 5 && Holds(bits, 6, 4) && s.run == 6 && pos == s.pos
      modifies `pos, `shift, `x1, `x3, `z
      ensures Holds(bits, 0, 5) && pos == s.pos + 1 && x1 == line(s.pos) && !z
    {
      x1 := In();
      Flip(4, bits);
      var masked := shift & 0x9f;
      FlippedMasked(bits, shift, x3, masked);
      shift := masked;
      z := shift == 0;
    }

    method Bit5(ghost s: Rx, ghost bits: seq<bool>)
      requires |bits| == 5 && AtBit(s, bits, x1)
      modifies `pos, `shift, `x1, `x2, `x3, `z
      ensures AtBit(NextBit(line, s).0, bits + [NextBit(line, s).1], x2)
    {
      if z { Unstuff4(s, bits); }
      x2 := In();
      x1 := StoreMasked(5, x1, x2, s, Unstuffed(line, s), bits);
    }

    method Unstuff5(ghost s: Rx, ghost bits: seq<bool>)
      requires |bits| == 6 && Holds(bits, 6, 5) && s.run == 6 && pos == s.pos + 1 && x1 == line(s.pos)
      requires !Wire(shift)[7]
      modifies `pos, `shift, `x1, `x2, `x3
      ensures Holds(bits, 0, 6) && pos == s.pos + 2 && x1 == line(s.pos + 1) && x2 == line(s.pos)
      ensures !Wire(shift)[7]
    {
      Flip(5, bits);
      x2 := x1;
      x1 := In();
    }

    /** Bit 6.  After unstuff5 the source skips the run test that follows. */
    method Bit6(ghost s: Rx, ghost bits: seq<bool>) returns (justUnstuffed: bool)
      requires |bits| == 6 && AtBit(s, bits, x2)
      modifies `pos, `shift, `x1, `x2, `x3, `z
      ensures AtBit(NextBit(line, s).0, bits + [NextBit(line, s).1], x1)
      ensures justUnstuffed ==> NextBit(line, s).0.run < 6
    {
      x1 := In();
      justUnstuffed := z;
      if z { Unstuff5(s, bits); }
      x2 := StoreUnmasked(6, x2, x1, s, Unstuffed(line, s), bits);
    }

    method Unstuff6(ghost s: Rx, ghost bits: seq<bool>)
      requires |bits| == 7 && Holds(bits, 6, 6) && s.run == 6 && pos == s.pos
      modifies `pos, `shift, `x1, `x3
      ensures Holds(bits, 0, 7) && pos == s.pos + 1 && x1 == line(s.pos)
    {
      x1 := In();
      Flip(6, bits);
    }

    method Bit7(justUnstuffed: bool, ghost s: Rx, ghost bits: seq<bool>)
      requires |bits| == 7 && AtBit(s, bits, x1)
      requires justUnstuffed ==> s.run < 6
      modifies `pos, `shift, `x1, `x2, `x3
      ensures AtBit(NextBit(line, s).0, bits + [NextBit(line, s).1], x2)
    {
      CompareBit6(shift);
      if !justUnstuffed && shift < 0x02 { Unstuff6(s, bits); }
      x2 := In();
      x1 := StoreUnmasked(7, x1, x2, s, Unstuffed(line, s), bits);
    }

    method Unstuff7(ghost s: Rx, ghost bits: seq<bool>)
      requires |bits| == 8 && Holds(bits, 6, 7) && s.run == 6 && pos == s.pos
      modifies `pos, `shift, `x2, `x3
      ensures Holds(bits, 0, 8) && pos == s.pos + 1 && x2 == line(s.pos)
    {
      Flip(7, bits);
      x2 := In();
    }

    /** rxLoop: x3 ^ shift is the byte; it is stored while bit 0 of the next one is sampled. */
    method RxLoop(ghost bits: seq<bool>)
      requires |bits| == 8 && ByteSoFar(bits, Wire(shift), Wire(x3), 8) && y < buf.Length
      modifies `pos, `x1, `x3, `y, buf
      ensures y == old(y) + 1 && buf[..] == old(buf[..])[old(y) := Pack(bits)]
      ensures pos == old(pos) + 1 && x1 == line(old(pos))
      ensures ByteSoFar([], Wire(shift), Wire(x3), 0)
    {
      ByteDone(bits, shift, x3, 8);
      x3 := x3 ^ shift;
      x1 := In();
      buf[y] := x3;
      y := y + 1;
      x3 := 0xff;
      FreshRegister();
    }

    /** The run test of bit 7, then rxLoop with bit 0. */
    method Bit0(ghost s: Rx, ghost bits: seq<bool>)
      requires |bits| == 8 && AtBit(s, bits, x2)
      requires y < buf.Length
      modifies `pos, `shift, `x1, `x2, `x3, `z, `y, buf
      ensures AtBit(NextBit(line, s).0, [NextBit(line, s).1], x1)
      ensures y == old(y) + 1 && buf[..] == old(buf[..])[old(y) := Pack(bits)]
    {
      CompareBit7(shift);
      if shift < 0x04 { Unstuff7(s, bits); }
      RxLoop(bits);
      x2 := StoreMasked(0, x2, x1, s, Unstuffed(line, s), []);
    }

    /** Bits 1 and 2 of a byte, with the two ways out of the loop. */
    method FirstBits(ghost s: Rx, ghost b0: bool) returns (se0: bool, overflow: bool)
      requires AtBit(s, [b0], x1)
      modifies `pos, `shift, `x1, `x2, `x3, `z, `cnt
      ensures se0 <==> IsSe0(line(s.pos))
      ensures overflow <==> !se0 && old(cnt) == 0
      ensures cnt == if se0 || overflow then old(cnt) else old(cnt) - 1
      ensures !se0 && !overflow ==> AtBit(NextBits(line, s, 2).0, [b0] + NextBits(line, s, 2).1, x1)
    {
      overflow := false;
      se0 := Bit1(s, [b0]);
      if se0 { return; }
      ghost var s1, bits := Follow(line, s, 0, b0);
      overflow := Bit2(s1, bits);
      if overflow { return; }
      s1, bits := Follow(line, s, 1, b0);
    }

    method MiddleBits(ghost s: Rx, ghost b0: bool)
      requires AtBit(NextBits(line, s, 2).0, [b0] + NextBits(line, s, 2).1, x1)
      modifies `pos, `shift, `x1, `x2, `x3, `z
      ensures AtBit(NextBits(line, s, 5).0, [b0] + NextBits(line, s, 5).1, x2)
    {
      Bit3(NextBits(line, s, 2).0, [b0] + NextBits(line, s, 2).1);
      ghost var s3, bits := Follow(line, s, 2, b0);
      Bit4(s3, bits);
      s3, bits := Follow(line, s, 3, b0);
      Bit5(s3, bits);
      s3, bits := Follow(line, s, 4, b0);
    }

    method LastBits(ghost s: Rx, ghost b0: bool)
      requires AtBit(NextBits(line, s, 5).0, [b0] + NextBits(line, s, 5).1, x2)
      modifies `pos, `shift, `x1, `x2, `x3, `z
      ensures AtBit(NextBits(line, s, 7).0, [b0] + NextBits(line, s, 7).1, x2)
    {
      var justUnstuffed := Bit6(NextBits(line, s, 5).0, [b0] + NextBits(line, s, 5).1);
      ghost var s6, bits := Follow(line, s, 5, b0);
      Bit7(justUnstuffed, s6, bits);
      s6, bits := Follow(line, s, 6, b0);
    }

    /** The bytes received so far are in the buffer, which is otherwise as it was. */
    ghost predicate Buffered(was: seq<bv8>, offset: nat, bytes: seq<bv8>)
      reads this, buf
    {
      && y == offset + |bytes| <= |was|
      && buf[..] == was[..offset] + bytes + was[y..]
    }

    method EndOfByte(ghost s: Rx, ghost b0: bool, ghost bytes: seq<bv8>, ghost was: seq<bv8>, ghost offset: nat)
      returns (ghost s': Rx, ghost b0': bool, ghost byte: bv8)
      requires AtBit(NextBits(line, s, 7).0, [b0] + NextBits(line, s, 7).1, x2)
      requires Buffered(was, offset, bytes) && y < buf.Length
      modifies `pos, `shift, `x1, `x2, `x3, `z, `y, buf
      ensures Buffered(was, offset, bytes + [byte]) && AtBit(s', [b0'], x1)
      ensures (s', b0') == NextBit(line, NextBits(line, s, 7).0)
      ensures byte == Pack([b0] + NextBits(line, s, 7).1)
    {
      ghost var s7, bits := NextBits(line, s, 7).0, [b0] + NextBits(line, s, 7).1;
      byte := Pack(bits);
      Bit0(s7, bits);
      s', b0' := NextBit(line, s7).0, NextBit(line, s7).1;
      Appended(was, offset, bytes, byte);
    }

    /** Once round the loop: a byte is stored, or the loop is left. */
    method Turn(ghost s: Rx, ghost b0: bool, ghost bytes: seq<bv8>, ghost was: seq<bv8>, ghost offset: nat)
      returns (se0: bool, overflow: bool, ghost s': Rx, ghost b0': bool, ghost byte: bv8)
      requires AtBit(s, [b0], x1) && Buffered(was, offset, bytes)
      requires cnt > 0 ==> y < buf.Length
      modifies `pos, `shift, `x1, `x2, `x3, `z, `cnt, `y, buf
      ensures se0 <==> IsSe0(line(s.pos))
      ensures overflow <==> !se0 && old(cnt) == 0
      ensures cnt == if se0 || overflow then old(cnt) else old(cnt) - 1
      ensures Buffered(was, offset, if se0 || overflow then bytes else bytes + [byte])
      ensures !se0 && !overflow ==>
                && AtBit(s', [b0'], x1)
                && (s', b0') == NextBit(line, NextBits(line, s, 7).0)
                && byte == Pack([b0] + NextBits(line, s, 7).1)
    {
      hide AtBit, NextBits, NextBit, Pack;
      s', b0', byte := s, b0, 0;
      se0, overflow := FirstBits(s, b0);
      if se0 || overflow { return; }
      MiddleBits(s, b0);
      LastBits(s, b0);
      s', b0', byte := EndOfByte(s, b0, bytes, was, offset);
    }

    /** The whole receive loop, into the half of usbRxBuf that starts at `offset`: whatever the line does, it ends
        with the outcome specified, with the bytes in that half, and without a write anywhere else. */
    method Receive(offset: nat) returns (outcome: Outcome)
      requires pos == 0 && offset + USB_BUFSIZE <= buf.Length
      modifies this, buf
      ensures outcome == Receive165(line)
      ensures outcome.Packet? ==>
                && |outcome.bytes| <= USB_BUFSIZE && cnt == USB_BUFSIZE - |outcome.bytes|
                && buf[..] == old(buf[..offset]) + outcome.bytes + old(buf[offset + |outcome.bytes|..])
      ensures buf[..offset] == old(buf[..offset]) && buf[offset + USB_BUFSIZE..] == old(buf[offset + USB_BUFSIZE..])
    {
      y := offset;
      cnt := USB_BUFSIZE;
      ghost var was, bytes := buf[..], [];
      ghost var b0 := FirstBit0();
      ghost var s := NextBit(line, START165).0;
      while true
        invariant AtBit(s, [b0], x1) && Buffered(was, offset, bytes)
        invariant cnt + |bytes| == USB_BUFSIZE
        invariant Receive165(line) == AfterBit0(line, s, b0, cnt, bytes)
        decreases cnt
      {
        var se0, overflow;
        ghost var s', b0', byte;
        se0, overflow, s', b0', byte := Turn(s, b0, bytes, was, offset);
        Kept(was, offset, bytes);
        if se0 { return Packet(buf[offset..y]); }
        if overflow { return Overflow; }
        s, b0, bytes := s', b0', bytes + [byte];
      }
    }
  }

  lemma Kept(was: seq<bv8>, offset: nat, bytes: seq<bv8>)
    requires |bytes| <= USB_BUFSIZE && offset + USB_BUFSIZE <= |was|
    ensures var buf := was[..offset] + bytes + was[offset + |bytes|..];
            && buf[offset..offset + |bytes|] == bytes
            && buf[..offset] == was[..offset] && buf[offset + USB_BUFSIZE..] == was[offset + USB_BUFSIZE..]
  {
  }

  lemma Appended(was: seq<bv8>, offset: nat, bytes: seq<bv8>, byte: bv8)
    requires offset + |bytes| < |was|
    ensures (was[..offset] + bytes + was[offset + |bytes|..])[offset + |bytes| := byte]
            == was[..offset] + (bytes + [byte]) + was[offset + |bytes| + 1..]
  {
  }

  /** One more bit after the first n + 1 of a byte. */
  lemma Follow(line: nat -> bv8, s: Rx, n: nat, b0: bool) returns (s': Rx, bits: seq<bool>)
    ensures s' == NextBits(line, s, n + 1).0 && bits == [b0] + NextBits(line, s, n + 1).1
    ensures s' == NextBit(line, NextBits(line, s, n).0).0
    ensures bits == ([b0] + NextBits(line, s, n).1) + [NextBit(line, NextBits(line, s, n).0).1]
  {
    s', bits := NextBits(line, s, n + 1).0, [b0] + NextBits(line, s, n + 1).1;
  }
}

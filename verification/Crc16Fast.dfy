/** Eight steps of the CRC register at a time: the driver's fast form of usbCrc16. */
module Crc16Fast {
  import opened Line
  import opened Registers
  import opened Crc16

  // ---- eight steps by table

  lemma ShiftLinear(a: Register, b: Register)
    ensures Shift(Xor(a, b)) == Xor(Shift(a), Shift(b))
  {
  }

  lemma {:induction false} ShiftNLinear(a: Register, b: Register, n: nat)
    ensures ShiftN(Xor(a, b), n) == Xor(ShiftN(a, n), ShiftN(b, n))
    decreases n
  {
    if n > 0 {
      ShiftLinear(a, b);
      ShiftNLinear(Shift(a), Shift(b), n - 1);
    }
  }

  /** The first half of the register shifts to the first position; the second half comes behind. */
  function Padded(x: seq<bool>): Register
    requires |x| == 8
  {
    x + ZeroBits(8)
  }

  /** The sum of x[0] to x[j]: the bit that leaves the register at step j. */
  function Sum(x: seq<bool>, j: nat): bool
    requires j < |x|
    decreases j, x
  {
    if j == 0 then x[0] else Sum(x, j - 1) != x[j]
  }

  /** Bit i of the register after k <= 8 steps from the byte x: what is left of x, and the generator's three terms
      as far as they have moved. */
  function AfterSteps(x: seq<bool>, k: nat, i: nat): bool
    requires |x| == 8 && k <= 8 && i < 16
  {
    var rest := i + k < 8 && x[i + k];
    var low := i == 0 && k > 0 && Sum(x, k - 1);
    var middle := 14 <= i + k && i <= 13 && Sum(x, i + k - 14);
    var high := 16 <= i + k && Sum(x, i + k - 16);
    (rest != low) != (middle != high)
  }

  function Steps(x: seq<bool>, k: nat): Register
    requires |x| == 8 && k <= 8
  {
    seq(16, i requires 0 <= i < 16 => AfterSteps(x, k, i))
  }

  lemma FrontBit(x: seq<bool>, k: nat)
    requires |x| == 8 && k < 8
    ensures AfterSteps(x, k, 0) == Sum(x, k)
  {
  }

  lemma StepAt(x: seq<bool>, k: nat, i: nat)
    requires |x| == 8 && k < 8 && i < 16
    ensures AfterSteps(x, k + 1, i)
            == ((i < 15 && AfterSteps(x, k, i + 1)) != (Sum(x, k) && (i == 0 || i == 13 || i == 15)))
  {
  }

  lemma OneStep(x: seq<bool>, k: nat)
    requires |x| == 8 && k < 8
    ensures Shift(Steps(x, k)) == Steps(x, k + 1)
  {
    FrontBit(x, k);
    var c := Steps(x, k);
    forall i | 0 <= i < 16 ensures Shift(c)[i] == Steps(x, k + 1)[i] {
      StepAt(x, k, i);
      assert (c[1..] + [false])[i] == (i < 15 && c[i + 1]);
    }
  }

  lemma {:induction false} ManySteps(x: seq<bool>, k: nat)
    requires |x| == 8 && k <= 8
    ensures ShiftN(Steps(x, 8 - k), k) == Steps(x, 8)
    decreases k
  {
    if k > 0 {
      OneStep(x, 8 - k);
      ManySteps(x, k - 1);
    }
  }

  /** Eight steps from a register that holds one byte and zeros. */
  lemma EightStepsOfByte(x: seq<bool>)
    requires |x| == 8
    ensures ShiftN(Padded(x), 8) == Steps(x, 8)
  {
    ManySteps(x, 8);
    assert Padded(x) == Steps(x, 0);
  }

  /** Zeros leave the register without adding anything. */
  lemma {:induction false} ZerosLeave(w: seq<bool>, k: nat)
    requires |w| == 8 && k <= 8
    ensures ShiftN(ZeroBits(k) + w + ZeroBits(8 - k), k) == w + ZeroBits(8)
    decreases k
  {
    var c := ZeroBits(k) + w + ZeroBits(8 - k);
    if k == 0 {
      assert c == w + ZeroBits(8);
    } else {
      assert Shift(c) == ZeroBits(k - 1) + w + ZeroBits(8 - (k - 1));
      ZerosLeave(w, k - 1);
    }
  }

  lemma HighByteMovesDown(w: seq<bool>, n: nat)
    requires |w| == n == 8
    ensures ShiftN(ZeroBits(n) + w, n) == w + ZeroBits(n)
  {
    ZerosLeave(w, n);
    assert ZeroBits(n) + w + ZeroBits(8 - n) == ZeroBits(n) + w;
  }

  lemma EightStepsOfTwo(x: seq<bool>, w: seq<bool>, n: nat)
    requires |x| == |w| == n == 8
    ensures ShiftN(x + w, n) == Xor(Steps(x, n), w + ZeroBits(n))
  {
    assert x + w == Xor(Padded(x), ZeroBits(n) + w);
    ShiftNLinear(Padded(x), ZeroBits(n) + w, n);
    EightStepsOfByte(x);
    HighByteMovesDown(w, n);
  }

  lemma XorLow(th: bv8, tl: bv8, h: bv8)
    ensures Xor(InBytes(th, tl), Wire(h) + ZeroBits(8)) == InBytes(th, tl ^ h)
  {
    WireXor(tl, h);
  }

  /** A byte step brings the high byte down and adds the table entry of the low byte. */
  lemma ByteStepByTable(h: bv8, l: bv8, byte: bv8, th: bv8, tl: bv8)
    requires InBytes(th, tl) == Steps(Wire(l ^ byte), 8)
    ensures ByteStep(InBytes(h, l), byte) == InBytes(th, tl ^ h)
  {
    EorLow(h, l, byte);
    EightStepsOfTwo(Wire(l ^ byte), Wire(h), 8);
    XorLow(th, tl, h);
  }

  // ---- usbCrc16, the fast form (USB_USE_FAST_CRC)

  /** Bit 0 of the result is the parity of x: the nibbles are folded together, then pairs of bits; `inc` and `lsr`
      add up the last two. */
  function Parity(x: bv8): bv8 {
    var folded := ((x << 4) | (x >> 4)) ^ x;
    var pairs := ((folded >> 1) >> 1) ^ folded;
    ((pairs + 1) >> 1) & 1
  }

  /** What usbCrc16ByteLoop adds to the old high byte for the index x: 0xc001 if the parity is odd, and x shifted left
      by 7 and by 6. */
  function FastTable(x: bv8): (bv8, bv8) {
    var parity := Parity(x);
    var s1, r1 := Ror(x, false), Ror(0, Bit0(x));
    var s2, r2 := Ror(s1, false), Ror(r1, Bit0(s1));
    ((((0 - parity) & 0xc0) ^ s1) ^ s2, (parity ^ r1) ^ r2)
  }

  lemma ParityIsSum(x: bv8)
    ensures Parity(x) == if Sum(Wire(x), 7) then 1 else 0
  {
    WireAt(x);
    ParityBits(x);
    SumOfEight(Wire(x));
  }

  lemma ParityBits(x: bv8)
    ensures Parity(x) == if ((Bit(x, 0) != Bit(x, 1)) != (Bit(x, 2) != Bit(x, 3)))
                            != ((Bit(x, 4) != Bit(x, 5)) != (Bit(x, 6) != Bit(x, 7))) then 1 else 0
  {
  }

  lemma SumOfEight(x: seq<bool>)
    requires |x| == 8
    ensures Sum(x, 7) == (((x[0] != x[1]) != (x[2] != x[3])) != ((x[4] != x[5]) != (x[6] != x[7])))
  {
    assert Sum(x, 1) == (x[0] != x[1]);
    assert Sum(x, 2) == (Sum(x, 1) != x[2]);
    assert Sum(x, 3) == (Sum(x, 2) != x[3]);
    assert Sum(x, 4) == (Sum(x, 3) != x[4]);
    assert Sum(x, 5) == (Sum(x, 4) != x[5]);
    assert Sum(x, 6) == (Sum(x, 5) != x[6]);
  }

  lemma ParityBytes()
    ensures forall j: nat :: j < 8 ==> Wire(0xc0)[j] == (j >= 6)
    ensures forall j: nat :: j < 8 ==> Wire(0x01)[j] == (j == 0)
    ensures forall j: nat :: j < 8 ==> !Wire(0)[j]
  {
    WireAt(0xc0);
    WireAt(0x01);
    ZeroWire(0);
    forall j: nat | j < 8 ensures Bit(0xc0, j) == (j >= 6) && Bit(0x01, j) == (j == 0) {
      assert (0xc0 & BitAt(j)) == (if j == 6 then 0x40 else if j == 7 then 0x80 else 0);
      assert (0x01 & BitAt(j)) == (if j == 0 then 0x01 else 0);
    }
  }

  /** `neg byte; andi byte, 0xc0` of 0 or 1. */
  lemma NegParity(b: bv8)
    requires b == 0 || b == 1
    ensures ((0 - b) & 0xc0) == if b == 1 then 0xc0 else 0
  {
  }

  predicate HighBit(w: seq<bool>, j: nat)
    requires |w| == 8 && j < 8
  {
    (Sum(w, 7) && j >= 6) != ((j < 7 && w[j + 1]) != (j < 6 && w[j + 2]))
  }

  predicate LowBit(w: seq<bool>, j: nat)
    requires |w| == 8 && j < 8
  {
    (Sum(w, 7) && j == 0) != ((j == 7 && w[0]) != ((j == 6 && w[0]) != (j == 7 && w[1])))
  }

  lemma XorThree(a: bv8, b: bv8, c: bv8, j: nat)
    requires j < 8
    ensures Wire((a ^ b) ^ c)[j] == ((Wire(a)[j] != Wire(b)[j]) != Wire(c)[j])
  {
    WireXor(a, b);
    WireXor(a ^ b, c);
  }

  lemma TwoRors(x: bv8, s1: bv8, s2: bv8, j: nat)
    requires s1 == Ror(x, false) && s2 == Ror(s1, false) && j < 8
    ensures Wire(s1)[j] == (j < 7 && Wire(x)[j + 1]) && Wire(s2)[j] == (j < 6 && Wire(x)[j + 2])
  {
    WireRor(x, false);
    WireRor(s1, false);
  }

  lemma HighParity(x: bv8, p: bv8, j: nat)
    requires p == (0 - Parity(x)) & 0xc0 && j < 8
    ensures Wire(p)[j] == (Sum(Wire(x), 7) && j >= 6)
  {
    ParityIsSum(x);
    NegParity(Parity(x));
    ParityBytes();
  }

  /** The closed form, bit by bit. */
  lemma HighTableBits(x: bv8, j: nat)
    requires j < 8
    ensures Wire(FastTable(x).0)[j] == HighBit(Wire(x), j)
  {
    var p: bv8 := (0 - Parity(x)) & 0xc0;
    var s1 := Ror(x, false);
    var s2 := Ror(s1, false);
    HighParity(x, p, j);
    TwoRors(x, s1, s2, j);
    XorThree(p, s1, s2, j);
    assert FastTable(x).0 == (p ^ s1) ^ s2;
  }

  lemma TwoCarries(x: bv8, s1: bv8, r1: bv8, r2: bv8, j: nat)
    requires s1 == Ror(x, false) && r1 == Ror(0, Bit0(x)) && r2 == Ror(r1, Bit0(s1)) && j < 8
    ensures Wire(r1)[j] == (j == 7 && Wire(x)[0])
    ensures Wire(r2)[j] == ((j == 6 && Wire(x)[0]) || (j == 7 && Wire(x)[1]))
  {
    ParityBytes();
    WireRor(x, false);
    assert Bit0(x) == Wire(x)[0] && Bit0(s1) == Wire(s1)[0];
    WireRor(0, Bit0(x));
    WireRor(r1, Bit0(s1));
  }

  lemma LowTableBits(x: bv8, j: nat)
    requires j < 8
    ensures Wire(FastTable(x).1)[j] == LowBit(Wire(x), j)
  {
    var p := Parity(x);
    var s1, r1 := Ror(x, false), Ror(0, Bit0(x));
    var r2 := Ror(r1, Bit0(s1));
    ParityIsSum(x);
    ParityBytes();
    TwoCarries(x, s1, r1, r2, j);
    XorThree(p, r1, r2, j);
    assert FastTable(x).1 == (p ^ r1) ^ r2;
  }

  lemma SumStep(x: seq<bool>, j: nat)
    requires 1 <= j < |x|
    ensures Sum(x, j) == (Sum(x, j - 1) != x[j])
  {
  }

  /** The closed form with one parity is eight steps of the shift register. */
  lemma FastTableIsEightSteps(x: bv8)
    ensures InBytes(FastTable(x).0, FastTable(x).1) == Steps(Wire(x), 8)
  {
    var w := Wire(x);
    forall i | 0 <= i < 16 ensures InBytes(FastTable(x).0, FastTable(x).1)[i] == AfterSteps(w, 8, i) {
      if i < 8 {
        LowTableBits(x, i);
      } else {
        HighTableBits(x, i - 8);
      }
      if i >= 8 {
        if i < 15 { SumStep(w, i - 7); }
        if i < 14 { SumStep(w, i - 6); }
      } else if i == 7 {
        SumStep(w, 1);
      }
    }
  }

  lemma XorAssociates(a: bv8, b: bv8, c: bv8, d: bv8)
    ensures ((a ^ b) ^ c) ^ d == ((b ^ c) ^ d) ^ a
  {
  }

  lemma FastByteIsByteStep(crcH: bv8, crcL: bv8, byte: bv8, h: bv8, l: bv8)
    requires h == FastTable(crcL ^ byte).0 && l == FastTable(crcL ^ byte).1 ^ crcH
    ensures InBytes(h, l) == ByteStep(InBytes(crcH, crcL), byte)
  {
    FastTableIsEightSteps(crcL ^ byte);
    ByteStepByTable(crcH, crcL, byte, h, FastTable(crcL ^ byte).1);
  }

  /** One pass of usbCrc16ByteLoop, instruction by instruction. */
  method FastByte(crcH: bv8, crcL: bv8, byte0: bv8) returns (resCrcH: bv8, resCrcL: bv8)
    ensures InBytes(resCrcH, resCrcL) == ByteStep(InBytes(crcH, crcL), byte0)
  {
    resCrcL := crcL ^ byte0;
    ghost var x := resCrcL;
    var byte := resCrcL;
    byte := (byte << 4) | (byte >> 4);
    byte := byte ^ resCrcL;
    var scratch := byte;
    byte := byte >> 1;
    byte := byte >> 1;
    byte := byte ^ scratch;
    byte := byte + 1;
    byte := byte >> 1;
    byte := byte & 1;
    ghost var parity := byte;
    scratch := resCrcL;
    resCrcL := crcH;
    resCrcL := resCrcL ^ byte;
    byte := 0 - byte;
    byte := byte & 0xc0;
    resCrcH := byte;
    byte := 0;
    byte, scratch := Ror(byte, Bit0(scratch)), Ror(scratch, false);
    ghost var r1 := byte;
    resCrcH := resCrcH ^ scratch;
    resCrcL := resCrcL ^ byte;
    byte, scratch := Ror(byte, Bit0(scratch)), Ror(scratch, false);
    resCrcH := resCrcH ^ scratch;
    resCrcL := resCrcL ^ byte;
    XorAssociates(crcH, parity, r1, byte);
    FastByteIsByteStep(crcH, crcL, byte0, resCrcH, resCrcL);
  }

  lemma WireNot(r: bv8)
    ensures Wire(!r) == Not(Wire(r))
  {
    forall j: nat | j < 8 ensures Wire(!r)[j] == !Wire(r)[j] {
      BitsFromAt(r, 8, j);
      BitsFromAt(!r, 8, j);
      BitNot(r, j);
    }
  }

  lemma BitNot(r: bv8, j: nat)
    requires j < 8
    ensures Bit(!r, j) == !Bit(r, j)
  {
    assert (!r & BitAt(j)) == BitAt(j) & !(r & BitAt(j));
    OneBit(r, j);
  }

  lemma Complement(h: bv8, l: bv8)
    ensures InBytes(!h, !l) == Not(InBytes(h, l))
  {
    WireNot(h);
    WireNot(l);
  }
  /** usbCrc16ByteLoop: `subi argLen, 1` borrows when len bytes are done. */
  method FastLoop(mem: nat -> bv8, argPtr: nat, len: nat, h0: bv8, l0: bv8) returns (h: bv8, l: bv8, ptr: nat)
    requires len < 256
    ensures InBytes(h, l) == ByteSteps(Slice(mem, argPtr, len), InBytes(h0, l0))
    ensures ptr == argPtr + len
  {
    ptr := argPtr;
    h, l := h0, l0;
    var argLen := len;
    ghost var c := InBytes(h, l);
    ghost var goal := ByteSteps(Slice(mem, argPtr, len), c);
    while true
      invariant argPtr <= ptr <= argPtr + len && argLen == argPtr + len - ptr
      invariant c == InBytes(h, l)
      invariant goal == ByteSteps(Slice(mem, ptr, argPtr + len - ptr), c)
      decreases argLen
    {
      var carry := argLen < 1;
      if carry { break; }
      argLen := argLen - 1;
      SliceStep(mem, ptr, argPtr + len - ptr);
      c := ByteStep(c, mem(ptr));
      h, l := FastByte(h, l, mem(ptr));
      ptr := ptr + 1;
    }
  }

  /** usbCrc16 in the fast form: same result. */
  method UsbCrc16Fast(mem: nat -> bv8, argPtr: nat, len: nat) returns (resCrcH: bv8, resCrcL: bv8, ptr: nat)
    requires len < 256
    ensures InBytes(resCrcH, resCrcL) == CrcBits(Slice(mem, argPtr, len))
    ensures ptr == argPtr + len
  {
    resCrcH, resCrcL, ptr := FastLoop(mem, argPtr, len, 0xff, 0xff);
    Initial();
    RemainderByBytes(Slice(mem, argPtr, len), Ones());
    Complement(resCrcH, resCrcL);
    resCrcL := !resCrcL;
    resCrcH := !resCrcH;
  }
}

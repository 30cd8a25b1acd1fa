/** The 16 bit CRC of data packets as section 8.3.5 of USB 2.0 defines it: a shift register of 16 bits, here a
    sequence with the next bit to leave it first.  The driver keeps the same register in two bytes. */
module Crc16 {
  import opened Line
  import opened Registers

  type Register = c: seq<bool> | |c| == 16
    witness [false, false, false, false, false, false, false, false,
             false, false, false, false, false, false, false, false]

  /** The generator polynomial x^16 + x^15 + x^2 + 1 without its leading term: 0x8005 read from the top, 0xa001 read
      from the bottom. */
  function Generator(): Register { seq(16, i => i == 0 || i == 13 || i == 15) }

  function Ones(): Register { seq(16, _ => true) }

  function Xor(a: seq<bool>, b: seq<bool>): (c: seq<bool>)
    requires |a| == |b|
    ensures |c| == |a|
    ensures forall i :: 0 <= i < |c| ==> c[i] == (a[i] != b[i])
  {
    seq(|a|, i requires 0 <= i < |a| => a[i] != b[i])
  }

  function Not(a: seq<bool>): (c: seq<bool>)
    ensures |c| == |a|
    ensures forall i :: 0 <= i < |c| ==> c[i] == !a[i]
  {
    seq(|a|, i requires 0 <= i < |a| => !a[i])
  }

  /** One step with a 0 data bit: shift, and add the generator if a 1 left the register. */
  function Shift(c: Register): Register {
    if c[0] then Xor(c[1..] + [false], Generator()) else c[1..] + [false]
  }

  /** One step: the data bit is added to the bit about to leave. */
  function Step(c: Register, b: bool): Register {
    Shift(c[0 := c[0] != b])
  }

  function Remainder(bits: seq<bool>, c: Register): Register
    decreases |bits|
  {
    if bits == [] then c else Remainder(bits[1..], Step(c, bits[0]))
  }

  /** The CRC of a message: the register starts with all ones and is sent complemented. */
  function CrcBits(message: seq<bv8>): Register {
    Not(Remainder(BytesBits(message), Ones()))
  }

  function ZeroBits(n: nat): (z: seq<bool>)
    ensures |z| == n && forall i :: 0 <= i < n ==> !z[i]
  {
    seq(n, _ => false)
  }

  /** Long division of polynomials modulo 2, highest coefficient first: the remainder by the generator. */
  function Divide(dividend: seq<bool>): Register
    requires |dividend| >= 16
    decreases |dividend|
  {
    if |dividend| == 16 then dividend
    else if dividend[0] then Divide(Xor(dividend[1..17], Generator()) + dividend[17..])
    else Divide(dividend[1..])
  }

  /** The shift register divides: what it holds is the remainder of the message, moved up by 16 places, with the start
      value added to its first 16 coefficients. */
  lemma {:induction false} RemainderIsDivision(bits: seq<bool>, c: Register)
    ensures Remainder(bits, c) == Divide(Xor(c + ZeroBits(|bits|), bits + ZeroBits(16)))
    decreases |bits|
  {
    var d := Xor(c + ZeroBits(|bits|), bits + ZeroBits(16));
    if bits == [] {
      assert d == c;
    } else {
      var next := Xor(Step(c, bits[0]) + ZeroBits(|bits| - 1), bits[1..] + ZeroBits(16));
      assert d[0] == (c[0] != bits[0]);
      if d[0] {
        assert Xor(d[1..17], Generator()) + d[17..] == next;
      } else {
        assert d[1..] == next;
      }
      RemainderIsDivision(bits[1..], Step(c, bits[0]));
    }
  }

  /** The two bytes that, sent least significant bit first, are the CRC. */
  function CrcBytes(message: seq<bv8>): (bytes: seq<bv8>)
    ensures |bytes| == 2
  {
    var c := CrcBits(message);
    [Pack(c[..8]), Pack(c[8..])]
  }

  lemma TwoBytesBits(a: bv8, b: bv8)
    ensures BytesBits([a, b]) == Wire(a) + Wire(b)
  {
    assert [a, b][1..] == [b] && [b][1..] == [];
    assert BytesBits([b]) == BitsFrom(b, 8) + [];
  }

  lemma CrcBytesBits(message: seq<bv8>)
    ensures BytesBits(CrcBytes(message)) == CrcBits(message)
  {
    var c := CrcBits(message);
    WirePack(c[..8]);
    WirePack(c[8..]);
    TwoBytesBits(Pack(c[..8]), Pack(c[8..]));
  }

  // ---- many steps

  function ShiftN(c: Register, n: nat): Register
    decreases n, c
  {
    if n == 0 then c else ShiftN(Shift(c), n - 1)
  }

  /** Bits added to the front of the register. */
  function Feed(c: Register, bits: seq<bool>): Register
    requires |bits| <= 16
  {
    Xor(c[..|bits|], bits) + c[|bits|..]
  }

  lemma FeedXor(c: Register, bits: seq<bool>, g: Register)
    requires |bits| <= 16
    ensures Xor(Feed(c, bits), g) == Feed(Xor(c, g), bits)
  {
  }

  lemma FeedShift(c: Register, bits: seq<bool>)
    requires 1 <= |bits| <= 16
    ensures Shift(Feed(c, bits)) == Feed(Step(c, bits[0]), bits[1..])
  {
    var shifted := c[0 := c[0] != bits[0]][1..] + [false];
    assert Feed(c, bits)[1..] + [false] == Feed(shifted, bits[1..]);
    FeedXor(shifted, bits[1..], Generator());
  }

  /** Adding up to 16 data bits at once is the same as adding each before its own step. */
  lemma {:induction false} RemainderIsFeed(bits: seq<bool>, c: Register)
    requires |bits| <= 16
    ensures Remainder(bits, c) == ShiftN(Feed(c, bits), |bits|)
    decreases |bits|
  {
    if bits == [] {
      assert Feed(c, []) == c;
    } else {
      FeedShift(c, bits);
      RemainderIsFeed(bits[1..], Step(c, bits[0]));
    }
  }

  lemma {:induction false} RemainderConcat(a: seq<bool>, b: seq<bool>, c: Register)
    ensures Remainder(a + b, c) == Remainder(b, Remainder(a, c))
    decreases |a|
  {
    if a == [] {
      assert a + b == b;
    } else {
      assert (a + b)[1..] == a[1..] + b;
      RemainderConcat(a[1..], b, Step(c, a[0]));
    }
  }

  lemma {:induction false} BytesBitsConcat(a: seq<bv8>, b: seq<bv8>)
    ensures BytesBits(a + b) == BytesBits(a) + BytesBits(b)
    decreases |a|
  {
    if a == [] {
      assert a + b == b;
    } else {
      assert (a + b)[1..] == a[1..] + b;
      BytesBitsConcat(a[1..], b);
    }
  }

  /** The register after one whole byte. */
  function ByteStep(c: Register, byte: bv8): Register {
    ShiftN(Feed(c, Wire(byte)), 8)
  }

  /** The register after whole bytes. */
  function ByteSteps(message: seq<bv8>, c: Register): Register
    decreases |message|
  {
    if message == [] then c else ByteSteps(message[1..], ByteStep(c, message[0]))
  }

  lemma {:induction false} RemainderByBytes(message: seq<bv8>, c: Register)
    ensures Remainder(BytesBits(message), c) == ByteSteps(message, c)
    decreases |message|
  {
    if message != [] {
      RemainderConcat(BitsFrom(message[0], 8), BytesBits(message[1..]), c);
      RemainderIsFeed(Wire(message[0]), c);
      RemainderByBytes(message[1..], ByteStep(c, message[0]));
    }
  }

  // ---- the register in two bytes

  /** The register as the driver keeps it: low byte first. */
  function InBytes(h: bv8, l: bv8): Register { Wire(l) + Wire(h) }

  lemma InBytesInjective(h: bv8, l: bv8, h': bv8, l': bv8)
    requires InBytes(h, l) == InBytes(h', l')
    ensures h == h' && l == l'
  {
    assert InBytes(h, l)[..8] == Wire(l) && InBytes(h', l')[..8] == Wire(l');
    assert InBytes(h, l)[8..] == Wire(h) && InBytes(h', l')[8..] == Wire(h');
    WireInjective(h, h');
    WireInjective(l, l');
  }

  lemma CrcBytesFrom(message: seq<bv8>, h: bv8, l: bv8)
    requires InBytes(h, l) == CrcBits(message)
    ensures [l, h] == CrcBytes(message)
  {
    var c := CrcBits(message);
    WirePack(c[..8]);
    WirePack(c[8..]);
    assert c[..8] == Wire(l) && c[8..] == Wire(h);
    WireInjective(l, Pack(c[..8]));
    WireInjective(h, Pack(c[8..]));
  }

  // ---- usbCrc16, the slow form

  /** `ror resCrcH; ror resCrcL` with the carry set. */
  lemma RorBoth(h: bv8, l: bv8)
    ensures InBytes(Ror(h, true), Ror(l, Bit0(h))) == InBytes(h, l)[1..] + [true]
    ensures Bit0(l) == InBytes(h, l)[0]
  {
    WireRor(h, true);
    WireRor(l, Bit0(h));
    assert Wire(h)[0] == Bit0(h) && Wire(l)[0] == Bit0(l);
  }

  lemma GeneratorBytes()
    ensures InBytes(0xa0, 0x01) == Generator()
  {
    WireAt(0xa0);
    WireAt(0x01);
    forall i: nat | i < 8 ensures Bit(0x01, i) == (i == 0) && Bit(0xa0, i) == (i == 5 || i == 7) {
      assert (0x01 & BitAt(i)) == (if i == 0 then 0x01 else 0);
      assert (0xa0 & BitAt(i)) == (if i == 5 then 0x20 else if i == 7 then 0x80 else 0);
    }
  }

  lemma XorBytes(h: bv8, l: bv8, h': bv8, l': bv8)
    ensures InBytes(h ^ h', l ^ l') == Xor(InBytes(h, l), InBytes(h', l'))
  {
    WireXor(h, h');
    WireXor(l, l');
  }

  lemma ShiftComplement(w: Register, r: Register)
    requires r == w[1..] + [true]
    ensures Shift(Not(w)) == Not(if w[0] then r else Xor(r, Generator()))
  {
  }

  lemma BitStepComplement(h0: bv8, l0: bv8, h: bv8, l: bv8)
    requires h == Ror(h0, true) && l == Ror(l0, Bit0(h0))
    ensures Shift(Not(InBytes(h0, l0))) == Not(if Bit0(l0) then InBytes(h, l) else InBytes(h ^ 0xa0, l ^ 0x01))
  {
    RorBoth(h0, l0);
    ShiftComplement(InBytes(h0, l0), InBytes(h, l));
    XorBytes(h, l, 0xa0, 0x01);
    GeneratorBytes();
  }

  /** One turn of usbCrcBitLoop: with the carry set, the register pair stays the complement of the remainder. */
  method BitStep(h0: bv8, l0: bv8, carry0: bool, ghost c0: Register) returns (h: bv8, l: bv8, ghost c: Register)
    requires carry0 && c0 == Not(InBytes(h0, l0))
    ensures Not(InBytes(h, l)) == Shift(c0)
    ensures c == Shift(c0)
  {
    c := Shift(c0);
    BitStepComplement(h0, l0, Ror(h0, true), Ror(l0, Bit0(h0)));
    h := Ror(h0, carry0);
    l := Ror(l0, Bit0(h0));
    var carry := Bit0(l0);
    if !carry {
      l := l ^ 0x01;
      h := h ^ 0xa0;
    }
  }

  /** usbCrcBitLoop: `subi bitCnt, 224` borrows seven times out of eight, so there are eight steps and bitCnt is
      back at 0. */
  method BitLoop(h0: bv8, l0: bv8, carry0: bool, bitCnt0: nat, ghost turns: nat, ghost c0: Register)
    returns (h: bv8, l: bv8, bitCnt: nat, ghost c: Register)
    requires carry0 && bitCnt0 == 0 && turns == 8 && c0 == Not(InBytes(h0, l0))
    ensures c == Not(InBytes(h, l)) && c == ShiftN(c0, turns) && bitCnt == 0
  {
    h, l, bitCnt, c := h0, l0, bitCnt0, c0;
    var carry := carry0;
    ghost var k: nat := turns;
    while true
      invariant 1 <= k <= 8 && carry && bitCnt == (256 - 32 * k) % 256
      invariant c == Not(InBytes(h, l)) && ShiftN(c, k) == ShiftN(c0, turns)
      decreases k
    {
      h, l, c := BitStep(h, l, carry, c);
      k := k - 1;
      carry := bitCnt < 224;
      bitCnt := (bitCnt - 224) % 256;
      if !carry { break; }
    }
  }

  /** `eor resCrcL, byte`. */
  lemma EorLow(h: bv8, l: bv8, byte: bv8)
    ensures Not(InBytes(h, l ^ byte)) == Feed(Not(InBytes(h, l)), Wire(byte))
    ensures InBytes(h, l ^ byte) == Feed(InBytes(h, l), Wire(byte))
  {
    WireXor(l, byte);
  }

  lemma Initial()
    ensures Not(InBytes(0, 0)) == Ones() && InBytes(0xff, 0xff) == Ones()
  {
    ZeroWire(0);
    WireAt(0xff);
    forall j: nat | j < 8 ensures Bit(0xff, j) {
      assert (0xff & BitAt(j)) == BitAt(j);
    }
  }

  /** usbCrcByteLoop. */
  method ByteLoop(h0: bv8, l0: bv8, byte: bv8, carry: bool, bitCnt0: nat, ghost c0: Register)
    returns (h: bv8, l: bv8, bitCnt: nat, ghost c: Register)
    requires carry && bitCnt0 == 0 && c0 == Not(InBytes(h0, l0))
    ensures c == Not(InBytes(h, l)) && c == ByteStep(c0, byte) && bitCnt == 0
  {
    EorLow(h0, l0, byte);
    l := l0 ^ byte;
    h, l, bitCnt, c := BitLoop(h0, l, carry, bitCnt0, 8, Feed(c0, Wire(byte)));
  }

  /** The loop over the bytes: `com argLen` makes `subi argLen, -1` borrow exactly len times. */
  method ByteLoops(mem: nat -> bv8, argPtr: nat, len: nat, h0: bv8, l0: bv8) returns (h: bv8, l: bv8, ptr: nat)
    requires len < 256
    ensures Not(InBytes(h, l)) == ByteSteps(Slice(mem, argPtr, len), Not(InBytes(h0, l0)))
    ensures ptr == argPtr + len
  {
    ptr := argPtr;
    h, l := h0, l0;
    var argLen := 255 - len;
    var bitCnt := 0;
    ghost var c := Not(InBytes(h, l));
    ghost var goal := ByteSteps(Slice(mem, argPtr, len), c);
    while true
      invariant argPtr <= ptr <= argPtr + len && argLen == 255 - len + (ptr - argPtr) && bitCnt == 0
      invariant c == Not(InBytes(h, l))
      invariant goal == ByteSteps(Slice(mem, ptr, argPtr + len - ptr), c)
      decreases argPtr + len - ptr
    {
      var carry := argLen < 255;
      argLen := (argLen + 1) % 256;
      if !carry { break; }
      SliceStep(mem, ptr, argPtr + len - ptr);
      h, l, bitCnt, c := ByteLoop(h, l, mem(ptr), carry, bitCnt, c);
      ptr := ptr + 1;
    }
  }

  /** usbCrc16 as built by default: resCrc starts at 0, the complement of 0xffff; the carry is set at every `ror`. */
  method UsbCrc16(mem: nat -> bv8, argPtr: nat, len: nat) returns (resCrcH: bv8, resCrcL: bv8, ptr: nat)
    requires len < 256
    ensures InBytes(resCrcH, resCrcL) == CrcBits(Slice(mem, argPtr, len))
    ensures ptr == argPtr + len
  {
    resCrcH, resCrcL, ptr := ByteLoops(mem, argPtr, len, 0, 0);
    Initial();
    RemainderByBytes(Slice(mem, argPtr, len), Ones());
    DoubleNot(InBytes(resCrcH, resCrcL));
  }

  lemma DoubleNot(c: Register)
    ensures Not(Not(c)) == c
  {
  }

  /** usbCrc16Append: the CRC goes behind the message, low byte first. */
  method UsbCrc16Append(buf: array<bv8>, data: nat, len: nat)
    requires len < 256 && data + len + 2 <= buf.Length
    modifies buf
    ensures buf[..] == old(buf[..data + len]) + CrcBytes(old(buf[data..data + len])) + old(buf[data + len + 2..])
  {
    var bytes := buf[..];
    var mem := (k: nat) => if k < |bytes| then bytes[k] else 0;
    var h, l, ptr := UsbCrc16(mem, data, len);
    assert Slice(mem, data, len) == bytes[data..data + len];
    CrcBytesFrom(bytes[data..data + len], h, l);
    buf[ptr] := l;
    buf[ptr + 1] := h;
    assert buf[..] == bytes[..data + len] + [l, h] + bytes[data + len + 2..];
  }
}

/** The CRC check of the 18 MHz receiver, spread over the bit slots of the receive loop and driven by two tables. */
module Crc16Table {
  import opened Line
  import opened Registers
  import opened Crc16
  import opened Crc16Fast

  function Pick(k: bv8, b0: bv8, b1: bv8, b2: bv8, b3: bv8, b4: bv8, b5: bv8, b6: bv8, b7: bv8): bv8 {
    if k == 0 then b0 else if k == 1 then b1 else if k == 2 then b2 else if k == 3 then b3
    else if k == 4 then b4 else if k == 5 then b5 else if k == 6 then b6 else b7
  }

  /** usbCrcTableLow, eight entries a row. */
  function LowRow(row: bv8, k: bv8): bv8 {
    if row == 0 then Pick(k, 0x00, 0xc1, 0x81, 0x40, 0x01, 0xc0, 0x80, 0x41)
    else if row == 1 then Pick(k, 0x01, 0xc0, 0x80, 0x41, 0x00, 0xc1, 0x81, 0x40)
    else if row == 2 then Pick(k, 0x01, 0xc0, 0x80, 0x41, 0x00, 0xc1, 0x81, 0x40)
    else if row == 3 then Pick(k, 0x00, 0xc1, 0x81, 0x40, 0x01, 0xc0, 0x80, 0x41)
    else if row == 4 then Pick(k, 0x01, 0xc0, 0x80, 0x41, 0x00, 0xc1, 0x81, 0x40)
    else if row == 5 then Pick(k, 0x00, 0xc1, 0x81, 0x40, 0x01, 0xc0, 0x80, 0x41)
    else if row == 6 then Pick(k, 0x00, 0xc1, 0x81, 0x40, 0x01, 0xc0, 0x80, 0x41)
    else if row == 7 then Pick(k, 0x01, 0xc0, 0x80, 0x41, 0x00, 0xc1, 0x81, 0x40)
    else if row == 8 then Pick(k, 0x01, 0xc0, 0x80, 0x41, 0x00, 0xc1, 0x81, 0x40)
    else if row == 9 then Pick(k, 0x00, 0xc1, 0x81, 0x40, 0x01, 0xc0, 0x80, 0x41)
    else if row == 10 then Pick(k, 0x00, 0xc1, 0x81, 0x40, 0x01, 0xc0, 0x80, 0x41)
    else if row == 11 then Pick(k, 0x01, 0xc0, 0x80, 0x41, 0x00, 0xc1, 0x81, 0x40)
    else if row == 12 then Pick(k, 0x00, 0xc1, 0x81, 0x40, 0x01, 0xc0, 0x80, 0x41)
    else if row == 13 then Pick(k, 0x01, 0xc0, 0x80, 0x41, 0x00, 0xc1, 0x81, 0x40)
    else if row == 14 then Pick(k, 0x01, 0xc0, 0x80, 0x41, 0x00, 0xc1, 0x81, 0x40)
    else if row == 15 then Pick(k, 0x00, 0xc1, 0x81, 0x40, 0x01, 0xc0, 0x80, 0x41)
    else if row == 16 then Pick(k, 0x01, 0xc0, 0x80, 0x41, 0x00, 0xc1, 0x81, 0x40)
    else if row == 17 then Pick(k, 0x00, 0xc1, 0x81, 0x40, 0x01, 0xc0, 0x80, 0x41)
    else if row == 18 then Pick(k, 0x00, 0xc1, 0x81, 0x40, 0x01, 0xc0, 0x80, 0x41)
    else if row == 19 then Pick(k, 0x01, 0xc0, 0x80, 0x41, 0x00, 0xc1, 0x81, 0x40)
    else if row == 20 then Pick(k, 0x00, 0xc1, 0x81, 0x40, 0x01, 0xc0, 0x80, 0x41)
    else if row == 21 then Pick(k, 0x01, 0xc0, 0x80, 0x41, 0x00, 0xc1, 0x81, 0x40)
    else if row == 22 then Pick(k, 0x01, 0xc0, 0x80, 0x41, 0x00, 0xc1, 0x81, 0x40)
    else if row == 23 then Pick(k, 0x00, 0xc1, 0x81, 0x40, 0x01, 0xc0, 0x80, 0x41)
    else if row == 24 then Pick(k, 0x00, 0xc1, 0x81, 0x40, 0x01, 0xc0, 0x80, 0x41)
    else if row == 25 then Pick(k, 0x01, 0xc0, 0x80, 0x41, 0x00, 0xc1, 0x81, 0x40)
    else if row == 26 then Pick(k, 0x01, 0xc0, 0x80, 0x41, 0x00, 0xc1, 0x81, 0x40)
    else if row == 27 then Pick(k, 0x00, 0xc1, 0x81, 0x40, 0x01, 0xc0, 0x80, 0x41)
    else if row == 28 then Pick(k, 0x01, 0xc0, 0x80, 0x41, 0x00, 0xc1, 0x81, 0x40)
    else if row == 29 then Pick(k, 0x00, 0xc1, 0x81, 0x40, 0x01, 0xc0, 0x80, 0x41)
    else if row == 30 then Pick(k, 0x00, 0xc1, 0x81, 0x40, 0x01, 0xc0, 0x80, 0x41)
    else Pick(k, 0x01, 0xc0, 0x80, 0x41, 0x00, 0xc1, 0x81, 0x40)
  }

  /** usbCrcTableHigh. */
  function HighRow(row: bv8, k: bv8): bv8 {
    if row == 0 then Pick(k, 0x00, 0xc0, 0xc1, 0x01, 0xc3, 0x03, 0x02, 0xc2)
    else if row == 1 then Pick(k, 0xc6, 0x06, 0x07, 0xc7, 0x05, 0xc5, 0xc4, 0x04)
    else if row == 2 then Pick(k, 0xcc, 0x0c, 0x0d, 0xcd, 0x0f, 0xcf, 0xce, 0x0e)
    else if row == 3 then Pick(k, 0x0a, 0xca, 0xcb, 0x0b, 0xc9, 0x09, 0x08, 0xc8)
    else if row == 4 then Pick(k, 0xd8, 0x18, 0x19, 0xd9, 0x1b, 0xdb, 0xda, 0x1a)
    else if row == 5 then Pick(k, 0x1e, 0xde, 0xdf, 0x1f, 0xdd, 0x1d, 0x1c, 0xdc)
    else if row == 6 then Pick(k, 0x14, 0xd4, 0xd5, 0x15, 0xd7, 0x17, 0x16, 0xd6)
    else if row == 7 then Pick(k, 0xd2, 0x12, 0x13, 0xd3, 0x11, 0xd1, 0xd0, 0x10)
    else if row == 8 then Pick(k, 0xf0, 0x30, 0x31, 0xf1, 0x33, 0xf3, 0xf2, 0x32)
    else if row == 9 then Pick(k, 0x36, 0xf6, 0xf7, 0x37, 0xf5, 0x35, 0x34, 0xf4)
    else if row == 10 then Pick(k, 0x3c, 0xfc, 0xfd, 0x3d, 0xff, 0x3f, 0x3e, 0xfe)
    else if row == 11 then Pick(k, 0xfa, 0x3a, 0x3b, 0xfb, 0x39, 0xf9, 0xf8, 0x38)
    else if row == 12 then Pick(k, 0x28, 0xe8, 0xe9, 0x29, 0xeb, 0x2b, 0x2a, 0xea)
    else if row == 13 then Pick(k, 0xee, 0x2e, 0x2f, 0xef, 0x2d, 0xed, 0xec, 0x2c)
    else if row == 14 then Pick(k, 0xe4, 0x24, 0x25, 0xe5, 0x27, 0xe7, 0xe6, 0x26)
    else if row == 15 then Pick(k, 0x22, 0xe2, 0xe3, 0x23, 0xe1, 0x21, 0x20, 0xe0)
    else if row == 16 then Pick(k, 0xa0, 0x60, 0x61, 0xa1, 0x63, 0xa3, 0xa2, 0x62)
    else if row == 17 then Pick(k, 0x66, 0xa6, 0xa7, 0x67, 0xa5, 0x65, 0x64, 0xa4)
    else if row == 18 then Pick(k, 0x6c, 0xac, 0xad, 0x6d, 0xaf, 0x6f, 0x6e, 0xae)
    else if row == 19 then Pick(k, 0xaa, 0x6a, 0x6b, 0xab, 0x69, 0xa9, 0xa8, 0x68)
    else if row == 20 then Pick(k, 0x78, 0xb8, 0xb9, 0x79, 0xbb, 0x7b, 0x7a, 0xba)
    else if row == 21 then Pick(k, 0xbe, 0x7e, 0x7f, 0xbf, 0x7d, 0xbd, 0xbc, 0x7c)
    else if row == 22 then Pick(k, 0xb4, 0x74, 0x75, 0xb5, 0x77, 0xb7, 0xb6, 0x76)
    else if row == 23 then Pick(k, 0x72, 0xb2, 0xb3, 0x73, 0xb1, 0x71, 0x70, 0xb0)
    else if row == 24 then Pick(k, 0x50, 0x90, 0x91, 0x51, 0x93, 0x53, 0x52, 0x92)
    else if row == 25 then Pick(k, 0x96, 0x56, 0x57, 0x97, 0x55, 0x95, 0x94, 0x54)
    else if row == 26 then Pick(k, 0x9c, 0x5c, 0x5d, 0x9d, 0x5f, 0x9f, 0x9e, 0x5e)
    else if row == 27 then Pick(k, 0x5a, 0x9a, 0x9b, 0x5b, 0x99, 0x59, 0x58, 0x98)
    else if row == 28 then Pick(k, 0x88, 0x48, 0x49, 0x89, 0x4b, 0x8b, 0x8a, 0x4a)
    else if row == 29 then Pick(k, 0x4e, 0x8e, 0x8f, 0x4f, 0x8d, 0x4d, 0x4c, 0x8c)
    else if row == 30 then Pick(k, 0x44, 0x84, 0x85, 0x45, 0x87, 0x47, 0x46, 0x86)
    else Pick(k, 0x82, 0x42, 0x43, 0x83, 0x41, 0x81, 0x80, 0x40)
  }

  function TableLow(z: bv8): bv8 { LowRow(z >> 3, z & 7) }

  function TableHigh(z: bv8): bv8 { HighRow(z >> 3, z & 7) }

  lemma LowTableIsClosedForm(z: bv8)
    ensures TableLow(z) == FastTable(z).1
  {
  }

  // The high table, four rows at a time.

  lemma HighTable0(z: bv8)
    requires z < 0x20
    ensures TableHigh(z) == FastTable(z).0
  {
  }

  lemma HighTable1(z: bv8)
    requires 0x20 <= z < 0x40
    ensures TableHigh(z) == FastTable(z).0
  {
  }

  lemma HighTable2(z: bv8)
    requires 0x40 <= z < 0x60
    ensures TableHigh(z) == FastTable(z).0
  {
  }

  lemma HighTable3(z: bv8)
    requires 0x60 <= z < 0x80
    ensures TableHigh(z) == FastTable(z).0
  {
    assert z >> 3 == 12 || z >> 3 == 13 || z >> 3 == 14 || z >> 3 == 15;
  }

  lemma HighTable4(z: bv8)
    requires 0x80 <= z < 0xa0
    ensures TableHigh(z) == FastTable(z).0
  {
  }

  lemma HighTable5(z: bv8)
    requires 0xa0 <= z < 0xc0
    ensures TableHigh(z) == FastTable(z).0
  {
  }

  lemma HighTable6(z: bv8)
    requires 0xc0 <= z < 0xe0
    ensures TableHigh(z) == FastTable(z).0
  {
    assert z >> 3 == 24 || z >> 3 == 25 || z >> 3 == 26 || z >> 3 == 27;
  }

  lemma HighTable7(z: bv8)
    requires z >= 0xe0
    ensures TableHigh(z) == FastTable(z).0
  {
  }

  lemma HighTableIsClosedForm(z: bv8)
    ensures TableHigh(z) == FastTable(z).0
  {
    hide TableHigh, FastTable;
    if z < 0x20 {
      HighTable0(z);
    } else if z < 0x40 {
      HighTable1(z);
    } else if z < 0x60 {
      HighTable2(z);
    } else if z < 0x80 {
      HighTable3(z);
    } else if z < 0xa0 {
      HighTable4(z);
    } else if z < 0xc0 {
      HighTable5(z);
    } else if z < 0xe0 {
      HighTable6(z);
    } else {
      HighTable7(z);
    }
  }

  /** Entry z of the two tables is z after eight steps of the shift register: what the generator program in the
      source comment computes. */
  lemma TablesAreEightSteps(z: bv8)
    ensures InBytes(TableHigh(z), TableLow(z)) == ShiftN(Padded(Wire(z)), 8)
  {
    LowTableIsClosedForm(z);
    HighTableIsClosedForm(z);
    FastTableIsEightSteps(z);
    EightStepsOfByte(Wire(z));
  }

  // ---- the check

  /** The register once the pending byte in ZL has gone through the tables. */
  function Settled(x3: bv8, zl: bv8): Register {
    InBytes(TableHigh(zl), TableLow(zl) ^ x3)
  }

  /** A byte added to ZL settles into a whole byte step. */
  lemma SettleByte(h: bv8, l: bv8, byte: bv8)
    ensures Settled(h, l ^ byte) == ByteStep(InBytes(h, l), byte)
  {
    TablesAreEightSteps(l ^ byte);
    EightStepsOfByte(Wire(l ^ byte));
    ByteStepByTable(h, l, byte, TableHigh(l ^ byte), TableLow(l ^ byte));
  }

  /** 0xFE54 becomes 0xffff while the first byte comes in. */
  lemma StartSettles()
    ensures Settled(0xfe, 0x54) == Ones()
  {
    Initial();
    assert TableHigh(0x54) == 0xff && TableLow(0x54) == 0x01;
  }

  /** The slots of one received data byte: bit 5 loads x4, bit 6 combines ZL and moves x4 to x3, bit 7 adds the byte. */
  method DataByte(x3In: bv8, zlIn: bv8, byte: bv8, ghost c0: Register) returns (x3: bv8, zl: bv8, ghost c: Register)
    requires Settled(x3In, zlIn) == c0
    ensures Settled(x3, zl) == ByteStep(c0, byte)
    ensures c == ByteStep(c0, byte)
  {
    hide TableHigh, TableLow, ByteStep;
    x3, zl := x3In, zlIn;
    var x4 := TableHigh(zl);
    zl := TableLow(zl);
    zl := zl ^ x3;
    x3 := x4;
    SettleByte(x3, zl, byte);
    x4 := byte;
    zl := zl ^ x4;
    c := ByteStep(c0, byte);
  }

  /** The register that a packet with a good CRC leaves behind. */
  function Residue(): Register { InBytes(0xb0, 0x01) }

  /** The receive loop over the bytes after the PID. */
  method DataBytes(payload: seq<bv8>) returns (x3: bv8, zl: bv8)
    ensures Settled(x3, zl) == ByteSteps(payload, Ones())
  {
    x3, zl := 0xfe, 0x54;
    ghost var c := Ones();
    StartSettles();
    for k := 0 to |payload|
      invariant c == Settled(x3, zl)
      invariant ByteSteps(payload[k..], c) == ByteSteps(payload, Ones())
    {
      assert payload[k..][1..] == payload[k + 1..];
      x3, zl, c := DataByte(x3, zl, payload[k], c);
    }
  }

  /** CRC_CLEANUP_AND_CHECK. */
  method Cleanup(x3: bv8, zlIn: bv8) returns (good: bool)
    ensures good <==> Settled(x3, zlIn) == Residue()
  {
    var x2 := TableHigh(zlIn);
    var zl := TableLow(zlIn);
    zl := zl ^ x3;
    ResidueIff(x2, zl);
    good := zl == 0x01 && x2 == 0xb0;
  }

  /** A packet body passes exactly if its last two bytes are the CRC of the rest. */
  method Check(payload: seq<bv8>) returns (accepted: bool)
    ensures accepted <==> |payload| >= 2 && payload[|payload| - 2..] == CrcBytes(payload[..|payload| - 2])
  {
    var x3, zl := DataBytes(payload);
    accepted := Cleanup(x3, zl);
    RemainderByBytes(payload, Ones());
    AcceptedIff(payload);
  }

  lemma ResidueIff(h: bv8, l: bv8)
    ensures InBytes(h, l) == Residue() <==> h == 0xb0 && l == 0x01
  {
    if InBytes(h, l) == Residue() {
      InBytesInjective(h, l, 0xb0, 0x01);
    }
  }

  lemma ShiftInjective(a: Register, b: Register)
    requires Shift(a) == Shift(b)
    ensures a == b
  {
    assert Shift(a)[15] == a[0] && Shift(b)[15] == b[0];
    assert forall i :: 0 <= i < 15 ==> Shift(a)[i] == (a[i + 1] != (a[0] && Generator()[i]));
    assert forall i :: 0 <= i < 15 ==> Shift(b)[i] == (b[i + 1] != (b[0] && Generator()[i]));
    forall i | 0 <= i < 16 ensures a[i] == b[i] {
      if i > 0 { assert Shift(a)[i - 1] == Shift(b)[i - 1]; }
    }
  }

  lemma {:induction false} ShiftNInjective(a: Register, b: Register, n: nat)
    requires ShiftN(a, n) == ShiftN(b, n)
    ensures a == b
    decreases n
  {
    if n > 0 {
      ShiftNInjective(Shift(a), Shift(b), n - 1);
      ShiftInjective(a, b);
    }
  }

  lemma {:induction false} ShiftNAdd(c: Register, m: nat, n: nat)
    ensures ShiftN(ShiftN(c, m), n) == ShiftN(c, m + n)
    decreases m
  {
    if m > 0 { ShiftNAdd(Shift(c), m - 1, n); }
  }

  lemma ZeroByteStep(h: bv8, l: bv8, n: nat)
    requires n == 8
    ensures ShiftN(InBytes(h, l), n) == InBytes(TableHigh(l), TableLow(l) ^ h)
  {
    TablesAreEightSteps(l);
    EightStepsOfByte(Wire(l));
    EightStepsOfTwo(Wire(l), Wire(h), n);
    XorLow(TableHigh(l), TableLow(l), h);
  }

  lemma FirstEntry()
    ensures TableHigh(0xff) == 0x40 && TableLow(0xff) ^ 0xff == 0xbf
  {
  }

  lemma SecondEntry()
    ensures TableHigh(0xbf) == 0xb0 && TableLow(0xbf) ^ 0x40 == 0x01
  {
  }

  /** Sixteen steps take all ones to the residue. */
  lemma OnesToResidue(n: nat)
    requires n == 8
    ensures ShiftN(Ones(), n + n) == Residue()
  {
    Initial();
    ZeroByteStep(0xff, 0xff, n);
    ZeroByteStep(0x40, 0xbf, n);
    FirstEntry();
    SecondEntry();
    ShiftNAdd(Ones(), n, n);
  }

  /** Adding a 16 bit pattern gives all ones exactly when the pattern is the complement. */
  lemma FeedOnes(c: Register, bits: seq<bool>)
    requires |bits| == 16
    ensures Feed(c, bits) == Ones() <==> bits == Not(c)
  {
    assert Feed(c, bits) == Xor(c, bits);
    if Xor(c, bits) == Ones() {
      forall i | 0 <= i < 16 ensures bits[i] == Not(c)[i] {
        assert Xor(c, bits)[i] == Ones()[i];
      }
    }
    assert Xor(c, Not(c)) == Ones();
  }

  /** A message leaves the residue exactly when it ends in its CRC. */
  lemma LongIff(front: seq<bv8>, last: seq<bv8>)
    requires |last| == 2
    ensures Remainder(BytesBits(front + last), Ones()) == Residue() <==> last == CrcBytes(front)
  {
    var c := Remainder(BytesBits(front), Ones());
    var bits := BytesBits(last);
    BytesBitsConcat(front, last);
    RemainderConcat(BytesBits(front), bits, Ones());
    RemainderIsFeed(bits, c);
    OnesToResidue(8);
    if ShiftN(Feed(c, bits), 16) == ShiftN(Ones(), 16) {
      ShiftNInjective(Feed(c, bits), Ones(), 16);
    }
    FeedOnes(c, bits);
    CrcBytesBits(front);
    if bits == CrcBits(front) {
      BytesBitsInjective(last, CrcBytes(front));
    }
  }

  /** No entry of the low table is 0xfe. */
  lemma LowTableGap(z: bv8)
    ensures TableLow(z) ^ 0xff != 0x01
  {
  }

  lemma NotResidue(z: bv8)
    ensures Settled(0xff, z) != Residue()
  {
    LowTableGap(z);
    ResidueIff(TableHigh(z), TableLow(z) ^ 0xff);
  }

  /** Fewer than two bytes never pass. */
  lemma ShortRejected(payload: seq<bv8>)
    requires |payload| < 2
    ensures Remainder(BytesBits(payload), Ones()) != Residue()
  {
    Initial();
    RemainderByBytes(payload, Ones());
    if payload == [] {
      ResidueIff(0xff, 0xff);
    } else {
      assert payload[1..] == [];
      SettleByte(0xff, 0xff, payload[0]);
      NotResidue(0xff ^ payload[0]);
    }
  }

  /** What the check accepts: exactly the payloads whose last two bytes are the CRC of the rest. */
  lemma AcceptedIff(payload: seq<bv8>)
    ensures Remainder(BytesBits(payload), Ones()) == Residue()
            <==> |payload| >= 2 && payload[|payload| - 2..] == CrcBytes(payload[..|payload| - 2])
  {
    if |payload| < 2 {
      ShortRejected(payload);
    } else {
      var front, last := payload[..|payload| - 2], payload[|payload| - 2..];
      assert payload == front + last;
      LongIff(front, last);
    }
  }
}

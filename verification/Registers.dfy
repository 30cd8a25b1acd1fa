/** Registers seen as bit sequences: the few facts about 8 bit words that the register programs rest on. */
module Registers {
  import opened Line

  function BitAt(k: nat): bv8
    requires k < 8
  {
    match k
    case 0 => 0x01 case 1 => 0x02 case 2 => 0x04 case 3 => 0x08
    case 4 => 0x10 case 5 => 0x20 case 6 => 0x40 case _ => 0x80
  }

  /** The byte whose bits, least significant first, are the given ones. */
  function Pack(bits: seq<bool>): bv8
    requires |bits| <= 8
  {
    if bits == [] then 0 else
    var n := |bits| - 1;
    Pack(bits[..n]) | (if bits[n] then BitAt(n) else 0)
  }

  /** `ror`: the carry enters at the top; bit 0 becomes the new carry. */
  function Ror(r: bv8, carry: bool): bv8 {
    (r >> 1) | (if carry then 0x80 else 0)
  }

  predicate Bit0(r: bv8) { (r & 1) == 1 }

  /** The n bytes a program reads through a pointer that starts at y. */
  ghost function Slice(mem: nat -> bv8, y: nat, n: nat): (s: seq<bv8>)
    ensures |s| == n
  {
    seq(n, i requires 0 <= i < n => mem(y + i))
  }

  lemma SliceStep(mem: nat -> bv8, y: nat, n: nat)
    ensures n > 0 ==> Slice(mem, y, n)[0] == mem(y) && Slice(mem, y, n)[1..] == Slice(mem, y + 1, n - 1)
  {
  }

  predicate Bit(r: bv8, i: nat)
    requires i < 8
  {
    (r & BitAt(i)) != 0
  }

  /** A register as its bits, least significant first. */
  function Wire(r: bv8): (w: seq<bool>)
    ensures |w| == 8
  {
    BitsFrom(r, 8)
  }

  lemma {:induction false} BitsFromAt(r: bv8, n: nat, j: nat)
    requires j < n <= 8
    ensures BitsFrom(r, n)[j] == Bit(r, j)
    decreases n
  {
    if j > 0 {
      BitsFromAt(r >> 1, n - 1, j - 1);
      ShiftedBit(r, j);
    } else {
      assert (r & 1) == 1 <==> (r & BitAt(0)) != 0;
    }
  }

  lemma ShiftedBit(r: bv8, j: nat)
    requires 1 <= j < 8
    ensures Bit(r >> 1, j - 1) == Bit(r, j)
  {
  }

  lemma WireAt(r: bv8)
    ensures forall j: nat :: j < 8 ==> Wire(r)[j] == Bit(r, j)
  {
    forall j: nat | j < 8 ensures Wire(r)[j] == Bit(r, j) { BitsFromAt(r, 8, j); }
  }

  /** `bld`: bit i of shift becomes the bit that `bst` saved. */
  function Bld(shift: bv8, i: nat, t: bool): bv8
    requires i < 8
  {
    if t then shift | BitAt(i) else shift & !BitAt(i)
  }

  lemma BldBit(shift: bv8, i: nat, j: nat, t: bool)
    requires i < 8 && j < 8
    ensures Bit(Bld(shift, i, t), j) == if i == j then t else Bit(shift, j)
  {
  }

  lemma WireBld(shift: bv8, i: nat, t: bool)
    requires i < 8
    ensures Wire(Bld(shift, i, t)) == Wire(shift)[i := t]
  {
    forall j: nat | j < 8 ensures Wire(Bld(shift, i, t))[j] == Wire(shift)[i := t][j] {
      BitsFromAt(shift, 8, j);
      BitsFromAt(Bld(shift, i, t), 8, j);
      BldBit(shift, i, j, t);
    }
  }

  lemma XorBit(a: bv8, b: bv8, j: nat)
    requires j < 8
    ensures Bit(a ^ b, j) == (Bit(a, j) != Bit(b, j))
  {
    var m := BitAt(j);
    assert ((a ^ b) & m) == ((a & m) ^ (b & m));
    OneBit(a, j);
    OneBit(b, j);
  }

  lemma OneBit(a: bv8, j: nat)
    requires j < 8
    ensures (a & BitAt(j)) == 0 || (a & BitAt(j)) == BitAt(j)
  {
  }

  lemma WireXor(a: bv8, b: bv8)
    ensures forall j: nat :: j < 8 ==> Wire(a ^ b)[j] == (Wire(a)[j] != Wire(b)[j])
  {
    forall j: nat | j < 8 ensures Wire(a ^ b)[j] == (Wire(a)[j] != Wire(b)[j]) {
      BitsFromAt(a, 8, j);
      BitsFromAt(b, 8, j);
      BitsFromAt(a ^ b, 8, j);
      XorBit(a, b, j);
    }
  }

  lemma SameBits(a: bv8, b: bv8)
    requires Bit(a, 0) == Bit(b, 0) && Bit(a, 1) == Bit(b, 1) && Bit(a, 2) == Bit(b, 2) && Bit(a, 3) == Bit(b, 3)
    requires Bit(a, 4) == Bit(b, 4) && Bit(a, 5) == Bit(b, 5) && Bit(a, 6) == Bit(b, 6) && Bit(a, 7) == Bit(b, 7)
    ensures a == b
  {
  }

  /** A byte is determined by its bits. */
  lemma WireInjective(a: bv8, b: bv8)
    requires Wire(a) == Wire(b)
    ensures a == b
  {
    forall j: nat | j < 8 ensures Bit(a, j) == Bit(b, j) {
      BitsFromAt(a, 8, j);
      BitsFromAt(b, 8, j);
    }
    SameBits(a, b);
  }

  lemma {:induction false} PackBit(bits: seq<bool>, j: nat)
    requires |bits| <= 8 && j < 8
    ensures Bit(Pack(bits), j) == (j < |bits| && bits[j])
    decreases |bits|
  {
    if bits == [] {
      assert (0 & BitAt(j)) == 0;
    } else {
      PackBit(bits[..|bits| - 1], j);
      BldBit(Pack(bits[..|bits| - 1]), |bits| - 1, j, true);
    }
  }

  /** Pack undoes Wire. */
  lemma WirePack(bits: seq<bool>)
    requires |bits| == 8
    ensures Wire(Pack(bits)) == bits
  {
    forall j: nat | j < 8 ensures Wire(Pack(bits))[j] == bits[j] {
      BitsFromAt(Pack(bits), 8, j);
      PackBit(bits, j);
    }
  }

  lemma ZeroWire(r: bv8)
    ensures r == 0 <==> (forall j: nat :: j < 8 ==> !Wire(r)[j])
  {
    WireAt(r);
    WireAt(0);
    forall j: nat | j < 8 ensures !Bit(0, j) {
      assert (0 & BitAt(j)) == 0;
    }
    if forall j: nat :: j < 8 ==> !Wire(r)[j] {
      assert forall j: nat :: j < 8 ==> Wire(r)[j] == Wire(0)[j];
      WireInjective(r, 0);
    }
  }

  lemma WireRor(r: bv8, b: bool)
    ensures Wire(Ror(r, b)) == Wire(r)[1..] + [b]
  {
    forall j: nat | j < 8 ensures Wire(Ror(r, b))[j] == (Wire(r)[1..] + [b])[j] {
      BitsFromAt(Ror(r, b), 8, j);
      if j < 7 {
        BitsFromAt(r, 8, j + 1);
        RorAt(r, b, j);
      } else {
        RorTop(r, b);
      }
    }
  }

  lemma RorAt(r: bv8, b: bool, j: nat)
    requires j < 7
    ensures Bit(Ror(r, b), j) == Bit(r, j + 1)
  {
    ShiftedBit(r, j + 1);
    assert (0x80 & BitAt(j)) == 0;
    assert (((r >> 1) | 0x80) & BitAt(j)) == ((r >> 1) & BitAt(j)) | (0x80 & BitAt(j));
  }

  lemma RorTop(r: bv8, b: bool)
    ensures Bit(Ror(r, b), 7) == b
  {
    assert ((r >> 1) & 0x80) == 0;
  }

  /** Bytes are determined by their bits. */
  lemma {:induction false} BytesBitsInjective(a: seq<bv8>, b: seq<bv8>)
    requires BytesBits(a) == BytesBits(b)
    ensures a == b
    decreases |a|
  {
    if a != [] && b != [] {
      assert BytesBits(a)[..8] == Wire(a[0]) && BytesBits(b)[..8] == Wire(b[0]);
      WireInjective(a[0], b[0]);
      assert BytesBits(a)[8..] == BytesBits(a[1..]) && BytesBits(b)[8..] == BytesBits(b[1..]);
      BytesBitsInjective(a[1..], b[1..]);
    }
  }
}

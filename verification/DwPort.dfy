/** The host's debugWIRE primitives: registers, single instructions, and data memory.  Sending feeds bytes to the
    target; what the target sends back waits in its output until it is received. */
module DwPort {
  import opened Bytes
  import opened DwTarget

  /** The high byte of an address with the flag put in by a bitwise or. */
  function OrFlag(high: byte, flag: nat): byte
    requires flag == 0 || flag == 0x10
  {
    if flag == 0 || high / 16 % 2 == 1 then high else high + 0x10
  }

  /** An address that the flag does not collide with. */
  predicate Addressable(part: Part, a: nat) {
    a < 0x10000 && (AddrFlag(part) != 0 ==> a < 0x1000)
  }

  /** The flag never overlaps an address bit, and the target sees the address that was meant. */
  lemma AddressArrives(part: Part, a: nat)
    requires Addressable(part, a)
    ensures AddrFlag(part) != 0 ==> Hi(a) / 16 % 2 == 0
    ensures Address(part, Word(OrFlag(Hi(a), AddrFlag(part)), Lo(a))) == a
  {
  }

  predicate Ready(t: Target) { Sized(t) && t.wait == Command && t.out == [] }

  /** Nothing changed but the debugger's own control registers. */
  ghost predicate Controls(t: Target, u: Target) {
    u == t.(pc := u.pc, bp := u.bp, ir := u.ir, repeating := u.repeating, transfer := u.transfer,
            eeMaster := u.eeMaster)
  }

  /** The same, but for r28 to r31, which the host keeps in its cache. */
  ghost predicate Scratch(t: Target, u: Target) {
    && |u.data| == |t.data|
    && Controls(t.(data := u.data), u)
    && forall a :: 0 <= a < |t.data| && !(28 <= a <= 31) ==> u.data[a] == t.data[a]
  }

  /** Whatever is sent: the device stays the same device, and a fault is never undone. */
  predicate After(t: Target, u: Target) { Sized(u) && u.part == t.part && (t.fault ==> u.fault) }

  /** The given registers have been set, and nothing else. */
  ghost predicate RegsSet(t: Target, u: Target, first: nat, regs: seq<byte>) {
    && Ready(u) && first + |regs| <= |t.data| && u.data == Overlay(t.data, first, regs)
    && Controls(t.(data := u.data), u)
  }

  /** n single steps. */
  predicate Stepped(t: Target, u: Target, n: nat) {
    u.pc == t.pc + n && !u.repeating && u.bp == t.bp && u.transfer == t.transfer && (n > 0 ==> !u.eeMaster)
  }

  lemma FeedOne(t: Target, b: byte)
    requires Sized(t)
    ensures Feed(t, [b]) == OnByte(t, b)
  {
    assert [b][1..] == [];
  }

  lemma {:induction false} FeedConcat(t: Target, a: seq<byte>, b: seq<byte>)
    requires Sized(t)
    ensures Feed(t, a + b) == Feed(Feed(t, a), b)
    decreases |a|
  {
    if a == [] {
      assert a + b == b;
    } else {
      assert (a + b)[1..] == a[1..] + b;
      FeedConcat(OnByte(t, a[0]), a[1..], b);
    }
  }

  lemma FeedTwo(t: Target, a: byte, b: byte)
    requires Sized(t)
    ensures Feed(t, [a, b]) == OnByte(OnByte(t, a), b)
  {
    FeedConcat(t, [a], [b]);
    assert [a] + [b] == [a, b];
    FeedOne(t, a);
    FeedOne(OnByte(t, a), b);
  }

  lemma FeedWord(t: Target, op: byte, high: byte, low: byte)
    requires Sized(t) && t.wait == Command && (op == 0xD0 || op == 0xD1 || op == 0xD2)
    ensures Feed(t, [op, high, low]) == SetWord(t, op, Word(high, low))
  {
    FeedConcat(t, [op, high], [low]);
    assert [op, high] + [low] == [op, high, low];
    FeedTwo(t, op, high);
    FeedOne(Feed(t, [op, high]), low);
  }

  lemma WordHalves(w: nat)
    requires w < 0x10000
    ensures Word(Hi(w), Lo(w)) == w
  {
  }

  /** DwInst's five bytes: single step mode, the instruction, go. */
  lemma FeedInst(t: Target, inst: nat)
    requires Sized(t) && t.wait == Command && inst < 0x10000
    ensures Feed(t, [0x64, 0xD2, Hi(inst), Lo(inst), 0x23]) == Execute(t.(repeating := false, ir := inst))
  {
    hide Execute, Feed, Hi, Lo;
    WordHalves(inst);
    var single := t.(repeating := false);
    var high, low := Hi(inst), Lo(inst);
    FeedConcat(t, [0x64], [0xD2, high, low, 0x23]);
    assert [0x64] + [0xD2, high, low, 0x23] == [0x64, 0xD2, high, low, 0x23];
    FeedOne(t, 0x64);
    FeedConcat(single, [0xD2, high, low], [0x23]);
    assert [0xD2, high, low] + [0x23] == [0xD2, high, low, 0x23];
    FeedWord(single, 0xD2, high, low);
    FeedOne(single.(ir := inst), 0x23);
  }

  /** The bytes of a block that goes straight into registers. */
  lemma {:induction false} FeedBlock(t: Target, first: nat, bytes: seq<byte>)
    requires Sized(t) && bytes != [] && first + |bytes| <= 32 && t.wait == BlockWrite(first, first + |bytes|)
    ensures Feed(t, bytes) == t.(data := Overlay(t.data, first, bytes), wait := Command, pc := first + |bytes|)
    decreases |bytes|
  {
    hide Overlay;
    OverlayFirst(t.data, first, bytes);
    if |bytes| == 1 {
      FeedOne(t, bytes[0]);
      assert bytes == [bytes[0]];
    } else {
      FeedBlock(OnByte(t, bytes[0]), first + 1, bytes[1..]);
    }
  }

  lemma OverlayFirst(s: seq<byte>, a: nat, bytes: seq<byte>)
    requires bytes != [] && a + |bytes| <= |s|
    ensures Overlay(s[a := bytes[0]], a + 1, bytes[1..]) == Overlay(s, a, bytes)
    ensures |bytes| == 1 ==> s[a := bytes[0]] == Overlay(s, a, bytes)
  {
  }

  /** The mode, the kind of transfer, and go. */
  lemma FeedGo(t: Target, kind: byte)
    requires Sized(t) && t.wait == Command
    ensures Feed(t, [0x66, 0xC2, kind, 0x20]) == Go(t.(repeating := true, transfer := kind))
  {
    hide Go, Feed;
    var r := t.(repeating := true);
    FeedConcat(t, [0x66], [0xC2, kind, 0x20]);
    assert [0x66] + [0xC2, kind, 0x20] == [0x66, 0xC2, kind, 0x20];
    FeedOne(t, 0x66);
    FeedConcat(r, [0xC2, kind], [0x20]);
    assert [0xC2, kind] + [0x20] == [0xC2, kind, 0x20];
    FeedTwo(r, 0xC2, kind);
    FeedOne(r.(transfer := kind), 0x20);
  }

  class Host {
    const part: Part
    var t: Target          // the device at the other end
    var R: seq<byte>       // r28 to r31 at the last break; the other entries are scratch

    ghost predicate Valid()
      reads this
    {
      Ready(t) && t.part == part && |R| == 32
    }

    method DwSend(bytes: seq<byte>)
      requires Sized(t)
      modifies `t
      ensures t == Feed(old(t), bytes)
    {
      t := Feed(t, bytes);
    }

    method DwReceive(count: nat) returns (bytes: seq<byte>)
      requires count <= |t.out|
      modifies `t
      ensures bytes == old(t.out)[..count] && t == old(t).(out := old(t.out)[count..])
    {
      bytes := t.out[..count];
      t := t.(out := t.out[count..]);
    }

    // What follows up to DwSetZ is also called when the device has been asked for something undocumented; then it only
    // stays so.

    method DwSetPC(pc: nat)
      requires Sized(t) && t.part == part && Addressable(part, pc)
      modifies `t
      ensures After(old(t), t) && (Ready(old(t)) ==> t == old(t).(pc := pc))
    {
      hide Feed, Address;
      AddressArrives(part, pc);
      if Ready(t) { FeedWord(t, 0xD0, OrFlag(Hi(pc), AddrFlag(part)), Lo(pc)); }
      DwSend([0xD0, OrFlag(Hi(pc), AddrFlag(part)), Lo(pc)]);
    }

    method DwSetBP(bp: nat)
      requires Ready(t) && t.part == part && Addressable(part, bp)
      modifies `t
      ensures t == old(t).(bp := bp)
    {
      hide Feed, Address;
      AddressArrives(part, bp);
      FeedWord(t, 0xD1, OrFlag(Hi(bp), AddrFlag(part)), Lo(bp));
      DwSend([0xD1, OrFlag(Hi(bp), AddrFlag(part)), Lo(bp)]);
    }

    method DwInst(inst: nat)
      requires Sized(t) && inst < 0x10000
      modifies `t
      ensures After(old(t), t)
      ensures Ready(old(t)) ==> t == Execute(old(t).(repeating := false, ir := inst))
    {
      hide Feed, Execute;
      if Ready(t) { FeedInst(t, inst); }
      DwSend([0x64, 0xD2, Hi(inst), Lo(inst), 0x23]);
    }

    /** `in reg, io`. */
    method DwIn(reg: nat, io: nat)
      requires Sized(t) && reg < 32 && io < 64
      modifies `t
      ensures After(old(t), t)
      ensures Ready(old(t)) && io == t.part.dwdr ==>
                t == old(t).(repeating := false, ir := InOut(IN, io, reg), wait := Dwdr(reg))
      ensures Ready(old(t)) && io != t.part.dwdr ==>
                t == old(t).(repeating := false, ir := InOut(IN, io, reg), pc := old(t.pc) + 1, eeMaster := false,
                             data := old(t.data)[reg := ReadIo(old(t), io)],
                             busy := if io == SPMCSR && old(t.busy) > 0 then old(t.busy) - 1 else old(t.busy))
    {
      hide InOut, RegOf, IoOf;
      InOutDecodes(IN, io, reg);
      DwInst(InOut(IN, io, reg));
    }

    /** `out io, reg`. */
    method DwOut(io: nat, reg: nat)
      requires Ready(t) && reg < 32 && io < 64
      modifies `t
      ensures io == t.part.dwdr ==>
                t == old(t).(repeating := false, ir := InOut(OUT, io, reg), pc := old(t.pc) + 1, eeMaster := false,
                             out := old(t.out) + [old(t.data)[reg]])
      ensures io != t.part.dwdr ==>
                t == Step(WriteData(old(t).(repeating := false, ir := InOut(OUT, io, reg)), 32 + io, old(t.data)[reg]))
    {
      hide InOut, RegOf, IoOf, WriteData;
      InOutDecodes(OUT, io, reg);
      DwInst(InOut(OUT, io, reg));
    }

    method DwSetReg(reg: nat, val: byte)
      requires Sized(t) && t.part == part && reg < 32
      modifies `t
      ensures After(old(t), t)
      ensures Ready(old(t)) ==>
                && Ready(t)
                && t == old(t).(repeating := false, ir := t.ir, pc := old(t.pc) + 1, eeMaster := false,
                                data := old(t.data)[reg := val])
    {
      hide Feed, InOut;
      DwIn(reg, part.dwdr);
      FeedOne(t, val);
      DwSend([val]);
    }

    /** Up to three registers one by one, more of them as a block. */
    method DwSetRegs(first: nat, regs: seq<byte>)
      requires Sized(t) && t.part == part && first + |regs| <= 32 && (|regs| > 3 ==> Ready(t))
      modifies `t
      ensures After(old(t), t) && (Ready(old(t)) ==> RegsSet(old(t), t, first, regs))
      ensures Ready(old(t)) && |regs| <= 3 ==> Stepped(old(t), t, |regs|)
    {
      if |regs| <= 3 {
        SetSome(first, regs);
      } else {
        SetBlock(first, regs);
      }
    }

    method SetSome(first0: nat, regs0: seq<byte>)
      requires Sized(t) && t.part == part && first0 + |regs0| <= 32
      modifies `t
      ensures After(old(t), t)
      ensures Ready(old(t)) ==> RegsSet(old(t), t, first0, regs0) && Stepped(old(t), t, |regs0|)
    {
      hide Feed, Overlay, Supported;
      FeedOne(t, 0x64);
      DwSend([0x64]);
      OverlayNone(old(t.data), first0, regs0);
      var first, count := first0, |regs0|;
      ghost var i: nat := 0;
      while count > 0
        invariant 0 <= count && i + count == |regs0| && first == first0 + i && After(old(t), t)
        invariant Ready(old(t)) ==> RegsSet(old(t), t, first0, regs0[..i]) && Stepped(old(t), t, i)
      {
        OverlayMore(old(t.data), first0, regs0, i);
        DwSetReg(first, regs0[first - first0]);
        first, count, i := first + 1, count - 1, i + 1;
      }
      assert regs0[..i] == regs0;
    }

    method SetBlock(first: nat, regs: seq<byte>)
      requires Ready(t) && t.part == part && regs != [] && first + |regs| <= 32
      modifies `t
      ensures RegsSet(old(t), t, first, regs)
    {
      hide Feed;
      DwSetPC(first);
      DwSetBP(first + |regs|);
      FeedGo(t, 0x05);
      DwSend([0x66, 0xC2, 0x05, 0x20]);
      FeedBlock(t, first, regs);
      DwSend(regs);
    }

    method DwSetZ(z: nat)
      requires Sized(t) && t.part == part && z < 0x10000
      modifies `t
      ensures After(old(t), t)
      ensures Ready(old(t)) ==>
                && Ready(t) && Z(t) == z && Scratch(old(t), t)
                && !t.repeating && t.bp == old(t.bp) && t.transfer == old(t.transfer) && !t.eeMaster
                && t.data == old(t.data)[30 := Lo(z)][31 := Hi(z)]
    {
      DwSetRegs(30, [Lo(z), Hi(z)]);
      assert Ready(old(t)) ==> t.data == old(t.data)[30 := Lo(z)][31 := Hi(z)];
    }

    /** One register through DWDR, more of them as a block. */
    method DwGetRegs(first: nat, count: nat) returns (regs: seq<byte>)
      requires Ready(t) && t.part == part && count >= 1 && first + count <= 32
      modifies `t
      ensures Ready(t) && Controls(old(t), t)
      ensures regs == old(t.data)[first..first + count]
    {
      hide Feed, InOut;
      if count == 1 {
        DwOut(part.dwdr, first);
      } else {
        DwSetPC(first);
        DwSetBP(first + count);
        FeedGo(t, 0x01);
        DwSend([0x66, 0xC2, 0x01, 0x20]);
      }
      regs := DwReceive(count);
    }
  }

  lemma OverlayNone(s: seq<byte>, a: nat, bytes: seq<byte>)
    requires a + |bytes| <= |s|
    ensures Overlay(s, a, bytes[..0]) == s
  {
  }

  lemma OverlayMore(s: seq<byte>, a: nat, bytes: seq<byte>, n: nat)
    requires n < |bytes| && a + |bytes| <= |s|
    ensures Overlay(s, a, bytes[..n])[a + n := bytes[n]] == Overlay(s, a, bytes[..n + 1])
  {
  }

  /** Single step mode. */
  method SingleStep(h: Host)
    requires h.Valid()
    modifies h`t
    ensures h.t == old(h.t).(repeating := false)
  {
    hide Feed;
    FeedOne(h.t, 0x64);
    h.DwSend([0x64]);
  }

  lemma AdiwExecutes(t: Target, k: nat)
    requires Sized(t) && (k == 1 || k == 2) && t.ir == if k == 1 then ADIW_Z_1 else ADIW_Z_2
    ensures Execute(t) == Step(DoAdiwZ(t, k).(eeMaster := false))
  {
  }

  /** `adiw Z,k`, which also changes the flags. */
  method AdiwZ(h: Host, k: nat, ghost z: nat)
    requires h.Valid() && (k == 1 || k == 2) && Z(h.t) == z && z + k < 0x10000
    modifies h`t
    ensures h.Valid() && Z(h.t) == z + k && !h.t.repeating
    ensures Controls(old(h.t).(data := h.t.data), h.t) && |h.t.data| == |old(h.t.data)|
    ensures forall i :: 0 <= i < |h.t.data| && i != 30 && i != 31 && i != 32 + SREG ==> h.t.data[i] == old(h.t.data[i])
  {
    hide Feed, AddFlags, Hi, Lo, Execute;
    var inst := if k == 1 then ADIW_Z_1 else ADIW_Z_2;
    WordHalves(z + k);
    AdiwExecutes(h.t.(repeating := false, ir := inst), k);
    h.DwInst(inst);
  }
}

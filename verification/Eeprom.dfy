/** EEPROM, fuses and lock bits through debugWIRE. */
module Eeprom {
  import opened Bytes
  import opened DwTarget
  import opened DwPort

  /** The I/O registers of the EEPROM. */
  predicate EeCell(part: Part, a: int) {
    32 + part.eecr <= a <= 32 + part.eecr + 2 || (part.eearh != 0 && a == 32 + part.eearh)
  }

  /** The data space is the same but for r0 up to r(n-1), the cached registers, SREG, SPMCSR and the EEPROM
      registers. */
  ghost predicate KeptOutsideEe(part: Part, data0: seq<byte>, data: seq<byte>, n: nat) {
    && |data| == |data0|
    && forall a :: n <= a < |data| && !(28 <= a <= 31) && a != 32 + SREG && a != 32 + SPMCSR && !EeCell(part, a) ==>
         data[a] == data0[a]
  }

  /** Nothing but EEPROM and that part of the data space has changed. */
  ghost predicate OnlyEeprom(t: Target, u: Target, n: nat) {
    && KeptOutsideEe(t.part, t.data, u.data, n)
    && u == t.(data := u.data, pc := u.pc, bp := u.bp, ir := u.ir, repeating := u.repeating, transfer := u.transfer,
               eeMaster := u.eeMaster, eeprom := u.eeprom)
  }

  lemma Cells(t: Target)
    requires Sized(t)
    ensures |t.data| >= 96 && 1 <= t.part.eecr && t.part.eecr + 2 < SPMCSR && t.part.eearh < SPMCSR
    ensures !(t.part.eecr <= t.part.dwdr <= t.part.eecr + 2) && !(t.part.eecr <= t.part.eearh <= t.part.eecr + 2)
    ensures (t.part.eearh != 0 ==> t.part.eearh != t.part.dwdr) && t.part.dwdr < SPMCSR
    ensures |t.eeprom| <= 1024 && (t.part.eearh == 0 ==> |t.eeprom| <= 128)
  {
  }

  /** What `out` sees of the device: everything but mode and IR. */
  function Loaded(t: Target, io: nat, reg: nat): Target { t.(repeating := false, ir := InOut(OUT, io, reg)) }

  /** `out` to anything but EECR stores the register. */
  lemma Stores(t: Target, io: nat, reg: nat)
    requires Sized(t) && io < 64 && reg < 32 && io != t.part.eecr
    ensures |t.data| >= 96
    ensures WriteData(Loaded(t, io, reg), 32 + io, t.data[reg])
            == Loaded(t, io, reg).(data := t.data[32 + io := t.data[reg]], eeMaster := false)
  {
    hide InOut;
    Cells(t);
  }

  /** The first strobe. */
  lemma StrobeMaster(t: Target, reg: nat)
    requires Sized(t) && reg < 32 && |t.data| >= 96 && t.data[reg] == EEMWE && t.part.eecr < 64
    ensures WriteData(Loaded(t, t.part.eecr, reg), 32 + t.part.eecr, t.data[reg])
            == Loaded(t, t.part.eecr, reg).(data := t.data[32 + t.part.eecr := 0], eeMaster := true)
  {
    hide InOut, Eear, Supported;
  }

  /** The second one, if nothing came in between. */
  lemma StrobeWrite(t: Target, reg: nat)
    requires Sized(t) && reg < 32 && |t.data| >= 96 && t.data[reg] == EEWE && t.eeMaster && t.part.eecr + 1 < 64
    requires Eear(t) < |t.eeprom|
    ensures WriteData(Loaded(t, t.part.eecr, reg), 32 + t.part.eecr, t.data[reg])
            == Loaded(t, t.part.eecr, reg).(data := t.data[32 + t.part.eecr := 0], eeMaster := false,
                                            eeprom := t.eeprom[Eear(t) := t.data[32 + t.part.eecr + 1]])
  {
    hide InOut, Supported;
    assert Eear(Loaded(t, t.part.eecr, reg)) == Eear(t);
  }

  lemma StrobeRead(t: Target, reg: nat)
    requires Sized(t) && reg < 32 && |t.data| >= 96 && t.data[reg] == EERE && t.part.eecr + 1 < 64
    ensures WriteData(Loaded(t, t.part.eecr, reg), 32 + t.part.eecr, t.data[reg])
            == Loaded(t, t.part.eecr, reg).(data := t.data[32 + t.part.eecr := 0]
                                                          [32 + t.part.eecr + 1 := EepromAt(t, Eear(t))],
                                            eeMaster := false)
  {
    hide InOut, Supported;
    var u := Loaded(t, t.part.eecr, reg);
    assert Eear(u) == Eear(t) && EepromAt(u, Eear(u)) == EepromAt(t, Eear(t));
  }

  predicate AddressCell(part: Part, a: int) {
    a == 32 + part.eecr + 2 || (part.eearh != 0 && a == 32 + part.eearh)
  }

  lemma AddressIs(t: Target, z: nat)
    requires Sized(t) && |t.data| >= 96 && Z(t) == z && t.part.eecr + 2 < 64 && t.part.eearh < 64
    requires t.data[32 + t.part.eecr + 2] == t.data[30]
    requires if t.part.eearh == 0 then z < 256 else t.data[32 + t.part.eearh] == t.data[31]
    ensures Eear(t) == z
  {
    hide Supported;
  }

  /** One `out` to such a register. */
  method StoreRegister(h: Host, io: nat, reg: nat)
    requires h.Valid() && io < 64 && reg < 32 && io != h.part.eecr && io != h.part.dwdr
    modifies h`t
    ensures h.Valid() && !h.t.repeating && Controls(old(h.t).(data := h.t.data), h.t)
    ensures |h.t.data| >= 96 && h.t.data == old(h.t.data)[32 + io := old(h.t.data)[reg]]
  {
    hide Feed, InOut, Supported, WriteData;
    Stores(h.t, io, reg);
    h.DwOut(io, reg);
  }

  /** EEARL and, where there is one, EEARH are set from Z. */
  method SetAddress(h: Host, ghost z: nat)
    requires h.Valid() && Z(h.t) == z && (h.part.eearh == 0 ==> z < 256)
    modifies h`t
    ensures h.Valid() && !h.t.repeating && Controls(old(h.t).(data := h.t.data), h.t)
    ensures Eear(h.t) == z && |h.t.data| == |old(h.t.data)|
    ensures forall i :: 0 <= i < |h.t.data| && !AddressCell(h.part, i) ==> h.t.data[i] == old(h.t.data[i])
  {
    hide Feed, InOut, Supported, Eear;
    Cells(h.t);
    StoreRegister(h, h.part.eecr + 2, 30);
    if h.part.eearh != 0 {
      StoreRegister(h, h.part.eearh, 31);
    }
    AddressIs(h.t, z);
  }

  // ---- writing

  /** k bytes are in EEPROM; r28, r29 and Z are set up for the next. */
  ghost predicate Writing(t0: Target, t: Target, addr: nat, bytes: seq<byte>, k: nat) {
    && Ready(t) && OnlyEeprom(t0, t, 1) && k <= |bytes| && addr + |bytes| <= |t0.eeprom| == |t.eeprom|
    && |t.data| >= 96 && t.data[28] == EEMWE && t.data[29] == EEWE && Z(t) == addr + k
    && t.eeprom == Overlay(t0.eeprom, addr, bytes[..k])
  }

  /** `out EECR,r28; out EECR,r29`: the timed sequence, with nothing in between. */
  method Strobe(h: Host)
    requires h.Valid() && |h.t.data| >= 96 && h.t.data[28] == EEMWE && h.t.data[29] == EEWE && Eear(h.t) < |h.t.eeprom|
    modifies h`t
    ensures h.Valid() && Controls(old(h.t).(data := h.t.data, eeprom := h.t.eeprom), h.t)
    ensures h.t.data == old(h.t.data)[32 + h.part.eecr := 0]
    ensures h.t.eeprom == old(h.t.eeprom)[Eear(old(h.t)) := old(h.t.data)[32 + h.part.eecr + 1]]
  {
    hide Feed, InOut, Supported, WriteData, Eear;
    ghost var t0 := h.t;
    Cells(t0);
    StrobeMaster(t0, 28);
    h.DwOut(h.part.eecr, 28);
    SameEear(t0, h.t);
    StrobeWrite(h.t, 29);
    h.DwOut(h.part.eecr, 29);
    assert h.t.data == t0.data[32 + h.part.eecr := 0];
  }

  /** `out EEDR,r0`, and Z moves on. */
  method DataAndNext(h: Host, ghost z: nat)
    requires h.Valid() && |h.t.data| >= 96 && Z(h.t) == z && z + 1 < 0x10000
    modifies h`t
    ensures h.Valid() && Controls(old(h.t).(data := h.t.data), h.t) && KeptOutsideEe(h.part, old(h.t.data), h.t.data, 0)
    ensures h.t.data[28] == old(h.t.data)[28] && h.t.data[29] == old(h.t.data)[29] && Z(h.t) == z + 1
    ensures Eear(h.t) == Eear(old(h.t)) && h.t.data[32 + h.part.eecr + 1] == old(h.t.data)[0]
    ensures h.t.data[0] == old(h.t.data)[0]
  {
    hide Feed, InOut, Supported, Hi, Lo;
    Cells(h.t);
    StoreRegister(h, h.part.eecr + 1, 0);
    SameZ(old(h.t), h.t);
    AdiwZ(h, 1, z);
  }

  /** Address and data in their registers, and Z moved on. */
  method PrepareCell(h: Host, b: byte, ghost z: nat)
    requires h.Valid() && |h.t.data| >= 96 && Z(h.t) == z && z + 1 < 0x10000 && (h.part.eearh == 0 ==> z < 256)
    modifies h`t
    ensures h.Valid() && Controls(old(h.t).(data := h.t.data), h.t) && KeptOutsideEe(h.part, old(h.t.data), h.t.data, 1)
    ensures h.t.data[28] == old(h.t.data)[28] && h.t.data[29] == old(h.t.data)[29] && Z(h.t) == z + 1
    ensures Eear(h.t) == z && h.t.data[32 + h.part.eecr + 1] == b
  {
    hide Feed, InOut, Supported, Hi, Lo, Eear;
    Cells(h.t);
    SetAddress(h, z);
    ghost var t1 := h.t;
    SetR0(h, b);
    SameZ(old(h.t), h.t);
    SameEear(t1, h.t);
    DataAndNext(h, z);
  }

  lemma SameEear(t: Target, u: Target)
    requires Sized(t) && Sized(u) && u.part == t.part && |u.data| == |t.data|
    requires forall a :: 1 <= a < |t.data| && a != 32 + t.part.eecr ==> u.data[a] == t.data[a]
    ensures Eear(u) == Eear(t)
  {
    Cells(t);
  }

  lemma SameZ(t0: Target, t: Target)
    requires |t0.data| == |t.data| > 31 && t.data[30] == t0.data[30] && t.data[31] == t0.data[31]
    ensures Z(t) == Z(t0)
  {
  }

  /** One byte: address, data, and the timed sequence. */
  method WriteCell(h: Host, b: byte, ghost t0: Target, ghost addr: nat, ghost bytes: seq<byte>, ghost k: nat)
    requires h.Valid() && t0.part == h.part && Writing(t0, h.t, addr, bytes, k) && k < |bytes| && b == bytes[k]
    modifies h`t
    ensures h.Valid() && Writing(t0, h.t, addr, bytes, k + 1)
  {
    hide Feed, InOut, Supported, Overlay, Hi, Lo;
    Cells(h.t);
    PrepareCell(h, b, addr + k);
    OverlayMore(t0.eeprom, addr, bytes, k);
    Strobe(h);
  }

  /** `in r0,DWDR`, and the byte. */
  method SetR0(h: Host, b: byte)
    requires h.Valid()
    modifies h`t
    ensures h.Valid() && |h.t.data| > 0 && h.t.data == old(h.t.data)[0 := b]
    ensures Controls(old(h.t).(data := h.t.data), h.t)
  {
    h.DwSetRegs(0, [b]);
    assert h.t.data == old(h.t.data)[0 := b];
  }

  lemma Restored(t0: Target, t: Target, u: Target, regs: seq<byte>)
    requires |regs| <= 5 && |t0.data| >= 32 && regs == t0.data[..|regs|] && OnlyEeprom(t0, t, |regs|)
    requires Controls(t.(data := u.data), u) && u.data == Overlay(t.data, 0, regs)
    ensures OnlyEeprom(t0, u, 0) && u.eeprom == t.eeprom
  {
  }

  /** DwWriteEEPROM: exactly those bytes; r0 to r27 are as before.  A range beyond the end is refused. */
  method DwWriteEEPROM(h: Host, addr0: nat, bytes: seq<byte>) returns (ok: bool)
    requires h.Valid()
    modifies h`t, h`R
    ensures h.Valid() && h.R[28..] == old(h.R[28..])
    ensures ok <==> addr0 + |bytes| <= h.part.eepromSize
    ensures OnlyEeprom(old(h.t), h.t, 0)
    ensures h.t.eeprom == if ok then Overlay(old(h.t.eeprom), addr0, bytes) else old(h.t.eeprom)
  {
    hide Feed, Overlay, Supported, Hi, Lo;
    ghost var t0 := h.t;
    if addr0 + |bytes| > h.part.eepromSize { return false; }
    Cells(t0);
    var regs := h.DwGetRegs(0, 1);
    h.R := regs + h.R[1..];
    assert h.R[28..] == old(h.R[28..]);
    SetUpWrite(h, addr0, bytes, t0);
    var addr, i := addr0, 0;
    while addr < addr0 + |bytes|
      invariant 0 <= i <= |bytes| && addr == addr0 + i && h.R == regs + old(h.R)[1..]
      invariant h.Valid() && Writing(t0, h.t, addr0, bytes, i)
    {
      WriteCell(h, bytes[i], t0, addr0, bytes, i);
      addr, i := addr + 1, i + 1;
    }
    assert bytes[..i] == bytes;
    ghost var t1 := h.t;
    h.DwSetRegs(0, h.R[..1]);
    Restored(t0, t1, h.t, regs);
    return true;
  }

  /** r28 to r31: the two strobes and the first address, as a block; then single step mode. */
  method SetUpWrite(h: Host, addr: nat, ghost bytes: seq<byte>, ghost t0: Target)
    requires h.Valid() && Controls(t0, h.t) && t0.part == h.part && addr + |bytes| <= |t0.eeprom| <= 1024
    modifies h`t
    ensures h.Valid() && Writing(t0, h.t, addr, bytes, 0)
  {
    hide Feed, Supported, Hi, Lo;
    Cells(h.t);
    WordHalves(addr);
    h.DwSetRegs(28, [EEMWE, EEWE, Lo(addr), Hi(addr)]);
    SingleStep(h);
    assert Overlay(t0.eeprom, addr, bytes[..0]) == t0.eeprom;
  }

  // ---- reading

  /** j cells of a group have been read into r0 to r(j-1). */
  ghost predicate Reading(t0: Target, t: Target, a: nat, j: nat) {
    && Ready(t) && Sized(t0) && OnlyEeprom(t0, t, 5) && t.eeprom == t0.eeprom && j <= 5
    && |t.data| >= 96 && t.data[29] == EERE && Z(t) == a + j
    && forall i :: 0 <= i < j && a + i < |t0.eeprom| ==> t.data[i] == t0.eeprom[a + i]
  }

  /** Address, read strobe, next address: the cell is in EEDR. */
  method LoadCell(h: Host, ghost z: nat)
    requires h.Valid() && |h.t.data| >= 96 && h.t.data[29] == EERE && Z(h.t) == z && z + 1 < 0x10000
    requires h.part.eearh == 0 ==> z < 256
    modifies h`t
    ensures h.Valid() && Controls(old(h.t).(data := h.t.data), h.t) && KeptOutsideEe(h.part, old(h.t.data), h.t.data, 0)
    ensures (forall i :: 0 <= i < 5 ==> h.t.data[i] == old(h.t.data)[i]) && h.t.data[29] == EERE && Z(h.t) == z + 1
    ensures z < |h.t.eeprom| ==> h.t.data[32 + h.part.eecr + 1] == h.t.eeprom[z]
  {
    hide Feed, InOut, Supported, Hi, Lo;
    Cells(h.t);
    SetAddress(h, z);
    Read(h, z);
    SameZ(old(h.t), h.t);
    AdiwZ(h, 1, z);
  }

  /** `out EECR,r29`. */
  method Read(h: Host, ghost z: nat)
    requires h.Valid() && |h.t.data| >= 96 && h.t.data[29] == EERE && Eear(h.t) == z
    modifies h`t
    ensures h.Valid() && Controls(old(h.t).(data := h.t.data), h.t) && !h.t.repeating
    ensures h.t.data == old(h.t.data)[32 + h.part.eecr := 0][32 + h.part.eecr + 1 := EepromAt(old(h.t), z)]
  {
    hide Feed, InOut, Supported, WriteData, EepromAt, Eear;
    Cells(h.t);
    StrobeRead(h.t, 29);
    h.DwOut(h.part.eecr, 29);
  }

  lemma OneMoreRead(t0: Target, t: Target, v: Target, u: Target, a: nat, i: nat)
    requires Reading(t0, t, a, i) && i < 5 && Sized(v) && v.part == t.part
    requires Controls(t.(data := v.data), v) && KeptOutsideEe(t.part, t.data, v.data, 0)
    requires (forall j :: 0 <= j < 5 ==> v.data[j] == t.data[j]) && v.data[29] == EERE && Z(v) == a + i + 1
    requires Ready(u) && Controls(v.(data := u.data), u) && |u.data| == |v.data| && |v.data| >= 96
    requires forall j :: 0 <= j < |u.data| && j != i ==> u.data[j] == v.data[j]
    requires a + i < |t0.eeprom| ==> u.data[i] == t0.eeprom[a + i]
    ensures Reading(t0, u, a, i + 1)
  {
    hide Supported;
  }

  lemma ReadingFacts(t0: Target, t: Target, a: nat, i: nat)
    requires Reading(t0, t, a, i)
    ensures |t.data| >= 96 && t.data[29] == EERE && Z(t) == a + i && t.eeprom == t0.eeprom
  {
    hide OnlyEeprom;
  }

  /** `in ri,EEDR`. */
  method TakeByte(h: Host, i: nat)
    requires h.Valid() && |h.t.data| >= 96 && i < 5
    modifies h`t
    ensures h.Valid() && Controls(old(h.t).(data := h.t.data), h.t)
    ensures h.t.data == old(h.t.data)[i := old(h.t.data)[32 + h.part.eecr + 1]]
  {
    hide InOut, Supported;
    Cells(h.t);
    h.DwIn(i, h.part.eecr + 1);
  }

  /** One of the five cells of a group. */
  method ReadCell(h: Host, i: nat, ghost t0: Target, ghost a: nat)
    requires h.Valid() && t0.part == h.part && Reading(t0, h.t, a, i) && i < 5 && a + i + 1 < 0x10000
    requires h.part.eearh == 0 ==> a + i < 256
    modifies h`t
    ensures h.Valid() && Reading(t0, h.t, a, i + 1)
  {
    hide Supported, Hi, Lo, KeptOutsideEe, Reading, Controls;
    ghost var t := h.t;
    ReadingFacts(t0, t, a, i);
    LoadCell(h, a + i);
    ghost var v := h.t;
    SameEeprom(t, v);
    TakeByte(h, i);
    OneMoreRead(t0, t, v, h.t, a, i);
  }

  lemma SameEeprom(t: Target, v: Target)
    requires Controls(t.(data := v.data), v)
    ensures v.eeprom == t.eeprom
  {
  }

  /** Five cells, whether or not all of them exist. */
  method ReadGroup(h: Host, ghost t0: Target, ghost a: nat) returns (quint: seq<byte>)
    requires h.Valid() && t0.part == h.part && Reading(t0, h.t, a, 0) && a < |t0.eeprom|
    modifies h`t
    ensures h.Valid() && Reading(t0, h.t, a + 5, 0)
    ensures |quint| == 5 && forall i :: 0 <= i < 5 && a + i < |t0.eeprom| ==> quint[i] == t0.eeprom[a + i]
  {
    hide Feed, Supported, Reading;
    Cells(h.t);
    ReadingSame(t0, h.t, h.t.(repeating := false), a, 0);
    SingleStep(h);
    for i := 0 to 5
      invariant h.Valid() && Reading(t0, h.t, a, i)
    {
      ReadCell(h, i, t0, a);
    }
    ghost var t := h.t;
    quint := h.DwGetRegs(0, 5);
    ReadingSame(t0, t, h.t, a, 5);
  }

  /** Between two groups the registers do not matter any more. */
  lemma ReadingSame(t0: Target, t: Target, u: Target, a: nat, j: nat)
    requires Reading(t0, t, a, j) && Controls(t, u) && Ready(u)
    ensures Reading(t0, u, a, j) && Reading(t0, u, a + j, 0)
    ensures |t0.eeprom| == |t.eeprom| && |t.data| >= 96
    ensures forall i :: 0 <= i < j && a + i < |t0.eeprom| ==> t.data[i] == t0.eeprom[a + i]
  {
    hide Supported;
  }

  /** The first r0 to r4 saved, r29 := 1 and Z := address. */
  method SetUpRead(h: Host, addr: nat, ghost t0: Target)
    requires h.Valid() && Controls(t0, h.t) && t0.part == h.part && Sized(t0) && addr < 0x10000
    modifies h`t
    ensures h.Valid() && Reading(t0, h.t, addr, 0)
  {
    hide Feed, Supported, Hi, Lo;
    Cells(h.t);
    WordHalves(addr);
    h.DwSetRegs(29, [EERE, Lo(addr), Hi(addr)]);
  }

  /** DwReadEEPROM: the cells asked for, with r0 to r27 as before and EEPROM unchanged.  Groups of five keep Z and the
      host's address in step; what the last group reads beyond the range is dropped. */
  method DwReadEEPROM(h: Host, addr0: nat, len: nat) returns (ok: bool, buf: seq<byte>)
    requires h.Valid()
    modifies h`t, h`R
    ensures h.Valid() && h.R[28..] == old(h.R[28..])
    ensures ok <==> addr0 + len <= h.part.eepromSize
    ensures OnlyEeprom(old(h.t), h.t, 0) && h.t.eeprom == old(h.t.eeprom)
    ensures ok ==> buf == old(h.t.eeprom)[addr0..addr0 + len]
  {
    hide Feed, Supported, Reading, Overlay;
    ghost var t0 := h.t;
    buf := [];
    var addr, limit := addr0, addr0 + len;
    if limit > h.part.eepromSize { return false, []; }
    Cells(t0);
    var regs := h.DwGetRegs(0, 5);
    h.R := regs + h.R[5..];
    SetUpRead(h, addr, t0);
    while addr < limit
      invariant addr0 <= addr <= limit && h.R == regs + old(h.R)[5..]
      invariant h.Valid() && (Reading(t0, h.t, addr, 0) || (addr == limit && exists a :: Reading(t0, h.t, a, 0)))
      invariant buf == t0.eeprom[addr0..addr]
    {
      var quint := ReadGroup(h, t0, addr);
      ghost var a := addr;
      var i := 0;
      while i < 5 && addr < limit
        invariant 0 <= i <= 5 && addr == a + i <= limit && buf == t0.eeprom[addr0..addr]
      {
        buf := buf + [quint[i]];
        addr, i := addr + 1, i + 1;
      }
      assert Reading(t0, h.t, a + 5, 0);
    }
    ghost var t1 := h.t;
    ReadingOnly(t0, t1);
    h.DwSetRegs(0, h.R[..5]);
    Restored(t0, t1, h.t, regs);
    return true, buf;
  }

  lemma ReadingOnly(t0: Target, t: Target)
    requires exists a :: Reading(t0, t, a, 0)
    ensures OnlyEeprom(t0, t, 5) && t.eeprom == t0.eeprom
  {
  }

  /** What has been written is read back. */
  lemma OverlayReadBack(s: seq<byte>, a: nat, bytes: seq<byte>)
    requires a + |bytes| <= |s|
    ensures Overlay(s, a, bytes)[a..a + |bytes|] == bytes
  {
  }

  /** Both commands, one after the other: every range that exists is read back as it was written. */
  method WriteThenRead(h: Host, addr: nat, bytes: seq<byte>) returns (ok: bool, buf: seq<byte>)
    requires h.Valid()
    modifies h`t, h`R
    ensures h.Valid() && (ok <==> addr + |bytes| <= h.part.eepromSize)
    ensures ok ==> buf == bytes
  {
    hide OnlyEeprom, Overlay;
    if h.t.part.eepromSize >= addr + |bytes| { OverlayReadBack(h.t.eeprom, addr, bytes); }
    buf := [];
    ok := DwWriteEEPROM(h, addr, bytes);
    if ok {
      ok, buf := DwReadEEPROM(h, addr, |bytes|);
    }
  }

  // ---- fuses and lock bits

  /** ReadConfigBits: the byte asked for; flash, EEPROM and r0 to r27 are as before. */
  method ReadConfigBits(h: Host, index: byte) returns (dest: byte)
    requires h.Valid()
    modifies h`t, h`R
    ensures h.Valid() && h.R[28..] == old(h.R[28..])
    ensures dest == h.t.unknown.config(index)
    ensures OnlyEeprom(old(h.t), h.t, 0) && h.t.eeprom == old(h.t.eeprom)
  {
    hide Feed, InOut, Supported, Hi, Lo;
    ghost var t0 := h.t;
    Cells(t0);
    var regs := h.DwGetRegs(0, 1);
    h.R := regs + h.R[1..];
    assert h.R[28..] == old(h.R[28..]);
    SetUpConfig(h, index);
    LoadConfig(h, index);
    var bits := h.DwGetRegs(0, 1);
    dest := bits[0];
    ghost var t1 := h.t;
    h.DwSetRegs(0, h.R[..1]);
    Restored(t0, t1, h.t, regs);
  }

  /** r29 and Z set, and SPMCSR written. */
  method SetUpConfig(h: Host, index: byte)
    requires h.Valid() && |h.t.data| >= 96
    modifies h`t
    ensures h.Valid() && Controls(old(h.t).(data := h.t.data), h.t) && KeptOutsideEe(h.part, old(h.t.data), h.t.data, 0)
    ensures h.t.data[32 + SPMCSR] == BLBSET && Z(h.t) == index
  {
    hide Feed, InOut, Supported, Hi, Lo;
    Cells(h.t);
    h.DwSetRegs(29, [BLBSET, index, 0]);
    assert h.t.data == old(h.t.data)[29 := BLBSET][30 := index][31 := 0];
    SingleStep(h);
    h.DwOut(SPMCSR, 29);
  }

  /** `lpm` with SPMCSR set for it. */
  method LoadConfig(h: Host, ghost index: byte)
    requires h.Valid() && |h.t.data| >= 96 && h.t.data[32 + SPMCSR] == BLBSET && Z(h.t) == index
    modifies h`t
    ensures h.Valid() && h.t.data == old(h.t.data)[0 := h.t.unknown.config(index)]
    ensures Controls(old(h.t).(data := h.t.data), h.t)
  {
    hide Feed, Hi, Lo;
    h.DwInst(LPM);
  }
}

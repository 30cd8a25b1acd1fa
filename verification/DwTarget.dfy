/** The debugWIRE target: the command bytes that the programmer uses, as the protocol notes describe them, over
    registers, data space, flash with its temporary page buffer, and EEPROM. */
module DwTarget {

  import opened Bytes

  /** One row of the table of devices. */
  datatype Part = Part(signature: nat, ioregSize: nat, sramSize: nat, eepromSize: nat, flashSize: nat, dwdr: nat,
                       pageSize: nat, boot: nat, eecr: nat, eearh: nat)

  const SPMCSR: nat := 0x37
  const SREG: nat := 0x3F

  // What the flash and EEPROM routines put into SPMCSR and EECR.
  const SPMEN: byte := 0x01
  const PGERS: byte := 0x03
  const PGWRT: byte := 0x05
  const RWWSRE: byte := 0x11
  const BLBSET: byte := 0x09
  const EERE: byte := 1
  const EEWE: byte := 2
  const EEMWE: byte := 4

  const SPM: nat := 0x95E8
  const LPM: nat := 0x95C8
  const ADIW_Z_1: nat := 0x9631
  const ADIW_Z_2: nat := 0x9632

  /** The flag that goes with the high byte of an address on parts with less than 8192 bytes of flash. */
  function AddrFlag(part: Part): nat { if part.flashSize < 8192 then 0x10 else 0 }

  /** The programmer's assumptions about a part. */
  predicate Supported(part: Part) {
    && (part.ioregSize == 64 || part.ioregSize == 224) && part.sramSize <= 2048
    && part.pageSize in {16, 32, 64, 128}
    && 1024 <= part.flashSize <= 32768 && part.flashSize % part.pageSize == 0
    && part.boot + 128 <= part.flashSize / 2
    && (AddrFlag(part) != 0 ==> part.flashSize / 2 <= 0x800)
    && 1 <= part.eepromSize <= 1024 && (part.eearh == 0 ==> part.eepromSize <= 128)
    && part.dwdr <= 0x31 && part.eecr + 2 < SPMCSR && part.eearh < SPMCSR
    && !(part.eecr <= part.dwdr <= part.eecr + 2) && !(part.eecr <= part.eearh <= part.eecr + 2)
    && part.eearh != part.dwdr && part.eecr >= 1
  }

  /** What the target waits for: a command, its operands, or data. */
  datatype Wait =
    | Command
    | HighByte(op: byte)
    | LowByte(op: byte, high: byte)
    | Transfer
    | Dwdr(reg: nat)
    | BlockWrite(next: nat, last: nat)
    | Store

  /** What the documentation leaves open: what unreadable flash is read as, of EEPROM beyond its end, the fuse and lock
      bytes, and how often a busy SPMCSR is seen. */
  datatype Unknown = Unknown(blocked: nat -> byte, beyond: nat -> byte, config: nat -> byte, delay: nat)

  datatype Target = Target(part: Part, unknown: Unknown,
                           data: seq<byte>,          // r0..r31, I/O registers, SRAM
                           pc: nat, bp: nat, ir: nat,
                           repeating: bool,          // 0x66 rather than 0x64
                           transfer: byte,           // set by 0xC2
                           flash: seq<byte>, eeprom: seq<byte>,
                           temp: seq<byte>,          // the temporary page buffer
                           loaded: seq<bool>,        // which of its words have been loaded
                           rwwBusy: bool,            // the read-while-write section cannot be read
                           busy: nat,                // polls until programming is seen to be done
                           eeMaster: bool,           // the last instruction set EEMWE
                           erases: nat, programs: nat,
                           wait: Wait, out: seq<byte>,
                           fault: bool)              // something was asked for that is not documented to work

  // ---- words and bytes

  function Hi(w: int): byte { (w / 256) % 256 }
  function Lo(w: int): byte { w % 256 }
  function Word(high: byte, low: byte): nat { 256 * high + low }

  function Z(t: Target): nat
    requires |t.data| > 31
  {
    Word(t.data[31], t.data[30])
  }

  function WithZ(t: Target, z: nat): Target
    requires |t.data| > 31
  {
    t.(data := t.data[30 := Lo(z)][31 := Hi(z)])
  }

  /** Bitwise and, digit by digit. */
  function And(a: byte, b: byte): (c: byte)
    ensures c <= a && c <= b
    decreases a
  {
    if a == 0 then 0 else 2 * And(a / 2, b / 2) + (if a % 2 == 1 && b % 2 == 1 then 1 else 0)
  }

  function AndAll(a: seq<byte>, b: seq<byte>): (c: seq<byte>)
    requires |a| == |b|
    ensures |c| == |a|
  {
    seq(|a|, i requires 0 <= i < |a| => And(a[i], b[i]))
  }

  function Repeat(b: byte, n: nat): (s: seq<byte>)
    ensures |s| == n && forall i :: 0 <= i < n ==> s[i] == b
  {
    seq(n, _ => b)
  }

  /** s with the bytes from a on replaced. */
  function Overlay(s: seq<byte>, a: nat, bytes: seq<byte>): (r: seq<byte>)
    requires a + |bytes| <= |s|
    ensures |r| == |s|
  {
    s[..a] + bytes + s[a + |bytes|..]
  }

  // ---- instructions

  /** `in reg, io` and `out io, reg`: the address bits 4 and 5 move up to bits 9 and 10. */
  function InOut(base: nat, io: nat, reg: nat): nat {
    base + (io / 16 % 4) * 0x200 + (reg % 32) * 16 + io % 16
  }

  const IN: nat := 0xB000
  const OUT: nat := 0xB800

  function IoOf(ir: nat): nat { (ir / 0x200 % 4) * 16 + ir % 16 }
  function RegOf(ir: nat): nat { ir / 16 % 32 }

  lemma FieldsDecode(base: nat, h: nat, l: nat, reg: nat)
    requires (base == IN || base == OUT) && h < 4 && l < 16 && reg < 32
    ensures var i := base + h * 0x200 + reg * 16 + l;
            && i / 0x800 == base / 0x800 && i / 0x200 % 4 == h && i / 16 % 32 == reg && i % 16 == l && i < 0x10000
  {
    var i := base + h * 0x200 + reg * 16 + l;
    var high := base / 0x200 + h;
    assert i == 0x200 * high + (16 * reg + l) && i / 0x200 == high;
    assert i == 16 * (32 * high + reg) + l && i / 16 == 32 * high + reg && i % 16 == l;
  }

  /** Decoding undoes encoding. */
  lemma InOutDecodes(base: nat, io: nat, reg: nat)
    requires (base == IN || base == OUT) && io < 64 && reg < 32
    ensures InOut(base, io, reg) / 0x800 == base / 0x800
    ensures IoOf(InOut(base, io, reg)) == io && RegOf(InOut(base, io, reg)) == reg
    ensures InOut(base, io, reg) < 0x10000
  {
    var h, l := io / 16, io % 16;
    assert h < 4 && io == 16 * h + l && h % 4 == h && reg % 32 == reg;
    assert InOut(base, io, reg) == base + h * 0x200 + reg * 16 + l;
    hide InOut;
    FieldsDecode(base, h, l, reg);
  }

  predicate Sized(t: Target) {
    && Supported(t.part)
    && |t.data| == 32 + t.part.ioregSize + t.part.sramSize
    && |t.flash| == t.part.flashSize && |t.eeprom| == t.part.eepromSize
    && |t.temp| == t.part.pageSize && |t.loaded| == t.part.pageSize / 2
  }

  /** The EEPROM address: parts without EEARH have one byte of it. */
  function Eear(t: Target): nat
    requires Sized(t)
  {
    Word(if t.part.eearh == 0 then 0 else t.data[32 + t.part.eearh], t.data[32 + t.part.eecr + 2])
  }

  function EepromAt(t: Target, a: nat): byte
    requires Sized(t)
  {
    if a < |t.eeprom| then t.eeprom[a] else t.unknown.beyond(a)
  }

  /** What stays in EECR of a byte stored to it: the strobes clear themselves, and there are no bits 6 and 7. */
  function Kept(v: byte): byte { v / 8 % 8 * 8 }

  /** Writing EECR: no strobe, a read strobe, or one of the two halves of a timed write. */
  function WriteEecr(t: Target, v: byte): (t': Target)
    requires Sized(t)
    ensures Sized(t') && t'.part == t.part && (t.fault ==> t'.fault)
  {
    var eecr, eedr := 32 + t.part.eecr, 32 + t.part.eecr + 1;
    var data := t.data[eecr := Kept(v)];
    if v % 8 == 0 then t.(data := data, eeMaster := false)
    else if v % 8 == EERE then t.(data := data[eedr := EepromAt(t, Eear(t))], eeMaster := false)
    else if v % 8 == EEMWE then t.(data := data, eeMaster := true)
    else if v == EEWE && t.eeMaster && Eear(t) < |t.eeprom| then
      t.(data := data, eeprom := t.eeprom[Eear(t) := t.data[eedr]], eeMaster := false)
    else t.(fault := true)
  }

  /** A store into the data space. */
  function WriteData(t: Target, a: nat, v: byte): (t': Target)
    requires Sized(t) && a < |t.data|
    ensures Sized(t') && t'.part == t.part && (t.fault ==> t'.fault)
  {
    if a == 32 + t.part.eecr then WriteEecr(t, v) else t.(data := t.data[a := v], eeMaster := false)
  }

  /** SPMCSR as the program sees it: the operation stays visible until it is over. */
  function ReadIo(t: Target, io: nat): byte
    requires Sized(t) && io < 64
  {
    if io == SPMCSR && t.busy == 0 then 0 else t.data[32 + io]
  }

  function PageBase(t: Target, a: nat): nat
    requires t.part.pageSize > 0
  {
    a - a % t.part.pageSize
  }

  function ClearTemp(t: Target): (t': Target)
    requires Sized(t)
    ensures Sized(t') && t'.part == t.part && (t.fault ==> t'.fault)
  {
    t.(temp := Repeat(0xff, |t.temp|), loaded := seq(|t.loaded|, _ => false))
  }

  /** A word of the temporary buffer can be loaded once. */
  function LoadWord(t: Target, k: nat): (t': Target)
    requires Sized(t)
    ensures Sized(t') && t'.part == t.part && (t.fault ==> t'.fault)
  {
    if 2 * k + 2 > |t.temp| || t.loaded[k] then t.(fault := true)
    else t.(temp := Overlay(t.temp, 2 * k, t.data[..2]), loaded := t.loaded[k := true])
  }

  function ErasePage(t: Target, base: nat): (t': Target)
    requires Sized(t) && base + t.part.pageSize <= |t.flash|
    ensures Sized(t') && t'.part == t.part && (t.fault ==> t'.fault)
  {
    t.(flash := Overlay(t.flash, base, Repeat(0xff, t.part.pageSize)), rwwBusy := t.part.boot > 0,
       erases := t.erases + 1)
  }

  /** Programming only clears bits. */
  function ProgramPage(t: Target, base: nat): (t': Target)
    requires Sized(t) && base + t.part.pageSize <= |t.flash|
    ensures Sized(t') && t'.part == t.part && (t.fault ==> t'.fault)
  {
    ClearTemp(t.(flash := Overlay(t.flash, base, AndAll(t.flash[base..base + t.part.pageSize], t.temp)),
                 rwwBusy := t.part.boot > 0, programs := t.programs + 1, busy := t.unknown.delay))
  }

  /** spm: what happens depends on SPMCSR.  It only works from the boot section, where there is one. */
  function DoSpm(t: Target): (t': Target)
    requires Sized(t)
    ensures Sized(t') && t'.part == t.part && (t.fault ==> t'.fault)
  {
    var z, op := Z(t), t.data[32 + SPMCSR];
    var base := PageBase(t, z);
    if t.pc < t.part.boot || t.pc >= t.part.flashSize / 2 then t.(fault := true)
    else if op == RWWSRE then ClearTemp(t.(rwwBusy := false))
    else if z % 2 == 1 || base + t.part.pageSize > |t.flash| then t.(fault := true)
    else if op == SPMEN then LoadWord(t, z % t.part.pageSize / 2)
    else if op == PGERS then ErasePage(t, base)
    else if op == PGWRT then ProgramPage(t, base)
    else t.(fault := true)
  }

  /** lpm, into r0: flash, or a fuse or lock byte if SPMCSR asks for it. */
  function FlashAt(t: Target, z: nat): byte
    requires Sized(t)
  {
    if z >= |t.flash| || t.rwwBusy then t.unknown.blocked(z) else t.flash[z]
  }

  function DoLpm(t: Target): (t': Target)
    requires Sized(t)
    ensures Sized(t') && t'.part == t.part && (t.fault ==> t'.fault)
  {
    t.(data := t.data[0 := if t.data[32 + SPMCSR] == BLBSET then t.unknown.config(Z(t)) else FlashAt(t, Z(t))])
  }

  /** The flags of a word addition; I, T and H are kept. */
  function AddFlags(sreg: byte, z: nat, sum: nat): byte {
    var c, v, n := sum >= 0x10000, sum >= 0x8000 && z < 0x8000, sum % 0x10000 >= 0x8000;
    (sreg / 0x20) * 0x20 + (if n != v then 0x10 else 0) + (if v then 8 else 0) + (if n then 4 else 0)
    + (if sum % 0x10000 == 0 then 2 else 0) + (if c then 1 else 0)
  }

  function DoAdiwZ(t: Target, k: nat): (t': Target)
    requires Sized(t)
    ensures Sized(t') && t'.part == t.part && (t.fault ==> t'.fault)
  {
    var sreg := AddFlags(t.data[32 + SREG], Z(t), Z(t) + k);
    WithZ(t.(data := t.data[32 + SREG := sreg]), (Z(t) + k) % 0x10000)
  }

  function Step(t: Target): (t': Target)
    requires Sized(t)
    ensures Sized(t') && t'.part == t.part && (t.fault ==> t'.fault)
  {
    t.(pc := t.pc + 1)
  }

  /** `in reg, io`; from DWDR it waits for a byte from the host. */
  function DoIn(t: Target, io: nat, reg: nat): (t': Target)
    requires Sized(t) && io < 64 && reg < 32
    ensures Sized(t') && t'.part == t.part && (t.fault ==> t'.fault)
  {
    if io == t.part.dwdr then t.(wait := Dwdr(reg))
    else Step(t.(data := t.data[reg := ReadIo(t, io)], eeMaster := false,
                 busy := if io == SPMCSR && t.busy > 0 then t.busy - 1 else t.busy))
  }

  /** `out io, reg`; to DWDR it sends the byte to the host. */
  function DoOut(t: Target, io: nat, reg: nat): (t': Target)
    requires Sized(t) && io < 64 && reg < 32
    ensures Sized(t') && t'.part == t.part && (t.fault ==> t'.fault)
  {
    if io == t.part.dwdr then Step(t.(out := t.out + [t.data[reg]], eeMaster := false))
    else Step(WriteData(t, 32 + io, t.data[reg]))
  }

  /** The instruction in IR, executed once. */
  function Execute(t: Target): (t': Target)
    requires Sized(t)
    ensures Sized(t') && t'.part == t.part && (t.fault ==> t'.fault)
  {
    var reg, io := RegOf(t.ir), IoOf(t.ir);
    if t.ir / 0x800 == IN / 0x800 then DoIn(t, io, reg)
    else if t.ir / 0x800 == OUT / 0x800 then DoOut(t, io, reg)
    else if t.ir == SPM then Step(DoSpm(t).(eeMaster := false))
    else if t.ir == LPM then Step(DoLpm(t).(eeMaster := false))
    else if t.ir == ADIW_Z_1 then Step(DoAdiwZ(t, 1).(eeMaster := false))
    else if t.ir == ADIW_Z_2 then Step(DoAdiwZ(t, 2).(eeMaster := false))
    else t.(fault := true)
  }

  // ---- repeating transfers

  /** Reads through Z may not touch Z itself or DWDR. */
  predicate SafeRange(part: Part, a: nat, n: nat) {
    !(a <= 30 < a + n) && !(a <= 31 < a + n) && !(a <= 32 + part.dwdr < a + n)
  }

  function ReadRegs(t: Target): (t': Target)
    requires Sized(t) && t.pc < t.bp <= 32
    ensures Sized(t') && t'.part == t.part && (t.fault ==> t'.fault)
  {
    t.(out := t.out + t.data[t.pc..t.bp], pc := t.bp)
  }

  function ReadData(t: Target, n: nat): (t': Target)
    requires Sized(t)
    ensures Sized(t') && t'.part == t.part && (t.fault ==> t'.fault)
  {
    if Z(t) + n > |t.data| || !SafeRange(t.part, Z(t), n) then t.(fault := true)
    else WithZ(t.(out := t.out + t.data[Z(t)..Z(t) + n], pc := t.bp), Z(t) + n)
  }

  function FlashRun(t: Target, z: nat, n: nat): (s: seq<byte>)
    requires Sized(t)
    ensures |s| == n && forall i :: 0 <= i < n ==> s[i] == FlashAt(t, z + i)
  {
    seq<byte>(n, i requires 0 <= i < n => FlashAt(t, z + i))
  }

  function ReadFlash(t: Target, n: nat): (t': Target)
    requires Sized(t)
    ensures Sized(t') && t'.part == t.part && (t.fault ==> t'.fault)
  {
    if t.pc < t.part.boot || t.bp > t.part.flashSize / 2 then t.(fault := true)
    else WithZ(t.(out := t.out + FlashRun(t, Z(t), n), pc := t.bp), Z(t) + n)
  }

  /** 0x20 with everything set up.  Each byte through Z takes two instructions. */
  function Go(t: Target): (t': Target)
    requires Sized(t)
    ensures Sized(t') && t'.part == t.part && (t.fault ==> t'.fault)
  {
    if !t.repeating || t.bp <= t.pc then t.(fault := true)
    else if t.transfer == 1 && t.bp <= 32 then ReadRegs(t)
    else if t.transfer == 5 && t.bp <= 32 then t.(wait := BlockWrite(t.pc, t.bp))
    else if t.transfer == 0 then ReadData(t, (t.bp - t.pc) / 2)
    else if t.transfer == 2 then ReadFlash(t, (t.bp - t.pc) / 2)
    else if t.transfer == 4 && t.bp == t.pc + 2 then t.(wait := Store)
    else t.(fault := true)
  }

  function BlockByte(t: Target, next: nat, last: nat, b: byte): (t': Target)
    requires Sized(t)
    ensures Sized(t') && t'.part == t.part && (t.fault ==> t'.fault)
  {
    if next >= 32 then t.(fault := true) else
    var u := t.(data := t.data[next := b]);
    if next + 1 < last then u.(wait := BlockWrite(next + 1, last)) else u.(wait := Command, pc := last)
  }

  function StoreByte(t: Target, b: byte): (t': Target)
    requires Sized(t)
    ensures Sized(t') && t'.part == t.part && (t.fault ==> t'.fault)
  {
    if Z(t) >= |t.data| then t.(fault := true) else
    var u := WriteData(t, Z(t), b).(wait := Command, pc := t.bp);
    WithZ(u, (Z(u) + 1) % 0x10000)
  }

  function DwdrByte(t: Target, reg: nat, b: byte): (t': Target)
    requires Sized(t)
    ensures Sized(t') && t'.part == t.part && (t.fault ==> t'.fault)
  {
    if reg >= 32 then t.(fault := true)
    else Step(t.(data := t.data[reg := b], wait := Command, eeMaster := false))
  }

  // ---- the command interpreter

  function Address(part: Part, w: nat): nat { if AddrFlag(part) != 0 then w % 0x1000 else w }

  function SetWord(t: Target, op: byte, w: nat): (t': Target)
    requires Sized(t)
    ensures Sized(t') && t'.part == t.part && (t.fault ==> t'.fault)
  {
    if op == 0xD0 then t.(pc := Address(t.part, w))
    else if op == 0xD1 then t.(bp := Address(t.part, w))
    else t.(ir := w)
  }

  function OnCommand(t: Target, b: byte): (t': Target)
    requires Sized(t)
    ensures Sized(t') && t'.part == t.part && (t.fault ==> t'.fault)
  {
    if b == 0x64 then t.(repeating := false)
    else if b == 0x66 then t.(repeating := true)
    else if b == 0xD0 || b == 0xD1 || b == 0xD2 then t.(wait := HighByte(b))
    else if b == 0xC2 then t.(wait := Transfer)
    else if b == 0x20 then Go(t)
    else if b == 0x23 && !t.repeating then Execute(t)
    else if b == 0x33 && !t.repeating then Execute(t).(busy := 0)
    else t.(fault := true)
  }

  /** Waiting for something else. */
  function Await(t: Target, wait: Wait): (t': Target)
    requires Sized(t)
    ensures Sized(t') && t'.part == t.part && (t.fault ==> t'.fault)
  {
    t.(wait := wait)
  }

  function OnByte(t: Target, b: byte): (t': Target)
    requires Sized(t)
    ensures Sized(t') && t'.part == t.part && (t.fault ==> t'.fault)
  {
    match t.wait
    case Command => OnCommand(t, b)
    case HighByte(op) => Await(t, LowByte(op, b))
    case LowByte(op, high) => Await(SetWord(t, op, Word(high, b)), Command)
    case Transfer => Await(t.(transfer := b), Command)
    case Dwdr(reg) => DwdrByte(t, reg, b)
    case BlockWrite(next, last) => BlockByte(t, next, last, b)
    case Store => StoreByte(t, b)
  }

  /** A run of bytes from the host. */
  function Feed(t: Target, bytes: seq<byte>): (t': Target)
    requires Sized(t)
    ensures Sized(t') && t'.part == t.part && (t.fault ==> t'.fault)
    decreases |bytes|
  {
    if bytes == [] then t else
    Feed(OnByte(t, bytes[0]), bytes[1..])
  }
}

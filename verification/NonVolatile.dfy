/** Flash through debugWIRE: reading, erasing, loading and programming pages, and WriteFlash itself. */
module NonVolatile {
  import opened Bytes
  import opened DwTarget
  import opened DwPort
  import opened FlashPages
  import opened FlashWrite

  /** The data space is the same but for r0 up to r(n-1), the cached registers, and the cells that the instructions used
      here change by themselves. */
  ghost predicate Kept(data0: seq<byte>, data: seq<byte>, n: nat) {
    && |data| == |data0|
    && forall a :: n <= a < |data| && !(28 <= a <= 31) && a != 32 + SPMCSR && a != 32 + SREG ==> data[a] == data0[a]
  }

  /** Nothing but flash, its page buffer and that part of the data space has changed. */
  ghost predicate OnlyFlash(t: Target, u: Target, n: nat) {
    && Kept(t.data, u.data, n)
    && u == t.(data := u.data, pc := u.pc, bp := u.bp, ir := u.ir, repeating := u.repeating, transfer := u.transfer,
               eeMaster := u.eeMaster, flash := u.flash, temp := u.temp, loaded := u.loaded, rwwBusy := u.rwwBusy,
               busy := u.busy, erases := u.erases, programs := u.programs)
  }

  /** No word loaded yet. */
  ghost predicate TempEmpty(t: Target) {
    && (forall i :: 0 <= i < |t.temp| ==> t.temp[i] == 0xff)
    && (forall i :: 0 <= i < |t.loaded| ==> !t.loaded[i])
  }

  /** Between two flash operations. */
  ghost predicate Calm(t: Target) {
    Ready(t) && TempEmpty(t) && t.busy == 0 && (t.part.boot == 0 ==> !t.rwwBusy)
  }

  lemma SpmExecutes(t: Target)
    requires Sized(t) && t.ir == SPM
    ensures Execute(t) == Step(DoSpm(t).(eeMaster := false))
  {
  }

  /** The three registers that a flash operation is set up with. */
  method SetOperation(h: Host, op: byte, a: nat)
    requires h.Valid() && a < 0x10000
    modifies h`t
    ensures h.Valid() && Controls(old(h.t).(data := h.t.data), h.t) && !h.t.repeating
    ensures h.t.data == old(h.t.data)[29 := op][30 := Lo(a)][31 := Hi(a)]
    ensures h.t.data[29] == op && Z(h.t) == a
  {
    h.DwSetRegs(29, [op, Lo(a), Hi(a)]);
    assert h.t.data == old(h.t.data)[29 := op][30 := Lo(a)][31 := Hi(a)];
  }

  /** `out SPMCSR,r29`. */
  method SelectOperation(h: Host)
    requires h.Valid()
    modifies h`t
    ensures h.Valid() && h.t.data == old(h.t.data)[32 + SPMCSR := old(h.t.data[29])]
    ensures Controls(old(h.t).(data := h.t.data), h.t) && !h.t.repeating && h.t.pc == old(h.t.pc) + 1
  {
    hide InOut;
    h.DwOut(SPMCSR, 29);
  }

  lemma FeedSlow(t: Target)
    requires Sized(t) && t.wait == Command && !t.repeating
    ensures Feed(t, [0xD2, 0x95, 0xE8, 0x33]) == Execute(t.(ir := SPM)).(busy := 0)
  {
    hide Feed, Execute;
    FeedConcat(t, [0xD2, 0x95, 0xE8], [0x33]);
    assert [0xD2, 0x95, 0xE8] + [0x33] == [0xD2, 0x95, 0xE8, 0x33];
    FeedWord(t, 0xD2, 0x95, 0xE8);
    FeedOne(t.(ir := SPM), 0x33);
  }

  function AfterSpm(t: Target): Target
    requires Sized(t)
  {
    Step(DoSpm(t.(repeating := false, ir := SPM)).(eeMaster := false))
  }

  /** `spm`. */
  method StoreProgramMemory(h: Host)
    requires h.Valid()
    modifies h`t
    ensures h.t == AfterSpm(old(h.t))
  {
    hide Feed, DoSpm;
    SpmExecutes(h.t.(repeating := false, ir := SPM));
    h.DwInst(SPM);
  }

  /** `spm` in the form that waits for the end of the operation, and the synchronisation behind it. */
  method StoreAndWait(h: Host)
    requires h.Valid() && !h.t.repeating
    modifies h`t
    ensures h.t == AfterSpm(old(h.t)).(busy := 0)
  {
    hide Feed, DoSpm;
    SpmExecutes(h.t.(repeating := false, ir := SPM));
    FeedSlow(h.t);
    h.DwSend([0xD2, 0x95, 0xE8, 0x33]);
  }

  /** The address is the first of a page of the device. */
  predicate PageAt(part: Part, a: int) {
    0 <= a && part.pageSize > 0 && a % part.pageSize == 0 && a + part.pageSize <= part.flashSize
  }

  lemma SpmErases(t: Target, a: nat)
    requires Sized(t) && PageAt(t.part, a) && Z(t) == a && t.data[32 + SPMCSR] == PGERS
    requires t.part.boot <= t.pc < t.part.flashSize / 2
    ensures DoSpm(t) == ErasePage(t, a)
  {
    hide ErasePage;
    PageIsEven(a, t.part.pageSize);
  }

  /** Everything an `spm` needs: operation and address in registers, the PC in the boot section, SPMCSR written. */
  method SetUpSpm(h: Host, op: byte, a: nat)
    requires h.Valid() && PageAt(h.part, a)
    modifies h`t
    ensures h.Valid() && Controls(old(h.t).(data := h.t.data), h.t) && Kept(old(h.t.data), h.t.data, 0)
    ensures |h.t.data| >= 96 && h.t.data[32 + SPMCSR] == op && Z(h.t) == a && !h.t.repeating
    ensures h.part.boot <= h.t.pc < h.part.flashSize / 2
  {
    hide Feed, Hi, Lo, Supported;
    BootRun(h.part);
    IoFits(h.t);
    SetOperation(h, op, a);
    h.DwSetPC(h.part.boot);
    SingleStep(h);
    SelectOperation(h);
  }

  lemma IoFits(t: Target)
    requires Sized(t)
    ensures |t.data| >= 96
  {
  }

  /** EraseFlashPage: exactly that page, and nothing else in flash. */
  method EraseFlashPage(h: Host, a: nat)
    requires h.Valid() && Calm(h.t) && PageAt(h.part, a)
    modifies h`t
    ensures h.Valid() && Calm(h.t) && OnlyFlash(old(h.t), h.t, 0)
    ensures h.t.flash == Overlay(old(h.t.flash), a, Repeat(0xff, h.part.pageSize))
    ensures h.t.erases == old(h.t.erases) + 1 && h.t.programs == old(h.t.programs)
    ensures h.t.rwwBusy == (h.part.boot > 0)
  {
    hide Feed, DoSpm, Hi, Lo, Overlay, Supported;
    SetUpSpm(h, PGERS, a);
    SpmErases(h.t.(ir := SPM), a);
    StoreAndWait(h);
  }

  /** From the lowest boot section address there is room for a block of 64 bytes, within the address space. */
  lemma BootRun(part: Part)
    requires Supported(part)
    ensures part.boot + 128 <= part.flashSize / 2
    ensures Addressable(part, part.boot) && Addressable(part, part.boot + 128)
    ensures part.flashSize < 0x10000
  {
  }

  /** RenableRWW. */
  method RenableRWW(h: Host)
    requires h.Valid() && Calm(h.t)
    modifies h`t
    ensures h.Valid() && Calm(h.t) && !h.t.rwwBusy && OnlyFlash(old(h.t), h.t, 0)
    ensures h.t.flash == old(h.t.flash) && h.t.erases == old(h.t.erases) && h.t.programs == old(h.t.programs)
  {
    hide Feed, Hi, Lo;
    if h.part.boot > 0 {
      BootRun(h.part);
      h.DwSetPC(h.part.boot);
      h.DwSetReg(29, RWWSRE);
      SelectOperation(h);
      StoreProgramMemory(h);
    }
  }

  // ---- loading the page buffer

  /** The first n words are loaded. */
  ghost predicate Loaded(t: Target, buf: seq<byte>, n: nat) {
    && |buf| == |t.temp| == t.part.pageSize && 2 * n <= |buf| && |t.loaded| == t.part.pageSize / 2
    && (forall i :: 0 <= i < 2 * n ==> t.temp[i] == buf[i])
    && (forall i :: 2 * n <= i < |buf| ==> t.temp[i] == 0xff)
    && (forall i :: 0 <= i < |t.loaded| ==> (t.loaded[i] <==> i < n))
  }

  lemma WordInPage(a: nat, ps: nat, k: nat)
    requires ps in {16, 32, 64, 128} && a % ps == 0 && 2 * k < ps
    ensures (a + 2 * k) % ps == 2 * k
  {
  }

  /** Where the word at Z belongs. */
  lemma WordAt(t: Target, a: nat, n: nat)
    requires Sized(t) && PageAt(t.part, a) && 2 * n < t.part.pageSize && Z(t) == a + 2 * n
    ensures Z(t) % 2 == 0 && PageBase(t, Z(t)) == a && a + t.part.pageSize <= |t.flash|
    ensures Z(t) % t.part.pageSize / 2 == n
  {
    WordInPage(a, t.part.pageSize, n);
    PageIsEven(a, t.part.pageSize);
    EvenSum(a, n);
  }

  lemma EvenSum(a: nat, n: nat)
    requires a % 2 == 0
    ensures (a + 2 * n) % 2 == 0
  {
  }

  lemma SpmLoads(t: Target, a: nat, n: nat)
    requires Sized(t) && PageAt(t.part, a) && 2 * n < t.part.pageSize && Z(t) == a + 2 * n
    requires t.data[32 + SPMCSR] == SPMEN && t.part.boot <= t.pc < t.part.flashSize / 2
    ensures DoSpm(t) == LoadWord(t, n)
  {
    hide LoadWord, ErasePage, ProgramPage, ClearTemp, PageBase, PageAt, Z;
    WordAt(t, a, n);
  }

  lemma PageIsEven(a: nat, ps: nat)
    requires ps in {16, 32, 64, 128} && a % ps == 0
    ensures a % 2 == 0
  {
  }

  lemma LoadedMore(t: Target, buf: seq<byte>, n: nat)
    requires Sized(t) && Loaded(t, buf, n) && 2 * n < |buf| && t.data[0] == buf[2 * n] && t.data[1] == buf[2 * n + 1]
    ensures Loaded(LoadWord(t, n), buf, n + 1) && LoadWord(t, n).fault == t.fault
    ensures LoadWord(t, n) == t.(temp := LoadWord(t, n).temp, loaded := LoadWord(t, n).loaded)
  {
  }

  /** In the loop of LoadPageBuffer: n words loaded, r29 set up, and Z as given. */
  ghost predicate Loading(t0: Target, t: Target, a: nat, buf: seq<byte>, n: nat, z: nat) {
    && Ready(t) && OnlyFlash(t0, t, 2) && Loaded(t, buf, n)
    && t.data[29] == SPMEN && Z(t) == z && PageAt(t.part, a)
    && t.flash == t0.flash && t.rwwBusy == t0.rwwBusy && t.busy == t0.busy
    && t.erases == t0.erases && t.programs == t0.programs
  }

  /** One word: r0 and r1, then SPMCSR and spm in the boot section, then Z moves on. */
  method LoadOneWord(h: Host, a: nat, buf: seq<byte>, n: nat, ghost t0: Target)
    requires h.Valid() && t0.part == h.part && Loading(t0, h.t, a, buf, n, a + 2 * n) && 2 * n < |buf|
    modifies h`t
    ensures h.Valid() && Loading(t0, h.t, a, buf, n + 1, a + 2 * n + 2)
  {
    hide Supported, Hi, Lo, AddFlags, Loaded;
    PageSizes(h.t, a, buf, n);
    StoreWord(h, a, buf, n, t0);
    ghost var loaded := h.t;
    AdiwZ(h, 2, a + 2 * n);
    LoadedSame(loaded, h.t, buf, n + 1);
  }

  method StoreWord(h: Host, a: nat, buf: seq<byte>, n: nat, ghost t0: Target)
    requires h.Valid() && t0.part == h.part && Loading(t0, h.t, a, buf, n, a + 2 * n) && 2 * n < |buf|
    modifies h`t
    ensures h.Valid() && Loading(t0, h.t, a, buf, n + 1, a + 2 * n)
  {
    hide Feed, DoSpm, LoadWord, Loaded, Supported, Hi, Lo;
    var was := h.t;
    PageSizes(h.t, a, buf, n);
    h.DwSetRegs(0, [buf[2 * n], buf[2 * n + 1]]);
    assert h.t.data == was.data[0 := buf[2 * n]][1 := buf[2 * n + 1]];
    BootRun(h.part);
    h.DwSetPC(h.part.boot);
    SelectOperation(h);
    ghost var ready := h.t.(repeating := false, ir := SPM);
    SpmLoads(ready, a, n);
    LoadedSame(was, ready, buf, n);
    LoadedMore(ready, buf, n);
    StoreProgramMemory(h);
    LoadedSame(LoadWord(ready, n), h.t, buf, n + 1);
  }

  lemma LoadedSame(t: Target, u: Target, buf: seq<byte>, n: nat)
    requires Loaded(t, buf, n) && u.temp == t.temp && u.loaded == t.loaded && u.part == t.part
    ensures Loaded(u, buf, n)
  {
  }

  lemma PageSizes(t: Target, a: nat, buf: seq<byte>, n: nat)
    requires Sized(t) && Loaded(t, buf, n) && 2 * n < |buf| && PageAt(t.part, a)
    ensures 2 * n + 1 < |buf| == t.part.pageSize && a + |buf| < 0x10000 && |t.data| >= 96
  {
  }

  /** LoadPageBuffer: every word of the page, each once. */
  method LoadPageBuffer(h: Host, a: nat, buf: seq<byte>)
    requires h.Valid() && Calm(h.t) && PageAt(h.part, a) && |buf| == h.part.pageSize
    modifies h`t
    ensures h.Valid() && OnlyFlash(old(h.t), h.t, 2) && h.t.temp == buf
    ensures h.t.flash == old(h.t.flash) && h.t.rwwBusy == old(h.t.rwwBusy) && h.t.busy == 0
    ensures h.t.erases == old(h.t.erases) && h.t.programs == old(h.t.programs)
  {
    hide Feed, Hi, Lo, Supported;
    BootRun(h.part);
    SetOperation(h, SPMEN, a);
    SingleStep(h);
    var n: nat := 0;
    EvenPage(h.t);
    while 2 * n < |buf|
      invariant 2 * n <= |buf| && h.Valid() && Loading(old(h.t), h.t, a, buf, n, a + 2 * n)
    {
      LoadOneWord(h, a, buf, n, old(h.t));
      n := n + 1;
    }
  }

  lemma EvenPage(t: Target)
    requires Sized(t)
    ensures t.part.pageSize == 2 * (t.part.pageSize / 2)
  {
  }

  // ---- programming

  lemma SpmPrograms(t: Target, a: nat)
    requires Sized(t) && PageAt(t.part, a) && Z(t) == a && t.data[32 + SPMCSR] == PGWRT
    requires t.part.boot <= t.pc < t.part.flashSize / 2
    ensures DoSpm(t) == ProgramPage(t, a)
  {
    hide ProgramPage;
    PageIsEven(a, t.part.pageSize);
  }

  /** ReadSPMCSR: while the device is busy the operation can be seen in the register. */
  method ReadSPMCSR(h: Host) returns (spmcsr: byte)
    requires h.Valid() && |h.t.data| > 32 + SPMCSR
    modifies h`t
    ensures h.Valid() && Scratch(old(h.t).(busy := h.t.busy), h.t)
    ensures h.t.busy == (if old(h.t.busy) > 0 then old(h.t.busy) - 1 else 0)
    ensures spmcsr == (if old(h.t.busy) == 0 then 0 else old(h.t.data)[32 + SPMCSR])
  {
    hide InOut;
    SingleStep(h);
    h.DwIn(30, SPMCSR);
    var regs := h.DwGetRegs(30, 1);
    spmcsr := regs[0];
  }

  /** ProgramPage: the page becomes the bitwise and of what it was and what the buffer holds; on parts with a boot
      section the end of the operation is polled for. */
  method ProgramPageAt(h: Host, a: nat)
    requires h.Valid() && h.t.busy == 0 && PageAt(h.part, a)
    modifies h`t
    ensures h.Valid() && Calm(h.t) && OnlyFlash(old(h.t), h.t, 0)
    ensures h.t.flash == Overlay(old(h.t.flash), a, AndAll(old(h.t.flash)[a..a + h.part.pageSize], old(h.t.temp)))
    ensures h.t.erases == old(h.t.erases) && h.t.programs == old(h.t.programs) + 1
    ensures h.t.rwwBusy == (h.part.boot > 0)
  {
    hide Feed, DoSpm, Hi, Lo, Overlay, AndAll, Supported;
    EnterRepeating(h);
    SetUpSpm(h, PGWRT, a);
    SpmPrograms(h.t.(repeating := false, ir := SPM), a);
    if h.part.boot > 0 {
      StoreProgramMemory(h);
      WaitForEnd(h);
    } else {
      StoreAndWait(h);
    }
  }

  method EnterRepeating(h: Host)
    requires h.Valid()
    modifies h`t
    ensures h.t == old(h.t).(repeating := true)
  {
    hide Feed;
    FeedOne(h.t, 0x66);
    h.DwSend([0x66]);
  }

  /** The polling loop. */
  method WaitForEnd(h: Host)
    requires h.Valid() && |h.t.data| > 32 + SPMCSR && h.t.data[32 + SPMCSR] == PGWRT
    modifies h`t
    ensures h.Valid() && h.t.busy == 0 && Scratch(old(h.t).(busy := 0), h.t)
  {
    hide Supported, Sized;
    var spmcsr := ReadSPMCSR(h);
    while spmcsr % 0x20 != 0
      invariant h.Valid() && Scratch(old(h.t).(busy := h.t.busy), h.t)
      invariant spmcsr == 0 ==> h.t.busy == 0
      invariant spmcsr == 0 || spmcsr == PGWRT
      decreases h.t.busy, spmcsr
    {
      spmcsr := ReadSPMCSR(h);
    }
  }

  // ---- reading

  lemma GoReadsFlash(t: Target, n: nat)
    requires Sized(t) && t.repeating && t.transfer == 2 && t.pc == t.part.boot && t.bp == t.part.boot + 2 * n
    requires 1 <= n <= 64
    ensures Go(t) == WithZ(t.(out := t.out + FlashRun(t, Z(t), n), pc := t.bp), Z(t) + n)
  {
    hide FlashRun, WithZ;
    BootRun(t.part);
  }

  lemma SameFlash(t: Target, u: Target, z: nat, n: nat)
    requires Sized(t) && Sized(u) && u.flash == t.flash && u.rwwBusy == t.rwwBusy && u.unknown == t.unknown
    ensures FlashRun(u, z, n) == FlashRun(t, z, n)
  {
    forall i | 0 <= i < n ensures FlashRun(u, z, n)[i] == FlashRun(t, z, n)[i] {}
  }

  lemma FlashRunMore(t: Target, z: nat, m: nat, n: nat)
    requires Sized(t)
    ensures FlashRun(t, z, m) + FlashRun(t, z + m, n) == FlashRun(t, z, m + n)
  {
  }

  /** One chunk: the run of program addresses stays within the device. */
  method ReadFlashChunk(h: Host, addr: nat, length: nat) returns (buf: seq<byte>)
    requires h.Valid() && 1 <= length <= 64 && addr + length <= h.part.flashSize
    modifies h`t
    ensures h.Valid() && Scratch(old(h.t), h.t)
    ensures buf == FlashRun(old(h.t), addr, length)
  {
    hide Feed, Go, FlashRun, Hi, Lo, Supported;
    BootRun(h.part);
    h.DwSetZ(addr);
    h.DwSetPC(h.part.boot);
    RunAddressable(h.part, length);
    h.DwSetBP(h.part.boot + 2 * length);
    FeedGo(h.t, 0x02);
    GoReadsFlash(h.t.(repeating := true, transfer := 0x02), length);
    SameFlash(old(h.t), h.t.(repeating := true, transfer := 0x02), addr, length);
    h.DwSend([0x66, 0xC2, 0x02, 0x20]);
    buf := h.DwReceive(length);
  }

  lemma RunAddressable(part: Part, length: nat)
    requires Supported(part) && length <= 64
    ensures Addressable(part, part.boot + 2 * length)
  {
  }

  /** DwReadFlash: what the device lets be read of that range, or a failure if it goes beyond the end. */
  method DwReadFlash(h: Host, addr0: nat, len: nat) returns (ok: bool, buf: seq<byte>)
    requires h.Valid()
    modifies h`t
    ensures h.Valid() && Scratch(old(h.t), h.t)
    ensures ok <==> addr0 + len <= h.part.flashSize
    ensures ok ==> buf == FlashRun(old(h.t), addr0, len)
    ensures ok && !old(h.t.rwwBusy) ==> buf == old(h.t.flash)[addr0..addr0 + len]
  {
    hide Feed, FlashRun, Supported;
    var addr, limit := addr0, addr0 + len;
    buf := [];
    if limit > h.part.flashSize { return false, []; }
    RunStarts(h.t, addr);
    while addr < limit
      invariant addr0 <= addr <= limit && h.Valid() && Scratch(old(h.t), h.t)
      invariant buf == FlashRun(old(h.t), addr0, addr - addr0)
    {
      var length := Min(limit - addr, 64);
      SameFlash(old(h.t), h.t, addr, length);
      FlashRunMore(old(h.t), addr0, addr - addr0, length);
      var chunk := ReadFlashChunk(h, addr, length);
      addr, buf := addr + length, buf + chunk;
    }
    RunIsFlash(old(h.t), addr0, len);
    return true, buf;
  }

  lemma RunStarts(t: Target, z: nat)
    requires Sized(t)
    ensures FlashRun(t, z, 0) == []
  {
  }

  lemma RunIsFlash(t: Target, z: nat, n: nat)
    requires Sized(t) && z + n <= |t.flash|
    ensures !t.rwwBusy ==> FlashRun(t, z, n) == t.flash[z..z + n]
    ensures t.rwwBusy ==> FlashRun(t, z, n) == Unreadable(t.unknown.blocked, z, n)
  {
    forall i | 0 <= i < n
      ensures FlashRun(t, z, n)[i] == if t.rwwBusy then t.unknown.blocked(z + i) else t.flash[z..z + n][i] {}
  }

  // ---- writing a page

  /** The test for bits that have to be set. */
  method MustErase(page: seq<byte>, buf: seq<byte>) returns (erase: bool)
    requires |page| == |buf|
    ensures erase <==> NeedsErase(page, buf)
  {
    erase := false;
    for i := 0 to |page|
      invariant !erase && forall j :: 0 <= j < i ==> And(255 - page[j], buf[j]) == 0
    {
      if And(255 - page[i], buf[i]) != 0 {
        return true;
      }
    }
  }

  /** The page at a now holds the bytes of buf, and the device has done the fewest erasures and programs for that. */
  ghost predicate PageWritten(t: Target, u: Target, a: nat, buf: seq<byte>) {
    && Sized(t) && PageAt(t.part, a) && |buf| == t.part.pageSize
    && var page := t.flash[a..a + |buf|];
       && u.flash == Overlay(t.flash, a, buf)
       && u.erases == t.erases + MinErases(page, buf)
       && u.programs == t.programs + MinPrograms(page, buf)
       && u.rwwBusy == LeavesBusy(t.part, page, buf)
  }

  lemma ScratchOnly(t: Target, u: Target)
    requires Scratch(t, u)
    ensures OnlyFlash(t, u, 0)
  {
  }

  lemma CalmScratch(t: Target, u: Target)
    requires Calm(t) && Scratch(t, u) && Ready(u)
    ensures Calm(u)
  {
  }

  lemma OnlyFlashChain(s: Target, t: Target, u: Target, m: nat, k: nat, n: nat)
    requires OnlyFlash(s, t, m) && OnlyFlash(t, u, k) && m <= n && k <= n
    ensures OnlyFlash(s, u, n)
  {
  }

  lemma OnlyFlashSelf(t: Target)
    ensures OnlyFlash(t, t, 0)
  {
  }

  /** WriteFlashPage: exactly that page, with the fewest erasures and programs.  The early return after an erasure
      leaves the flash of parts with a boot section unreadable. */
  method WriteFlashPage(h: Host, a: nat, buf: seq<byte>)
    requires h.Valid() && Calm(h.t) && PageAt(h.part, a) && |buf| == h.part.pageSize
    modifies h`t
    ensures h.Valid() && Calm(h.t) && OnlyFlash(old(h.t), h.t, 2)
    ensures PageWritten(old(h.t), h.t, a, buf)
  {
    hide Feed, Overlay, NeedsErase, AllOnes, Supported, Calm, OnlyFlash, Scratch, FlashRun;
    RenableRWW(h);
    ghost var t1 := h.t;
    var ok, page := DwReadFlash(h, a, h.part.pageSize);
    ScratchOnly(t1, h.t);
    CalmScratch(t1, h.t);
    ScratchFlash(t1, h.t);
    OnlyFlashChain(old(h.t), t1, h.t, 0, 0, 2);
    OverlaySelf(h.t.flash, a, h.part.pageSize);
    if buf == page {
      SamePageNeedsNothing(buf);
      return;
    }
    WriteChanged(h, a, page, buf, old(h.t));
  }

  lemma ScratchFlash(t: Target, u: Target)
    requires Scratch(t, u)
    ensures u.flash == t.flash && u.rwwBusy == t.rwwBusy && u.part == t.part
    ensures u.erases == t.erases && u.programs == t.programs
  {
  }

  /** The rest of WriteFlashPage, for a page that differs. */
  method WriteChanged(h: Host, a: nat, page: seq<byte>, buf: seq<byte>, ghost t0: Target)
    requires h.Valid() && Calm(h.t) && PageAt(h.part, a) && |buf| == h.part.pageSize && !h.t.rwwBusy
    requires page == h.t.flash[a..a + |buf|] && page != buf && OnlyFlash(t0, h.t, 2)
    requires t0.flash == h.t.flash && t0.erases == h.t.erases && t0.programs == h.t.programs
    requires Sized(t0) && t0.part == h.part
    modifies h`t
    ensures h.Valid() && Calm(h.t) && OnlyFlash(t0, h.t, 2)
    ensures PageWritten(t0, h.t, a, buf)
  {
    hide Feed, Overlay, NeedsErase, AllOnes, Supported, Calm, OnlyFlash;
    ghost var t1 := h.t;
    var erase := MustErase(page, buf);
    OnlyFlashSelf(t1);
    if erase {
      EraseFlashPage(h, a);
    }
    OnlyFlashChain(t0, t1, h.t, 2, 0, 2);
    OnesAreBlank(buf);
    if buf == Repeat(0xff, |buf|) {
      BlankErased(page, buf);
      return;
    }
    Programmable(h.t, t1.flash, a, page, buf);
    ProgramNew(h, a, buf, t0);
  }

  /** Loading and programming. */
  method ProgramNew(h: Host, a: nat, buf: seq<byte>, ghost t0: Target)
    requires h.Valid() && Calm(h.t) && PageAt(h.part, a) && |buf| == h.part.pageSize && OnlyFlash(t0, h.t, 2)
    requires Sized(t0) && a + |buf| <= |h.t.flash| && AndAll(h.t.flash[a..a + |buf|], buf) == buf
    modifies h`t
    ensures h.Valid() && Calm(h.t) && OnlyFlash(t0, h.t, 2) && !h.t.rwwBusy
    ensures h.t.flash == Overlay(old(h.t.flash), a, buf)
    ensures h.t.erases == old(h.t.erases) && h.t.programs == old(h.t.programs) + 1
  {
    hide Feed, Overlay, AndAll, Supported, Calm, OnlyFlash;
    ghost var t1 := h.t;
    LoadPageBuffer(h, a, buf);
    ghost var t2 := h.t;
    ProgramPageAt(h, a);
    ghost var t3 := h.t;
    RenableRWW(h);
    OnlyFlashChain(t2, t3, h.t, 0, 0, 0);
    OnlyFlashChain(t1, t2, h.t, 2, 0, 2);
    OnlyFlashChain(t0, t1, h.t, 2, 2, 2);
  }

  /** After the erasure, if one is needed, programming gives the new page. */
  lemma Programmable(t: Target, flash0: seq<byte>, a: nat, page: seq<byte>, buf: seq<byte>)
    requires |page| == |buf| && a + |buf| <= |flash0| && page == flash0[a..a + |buf|]
    requires t.flash == if NeedsErase(page, buf) then Overlay(flash0, a, Repeat(0xff, |buf|)) else flash0
    ensures AndAll(t.flash[a..a + |buf|], buf) == buf
    ensures Overlay(t.flash, a, buf) == Overlay(flash0, a, buf)
  {
    hide AndAll, NeedsErase;
    if NeedsErase(page, buf) {
      assert t.flash[a..a + |buf|] == Repeat(0xff, |buf|);
      ProgramErased(buf);
    } else {
      BelowNeedsNoErase(page, buf);
      ProgramBelow(page, buf);
    }
  }

  // ---- WriteFlash

  /** Flash as the rest of the program can see it. */
  function FlashOf(t: Target): Flash { Flash(t.flash, t.rwwBusy) }

  /** WriteFlashPage with its effect on the visible flash. */
  method WritePageOf(h: Host, a: nat, buf: seq<byte>)
    requires h.Valid() && Calm(h.t) && PageAt(h.part, a) && |buf| == h.part.pageSize
    modifies h`t
    ensures h.Valid() && Calm(h.t) && OnlyFlash(old(h.t), h.t, 2)
    ensures a + |buf| <= |old(h.t.flash)| && FlashOf(h.t) == WritePage(h.part, FlashOf(old(h.t)), a, buf)
  {
    hide OnlyFlash, Calm, Supported, Overlay, LeavesBusy, NeedsErase;
    WriteFlashPage(h, a, buf);
  }

  /** The head and the tail of WriteFlash: read the page, put the bytes in, write it. */
  method WritePartOf(h: Host, base: nat, off: nat, bytes: seq<byte>)
    requires h.Valid() && Calm(h.t) && PageAt(h.part, base) && off + |bytes| <= h.part.pageSize
    modifies h`t
    ensures h.Valid() && Calm(h.t) && OnlyFlash(old(h.t), h.t, 2)
    ensures base + h.part.pageSize <= |old(h.t.flash)|
    ensures FlashOf(h.t) == WritePart(h.part, h.t.unknown.blocked, FlashOf(old(h.t)), base, off, bytes)
  {
    hide Calm, Supported, Overlay, LeavesBusy, NeedsErase, FlashRun, WritePage, OnlyFlash, Scratch;
    ghost var t0 := h.t;
    RunIsFlash(t0, base, h.part.pageSize);
    var ok, pageBuffer := DwReadFlash(h, base, h.part.pageSize);
    ScratchOnly(t0, h.t);
    CalmScratch(t0, h.t);
    ScratchFlash(t0, h.t);
    ghost var t1 := h.t;
    WritePageOf(h, base, Overlay(pageBuffer, off, bytes));
    OnlyFlashChain(t0, t1, h.t, 0, 2, 2);
    SameUnknown(t0, h.t);
  }

  lemma SameUnknown(t: Target, u: Target)
    requires OnlyFlash(t, u, 2)
    ensures u.unknown == t.unknown && u.part == t.part
  {
  }

  /** The whole pages and the tail. */
  method WritePages(h: Host, addr0: nat, buf0: seq<byte>)
    requires h.Valid() && Calm(h.t) && addr0 + |buf0| <= h.part.flashSize
    requires buf0 != [] ==> addr0 % h.part.pageSize == 0
    modifies h`t
    ensures h.Valid() && Calm(h.t) && OnlyFlash(old(h.t), h.t, 2)
    ensures h.part.pageSize > 0 && addr0 + |buf0| + Pad(h.part.pageSize, |buf0|) <= |old(h.t.flash)|
    ensures FlashOf(h.t) == WriteFrom(h.part, h.t.unknown.blocked, FlashOf(old(h.t)), addr0, buf0)
  {
    hide Calm, Supported, WritePage, WritePart, OnlyFlash, WriteFrom, Pad, PageAt;
    var addr: nat, buf := addr0, buf0;
    ghost var blocked := h.t.unknown.blocked;
    FitsBehind(h.part, addr, buf);
    ghost var goal := WriteFrom(h.part, blocked, FlashOf(h.t), addr, buf);
    Weaken(h.t);
    while |buf| >= h.part.pageSize
      invariant h.Valid() && Calm(h.t) && OnlyFlash(old(h.t), h.t, 2) && h.t.unknown.blocked == blocked
      invariant addr + |buf| <= h.part.flashSize && (buf != [] ==> addr % h.part.pageSize == 0)
      invariant h.part.pageSize > 0 && addr + |buf| + Pad(h.part.pageSize, |buf|) <= |h.t.flash|
      invariant WriteFrom(h.part, blocked, FlashOf(h.t), addr, buf) == goal
      decreases |buf|
    {
      ghost var t1 := h.t;
      PageHere(h.part, addr, |buf|);
      WriteFromStep(h.part, blocked, FlashOf(t1), addr, buf);
      WritePageOf(h, addr, buf[..h.part.pageSize]);
      OnlyFlashChain(old(h.t), t1, h.t, 2, 2, 2);
      SameUnknown(t1, h.t);
      addr, buf := addr + h.part.pageSize, buf[h.part.pageSize..];
      FitsBehind(h.part, addr, buf);
    }
    WriteFromEnd(h.part, blocked, FlashOf(h.t), addr, buf);
    if buf != [] {
      ghost var t1 := h.t;
      PageHere(h.part, addr, |buf|);
      WritePartOf(h, addr, 0, buf);
      OnlyFlashChain(old(h.t), t1, h.t, 2, 2, 2);
      SameUnknown(t1, h.t);
    }
  }

  lemma Weaken(t: Target)
    ensures OnlyFlash(t, t, 2)
  {
  }

  lemma FitsBehind(part: Part, addr: nat, buf: seq<byte>)
    requires Supported(part) && addr + |buf| <= part.flashSize && (buf != [] ==> addr % part.pageSize == 0)
    ensures part.pageSize > 0 && addr + |buf| + Pad(part.pageSize, |buf|) <= part.flashSize
  {
    hide Supported, Pad;
    SizesOf(part);
    NoPad(part.pageSize);
    if buf != [] { PadFits(part.pageSize, addr, |buf|, part.flashSize); }
  }

  lemma PageHere(part: Part, addr: nat, n: nat)
    requires Supported(part) && addr % part.pageSize == 0 && 0 < n && addr + n <= part.flashSize
    ensures PageAt(part, addr) && (addr + part.pageSize) % part.pageSize == 0
  {
    hide Supported;
    SizesOf(part);
    PageGap(part.pageSize, addr, part.flashSize);
    NextPage(part.pageSize, addr);
  }

  /** The first part of WriteFlash, for an address in the middle of a page. */
  method WriteHead(h: Host, addr: nat, buf: seq<byte>) returns (head: nat)
    requires h.Valid() && Calm(h.t) && addr + |buf| <= h.part.flashSize
    modifies h`t
    ensures h.Valid() && Calm(h.t) && OnlyFlash(old(h.t), h.t, 2)
    ensures InFlash(h.part, FlashOf(old(h.t)), addr, |buf|)
    ensures head == HeadLength(h.part, addr, |buf|)
    ensures FlashOf(h.t) == AfterHead(h.part, h.t.unknown.blocked, FlashOf(old(h.t)), addr, buf)
    ensures addr + head <= h.part.flashSize && (head < |buf| ==> (addr + head) % h.part.pageSize == 0)
  {
    hide Calm, WritePart, OnlyFlash, Pad;
    ghost var t0 := h.t;
    RangeInFlash(h.part, FlashOf(t0), addr, |buf|);
    HeadEnds(h.part, addr, |buf|);
    Weaken(t0);
    var partOffset := addr % h.part.pageSize;
    var partBase := addr - partOffset;
    if partOffset != 0 && buf != [] {
      head := Min(h.part.pageSize - partOffset, |buf|);
      WritePartOf(h, partBase, partOffset, buf[..head]);
      SameUnknown(t0, h.t);
    } else {
      head := 0;
    }
  }

  lemma HeadEnds(part: Part, addr: nat, n: nat)
    requires Supported(part) && addr + n <= part.flashSize
    ensures var head := HeadLength(part, addr, n);
            && (head < n ==> (addr + head) % part.pageSize == 0)
            && (head > 0 ==> PageAt(part, addr - addr % part.pageSize))
  {
    hide Supported;
    SizesOf(part);
    PageStart(part.pageSize, addr);
    if HeadLength(part, addr, n) > 0 { PageGap(part.pageSize, addr - addr % part.pageSize, part.flashSize); }
  }

  /** r0 and r1 put back: only the cached registers differ. */
  lemma RegistersRestored(t0: Target, t: Target, u: Target, regs: seq<byte>)
    requires |t0.data| >= 32 && regs == t0.data[..2] && OnlyFlash(t0, t, 2)
    requires Controls(t.(data := u.data), u) && u.data == Overlay(t.data, 0, regs)
    ensures OnlyFlash(t0, u, 0)
    ensures FlashOf(u) == FlashOf(t)
  {
  }

  lemma CalmControls(t: Target, u: Target)
    requires Calm(t) && Controls(t.(data := u.data), u) && Ready(u)
    ensures Calm(u)
  {
  }

  /** WriteFlash: the visible flash becomes what FlashWrite.WriteAll says, and all registers are as before: r0 to r27
      on the device, r28 to r31 in the cache.  Without a boot section the result is exactly the bytes laid over the
      flash. */
  method WriteFlash(h: Host, addr: nat, buf: seq<byte>)
    requires h.Valid() && Calm(h.t) && addr + |buf| <= h.part.flashSize
    modifies h`t, h`R
    ensures h.Valid() && Calm(h.t) && OnlyFlash(old(h.t), h.t, 0) && h.R[28..] == old(h.R[28..])
    ensures InFlash(h.part, FlashOf(old(h.t)), addr, |buf|)
    ensures FlashOf(h.t) == WriteAll(h.part, h.t.unknown.blocked, FlashOf(old(h.t)), addr, buf)
    ensures h.part.boot == 0 ==> h.t.flash == Overlay(old(h.t.flash), addr, buf)
  {
    hide WriteFrom, OnlyFlash, Calm, AfterHead, Pad, Overlay, HeadLength, Supported;
    ghost var t0 := h.t;
    RangeInFlash(h.part, FlashOf(t0), addr, |buf|);
    OnlyFlashSelf(t0);
    if buf == [] {
      EmptyWrite(h.part, t0.unknown.blocked, FlashOf(t0), addr);
      OverlayNothing(t0.flash, addr);
      return;
    }
    var regs := h.DwGetRegs(0, 2);
    h.R := regs + h.R[2..];
    CalmControls(t0, h.t);
    ghost var t1 := h.t;
    SameControls(t0, t1);
    var head := WriteHead(h, addr, buf);
    ghost var t2 := h.t;
    WritePages(h, addr + head, buf[head..]);
    ghost var t3 := h.t;
    OnlyFlashChain(t0, t1, t2, 0, 2, 2);
    OnlyFlashChain(t0, t2, t3, 2, 2, 2);
    SameUnknown(t0, t3);
    SameUnknown(t0, t2);
    h.DwSetRegs(0, h.R[..2]);
    RegistersRestored(t0, t3, h.t, regs);
    CalmControls(t3, h.t);
    NoBoot(h.part, t0, addr, buf);
  }

  /** Both commands, one after the other: what has been written is read back, unless the last page was only erased, on a
      part with a boot section; then every byte is read as unreadable flash is. */
  method WriteThenRead(h: Host, addr: nat, bytes: seq<byte>) returns (buf: seq<byte>)
    requires h.Valid() && Calm(h.t) && addr + |bytes| <= h.part.flashSize
    modifies h`t, h`R
    ensures h.Valid() && InFlash(h.part, FlashOf(old(h.t)), addr, |bytes|)
    ensures var busy := WriteAll(h.part, h.t.unknown.blocked, FlashOf(old(h.t)), addr, bytes).busy;
            && buf == (if busy then Unreadable(h.t.unknown.blocked, addr, |bytes|) else bytes)
            && (bytes != [] ==> busy == LastPageErased(h.part, FlashOf(old(h.t)), FlashOf(h.t), addr, |bytes|))
    ensures h.part.boot == 0 ==> buf == bytes
  {
    hide OnlyFlash, WriteAll, FlashRun, InFlash, Calm, Overlay, LastPageErased;
    ghost var t0, blocked := h.t, h.t.unknown.blocked;
    WriteFlash(h, addr, bytes);
    SameUnknown0(t0, h.t);
    ghost var t1 := h.t;
    RunIsFlash(t1, addr, |bytes|);
    WrittenBytes(h.part, blocked, FlashOf(t0), addr, bytes);
    if bytes != [] { WriteAllBusy(h.part, blocked, FlashOf(t0), addr, bytes); }
    NoBootBusy(h.part, t0, addr, bytes);
    var ok;
    ok, buf := DwReadFlash(h, addr, |bytes|);
    ScratchFlash(t1, h.t);
  }

  lemma SameUnknown0(t: Target, u: Target)
    requires OnlyFlash(t, u, 0)
    ensures u.unknown == t.unknown && u.part == t.part
  {
  }

  lemma NoBootBusy(part: Part, t: Target, addr: nat, buf: seq<byte>)
    requires Calm(t) && part == t.part && InFlash(part, FlashOf(t), addr, |buf|) && addr + |buf| <= |t.flash|
    ensures part.boot == 0 ==> !WriteAll(part, t.unknown.blocked, FlashOf(t), addr, buf).busy
  {
    if part.boot == 0 { NoBootSectionIsExact(part, t.unknown.blocked, FlashOf(t), addr, buf); }
  }

  lemma EmptyWrite(part: Part, blocked: nat -> byte, f: Flash, addr: nat)
    requires InFlash(part, f, addr, 0)
    ensures WriteAll(part, blocked, f, addr, []) == f
  {
  }

  lemma OverlayNothing(s: seq<byte>, a: nat)
    requires a <= |s|
    ensures Overlay(s, a, []) == s
  {
  }

  lemma SameControls(t: Target, u: Target)
    requires Controls(t, u) && |t.data| >= 32
    ensures OnlyFlash(t, u, 0) && FlashOf(u) == FlashOf(t) && u.unknown == t.unknown && t.data[0..2] == t.data[..2]
  {
  }

  lemma NoBoot(part: Part, t: Target, addr: nat, buf: seq<byte>)
    requires Calm(t) && part == t.part && InFlash(part, FlashOf(t), addr, |buf|) && addr + |buf| <= |t.flash|
    ensures part.boot == 0 ==>
              WriteAll(part, t.unknown.blocked, FlashOf(t), addr, buf).bytes == Overlay(t.flash, addr, buf)
  {
    if part.boot == 0 { NoBootSectionIsExact(part, t.unknown.blocked, FlashOf(t), addr, buf); }
  }
}

/** Data memory through debugWIRE: DwReadAddr and DwWriteAddr. */
module DataMemory {
  import opened Bytes
  import opened DwTarget
  import opened DwPort

  /** Cells that cannot be reached through Z: r28 to r31 are cached on the host, and DWDR carries the data itself. */
  predicate Special(part: Part, a: int) { 28 <= a <= 31 || a == 32 + part.dwdr }

  /** The data space as the user is to see it. */
  function View(t: Target, R: seq<byte>): (v: seq<byte>)
    requires |R| == 32
    ensures |v| == |t.data|
  {
    seq<byte>(|t.data|, a requires 0 <= a < |t.data| =>
      if 28 <= a <= 31 then R[a] else if a == 32 + t.part.dwdr then 0 else t.data[a])
  }

  lemma ScratchTrans(s: Target, t: Target, u: Target)
    requires Scratch(s, t) && Scratch(t, u)
    ensures Scratch(s, u)
  {
  }

  /** What the device holds in ordinary cells is what the user sees. */
  lemma Seen(s: Target, t: Target, R: seq<byte>, a: nat, n: nat)
    requires Scratch(s, t) && |R| == 32 && a + n <= |s.data|
    requires forall i :: a <= i < a + n ==> !Special(s.part, i)
    ensures t.data[a..a + n] == View(s, R)[a..a + n]
  {
    forall i | a <= i < a + n ensures t.data[i] == View(s, R)[i] {
      assert !Special(s.part, i);
    }
  }

  /** A piece seen, behind what has been seen so far. */
  lemma SeenMore(s: Target, t: Target, R: seq<byte>, a0: nat, a: nat, n: nat)
    requires Scratch(s, t) && |R| == 32 && a0 <= a && a + n <= |s.data|
    requires forall i :: a <= i < a + n ==> !Special(s.part, i)
    ensures View(s, R)[a0..a] + t.data[a..a + n] == View(s, R)[a0..a + n]
  {
    Seen(s, t, R, a, n);
    assert View(s, R)[a0..a] + View(s, R)[a..a + n] == View(s, R)[a0..a + n];
  }

  /** One special cell more. */
  lemma SpecialMore(s: Target, R: seq<byte>, a0: nat, a: nat)
    requires |R| == 32 && a0 <= a < |s.data| && Special(s.part, a)
    ensures View(s, R)[a0..a] + [if a <= 31 then R[a] else 0] == View(s, R)[a0..a + 1]
  {
  }

  lemma GoReadsData(t: Target, n: nat)
    requires Sized(t) && t.repeating && t.transfer == 0 && t.pc == 0 && t.bp == 2 * n && n >= 1
    requires Z(t) + n <= |t.data| && SafeRange(t.part, Z(t), n)
    ensures Go(t) == WithZ(t.(out := t.out + t.data[Z(t)..Z(t) + n], pc := t.bp), Z(t) + n)
  {
  }

  /** A block of the data space as the device holds it.  The block must avoid the cells that the transfer uses. */
  method DwUnsafeReadAddr(h: Host, addr: nat, len: nat) returns (buf: seq<byte>)
    requires h.Valid() && 1 <= len <= 128 && addr + len <= |h.t.data| && SafeRange(h.part, addr, len)
    modifies h`t
    ensures h.Valid() && Scratch(old(h.t), h.t)
    ensures buf == old(h.t.data)[addr..addr + len]
  {
    hide Feed, Go, Hi, Lo;
    h.DwSetZ(addr);
    assert h.t.data[addr..addr + len] == old(h.t.data)[addr..addr + len];
    h.DwSetPC(0);
    h.DwSetBP(2 * len);
    FeedGo(h.t, 0x00);
    GoReadsData(h.t.(repeating := true, transfer := 0x00), len);
    h.DwSend([0x66, 0xC2, 0x00, 0x20]);
    buf := h.DwReceive(len);
  }

  /** A chunk of ordinary cells, appended to what has been read so far. */
  method ReadChunk(h: Host, addr0: nat, addr: nat, len: nat, buf0: seq<byte>, ghost t0: Target) returns (buf: seq<byte>)
    requires h.Valid() && Scratch(t0, h.t) && addr0 <= addr && addr + len <= |t0.data| && 1 <= len <= 128
    requires forall i :: addr <= i < addr + len ==> !Special(h.part, i)
    requires buf0 == View(t0, h.R)[addr0..addr]
    modifies h`t
    ensures h.Valid() && Scratch(t0, h.t)
    ensures buf == View(t0, h.R)[addr0..addr + len]
  {
    hide View;
    SeenMore(t0, h.t, h.R, addr0, addr, len);
    ghost var before := h.t;
    assert Special(h.part, 30) && Special(h.part, 31) && Special(h.part, 32 + h.part.dwdr);
    var chunk := DwUnsafeReadAddr(h, addr, len);
    ScratchTrans(t0, before, h.t);
    buf := buf0 + chunk;
  }

  /** DwReadAddr: any range, in pieces; never a block of more than 128 bytes, and never one that touches Z or DWDR. */
  method DwReadAddr(h: Host, addr0: nat, len0: nat) returns (buf: seq<byte>)
    requires h.Valid() && addr0 + len0 <= |h.t.data|
    modifies h`t
    ensures h.Valid() && Scratch(old(h.t), h.t)
    ensures buf == View(old(h.t), h.R)[addr0..addr0 + len0]
  {
    hide View;
    var addr, len := addr0, len0;
    buf := [];
    var len1 := Min(len, 28 - addr);
    if len1 > 0 {
      buf := ReadChunk(h, addr0, addr, len1, buf, old(h.t));
      addr, len := addr + len1, len - len1;
    }
    while 28 <= addr <= 31 && len > 0
      invariant addr + len == addr0 + len0 && addr0 <= addr && 0 <= len
      invariant addr < 28 ==> len == 0
      invariant buf == View(old(h.t), h.R)[addr0..addr]
      invariant h.Valid() && Scratch(old(h.t), h.t)
    {
      SpecialMore(old(h.t), h.R, addr0, addr);
      buf := buf + [h.R[addr]];
      addr, len := addr + 1, len - 1;
    }
    buf := ReadAbove(h, addr0, addr, len, buf, old(h.t));
  }

  /** The part of DwReadAddr behind r31. */
  method ReadAbove(h: Host, addr0: nat, addr1: nat, len1: nat, buf1: seq<byte>, ghost t0: Target)
    returns (buf: seq<byte>)
    requires h.Valid() && Scratch(t0, h.t) && addr0 <= addr1 && addr1 + len1 <= |t0.data|
    requires len1 > 0 ==> addr1 >= 32
    requires buf1 == View(t0, h.R)[addr0..addr1]
    modifies h`t
    ensures h.Valid() && Scratch(t0, h.t)
    ensures buf == View(t0, h.R)[addr0..addr1 + len1]
  {
    hide View;
    var addr, len := addr1, len1;
    buf := buf1;
    var len2 := Min(len, 32 + h.part.dwdr - addr);
    if len2 > 0 {
      buf := ReadChunk(h, addr0, addr, len2, buf, t0);
      addr, len := addr + len2, len - len2;
    }
    if addr == 32 + h.part.dwdr && len > 0 {
      SpecialMore(t0, h.R, addr0, addr);
      buf := buf + [0];
      addr, len := addr + 1, len - 1;
    }
    while len > 128
      invariant addr + len == addr1 + len1 && addr1 <= addr && 0 <= len && (len > 0 ==> addr > 32 + h.part.dwdr)
      invariant buf == View(t0, h.R)[addr0..addr]
      invariant h.Valid() && Scratch(t0, h.t)
    {
      buf := ReadChunk(h, addr0, addr, 128, buf, t0);
      addr, len := addr + 128, len - 128;
    }
    if len > 0 {
      buf := ReadChunk(h, addr0, addr, len, buf, t0);
    }
  }

  // ---- writing

  /** A range can be written if no ordinary cell follows a special one. */
  predicate Writable(part: Part, a: int, n: int) {
    forall i, j :: a <= i < j < a + n && Special(part, i) ==> Special(part, j)
  }

  lemma FeedMode(t: Target, kind: byte)
    requires Sized(t) && t.wait == Command
    ensures Feed(t, [0x66, 0xC2, kind]) == t.(repeating := true, transfer := kind)
  {
    hide Feed;
    FeedConcat(t, [0x66], [0xC2, kind]);
    assert [0x66] + [0xC2, kind] == [0x66, 0xC2, kind];
    FeedOne(t, 0x66);
    FeedTwo(t.(repeating := true), 0xC2, kind);
  }

  /** One byte stored through Z. */
  lemma FeedStore(t: Target, b: byte)
    requires Sized(t) && t.wait == Command && t.repeating && t.transfer == 4 && t.bp == t.pc + 2
    requires Z(t) < |t.data| && !(28 <= Z(t) <= 31) && Z(t) != 32 + t.part.eecr
    ensures Feed(t, [0x20, b])
            == WithZ(t.(data := t.data[Z(t) := b], eeMaster := false, pc := t.bp), Z(t) + 1)
  {
    hide Feed, StoreByte, Hi, Lo;
    FeedTwo(t, 0x20, b);
    assert OnByte(t, 0x20) == t.(wait := Store);
    StoreOrdinary(t.(wait := Store), b);
  }

  lemma StoreOrdinary(t: Target, b: byte)
    requires Sized(t) && Z(t) < |t.data| && !(28 <= Z(t) <= 31) && Z(t) != 32 + t.part.eecr
    ensures StoreByte(t, b)
            == WithZ(t.(data := t.data[Z(t) := b], eeMaster := false, wait := Command, pc := t.bp), Z(t) + 1)
  {
    hide Hi, Lo, Supported;
    DataIsSmall(t);
    var u := WriteData(t, Z(t), b).(wait := Command, pc := t.bp);
    assert u == t.(data := t.data[Z(t) := b], eeMaster := false, wait := Command, pc := t.bp);
    assert Z(u) == Z(t) && (Z(u) + 1) % 0x10000 == Z(t) + 1;
  }

  /** A byte for EECR that may be stored on its own: no strobe, a read strobe, or the first half of a timed write. */
  predicate StrobeOk(b: byte) { b % 8 == 0 || b % 8 == EERE || b % 8 == EEMWE }

  /** The data space behind such a store: only a read strobe changes EEDR. */
  function AfterStrobe(t: Target, b: byte): (data: seq<byte>)
    requires Sized(t) && 33 + t.part.eecr < |t.data|
    ensures |data| == |t.data|
  {
    var data := t.data[32 + t.part.eecr := Kept(b)];
    if b % 8 == EERE then data[33 + t.part.eecr := EepromAt(t, Eear(t))] else data
  }

  /** A byte stored to EECR: a command to the EEPROM.  Nothing has set EEMWE before. */
  lemma FeedStrobe(t: Target, b: byte)
    requires Sized(t) && t.wait == Command && t.repeating && t.transfer == 4 && t.bp == t.pc + 2
    requires Z(t) == 32 + t.part.eecr && 33 + t.part.eecr < |t.data| && !t.eeMaster
    ensures var u := Feed(t, [0x20, b]);
            if StrobeOk(b) then
              u == WithZ(t.(data := AfterStrobe(t, b), eeMaster := b % 8 == EEMWE, pc := t.bp), Z(t) + 1)
            else u.fault
  {
    hide Feed, StoreByte, Hi, Lo, Eear, EepromAt;
    FeedTwo(t, 0x20, b);
    assert OnByte(t, 0x20) == t.(wait := Store);
    StoreStrobe(t.(wait := Store), b);
    SameAddress(t, t.(wait := Store));
  }

  lemma SameAddress(t: Target, u: Target)
    requires Sized(t) && Sized(u) && u.part == t.part && u.data == t.data && u.eeprom == t.eeprom
    requires u.unknown == t.unknown
    ensures Eear(u) == Eear(t) && EepromAt(u, Eear(u)) == EepromAt(t, Eear(t))
    ensures forall b :: 33 + t.part.eecr < |t.data| ==> AfterStrobe(u, b) == AfterStrobe(t, b)
  {
  }

  lemma StoreStrobe(t: Target, b: byte)
    requires Sized(t) && Z(t) == 32 + t.part.eecr && 33 + t.part.eecr < |t.data| && !t.eeMaster
    ensures var u := StoreByte(t, b);
            if StrobeOk(b) then
              u == WithZ(t.(data := AfterStrobe(t, b), eeMaster := b % 8 == EEMWE, wait := Command, pc := t.bp),
                         Z(t) + 1)
            else u.fault
  {
    hide Hi, Lo, Supported, Eear, EepromAt, Kept;
    DataIsSmall(t);
    var u := WriteData(t, Z(t), b).(wait := Command, pc := t.bp);
    assert Z(u) == Z(t) && (Z(u) + 1) % 0x10000 == Z(t) + 1;
  }

  lemma DataIsSmall(t: Target)
    requires Sized(t)
    ensures |t.data| < 0x10000
  {
  }

  /** The converse of Writable: DwSetZ leaves the repeating mode, and then the bytes that write an ordinary cell are
      not accepted. */
  lemma OrdinaryAfterSpecial(t: Target, b: byte)
    requires Sized(t) && t.wait == Command && !t.repeating
    ensures Feed(t, [0x20, b]).fault
  {
    hide Feed;
    FeedTwo(t, 0x20, b);
  }

  /** The cell of EECR; EEDR is the next one.  A store to it is a command to the EEPROM. */
  function Eecr(part: Part): nat { 32 + part.eecr }

  predicate StrobesOk(part: Part, a: int, bytes: seq<byte>) {
    a <= Eecr(part) < a + |bytes| ==> StrobeOk(bytes[Eecr(part) - a])
  }

  /** The EEPROM has been told to do something just now, and EEDR has not been stored to since. */
  predicate JustStrobed(part: Part, addr0: int, addr: int) { addr0 <= Eecr(part) && addr == Eecr(part) + 1 }

  /** What a cell holds of a byte stored to it. */
  function Held(part: Part, a: int, b: byte): byte { if a == Eecr(part) then Kept(b) else b }

  /** The data space and the cached registers when the cells before addr have been written. */
  ghost predicate Cells(part: Part, data0: seq<byte>, R0: seq<byte>, data: seq<byte>, R: seq<byte>,
      addr0: nat, addr: nat, bytes: seq<byte>)
  {
    && |R0| == |R| == 32 && |data| == |data0| && addr0 <= addr <= addr0 + |bytes| <= |data0|
    && (forall a :: 0 <= a < |data0| && !Special(part, a)
                    && !(a == Eecr(part) + 1 && JustStrobed(part, addr0, addr)) ==>
          data[a] == if addr0 <= a < addr then Held(part, a, bytes[a - addr0]) else data0[a])
    && (forall a :: 28 <= a <= 31 ==> R[a] == if addr0 <= a < addr then bytes[a - addr0] else R0[a])
  }

  lemma CellWritten(part: Part, data0: seq<byte>, R0: seq<byte>, data: seq<byte>, R: seq<byte>, addr0: nat, addr: nat,
      bytes: seq<byte>, z: byte, zh: byte)
    requires Cells(part, data0, R0, data, R, addr0, addr, bytes) && addr < addr0 + |bytes| && |data| > 31
    requires !Special(part, addr) && addr != Eecr(part)
    ensures Cells(part, data0, R0, data[addr := bytes[addr - addr0]][30 := z][31 := zh], R, addr0, addr + 1, bytes)
  {
  }

  lemma CellSkipped(part: Part, data0: seq<byte>, R0: seq<byte>, data: seq<byte>, R: seq<byte>, addr0: nat, addr: nat,
      bytes: seq<byte>, z: byte, zh: byte)
    requires Cells(part, data0, R0, data, R, addr0, addr, bytes) && addr < addr0 + |bytes| && |data| > 31
    requires Special(part, addr) && !JustStrobed(part, addr0, addr)
    ensures Cells(part, data0, R0, data[30 := z][31 := zh],
                  if 28 <= addr <= 31 then R[addr := bytes[addr - addr0]] else R, addr0, addr + 1, bytes)
  {
  }

  lemma CellStrobed(part: Part, data0: seq<byte>, R0: seq<byte>, data: seq<byte>, R: seq<byte>, addr0: nat,
      bytes: seq<byte>, eedr: byte, z: byte, zh: byte)
    requires Cells(part, data0, R0, data, R, addr0, Eecr(part), bytes) && Eecr(part) < addr0 + |bytes|
    requires Eecr(part) + 1 < |data| && Eecr(part) > 31 && addr0 <= Eecr(part)
    ensures var b := bytes[Eecr(part) - addr0];
            Cells(part, data0, R0, data[Eecr(part) := Kept(b)][Eecr(part) + 1 := eedr][30 := z][31 := zh], R,
                  addr0, Eecr(part) + 1, bytes)
  {
    hide Kept;
  }

  /** EEDR after a store to EECR that nothing has followed. */
  ghost predicate Fetched(t0: Target, t: Target, addr0: nat, addr: nat, bytes: seq<byte>)
    requires Sized(t) && |t.data| == |t0.data| > Eecr(t.part) + 1
  {
    JustStrobed(t.part, addr0, addr) && Eecr(t.part) < addr0 + |bytes| ==>
      t.data[Eecr(t.part) + 1]
      == if bytes[Eecr(t.part) - addr0] % 8 == EERE then EepromAt(t, Eear(t)) else t0.data[Eecr(t.part) + 1]
  }

  /** What the user sees of cell a when bytes have been laid over the cells from addr0 on: a read strobe among them
      fetches a byte from EEPROM into EEDR, unless that is stored to as well. */
  ghost predicate Seeing(t0: Target, R0: seq<byte>, t: Target, R: seq<byte>, addr0: nat, bytes: seq<byte>, a: nat)
    requires Sized(t) && |R0| == |R| == 32 && a < |t.data| == |t0.data|
  {
    var strobed := addr0 <= Eecr(t.part) < addr0 + |bytes| && bytes[Eecr(t.part) - addr0] % 8 == EERE;
    View(t, R)[a] == if addr0 <= a < addr0 + |bytes| then Held(t.part, a, bytes[a - addr0])
                     else if a == Eecr(t.part) + 1 && strobed then EepromAt(t, Eear(t)) else View(t0, R0)[a]
  }

  /** All cells written: what the user sees is the old view with the bytes laid over it. */
  lemma CellsView(t0: Target, R0: seq<byte>, t: Target, R: seq<byte>, addr0: nat, bytes: seq<byte>)
    requires Sized(t) && |t.data| == |t0.data| && t.part == t0.part
    requires Cells(t.part, t0.data, R0, t.data, R, addr0, addr0 + |bytes|, bytes)
    requires Eecr(t.part) + 1 < |t.data| && Fetched(t0, t, addr0, addr0 + |bytes|, bytes)
    requires 28 <= Eecr(t.part) && !Special(t.part, Eecr(t.part) + 1)
    ensures forall a: nat :: a < |t.data| && a != 32 + t.part.dwdr ==> Seeing(t0, R0, t, R, addr0, bytes, a)
  {
    hide Supported, Eear, EepromAt, Kept;
  }

  lemma EecrFits(t: Target)
    requires Sized(t)
    ensures 32 < Eecr(t.part) && Eecr(t.part) + 1 < |t.data|
    ensures !Special(t.part, Eecr(t.part)) && !Special(t.part, Eecr(t.part) + 1)
  {
  }

  /** The device and the cache between two bytes of DwWriteAddr. */
  ghost predicate Writing(t0: Target, R0: seq<byte>, t: Target, R: seq<byte>, addr0: nat, addr: nat, bytes: seq<byte>)
  {
    && Ready(t) && t0.part == t.part && |t0.data| == |t.data| && Eecr(t.part) + 1 < |t.data|
    && Controls(t0.(data := t.data), t)
    && Z(t) == addr && t.bp == 3 && t.transfer == 4 && (!t.eeMaster || JustStrobed(t.part, addr0, addr))
    && Cells(t.part, t0.data, R0, t.data, R, addr0, addr, bytes) && Fetched(t0, t, addr0, addr, bytes)
  }

  /** The first n bytes of a range can be written. */
  predicate Accepted(part: Part, addr0: int, bytes: seq<byte>, n: nat)
    requires n <= |bytes|
  {
    Writable(part, addr0, n) && StrobesOk(part, addr0, bytes[..n])
  }

  /** How far DwWriteAddr has come: every cell before addr is written, or the device has been asked for something
      undocumented. */
  ghost predicate SoFar(t0: Target, R0: seq<byte>, t: Target, R: seq<byte>, addr0: nat, addr: nat, bytes: seq<byte>)
  {
    && Sized(t) && t0.part == t.part && |R| == 32 && addr0 <= addr <= addr0 + |bytes| <= |t0.data| == |t.data|
    && if Accepted(t.part, addr0, bytes, addr - addr0) then
         && Writing(t0, R0, t, R, addr0, addr, bytes)
         && (t.repeating <==> !exists i :: addr0 <= i < addr && Special(t.part, i))
       else t.fault
  }

  /** An ordinary cell more can be written if no special one came before, a special one if all before could. */
  lemma WritableMore(part: Part, a: int, n: nat)
    ensures Writable(part, a, n + 1)
            <==> Writable(part, a, n) && (Special(part, a + n) || !exists i :: a <= i < a + n && Special(part, i))
  {
  }

  lemma AcceptedMore(part: Part, a: int, bytes: seq<byte>, n: nat)
    requires n < |bytes|
    ensures Accepted(part, a, bytes, n + 1)
            <==> Accepted(part, a, bytes, n)
                 && (Special(part, a + n) || !exists i :: a <= i < a + n && Special(part, i))
                 && (a + n == Eecr(part) ==> StrobeOk(bytes[n]))
  {
    hide Writable, Special, StrobeOk;
    WritableMore(part, a, n);
  }

  /** An ordinary cell other than EECR, in the repeating mode. */
  lemma StoreCell(t0: Target, R0: seq<byte>, t: Target, R: seq<byte>, addr0: nat, addr: nat, bytes: seq<byte>)
    requires Writing(t0, R0, t, R, addr0, addr, bytes) && addr0 <= addr < addr0 + |bytes| && addr < |t.data|
    requires t.repeating && !Special(t.part, addr) && addr != Eecr(t.part)
    ensures var u := Feed(t.(pc := 1), [0x20, bytes[addr - addr0]]);
            Writing(t0, R0, u, R, addr0, addr + 1, bytes) && u.repeating
  {
    hide Feed, Cells, Hi, Lo, Eear, EepromAt, Supported;
    CellWritten(t.part, t0.data, R0, t.data, R, addr0, addr, bytes, Lo(addr + 1), Hi(addr + 1));
    DataIsSmall(t);
    WordHalves(addr + 1);
    FeedStore(t.(pc := 1), bytes[addr - addr0]);
  }

  /** EECR, in the repeating mode. */
  lemma StrobeCell(t0: Target, R0: seq<byte>, t: Target, R: seq<byte>, addr0: nat, addr: nat, bytes: seq<byte>)
    requires Writing(t0, R0, t, R, addr0, addr, bytes) && addr0 <= addr < addr0 + |bytes| && addr < |t.data|
    requires t.repeating && addr == Eecr(t.part)
    ensures var b := bytes[addr - addr0];
            var u := Feed(t.(pc := 1), [0x20, b]);
            if StrobeOk(b) then Writing(t0, R0, u, R, addr0, addr + 1, bytes) && u.repeating else u.fault
  {
    hide Feed, Writing, Hi, Lo, Eear, EepromAt, Supported, Kept;
    var b := bytes[addr - addr0];
    var t1 := t.(pc := 1);
    WritingFacts(t0, R0, t, R, addr0, addr, bytes);
    DataIsSmall(t);
    FeedStrobe(t1, b);
    SameAddress(t, t1);
    if b % 8 == EERE {
      Strobed(t0, R0, t, R, addr0, bytes, b % 8 == EEMWE, EepromAt(t, Eear(t)));
    } else if StrobeOk(b) {
      var data := t.data[addr := Kept(b)];
      assert data[addr + 1 := t.data[addr + 1]] == data;
      Strobed(t0, R0, t, R, addr0, bytes, b % 8 == EEMWE, t.data[addr + 1]);
    }
  }

  lemma WritingFacts(t0: Target, R0: seq<byte>, t: Target, R: seq<byte>, addr0: nat, addr: nat, bytes: seq<byte>)
    requires Writing(t0, R0, t, R, addr0, addr, bytes)
    ensures Ready(t) && Z(t) == addr && t.bp == 3 && t.transfer == 4 && Eecr(t.part) + 1 < |t.data|
    ensures addr == Eecr(t.part) ==> !t.eeMaster
  {
    hide Cells, Fetched;
  }

  /** The state behind a strobe that leaves the given byte in EEDR. */
  lemma Strobed(t0: Target, R0: seq<byte>, t: Target, R: seq<byte>, addr0: nat, bytes: seq<byte>, master: bool,
      eedr: byte)
    requires Writing(t0, R0, t, R, addr0, Eecr(t.part), bytes) && Eecr(t.part) < addr0 + |bytes|
    requires addr0 <= Eecr(t.part)
    requires eedr
             == if bytes[Eecr(t.part) - addr0] % 8 == EERE then EepromAt(t, Eear(t)) else t.data[Eecr(t.part) + 1]
    ensures var e := Eecr(t.part);
            var data := t.data[e := Kept(bytes[e - addr0])][e + 1 := eedr];
            Writing(t0, R0, WithZ(t.(pc := 3, eeMaster := master, data := data), e + 1), R, addr0, e + 1, bytes)
  {
    hide Feed, Cells, Fetched, Hi, Lo, Eear, EepromAt, Supported, Kept;
    var e := Eecr(t.part);
    var data := t.data[e := Kept(bytes[e - addr0])][e + 1 := eedr];
    var u := WithZ(t.(pc := 3, eeMaster := master, data := data), e + 1);
    EecrFits(t);
    DataIsSmall(t);
    WordHalves(e + 1);
    CellStrobed(t.part, t0.data, R0, t.data, R, addr0, bytes, eedr, Lo(e + 1), Hi(e + 1));
    StrobeFetched(t0, R0, t, u, R, addr0, bytes, bytes[e - addr0]);
  }

  lemma StrobeFetched(t0: Target, R0: seq<byte>, t: Target, u: Target, R: seq<byte>, addr0: nat, bytes: seq<byte>,
      b: byte)
    requires Sized(t) && Sized(u) && u.part == t.part && u.eeprom == t.eeprom && u.unknown == t.unknown
    requires |u.data| == |t.data| == |t0.data| > Eecr(t.part) + 1 && addr0 <= Eecr(t.part) < addr0 + |bytes|
    requires b == bytes[Eecr(t.part) - addr0]
    requires Cells(t.part, t0.data, R0, t.data, R, addr0, Eecr(t.part), bytes)
    requires forall a :: Eecr(t.part) + 1 < a < |t.data| || 32 <= a < Eecr(t.part) ==> u.data[a] == t.data[a]
    requires u.data[Eecr(t.part) + 1] == if b % 8 == EERE then EepromAt(t, Eear(t)) else t.data[Eecr(t.part) + 1]
    ensures Fetched(t0, u, addr0, Eecr(t.part) + 1, bytes)
  {
    EecrFits(t);
    assert Eear(u) == Eear(t);
    assert t.data[Eecr(t.part) + 1] == t0.data[Eecr(t.part) + 1];
  }

  /** A cell that can be reached through Z. */
  method WriteCell(h: Host, b: byte, ghost t0: Target, ghost R0: seq<byte>, ghost addr0: nat, addr: nat,
      ghost bytes: seq<byte>)
    requires SoFar(t0, R0, h.t, h.R, addr0, addr, bytes) && addr < addr0 + |bytes| && b == bytes[addr - addr0]
    requires h.t.part == h.part && !Special(h.part, addr)
    modifies h`t
    ensures SoFar(t0, R0, h.t, h.R, addr0, addr + 1, bytes)
  {
    hide Feed, Cells, Fetched, Accepted, Hi, Lo, Special;
    ghost var t := h.t;
    AcceptedMore(h.part, addr0, bytes, addr - addr0);
    h.DwSetPC(1);
    if Accepted(h.part, addr0, bytes, addr - addr0) {
      if !t.repeating {
        OrdinaryAfterSpecial(h.t, b);
      } else if addr == Eecr(h.part) {
        StrobeCell(t0, R0, t, h.R, addr0, addr, bytes);
      } else {
        StoreCell(t0, R0, t, h.R, addr0, addr, bytes);
      }
    }
    h.DwSend([0x20, b]);
  }

  /** A special cell: cached, or skipped. */
  method SkipCell(h: Host, b: byte, ghost t0: Target, ghost R0: seq<byte>, ghost addr0: nat, addr: nat,
      ghost bytes: seq<byte>)
    requires SoFar(t0, R0, h.t, h.R, addr0, addr, bytes) && addr < addr0 + |bytes| && b == bytes[addr - addr0]
    requires h.t.part == h.part && Special(h.part, addr)
    modifies h`t, h`R
    ensures SoFar(t0, R0, h.t, h.R, addr0, addr + 1, bytes)
  {
    hide Feed, Cells, Hi, Lo, Accepted;
    AcceptedMore(h.part, addr0, bytes, addr - addr0);
    EecrFits(h.t);
    if Accepted(h.part, addr0, bytes, addr - addr0) {
      CellSkipped(h.part, t0.data, R0, h.t.data, h.R, addr0, addr, bytes, Lo(addr + 1), Hi(addr + 1));
    }
    if 28 <= addr <= 31 {
      h.R := h.R[addr := b];
    }
    h.DwSetZ(addr + 1);
  }

  /** DwWriteAddr: the device is asked for something undocumented if and only if an ordinary cell follows a special one
      in the range, or EECR is in it and the strobe bits of its byte are other than none, a read strobe, or the first
      half of a timed write.  Otherwise the cells then hold the bytes, EECR what it keeps of its byte, and nothing else
      the user sees has changed, but for EEDR after a read strobe. */
  method DwWriteAddr(h: Host, addr0: nat, bytes: seq<byte>)
    requires h.Valid() && addr0 + |bytes| <= |h.t.data|
    modifies h`t, h`R
    ensures |h.R| == 32 && Sized(h.t) && h.t.part == h.part && |h.t.data| == |old(h.t.data)|
    ensures !old(h.t.fault) ==> (h.t.fault <==> !Accepted(h.part, addr0, bytes, |bytes|))
    ensures Accepted(h.part, addr0, bytes, |bytes|) ==> h.Valid() && Controls(old(h.t).(data := h.t.data), h.t)
    ensures Accepted(h.part, addr0, bytes, |bytes|) ==>
              forall a: nat :: a < |h.t.data| && a != 32 + h.part.dwdr ==>
                Seeing(old(h.t), old(h.R), h.t, h.R, addr0, bytes, a)
  {
    hide Feed, Cells, Hi, Lo, View, Seeing, Fetched, Accepted;
    EecrFits(h.t);
    StartCells(h.part, h.t.data, h.R, addr0, bytes, Lo(addr0), Hi(addr0));
    h.DwSetZ(addr0);
    h.DwSetBP(3);
    FeedMode(h.t, 0x04);
    h.DwSend([0x66, 0xC2, 0x04]);
    StartAccepted(old(h.t), h.t, addr0, bytes);
    var addr, limit := addr0, addr0 + |bytes|;
    while addr < limit
      invariant addr0 <= addr <= limit == addr0 + |bytes|
      invariant SoFar(old(h.t), old(h.R), h.t, h.R, addr0, addr, bytes)
    {
      var b := bytes[addr - addr0];
      if addr < 28 || (addr > 31 && addr != 32 + h.part.dwdr) {
        WriteCell(h, b, old(h.t), old(h.R), addr0, addr, bytes);
      } else {
        SkipCell(h, b, old(h.t), old(h.R), addr0, addr, bytes);
      }
      addr := addr + 1;
    }
    if Accepted(h.part, addr0, bytes, |bytes|) { CellsView(old(h.t), old(h.R), h.t, h.R, addr0, bytes); }
  }

  lemma StartAccepted(t0: Target, t: Target, addr0: nat, bytes: seq<byte>)
    requires Sized(t) && |t.data| == |t0.data| > Eecr(t.part) + 1
    ensures Accepted(t.part, addr0, bytes, 0) && Fetched(t0, t, addr0, addr0, bytes)
  {
  }

  /** Both commands, one after the other: what has been written is read back, but for DWDR, and for the strobes in
      EECR. */
  method WriteThenRead(h: Host, addr: nat, bytes: seq<byte>) returns (buf: seq<byte>)
    requires h.Valid() && addr + |bytes| <= |h.t.data| && Accepted(h.part, addr, bytes, |bytes|)
    modifies h`t, h`R
    ensures h.Valid() && |buf| == |bytes|
    ensures forall i :: 0 <= i < |bytes| && addr + i != 32 + h.part.dwdr ==>
              buf[i] == Held(h.part, addr + i, bytes[i])
  {
    hide View, Accepted, Special;
    DwWriteAddr(h, addr, bytes);
    ghost var t, R := h.t, h.R;
    buf := DwReadAddr(h, addr, |bytes|);
    forall i | 0 <= i < |bytes| && addr + i != 32 + h.part.dwdr
      ensures buf[i] == Held(h.part, addr + i, bytes[i])
    {
      assert Seeing(old(h.t), old(h.R), t, R, addr, bytes, addr + i);
      assert buf[i] == View(t, R)[addr + i];
    }
  }

  lemma StartCells(part: Part, data: seq<byte>, R: seq<byte>, addr0: nat, bytes: seq<byte>, z: byte, zh: byte)
    requires |R| == 32 && |data| > 31 && addr0 + |bytes| <= |data|
    ensures Cells(part, data, R, data[30 := z][31 := zh], R, addr0, addr0, bytes)
  {
  }
}

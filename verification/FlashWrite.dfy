/** What WriteFlash amounts to as a whole: a range of bytes, written page by page, on a device whose flash cannot be
    read back while its read-while-write section is busy. */
module FlashWrite {
  import opened Bytes
  import opened DwTarget
  import opened FlashPages

  /** Flash contents, and whether they can be read. */
  datatype Flash = Flash(bytes: seq<byte>, busy: bool)

  /** What a range is read as while the flash is busy. */
  function Unreadable(blocked: nat -> byte, a: nat, n: nat): (s: seq<byte>)
    ensures |s| == n && forall i :: 0 <= i < n ==> s[i] == blocked(a + i)
  {
    seq<byte>(n, i requires 0 <= i < n => blocked(a + i))
  }

  function ReadBack(f: Flash, blocked: nat -> byte, a: nat, n: nat): (s: seq<byte>)
    requires a + n <= |f.bytes|
    ensures |s| == n
  {
    if f.busy then Unreadable(blocked, a, n) else f.bytes[a..a + n]
  }

  function WritePage(part: Part, f: Flash, a: nat, buf: seq<byte>): (g: Flash)
    requires a + |buf| <= |f.bytes|
    ensures |g.bytes| == |f.bytes|
  {
    Flash(Overlay(f.bytes, a, buf), LeavesBusy(part, f.bytes[a..a + |buf|], buf))
  }

  /** Part of a page: the rest of it is read back first. */
  function WritePart(part: Part, blocked: nat -> byte, f: Flash, base: nat, off: nat, buf: seq<byte>): (g: Flash)
    requires base + part.pageSize <= |f.bytes| && off + |buf| <= part.pageSize
    ensures |g.bytes| == |f.bytes|
  {
    WritePage(part, f, base, Overlay(ReadBack(f, blocked, base, part.pageSize), off, buf))
  }

  /** The bytes that are missing to a whole number of pages. */
  function Pad(ps: nat, n: nat): (p: nat)
    requires ps > 0
    ensures p < ps
    decreases n
  {
    if n == 0 then 0 else if n < ps then ps - n else Pad(ps, n - ps)
  }

  /** Whole pages, then part of a page. */
  function WriteFrom(part: Part, blocked: nat -> byte, f: Flash, a: nat, buf: seq<byte>): (g: Flash)
    requires part.pageSize > 0 && a + |buf| + Pad(part.pageSize, |buf|) <= |f.bytes|
    ensures |g.bytes| == |f.bytes|
    decreases |buf|
  {
    var ps := part.pageSize;
    if |buf| >= ps then WriteFrom(part, blocked, WritePage(part, f, a, buf[..ps]), a + ps, buf[ps..])
    else if buf == [] then f
    else WritePart(part, blocked, f, a, 0, buf)
  }

  lemma WriteFromStep(part: Part, blocked: nat -> byte, f: Flash, a: nat, buf: seq<byte>)
    requires part.pageSize > 0 && a + |buf| + Pad(part.pageSize, |buf|) <= |f.bytes| && |buf| >= part.pageSize
    ensures a + |buf| + Pad(part.pageSize, |buf| - part.pageSize) <= |f.bytes|
    ensures WriteFrom(part, blocked, f, a, buf)
            == WriteFrom(part, blocked, WritePage(part, f, a, buf[..part.pageSize]), a + part.pageSize,
                         buf[part.pageSize..])
  {
    hide WritePage;
  }

  lemma WriteFromEnd(part: Part, blocked: nat -> byte, f: Flash, a: nat, buf: seq<byte>)
    requires part.pageSize > 0 && a + |buf| + Pad(part.pageSize, |buf|) <= |f.bytes| && |buf| < part.pageSize
    ensures buf == [] ==> WriteFrom(part, blocked, f, a, buf) == f
    ensures buf != [] ==>
              && a + part.pageSize <= |f.bytes|
              && WriteFrom(part, blocked, f, a, buf) == WritePart(part, blocked, f, a, 0, buf)
  {
    hide WritePart;
  }

  function HeadLength(part: Part, addr: nat, n: nat): (head: nat)
    requires part.pageSize > 0
    ensures head <= n && (addr % part.pageSize != 0 ==> addr % part.pageSize + head <= part.pageSize)
    ensures addr % part.pageSize == 0 ==> head == 0
    ensures 0 <= addr % part.pageSize <= addr
  {
    var off := addr % part.pageSize;
    if off == 0 then 0 else if part.pageSize - off < n then part.pageSize - off else n
  }

  /** The range lies in pages that the flash has. */
  predicate InFlash(part: Part, f: Flash, addr: nat, n: nat) {
    && part.pageSize > 0
    && var head := HeadLength(part, addr, n);
       && (head > 0 ==> addr - addr % part.pageSize + part.pageSize <= |f.bytes|)
       && addr + n + Pad(part.pageSize, n - head) <= |f.bytes|
  }

  function AfterHead(part: Part, blocked: nat -> byte, f: Flash, addr: nat, buf: seq<byte>): (g: Flash)
    requires InFlash(part, f, addr, |buf|)
    ensures |g.bytes| == |f.bytes|
  {
    var off, head := addr % part.pageSize, HeadLength(part, addr, |buf|);
    if head == 0 then f else WritePart(part, blocked, f, addr - off, off, buf[..head])
  }

  /** WriteFlash: the rest of the page that addr lies in, whole pages, and the start of one more. */
  function WriteAll(part: Part, blocked: nat -> byte, f: Flash, addr: nat, buf: seq<byte>): (g: Flash)
    requires InFlash(part, f, addr, |buf|)
    ensures |g.bytes| == |f.bytes|
  {
    var head := HeadLength(part, addr, |buf|);
    WriteFrom(part, blocked, AfterHead(part, blocked, f, addr, buf), addr + head, buf[head..])
  }

  // ---- which bytes are lost

  /** The first byte of the last whole page of n bytes. */
  function LastPage(ps: nat, n: nat): (m: nat)
    requires 0 < ps <= n
    ensures m + ps <= n && m + ps == n - n % ps
  {
    WholeFits(n, ps);
    n - n % ps - ps
  }

  lemma LastPageLater(ps: nat, n: nat)
    requires 0 < ps && 2 * ps <= n
    ensures LastPage(ps, n) == ps + LastPage(ps, n - ps)
  {
    LessOne(n, ps);
  }

  lemma LastPageFirst(ps: nat, n: nat)
    requires 0 < ps <= n < 2 * ps
    ensures LastPage(ps, n) == 0
  {
    LessOne(n, ps);
    SmallRemainder(n - ps, ps);
  }

  lemma {:induction false} PadIs(ps: nat, n: nat)
    requires ps > 0
    ensures Pad(ps, n) == if n % ps == 0 then 0 else ps - n % ps
    decreases n
  {
    if n >= ps {
      LessOne(n, ps);
      PadIs(ps, n - ps);
    } else {
      SmallRemainder(n, ps);
    }
  }

  /** Whether the loop over whole pages leaves the flash busy. */
  predicate BusyAtTail(part: Part, bytes: seq<byte>, busy: bool, a: nat, buf: seq<byte>)
    requires part.pageSize > 0 && a + |buf| <= |bytes|
    decreases |buf|
  {
    var ps := part.pageSize;
    if |buf| >= ps then
      BusyAtTail(part, bytes, LeavesBusy(part, bytes[a..a + ps], buf[..ps]), a + ps, buf[ps..])
    else busy
  }

  /** Only the last of them matters. */
  lemma {:induction false} BusyAtTailIs(part: Part, bytes: seq<byte>, busy: bool, a: nat, buf: seq<byte>)
    requires part.pageSize > 0 && a + |buf| <= |bytes|
    ensures BusyAtTail(part, bytes, busy, a, buf)
            == if |buf| < part.pageSize then busy else
                 var m := LastPage(part.pageSize, |buf|);
                 LeavesBusy(part, bytes[a + m..a + m + part.pageSize], buf[m..m + part.pageSize])
    decreases |buf|
  {
    hide LeavesBusy, LastPage;
    var ps := part.pageSize;
    if |buf| >= ps {
      BusyAtTailIs(part, bytes, LeavesBusy(part, bytes[a..a + ps], buf[..ps]), a + ps, buf[ps..]);
      if |buf| >= 2 * ps {
        LastPageLater(ps, |buf|);
        var m := LastPage(ps, |buf|);
        assert buf[ps..][m - ps..m] == buf[m..m + ps];
      } else {
        LastPageFirst(ps, |buf|);
      }
    }
  }

  lemma {:induction false} BusyAtTailSame(part: Part, b1: seq<byte>, b2: seq<byte>, busy: bool, a: nat, buf: seq<byte>)
    requires part.pageSize > 0 && a + |buf| <= |b1| == |b2| && b1[a..] == b2[a..]
    ensures BusyAtTail(part, b1, busy, a, buf) == BusyAtTail(part, b2, busy, a, buf)
    decreases |buf|
  {
    var ps := part.pageSize;
    if |buf| >= ps {
      assert b1[a..a + ps] == b1[a..][..ps] && b2[a..a + ps] == b2[a..][..ps];
      assert b1[a + ps..] == b1[a..][ps..] && b2[a + ps..] == b2[a..][ps..];
      BusyAtTailSame(part, b1, b2, LeavesBusy(part, b1[a..a + ps], buf[..ps]), a + ps, buf[ps..]);
    }
  }

  /** Every byte behind a page boundary: written, kept, or lost. */
  lemma {:induction false} WriteFromAt(part: Part, blocked: nat -> byte, f: Flash, a: nat, buf: seq<byte>, i: nat)
    requires part.pageSize > 0 && a + |buf| + Pad(part.pageSize, |buf|) <= |f.bytes| && i < |f.bytes|
    ensures WriteFrom(part, blocked, f, a, buf).bytes[i]
            == if a <= i < a + |buf| then buf[i - a]
               else if BusyAtTail(part, f.bytes, f.busy, a, buf)
                       && a + |buf| <= i < a + |buf| + Pad(part.pageSize, |buf|) then blocked(i)
               else f.bytes[i]
    decreases |buf|
  {
    hide LeavesBusy, Overlay, Unreadable, WritePage;
    var ps := part.pageSize;
    if |buf| >= ps {
      var g := WritePage(part, f, a, buf[..ps]);
      WritePageAt(part, f, a, buf[..ps], i);
      WriteFromAt(part, blocked, g, a + ps, buf[ps..], i);
      BusyAtTailSame(part, g.bytes, f.bytes, g.busy, a + ps, buf[ps..]);
    } else if buf != [] {
      LastPartAt(part, blocked, f, a, buf, i);
    }
  }

  lemma WritePageAt(part: Part, f: Flash, a: nat, buf: seq<byte>, i: nat)
    requires a + |buf| <= |f.bytes| && i < |f.bytes|
    ensures var g := WritePage(part, f, a, buf);
            && g.bytes[i] == (if a <= i < a + |buf| then buf[i - a] else f.bytes[i])
            && g.bytes[a + |buf|..] == f.bytes[a + |buf|..]
            && g.busy == LeavesBusy(part, f.bytes[a..a + |buf|], buf)
  {
    hide LeavesBusy;
  }

  lemma LastPartAt(part: Part, blocked: nat -> byte, f: Flash, a: nat, buf: seq<byte>, i: nat)
    requires 0 < |buf| < part.pageSize && a + part.pageSize <= |f.bytes| && i < |f.bytes|
    ensures WritePart(part, blocked, f, a, 0, buf).bytes[i]
            == if a <= i < a + |buf| then buf[i - a]
               else if f.busy && a + |buf| <= i < a + part.pageSize then blocked(i) else f.bytes[i]
  {
    hide LeavesBusy;
  }

  /** The first page as it is written when addr lies inside it. */
  function HeadPage(part: Part, blocked: nat -> byte, f: Flash, addr: nat, buf: seq<byte>): (page: seq<byte>)
    requires InFlash(part, f, addr, |buf|) && HeadLength(part, addr, |buf|) > 0
    ensures |page| == part.pageSize
  {
    var off := addr % part.pageSize;
    Overlay(ReadBack(f, blocked, addr - off, part.pageSize), off, buf[..HeadLength(part, addr, |buf|)])
  }

  /** Whether the flash is busy before a part of a page at the end is read: what matters is the page before it, or, if
      nothing has been written yet, the state at the start. */
  predicate BusyBeforeTail(part: Part, blocked: nat -> byte, f: Flash, addr: nat, buf: seq<byte>)
    requires InFlash(part, f, addr, |buf|)
  {
    var ps, off, head := part.pageSize, addr % part.pageSize, HeadLength(part, addr, |buf|);
    if |buf| - head >= ps then
      var p := addr + head + LastPage(ps, |buf| - head);
      LeavesBusy(part, f.bytes[p..p + ps], buf[p - addr..p - addr + ps])
    else if head > 0 then
      LeavesBusy(part, f.bytes[addr - off..addr - off + ps], HeadPage(part, blocked, f, addr, buf))
    else f.busy
  }

  /** How many bytes of the range lie in a page that it does not fill, behind whole pages or the first part of one. */
  function TailLength(part: Part, addr: nat, n: nat): (t: nat)
    requires part.pageSize > 0
    ensures t < part.pageSize && t <= n - HeadLength(part, addr, n)
    ensures n - HeadLength(part, addr, n) < part.pageSize ==> t == n - HeadLength(part, addr, n)
  {
    var m := n - HeadLength(part, addr, n);
    if m < part.pageSize then SmallRemainder(m, part.pageSize); m % part.pageSize
    else WholeFits(m, part.pageSize); m % part.pageSize
  }

  /** Behind the last byte, in its page. */
  predicate InTail(part: Part, addr: nat, n: nat, i: int)
    requires part.pageSize > 0
  {
    var t := TailLength(part, addr, n);
    t > 0 && addr + n <= i < addr + n - t + part.pageSize
  }

  /** Outside the range, in a first page that is not written as a whole. */
  predicate InHead(part: Part, addr: nat, n: nat, i: int)
    requires part.pageSize > 0
  {
    var base := addr - addr % part.pageSize;
    HeadLength(part, addr, n) > 0 && base <= i < base + part.pageSize && !(addr <= i < addr + n)
  }

  /** The bytes that WriteFlash loses: those of a partly written page that it could not read back. */
  predicate Lost(part: Part, blocked: nat -> byte, f: Flash, addr: nat, buf: seq<byte>, i: int)
    requires InFlash(part, f, addr, |buf|)
  {
    || (f.busy && InHead(part, addr, |buf|, i))
    || (BusyBeforeTail(part, blocked, f, addr, buf) && InTail(part, addr, |buf|, i))
  }

  lemma AfterHeadAt(part: Part, blocked: nat -> byte, f: Flash, addr: nat, buf: seq<byte>, i: nat)
    requires InFlash(part, f, addr, |buf|) && i < |f.bytes|
    ensures var off, head := addr % part.pageSize, HeadLength(part, addr, |buf|);
            AfterHead(part, blocked, f, addr, buf).bytes[i]
            == if addr <= i < addr + head then buf[i - addr]
               else if head > 0 && f.busy && addr - off <= i < addr - off + part.pageSize then blocked(i)
               else f.bytes[i]
  {
    hide LeavesBusy;
  }

  /** Behind the first page nothing has changed, and whether the flash is busy depends on that page alone. */
  lemma AfterHeadRest(part: Part, blocked: nat -> byte, f: Flash, addr: nat, buf: seq<byte>)
    requires InFlash(part, f, addr, |buf|) && HeadLength(part, addr, |buf|) < |buf|
    ensures var off, head := addr % part.pageSize, HeadLength(part, addr, |buf|);
            var g := AfterHead(part, blocked, f, addr, buf);
            && g.bytes[addr + head..] == f.bytes[addr + head..]
            && g.busy == if head == 0 then f.busy
                         else LeavesBusy(part, f.bytes[addr - off..addr - off + part.pageSize],
                                         HeadPage(part, blocked, f, addr, buf))
  {
    hide LeavesBusy;
  }

  /** The state in which the part at the end is reached, without going through the loop. */
  lemma BusyBeforeTailIs(part: Part, blocked: nat -> byte, f: Flash, addr: nat, buf: seq<byte>)
    requires InFlash(part, f, addr, |buf|) && HeadLength(part, addr, |buf|) < |buf|
    ensures var head := HeadLength(part, addr, |buf|);
            var g := AfterHead(part, blocked, f, addr, buf);
            BusyAtTail(part, g.bytes, g.busy, addr + head, buf[head..])
            == BusyBeforeTail(part, blocked, f, addr, buf)
  {
    hide LeavesBusy, AfterHead, HeadPage, BusyAtTail, LastPage, Pad;
    var head := HeadLength(part, addr, |buf|);
    var g := AfterHead(part, blocked, f, addr, buf);
    AfterHeadRest(part, blocked, f, addr, buf);
    BusyAtTailIs(part, g.bytes, g.busy, addr + head, buf[head..]);
    if |buf| - head >= part.pageSize {
      var m := LastPage(part.pageSize, |buf| - head);
      SameBehind(g.bytes, f.bytes, addr + head, addr + head + m, part.pageSize);
      SliceBehind(buf, head, m, part.pageSize);
    }
  }

  lemma SliceBehind(s: seq<byte>, a: nat, m: nat, n: nat)
    requires a + m + n <= |s|
    ensures s[a..][m..m + n] == s[a + m..a + m + n]
  {
  }

  lemma SameBehind(s: seq<byte>, t: seq<byte>, a: nat, p: nat, n: nat)
    requires a <= p && p + n <= |s| == |t| && s[a..] == t[a..]
    ensures s[p..p + n] == t[p..p + n]
  {
    assert s[p..p + n] == s[a..][p - a..p - a + n] && t[p..p + n] == t[a..][p - a..p - a + n];
  }

  /** Every byte after WriteFlash: written, kept, or lost. */
  lemma WriteAllAt(part: Part, blocked: nat -> byte, f: Flash, addr: nat, buf: seq<byte>, i: nat)
    requires InFlash(part, f, addr, |buf|) && i < |f.bytes|
    ensures WriteAll(part, blocked, f, addr, buf).bytes[i]
            == if addr <= i < addr + |buf| then buf[i - addr]
               else if Lost(part, blocked, f, addr, buf, i) then blocked(i) else f.bytes[i]
  {
    hide AfterHead, WriteFrom, BusyAtTail, BusyBeforeTail, Pad;
    var head := HeadLength(part, addr, |buf|);
    AfterHeadAt(part, blocked, f, addr, buf, i);
    WriteFromAt(part, blocked, AfterHead(part, blocked, f, addr, buf), addr + head, buf[head..], i);
    PadIs(part.pageSize, |buf| - head);
    if head < |buf| {
      BusyBeforeTailIs(part, blocked, f, addr, buf);
    } else {
      SmallRemainder(0, part.pageSize);
    }
  }

  /** WriteFlash is an exact overlay if and only if every byte it loses happened to have the value that unreadable flash
      is read as. */
  lemma ExactOverlayIff(part: Part, blocked: nat -> byte, f: Flash, addr: nat, buf: seq<byte>)
    requires InFlash(part, f, addr, |buf|) && addr + |buf| <= |f.bytes|
    ensures WriteAll(part, blocked, f, addr, buf).bytes == Overlay(f.bytes, addr, buf)
            <==> forall i: nat :: i < |f.bytes| && Lost(part, blocked, f, addr, buf, i) ==> f.bytes[i] == blocked(i)
  {
    hide WriteAll, Lost, InFlash;
    var g, h := WriteAll(part, blocked, f, addr, buf).bytes, Overlay(f.bytes, addr, buf);
    forall i: nat | i < |f.bytes|
      ensures g[i] == if addr <= i < addr + |buf| then buf[i - addr]
                      else if Lost(part, blocked, f, addr, buf, i) then blocked(i) else f.bytes[i]
      ensures h[i] == if addr <= i < addr + |buf| then buf[i - addr] else f.bytes[i]
    {
      WriteAllAt(part, blocked, f, addr, buf, i);
    }
    forall i: nat | i < |f.bytes| && Lost(part, blocked, f, addr, buf, i) ensures !(addr <= i < addr + |buf|) {
      LostOutside(part, blocked, f, addr, buf, i);
    }
  }

  lemma LostOutside(part: Part, blocked: nat -> byte, f: Flash, addr: nat, buf: seq<byte>, i: nat)
    requires InFlash(part, f, addr, |buf|) && Lost(part, blocked, f, addr, buf, i)
    ensures !(addr <= i < addr + |buf|)
  {
    hide BusyBeforeTail;
  }

  // ---- when anything is lost

  /** Something can be lost: part of a page is read while the flash is busy at the start, or, on a part with a boot
      section, the range ends inside a page and the page before that changes to all ones. */
  predicate AtRisk(part: Part, f: Flash, addr: nat, buf: seq<byte>)
    requires InFlash(part, f, addr, |buf|) && addr + |buf| <= |f.bytes|
  {
    var ps, head := part.pageSize, HeadLength(part, addr, |buf|);
    || (f.busy && (head > 0 || 0 < |buf| < ps))
    || (part.boot > 0 && TailLength(part, addr, |buf|) > 0 && (head > 0 || |buf| - head >= ps)
        && var p := PageBefore(part, addr, |buf|);
           var page := Overlay(f.bytes, addr, buf)[p..p + ps];
           f.bytes[p..p + ps] != page && AllOnes(page))
  }

  /** The page before the one that the range ends in, if it is written too. */
  function PageBefore(part: Part, addr: nat, n: nat): (p: nat)
    requires part.pageSize > 0
    requires TailLength(part, addr, n) > 0
    requires HeadLength(part, addr, n) > 0 || n - HeadLength(part, addr, n) >= part.pageSize
    ensures p + part.pageSize == addr + n - TailLength(part, addr, n)
  {
    var ps, head := part.pageSize, HeadLength(part, addr, n);
    if n - head >= ps then addr + head + LastPage(ps, n - head) else addr - addr % ps
  }

  /** The page before is written as the range says, unless its own rest could not be read. */
  lemma PageBeforeWritten(part: Part, blocked: nat -> byte, f: Flash, addr: nat, buf: seq<byte>)
    requires InFlash(part, f, addr, |buf|) && addr + |buf| <= |f.bytes|
    requires TailLength(part, addr, |buf|) > 0
    requires |buf| - HeadLength(part, addr, |buf|) >= part.pageSize
             || (HeadLength(part, addr, |buf|) > 0 && !f.busy)
    ensures var p := PageBefore(part, addr, |buf|);
            BusyBeforeTail(part, blocked, f, addr, buf)
            == LeavesBusy(part, f.bytes[p..p + part.pageSize],
                          Overlay(f.bytes, addr, buf)[p..p + part.pageSize])
  {
    hide LeavesBusy, LastPage, TailLength;
    var ps, off, head := part.pageSize, addr % part.pageSize, HeadLength(part, addr, |buf|);
    var p := PageBefore(part, addr, |buf|);
    if |buf| - head >= ps {
      assert Overlay(f.bytes, addr, buf)[p..p + ps] == buf[p - addr..p - addr + ps];
    } else {
      HeadIsWritten(part, blocked, f, addr, buf);
    }
  }

  lemma HeadIsWritten(part: Part, blocked: nat -> byte, f: Flash, addr: nat, buf: seq<byte>)
    requires InFlash(part, f, addr, |buf|) && addr + |buf| <= |f.bytes| && !f.busy
    requires 0 < HeadLength(part, addr, |buf|) < |buf|
    ensures var base := addr - addr % part.pageSize;
            HeadPage(part, blocked, f, addr, buf) == Overlay(f.bytes, addr, buf)[base..base + part.pageSize]
  {
  }

  /** Without a risk nothing is lost. */
  lemma NoRisk(part: Part, blocked: nat -> byte, f: Flash, addr: nat, buf: seq<byte>, i: nat)
    requires InFlash(part, f, addr, |buf|) && addr + |buf| <= |f.bytes| && !AtRisk(part, f, addr, buf)
    ensures !Lost(part, blocked, f, addr, buf, i)
  {
    hide HeadPage, Overlay, AllOnes, TailLength, LastPage, PageBefore;
    var ps, head := part.pageSize, HeadLength(part, addr, |buf|);
    if TailLength(part, addr, |buf|) > 0 {
      if |buf| - head >= ps || (head > 0 && !f.busy) {
        PageBeforeWritten(part, blocked, f, addr, buf);
      }
    }
  }

  /** With it, a byte is lost whatever unreadable flash is read as. */
  lemma Risk(part: Part, blocked: nat -> byte, f: Flash, addr: nat, buf: seq<byte>) returns (i: nat)
    requires InFlash(part, f, addr, |buf|) && addr + |buf| <= |f.bytes| && AtRisk(part, f, addr, buf)
    ensures i < |f.bytes| && Lost(part, blocked, f, addr, buf, i)
  {
    hide HeadPage, Overlay, AllOnes, LastPage, PageBefore;
    var ps, head := part.pageSize, HeadLength(part, addr, |buf|);
    PadIs(ps, |buf| - head);
    if f.busy && head > 0 {
      i := addr - addr % ps;
    } else {
      i := addr + |buf|;
      if |buf| - head >= ps || (head > 0 && !f.busy) {
        PageBeforeWritten(part, blocked, f, addr, buf);
      }
    }
  }

  /** The overlay is exact whatever unreadable flash is read as, if and only if there is no risk. */
  lemma AlwaysExactIff(part: Part, f: Flash, addr: nat, buf: seq<byte>)
    requires InFlash(part, f, addr, |buf|) && addr + |buf| <= |f.bytes|
    ensures (forall blocked: nat -> byte :: WriteAll(part, blocked, f, addr, buf).bytes == Overlay(f.bytes, addr, buf))
            <==> !AtRisk(part, f, addr, buf)
  {
    hide WriteAll, Overlay, Lost, AtRisk, InFlash;
    if AtRisk(part, f, addr, buf) {
      var other: nat -> byte := (i: nat) => if i < |f.bytes| && f.bytes[i] == 0 then 1 else 0;
      var i := Risk(part, other, f, addr, buf);
      ExactOverlayIff(part, other, f, addr, buf);
      assert f.bytes[i] != other(i);
    } else {
      forall blocked: nat -> byte
        ensures WriteAll(part, blocked, f, addr, buf).bytes == Overlay(f.bytes, addr, buf)
      {
        forall i: nat | i < |f.bytes| ensures !Lost(part, blocked, f, addr, buf, i) {
          NoRisk(part, blocked, f, addr, buf, i);
        }
        ExactOverlayIff(part, blocked, f, addr, buf);
      }
    }
  }

  /** A part without a boot section never loses anything. */
  lemma NoBootSectionIsExact(part: Part, blocked: nat -> byte, f: Flash, addr: nat, buf: seq<byte>)
    requires InFlash(part, f, addr, |buf|) && addr + |buf| <= |f.bytes| && part.boot == 0 && !f.busy
    ensures WriteAll(part, blocked, f, addr, buf) == Flash(Overlay(f.bytes, addr, buf), false)
  {
    hide WriteFrom, Pad, LeavesBusy;
    assert !AtRisk(part, f, addr, buf);
    AlwaysExactIff(part, f, addr, buf);
    assert WriteAll(part, blocked, f, addr, buf).bytes == Overlay(f.bytes, addr, buf);
    var head := HeadLength(part, addr, |buf|);
    AfterHeadReadable(part, blocked, f, addr, buf);
    StaysReadable(part, blocked, AfterHead(part, blocked, f, addr, buf), addr + head, buf[head..]);
  }

  lemma AfterHeadReadable(part: Part, blocked: nat -> byte, f: Flash, addr: nat, buf: seq<byte>)
    requires InFlash(part, f, addr, |buf|) && part.boot == 0 && !f.busy
    ensures !AfterHead(part, blocked, f, addr, buf).busy
  {
  }

  lemma {:induction false} StaysReadable(part: Part, blocked: nat -> byte, f: Flash, a: nat, buf: seq<byte>)
    requires part.pageSize > 0 && a + |buf| + Pad(part.pageSize, |buf|) <= |f.bytes| && part.boot == 0 && !f.busy
    ensures !WriteFrom(part, blocked, f, a, buf).busy
    decreases |buf|
  {
    var ps := part.pageSize;
    if |buf| >= ps { StaysReadable(part, blocked, WritePage(part, f, a, buf[..ps]), a + ps, buf[ps..]); }
  }

  /** With readable flash, a range that ends with a page loses nothing either. */
  lemma WholePagesAreExact(part: Part, blocked: nat -> byte, f: Flash, addr: nat, buf: seq<byte>)
    requires InFlash(part, f, addr, |buf|) && addr + |buf| <= |f.bytes| && !f.busy
    requires TailLength(part, addr, |buf|) == 0
    ensures WriteAll(part, blocked, f, addr, buf).bytes == Overlay(f.bytes, addr, buf)
  {
    hide WriteAll, Overlay, InFlash;
    assert !AtRisk(part, f, addr, buf);
    AlwaysExactIff(part, f, addr, buf);
  }

  /** A byte is lost: a page is only erased, and then the next page cannot be read back before its first byte is
      written.  The part is an ATmega88. */
  lemma LossExample(part: Part, blocked: nat -> byte)
    requires part.pageSize == 64 && part.boot == 0x0F80 && blocked(65) != 0x12
    ensures var f := Flash(Repeat(0, 64) + Repeat(0x12, 64), false);
            var buf := Repeat(0xff, 64) + [0x34];
            && InFlash(part, f, 0, |buf|)
            && WriteAll(part, blocked, f, 0, buf).bytes != Overlay(f.bytes, 0, buf)
  {
    hide WriteAll;
    var f := Flash(Repeat(0, 64) + Repeat(0x12, 64), false);
    var buf := Repeat(0xff, 64) + [0x34];
    assert Pad(64, 65) == Pad(64, 1) == 63;
    assert f.bytes[0..64] == Repeat(0, 64) && buf[0..64] == Repeat(0xff, 64);
    assert f.bytes[0] != buf[0];
    assert LastPage(64, 65) == 0;
    assert Lost(part, blocked, f, 0, buf, 65);
    WriteAllAt(part, blocked, f, 0, buf, 65);
  }

  // ---- the state at the end

  /** The first byte of the last page written, counted from addr. */
  function EndPage(ps: nat, n: nat): (m: nat)
    requires ps > 0 && n > 0
    ensures m < n <= m + ps && m == n - 1 - (n - 1) % ps
  {
    n - 1 - (n - 1) % ps
  }

  lemma EndPageLater(ps: nat, n: nat)
    requires 0 < ps < n
    ensures EndPage(ps, n) == ps + EndPage(ps, n - ps)
  {
    LessOne(n - 1, ps);
  }

  lemma EndPageFirst(ps: nat, n: nat)
    requires 0 < n <= ps
    ensures EndPage(ps, n) == 0
  {
    SmallRemainder(n - 1, ps);
  }

  /** The pages from addr on have been written: the flash is busy if the last of them has changed to all ones. */
  lemma {:induction false} WriteFromBusy(part: Part, blocked: nat -> byte, f: Flash, a: nat, buf: seq<byte>)
    requires part.pageSize > 0 && a + |buf| + Pad(part.pageSize, |buf|) <= |f.bytes| && buf != []
    ensures var ps, g := part.pageSize, WriteFrom(part, blocked, f, a, buf);
            var p := a + EndPage(ps, |buf|);
            p + ps <= |f.bytes| && g.busy == LeavesBusy(part, f.bytes[p..p + ps], g.bytes[p..p + ps])
    decreases |buf|
  {
    hide LeavesBusy, Unreadable, EndPage, WritePage, Overlay;
    var ps := part.pageSize;
    if |buf| > ps {
      var g := WritePage(part, f, a, buf[..ps]);
      EndPageLater(ps, |buf|);
      WritePageAt(part, f, a, buf[..ps], a);
      WriteFromBusy(part, blocked, g, a + ps, buf[ps..]);
      SameBehind(g.bytes, f.bytes, a + ps, a + EndPage(ps, |buf|), ps);
    } else {
      EndPageFirst(ps, |buf|);
      if |buf| == ps {
        OnePageBusy(part, blocked, f, a, buf);
      } else {
        LastPartBusy(part, blocked, f, a, buf);
      }
    }
  }

  lemma OnePageBusy(part: Part, blocked: nat -> byte, f: Flash, a: nat, buf: seq<byte>)
    requires part.pageSize > 0 && |buf| == part.pageSize && a + |buf| + Pad(part.pageSize, |buf|) <= |f.bytes|
    ensures var ps, g := part.pageSize, WriteFrom(part, blocked, f, a, buf);
            g.busy == LeavesBusy(part, f.bytes[a..a + ps], g.bytes[a..a + ps])
  {
    hide LeavesBusy;
    var g := WritePage(part, f, a, buf);
    assert buf[..|buf|] == buf && buf[|buf|..] == [];
    assert WriteFrom(part, blocked, g, a + |buf|, []) == g;
    assert g.bytes[a..a + |buf|] == buf;
  }

  lemma LastPartBusy(part: Part, blocked: nat -> byte, f: Flash, a: nat, buf: seq<byte>)
    requires 0 < |buf| < part.pageSize && a + part.pageSize <= |f.bytes|
    ensures var ps, g := part.pageSize, WritePart(part, blocked, f, a, 0, buf);
            g.busy == LeavesBusy(part, f.bytes[a..a + ps], g.bytes[a..a + ps])
  {
    hide LeavesBusy, Unreadable;
    var page := Overlay(ReadBack(f, blocked, a, part.pageSize), 0, buf);
    assert WritePart(part, blocked, f, a, 0, buf).bytes[a..a + part.pageSize] == page;
  }

  /** The page that the range ends in has changed to all ones, on a part with a boot section. */
  predicate LastPageErased(part: Part, f: Flash, g: Flash, addr: nat, n: nat)
    requires part.pageSize > 0 && n > 0 && InFlash(part, f, addr, n) && |g.bytes| == |f.bytes|
  {
    var ps, head := part.pageSize, HeadLength(part, addr, n);
    var p := if head < n then addr + head + EndPage(ps, n - head) else addr - addr % ps;
    p + ps <= |f.bytes| && LeavesBusy(part, f.bytes[p..p + ps], g.bytes[p..p + ps])
  }

  lemma WriteAllBusy(part: Part, blocked: nat -> byte, f: Flash, addr: nat, buf: seq<byte>)
    requires InFlash(part, f, addr, |buf|) && buf != []
    ensures var g := WriteAll(part, blocked, f, addr, buf);
            g.busy == LastPageErased(part, f, g, addr, |buf|)
  {
    hide LeavesBusy, EndPage, AfterHead, HeadPage, Pad, WriteFrom;
    var ps, head := part.pageSize, HeadLength(part, addr, |buf|);
    var f1 := AfterHead(part, blocked, f, addr, buf);
    if head < |buf| {
      WriteFromBusy(part, blocked, f1, addr + head, buf[head..]);
      AfterHeadRest(part, blocked, f, addr, buf);
      SameBehind(f1.bytes, f.bytes, addr + head, addr + head + EndPage(ps, |buf| - head), ps);
    } else {
      assert buf[head..] == [];
      NothingMore(part, blocked, f1, addr + head);
      OnlyHeadBusy(part, blocked, f, addr, buf);
    }
  }

  lemma NothingMore(part: Part, blocked: nat -> byte, f: Flash, a: nat)
    requires part.pageSize > 0 && a + Pad(part.pageSize, 0) <= |f.bytes|
    ensures WriteFrom(part, blocked, f, a, []) == f
  {
  }

  lemma OnlyHeadBusy(part: Part, blocked: nat -> byte, f: Flash, addr: nat, buf: seq<byte>)
    requires InFlash(part, f, addr, |buf|) && buf != [] && HeadLength(part, addr, |buf|) == |buf|
    ensures var ps, g := part.pageSize, AfterHead(part, blocked, f, addr, buf);
            var p := addr - addr % ps;
            p + ps <= |f.bytes| && g.busy == LeavesBusy(part, f.bytes[p..p + ps], g.bytes[p..p + ps])
  {
    hide LeavesBusy;
    var ps, off := part.pageSize, addr % part.pageSize;
    var page := Overlay(ReadBack(f, blocked, addr - off, ps), off, buf);
    assert buf[..|buf|] == buf;
    assert AfterHead(part, blocked, f, addr, buf).bytes[addr - off..addr - off + ps] == page;
  }

  /** The range itself holds what was to be written, whatever is lost around it. */
  lemma WrittenBytes(part: Part, blocked: nat -> byte, f: Flash, addr: nat, buf: seq<byte>)
    requires InFlash(part, f, addr, |buf|) && addr + |buf| <= |f.bytes|
    ensures WriteAll(part, blocked, f, addr, buf).bytes[addr..addr + |buf|] == buf
  {
    hide WriteAll, Lost, InFlash;
    var g := WriteAll(part, blocked, f, addr, buf);
    forall i | 0 <= i < |buf| ensures g.bytes[addr..addr + |buf|][i] == buf[i] {
      WriteAllAt(part, blocked, f, addr, buf, addr + i);
    }
  }

  predicate PageSize(ps: nat) { ps in {16, 32, 64, 128} }

  // Arithmetic on page boundaries, size by size.

  lemma NextPage(ps: nat, a: nat)
    requires PageSize(ps) && a % ps == 0
    ensures (a + ps) % ps == 0
  {
    if ps == 16 {
      assert a % 16 == 0 && (a + 16) % 16 == 0;
    } else if ps == 32 {
      assert a % 32 == 0 && (a + 32) % 32 == 0;
    } else if ps == 64 {
      assert a % 64 == 0 && (a + 64) % 64 == 0;
    } else {
      assert a % 128 == 0 && (a + 128) % 128 == 0;
    }
  }

  lemma PageGap(ps: nat, a: nat, size: nat)
    requires PageSize(ps) && a % ps == 0 && size % ps == 0 && a < size
    ensures a + ps <= size
  {
    if ps == 16 {
      assert a % 16 == size % 16 == 0 && a + 16 <= size;
    } else if ps == 32 {
      assert a % 32 == size % 32 == 0 && a + 32 <= size;
    } else if ps == 64 {
      assert a % 64 == size % 64 == 0 && a + 64 <= size;
    } else {
      assert a % 128 == size % 128 == 0 && a + 128 <= size;
    }
  }

  lemma PageStart(ps: nat, addr: nat)
    requires PageSize(ps)
    ensures (addr - addr % ps) % ps == 0 && addr % ps < ps
    ensures addr % ps != 0 ==> (addr - addr % ps + ps) % ps == 0
  {
    PageDown(ps, addr);
    NextPage(ps, addr - addr % ps);
  }

  lemma PagesDown(addr: nat)
    ensures (addr - addr % 16) % 16 == 0 && (addr - addr % 32) % 32 == 0
    ensures (addr - addr % 64) % 64 == 0 && (addr - addr % 128) % 128 == 0
  {
  }

  lemma PageDown(ps: nat, addr: nat)
    requires PageSize(ps)
    ensures (addr - addr % ps) % ps == 0 && addr % ps < ps
  {
    PagesDown(addr);
  }

  lemma {:induction false} PadFits(ps: nat, a: nat, n: nat, size: nat)
    requires PageSize(ps) && a % ps == 0 && size % ps == 0 && a + n <= size
    ensures a + n + Pad(ps, n) <= size
    decreases n
  {
    if n >= ps {
      NextPage(ps, a);
      PadFits(ps, a + ps, n - ps, size);
    } else if n > 0 {
      PageGap(ps, a, size);
    }
  }

  /** Every range within the flash of a supported part will do. */
  lemma RangeInFlash(part: Part, f: Flash, addr: nat, n: nat)
    requires Supported(part) && |f.bytes| == part.flashSize && addr + n <= part.flashSize
    ensures InFlash(part, f, addr, n)
  {
    hide Supported, Pad;
    SizesOf(part);
    HeadFits(part, addr, n);
    var ps, head := part.pageSize, HeadLength(part, addr, n);
    NoPad(ps);
    if head < n {
      PadFits(ps, addr + head, n - head, part.flashSize);
    }
  }

  lemma HeadFits(part: Part, addr: nat, n: nat)
    requires PageSize(part.pageSize) && part.flashSize % part.pageSize == 0 && addr + n <= part.flashSize
    ensures var head := HeadLength(part, addr, n);
            && (head > 0 ==> addr - addr % part.pageSize + part.pageSize <= part.flashSize)
            && (head < n ==> (addr + head) % part.pageSize == 0)
  {
    PageStart(part.pageSize, addr);
    if HeadLength(part, addr, n) > 0 { PageGap(part.pageSize, addr - addr % part.pageSize, part.flashSize); }
  }

  lemma SizesOf(part: Part)
    requires Supported(part)
    ensures PageSize(part.pageSize) && part.flashSize % part.pageSize == 0
  {
  }

  lemma NoPad(ps: nat)
    requires ps > 0
    ensures Pad(ps, 0) == 0
  {
  }
}

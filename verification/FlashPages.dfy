/** Flash pages: what programming and erasing can do, how little of it is enough, and what writing a range of bytes page
    by page amounts to on a device whose flash may be unreadable for a while. */
module FlashPages {
  import opened Bytes
  import opened DwTarget

  // ---- bits

  lemma AndDigits(a: byte, b: byte)
    ensures And(a, b) / 2 == And(a / 2, b / 2)
    ensures And(a, b) % 2 == if a % 2 == 1 && b % 2 == 1 then 1 else 0
    ensures a == 0 || b == 0 ==> And(a, b) == 0
  {
  }

  lemma SameDigits(a: byte, b: byte)
    ensures a == b <==> a / 2 == b / 2 && a % 2 == b % 2
  {
  }

  lemma {:induction false} AndOnes(b: byte, k: nat)
    requires k <= 8 && b < Pow2(k)
    ensures Pow2(k) - 1 < 256 && And(Pow2(k) - 1, b) == b
    decreases k
  {
    if k > 0 {
      hide And;
      AndOnes(b / 2, k - 1);
      assert (Pow2(k) - 1) / 2 == Pow2(k - 1) - 1 && (Pow2(k) - 1) % 2 == 1;
      AndDigits(Pow2(k) - 1, b);
      SameDigits(And(Pow2(k) - 1, b), b);
    } else {
      AndDigits(0, b);
    }
  }

  function Pow2(k: nat): (p: nat)
    requires k <= 8
    ensures 1 <= p <= 256 && (k < 8 ==> p < 256)
  {
    match k
    case 0 => 1 case 1 => 2 case 2 => 4 case 3 => 8 case 4 => 16 case 5 => 32 case 6 => 64 case 7 => 128 case _ => 256
  }

  /** An erased byte takes any value. */
  lemma AndErased(b: byte)
    ensures And(0xff, b) == b
  {
    AndOnes(b, 8);
  }

  lemma ComplementDigits(p: byte, k: nat)
    requires 1 <= k <= 8 && p < Pow2(k)
    ensures p / 2 < Pow2(k - 1) && (Pow2(k) - 1 - p) / 2 == Pow2(k - 1) - 1 - p / 2
    ensures (Pow2(k) - 1 - p) % 2 == 1 - p % 2
  {
  }

  /** `~p & b` is zero exactly if programming b over p gives b: no bit has to go from 0 to 1. */
  lemma {:induction false} AndTaken(p: byte, b: byte, k: nat)
    requires k <= 8 && p < Pow2(k) && b < Pow2(k)
    ensures And(Pow2(k) - 1 - p, b) == 0 <==> And(p, b) == b
    decreases k
  {
    if k > 0 {
      hide And;
      ComplementDigits(p, k);
      ComplementDigits(b, k);
      AndTaken(p / 2, b / 2, k - 1);
      var q := Pow2(k) - 1 - p;
      AndDigits(q, b);
      AndDigits(p, b);
      SameDigits(And(q, b), 0);
      SameDigits(And(p, b), b);
    }
  }

  /** Programming twice keeps no more bits than the first byte had. */
  lemma {:induction false} AndStays(p: byte, b: byte, c: byte)
    requires And(p, b) == b
    ensures And(p, And(b, c)) == And(b, c)
    decreases p
  {
    hide And;
    AndDigits(p, b);
    AndDigits(b, c);
    AndDigits(p, And(b, c));
    if p > 0 {
      AndStays(p / 2, b / 2, c / 2);
      SameDigits(And(p, And(b, c)), And(b, c));
    }
  }

  lemma {:induction false} AndSelf(p: byte)
    ensures And(p, p) == p
    decreases p
  {
    if p > 0 { AndSelf(p / 2); }
  }

  // ---- wear

  datatype Op = Erase | Program(data: seq<byte>)

  function Apply(op: Op, page: seq<byte>): (r: seq<byte>)
    requires op.Program? ==> |op.data| == |page|
    ensures |r| == |page|
  {
    match op
    case Erase => Repeat(0xff, |page|)
    case Program(data) => AndAll(page, data)
  }

  predicate Fit(ops: seq<Op>, n: nat) { forall op <- ops :: op.Program? ==> |op.data| == n }

  function ApplyAll(ops: seq<Op>, page: seq<byte>): (r: seq<byte>)
    requires Fit(ops, |page|)
    ensures |r| == |page|
  {
    if ops == [] then page else ApplyAll(ops[1..], Apply(ops[0], page))
  }

  function Erases(ops: seq<Op>): nat {
    if ops == [] then 0 else (if ops[0].Erase? then 1 else 0) + Erases(ops[1..])
  }

  function Programs(ops: seq<Op>): nat {
    if ops == [] then 0 else (if ops[0].Program? then 1 else 0) + Programs(ops[1..])
  }

  /** Some bit has to go from 0 to 1. */
  predicate NeedsErase(page: seq<byte>, buf: seq<byte>)
    requires |page| == |buf|
  {
    exists i :: 0 <= i < |page| && And(255 - page[i], buf[i]) != 0
  }

  predicate AllOnes(buf: seq<byte>) { forall i :: 0 <= i < |buf| ==> buf[i] == 0xff }

  function MinErases(page: seq<byte>, buf: seq<byte>): nat
    requires |page| == |buf|
  {
    if NeedsErase(page, buf) then 1 else 0
  }

  function MinPrograms(page: seq<byte>, buf: seq<byte>): nat
    requires |page| == |buf|
  {
    if page == buf || AllOnes(buf) then 0 else 1
  }

  /** Everything in x could have been programmed over the page. */
  ghost predicate Below(page: seq<byte>, x: seq<byte>) {
    |x| == |page| && forall i :: 0 <= i < |page| ==> And(page[i], x[i]) == x[i]
  }

  lemma BelowNeedsNoErase(page: seq<byte>, buf: seq<byte>)
    requires |page| == |buf|
    ensures Below(page, buf) <==> !NeedsErase(page, buf)
  {
    forall i | 0 <= i < |page| ensures And(255 - page[i], buf[i]) == 0 <==> And(page[i], buf[i]) == buf[i] {
      AndTaken(page[i], buf[i], 8);
    }
  }

  lemma BelowProgrammed(page: seq<byte>, x: seq<byte>, data: seq<byte>)
    requires Below(page, x) && |data| == |x|
    ensures Below(page, AndAll(x, data))
  {
    forall i | 0 <= i < |page| ensures And(page[i], AndAll(x, data)[i]) == AndAll(x, data)[i] {
      AndStays(page[i], x[i], data[i]);
    }
  }

  lemma {:induction false} ProgramsStayBelow(ops: seq<Op>, page: seq<byte>, x: seq<byte>)
    requires Fit(ops, |page|) && Below(page, x) && Erases(ops) == 0
    ensures Below(page, ApplyAll(ops, x))
    decreases |ops|
  {
    if ops != [] {
      BelowProgrammed(page, x, ops[0].data);
      ProgramsStayBelow(ops[1..], page, Apply(ops[0], x));
    }
  }

  lemma {:induction false} OnlyErases(ops: seq<Op>, page: seq<byte>)
    requires Fit(ops, |page|) && Programs(ops) == 0
    ensures ApplyAll(ops, page) == page || AllOnes(ApplyAll(ops, page))
    decreases |ops|
  {
    if ops != [] {
      OnlyErases(ops[1..], Apply(ops[0], page));
    }
  }

  /** No sequence of erasures and page programs that takes the old page to the new one has fewer of either. */
  lemma WearIsMinimal(ops: seq<Op>, page: seq<byte>, buf: seq<byte>)
    requires |page| == |buf| && Fit(ops, |page|) && ApplyAll(ops, page) == buf
    ensures Erases(ops) >= MinErases(page, buf) && Programs(ops) >= MinPrograms(page, buf)
  {
    if Erases(ops) == 0 {
      forall i | 0 <= i < |page| ensures And(page[i], page[i]) == page[i] { AndSelf(page[i]); }
      ProgramsStayBelow(ops, page, page);
      BelowNeedsNoErase(page, buf);
    }
    if Programs(ops) == 0 {
      OnlyErases(ops, page);
    }
  }

  /** What WriteFlashPage does: erase if a bit has to be set, program unless the page is to be blank. */
  function Plan(page: seq<byte>, buf: seq<byte>): (ops: seq<Op>)
    requires |page| == |buf|
    ensures Fit(ops, |page|)
  {
    if page == buf then []
    else (if NeedsErase(page, buf) then [Erase] else []) + (if AllOnes(buf) then [] else [Program(buf)])
  }

  lemma BelowSelf(page: seq<byte>)
    ensures Below(page, page)
  {
    forall i | 0 <= i < |page| ensures And(page[i], page[i]) == page[i] { AndSelf(page[i]); }
  }

  /** Nothing but ones below a page means that the page is blank. */
  lemma BelowOnes(page: seq<byte>, buf: seq<byte>)
    requires Below(page, buf) && AllOnes(buf)
    ensures page == buf
  {
    forall i | 0 <= i < |page| ensures page[i] == buf[i] { assert And(page[i], buf[i]) == buf[i] == 0xff; }
  }

  lemma OneOp(op: Op, page: seq<byte>)
    requires Fit([op], |page|)
    ensures ApplyAll([op], page) == Apply(op, page)
    ensures Erases([op]) == (if op.Erase? then 1 else 0) && Programs([op]) == if op.Program? then 1 else 0
  {
    assert [op][1..] == [];
  }

  lemma TwoOps(buf: seq<byte>, page: seq<byte>)
    requires |buf| == |page|
    ensures Fit([Erase, Program(buf)], |page|)
    ensures ApplyAll([Erase, Program(buf)], page) == AndAll(Repeat(0xff, |page|), buf)
    ensures Erases([Erase, Program(buf)]) == 1 && Programs([Erase, Program(buf)]) == 1
  {
    assert [Erase, Program(buf)][1..] == [Program(buf)];
    OneOp(Program(buf), Repeat(0xff, |page|));
  }

  /** The plan takes the old page to the new one, with the fewest erasures and programs that can. */
  lemma PlanWorks(page: seq<byte>, buf: seq<byte>)
    requires |page| == |buf|
    ensures ApplyAll(Plan(page, buf), page) == buf
    ensures Erases(Plan(page, buf)) == MinErases(page, buf) && Programs(Plan(page, buf)) == MinPrograms(page, buf)
  {
    hide AndAll, And, NeedsErase, AllOnes;
    BelowNeedsNoErase(page, buf);
    BelowSelf(page);
    if page == buf {
    } else if NeedsErase(page, buf) {
      OneOp(Erase, page);
      TwoOps(buf, page);
      ProgramErased(buf);
      assert [Erase] + [Program(buf)] == [Erase, Program(buf)] && [Erase] + [] == [Erase];
      if AllOnes(buf) { OnesAreBlank(buf); }
    } else {
      if AllOnes(buf) { BelowOnes(page, buf); }
      ProgramBelow(page, buf);
      OneOp(Program(buf), page);
      assert [] + [Program(buf)] == [Program(buf)];
    }
  }

  lemma OnesAreBlank(buf: seq<byte>)
    ensures AllOnes(buf) <==> buf == Repeat(0xff, |buf|)
  {
  }

  lemma ProgramErased(buf: seq<byte>)
    ensures AndAll(Repeat(0xff, |buf|), buf) == buf
  {
    forall i | 0 <= i < |buf| ensures AndAll(Repeat(0xff, |buf|), buf)[i] == buf[i] { AndErased(buf[i]); }
  }

  lemma ProgramBelow(page: seq<byte>, buf: seq<byte>)
    requires Below(page, buf)
    ensures AndAll(page, buf) == buf
  {
    forall i | 0 <= i < |buf| ensures AndAll(page, buf)[i] == buf[i] {
      assert And(page[i], buf[i]) == buf[i];
    }
  }

  // ---- a range of pages

  /** A page that is only erased keeps the read-while-write section busy, on parts that have one. */
  predicate LeavesBusy(part: Part, page: seq<byte>, buf: seq<byte>)
    requires |page| == |buf|
  {
    part.boot > 0 && page != buf && AllOnes(buf)
  }

  /** A blank page that differs from the old one needs an erasure. */
  lemma BlankErased(page: seq<byte>, buf: seq<byte>)
    requires |page| == |buf| && page != buf && AllOnes(buf)
    ensures NeedsErase(page, buf)
  {
    if !NeedsErase(page, buf) {
      BelowNeedsNoErase(page, buf);
      BelowOnes(page, buf);
    }
  }

  lemma OverlaySelf(s: seq<byte>, a: nat, n: nat)
    requires a + n <= |s|
    ensures Overlay(s, a, s[a..a + n]) == s
  {
  }

  lemma SamePageNeedsNothing(page: seq<byte>)
    ensures !NeedsErase(page, page)
  {
    BelowSelf(page);
    BelowNeedsNoErase(page, page);
  }
}

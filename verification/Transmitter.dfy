/** The two transmit loops as register programs.  `shift`, `x1`, `x2` and `x4`
    are the AVR registers of the same names; counter registers are kept as
    numbers with their 8 bit wrap-around written out.  One element is added to
    `levels` per bit time. */
module Transmitter {
  import opened Line
  import opened Registers

  /** How many of the bits last sent were 1, as the stuffing history x2 records it (newest bit at the top). */
  function OnesSent(x2: bv8): (n: nat)
    ensures n <= 6
  {
    if (x2 & 0x80) == 0 then 0
    else if (x2 & 0x40) == 0 then 1
    else if (x2 & 0x20) == 0 then 2
    else if (x2 & 0x10) == 0 then 3
    else if (x2 & 0x08) == 0 then 4
    else if (x2 & 0x04) == 0 then 5
    else 6
  }

  /** `cpi x2, 0xfc` tells exactly when six 1 bits have gone out. */
  lemma HistoryStep(x2: bv8, b: bool)
    ensures OnesSent(x2) < 6 ==> OnesSent(Ror(x2, b)) == if b then OnesSent(x2) + 1 else 0
    ensures !b ==> OnesSent(Ror(x2, b)) == 0
    ensures x2 >= 0xfc <==> OnesSent(x2) == 6
  {
  }

  /** Everything still to be sent: n bits of the byte in `shift`, then whole bytes, after `run` 1 bits at level l. */
  ghost function Remaining(shift: bv8, n: nat, more: seq<bv8>, run: nat, l: Level): seq<Level>
    requires n <= 8 && run <= 6
  {
    Nrzi(Stuff(BitsFrom(shift, n) + BytesBits(more), run), l)
  }

  lemma RemainingBit(shift: bv8, carry: bool, n: nat, more: seq<bv8>, run: nat, l: Level)
    requires 1 <= n <= 8 && run < 6
    ensures var b := Bit0(shift);
            var next := if b then l else Toggle(l);
            Remaining(shift, n, more, run, l)
            == [next] + Remaining(Ror(shift, carry), n - 1, more, if b then run + 1 else 0, next)
  {
    var b := Bit0(shift);
    var rest := BitsFrom(shift >> 1, n - 1) + BytesBits(more);
    assert BitsFrom(shift, n) + BytesBits(more) == [b] + rest;
    SendBit(b, rest, run, l);
    ShiftedIn(shift, carry, n - 1);
  }

  lemma ShiftedIn(shift: bv8, carry: bool, n: nat)
    requires n <= 7
    ensures BitsFrom(Ror(shift, carry), n) == BitsFrom(shift >> 1, n)
  {
    BitsFromLow(Ror(shift, carry), shift >> 1, n);
  }

  lemma RemainingStuff(shift: bv8, n: nat, more: seq<bv8>, l: Level)
    requires n <= 8
    ensures Remaining(shift, n, more, 6, l) == [Toggle(l)] + Remaining(shift, n, more, 0, Toggle(l))
  {
    SendStuffBit(BitsFrom(shift, n) + BytesBits(more), l);
  }

  /** At the end of a byte either the next one is owed in full, or nothing is. */
  lemma ByteSent(target: seq<Level>, levels: seq<Level>, shift: bv8, more: seq<bv8>, run: nat, l: Level)
    requires run < 6 && target == levels + Remaining(shift, 0, more, run, l)
    ensures more == [] ==> target == levels
    ensures more != [] ==> target == levels + Remaining(more[0], 8, more[1..], run, l)
  {
    if more != [] {
      assert BitsFrom(shift, 0) + BytesBits(more) == BitsFrom(more[0], 8) + BytesBits(more[1..]);
    }
  }

  lemma XorToggles(x1: bv8)
    requires Differential(LevelOf(x1))
    ensures LevelOf(x1 ^ USBMASK) == Toggle(LevelOf(x1))
  {
  }

  /** What ties the registers of the 16.5 MHz transmitter to the levels still owed.  Until the first 0 bit
      of the sync byte has gone out, x2 holds whatever it held before. */
  ghost predicate Owing(target: seq<Level>, levels: seq<Level>, shift: bv8, n: nat, more: seq<bv8>,
                        run: nat, x1: bv8, x2: bv8)
  {
    && n <= 8 && run < 6 && Differential(LevelOf(x1))
    && (run == OnesSent(x2) || (run == 0 && n > 0 && !Bit0(shift)))
    && target == levels + Remaining(shift, n, more, run, LevelOf(x1))
  }

  /** One bit of `bitloop`: toggle the line for a 0, emit it, shift it into the history. */
  lemma BitOwed(target: seq<Level>, levels: seq<Level>, shift: bv8, n: nat, more: seq<bv8>, run: nat,
                x1: bv8, x2: bv8, carry: bool, x1': bv8, x2': bv8)
    requires n >= 1 && Owing(target, levels, shift, n, more, run, x1, x2)
    requires x1' == if Bit0(shift) then x1 else x1 ^ USBMASK
    requires x2' == Ror(x2, Bit0(shift))
    ensures var run' := if Bit0(shift) then run + 1 else 0;
            && run' == OnesSent(x2') && Differential(LevelOf(x1'))
            && target == levels + [LevelOf(x1')] + Remaining(Ror(shift, carry), n - 1, more, run', LevelOf(x1'))
            && (x2' >= 0xfc <==> run' == 6)
  {
    RemainingBit(shift, carry, n, more, run, LevelOf(x1));
    XorToggles(x1);
    HistoryStep(x2, Bit0(shift));
    HistoryStep(x2', false);
  }

  /** The stuff bit: the line toggles once more and the history is forgotten. */
  lemma StuffOwed(target: seq<Level>, levels: seq<Level>, shift: bv8, n: nat, more: seq<bv8>, x1: bv8)
    requires n <= 8 && Differential(LevelOf(x1))
    requires target == levels + Remaining(shift, n, more, 6, LevelOf(x1))
    ensures Owing(target, levels + [LevelOf(x1 ^ USBMASK)], shift, n, more, 0, x1 ^ USBMASK, 0)
  {
    RemainingStuff(shift, n, more, LevelOf(x1));
    XorToggles(x1);
  }

  lemma NextByteOwed(target: seq<Level>, levels: seq<Level>, shift: bv8, more: seq<bv8>, run: nat, x1: bv8, x2: bv8)
    requires Owing(target, levels, shift, 0, more, run, x1, x2)
    ensures more == [] ==> target == levels
    ensures more != [] ==> Owing(target, levels, more[0], 8, more[1..], run, x1, x2)
  {
    ByteSent(target, levels, shift, more, run, LevelOf(x1));
  }

  lemma StartsIdle(usbout: bv8, x2: bv8, more: seq<bv8>)
    requires (usbout & USBMASK) == 0
    ensures Owing(Nrzi(Stuff(BytesBits([SYNC] + more), 0), J), [], SYNC, 8, more, 0, usbout | USBMINUS, x2)
  {
    StartsAtSync(more);
    assert LevelOf(usbout | USBMINUS) == J && !Bit0(SYNC);
  }

  /** `bitloop` run for one byte: it sends bits 0 to 6, counted by bitStatus.
      256 / 7 is nearly 37, so each byte costs the counter three. */
  method SendSevenBits(shift0: bv8, x1In: bv8, x2In: bv8, carryIn: bool, bitStatusIn: nat, levelsIn: seq<Level>,
                       ghost target: seq<Level>, ghost more: seq<bv8>, ghost runIn: nat)
    returns (shift: bv8, x1: bv8, x2: bv8, carry: bool, bitStatus: nat, levels: seq<Level>, ghost run: nat)
    requires 222 <= bitStatusIn <= 255
    requires Owing(target, levelsIn, shift0, 8, more, runIn, x1In, x2In)
    ensures bitStatus == bitStatusIn - 3 && carry
    ensures Owing(target, levels, shift, 1, more, run, x1, x2) && run == OnesSent(x2)
  {
    shift, x1, x2, carry, bitStatus, levels, run := shift0, x1In, x2In, carryIn, bitStatusIn, levelsIn, runIn;
    ghost var n := 8;
    while true
      invariant 2 <= n <= 8
      invariant bitStatus == bitStatusIn - 37 * (8 - n)
      invariant Owing(target, levels, shift, n, more, run, x1, x2)
      decreases n
    {
      var bit := Bit0(shift);
      var x1' := if bit then x1 else x1 ^ USBMASK;
      BitOwed(target, levels, shift, n, more, run, x1, x2, carry, x1', Ror(x2, bit));
      x1 := x1';
      levels := levels + [LevelOf(x1)];
      shift := Ror(shift, carry);
      x2 := Ror(x2, bit);
      run, n := if bit then run + 1 else 0, n - 1;
      if x2 >= 0xfc {
        // bitstuffN: x2 is cleared, so the comparison it returns to fails
        StuffOwed(target, levels, shift, n, more, x1);
        x1 := x1 ^ USBMASK;
        x2 := 0;
        levels := levels + [LevelOf(x1)];
        run := 0;
      }
      carry := bitStatus < 37;
      bitStatus := (bitStatus - 37) % 256;
      if carry { break; }
    }
  }

  /** Bit 7 of a byte, sent after `bitloop` has ended. */
  method SendBitSeven(shift0: bv8, x1In: bv8, x2In: bv8, carry: bool, levelsIn: seq<Level>,
                      ghost target: seq<Level>, ghost more: seq<bv8>, ghost runIn: nat)
    returns (shift: bv8, x1: bv8, x2: bv8, levels: seq<Level>, ghost run: nat)
    requires Owing(target, levelsIn, shift0, 1, more, runIn, x1In, x2In)
    ensures Owing(target, levels, shift, 0, more, run, x1, x2)
  {
    var bit := Bit0(shift0);
    x1 := if bit then x1In else x1In ^ USBMASK;
    BitOwed(target, levelsIn, shift0, 1, more, runIn, x1In, x2In, carry, x1, Ror(x2In, bit));
    shift := Ror(shift0, carry);
    levels := levelsIn + [LevelOf(x1)];
    x2 := Ror(x2In, bit);
    run := if bit then runIn + 1 else 0;
    if x2 >= 0xfc {
      // bitstuff7: `out` and `ror x2` are done once more, the latter with a clear carry
      StuffOwed(target, levels, shift, 0, more, x1);
      x1 := x1 ^ USBMASK;
      x2 := 0;
      levels := levels + [LevelOf(x1)];
      x2 := Ror(x2, false);
      run := 0;
    }
  }

  /** One byte. */
  method SendByte165(shift0: bv8, x1In: bv8, x2In: bv8, carryIn: bool, bitStatusIn: nat, levelsIn: seq<Level>,
                     ghost target: seq<Level>, ghost more: seq<bv8>, ghost runIn: nat)
    returns (shift: bv8, x1: bv8, x2: bv8, carry: bool, bitStatus: nat, levels: seq<Level>, ghost run: nat)
    requires 222 <= bitStatusIn <= 255
    requires Owing(target, levelsIn, shift0, 8, more, runIn, x1In, x2In)
    ensures bitStatus == bitStatusIn - 3
    ensures more == [] ==> target == levels
    ensures more != [] ==> Owing(target, levels, more[0], 8, more[1..], run, x1, x2)
  {
    shift, x1, x2, carry, bitStatus, levels, run :=
      SendSevenBits(shift0, x1In, x2In, carryIn, bitStatusIn, levelsIn, target, more, runIn);
    shift, x1, x2, levels, run := SendBitSeven(shift, x1, x2, carry, levels, target, more, run);
    carry := true;  // left by cpi x2, 0xfc
    NextByteOwed(target, levels, shift, more, run, x1, x2);
  }

  /** `usbSendAndReti` of the 16.5 MHz driver.  cnt counts the sync byte.
      usbout, x2Init and carryInit are whatever the port and registers held before. */
  method Transmit165(mem: nat -> bv8, y0: nat, cnt0: nat, usbout: bv8, x2Init: bv8, carryInit: bool)
    returns (levels: seq<Level>, y: nat)
    requires 2 <= cnt0 <= 12
    requires (usbout & USBMASK) == 0
    ensures levels == PacketLevels(Slice(mem, y0, cnt0 - 1))
    ensures y == y0 + cnt0
  {
    var x1, x2 := usbout | USBMINUS, x2Init;
    var shift, carry, bitStatus := SYNC, carryInit, 0xff;
    var cnt := cnt0;
    y := y0;
    levels := [];

    ghost var run, more := 0, Slice(mem, y0, cnt0 - 1);
    ghost var target := Nrzi(Stuff(BytesBits([SYNC] + more), 0), J);
    StartsIdle(usbout, x2, more);

    while true
      invariant 1 <= cnt <= cnt0 && y == y0 + cnt0 - cnt
      invariant more == Slice(mem, y, cnt - 1)
      invariant bitStatus == 255 - 3 * (cnt0 - cnt)
      invariant Owing(target, levels, shift, 8, more, run, x1, x2)
      decreases cnt
    {
      shift, x1, x2, carry, bitStatus, levels, run :=
        SendByte165(shift, x1, x2, carry, bitStatus, levels, target, more, run);
      SliceStep(mem, y, cnt - 1);
      shift := mem(y);
      y := y + 1;
      cnt := cnt - 1;
      if cnt == 0 { break; }
      more := more[1..];
    }
    levels := levels + [SE0, SE0, J];
  }

  /** Bits `bitloop` sends before the borrow of `subi bitStatus, 37` ends it. */
  function LoopBits(bitStatus: nat): nat {
    if bitStatus < 37 then 1 else 1 + LoopBits(bitStatus - 37)
  }

  /** The bit counter is good for the sync byte and eleven more, and gives out at the next one:
      before byte k it stands at 255 - 3k. */
  lemma BitStatusRange(k: nat)
    requires k <= 12
    ensures LoopBits(255 - 3 * k) == 7 <==> k < 12
  {
    var s := 255 - 3 * k;
    assert LoopBits(s) == 1 + LoopBits(s - 37);
    assert LoopBits(s - 37) == 1 + LoopBits(s - 74);
    assert LoopBits(s - 74) == 1 + LoopBits(s - 111);
    assert LoopBits(s - 111) == 1 + LoopBits(s - 148);
    assert LoopBits(s - 148) == 1 + LoopBits(s - 185);
  }

  // ---- the 12 MHz transmitter

  /** The 12 MHz loop keeps the line in x1 and counts x4 down from 6 for each 1 bit. */
  ghost predicate Owing12(target: seq<Level>, levels: seq<Level>, shift: bv8, n: nat, more: seq<bv8>,
                          x1: bv8, x4: nat)
  {
    && n <= 8 && 1 <= x4 <= 6 && Differential(LevelOf(x1))
    && target == levels + Remaining(shift, n, more, 6 - x4, LevelOf(x1))
  }

  lemma LslUndoesRor(shift: bv8)
    ensures !Bit0(shift << 1)
    ensures Ror(shift << 1, (shift & 0x80) != 0) == shift
  {
  }

  /** A bit that is not the sixth 1 in a row: one level. */
  lemma SlotBit(target: seq<Level>, levels: seq<Level>, shift: bv8, n: nat, more: seq<bv8>, x1: bv8, x4: nat,
      carry: bool)
    requires n >= 1 && Owing12(target, levels, shift, n, more, x1, x4)
    ensures Bit0(shift) && x4 > 1 ==>
              Owing12(target, levels + [LevelOf(x1)], Ror(shift, carry), n - 1, more, x1, x4 - 1)
    ensures !Bit0(shift) ==>
              Owing12(target, levels + [LevelOf(x1 ^ USBMASK)], Ror(shift, carry), n - 1, more, x1 ^ USBMASK, 6)
  {
    RemainingBit(shift, carry, n, more, 6 - x4, LevelOf(x1));
    XorToggles(x1);
  }

  /** The sixth 1 in a row: its own level and the stuff bit. */
  lemma SlotSixth(target: seq<Level>, levels: seq<Level>, shift: bv8, n: nat, more: seq<bv8>, x1: bv8, carry: bool)
    requires n >= 1 && Owing12(target, levels, shift, n, more, x1, 1) && Bit0(shift)
    ensures Owing12(target, levels + [LevelOf(x1)] + [LevelOf(x1 ^ USBMASK)], Ror(shift, carry), n - 1, more,
                    x1 ^ USBMASK, 6)
  {
    RemainingBit(shift, carry, n, more, 5, LevelOf(x1));
    RemainingStuff(Ror(shift, carry), n - 1, more, LevelOf(x1));
    XorToggles(x1);
  }

  /** One bit slot of the 12 MHz loop, from its `ror` to its `out`.  The sixth 1 in a row is on the line for
      the time of the jump back to `ror`, which then reads the 0 that `lsl` left.  Slots 0, 2, 4 and 6
      (stuffN1Delay, stuff6Delay) leave the port alone during that time, the others write x1 again. */
  method Slot12(shift0: bv8, x1In: bv8, x4In: nat, carryIn: bool, portIn: bv8, levelsIn: seq<Level>, rewrites: bool,
                ghost target: seq<Level>, ghost n: nat, ghost more: seq<bv8>)
    returns (shift: bv8, x1: bv8, x4: nat, carry: bool, port: bv8, levels: seq<Level>)
    requires n >= 1 && portIn == x1In
    requires Owing12(target, levelsIn, shift0, n, more, x1In, x4In)
    ensures Owing12(target, levels, shift, n - 1, more, x1, x4) && port == x1
  {
    shift, x1, x4, carry, port, levels := shift0, x1In, x4In, carryIn, portIn, levelsIn;
    SlotBit(target, levels, shift, n, more, x1, x4, carry);
    if x4 == 1 && Bit0(shift) { SlotSixth(target, levels, shift, n, more, x1, carry); }
    LslUndoesRor(Ror(shift, carry));
    while true
      invariant port == x1 == x1In
      invariant x4 > 0 ==> shift == shift0 && x4 == x4In && carry == carryIn && levels == levelsIn
      invariant x4 == 0 ==> x4In == 1 && Bit0(shift0) && levels == levelsIn + [LevelOf(x1)]
      invariant x4 == 0 ==> !Bit0(shift) && Ror(shift, carry) == Ror(shift0, carryIn)
      decreases x4
    {
      var bit := Bit0(shift);
      shift := Ror(shift, carry);
      carry := bit;
      if !bit {
        x1 := x1 ^ USBMASK;
        x4 := 6;
        break;
      }
      x4 := x4 - 1;
      if x4 != 0 { break; }
      carry := (shift & 0x80) != 0;
      shift := shift << 1;
      if rewrites { port := x1; }
      levels := levels + [LevelOf(port)];
    }
    port := x1;
    levels := levels + [LevelOf(port)];
  }

  /** The state in which the first byte enters the loop, at doExorN1: the sync byte is already past its first
      `ror`, and its 0 is about to toggle the line. */
  ghost predicate AtSync(target: seq<Level>, levels: seq<Level>, shift: bv8, more: seq<bv8>, x1: bv8) {
    LevelOf(x1) == J && levels == [] && target == [K] + Remaining(shift, 7, more, 0, K)
  }

  /** doExorN1 and commonN1 for the first bit of the sync byte. */
  method EnterAtSync(x1In: bv8, ghost target: seq<Level>, ghost shift: bv8, ghost more: seq<bv8>)
    returns (x1: bv8, x4: nat, port: bv8, levels: seq<Level>)
    requires AtSync(target, [], shift, more, x1In)
    ensures Owing12(target, levels, shift, 7, more, x1, x4) && port == x1
  {
    XorToggles(x1In);
    x1 := x1In ^ USBMASK;
    x4 := 6;
    port := x1;
    levels := [LevelOf(port)];
  }

  /** What the 12 MHz loop owes when it reaches a byte. */
  ghost predicate AtByte12(atSync: bool, target: seq<Level>, levels: seq<Level>, shift: bv8, more: seq<bv8>,
                           x1: bv8, x4: nat)
  {
    if atSync then AtSync(target, levels, shift, more, x1)
    else Owing12(target, levels, shift, 8, more, x1, x4)
  }

  /** `txBitloop`: three pairs of bits, counted by `subi cnt, 171`, which leaves cnt one lower. */
  method SendSixBits12(atSync0: bool, shift0: bv8, x1In: bv8, x4In: nat, carryIn: bool, portIn: bv8, cntIn: nat,
                       levelsIn: seq<Level>, ghost target: seq<Level>, ghost more: seq<bv8>)
    returns (shift: bv8, x1: bv8, x4: nat, carry: bool, port: bv8, cnt: nat, levels: seq<Level>)
    requires 1 <= cntIn <= 85 && portIn == x1In
    requires AtByte12(atSync0, target, levelsIn, shift0, more, x1In, x4In)
    ensures cnt == cntIn - 1 && port == x1
    ensures Owing12(target, levels, shift, 2, more, x1, x4)
  {
    shift, x1, x4, carry, port, cnt, levels := shift0, x1In, x4In, carryIn, portIn, cntIn, levelsIn;
    var atSync := atSync0;
    ghost var n := 8;
    while true
      invariant n in {8, 6, 4} && port == x1
      invariant cnt == if n == 8 then cntIn else if n == 6 then cntIn + 85 else cntIn + 170
      invariant n == 8 ==> AtByte12(atSync, target, levels, shift, more, x1, x4)
      invariant n < 8 ==> !atSync && Owing12(target, levels, shift, n, more, x1, x4)
      decreases n
    {
      if atSync {
        x1, x4, port, levels := EnterAtSync(x1, target, shift, more);
        atSync := false;
      } else {
        shift, x1, x4, carry, port, levels := Slot12(shift, x1, x4, carry, port, levels, false, target, n, more);
      }
      shift, x1, x4, carry, port, levels := Slot12(shift, x1, x4, carry, port, levels, true, target, n - 1, more);
      n := n - 2;
      carry := cnt < 171;
      cnt := (cnt - 171) % 256;
      if !carry { break; }
    }
  }

  /** One byte: three pairs of bits, then bits 6 and 7. */
  method SendByte12(atSync: bool, shift0: bv8, x1In: bv8, x4In: nat, carryIn: bool, portIn: bv8, cntIn: nat,
                    levelsIn: seq<Level>, ghost target: seq<Level>, ghost more: seq<bv8>)
    returns (shift: bv8, x1: bv8, x4: nat, carry: bool, port: bv8, cnt: nat, levels: seq<Level>)
    requires 1 <= cntIn <= 85 && portIn == x1In
    requires AtByte12(atSync, target, levelsIn, shift0, more, x1In, x4In)
    ensures cnt == cntIn - 1 && port == x1
    ensures more == [] ==> target == levels
    ensures more != [] ==> AtByte12(false, target, levels, more[0], more[1..], x1, x4)
  {
    shift, x1, x4, carry, port, cnt, levels :=
      SendSixBits12(atSync, shift0, x1In, x4In, carryIn, portIn, cntIn, levelsIn, target, more);
    shift, x1, x4, carry, port, levels := Slot12(shift, x1, x4, carry, port, levels, false, target, 2, more);
    shift, x1, x4, carry, port, levels := Slot12(shift, x1, x4, carry, port, levels, true, target, 1, more);
    ByteSent(target, levels, shift, more, 6 - x4, LevelOf(x1));
  }

  /** `usbSendAndReti` of the 12 MHz driver. */
  method Transmit12(mem: nat -> bv8, y0: nat, cnt0: nat, usbout: bv8, carryInit: bool)
    returns (levels: seq<Level>, y: nat)
    requires 1 <= cnt0 <= 85
    requires (usbout & USBMASK) == 0
    ensures levels == PacketLevels(Slice(mem, y0, cnt0 - 1))
    ensures y == y0 + cnt0
  {
    var port := usbout | USBMINUS;
    var x1, x4 := port, 6;
    var shift, carry := 0x40, carryInit;
    var cnt := cnt0;
    y := y0;
    levels := [];

    ghost var more := Slice(mem, y0, cnt0 - 1);
    ghost var target := Nrzi(Stuff(BytesBits([SYNC] + more), 0), J);
    StartsAtSync(more);

    var atSync := true;
    while true
      invariant 1 <= cnt <= cnt0 && y == y0 + cnt0 - cnt
      invariant more == Slice(mem, y, cnt - 1) && port == x1
      invariant AtByte12(atSync, target, levels, shift, more, x1, x4)
      decreases cnt
    {
      shift, x1, x4, carry, port, cnt, levels :=
        SendByte12(atSync, shift, x1, x4, carry, port, cnt, levels, target, more);
      atSync := false;
      shift := mem(y);
      y := y + 1;
      if cnt == 0 { break; }
      more := more[1..];
    }
    levels := levels + [SE0, SE0, J];
  }

  lemma StartsAtSync(more: seq<bv8>)
    ensures Nrzi(Stuff(BytesBits([SYNC] + more), 0), J) == [K] + Remaining(0x40, 7, more, 0, K)
    ensures Nrzi(Stuff(BytesBits([SYNC] + more), 0), J) == Remaining(SYNC, 8, more, 0, J)
  {
    assert ([SYNC] + more)[1..] == more;
    RemainingBit(SYNC, false, 8, more, 0, J);
  }

  /** Pairs of bits sent before `subi cnt, 171` stops borrowing, and what it leaves in cnt. */
  function CountPairs(cnt: nat): (r: (nat, nat))
    requires cnt < 256
    decreases 256 - cnt
  {
    if cnt >= 171 then (1, cnt - 171)
    else var (pairs, left) := CountPairs(cnt + 85); (pairs + 1, left)
  }

  /** Three times 171 is 1 modulo 256: exactly for 1 to 85 bytes the counter makes three pairs and loses one. */
  lemma PairCounterRange(cnt: nat)
    requires cnt < 256
    ensures CountPairs(cnt) == (3, cnt - 1) <==> 1 <= cnt <= 85
  {
    if cnt < 171 {
      assert CountPairs(cnt).0 == CountPairs(cnt + 85).0 + 1;
      if cnt + 85 < 171 {
        assert CountPairs(cnt + 85).0 == CountPairs(cnt + 170).0 + 1;
        if cnt + 170 < 171 { assert CountPairs(cnt + 170).0 == CountPairs(cnt + 255).0 + 1; }
      }
    }
  }
}

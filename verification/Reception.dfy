/** What a receiver should make of the line, one bit time after another.  `line(k)` is the whole port as read at
    sample k; sample 0 is the first bit after the sync byte.  Two definitions: the run-counting unstuffer with a
    stop test once per byte (the 16.5 MHz driver), and the one with a stop test on bits 1 to 6 (the 20 MHz driver). */
module Reception {
  import opened Line
  import opened Registers

  /** Next sample to take, D- of the last one taken, and the number of 1 bits in a row. */
  datatype Rx = Rx(pos: nat, prev: bool, run: nat)

  datatype Outcome = Packet(bytes: seq<bv8>) | Overflow

  const USB_BUFSIZE: nat := 11

  /** After six 1 bits the next sample is a stuff bit: it only becomes the new reference level. */
  function Unstuffed(line: nat -> bv8, s: Rx): Rx {
    if s.run >= 6 then Rx(s.pos + 1, Minus(line(s.pos)), 0) else s
  }

  function NextBit(line: nat -> bv8, s: Rx): (Rx, bool) {
    var u := Unstuffed(line, s);
    var d := Minus(line(u.pos));
    (Rx(u.pos + 1, d, if d == u.prev then u.run + 1 else 0), d == u.prev)
  }

  function NextBits(line: nat -> bv8, s: Rx, n: nat): (r: (Rx, seq<bool>))
    ensures |r.1| == n
    decreases n, s
  {
    if n == 0 then (s, []) else
    var (s1, bits) := NextBits(line, s, n - 1);
    var (s2, b) := NextBit(line, s1);
    (s2, bits + [b])
  }

  /** Receiving from the start of a byte with `room` buffer bytes left. */
  function Receive(line: nat -> bv8, s: Rx, room: nat, bytes: seq<bv8>): Outcome
    decreases room, 1, s
  {
    var (s1, b0) := NextBit(line, s);
    AfterBit0(line, s1, b0, room, bytes)
  }

  /** The stop test follows bit 0 of each byte: bit 0 itself may already have been SE0. */
  function AfterBit0(line: nat -> bv8, s1: Rx, b0: bool, room: nat, bytes: seq<bv8>): Outcome
    decreases room, 0, s1
  {
    if IsSe0(line(s1.pos)) then Packet(bytes)
    else if room == 0 then Overflow
    else
      var (s8, bits) := NextBits(line, s1, 7);
      Receive(line, s8, room - 1, bytes + [Pack([b0] + bits)])
  }

  /** The last bit of sync was K, and the 16.5 MHz receiver starts counting 1 bits after it. */
  const START165: Rx := Rx(0, false, 0)

  function Receive165(line: nat -> bv8): Outcome { Receive(line, START165, USB_BUFSIZE, []) }

  // ---- the 20 MHz receiver: eager unstuffing, whole-level comparison

  /** Like Rx, but the reference is both lines, and run is below 6. */
  datatype Rx20 = Rx20(pos: nat, level: bv8, run: nat)

  function NextBit20(line: nat -> bv8, s: Rx20): (Rx20, bool) {
    var now := line(s.pos) & USBMASK;
    if now != s.level then (Rx20(s.pos + 1, now, 0), false)
    else if s.run + 1 < 6 then (Rx20(s.pos + 1, now, s.run + 1), true)
    else (Rx20(s.pos + 2, line(s.pos + 1) & USBMASK, 0), true)
  }

  /** Bits 1 to 6 of a byte are preceded by a test for SE0, bit 7 by one for a full buffer. */
  function Go20(line: nat -> bv8, s: Rx20, bits: seq<bool>, room: nat, bytes: seq<bv8>): Outcome
    requires |bits| <= 7
    decreases room, 8 - |bits|, s
  {
    if 1 <= |bits| <= 6 && IsSe0(line(s.pos)) then Packet(bytes)
    else if |bits| == 7 && room == 0 then Overflow
    else
      var (s', b) := NextBit20(line, s);
      if |bits| < 7 then Go20(line, s', bits + [b], room, bytes)
      else Go20(line, s', [], room - 1, bytes + [Pack(bits + [b])])
  }

  /** bitcnt starts at 5: the final 1 of sync counts. */
  const START20: Rx20 := Rx20(0, 0x10, 1)

  function Receive20(line: nat -> bv8): Outcome { Go20(line, START20, [], USB_BUFSIZE, []) }
}

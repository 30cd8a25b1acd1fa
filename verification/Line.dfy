/** The wire format shared by every transmitter and receiver of the driver:
    line levels, NRZI coding and bit stuffing (sections 7.1.8 and 7.1.9 of
    USB 2.0).  Everything here is specification; the register programs are
    in Transmitter and Receiver. */
module Line {

  /** D- and D+ of one low speed bit time.  J is idle. */
  datatype Level = J | K | SE0 | SE1

  // usbconfig.h puts D- on bit 3 and D+ on bit 4 of the port.
  const USBMINUS: bv8 := 0x08
  const USBMASK: bv8 := 0x18

  /** The level a reading (or writing) of the whole port stands for; the other six pins do not matter. */
  function LevelOf(port: bv8): Level {
    if (port & USBMASK) == 0x08 then J
    else if (port & USBMASK) == 0x10 then K
    else if (port & USBMASK) == 0 then SE0
    else SE1
  }

  predicate Minus(port: bv8) { (port & USBMINUS) != 0 }

  predicate IsSe0(port: bv8) { (port & USBMASK) == 0 }

  predicate Differential(l: Level) { l == J || l == K }

  function Toggle(l: Level): Level { if l == J then K else J }

  /** NRZI: a 0 toggles the line, a 1 leaves it alone. */
  function Nrzi(bits: seq<bool>, l: Level): seq<Level> {
    if bits == [] then [] else
    var next := if bits[0] then l else Toggle(l);
    [next] + Nrzi(bits[1..], next)
  }

  /** Bit stuffing: after six 1 bits a 0 is inserted, also when no further bit follows.
      `run` is the number of 1 bits already sent in a row. */
  function Stuff(bits: seq<bool>, run: nat): seq<bool>
    requires run <= 6
    decreases |bits|, run
  {
    if run == 6 then [false] + Stuff(bits, 0)
    else if bits == [] then []
    else [bits[0]] + Stuff(bits[1..], if bits[0] then run + 1 else 0)
  }

  /** The low n bits of b, least significant first: the order on the wire. */
  function BitsFrom(b: bv8, n: nat): (bits: seq<bool>)
    requires n <= 8
    ensures |bits| == n
  {
    if n == 0 then [] else [(b & 1) == 1] + BitsFrom(b >> 1, n - 1)
  }

  function BytesBits(bytes: seq<bv8>): (bits: seq<bool>)
    ensures |bits| == 8 * |bytes|
  {
    if bytes == [] then [] else BitsFrom(bytes[0], 8) + BytesBits(bytes[1..])
  }

  const SYNC: bv8 := 0x80

  /** One packet as the bus sees it: sync and data, stuffed, NRZI coded from
      idle, then two bit times of SE0 and the return to idle. */
  function PacketLevels(data: seq<bv8>): seq<Level> {
    Nrzi(Stuff(BytesBits([SYNC] + data), 0), J) + [SE0, SE0, J]
  }

  // ---- one bit at a time

  /** Sending one bit below the stuffing limit. */
  lemma SendBit(b: bool, rest: seq<bool>, run: nat, l: Level)
    requires run < 6
    ensures var next := if b then l else Toggle(l);
            Nrzi(Stuff([b] + rest, run), l) == [next] + Nrzi(Stuff(rest, if b then run + 1 else 0), next)
  {
    assert ([b] + rest)[1..] == rest;
    var tail := Stuff(rest, if b then run + 1 else 0);
    assert Stuff([b] + rest, run) == [b] + tail;
    assert ([b] + tail)[1..] == tail;
  }

  /** Sending the stuff bit after six 1 bits, with or without more to come. */
  lemma SendStuffBit(rest: seq<bool>, l: Level)
    ensures Nrzi(Stuff(rest, 6), l) == [Toggle(l)] + Nrzi(Stuff(rest, 0), Toggle(l))
  {
    var tail := Stuff(rest, 0);
    assert Stuff(rest, 6) == [false] + tail;
    assert ([false] + tail)[1..] == tail;
  }

  function LowMask(n: nat): bv8
    requires n <= 8
  {
    match n
    case 0 => 0x00 case 1 => 0x01 case 2 => 0x03 case 3 => 0x07
    case 4 => 0x0f case 5 => 0x1f case 6 => 0x3f case 7 => 0x7f
    case _ => 0xff
  }

  /** Only the low n bits of a byte matter for the first n bits sent: `ror` may bring in any carry. */
  lemma {:induction false} BitsFromLow(a: bv8, b: bv8, n: nat)
    requires n <= 8
    requires (a & LowMask(n)) == (b & LowMask(n))
    ensures BitsFrom(a, n) == BitsFrom(b, n)
  {
    if n > 0 {
      ShiftLow(a, b, n);
      BitsFromLow(a >> 1, b >> 1, n - 1);
    }
  }

  lemma ShiftLow(a: bv8, b: bv8, n: nat)
    requires 1 <= n <= 8
    requires (a & LowMask(n)) == (b & LowMask(n))
    ensures ((a >> 1) & LowMask(n - 1)) == ((b >> 1) & LowMask(n - 1)) && (a & 1) == (b & 1)
  {
    assert ((a & LowMask(n)) >> 1) == ((a >> 1) & LowMask(n - 1));
    assert ((b & LowMask(n)) >> 1) == ((b >> 1) & LowMask(n - 1));
  }

  /** No more than six 1 bits in a row, `run` of them already behind. */
  predicate RunsBounded(bits: seq<bool>, run: nat) {
    bits == [] || (if bits[0] then run < 6 && RunsBounded(bits[1..], run + 1) else RunsBounded(bits[1..], 0))
  }

  lemma {:induction false} StuffBoundsRuns(bits: seq<bool>, run: nat)
    requires run <= 6
    ensures RunsBounded(Stuff(bits, run), run)
    decreases |bits|, run
  {
    if run == 6 {
      StuffBoundsRuns(bits, 0);
      assert Stuff(bits, 6)[1..] == Stuff(bits, 0);
    } else if bits != [] {
      var run' := if bits[0] then run + 1 else 0;
      StuffBoundsRuns(bits[1..], run');
      assert Stuff(bits, run)[1..] == Stuff(bits[1..], run');
    }
  }

  lemma {:induction false} BoundedWindow(bits: seq<bool>, run: nat, k: nat)
    requires run <= 6 && RunsBounded(bits, run) && k == 7 - run <= |bits|
    ensures exists j :: 0 <= j < k && !bits[j]
    decreases |bits|
  {
    if bits[0] {
      BoundedWindow(bits[1..], run + 1, k - 1);
      var j :| 0 <= j < k - 1 && !bits[1..][j];
      assert !bits[j + 1];
    }
  }

  lemma {:induction false} BoundedLater(bits: seq<bool>, run: nat, k: nat) returns (run': nat)
    requires run <= 6 && RunsBounded(bits, run) && k <= |bits|
    ensures run' <= 6 && RunsBounded(bits[k..], run')
    decreases k
  {
    if k == 0 {
      run' := run;
      assert bits[0..] == bits;
    } else {
      run' := BoundedLater(bits[1..], if bits[0] then run + 1 else 0, k - 1);
      assert bits[k..] == bits[1..][k - 1..];
    }
  }

  /** Of any seven bits in a row on the wire at least one is a 0, so the line toggles. */
  lemma NoSevenOnes(data: seq<bv8>, k: nat)
    requires k + 7 <= |Stuff(BytesBits([SYNC] + data), 0)|
    ensures exists j :: k <= j < k + 7 && !Stuff(BytesBits([SYNC] + data), 0)[j]
  {
    var s := Stuff(BytesBits([SYNC] + data), 0);
    StuffBoundsRuns(BytesBits([SYNC] + data), 0);
    var run := BoundedLater(s, 0, k);
    BoundedWindow(s[k..], run, 7 - run);
    var j :| 0 <= j < 7 - run && !s[k..][j];
    assert !s[k + j];
  }
}

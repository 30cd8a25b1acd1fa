/** What the transmitters send is what the receivers store. */
module RoundTrip {
  import opened Line
  import opened Reception
  import opened Registers

  /** Bits per byte. */
  const BYTE: nat := 8

  // ---- lines that carry a whole number of bytes

  predicate Jk(port: bv8) { Differential(LevelOf(port)) }

  /** The samples NextBit takes are all J or K. */
  predicate JkBit(line: nat -> bv8, s: Rx) {
    && Jk(line(Unstuffed(line, s).pos))
    && (s.run >= 6 ==> Jk(line(s.pos)))
  }

  predicate JkBits(line: nat -> bv8, s: Rx, n: nat)
    decreases n, s
  {
    n == 0 || (JkBit(line, s) && JkBits(line, NextBit(line, s).0, n - 1))
  }

  /** From s the line carries n bytes and then, with any stuff bit out of the way, two bit times of SE0. */
  ghost predicate Clean(line: nat -> bv8, s: Rx, n: nat)
    decreases n, s
  {
    if n == 0 then
      && (s.run >= 6 ==> Jk(line(s.pos)))
      && IsSe0(line(Unstuffed(line, s).pos)) && IsSe0(line(Unstuffed(line, s).pos + 1))
    else JkBits(line, s, BYTE) && Clean(line, NextBits(line, s, BYTE).0, n - 1)
  }

  function Decoded(line: nat -> bv8, s: Rx, n: nat): (bytes: seq<bv8>)
    ensures |bytes| == n
    decreases n, s
  {
    if n == 0 then []
    else [Pack(NextBits(line, s, BYTE).1)] + Decoded(line, NextBits(line, s, BYTE).0, n - 1)
  }

  lemma {:induction false} NextBitsFront(line: nat -> bv8, s: Rx, n: nat)
    ensures var (s1, b) := NextBit(line, s);
            NextBits(line, s, n + 1) == (NextBits(line, s1, n).0, [b] + NextBits(line, s1, n).1)
    decreases n
  {
    if n > 0 {
      NextBitsFront(line, s, n - 1);
      var (s1, b) := NextBit(line, s);
      var before := NextBits(line, s1, n - 1);
      var (s2, c) := NextBit(line, before.0);
      assert ([b] + before.1) + [c] == [b] + (before.1 + [c]);
    } else {
      var (s1, b) := NextBit(line, s);
      assert NextBits(line, s, 0) == (s, []) && NextBits(line, s1, 0) == (s1, []);
      assert [] + [b] == [b] + [];
    }
  }

  lemma NotSe0(port: bv8)
    requires Jk(port)
    ensures !IsSe0(port)
  {
  }

  /** The sample after bit 0 of a byte on a clean line is not SE0. */
  lemma AfterBit0IsJk(line: nat -> bv8, s: Rx)
    requires JkBits(line, s, BYTE)
    ensures !IsSe0(line(NextBit(line, s).0.pos))
  {
    var s1 := NextBit(line, s).0;
    assert JkBits(line, s1, 7);
    assert JkBit(line, s1);
    if s1.run >= 6 { NotSe0(line(s1.pos)); } else { NotSe0(line(Unstuffed(line, s1).pos)); }
  }

  /** One byte of the 16.5 MHz receiver. */
  lemma ReceiveStep(line: nat -> bv8, s: Rx, room: nat, bytes: seq<bv8>)
    requires room > 0 && !IsSe0(line(NextBit(line, s).0.pos))
    ensures var (s8, bits) := NextBits(line, s, BYTE);
            Receive(line, s, room, bytes) == Receive(line, s8, room - 1, bytes + [Pack(bits)])
  {
    NextBitsFront(line, s, 7);
  }

  /** Taking one byte off a clean line. */
  lemma OneByte(line: nat -> bv8, s: Rx, n: nat) returns (s8: Rx, bits: seq<bool>, byte: bv8)
    requires n > 0 && Clean(line, s, n)
    ensures (s8, bits) == NextBits(line, s, BYTE) && byte == Pack(bits)
    ensures JkBits(line, s, BYTE) && Clean(line, s8, n - 1)
    ensures Decoded(line, s, n) == [byte] + Decoded(line, s8, n - 1)
  {
    s8, bits := NextBits(line, s, BYTE).0, NextBits(line, s, BYTE).1;
    byte := Pack(bits);
  }

  lemma OneByte165(line: nat -> bv8, s: Rx, n: nat, room: nat, bytes: seq<bv8>) returns (s8: Rx, byte: bv8)
    requires n > 0 && Clean(line, s, n) && room > 0
    ensures Clean(line, s8, n - 1) && Decoded(line, s, n) == [byte] + Decoded(line, s8, n - 1)
    ensures Receive(line, s, room, bytes) == Receive(line, s8, room - 1, bytes + [byte])
  {
    var bits;
    s8, bits, byte := OneByte(line, s, n);
    AfterBit0IsJk(line, s);
    ReceiveStep(line, s, room, bytes);
  }

  /** The 16.5 MHz receiver stores the bytes of a clean line. */
  lemma {:induction false} Clean165(line: nat -> bv8, s: Rx, n: nat, room: nat, bytes: seq<bv8>)
    requires Clean(line, s, n) && n <= room
    ensures Receive(line, s, room, bytes) == Packet(bytes + Decoded(line, s, n))
    decreases n
  {
    if n == 0 {
      assert bytes + Decoded(line, s, 0) == bytes;
    } else {
      var s8, byte := OneByte165(line, s, n, room, bytes);
      Clean165(line, s8, n - 1, room - 1, bytes + [byte]);
      assert bytes + ([byte] + Decoded(line, s8, n - 1)) == (bytes + [byte]) + Decoded(line, s8, n - 1);
    }
  }

  // ---- the 20 MHz receiver on the same lines

  /** s20 is s with a pending stuff bit already taken. */
  predicate Matches(line: nat -> bv8, s: Rx, s20: Rx20) {
    var u := Unstuffed(line, s);
    && s20.pos == u.pos && s20.run == u.run && Jk(s20.level) && Minus(s20.level) == u.prev
    && (s20.level & USBMASK) == s20.level
  }

  lemma SameLevel(a: bv8, b: bv8)
    requires Jk(a) && Jk(b) && (b & USBMASK) == b
    ensures (a & USBMASK) == b <==> Minus(a) == Minus(b)
    ensures Jk(a & USBMASK) && Minus(a & USBMASK) == Minus(a) && ((a & USBMASK) & USBMASK) == (a & USBMASK)
  {
  }

  lemma BitMatches(line: nat -> bv8, s: Rx, s20: Rx20)
    requires Matches(line, s, s20) && JkBit(line, s) && s.run <= 6
    requires NextBit(line, s).0.run == 6 ==> Jk(line(NextBit(line, s).0.pos))
    ensures NextBit20(line, s20).1 == NextBit(line, s).1
    ensures Matches(line, NextBit(line, s).0, NextBit20(line, s20).0)
  {
    SameLevel(line(s20.pos), s20.level);
    if NextBit(line, s).0.run == 6 { SameLevel(line(NextBit(line, s).0.pos), s20.level); }
  }

  /** A stuff bit pending after the bits taken so far is J or K, as more bits, or the end of the packet, follow. */
  lemma PendingIsJk(line: nat -> bv8, s: Rx, k: nat, n: nat)
    requires JkBits(line, s, k) && Clean(line, NextBits(line, s, k).0, n)
    ensures s.run >= 6 ==> Jk(line(s.pos))
  {
    if k == 0 && n > 0 { assert JkBit(line, s); }
  }

  /** One bit of the 20 MHz receiver inside a byte. */
  lemma Bit20(line: nat -> bv8, s: Rx, s20: Rx20, done: seq<bool>, k: nat, n: nat, room: nat, bytes: seq<bv8>)
    returns (s1: Rx, s20': Rx20, b: bool)
    requires |done| <= 7 && room > 0 && Matches(line, s, s20) && s.run <= 6
    requires JkBits(line, s, k + 1) && Clean(line, NextBits(line, s, k + 1).0, n)
    ensures JkBits(line, s1, k) && Clean(line, NextBits(line, s1, k).0, n) && s1.run <= 6
    ensures NextBits(line, s, k + 1) == (NextBits(line, s1, k).0, [b] + NextBits(line, s1, k).1)
    ensures Matches(line, s1, s20')
    ensures Go20(line, s20, done, room, bytes)
            == if |done| < 7 then Go20(line, s20', done + [b], room, bytes)
               else Go20(line, s20', [], room - 1, bytes + [Pack(done + [b])])
  {
    s1, b := NextBit(line, s).0, NextBit(line, s).1;
    s20' := NextBit20(line, s20).0;
    NextBitsFront(line, s, k);
    PendingIsJk(line, s1, k, n);
    BitMatches(line, s, s20);
    Go20Step(line, s20, done, room, bytes);
  }

  lemma {:induction false} Byte20(line: nat -> bv8, s: Rx, s20: Rx20, done: seq<bool>, n: nat, room: nat,
      bytes: seq<bv8>)
    returns (s8: Rx, s20': Rx20, bits: seq<bool>)
    requires |done| <= 7 && Matches(line, s, s20) && s.run <= 6
    requires JkBits(line, s, BYTE - |done|) && Clean(line, NextBits(line, s, BYTE - |done|).0, n) && room > 0
    ensures (s8, bits) == NextBits(line, s, BYTE - |done|)
    ensures Matches(line, s8, s20') && s8.run <= 6
    ensures Go20(line, s20, done, room, bytes) == Go20(line, s20', [], room - 1, bytes + [Pack(done + bits)])
    decreases 8 - |done|
  {
    hide Pack, JkBits, Clean, Matches, NextBit20;
    var k := 7 - |done|;
    var b;
    s8, s20', b := Bit20(line, s, s20, done, k, n, room, bytes);
    if k == 0 {
      bits := [b] + [];
      assert done + bits == done + [b];
    } else {
      var more;
      s8, s20', more := Byte20(line, s8, s20', done + [b], n, room, bytes);
      bits := [b] + more;
      assert (done + [b]) + more == done + bits;
    }
  }

  lemma OneByte20(line: nat -> bv8, s: Rx, s20: Rx20, n: nat, room: nat, bytes: seq<bv8>)
    returns (s8: Rx, s20': Rx20, byte: bv8)
    requires n > 0 && Clean(line, s, n) && room > 0 && Matches(line, s, s20) && s.run <= 6
    ensures Clean(line, s8, n - 1) && Decoded(line, s, n) == [byte] + Decoded(line, s8, n - 1)
    ensures Matches(line, s8, s20') && s8.run <= 6
    ensures Go20(line, s20, [], room, bytes) == Go20(line, s20', [], room - 1, bytes + [byte])
  {
    var bits;
    s8, bits, byte := OneByte(line, s, n);
    var bits';
    s8, s20', bits' := Byte20(line, s, s20, [], n - 1, room, bytes);
    assert [] + bits' == bits;
  }

  lemma Go20Step(line: nat -> bv8, s: Rx20, done: seq<bool>, room: nat, bytes: seq<bv8>)
    requires |done| <= 7 && room > 0 && Jk(line(s.pos))
    ensures var (s', b) := NextBit20(line, s);
            Go20(line, s, done, room, bytes)
            == if |done| < 7 then Go20(line, s', done + [b], room, bytes)
               else Go20(line, s', [], room - 1, bytes + [Pack(done + [b])])
  {
    NotSe0(line(s.pos));
  }

  /** Bit 0 is the first SE0 sample; the test before bit 1 sees the second. */
  lemma End20(line: nat -> bv8, s: Rx20, room: nat, bytes: seq<bv8>)
    requires Jk(s.level) && IsSe0(line(s.pos)) && IsSe0(line(s.pos + 1))
    ensures Go20(line, s, [], room, bytes) == Packet(bytes)
  {
    var (s1, b) := NextBit20(line, s);
    assert (line(s.pos) & USBMASK) != s.level;
    assert s1.pos == s.pos + 1;
    assert Go20(line, s, [], room, bytes) == Go20(line, s1, [] + [b], room, bytes);
  }

  /** The 20 MHz receiver stores the same bytes. */
  lemma {:induction false} Clean20(line: nat -> bv8, s: Rx, s20: Rx20, n: nat, room: nat, bytes: seq<bv8>)
    requires Clean(line, s, n) && n <= room && Matches(line, s, s20) && s.run <= 6
    ensures Go20(line, s20, [], room, bytes) == Packet(bytes + Decoded(line, s, n))
    decreases n
  {
    if n == 0 {
      End20(line, s20, room, bytes);
      assert bytes + Decoded(line, s, 0) == bytes;
    } else {
      var s8, s20', byte := OneByte20(line, s, s20, n, room, bytes);
      Clean20(line, s8, s20', n - 1, room - 1, bytes + [byte]);
      assert bytes + ([byte] + Decoded(line, s8, n - 1)) == (bytes + [byte]) + Decoded(line, s8, n - 1);
    }
  }

  // ---- from levels to a clean line

  /** The line shows the given levels from sample `at` on; the port's other pins may do anything. */
  ghost predicate Carries(line: nat -> bv8, at: nat, levels: seq<Level>) {
    forall k: nat :: k < |levels| ==> LevelOf(line(at + k)) == levels[k]
  }

  lemma CarriesTail(line: nat -> bv8, at: nat, first: Level, levels: seq<Level>)
    requires Carries(line, at, [first] + levels)
    ensures LevelOf(line(at)) == first && Carries(line, at + 1, levels)
  {
    assert LevelOf(line(at + 0)) == ([first] + levels)[0];
    forall k: nat | k < |levels| ensures LevelOf(line(at + 1 + k)) == levels[k] {
      assert LevelOf(line(at + (k + 1))) == ([first] + levels)[k + 1];
    }
  }

  /** A receiver in state s agrees with a sender at level l, and `rest` and then `tail` are still to come. */
  ghost predicate InSync(line: nat -> bv8, s: Rx, rest: seq<bool>, l: Level, tail: seq<Level>) {
    && s.run <= 6 && Differential(l) && s.prev == (l == J)
    && Carries(line, s.pos, Nrzi(Stuff(rest, s.run), l) + tail)
  }

  lemma MinusOfLevel(port: bv8)
    requires Jk(port)
    ensures Minus(port) == (LevelOf(port) == J)
  {
  }

  /** A stuff bit that was sent is a stuff bit received. */
  lemma SentStuff(line: nat -> bv8, s: Rx, rest: seq<bool>, l: Level, tail: seq<Level>)
    requires s.run == 6 && InSync(line, s, rest, l, tail)
    ensures Jk(line(s.pos)) && InSync(line, Unstuffed(line, s), rest, Toggle(l), tail)
  {
    SendStuffBit(rest, l);
    var later := Nrzi(Stuff(rest, 0), Toggle(l));
    assert ([Toggle(l)] + later) + tail == [Toggle(l)] + (later + tail);
    CarriesTail(line, s.pos, Toggle(l), later + tail);
    MinusOfLevel(line(s.pos));
  }

  /** A bit that was sent is the bit received. */
  lemma SentBit(line: nat -> bv8, s: Rx, b: bool, rest: seq<bool>, l: Level, tail: seq<Level>) returns (next: Level)
    requires InSync(line, s, [b] + rest, l, tail)
    ensures NextBit(line, s).1 == b && JkBit(line, s)
    ensures InSync(line, NextBit(line, s).0, rest, next, tail)
  {
    var u, now := s, l;
    if s.run == 6 {
      SentStuff(line, s, [b] + rest, l, tail);
      u, now := Unstuffed(line, s), Toggle(l);
    }
    next := if b then now else Toggle(now);
    SendBit(b, rest, u.run, now);
    var later := Nrzi(Stuff(rest, if b then u.run + 1 else 0), next);
    assert ([next] + later) + tail == [next] + (later + tail);
    CarriesTail(line, u.pos, next, later + tail);
    MinusOfLevel(line(u.pos));
  }

  lemma {:induction false} SentBits(line: nat -> bv8, s: Rx, bits: seq<bool>, rest: seq<bool>, l: Level,
      tail: seq<Level>)
    returns (next: Level)
    requires InSync(line, s, bits + rest, l, tail)
    ensures NextBits(line, s, |bits|).1 == bits && JkBits(line, s, |bits|)
    ensures InSync(line, NextBits(line, s, |bits|).0, rest, next, tail)
    decreases |bits|
  {
    if bits == [] {
      next := l;
      assert bits + rest == rest;
    } else {
      assert bits + rest == [bits[0]] + (bits[1..] + rest);
      next := SentBit(line, s, bits[0], bits[1..] + rest, l, tail);
      next := SentBits(line, NextBit(line, s).0, bits[1..], rest, next, tail);
      NextBitsFront(line, s, |bits| - 1);
      assert bits == [bits[0]] + bits[1..];
    }
  }

  lemma SentEnd(line: nat -> bv8, s: Rx, l: Level, more: seq<Level>)
    requires InSync(line, s, [], l, [SE0, SE0] + more)
    ensures Clean(line, s, 0)
  {
    var u, now := s, l;
    if s.run == 6 {
      SentStuff(line, s, [], l, [SE0, SE0] + more);
      u, now := Unstuffed(line, s), Toggle(l);
    }
    assert Nrzi(Stuff([], u.run), now) + ([SE0, SE0] + more) == [SE0] + ([SE0] + more);
    CarriesTail(line, u.pos, SE0, [SE0] + more);
    CarriesTail(line, u.pos + 1, SE0, more);
    Se0Level(line(u.pos));
    Se0Level(line(u.pos + 1));
  }

  lemma Se0Level(port: bv8)
    requires LevelOf(port) == SE0
    ensures IsSe0(port)
  {
  }

  lemma {:induction false} SentBytes(line: nat -> bv8, s: Rx, data: seq<bv8>, l: Level, more: seq<Level>)
    requires InSync(line, s, BytesBits(data), l, [SE0, SE0] + more)
    ensures Clean(line, s, |data|) && Decoded(line, s, |data|) == data
    decreases |data|
  {
    if data == [] {
      SentEnd(line, s, l, more);
    } else {
      var bits := BitsFrom(data[0], 8);
      var next := SentBits(line, s, bits, BytesBits(data[1..]), l, [SE0, SE0] + more);
      SentBytes(line, NextBits(line, s, 8).0, data[1..], next, more);
      WirePack(bits);
      WireInjective(Pack(bits), data[0]);
      assert data == [data[0]] + data[1..];
    }
  }

  // ---- the sync byte

  /** Two 0 bits from idle bring the line back to idle. */
  lemma TwoZeros(rest: seq<bool>)
    ensures Nrzi(Stuff([false, false] + rest, 0), J) == [K, J] + Nrzi(Stuff(rest, 0), J)
  {
    assert [false, false] + rest == [false] + ([false] + rest);
    SendBit(false, [false] + rest, 0, J);
    SendBit(false, rest, 0, K);
  }

  lemma ZeroOne(rest: seq<bool>)
    ensures Nrzi(Stuff([false, true] + rest, 0), J) == [K, K] + Nrzi(Stuff(rest, 1), K)
  {
    assert [false, true] + rest == [false] + ([true] + rest);
    SendBit(false, [true] + rest, 0, J);
    SendBit(true, rest, 0, K);
  }

  const SYNC_LEVELS: seq<Level> := [K, J, K, J, K, J, K, K]

  lemma SyncPrefix(rest: seq<bool>)
    ensures Nrzi(Stuff([false, false] + ([false, false] + ([false, false] + ([false, true] + rest))), 0), J)
            == SYNC_LEVELS + Nrzi(Stuff(rest, 1), K)
  {
    ZeroOne(rest);
    TwoZeros([false, true] + rest);
    TwoZeros([false, false] + ([false, true] + rest));
    TwoZeros([false, false] + ([false, false] + ([false, true] + rest)));
    ConcatLevels(Nrzi(Stuff(rest, 1), K));
  }

  lemma ConcatLevels(x: seq<Level>)
    ensures [K, J] + ([K, J] + ([K, J] + ([K, K] + x))) == SYNC_LEVELS + x
  {
  }

  lemma ConcatBits(rest: seq<bool>)
    ensures [false, false] + ([false, false] + ([false, false] + ([false, true] + rest)))
            == [false, false, false, false, false, false, false, true] + rest
  {
  }

  /** The receivers start after the sync byte, whose last bit is a 1 at level K. */
  lemma AfterSync(data: seq<bv8>)
    ensures |PacketLevels(data)| >= 8
    ensures PacketLevels(data)[..8] == SYNC_LEVELS
    ensures PacketLevels(data)[8..] == Nrzi(Stuff(BytesBits(data), 1), K) + [SE0, SE0, J]
  {
    assert ([SYNC] + data)[1..] == data;
    SyncBits();
    ConcatBits(BytesBits(data));
    SyncPrefix(BytesBits(data));
    var levels := Nrzi(Stuff(BytesBits(data), 1), K);
    assert PacketLevels(data) == SYNC_LEVELS + (levels + [SE0, SE0, J]);
  }

  lemma SyncBits()
    ensures BitsFrom(SYNC, 8) == [false, false, false, false, false, false, false, true]
  {
    WireAt(SYNC);
    assert !Bit(0x80, 0) && !Bit(0x80, 1) && !Bit(0x80, 2) && !Bit(0x80, 3) && !Bit(0x80, 4) && !Bit(0x80, 5)
           && !Bit(0x80, 6) && Bit(0x80, 7);
  }

  /** A receiver that counts the last bit of sync. */
  const COUNTS_SYNC: Rx := Rx(0, false, 1)

  /** The line, from the first bit after sync, carries what a transmitter sends for `data`. */
  ghost predicate Transmission(line: nat -> bv8, data: seq<bv8>) {
    |PacketLevels(data)| >= 8 && Carries(line, 0, PacketLevels(data)[8..])
  }

  lemma TransmissionIsClean(line: nat -> bv8, data: seq<bv8>)
    requires Transmission(line, data)
    ensures Clean(line, COUNTS_SYNC, |data|) && Decoded(line, COUNTS_SYNC, |data|) == data
  {
    AfterSync(data);
    assert [SE0, SE0, J] == [SE0, SE0] + [J];
    SentBytes(line, COUNTS_SYNC, data, K, [J]);
  }

  /** The 20 MHz receiver stores every packet it has room for, whatever its bytes. */
  lemma RoundTrip20(line: nat -> bv8, data: seq<bv8>)
    requires |data| <= USB_BUFSIZE && Transmission(line, data)
    ensures Receive20(line) == Packet(data)
  {
    TransmissionIsClean(line, data);
    Clean20(line, COUNTS_SYNC, START20, |data|, USB_BUFSIZE, []);
    assert [] + data == data;
  }

  // ---- the 16.5 MHz receiver, which does not count the last bit of sync

  /** a counts one 1 bit less than c and otherwise stands where c stands. */
  predicate Lags(a: Rx, c: Rx) {
    a.pos == c.pos && a.prev == c.prev && c.run == a.run + 1
  }

  /** One bit with the lag: a 1 keeps it, a 0 ends it. */
  lemma LagStep(line: nat -> bv8, a: Rx, c: Rx)
    requires Lags(a, c) && a.run <= 4
    ensures NextBit(line, a).1 == NextBit(line, c).1 && (JkBit(line, a) <==> JkBit(line, c))
    ensures if NextBit(line, c).1 then
              Lags(NextBit(line, a).0, NextBit(line, c).0) && NextBit(line, a).0.run == a.run + 1
            else NextBit(line, a).0 == NextBit(line, c).0
  {
  }

  /** The first 0 bit ends the lag, if it comes before c sees a stuff bit. */
  lemma {:induction false} LagEnds(line: nat -> bv8, a: Rx, c: Rx, n: nat, z: nat)
    requires Lags(a, c) && z < n && a.run + z <= 4
    requires !NextBits(line, c, n).1[z]
    ensures NextBits(line, a, n) == NextBits(line, c, n) && (JkBits(line, a, n) <==> JkBits(line, c, n))
    decreases n
  {
    hide NextBit, JkBit;
    LagStep(line, a, c);
    NextBitsFront(line, a, n - 1);
    NextBitsFront(line, c, n - 1);
    var (a1, b) := NextBit(line, a);
    var (c1, b') := NextBit(line, c);
    if b { LagEnds(line, a1, c1, n - 1, z - 1); }
  }

  /** The mask-based receiver refines the run-counting one: on every line that carries a whole number of bytes, with
      stuff bits of either value, both store the same bytes, unless the first five bits are all 1. */
  lemma MaskFormRefinesCountForm(line: nat -> bv8, n: nat, z: nat)
    requires 1 <= n <= USB_BUFSIZE && Clean(line, COUNTS_SYNC, n)
    requires z < 5 && !NextBits(line, COUNTS_SYNC, BYTE).1[z]
    ensures Receive165(line) == Receive20(line) == Packet(Decoded(line, COUNTS_SYNC, n))
  {
    LagEnds(line, START165, COUNTS_SYNC, BYTE, z);
    Clean165(line, START165, n, USB_BUFSIZE, []);
    Clean20(line, COUNTS_SYNC, START20, n, USB_BUFSIZE, []);
    assert [] + Decoded(line, COUNTS_SYNC, n) == Decoded(line, COUNTS_SYNC, n);
  }

  predicate FiveOnes(byte: bv8) { (byte & 0x1f) == 0x1f }

  lemma FiveOnesBits(byte: bv8)
    ensures FiveOnes(byte) <==> (forall z: nat :: z < 5 ==> Wire(byte)[z])
  {
    WireAt(byte);
    assert FiveOnes(byte) <==> Bit(byte, 0) && Bit(byte, 1) && Bit(byte, 2) && Bit(byte, 3) && Bit(byte, 4);
  }

  lemma FirstByteBits(line: nat -> bv8, data: seq<bv8>)
    requires data != [] && Transmission(line, data)
    ensures NextBits(line, COUNTS_SYNC, BYTE).1 == Wire(data[0])
  {
    TransmissionIsClean(line, data);
    WirePack(NextBits(line, COUNTS_SYNC, BYTE).1);
    assert Decoded(line, COUNTS_SYNC, |data|)[0] == Pack(NextBits(line, COUNTS_SYNC, BYTE).1);
  }

  /** Without five leading 1 bits, the packet comes through. */
  lemma RoundTripPlain(line: nat -> bv8, data: seq<bv8>)
    requires 1 <= |data| <= USB_BUFSIZE && Transmission(line, data) && !FiveOnes(data[0])
    ensures Receive165(line) == Packet(data)
  {
    FirstByteBits(line, data);
    FiveOnesBits(data[0]);
    var z: nat :| z < 5 && !Wire(data[0])[z];
    TransmissionIsClean(line, data);
    MaskFormRefinesCountForm(line, |data|, z);
  }

  lemma {:induction false} NextBitsSplit(line: nat -> bv8, s: Rx, j: nat, k: nat)
    ensures var first := NextBits(line, s, j);
            var second := NextBits(line, first.0, k);
            NextBits(line, s, j + k) == (second.0, first.1 + second.1)
    decreases k
  {
    var first := NextBits(line, s, j);
    if k == 0 {
      assert first.1 + [] == first.1;
    } else {
      NextBitsSplit(line, s, j, k - 1);
      var before := NextBits(line, first.0, k - 1);
      var b := NextBit(line, before.0).1;
      assert (first.1 + before.1) + [b] == first.1 + (before.1 + [b]);
    }
  }

  /** The bytes stored are the bits received. */
  lemma {:induction false} DecodedBits(line: nat -> bv8, s: Rx, n: nat)
    ensures BytesBits(Decoded(line, s, n)) == NextBits(line, s, 8 * n).1
    decreases n
  {
    if n > 0 {
      var (s8, bits) := NextBits(line, s, BYTE);
      DecodedBits(line, s8, n - 1);
      NextBitsSplit(line, s, BYTE, 8 * (n - 1));
      WirePack(bits);
      var d := Decoded(line, s, n);
      assert d[0] == Pack(bits) && d[1..] == Decoded(line, s8, n - 1);
    }
  }

  /** While samples are J and K no byte is the last one. */
  lemma {:induction false} ReceiveJk(line: nat -> bv8, s: Rx, n: nat, room: nat, bytes: seq<bv8>)
    requires n <= room && JkBits(line, s, 8 * n)
    ensures Receive(line, s, room, bytes)
            == Receive(line, NextBits(line, s, 8 * n).0, room - n, bytes + Decoded(line, s, n))
    decreases n
  {
    if n == 0 {
      assert bytes + Decoded(line, s, 0) == bytes;
    } else {
      JkSplit(line, s, BYTE, 8 * (n - 1));
      AfterBit0IsJk(line, s);
      ReceiveStep(line, s, room, bytes);
      var (s8, bits) := NextBits(line, s, BYTE);
      ReceiveJk(line, s8, n - 1, room - 1, bytes + [Pack(bits)]);
      NextBitsSplit(line, s, BYTE, 8 * (n - 1));
      assert bytes + ([Pack(bits)] + Decoded(line, s8, n - 1)) == (bytes + [Pack(bits)]) + Decoded(line, s8, n - 1);
    }
  }

  lemma {:induction false} JkSplit(line: nat -> bv8, s: Rx, j: nat, k: nat)
    ensures JkBits(line, s, j + k) <==> JkBits(line, s, j) && JkBits(line, NextBits(line, s, j).0, k)
    decreases j
  {
    if j > 0 {
      JkSplit(line, NextBit(line, s).0, j - 1, k);
      NextBitsFront(line, s, j - 1);
    }
  }

  /** A receiver that finds no SE0 after bit 0 does not return just the bytes it has. */
  lemma {:induction false} ReceiveGrows(line: nat -> bv8, s: Rx, room: nat, bytes: seq<bv8>)
    ensures Receive(line, s, room, bytes).Packet? ==> |Receive(line, s, room, bytes).bytes| >= |bytes|
    decreases room
  {
    if room > 0 && !IsSe0(line(NextBit(line, s).0.pos)) {
      ReceiveStep(line, s, room, bytes);
      var (s8, bits) := NextBits(line, s, BYTE);
      ReceiveGrows(line, s8, room - 1, bytes + [Pack(bits)]);
    }
  }

  // ---- five leading 1 bits: with the 1 of sync the sender stuffs, and this receiver does not know

  /** While only 1 bits arrive the lag persists. */
  lemma {:induction false} LagPersists(line: nat -> bv8, a: Rx, c: Rx, k: nat)
    requires Lags(a, c) && a.run + k <= 5
    requires forall j: nat :: j < k ==> NextBits(line, c, k).1[j]
    ensures Lags(NextBits(line, a, k).0, NextBits(line, c, k).0)
    ensures NextBits(line, a, k).0.run == a.run + k && NextBits(line, a, k).1 == NextBits(line, c, k).1
    ensures JkBits(line, a, k) <==> JkBits(line, c, k)
    decreases k
  {
    hide NextBit, JkBit;
    if k > 0 {
      LagStep(line, a, c);
      NextBitsFront(line, a, k - 1);
      NextBitsFront(line, c, k - 1);
      var c1 := NextBit(line, c).0;
      var rest := NextBits(line, c1, k - 1).1;
      assert NextBits(line, c, k).1[0];
      forall j: nat | j < k - 1 ensures rest[j] {
        assert NextBits(line, c, k).1[j + 1];
      }
      LagPersists(line, NextBit(line, a).0, c1, k - 1);
    }
  }

  /** The bits the receiver then sees: the stuff bit among them, as data. */
  function WithStuffBit(bits: seq<bool>): seq<bool>
    requires |bits| >= 5
  {
    bits[..5] + [false] + bits[5..]
  }

  /** The first six samples: five 1 bits and the stuff bit, after which sender and receiver count alike. */
  lemma FiveOnesThenStuff(line: nat -> bv8, bits: seq<bool>, tail: seq<Level>) returns (s6: Rx, l: Level)
    requires |bits| >= 5 && (forall j: nat :: j < 5 ==> bits[j]) && InSync(line, COUNTS_SYNC, bits, K, tail)
    ensures NextBits(line, START165, 6) == (s6, bits[..5] + [false]) && JkBits(line, START165, 6)
    ensures InSync(line, s6, bits[5..], l, tail)
  {
    assert bits == bits[..5] + bits[5..];
    l := SentBits(line, COUNTS_SYNC, bits[..5], bits[5..], K, tail);
    LagPersists(line, START165, COUNTS_SYNC, 5);
    var a5, c5 := NextBits(line, START165, 5).0, NextBits(line, COUNTS_SYNC, 5).0;
    SentStuff(line, c5, bits[5..], l, tail);
    s6, l := Unstuffed(line, c5), Toggle(l);
    MinusOfLevel(line(c5.pos));
    assert NextBit(line, a5) == (s6, false);
    JkSplit(line, START165, 5, 1);
  }

  lemma FiveOnesBitsReceived(line: nat -> bv8, bits: seq<bool>, more: seq<Level>) returns (end: Rx)
    requires |bits| >= 5 && (forall j: nat :: j < 5 ==> bits[j])
    requires InSync(line, COUNTS_SYNC, bits, K, [SE0, SE0] + more)
    ensures NextBits(line, START165, |bits| + 1) == (end, WithStuffBit(bits)) && JkBits(line, START165, |bits| + 1)
    ensures Clean(line, end, 0) && end.run <= 6
  {
    var s6, l := FiveOnesThenStuff(line, bits, [SE0, SE0] + more);
    assert bits[5..] + [] == bits[5..];
    var l' := SentBits(line, s6, bits[5..], [], l, [SE0, SE0] + more);
    end := NextBits(line, s6, |bits| - 5).0;
    SentEnd(line, end, l', more);
    NextBitsSplit(line, START165, 6, |bits| - 5);
    JkSplit(line, START165, 6, |bits| - 5);
  }

  /** The packets that survive the extra bit: after the five 1 bits nothing but 0 bits. */
  predicate OnlyFiveOnes(data: seq<bv8>) {
    data != [] && data[0] == 0x1f && forall k :: 1 <= k < |data| ==> data[k] == 0
  }

  lemma {:induction false} ZeroBytesBits(n: nat)
    ensures BytesBits(seq(n, _ => 0)) == seq(8 * n, _ => false)
    decreases n
  {
    if n > 0 {
      var z: seq<bv8> := seq(n, _ => 0);
      assert z[0] == 0 && z[1..] == seq(n - 1, _ => 0);
      ZeroBytesBits(n - 1);
      ZeroWire(0);
      assert BitsFrom(0, 8) == seq(8, _ => false);
    }
  }

  lemma OnlyFiveOnesExample(n: nat) returns (only: seq<bv8>)
    ensures |only| == n + 1 && OnlyFiveOnes(only)
    ensures BytesBits(only) == [true, true, true, true, true] + seq(8 * n + 3, _ => false)
  {
    var zeros: seq<bv8> := seq(n, _ => 0);
    only := [0x1f] + zeros;
    assert only[0] == 0x1f && only[1..] == zeros;
    ZeroBytesBits(n);
    LowFive();
  }

  lemma OnlyFiveOnesBits(data: seq<bv8>)
    requires data != []
    ensures OnlyFiveOnes(data) <==>
            BytesBits(data) == [true, true, true, true, true] + seq(8 * |data| - 5, _ => false)
  {
    var only := OnlyFiveOnesExample(|data| - 1);
    if OnlyFiveOnes(data) { assert data == only; }
    if BytesBits(data) == BytesBits(only) { BytesBitsInjective(data, only); }
  }

  lemma LowFive()
    ensures BitsFrom(0x1f, 8) == [true, true, true, true, true, false, false, false]
  {
    WireAt(0x1f);
    assert Bit(0x1f, 0) && Bit(0x1f, 1) && Bit(0x1f, 2) && Bit(0x1f, 3) && Bit(0x1f, 4) && !Bit(0x1f, 5)
           && !Bit(0x1f, 6) && !Bit(0x1f, 7);
  }

  /** Inserting a 0 after five 1 bits and dropping the last bit changes nothing only when all later bits are 0. */
  lemma StuffBitUnnoticed(bits: seq<bool>)
    requires |bits| >= 6 && (forall j: nat :: j < 5 ==> bits[j])
    ensures WithStuffBit(bits)[..|bits|] == bits <==>
            bits == [true, true, true, true, true] + seq(|bits| - 5, _ => false)
  {
    var e := WithStuffBit(bits);
    if e[..|bits|] == bits {
      AllLaterFalse(bits, |bits|);
      assert bits == [true, true, true, true, true] + seq(|bits| - 5, _ => false);
    }
  }

  lemma {:induction false} AllLaterFalse(bits: seq<bool>, k: nat)
    requires 6 <= k <= |bits| && WithStuffBit(bits)[..|bits|] == bits
    ensures forall j :: 5 <= j < k ==> !bits[j]
    decreases k
  {
    if k > 6 {
      AllLaterFalse(bits, k - 1);
      assert bits[k - 1] == WithStuffBit(bits)[..|bits|][k - 1] == bits[k - 2];
    } else {
      assert bits[5] == WithStuffBit(bits)[..|bits|][5];
    }
  }

  /** What the receiver makes of such a packet: right only by the accident that every later bit is 0. */
  lemma RoundTripFiveOnes(line: nat -> bv8, data: seq<bv8>)
    requires 1 <= |data| <= USB_BUFSIZE && Transmission(line, data) && FiveOnes(data[0])
    ensures Receive165(line) == Packet(data) <==> OnlyFiveOnes(data)
  {
    hide JkBits, Decoded, Pack;
    var bits := BytesBits(data);
    var n := |data|;
    AfterSync(data);
    FiveOnesBits(data[0]);
    assert [SE0, SE0, J] == [SE0, SE0] + [J];
    assert forall j: nat :: j < 5 ==> bits[j] == Wire(data[0])[j];
    var end := FiveOnesBitsReceived(line, bits, [J]);
    var s := NextBits(line, START165, 8 * n).0;
    var got := Decoded(line, START165, n);
    ReceivedOneBitLate(line, bits, n, end);
    OnlyFiveOnesBits(data);
    StuffBitUnnoticed(bits);
    if end.run == 6 {
      EndsInOnes(line, bits, n, end);
      NotSe0(line(end.pos));
      if n < USB_BUFSIZE {
        ReceiveStep(line, s, USB_BUFSIZE - n, got);
        var (s8, b8) := NextBits(line, s, BYTE);
        ReceiveGrows(line, s8, USB_BUFSIZE - n - 1, got + [Pack(b8)]);
      }
    } else {
      if got == data {} else if BytesBits(got) == bits { BytesBitsInjective(got, data); }
    }
  }

  lemma ReceivedOneBitLate(line: nat -> bv8, bits: seq<bool>, n: nat, end: Rx)
    requires 1 <= n <= USB_BUFSIZE && |bits| == 8 * n
    requires NextBits(line, START165, 8 * n + 1) == (end, WithStuffBit(bits)) && JkBits(line, START165, 8 * n + 1)
    ensures var (s, got) := (NextBits(line, START165, 8 * n).0, Decoded(line, START165, n));
            && Receive165(line) == Receive(line, s, USB_BUFSIZE - n, got)
            && NextBit(line, s) == (end, bits[8 * n - 1])
            && BytesBits(got) == WithStuffBit(bits)[..8 * n]
  {
    hide NextBits, NextBit, JkBits, Decoded, BytesBits, Receive, WithStuffBit;
    JkSplit(line, START165, 8 * n, 1);
    ReceiveJkFromStart(line, n);
    DecodedBits(line, START165, n);
    LastBitLate(line, START165, 8 * n, bits, end);
  }

  lemma ReceiveJkFromStart(line: nat -> bv8, n: nat)
    requires n <= USB_BUFSIZE && JkBits(line, START165, 8 * n)
    ensures Receive165(line)
            == Receive(line, NextBits(line, START165, 8 * n).0, USB_BUFSIZE - n, Decoded(line, START165, n))
  {
    ReceiveJk(line, START165, n, USB_BUFSIZE, []);
    assert [] + Decoded(line, START165, n) == Decoded(line, START165, n);
  }

  lemma LastBitLate(line: nat -> bv8, s: Rx, n: nat, bits: seq<bool>, end: Rx)
    requires |bits| == n >= 6 && NextBits(line, s, n + 1) == (end, WithStuffBit(bits))
    ensures NextBit(line, NextBits(line, s, n).0) == (end, bits[n - 1])
    ensures NextBits(line, s, n).1 == WithStuffBit(bits)[..n]
  {
    assert WithStuffBit(bits)[n] == bits[n - 1];
  }

  lemma EndsInOnes(line: nat -> bv8, bits: seq<bool>, n: nat, end: Rx)
    requires n >= 1 && |bits| == 8 * n && end.run == 6
    requires NextBit(line, NextBits(line, START165, 8 * n).0) == (end, bits[8 * n - 1])
    ensures bits != [true, true, true, true, true] + seq(|bits| - 5, _ => false)
  {
    assert bits[8 * n - 1];
  }

  /** A packet of 1 to 11 bytes sent by a transmitter is stored unchanged by the 16.5 MHz receiver exactly when its
      first byte does not begin with five 1 bits, or is followed by nothing but 0 bits. */
  lemma RoundTrip165(line: nat -> bv8, data: seq<bv8>)
    requires 1 <= |data| <= USB_BUFSIZE && Transmission(line, data)
    ensures Receive165(line) == Packet(data) <==> (!FiveOnes(data[0]) || OnlyFiveOnes(data))
  {
    if FiveOnes(data[0]) { RoundTripFiveOnes(line, data); } else { RoundTripPlain(line, data); }
  }

  /** The high four bits of a packet identifier are the complement of the low four (section 8.3.1 of USB 2.0). */
  predicate WellFormedPid(pid: bv8) { ((pid >> 4) ^ pid) & 0x0f == 0x0f }

  /** So every packet the bus protocol allows comes through. */
  lemma RoundTripPid(line: nat -> bv8, data: seq<bv8>)
    requires 1 <= |data| <= USB_BUFSIZE && Transmission(line, data) && WellFormedPid(data[0])
    ensures Receive165(line) == Packet(data) == Receive20(line)
  {
    assert !FiveOnes(data[0]);
    RoundTripPlain(line, data);
    RoundTrip20(line, data);
  }

  // ---- such a line exists for every packet

  function PortOf(l: Level): bv8 {
    match l
    case J => 0x08
    case K => 0x10
    case SE0 => 0x00
    case SE1 => 0x18
  }

  lemma PortShows(l: Level)
    ensures LevelOf(PortOf(l)) == l
  {
  }

  /** The line, from the first bit after sync, while a packet is sent. */
  function PacketLine(data: seq<bv8>): nat -> bv8 {
    var levels := PacketLevels(data);
    (k: nat) => if k + 8 < |levels| then PortOf(levels[k + 8]) else PortOf(J)
  }

  lemma PacketLineCarries(data: seq<bv8>)
    ensures Transmission(PacketLine(data), data)
  {
    hide PacketLevels;
    AfterSync(data);
    var levels := PacketLevels(data)[8..];
    forall k: nat | k < |levels| ensures LevelOf(PacketLine(data)(k)) == levels[k] { PortShows(levels[k]); }
  }

  /** A packet that the transmitters send and the 16.5 MHz receiver does not store, while the 20 MHz receiver does. */
  lemma FiveOnesExample()
    ensures Transmission(PacketLine([0xff]), [0xff])
    ensures Receive165(PacketLine([0xff])) != Packet([0xff]) == Receive20(PacketLine([0xff]))
  {
    hide PacketLine, Receive165, Receive20, Transmission;
    PacketLineCarries([0xff]);
    RoundTrip165(PacketLine([0xff]), [0xff]);
    RoundTrip20(PacketLine([0xff]), [0xff]);
  }
}

/** Finding the baud rate of a debugWIRE device from the byte it answers a break with. */
module BaudSearch {

  import opened Bytes

  function Pow2(k: nat): (p: nat)
    requires k <= 8
    ensures p >= 1
  {
    if k == 0 then 1 else 2 * Pow2(k - 1)
  }

  predicate BitOf(b: byte, i: nat)
    requires i < 8
  {
    b / Pow2(i) % 2 == 1
  }

  /** Bits i down to 0. */
  function Bits(b: byte, i: nat): (bits: seq<bool>)
    requires i < 8
    ensures |bits| == i + 1
  {
    seq(i + 1, k requires 0 <= k < i + 1 => BitOf(b, i - k))
  }

  /** The length of the run that the sequence starts with. */
  function FirstRun(bits: seq<bool>): (n: nat)
    requires bits != []
    ensures 1 <= n <= |bits|
    ensures forall k :: 0 <= k < n ==> bits[k] == bits[0]
    ensures n < |bits| ==> bits[n] != bits[0]
  {
    if |bits| == 1 || bits[1] != bits[0] then 1 else 1 + FirstRun(bits[1..])
  }

  /** The lengths of all runs. */
  function Runs(bits: seq<bool>): seq<nat>
    decreases |bits|
  {
    if bits == [] then [] else [FirstRun(bits)] + Runs(bits[FirstRun(bits)..])
  }

  function Count(runs: seq<nat>, n: nat): nat {
    if runs == [] then 0 else (if runs[0] == n then 1 else 0) + Count(runs[1..], n)
  }

  /** Leading ones are ignored, but two bits stay. */
  function Top(b: byte, i: nat): (top: nat)
    requires 1 <= i < 8
    ensures 1 <= top <= i
  {
    if BitOf(b, i) && i > 1 then Top(b, i - 1) else i
  }

  predicate AllZero(bits: seq<bool>) { forall k :: 0 <= k < |bits| ==> !bits[k] }

  function RunScale(runs: seq<nat>): nat {
    if Count(runs, 3) > 1 then 60
    else if Count(runs, 2) > 1 then 85
    else if Count(runs, 1) > 1 then 95
    else if Count(runs, 4) > 0 then 40
    else if Count(runs, 5) > 0 then 30
    else if Count(runs, 6) > 0 || Count(runs, 7) > 0 then 25
    else 95
  }

  function ZeroScale(remaining: nat): nat {
    if remaining <= 3 then 20 else if remaining == 4 then 30 else if remaining == 5 then 40
    else if remaining == 6 then 60 else 95
  }

  /** The next rate as a percentage, from the byte received. */
  function Scale(b: byte): nat {
    if b == 0x55 then 100 else if b == 0 then 20 else
    var bits := Bits(b, Top(b, 7));
    if AllZero(bits) then ZeroScale(|bits|) else RunScale(Runs(bits))
  }

  /** 100 means the expected byte and nothing else; everything else asks for a lower rate, but not below a fifth. */
  lemma ScaleRange(b: byte)
    ensures Scale(b) == 100 <==> b == 0x55
    ensures b != 0x55 ==> 20 <= Scale(b) <= 95
  {
  }

  // ---- scaleby

  lemma RunEnds(bits: seq<bool>, n: nat)
    requires 1 <= n <= |bits| && (forall k :: 0 <= k < n ==> bits[k] == bits[0]) && (n < |bits| ==> bits[n] != bits[0])
    ensures FirstRun(bits) == n
  {
  }

  lemma BitsTail(b: byte, s: nat, i: nat)
    requires i <= s < 8
    ensures Bits(b, s)[s - i..] == Bits(b, i)
  {
  }

  /** The counting loop: one entry of lengthcount for every run length. */
  method CountRuns(b: byte, top: nat) returns (lengthcount: array<nat>)
    requires 1 <= top < 8
    ensures fresh(lengthcount) && lengthcount.Length == 9
    ensures forall n: nat :: n < 9 ==> lengthcount[n] == Count(Runs(Bits(b, top)), n)
  {
    hide Runs, Count, Bits, BitOf;
    lengthcount := new nat[9](_ => 0);
    var i := top;
    var c := BitOf(b, i);
    var s := i;
    while i > 0
      invariant 0 <= i <= s <= top
      invariant forall k :: i <= k <= s ==> BitOf(b, k) == c
      invariant forall n: nat :: n < 9 ==>
                  lengthcount[n] + Count(Runs(Bits(b, s)), n) == Count(Runs(Bits(b, top)), n)
    {
      i := i - 1;
      var bit := BitOf(b, i);
      if bit != c {
        RunStep(b, s, i);
        lengthcount[s - i] := lengthcount[s - i] + 1;
        c := bit;
        s := i;
      }
    }
    LastRun(b, s);
    lengthcount[s + 1] := lengthcount[s + 1] + 1;
  }

  lemma RunStep(b: byte, s: nat, i: nat)
    requires i < s < 8 && (forall k :: i < k <= s ==> BitOf(b, k) == BitOf(b, s)) && BitOf(b, i) != BitOf(b, s)
    ensures forall n: nat :: Count(Runs(Bits(b, s)), n) == (if n == s - i then 1 else 0) + Count(Runs(Bits(b, i)), n)
  {
    RunEnds(Bits(b, s), s - i);
    BitsTail(b, s, i);
    var rest := Runs(Bits(b, i));
    assert Runs(Bits(b, s)) == [s - i] + rest;
    assert ([s - i] + rest)[1..] == rest;
  }

  lemma LastRun(b: byte, s: nat)
    requires s < 8 && forall k :: 0 <= k <= s ==> BitOf(b, k) == BitOf(b, s)
    ensures forall n: nat :: Count(Runs(Bits(b, s)), n) == if n == s + 1 then 1 else 0
  {
    RunEnds(Bits(b, s), s + 1);
    assert Bits(b, s)[s + 1..] == [];
    assert Runs(Bits(b, s)) == [s + 1] + [];
    assert [s + 1][1..] == [];
  }

  lemma {:induction false} ZeroBelow(b: byte, i: nat)
    requires i < 8
    ensures b % Pow2(i + 1) == 0 <==> AllZero(Bits(b, i))
    decreases i
  {
    hide BitOf;
    if i > 0 {
      hide Pow2;
      ZeroBelow(b, i - 1);
      BitsTail(b, i, i - 1);
      ZeroSplit(b, i);
      assert Bits(b, i) == [BitOf(b, i)] + Bits(b, i - 1);
      AllZeroFirst(BitOf(b, i), Bits(b, i - 1));
    } else {
      LowBit(b);
      assert Bits(b, 0)[0] == BitOf(b, 0);
    }
  }

  lemma AllZeroFirst(bit: bool, rest: seq<bool>)
    ensures AllZero([bit] + rest) <==> !bit && AllZero(rest)
  {
    if AllZero([bit] + rest) {
      assert !([bit] + rest)[0];
      forall k | 0 <= k < |rest| ensures !rest[k] { assert !([bit] + rest)[k + 1]; }
    }
  }

  lemma LowBit(b: byte)
    ensures BitOf(b, 0) <==> b % Pow2(1) != 0
  {
    assert Pow2(1) == 2 && Pow2(0) == 1;
  }

  lemma ZeroSplit(b: byte, i: nat)
    requires i < 8
    ensures b % Pow2(i + 1) == 0 <==> !BitOf(b, i) && b % Pow2(i) == 0
  {
    PowerOfTwo(i);
    var p := Pow2(i);
    assert Pow2(i + 1) == 2 * p;
    SplitAt(b, p);
  }

  lemma PowerOfTwo(i: nat)
    requires i < 8
    ensures Pow2(i) in {1, 2, 4, 8, 16, 32, 64, 128}
  {
    assert Pow2(0) == 1 && Pow2(1) == 2 && Pow2(2) == 4 && Pow2(3) == 8 && Pow2(4) == 16;
    assert Pow2(5) == 32 && Pow2(6) == 64 && Pow2(7) == 128;
  }

  lemma SplitAt(b: byte, p: nat)
    requires p in {1, 2, 4, 8, 16, 32, 64, 128}
    ensures b % (2 * p) == 0 <==> b / p % 2 == 0 && b % p == 0
  {
    if p <= 8 { SplitAtLow(b, p); } else { SplitAtHigh(b, p); }
  }

  lemma SplitAtLow(b: byte, p: nat)
    requires p in {1, 2, 4, 8}
    ensures b % (2 * p) == 0 <==> b / p % 2 == 0 && b % p == 0
  {
    if p == 1 {} else if p == 2 {} else if p == 4 {} else { assert p == 8; }
  }

  lemma SplitAtHigh(b: byte, p: nat)
    requires p in {16, 32, 64, 128}
    ensures b % (2 * p) == 0 <==> b / p % 2 == 0 && b % p == 0
  {
    if p == 16 {} else if p == 32 {} else if p == 64 {} else { assert p == 128; }
  }

  /** scaleby. */
  method ScaleBy(b: byte) returns (scale: nat)
    ensures scale == Scale(b)
  {
    hide Runs, Count, Bits, BitOf, AllZero, Pow2;
    if b == 0x55 { return 100; }
    if b == 0 { return 20; }
    var i := SkipOnes(b);
    var remaining := i + 1;
    var lengthcount := CountRuns(b, i);
    ZeroBelow(b, i);
    if b % Pow2(remaining) == 0 {
      return if remaining <= 3 then 20 else if remaining == 4 then 30 else if remaining == 5 then 40
        else if remaining == 6 then 60 else 95;
    }
    if lengthcount[3] > 1 { return 60; }
    if lengthcount[2] > 1 { return 85; }
    if lengthcount[1] > 1 { return 95; }
    if lengthcount[4] > 0 { return 40; }
    if lengthcount[5] > 0 { return 30; }
    if lengthcount[6] > 0 { return 25; }
    if lengthcount[7] > 0 { return 25; }
    return 95;
  }

  method SkipOnes(b: byte) returns (i: nat)
    ensures 1 <= i < 8 && i == Top(b, 7)
  {
    hide BitOf;
    i := 7;
    while BitOf(b, i) && i > 1
      invariant 1 <= i < 8 && Top(b, i) == Top(b, 7)
    {
      i := i - 1;
    }
  }

  // ---- the coarse search

  /** What comes of setting a rate and sending a break: the port refuses the rate, or the byte expected does not come
      back, or it does. */
  datatype Response = Refused | NoAnswer | Answer(byte: byte)

  /** The port with the device at its other end. */
  datatype Port = Port(at: int -> Response)

  /** A scale, 0 if the rate cannot be set; or the whole command is given up by Fail. */
  datatype Trial = Scaled(scale: nat) | Failed

  function Try(port: Port, rate: int): Trial {
    match port.at(rate)
    case Refused => Scaled(0)
    case NoAnswer => Failed
    case Answer(b) => Scaled(Scale(b))
  }

  predicate Works(port: Port, rate: int) { Try(port, rate) == Scaled(100) }

  /** The coarse search ends at this rate. */
  predicate Stops(port: Port, rate: int) { Works(port, rate) || Try(port, rate).Failed? }

  method TryBaudRate(port: Port, rate: int) returns (trial: Trial)
    ensures trial == Try(port, rate)
  {
    match port.at(rate)
    case Refused => return Scaled(0);
    case NoAnswer => return Failed;
    case Answer(b) =>
      var scale := ScaleBy(b);
      return Scaled(scale);
  }

  const START: int := 150000

  function NextRate(port: Port, rate: int): int {
    match Try(port, rate)
    case Scaled(scale) => (rate * scale) / 100
    case Failed => rate
  }

  /** The rate that trial n of the coarse search is made at; it stays where the search ends. */
  function Coarse(port: Port, n: nat): int {
    if n == 0 then START else NextRate(port, Coarse(port, n - 1))
  }

  lemma ScaledDown(rate: int, scale: nat)
    requires rate >= 0 && scale <= 95
    ensures 0 <= (rate * scale) / 100 <= rate && (rate > 0 ==> (rate * scale) / 100 < rate)
  {
    assert rate * scale <= rate * 95;
  }

  /** A step from a rate at which the search does not end goes strictly down, to 0 if the rate is refused. */
  lemma CoarseStep(port: Port, rate: int)
    requires rate >= 0 && !Stops(port, rate)
    ensures 0 <= NextRate(port, rate) <= rate && (rate > 0 ==> NextRate(port, rate) < rate)
    ensures port.at(rate) == Refused ==> NextRate(port, rate) == 0
  {
    hide Scale;
    if port.at(rate).Answer? { ScaleRange(port.at(rate).byte); }
    ScaledDown(rate, Try(port, rate).scale);
  }

  lemma StopsHere(port: Port, rate: int)
    requires Stops(port, rate)
    ensures NextRate(port, rate) == rate
  {
  }

  lemma {:induction false} CoarseRange(port: Port, n: nat)
    ensures 0 <= Coarse(port, n) <= START
    decreases n
  {
    hide NextRate, Stops;
    if n > 0 {
      CoarseRange(port, n - 1);
      var rate := Coarse(port, n - 1);
      if Stops(port, rate) { StopsHere(port, rate); } else { CoarseStep(port, rate); }
    }
  }

  /** Where the search ends, and at 0, the rate does not change any more. */
  lemma {:induction false} CoarseStays(port: Port, n: nat, k: nat)
    requires Stops(port, Coarse(port, n)) || Coarse(port, n) == 0
    ensures Coarse(port, n + k) == Coarse(port, n)
    decreases k
  {
    hide NextRate, Stops;
    if k > 0 {
      CoarseStays(port, n, k - 1);
      var rate := Coarse(port, n + k - 1);
      if Stops(port, rate) { StopsHere(port, rate); } else { CoarseStep(port, rate); }
    }
  }

  /** As long as it has not ended, each trial is at a lower rate, until it is 0. */
  lemma {:induction false} CoarseFalls(port: Port, n: nat)
    requires forall k: nat :: k < n ==> !Stops(port, Coarse(port, k))
    ensures Coarse(port, n) <= (if n < START then START - n else 0)
    decreases n
  {
    hide NextRate, Stops;
    if n > 0 {
      CoarseFalls(port, n - 1);
      CoarseRange(port, n - 1);
      assert !Stops(port, Coarse(port, n - 1));
      CoarseStep(port, Coarse(port, n - 1));
    }
  }

  /** The rate never sticks at 0, or the search ends there. */
  ghost predicate NotStuck(port: Port) {
    Stops(port, 0) || forall n: nat :: Coarse(port, n) > 0
  }

  /** For every port: the coarse search ends if and only if it does not stick at rate 0. */
  lemma CoarseEndsIff(port: Port)
    ensures (exists n: nat :: Stops(port, Coarse(port, n))) <==> NotStuck(port)
  {
    hide Stops, NextRate, Coarse;
    if n: nat :| Stops(port, Coarse(port, n)) {
      if Coarse(port, n) != 0 {
        forall m: nat ensures Coarse(port, m) > 0 {
          CoarseRange(port, m);
          if m >= n { CoarseStays(port, n, m - n); }
          else if Coarse(port, m) == 0 { CoarseStays(port, m, n - m); }
        }
      }
      assert Stops(port, Coarse(port, n)) && NotStuck(port);
    } else {
      CoarseFalls(port, START);
      CoarseRange(port, START);
      assert Coarse(port, START) == 0;
      assert !Stops(port, Coarse(port, START));
    }
  }

  /** The working rates are those from lo to hi. */
  ghost predicate Interval(port: Port, lo: int, hi: int) {
    0 < lo <= hi && forall rate :: Works(port, rate) <==> lo <= rate <= hi
  }

  /** No step from a rate above hi that the search visits jumps below lo. */
  ghost predicate NoJump(port: Port, lo: int, hi: int) {
    && lo <= START
    && forall n: nat :: Coarse(port, n) > hi && port.at(Coarse(port, n)).Answer? ==>
         NextRate(port, Coarse(port, n)) >= lo
  }

  /** Some trial of the coarse search works. */
  ghost predicate Reaches(port: Port) { exists n: nat :: Works(port, Coarse(port, n)) }

  /** Every rate above hi that the coarse search visits can be set and is answered. */
  ghost predicate Answered(port: Port, hi: int) {
    forall n: nat :: Coarse(port, n) > hi ==> port.at(Coarse(port, n)).Answer?
  }

  /** Where the working rates are an interval that no step of the search jumps over, it reaches them if and only if
      every rate above them that it visits can be set and is answered. */
  lemma ReachedIff(port: Port, lo: int, hi: int)
    requires Interval(port, lo, hi) && NoJump(port, lo, hi)
    ensures Reaches(port) <==> Answered(port, hi)
  {
    hide NextRate, Works, Scale;
    if Reaches(port) {
      var n: nat :| Works(port, Coarse(port, n));
      forall m: nat | Coarse(port, m) > hi ensures port.at(Coarse(port, m)).Answer? {
        if !port.at(Coarse(port, m)).Answer? { NeverReached(port, lo, hi, m, n); }
      }
    } else if Answered(port, hi) {
      AboveForever(port, lo, hi, START);
      forall k: nat | k < START ensures !Stops(port, Coarse(port, k)) { AboveForever(port, lo, hi, k); }
      CoarseFalls(port, START);
    }
  }

  /** Behind a rate that is refused or not answered no trial works. */
  lemma NeverReached(port: Port, lo: int, hi: int, m: nat, n: nat)
    requires Interval(port, lo, hi) && Coarse(port, m) > hi && !port.at(Coarse(port, m)).Answer?
    ensures !Works(port, Coarse(port, n))
  {
    hide Scale;
    if Works(port, Coarse(port, n)) {
      if n <= m {
        CoarseStays(port, n, m - n);
      } else if port.at(Coarse(port, m)) == Refused {
        CoarseStays(port, m + 1, n - m - 1);
      } else {
        CoarseStays(port, m, n - m);
      }
    }
  }

  lemma {:induction false} AboveForever(port: Port, lo: int, hi: int, n: nat)
    requires Interval(port, lo, hi) && NoJump(port, lo, hi)
    requires !Reaches(port) && Answered(port, hi)
    ensures Coarse(port, n) > hi && !Stops(port, Coarse(port, n))
    decreases n
  {
    hide Scale, NextRate;
    if n > 0 {
      AboveForever(port, lo, hi, n - 1);
      CoarseRange(port, n - 1);
    }
    assert !Works(port, Coarse(port, n));
  }

  // ---- where the fine search ends

  /** The k-th rate above, in steps of 2 per cent. */
  function Up(rate: int, k: nat): int { if k == 0 then rate else (Up(rate, k - 1) * 102) / 100 }

  /** The k-th rate below. */
  function Down(rate: int, k: nat): int { if k == 0 then rate else (Down(rate, k - 1) * 98) / 100 }

  /** The search for the upper bound ends with trial k. */
  ghost predicate UpperEnds(port: Port, rate: int, k: nat) {
    (forall j: nat :: j < k ==> Works(port, Up(rate, j))) && !Works(port, Up(rate, k))
  }

  ghost predicate LowerEnds(port: Port, rate: int, k: nat) {
    (forall j: nat :: j < k ==> Works(port, Down(rate, j))) && !Works(port, Down(rate, k))
  }

  /** The fine search from this rate ends: there is an end to the way up, and, unless that is a rate without an answer,
      to the way down. */
  ghost predicate FineEnds(port: Port, rate: int) {
    exists k: nat :: UpperEnds(port, rate, k)
                     && (Try(port, Up(rate, k)).Failed? || exists j: nat :: LowerEnds(port, rate, j))
  }

  /** Wherever the descent arrives, the fine search ends. */
  ghost predicate NotEndless(port: Port) {
    forall n: nat :: Works(port, Coarse(port, n)) ==> FineEnds(port, Coarse(port, n))
  }

  lemma {:induction false} UpGrows(rate: int, k: nat)
    requires rate >= 0
    ensures Up(rate, k) >= rate
    ensures rate >= 50 ==> Up(rate, k) >= rate + k
    ensures rate < 50 ==> Up(rate, k) == rate
    decreases k
  {
    if k > 0 { UpGrows(rate, k - 1); }
  }

  lemma {:induction false} DownFalls(rate: int, k: nat)
    requires rate >= 0
    ensures 0 <= Down(rate, k) <= (if k < rate then rate - k else 0)
    decreases k
  {
    if k > 0 { DownFalls(rate, k - 1); }
  }

  /** Some trial does not work, so there is a first one. */
  lemma {:induction false} FirstUp(port: Port, rate: int, k: nat) returns (first: nat)
    requires !Works(port, Up(rate, k))
    ensures UpperEnds(port, rate, first)
    decreases k
  {
    hide Works, Up;
    if j: nat :| j < k && !Works(port, Up(rate, j)) { first := FirstUp(port, rate, j); } else { first := k; }
  }

  lemma {:induction false} FirstDown(port: Port, rate: int, k: nat) returns (first: nat)
    requires !Works(port, Down(rate, k))
    ensures LowerEnds(port, rate, first)
    decreases k
  {
    hide Works, Down;
    if j: nat :| j < k && !Works(port, Down(rate, j)) { first := FirstDown(port, rate, j); } else { first := k; }
  }

  /** Among bounded working rates other than 0, the fine search ends if and only if it starts at 50 or above: below, the
      steps of 2 per cent are lost in rounding, and the search for the upper bound tries the same rate for ever. */
  lemma FineEndsIff(port: Port, rate: int, top: int)
    requires rate >= 0 && Works(port, rate) && !Works(port, 0) && forall r :: Works(port, r) ==> r <= top
    ensures FineEnds(port, rate) <==> rate >= 50
    ensures rate < 50 ==> forall k: nat :: Works(port, Up(rate, k))
  {
    hide Works, Up, Down;
    if rate >= 50 {
      var n := if top < rate then 0 else top - rate + 1;
      UpGrows(rate, n);
      var k := FirstUp(port, rate, n);
      DownFalls(rate, rate);
      var j := FirstDown(port, rate, rate);
    } else {
      forall k: nat ensures Works(port, Up(rate, k)) { UpGrows(rate, k); }
    }
  }

  /** The condition of ReachedIff is enough for FindBaudRate to find a result, if no working rate is below 50. */
  lemma AnsweredEnds(port: Port, lo: int, hi: int)
    requires Interval(port, lo, hi) && NoJump(port, lo, hi) && Answered(port, hi)
    ensures NotStuck(port) && port.at(START).Answer?
    ensures lo >= 50 ==> NotEndless(port)
  {
    hide NextRate, Scale, Works, FineEnds;
    ReachedIff(port, lo, hi);
    var n: nat :| Works(port, Coarse(port, n));
    assert Stops(port, Coarse(port, n));
    CoarseEndsIff(port);
    if lo >= 50 {
      forall m: nat | Works(port, Coarse(port, m)) ensures FineEnds(port, Coarse(port, m)) {
        CoarseRange(port, m);
        FineEndsIff(port, Coarse(port, m), hi);
      }
    }
    StartAnswered(port, lo, hi);
  }

  lemma StartAnswered(port: Port, lo: int, hi: int)
    requires Interval(port, lo, hi) && NoJump(port, lo, hi) && Answered(port, hi)
    ensures port.at(START).Answer?
  {
    hide NextRate, Scale;
    assert Coarse(port, 0) == START;
    assert START <= hi ==> Works(port, START);
  }

  /** Once a rate that the search visits is refused, the rate is 0 for ever: the search ends only if it does so at 0. */
  lemma RefusedRateSticks(port: Port, n: nat)
    requires port.at(Coarse(port, n)) == Refused
    ensures forall m: nat :: m > n ==> Coarse(port, m) == 0
    ensures (exists m: nat :: Stops(port, Coarse(port, m))) <==> Stops(port, 0)
  {
    hide NextRate;
    CoarseRange(port, n);
    CoarseStep(port, Coarse(port, n));
    forall m: nat | m > n ensures Coarse(port, m) == 0 { CoarseStays(port, n + 1, m - n - 1); }
    CoarseEndsIff(port);
    assert Coarse(port, n + 1) == 0;
  }

  /** A port that can be set to the first rate and to the working ones, but not to the second. */
  function StickingPort(): Port {
    Port(rate => if rate == START then Answer(0) else if 9000 <= rate <= 9200 then Answer(0x55) else Refused)
  }

  /** There the search does not end, although there are working rates. */
  lemma StickingExample()
    ensures var port := StickingPort();
            && port.at(START) != Refused && Interval(port, 9000, 9200)
            && Coarse(port, 1) == 30000 && port.at(30000) == Refused
            && (forall n: nat :: n >= 2 ==> Coarse(port, n) == 0)
            && !exists n: nat :: Stops(port, Coarse(port, n))
  {
    var port := StickingPort();
    ScaleRange(0x55);
    assert Scale(0) == 20;
    assert Coarse(port, 1) == NextRate(port, Coarse(port, 0)) == 30000;
    RefusedRateSticks(port, 1);
  }

  /** What FindBaudRate does in the end: a result, the result 0, or giving up by Fail. */
  datatype Outcome = Found(rate: int) | NotFound | Abandoned

  /** The descent.  Its only precondition is that it ends. */
  method FindWorkingRate(port: Port) returns (r: Outcome)
    requires port.at(START) == Refused || NotStuck(port)
    ensures r == NotFound <==> port.at(START) == Refused
    ensures r.Found? ==> Works(port, r.rate) && exists n: nat :: r.rate == Coarse(port, n)
    ensures r == Abandoned ==> exists n: nat :: Try(port, Coarse(port, n)).Failed?
  {
    hide Scale;
    var rate := START;
    var trial := TryBaudRate(port, rate);
    if port.at(rate).Answer? { ScaleRange(port.at(rate).byte); }
    assert Coarse(port, 0) == START;
    if trial.Failed? { return Abandoned; }
    if trial.scale == 0 { return NotFound; }
    ghost var n: nat := 0;
    while trial.scale != 100
      invariant rate == Coarse(port, n) && trial == Try(port, rate) && trial.Scaled?
      decreases rate
    {
      CoarseRange(port, n);
      CoarseStep(port, rate);
      rate := (rate * trial.scale) / 100;
      n := n + 1;
      assert rate == Coarse(port, n);
      trial := TryBaudRate(port, rate);
      if trial.Failed? { return Abandoned; }
    }
    assert Works(port, rate);
    return Found(rate);
  }

  // ---- the fine search

  method FindUpperBound(port: Port, rate: int, ghost k: nat) returns (ok: bool, upperbound: int)
    requires rate >= 0 && Works(port, rate) && UpperEnds(port, rate, k)
    ensures rate <= upperbound && Works(port, upperbound) && !Works(port, (upperbound * 102) / 100)
    ensures ok <==> !Try(port, (upperbound * 102) / 100).Failed?
    ensures (upperbound * 102) / 100 == Up(rate, k)
  {
    hide Try;
    upperbound := rate;
    ghost var n: nat := 0;
    while true
      invariant n < k && upperbound == Up(rate, n) && Works(port, upperbound) && rate <= upperbound
      decreases k - n
    {
      UpGrows(rate, n + 1);
      var trial := (upperbound * 102) / 100;
      var scale := TryBaudRate(port, trial);
      if scale.Failed? { return false, upperbound; }
      if scale.scale == 100 { upperbound := trial; } else { return true, upperbound; }
      n := n + 1;
    }
  }

  method FindLowerBound(port: Port, rate: int, ghost k: nat) returns (ok: bool, lowerbound: int)
    requires rate >= 0 && Works(port, rate) && LowerEnds(port, rate, k)
    ensures lowerbound <= rate && Works(port, lowerbound) && !Works(port, (lowerbound * 98) / 100)
    ensures ok <==> !Try(port, (lowerbound * 98) / 100).Failed?
  {
    hide Try;
    lowerbound := rate;
    ghost var n: nat := 0;
    while true
      invariant n < k && lowerbound == Down(rate, n) && Works(port, lowerbound) && lowerbound <= rate
      decreases k - n
    {
      DownFalls(rate, n + 1);
      var trial := (lowerbound * 98) / 100;
      var scale := TryBaudRate(port, trial);
      if scale.Failed? { return false, lowerbound; }
      if scale.scale == 100 { lowerbound := trial; } else { return true, lowerbound; }
      n := n + 1;
    }
  }

  /** Half way between the two bounds: no more than lo/98 above and hi/102 (and half a unit of rounding) below the
      middle of the working rates. */
  ghost predicate NearMiddle(lo: int, hi: int, baud: int) {
    lo <= baud <= hi && 49 * (2 * baud - (lo + hi)) <= lo && 51 * ((lo + hi) - 2 * baud - 1) <= hi
  }

  lemma MiddleOf(port: Port, lo: int, hi: int, lowerbound: int, upperbound: int)
    requires Interval(port, lo, hi) && lowerbound <= upperbound
    requires Works(port, lowerbound) && !Works(port, (lowerbound * 98) / 100)
    requires Works(port, upperbound) && !Works(port, (upperbound * 102) / 100)
    ensures NearMiddle(lo, hi, (lowerbound + upperbound) / 2)
  {
    hide Works;
    assert lo <= lowerbound <= upperbound <= hi;
    assert (lowerbound * 98) / 100 < lo && hi < (upperbound * 102) / 100;
  }

  /** FindBaudRate, on every port on which it ends.  It gives the result 0 exactly if the first rate is refused.  A
      result lies near the middle of the working rates, if they are an interval.  If no rate that can be set goes
      unanswered, there is a result exactly if the descent meets a working rate. */
  method FindBaudRate(port: Port) returns (r: Outcome)
    requires port.at(START) == Refused || (NotStuck(port) && NotEndless(port))
    ensures r == NotFound <==> port.at(START) == Refused
    ensures forall lo, hi :: Interval(port, lo, hi) && r.Found? ==> NearMiddle(lo, hi, r.rate)
    ensures r.Found? ==> Reaches(port)
    ensures port.at(START) != Refused && (forall rate :: port.at(rate) != NoAnswer) ==> r.Found?
  {
    hide NearMiddle, Coarse, NextRate, Scale, Works, UpperEnds, LowerEnds, Up;
    r := FindWorkingRate(port);
    if !r.Found? { return; }
    var rate := r.rate;
    ghost var n: nat :| rate == Coarse(port, n);
    CoarseRange(port, n);
    assert FineEnds(port, rate);
    ghost var k: nat :| UpperEnds(port, rate, k)
                        && (Try(port, Up(rate, k)).Failed? || exists j: nat :: LowerEnds(port, rate, j));
    var ok, upperbound := FindUpperBound(port, rate, k);
    if !ok { return Abandoned; }
    ghost var j: nat :| LowerEnds(port, rate, j);
    var lowerbound;
    ok, lowerbound := FindLowerBound(port, rate, j);
    if !ok { return Abandoned; }
    forall lo, hi | Interval(port, lo, hi) ensures NearMiddle(lo, hi, (lowerbound + upperbound) / 2) {
      MiddleOf(port, lo, hi, lowerbound, upperbound);
    }
    return Found((lowerbound + upperbound) / 2);
  }
}

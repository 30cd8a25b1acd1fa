/** Where the search for the baud rate goes on a device that answers 0x55 at its own rate, and which pulses ask for
    which rates. */
module BaudDescent {
  import opened Bytes
  import opened BaudSearch
  import opened BaudPulses

  // ---- longer pulses mean lower rates

  /** Behind the leading ones there are 0 and 1 bits, and m says how wide the pulses are: two of m bits and not two of
      more, up to three bits; or else a single one of m bits and none of four to m - 1. */
  predicate Pulses(b: byte, m: nat) {
    var runs := Runs(Bits(b, Top(b, 7)));
    && |runs| > 1
    && if m <= 3 then
         m > 0 && Count(runs, m) > 1 && forall n: nat :: m < n <= 3 ==> Count(runs, n) <= 1
       else
         m <= 7 && Count(runs, m) > 0 && (forall n: nat :: 1 <= n <= 3 ==> Count(runs, n) <= 1)
         && forall n: nat :: 4 <= n < m ==> Count(runs, n) == 0
  }

  /** The w bits behind the leading ones are all 0. */
  predicate ZeroStart(b: byte, w: nat) { w == Top(b, 7) + 1 && AllZero(Bits(b, w - 1)) }

  lemma ZerosAreOneRun(b: byte, s: nat)
    requires s < 8 && AllZero(Bits(b, s))
    ensures |Runs(Bits(b, s))| == 1
  {
  }

  lemma ZeroIsZeros()
    ensures ZeroStart(0, 8)
  {
  }

  lemma PulsesRanges(b: byte, m: nat)
    requires Pulses(b, m)
    ensures 1 <= m <= 7
  {
  }

  /** The scale of every byte with pulses of this width. */
  function WidthScale(m: nat): nat
    requires 1 <= m <= 7
  {
    [95, 85, 60, 40, 30, 25, 25][m - 1]
  }

  lemma PulsesScale(b: byte, m: nat)
    requires 1 <= m <= 7 && Pulses(b, m) && b != 0x55
    ensures Scale(b) == WidthScale(m)
  {
    hide Runs, Count, Bits, BitOf, AllZero, Top;
    var s := Top(b, 7);
    if AllZero(Bits(b, s)) { ZerosAreOneRun(b, s); }
    ZeroIsZeros();
  }

  lemma ExpectedPulses(m: nat)
    requires Pulses(0x55, m)
    ensures m == 1
  {
    hide BitOf, Runs;
    Alternating();
    assert Top(0x55, 7) == 7;
    var ones := [1, 1, 1, 1, 1, 1, 1, 1];
    assert ones[1..][1..][1..][1..][1..][1..][1..][1..] == [];
    if m > 1 { NotInOnes(ones, m); }
  }

  lemma {:induction false} NotInOnes(runs: seq<nat>, m: nat)
    requires m > 1 && forall i :: 0 <= i < |runs| ==> runs[i] == 1
    ensures Count(runs, m) == 0
    decreases |runs|
  {
    if runs != [] { NotInOnes(runs[1..], m); }
  }

  lemma ScaledLess(rate: int, s: nat, t: nat)
    requires rate >= 20 && s + 5 <= t
    ensures (rate * s) / 100 < (rate * t) / 100
  {
    assert rate * t >= rate * s + 100;
  }

  /** From the same rate, the next one is strictly lower for wider pulses; only six and seven bits mean the same.  Two
      ports stand for the two answers. */
  lemma PulseOrder(p: Port, q: Port, rate: int, b: byte, m: nat, c: byte, n: nat)
    requires rate >= 20 && p.at(rate) == Answer(b) && q.at(rate) == Answer(c)
    requires Pulses(b, m) && Pulses(c, n) && n < m && n <= 5
    ensures NextRate(p, rate) < NextRate(q, rate)
  {
    hide Pulses, Scale;
    PulsesRanges(b, m);
    PulsesRanges(c, n);
    if b == 0x55 { ExpectedPulses(m); }
    PulsesScale(b, m);
    if c != 0x55 { PulsesScale(c, n); } else { ScaleRange(c); }
    ScaledLess(rate, Scale(b), Scale(c));
  }

  // ---- a first pulse that fills the whole byte

  lemma ZeroStartScale(b: byte, w: nat)
    requires ZeroStart(b, w)
    ensures 2 <= w <= 8 && Scale(b) == (if w == 8 then 20 else ZeroScale(w))
  {
    hide BitOf, Runs, Bits, RunScale;
    ZeroIsZeros();
    ZeroBelow(b, 7);
    Alternating();
    assert Pow2(8) == 256;
    if b == 0x55 { assert Top(b, 7) == 7; ExpectedNotZero(); }
    if b == 0 { assert Top(0, 7) + 1 == 8; }
  }

  lemma ExpectedNotZero()
    ensures !AllZero(Bits(0x55, 7))
  {
    assert Pow2(0) == 1;
    assert Bits(0x55, 7)[7] == BitOf(0x55, 0);
  }

  /** Of two bytes that are all 0 behind their leading ones, the one with the wider pulse means the HIGHER rate, unless
      it has only three zeros or is 0. */
  lemma ZeroStartOrder(p: Port, q: Port, rate: int, b: byte, m: nat, c: byte, n: nat)
    requires rate >= 20 && p.at(rate) == Answer(b) && q.at(rate) == Answer(c)
    requires ZeroStart(b, m) && ZeroStart(c, n) && m < n
    ensures NextRate(q, rate) > NextRate(p, rate) <==> 4 <= n < 8
    ensures n < 4 || n == 8 ==> NextRate(q, rate) <= NextRate(p, rate)
  {
    hide ZeroStart, Scale;
    ZeroStartScale(b, m);
    ZeroStartScale(c, n);
    if 4 <= n < 8 { ScaledLess(rate, Scale(b), Scale(c)); }
    else { assert rate * Scale(c) <= rate * Scale(b); }
  }

  lemma ExampleStarts()
    ensures ZeroStart(0xf8, 3) && ZeroStart(0x80, 7)
  {
    hide Top;
    assert Pow2(0) == 1 && Pow2(1) == 2 && Pow2(2) == 4 && Pow2(3) == 8 && Pow2(4) == 16;
    assert Pow2(5) == 32 && Pow2(6) == 64 && Pow2(7) == 128;
    TopIs(0xf8, 2, 7);
    TopIs(0x80, 6, 7);
    ZeroBelow(0xf8, 2);
    ZeroBelow(0x80, 6);
  }

  /** Three zeros and seven zeros. */
  lemma ZeroStartExample(p: Port, q: Port)
    requires p.at(START) == Answer(0xf8) && q.at(START) == Answer(0x80)
    ensures ZeroStart(0xf8, 3) && ZeroStart(0x80, 7)
    ensures NextRate(p, START) == 30000 && NextRate(q, START) == 142500
  {
    hide Scale, Top, Bits;
    ExampleStarts();
    ZeroStartScale(0xf8, 3);
    ZeroStartScale(0x80, 7);
  }

  // ---- the device that sends 0x55 at one rate

  /** A port that can be set to every rate, with a device that answers with 0x55 at rate d.  What the port receives is
      what it samples. */
  function SamplingPort(d: int): Port
    requires d > 0
  {
    Port(rate requires d > 0 => if rate <= 0 then Refused else Answer(Sampled(rate, d)))
  }

  /** The lowest rate at which 0x55 is received: less than 1/18 below that of the device. */
  function Lowest(d: int): int { (17 * d) / 18 + 1 }

  /** The highest one: at most 1/16 above it. */
  function Highest(d: int): int { (17 * d) / 16 }

  /** The samples of a receiver that is slower than the device, but by less than 1/18, still fall into frame bits 1
      to 8. */
  lemma SlowSample(rate: int, d: int, k: nat)
    requires 0 < rate < d && 17 * d < 18 * rate && k < 8
    ensures SampleAt(rate, d, k) == k + 1
  {
    assert (2 * k + 2) * rate <= (2 * k + 3) * d by {
      Times(2 * k + 2, 2 * k + 3, rate);
      MoreTimes(2 * k + 3, rate, d);
    }
    assert (2 * k + 3) * d < (2 * k + 4) * rate by {
      MoreTimes(2 * k + 3, 17 * d, 18 * rate);
      assert (2 * k + 3) * (17 * d) == 17 * ((2 * k + 3) * d);
      assert (2 * k + 3) * (18 * rate) == 18 * ((2 * k + 3) * rate);
      Times(18 * (2 * k + 3), 17 * (2 * k + 4), rate);
    }
    SampleIs(rate, d, k, k + 1);
  }

  lemma MoreTimes(k: nat, a: int, b: int)
    requires a < b && k > 0
    ensures k * a < k * b
  {
  }

  lemma SlowReceives(rate: int, d: int)
    requires 0 < rate < d && 17 * d < 18 * rate
    ensures Sampled(rate, d) == 0x55
  {
    hide Sampled, SampleAt, BitOf;
    forall k: nat | k < 8 ensures BitOf(Sampled(rate, d), k) == BitOf(0x55, k) {
      SampledBit(rate, d, k);
      SlowSample(rate, d, k);
    }
    SameBits(Sampled(rate, d), 0x55);
  }

  /** The last sample of a receiver that is slower yet falls into the stop bit or behind it. */
  lemma TooSlow(rate: int, d: int)
    requires 0 < rate < d && 18 * rate <= 17 * d
    ensures Sampled(rate, d) != 0x55
  {
    hide Sampled, BitOf;
    SampledBit(rate, d, 7);
    Quotient(17 * d, 2 * rate, 9);
    assert Frame(SampleAt(rate, d, 7));
    HighBit();
  }

  lemma Quotient(a: int, b: int, c: int)
    requires b > 0 && c * b <= a
    ensures a / b >= c
  {
    var q := a / b;
    assert a < (q + 1) * b;
    if q < c { Times(q + 1, c, b); }
  }

  lemma HighBit()
    ensures !BitOf(0x55, 7)
  {
    assert Pow2(0) == 1 && Pow2(1) == 2 && Pow2(2) == 4 && Pow2(3) == 8 && Pow2(4) == 16;
    assert Pow2(5) == 32 && Pow2(6) == 64 && Pow2(7) == 128;
  }

  lemma Answers(d: int, rate: int)
    requires d > 0
    ensures rate > 0 ==> Try(SamplingPort(d), rate) == Scaled(Scale(Sampled(rate, d)))
    ensures rate <= 0 ==> Try(SamplingPort(d), rate) == Scaled(0)
  {
  }

  /** Exactly these rates work. */
  lemma WorksIff(d: int, rate: int)
    requires d > 0
    ensures Works(SamplingPort(d), rate) <==> Lowest(d) <= rate <= Highest(d)
  {
    hide Sampled, Scale, Try;
    Answers(d, rate);
    if rate > 0 { ScaleRange(Sampled(rate, d)); }
    if rate >= d {
      EnoughAlways(rate, d);
    } else if rate > 0 && 17 * d < 18 * rate {
      SlowReceives(rate, d);
    } else if rate > 0 {
      TooSlow(rate, d);
    }
  }

  lemma SamplingInterval(d: int)
    requires d > 0
    ensures Interval(SamplingPort(d), Lowest(d), Highest(d)) && Lowest(d) <= d <= Highest(d)
  {
    hide Works, SamplingPort;
    forall rate ensures Works(SamplingPort(d), rate) <==> Lowest(d) <= rate <= Highest(d) { WorksIff(d, rate); }
  }

  // ---- where the search arrives

  /** The next rate from a rate that is too high. */
  lemma SamplingStep(d: int, rate: int)
    requires 0 < d && Highest(d) < rate
    ensures var next := NextRate(SamplingPort(d), rate);
            && (!Overshoots(rate, d) ==> next >= d)
            && (Overshoots(rate, d) ==> next < Lowest(d))
  {
    hide Sampled, Scale, Try, SamplingPort;
    Answers(d, rate);
    EnoughAlways(rate, d);
    var scale := Scale(Sampled(rate, d));
    if !Overshoots(rate, d) { Quotient(rate * scale, 100, d); }
  }

  /** Below the working rates it stays below them. */
  lemma {:induction false} BelowForever(d: int, n: nat, k: nat)
    requires d > 0 && Coarse(SamplingPort(d), n) < Lowest(d)
    ensures Coarse(SamplingPort(d), n + k) < Lowest(d)
    decreases k
  {
    hide NextRate, Works, SamplingPort;
    if k > 0 {
      BelowForever(d, n, k - 1);
      var port, rate := SamplingPort(d), Coarse(SamplingPort(d), n + k - 1);
      CoarseRange(port, n + k - 1);
      WorksIff(d, rate);
      NeverFails(d, rate);
      CoarseStep(port, rate);
    }
  }

  lemma NeverFails(d: int, rate: int)
    requires d > 0
    ensures !Try(SamplingPort(d), rate).Failed? && SamplingPort(d).at(rate) != NoAnswer
    ensures rate > 0 ==> SamplingPort(d).at(rate).Answer?
  {
  }

  /** No rate that the search visits is 4.25 to 4.5 times that of the device. */
  ghost predicate NeverOvershoots(d: int)
    requires d > 0
  {
    forall n: nat :: !Overshoots(Coarse(SamplingPort(d), n), d)
  }

  lemma NoJumpIf(d: int)
    requires d > 0 && Lowest(d) <= START && NeverOvershoots(d)
    ensures var port := SamplingPort(d);
            && NoJump(port, Lowest(d), Highest(d)) && Answered(port, Highest(d))
  {
    hide NextRate, SamplingPort, Coarse, Overshoots;
    var port := SamplingPort(d);
    forall n: nat | Coarse(port, n) > Highest(d)
      ensures NextRate(port, Coarse(port, n)) >= Lowest(d) && port.at(Coarse(port, n)).Answer?
    {
      assert !Overshoots(Coarse(port, n), d);
      SamplingStep(d, Coarse(port, n));
      NeverFails(d, Coarse(port, n));
    }
  }

  /** Exactly when the descent finds the device. */
  lemma SampledReachedIff(d: int)
    requires d > 0
    ensures Reaches(SamplingPort(d)) <==> Lowest(d) <= START && NeverOvershoots(d)
  {
    hide NextRate, SamplingPort, Works;
    var port := SamplingPort(d);
    SamplingInterval(d);
    if Lowest(d) <= START && NeverOvershoots(d) {
      NoJumpIf(d);
      ReachedIff(port, Lowest(d), Highest(d));
    } else if Lowest(d) > START {
      assert Coarse(port, 0) == START;
      forall n: nat ensures !Works(port, Coarse(port, n)) { BelowForever(d, 0, n); }
    } else {
      var n: nat :| Overshoots(Coarse(port, n), d);
      Overshot(d, n);
    }
  }

  /** Once it has gone too far it is never found. */
  lemma Overshot(d: int, n: nat)
    requires d > 0 && Overshoots(Coarse(SamplingPort(d), n), d)
    ensures !Reaches(SamplingPort(d))
  {
    hide NextRate, SamplingPort, Works;
    var port := SamplingPort(d);
    SamplingInterval(d);
    SamplingStep(d, Coarse(port, n));
    assert Coarse(port, n + 1) < Lowest(d);
    forall m: nat ensures !Works(port, Coarse(port, m)) {
      if m > n { BelowForever(d, n + 1, m - n - 1); }
      else if Works(port, Coarse(port, m)) {
        CoarseStays(port, m, n - m);
      }
    }
  }

  /** A start bit that fills seven samples behind a leading one, and one that fills six. */
  lemma WideStarts(rate: int, d: int)
    requires 0 < d && 13 * d < 2 * rate && 2 * rate <= 17 * d
    ensures Scale(Sampled(rate, d)) == (if 15 * d < 2 * rate then 95 else 60)
  {
    hide Scale, Sampled, Scales;
    ZeroStartsScale();
    if 15 * d < 2 * rate {
      Reads(rate, d, [7, 8, 8, 8, 8, 8, 8, 8], 95);
    } else {
      Reads(rate, d, [6, 8, 8, 8, 8, 8, 8, 8], 60);
    }
  }

  lemma ByScale(d: int, rate: int)
    requires d > 0 && rate > 0
    ensures NextRate(SamplingPort(d), rate) == (rate * Scale(Sampled(rate, d))) / 100
  {
    hide Sampled, Scale;
  }

  /** A device 7.1 to 8.5 times slower than a visited rate is never found: the seven zeros that the start bit looks like
      mean 95 per cent, over and over, until there are six, and then 60 per cent lead to where it is missed. */
  lemma {:induction false} MissedBelow(d: int, n: nat)
    requires d >= 68
    requires var rate := Coarse(SamplingPort(d), n); 2 * rate <= 17 * d && 85 * d < 12 * rate - 20
    ensures !Reaches(SamplingPort(d))
    decreases Coarse(SamplingPort(d), n)
  {
    hide Sampled, Scale, SamplingPort, Reaches;
    var rate := Coarse(SamplingPort(d), n);
    WideStarts(rate, d);
    ByScale(d, rate);
    assert Coarse(SamplingPort(d), n + 1) == NextRate(SamplingPort(d), rate);
    if 15 * d < 2 * rate {
      MissedBelow(d, n + 1);
    } else {
      Overshot(d, n + 1);
    }
  }

  /** Some of the devices that are never found, from the first trial on. */
  lemma MissedFromStart(d: int)
    requires 17648 <= d <= 21176 || 33334 <= d <= 35294
    ensures !Reaches(SamplingPort(d)) && Works(SamplingPort(d), d) && d < START
  {
    hide SamplingPort, Reaches, Works;
    SamplingInterval(d);
    assert Coarse(SamplingPort(d), 0) == START;
    if d <= 21176 { MissedBelow(d, 0); } else { Overshot(d, 0); }
  }

  /** All devices from 35295 baud to the limit set by the first rate are found. */
  lemma FastIsFound(d: int)
    requires 35295 <= d && 17 * d < 18 * START
    ensures Reaches(SamplingPort(d))
  {
    hide SamplingPort, Reaches, Coarse;
    SampledReachedIff(d);
    forall n: nat ensures !Overshoots(Coarse(SamplingPort(d), n), d) { CoarseRange(SamplingPort(d), n); }
  }

  // ---- the rate found

  /** The middle of the working rates is the rate of the device, within 1 per cent below, 2 per cent above and 1. */
  lemma MiddleIsNear(d: int, baud: int)
    requires d > 0 && NearMiddle(Lowest(d), Highest(d), baud)
    ensures 99 * d - 100 <= 100 * baud <= 102 * d + 100
  {
  }

  /** FindBaudRate on such a device: if the descent reaches it, the result is its rate, nearly. */
  method FindSampledRate(d: int) returns (rate: int)
    requires d >= 52 && Reaches(SamplingPort(d))
    ensures 99 * d - 100 <= 100 * rate <= 102 * d + 100
  {
    hide SamplingPort, Coarse, NextRate, Works, NotStuck, NotEndless, NearMiddle, NoJump, Answered;
    var port := SamplingPort(d);
    SamplingInterval(d);
    SampledReachedIff(d);
    NoJumpIf(d);
    AnsweredEnds(port, Lowest(d), Highest(d));
    forall r ensures port.at(r) != NoAnswer { NeverFails(d, r); }
    var r := FindBaudRate(port);
    MiddleIsNear(d, r.rate);
    return r.rate;
  }
}

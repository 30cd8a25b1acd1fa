/** Why the search for the baud rate works, and where it does not: what a receiver at one rate makes of 0x55 sent at
    another, and where the scale derived from it leads. */
module BaudPulses {
  import opened Bytes
  import opened BaudSearch

  // ---- the byte received

  /** The number with these bits, the lowest first. */
  function FromLevels(levels: seq<bool>): (n: nat)
    requires |levels| <= 8
    ensures n < Pow2(|levels|)
  {
    if levels == [] then 0 else (if levels[0] then 1 else 0) + 2 * FromLevels(levels[1..])
  }

  lemma Halved(x: nat, y: nat, p: nat)
    requires x < 2 && p > 0
    ensures (x + 2 * y) / (2 * p) == y / p
  {
    var q, r := y / p, y % p;
    assert y == p * q + r;
    assert (2 * p) * q == 2 * (p * q);
    RemainderOf(x + 2 * y, 2 * p, q, x + 2 * r);
  }

  lemma {:induction false} LevelIsBit(levels: seq<bool>, i: nat)
    requires i < |levels| <= 8
    ensures FromLevels(levels) / Pow2(i) % 2 == (if levels[i] then 1 else 0)
    decreases i
  {
    var x, y := if levels[0] then 1 else 0, FromLevels(levels[1..]);
    if i > 0 {
      LevelIsBit(levels[1..], i - 1);
      Halved(x, y, Pow2(i - 1));
    } else {
      assert Pow2(0) == 1;
    }
  }

  /** The frame that carries 0x55: start bit, the byte from its lowest bit on, stop bit, and the idle line. */
  function Frame(j: nat): bool { if j == 0 then false else if j <= 8 then BitOf(0x55, j - 1) else true }

  lemma FrameAlternates(j: nat)
    requires j <= 8
    ensures Frame(j) <==> j % 2 == 1
  {
    assert Pow2(0) == 1 && Pow2(1) == 2 && Pow2(2) == 4 && Pow2(3) == 8 && Pow2(4) == 16;
    assert Pow2(5) == 32 && Pow2(6) == 64 && Pow2(7) == 128;
  }

  /** Where in a frame sent at rate d the receiver samples its bit k: one and a half plus k of its bit times behind the
      edge of the start bit. */
  function SampleAt(rate: int, d: int, k: nat): nat
    requires rate > 0 && d > 0
  {
    Floor((2 * k + 3) * d, 2 * rate)
  }

  function Floor(a: nat, b: nat): nat
    requires b > 0
  {
    a / b
  }

  /** What it receives. */
  function Sampled(rate: int, d: int): byte
    requires rate > 0 && d > 0
  {
    assert Pow2(8) == 256;
    FromLevels(seq(8, k requires 0 <= k < 8 => Frame(SampleAt(rate, d, k))))
  }

  lemma SampledBit(rate: int, d: int, k: nat)
    requires rate > 0 && d > 0 && k < 8
    ensures BitOf(Sampled(rate, d), k) == Frame(SampleAt(rate, d, k))
  {
    hide FromLevels, Frame, SampleAt, Pow2;
    LevelIsBit(seq(8, k requires 0 <= k < 8 => Frame(SampleAt(rate, d, k))), k);
  }

  lemma SampleIs(rate: int, d: int, k: nat, v: nat)
    requires rate > 0 && d > 0 && 2 * v * rate <= (2 * k + 3) * d < 2 * (v + 1) * rate
    ensures SampleAt(rate, d, k) == v
  {
    var a, b := (2 * k + 3) * d, 2 * rate;
    assert b * v == 2 * v * rate && b * (v + 1) == 2 * (v + 1) * rate;
    RemainderOf(a, b, v, a - b * v);
  }

  // ---- its runs

  /** n samples come before frame bit v. */
  predicate Ends(rate: int, d: int, v: nat, n: nat) {
    && n <= 8
    && (n > 0 ==> (2 * n + 1) * d < 2 * v * rate)
    && (n < 8 ==> 2 * v * rate <= (2 * n + 3) * d)
  }

  /** How many samples come before frame bits 1 to 8. */
  predicate FitsRate(rate: int, d: int, ends: seq<nat>) {
    && |ends| == 8
    && Ends(rate, d, 1, ends[0]) && Ends(rate, d, 2, ends[1]) && Ends(rate, d, 3, ends[2])
    && Ends(rate, d, 4, ends[3]) && Ends(rate, d, 5, ends[4]) && Ends(rate, d, 6, ends[5])
    && Ends(rate, d, 7, ends[6]) && Ends(rate, d, 8, ends[7])
  }

  /** The frame bit that sample k falls into. */
  function IndexOf(ends: seq<nat>, k: nat): nat
    requires |ends| == 8
  {
    if ends[7] <= k then 8 else if ends[6] <= k then 7 else if ends[5] <= k then 6 else if ends[4] <= k then 5
    else if ends[3] <= k then 4 else if ends[2] <= k then 3 else if ends[1] <= k then 2 else if ends[0] <= k then 1
    else 0
  }

  lemma Between(rate: int, d: int, ends: seq<nat>, k: nat)
    requires 0 < d <= rate && FitsRate(rate, d, ends) && k < 8
    ensures SampleAt(rate, d, k) == IndexOf(ends, k)
  {
    hide SampleAt, Ends;
    var v := IndexOf(ends, k);
    if v > 0 { NotBefore(rate, d, v, ends[v - 1], k); }
    if v < 8 {
      Before(rate, d, v + 1, ends[v], k);
    } else {
      Times(2 * k + 3, 17, d);
    }
    SampleIs(rate, d, k, v);
  }

  lemma Times(a: int, b: int, d: int)
    requires a <= b && d >= 0
    ensures a * d <= b * d
  {
  }

  lemma NotBefore(rate: int, d: int, v: nat, n: nat, k: nat)
    requires 0 < d <= rate && Ends(rate, d, v, n) && n <= k < 8
    ensures 2 * v * rate <= (2 * k + 3) * d
  {
    Times(2 * n + 3, 2 * k + 3, d);
  }

  lemma Before(rate: int, d: int, v: nat, n: nat, k: nat)
    requires 0 < d <= rate && Ends(rate, d, v, n) && k < n
    ensures (2 * k + 3) * d < 2 * v * rate
  {
    Times(2 * k + 3, 2 * n + 1, d);
  }

  /** Runs of these lengths, alternating. */
  function Expand(level: bool, lens: seq<nat>): (bits: seq<bool>)
    decreases |lens|
  {
    if lens == [] then [] else seq(lens[0], _ => level) + Expand(!level, lens[1..])
  }

  predicate Positive(lens: seq<nat>) { forall i :: 0 <= i < |lens| ==> lens[i] >= 1 }

  lemma OneRun(level: bool, n: nat, rest: seq<bool>)
    requires n >= 1 && (rest != [] ==> rest[0] == !level)
    ensures Runs(seq(n, _ => level) + rest) == [n] + Runs(rest)
  {
    hide FirstRun;
    var bits := seq(n, _ => level) + rest;
    assert bits[n..] == rest;
    RunEnds(bits, n);
  }

  lemma ExpandStarts(level: bool, lens: seq<nat>)
    requires Positive(lens) && lens != []
    ensures Expand(level, lens) != [] && Expand(level, lens)[0] == level
  {
    assert lens[0] >= 1;
  }

  lemma {:induction false} RunsExpand(level: bool, lens: seq<nat>)
    requires Positive(lens)
    ensures Runs(Expand(level, lens)) == lens
    decreases |lens|
  {
    if lens == [] {
    } else {
      hide Runs;
      var rest := lens[1..];
      RunsExpand(!level, rest);
      if rest != [] { ExpandStarts(!level, rest); }
      OneRun(level, lens[0], Expand(!level, rest));
    }
  }

  /** No frame bit is missed. */
  predicate Rising(ends: seq<nat>) {
    && |ends| == 8 && (ends[0] < ends[1] || ends[0] == ends[1] == 8) && (ends[1] < ends[2] || ends[1] == ends[2] == 8)
    && (ends[2] < ends[3] || ends[2] == ends[3] == 8) && (ends[3] < ends[4] || ends[3] == ends[4] == 8)
    && (ends[4] < ends[5] || ends[4] == ends[5] == 8) && (ends[5] < ends[6] || ends[5] == ends[6] == 8)
    && (ends[6] < ends[7] || ends[6] == ends[7] == 8)
  }

  /** How many samples each frame bit gets, from sample s, which falls into bit v, downwards. */
  function Widths(ends: seq<nat>, v: nat, s: nat): (lens: seq<nat>)
    requires |ends| == 8 && v <= 8 && (v == 0 || ends[v - 1] <= s)
    decreases v
  {
    if v == 0 || ends[v - 1] == 0 then [s + 1]
    else if v > 1 && ends[v - 2] >= ends[v - 1] then [s + 1 - ends[v - 1]]
    else [s + 1 - ends[v - 1]] + Widths(ends, v - 1, ends[v - 1] - 1)
  }

  lemma IndexIs(ends: seq<nat>, v: nat, k: nat)
    requires Rising(ends) && v <= 8 && k < 8 && (v == 0 || ends[v - 1] <= k) && (v < 8 ==> k < ends[v])
    ensures IndexOf(ends, k) == v
  {
  }

  lemma {:induction false} WidthsShow(ends: seq<nat>, v: nat, s: nat)
    requires Rising(ends) && v <= 8 && s < 8 && (v == 0 || ends[v - 1] <= s) && (v < 8 ==> s < ends[v])
    ensures var bits := Expand(v % 2 == 1, Widths(ends, v, s));
            && Positive(Widths(ends, v, s)) && |bits| == s + 1
            && forall j :: 0 <= j <= s ==> bits[j] == (IndexOf(ends, s - j) % 2 == 1)
    decreases v
  {
    hide IndexOf, Expand, Widths;
    var level := v % 2 == 1;
    WidthsAre(ends, v, s);
    if v == 0 || ends[v - 1] == 0 {
      ExpandMore(level, s + 1, []);
      NothingExpanded(!level);
      assert [s + 1] + [] == [s + 1];
      forall k: nat | k <= s ensures IndexOf(ends, k) == v { IndexIs(ends, v, k); }
    } else {
      var n, rest := s + 1 - ends[v - 1], Widths(ends, v - 1, ends[v - 1] - 1);
      WidthsShow(ends, v - 1, ends[v - 1] - 1);
      ExpandMore(level, n, rest);
      forall k: nat | ends[v - 1] <= k <= s ensures IndexOf(ends, k) == v { IndexIs(ends, v, k); }
      RestShows(ends, level, n, rest, s);
    }
  }

  lemma NothingExpanded(level: bool)
    ensures Expand(level, []) == []
  {
  }

  lemma WidthsAre(ends: seq<nat>, v: nat, s: nat)
    requires Rising(ends) && v <= 8 && s < 8 && (v == 0 || ends[v - 1] <= s)
    ensures v == 0 || ends[v - 1] == 0 ==> Widths(ends, v, s) == [s + 1]
    ensures v > 1 && ends[v - 1] > 0 ==> ends[v - 2] < ends[v - 1]
    ensures v > 0 && ends[v - 1] > 0 ==>
              Widths(ends, v, s) == [s + 1 - ends[v - 1]] + Widths(ends, v - 1, ends[v - 1] - 1)
  {
  }

  lemma RestShows(ends: seq<nat>, level: bool, n: nat, rest: seq<nat>, s: nat)
    requires |ends| == 8 && n <= s
    requires var bits, less := Expand(level, [n] + rest), Expand(!level, rest);
             && |bits| == n + |less| && |less| == s + 1 - n
             && (forall j :: 0 <= j < n ==> bits[j] == level)
             && (forall j :: n <= j < |bits| ==> bits[j] == less[j - n])
             && forall j :: 0 <= j <= s - n ==> less[j] == (IndexOf(ends, s - n - j) % 2 == 1)
    requires forall k: nat :: s - n < k <= s ==> (IndexOf(ends, k) % 2 == 1) == level
    ensures forall j :: 0 <= j <= s ==> Expand(level, [n] + rest)[j] == (IndexOf(ends, s - j) % 2 == 1)
  {
    hide Expand, IndexOf;
    forall j | 0 <= j <= s ensures Expand(level, [n] + rest)[j] == (IndexOf(ends, s - j) % 2 == 1) {
      if j >= n { assert Expand(level, [n] + rest)[j] == Expand(!level, rest)[j - n]; }
    }
  }

  lemma ExpandMore(level: bool, n: nat, lens: seq<nat>)
    ensures var bits, rest := Expand(level, [n] + lens), Expand(!level, lens);
            && |bits| == n + |rest| && (forall j :: 0 <= j < n ==> bits[j] == level)
            && forall j :: n <= j < |bits| ==> bits[j] == rest[j - n]
  {
    assert ([n] + lens)[1..] == lens;
  }

  /** The leading ones are left out. */
  function TopOf(ends: seq<nat>): (top: int)
    requires |ends| == 8
  {
    var v := IndexOf(ends, 7);
    if v % 2 == 0 then 7 else ends[v - 1] as int - 1
  }

  /** From bit `top` down, the samples are runs of these lengths, the first one 0; above are ones. */
  predicate Shows(ends: seq<nat>, top: nat, lens: seq<nat>) {
    && |ends| == 8 && 1 <= top <= 7 && lens != [] && Positive(lens) && |Expand(false, lens)| == top + 1
    && (forall j :: 0 <= j <= top ==> Expand(false, lens)[j] == (IndexOf(ends, top - j) % 2 == 1))
    && (forall k :: top < k <= 7 ==> IndexOf(ends, k) % 2 == 1)
  }

  lemma EndsShow(ends: seq<nat>)
    requires Rising(ends) && TopOf(ends) >= 1
    ensures var top, v := TopOf(ends), TopIndex(ends);
            && v <= 8 && (v == 0 || ends[v - 1] <= top) && Shows(ends, top, Widths(ends, v, top))
  {
    hide Expand, Widths;
    var u, v, top := IndexOf(ends, 7), TopIndex(ends), TopOf(ends);
    EndsAround(ends, 7, u);
    if u % 2 == 1 {
      forall k | top < k <= 7 ensures IndexOf(ends, k) % 2 == 1 { IndexIs(ends, u, k); }
    }
    WidthsShow(ends, v, top);
    WidthsNonempty(ends, v, top);
  }

  lemma WidthsNonempty(ends: seq<nat>, v: nat, s: nat)
    requires |ends| == 8 && v <= 8 && (v == 0 || ends[v - 1] <= s)
    ensures Widths(ends, v, s) != []
  {
  }

  lemma EndsAround(ends: seq<nat>, k: nat, v: nat)
    requires Rising(ends) && k < 8 && v == IndexOf(ends, k)
    ensures v <= 8 && (v == 0 || ends[v - 1] <= k) && (v < 8 ==> k < ends[v])
  {
  }

  /** The frame bit of that sample. */
  function TopIndex(ends: seq<nat>): (v: nat)
    requires |ends| == 8
  {
    var v := IndexOf(ends, 7);
    if v % 2 == 0 then v else v - 1
  }

  /** The scale for such a byte. */
  function ScaleOf(top: nat, lens: seq<nat>): nat {
    if top == 7 && lens == [1, 1, 1, 1, 1, 1, 1, 1] then 100
    else if lens == [8] then 20
    else if |lens| == 1 then ZeroScale(top + 1)
    else RunScale(lens)
  }

  lemma BitsAre(rate: int, d: int, ends: seq<nat>, top: nat, lens: seq<nat>)
    requires 0 < d <= rate && FitsRate(rate, d, ends) && Shows(ends, top, lens)
    ensures Bits(Sampled(rate, d), top) == Expand(false, lens)
    ensures forall k :: top < k <= 7 ==> BitOf(Sampled(rate, d), k)
    ensures !BitOf(Sampled(rate, d), top)
  {
    hide Sampled, BitOf, Frame, FitsRate, Expand, IndexOf, SampleAt;
    var b := Sampled(rate, d);
    forall k: nat | k < 8 ensures BitOf(b, k) == (IndexOf(ends, k) % 2 == 1) {
      SampledBit(rate, d, k);
      Between(rate, d, ends, k);
      IndexRange(ends, k);
      FrameAlternates(IndexOf(ends, k));
    }
    forall j | 0 <= j <= top ensures Bits(b, top)[j] == Expand(false, lens)[j] {
      assert Bits(b, top)[j] == BitOf(b, top - j);
    }
    ExpandStarts(false, lens);
    assert Expand(false, lens)[0] == (IndexOf(ends, top - 0) % 2 == 1);
  }

  lemma IndexRange(ends: seq<nat>, k: nat)
    requires |ends| == 8
    ensures IndexOf(ends, k) <= 8
  {
  }

  lemma {:induction false} TopIs(b: byte, top: nat, i: nat)
    requires 1 <= top <= i < 8 && !BitOf(b, top) && forall k :: top < k <= i ==> BitOf(b, k)
    ensures Top(b, i) == top
    decreases i
  {
    hide BitOf;
    if top < i { TopIs(b, top, i - 1); }
  }

  /** Samples that fall like this lead to this scale. */
  predicate Scales(ends: seq<nat>, scale: nat) {
    && Rising(ends)
    && var v, top := TopIndex(ends), TopOf(ends);
       v <= 8 && top >= 1 && (v == 0 || ends[v - 1] <= top) && ScaleOf(top, Widths(ends, v, top)) == scale
  }

  /** The scale for what a receiver makes of 0x55, from where its samples fall. */
  lemma Reads(rate: int, d: int, ends: seq<nat>, scale: nat)
    requires 0 < d <= rate && FitsRate(rate, d, ends) && Scales(ends, scale)
    ensures Scale(Sampled(rate, d)) == scale
  {
    hide Sampled, BitOf, FitsRate, IndexOf, Runs, RunScale, ZeroScale, Bits, Expand, Widths, TopIndex, TopOf;
    var b, v, top := Sampled(rate, d), TopIndex(ends), TopOf(ends);
    var lens := Widths(ends, v, top);
    EndsShow(ends);
    BitsAre(rate, d, ends, top, lens);
    TopIs(b, top, 7);
    RunsExpand(false, lens);
    WholeByte(b, top, lens);
    ZeroRun(lens);
  }

  lemma ZeroRun(lens: seq<nat>)
    requires Positive(lens) && lens != []
    ensures AllZero(Expand(false, lens)) <==> |lens| == 1
  {
    if |lens| > 1 {
      ExpandStarts(true, lens[1..]);
      assert Expand(false, lens)[lens[0]] == true;
    } else {
      assert lens[1..] == [];
    }
  }

  lemma WholeByte(b: byte, top: nat, lens: seq<nat>)
    requires 1 <= top <= 7 && Positive(lens) && lens != [] && Bits(b, top) == Expand(false, lens)
    requires !BitOf(b, top) && forall k :: top < k <= 7 ==> BitOf(b, k)
    ensures b == 0x55 <==> top == 7 && lens == [1, 1, 1, 1, 1, 1, 1, 1]
    ensures b == 0 <==> lens == [8]
  {
    hide BitOf, Expand, Runs;
    Alternating();
    ZeroRun(lens);
    ZeroBelow(b, 7);
    assert Pow2(8) == 256;
    RunsExpand(false, lens);
    OnlyZeros(lens);
    if top == 7 && lens == [1, 1, 1, 1, 1, 1, 1, 1] {
      forall k: nat | k < 8 ensures BitOf(b, k) == BitOf(0x55, k) {
        assert Bits(b, 7)[7 - k] == BitOf(b, k) && Bits(0x55, 7)[7 - k] == BitOf(0x55, k);
      }
      SameBits(b, 0x55);
    }
    if b == 0 {
      assert !Bits(b, 7)[0] && Bits(b, 7)[0] == BitOf(b, 7);
    }
  }

  lemma Alternating()
    ensures Bits(0x55, 7) == Expand(false, [1, 1, 1, 1, 1, 1, 1, 1])
    ensures Runs(Bits(0x55, 7)) == [1, 1, 1, 1, 1, 1, 1, 1] && !BitOf(0x55, 7)
  {
    hide Runs;
    RunsExpand(false, [1, 1, 1, 1, 1, 1, 1, 1]);
    assert Pow2(0) == 1 && Pow2(1) == 2 && Pow2(2) == 4 && Pow2(3) == 8 && Pow2(4) == 16;
    assert Pow2(5) == 32 && Pow2(6) == 64 && Pow2(7) == 128;
    var levels := [false, true, false, true, false, true, false, true];
    assert Expand(false, [1, 1, 1, 1, 1, 1, 1, 1]) == levels;
    forall j | 0 <= j < 8 ensures Bits(0x55, 7)[j] == levels[j] { assert Bits(0x55, 7)[j] == BitOf(0x55, 7 - j); }
  }

  lemma OnlyZeros(lens: seq<nat>)
    requires Positive(lens) && lens != []
    ensures |lens| == 1 ==> |Expand(false, lens)| == lens[0]
    ensures lens == [8] ==> AllZero(Expand(false, lens)) && |Expand(false, lens)| == 8
  {
  }

  /** A byte is its bits. */
  lemma SameBits(b: byte, c: byte)
    requires forall k: nat :: k < 8 ==> BitOf(b, k) == BitOf(c, k)
    ensures b == c
  {
    hide BitOf;
    SameBelow(b, c, 8);
    assert Pow2(8) == 256;
  }

  lemma {:induction false} SameBelow(b: byte, c: byte, n: nat)
    requires n <= 8 && forall k: nat :: k < n ==> BitOf(b, k) == BitOf(c, k)
    ensures b % Pow2(n) == c % Pow2(n)
    decreases n
  {
    if n > 0 {
      hide Pow2;
      SameBelow(b, c, n - 1);
      assert BitOf(b, n - 1) == BitOf(c, n - 1);
      Doubled(n - 1);
      OneMoreBit(b, Pow2(n - 1));
      OneMoreBit(c, Pow2(n - 1));
    }
  }

  lemma Doubled(n: nat)
    requires n < 8
    ensures Pow2(n + 1) == 2 * Pow2(n)
  {
  }

  lemma OneMoreBit(b: nat, p: nat)
    requires p > 0
    ensures b % (2 * p) == b % p + p * (b / p % 2)
  {
    var q, r := b / p, b % p;
    var h, e := q / 2, q % 2;
    assert b == p * q + r;
    Distributes(p, h, e);
    RemainderOf(b, 2 * p, h, p * e + r);
  }

  lemma Distributes(p: nat, h: nat, e: nat)
    requires p > 0 && e < 2
    ensures p * (2 * h + e) == (2 * p) * h + p * e && p * e <= p
  {
  }

  // ---- where the scale leads

  /** The receiver is 4.25 to 4.5 times as fast as the device. */
  predicate Overshoots(rate: int, d: int) { 2 * rate <= 9 * d && 17 * d < 4 * rate }

  /** The next rate is at least that of the device, unless the receiver is 4.25 to 4.5 times as fast; then it still is
      at least 85 per cent of that.  The byte is the expected one if the receiver is less than 1/16 too fast. */
  predicate Enough(rate: int, d: int)
    requires 0 < d <= rate
  {
    var scale := Scale(Sampled(rate, d));
    && (rate * scale >= 100 * d <==> !Overshoots(rate, d))
    && rate * scale >= 85 * d && (Overshoots(rate, d) ==> scale == 20)
    && (scale == 100 <==> 16 * rate <= 17 * d)
  }

  lemma ScalesBy(ends: seq<nat>, v: nat, top: nat, lens: seq<nat>, scale: nat)
    requires Rising(ends) && v == TopIndex(ends) <= 8 && top == TopOf(ends) >= 1 && (v == 0 || ends[v - 1] <= top)
    requires lens == Widths(ends, v, top) && scale == ScaleOf(top, lens)
    ensures Scales(ends, scale)
  {
  }

  /** No frame bit up to v gets more than two samples. */
  predicate Short(ends: seq<nat>, v: nat, s: nat)
    requires |ends| == 8 && v <= 8
  {
    && ends[0] <= 2 && (v > 0 ==> ends[v - 1] <= s < ends[v - 1] + 2)
    && (v > 1 ==> ends[1] <= ends[0] + 2) && (v > 2 ==> ends[2] <= ends[1] + 2) && (v > 3 ==> ends[3] <= ends[2] + 2)
    && (v > 4 ==> ends[4] <= ends[3] + 2) && (v > 5 ==> ends[5] <= ends[4] + 2) && (v > 6 ==> ends[6] <= ends[5] + 2)
    && (v > 7 ==> ends[7] <= ends[6] + 2)
  }

  /** Then the runs of two are those that make up for the number of runs. */
  lemma {:induction false} ShortRuns(ends: seq<nat>, v: nat, s: nat)
    requires Rising(ends) && v <= 8 && s < 8 && Short(ends, v, s) && (v == 0 ==> s < 2)
    ensures var lens := Widths(ends, v, s);
            && |lens| == (if ends[0] == 0 && v > 0 then v else v + 1) && |lens| + Count(lens, 2) == s + 1
            && forall k :: k > 2 ==> Count(lens, k) == 0
    decreases v
  {
    hide Widths;
    WidthsAre(ends, v, s);
    if v == 0 || ends[v - 1] == 0 {
      OneCount(s + 1, []);
    } else {
      ShortBelow(ends, v, s);
      ShortRuns(ends, v - 1, ends[v - 1] - 1);
      OneCount(s + 1 - ends[v - 1], Widths(ends, v - 1, ends[v - 1] - 1));
    }
  }

  lemma ShortBelow(ends: seq<nat>, v: nat, s: nat)
    requires Rising(ends) && 1 <= v <= 8 && s < 8 && Short(ends, v, s) && ends[v - 1] > 0
    ensures Short(ends, v - 1, ends[v - 1] - 1) && (v == 1 ==> ends[v - 1] - 1 < 2)
  {
  }

  lemma OneCount(n: nat, lens: seq<nat>)
    ensures forall k :: Count([n] + lens, k) == Count(lens, k) + if n == k then 1 else 0
  {
    assert ([n] + lens)[1..] == lens;
  }

  lemma ScalesShort(ends: seq<nat>, v: nat, top: nat, scale: nat)
    requires Rising(ends) && v == TopIndex(ends) <= 8 && top == TopOf(ends) >= 1 && v > 0 && Short(ends, v, top)
    requires var runs := if ends[0] == 0 then v else v + 1;
             2 <= runs < 8 && scale == if top + 1 - runs > 1 then 85 else 95
    ensures Scales(ends, scale)
  {
    hide Count, Widths;
    ShortRuns(ends, v, top);
  }

  lemma ZeroStartsScale()
    ensures Scales([8, 8, 8, 8, 8, 8, 8, 8], 20)
    ensures Scales([7, 8, 8, 8, 8, 8, 8, 8], 95)
    ensures Scales([6, 8, 8, 8, 8, 8, 8, 8], 60)
    ensures Scales([5, 8, 8, 8, 8, 8, 8, 8], 40)
    ensures Scales([4, 8, 8, 8, 8, 8, 8, 8], 30)
    ensures Scales([3, 8, 8, 8, 8, 8, 8, 8], 20)
  {
    hide Scales;
    ScalesBy([8, 8, 8, 8, 8, 8, 8, 8], 0, 7, [8], 20);
    ScalesBy([7, 8, 8, 8, 8, 8, 8, 8], 0, 6, [7], 95);
    ScalesBy([6, 8, 8, 8, 8, 8, 8, 8], 0, 5, [6], 60);
    ScalesBy([5, 8, 8, 8, 8, 8, 8, 8], 0, 4, [5], 40);
    ScalesBy([4, 8, 8, 8, 8, 8, 8, 8], 0, 3, [4], 30);
    ScalesBy([3, 8, 8, 8, 8, 8, 8, 8], 0, 2, [3], 20);
  }

  lemma ZeroStarts(rate: int, d: int)
    requires 0 < d && 17 * d < 4 * rate
    ensures Enough(rate, d)
  {
    hide Scale, Sampled, Scales;
    ZeroStartsScale();
    if 17 * d < 2 * rate {
      Reads(rate, d, [8, 8, 8, 8, 8, 8, 8, 8], 20);
    } else if 15 * d < 2 * rate {
      Reads(rate, d, [7, 8, 8, 8, 8, 8, 8, 8], 95);
    } else if 13 * d < 2 * rate {
      Reads(rate, d, [6, 8, 8, 8, 8, 8, 8, 8], 60);
    } else if 11 * d < 2 * rate {
      Reads(rate, d, [5, 8, 8, 8, 8, 8, 8, 8], 40);
    } else if 9 * d < 2 * rate {
      Reads(rate, d, [4, 8, 8, 8, 8, 8, 8, 8], 30);
    } else {
      Reads(rate, d, [3, 8, 8, 8, 8, 8, 8, 8], 20);
    }
  }

  lemma WideRunsScale()
    ensures Scales([3, 7, 8, 8, 8, 8, 8, 8], 40)
    ensures Scales([3, 6, 8, 8, 8, 8, 8, 8], 60)
  {
    hide Scales;
    ScalesBy([3, 7, 8, 8, 8, 8, 8, 8], 2, 7, [1, 4, 3], 40);
    ScalesBy([3, 6, 8, 8, 8, 8, 8, 8], 2, 7, [2, 3, 3], 60);
  }

  lemma LessWideRunsScale()
    ensures Scales([2, 6, 8, 8, 8, 8, 8, 8], 85)
    ensures Scales([2, 5, 8, 8, 8, 8, 8, 8], 60)
  {
    hide Scales;
    ScalesBy([2, 6, 8, 8, 8, 8, 8, 8], 2, 7, [2, 4, 2], 85);
    ScalesBy([2, 5, 8, 8, 8, 8, 8, 8], 2, 7, [3, 3, 2], 60);
  }

  lemma WideRuns(rate: int, d: int)
    requires 0 < d && 4 * rate <= 17 * d && 17 * d < 6 * rate
    ensures Enough(rate, d)
  {
    hide Scale, Sampled, Scales;
    WideRunsScale();
    LessWideRunsScale();
    if 15 * d < 4 * rate {
      Reads(rate, d, [3, 7, 8, 8, 8, 8, 8, 8], 40);
    } else if 7 * d < 2 * rate {
      Reads(rate, d, [3, 6, 8, 8, 8, 8, 8, 8], 60);
    } else if 13 * d < 4 * rate {
      Reads(rate, d, [2, 6, 8, 8, 8, 8, 8, 8], 85);
    } else {
      Reads(rate, d, [2, 5, 8, 8, 8, 8, 8, 8], 60);
    }
  }

  lemma MixedRunsScale()
    ensures Scales([2, 5, 7, 8, 8, 8, 8, 8], 85)
    ensures Scales([2, 4, 7, 8, 8, 8, 8, 8], 85)
  {
    hide Scales;
    ScalesBy([2, 5, 7, 8, 8, 8, 8, 8], 2, 6, [2, 3, 2], 85);
    ScalesBy([2, 4, 7, 8, 8, 8, 8, 8], 2, 6, [3, 2, 2], 85);
  }

  lemma AllDifferentScale()
    ensures Scales([1, 4, 6, 8, 8, 8, 8, 8], 95)
    ensures Scales([1, 3, 6, 8, 8, 8, 8, 8], 95)
  {
    hide Scales;
    ScalesBy([1, 4, 6, 8, 8, 8, 8, 8], 2, 5, [2, 3, 1], 95);
    ScalesBy([1, 3, 6, 8, 8, 8, 8, 8], 2, 5, [3, 2, 1], 95);
  }

  lemma MixedRuns(rate: int, d: int)
    requires 0 < d && 6 * rate <= 17 * d && 13 * d < 6 * rate
    ensures Enough(rate, d)
  {
    hide Scale, Sampled, Scales;
    MixedRunsScale();
    AllDifferentScale();
    if 11 * d < 4 * rate {
      Reads(rate, d, [2, 5, 7, 8, 8, 8, 8, 8], 85);
    } else if 5 * d < 2 * rate {
      Reads(rate, d, [2, 4, 7, 8, 8, 8, 8, 8], 85);
    } else if 9 * d < 4 * rate {
      Reads(rate, d, [1, 4, 6, 8, 8, 8, 8, 8], 95);
    } else {
      Reads(rate, d, [1, 3, 6, 8, 8, 8, 8, 8], 95);
    }
  }

  lemma ManyTwosScale()
    ensures Scales([1, 3, 5, 8, 8, 8, 8, 8], 85)
    ensures Scales([1, 3, 5, 7, 8, 8, 8, 8], 85)
    ensures Scales([1, 3, 5, 6, 8, 8, 8, 8], 85)
    ensures Scales([1, 3, 4, 6, 8, 8, 8, 8], 85)
    ensures Scales([1, 2, 4, 6, 8, 8, 8, 8], 85)
    ensures Scales([1, 2, 4, 6, 7, 8, 8, 8], 85)
  {
    hide Scales;
    ScalesShort([1, 3, 5, 8, 8, 8, 8, 8], 2, 4, 85);
    ScalesShort([1, 3, 5, 7, 8, 8, 8, 8], 4, 7, 85);
    ScalesShort([1, 3, 5, 6, 8, 8, 8, 8], 4, 7, 85);
    ScalesShort([1, 3, 4, 6, 8, 8, 8, 8], 4, 7, 85);
    ScalesShort([1, 2, 4, 6, 8, 8, 8, 8], 4, 7, 85);
    ScalesShort([1, 2, 4, 6, 7, 8, 8, 8], 4, 6, 85);
  }

  lemma ManyTwos(rate: int, d: int)
    requires 0 < d && 6 * rate <= 13 * d && 11 * d < 6 * rate
    ensures Enough(rate, d)
  {
    hide Scale, Sampled, Scales;
    ManyTwosScale();
    if 17 * d < 8 * rate {
      Reads(rate, d, [1, 3, 5, 8, 8, 8, 8, 8], 85);
    } else if 15 * d < 8 * rate {
      Reads(rate, d, [1, 3, 5, 7, 8, 8, 8, 8], 85);
    } else {
      Reads(rate, d, [1, 3, 5, 6, 8, 8, 8, 8], 85);
    }
  }

  lemma FourTwos(rate: int, d: int)
    requires 0 < d && 6 * rate <= 11 * d && 13 * d < 8 * rate
    ensures Enough(rate, d)
  {
    hide Scale, Sampled, Scales;
    ManyTwosScale();
    if 7 * d < 4 * rate {
      Reads(rate, d, [1, 3, 4, 6, 8, 8, 8, 8], 85);
    } else if 17 * d < 10 * rate {
      Reads(rate, d, [1, 2, 4, 6, 8, 8, 8, 8], 85);
    } else {
      Reads(rate, d, [1, 2, 4, 6, 7, 8, 8, 8], 85);
    }
  }

  lemma FewTwosScale()
    ensures Scales([1, 2, 4, 5, 7, 8, 8, 8], 85)
    ensures Scales([0, 2, 3, 5, 6, 8, 8, 8], 85)
    ensures Scales([0, 2, 3, 5, 6, 7, 8, 8], 85)
    ensures Scales([0, 2, 3, 4, 6, 7, 8, 8], 85)
    ensures Scales([0, 2, 3, 4, 5, 7, 8, 8], 85)
    ensures Scales([0, 1, 3, 4, 5, 6, 8, 8], 85)
  {
    hide Scales;
    ScalesShort([1, 2, 4, 5, 7, 8, 8, 8], 4, 6, 85);
    ScalesShort([0, 2, 3, 5, 6, 8, 8, 8], 4, 5, 85);
    ScalesShort([0, 2, 3, 5, 6, 7, 8, 8], 6, 7, 85);
    ScalesShort([0, 2, 3, 4, 6, 7, 8, 8], 6, 7, 85);
    ScalesShort([0, 2, 3, 4, 5, 7, 8, 8], 6, 7, 85);
    ScalesShort([0, 1, 3, 4, 5, 6, 8, 8], 6, 7, 85);
  }

  lemma FewTwos(rate: int, d: int)
    requires 0 < d && 8 * rate <= 13 * d && 11 * d < 8 * rate
    ensures Enough(rate, d)
  {
    hide Scale, Sampled, Scales;
    FewTwosScale();
    if 3 * d < 2 * rate {
      Reads(rate, d, [1, 2, 4, 5, 7, 8, 8, 8], 85);
    } else if 17 * d < 12 * rate {
      Reads(rate, d, [0, 2, 3, 5, 6, 8, 8, 8], 85);
    } else {
      Reads(rate, d, [0, 2, 3, 5, 6, 7, 8, 8], 85);
    }
  }

  lemma TwoTwos(rate: int, d: int)
    requires 0 < d && 8 * rate <= 11 * d && 17 * d < 14 * rate
    ensures Enough(rate, d)
  {
    hide Scale, Sampled, Scales;
    FewTwosScale();
    if 13 * d < 10 * rate {
      Reads(rate, d, [0, 2, 3, 4, 6, 7, 8, 8], 85);
    } else if 5 * d < 4 * rate {
      Reads(rate, d, [0, 2, 3, 4, 5, 7, 8, 8], 85);
    } else {
      Reads(rate, d, [0, 1, 3, 4, 5, 6, 8, 8], 85);
    }
  }

  lemma OnesScale()
    ensures Scales([0, 1, 3, 4, 5, 6, 7, 8], 95)
    ensures Scales([0, 1, 2, 4, 5, 6, 7, 8], 95)
    ensures Scales([0, 1, 2, 3, 5, 6, 7, 8], 95)
    ensures Scales([0, 1, 2, 3, 4, 6, 7, 8], 95)
    ensures Scales([0, 1, 2, 3, 4, 5, 7, 8], 95)
    ensures Scales([0, 1, 2, 3, 4, 5, 6, 8], 95)
    ensures Scales([0, 1, 2, 3, 4, 5, 6, 7], 100)
  {
    hide Scales;
    ScalesShort([0, 1, 3, 4, 5, 6, 7, 8], 6, 6, 95);
    ScalesShort([0, 1, 2, 4, 5, 6, 7, 8], 6, 6, 95);
    ScalesShort([0, 1, 2, 3, 5, 6, 7, 8], 6, 6, 95);
    ScalesShort([0, 1, 2, 3, 4, 6, 7, 8], 6, 6, 95);
    ScalesShort([0, 1, 2, 3, 4, 5, 7, 8], 6, 6, 95);
    ScalesShort([0, 1, 2, 3, 4, 5, 6, 8], 6, 5, 95);
    ScalesBy([0, 1, 2, 3, 4, 5, 6, 7], 8, 7, [1, 1, 1, 1, 1, 1, 1, 1], 100);
  }

  lemma Ones(rate: int, d: int)
    requires 0 < d && 14 * rate <= 17 * d && d <= rate
    ensures Enough(rate, d)
  {
    hide Scale, Sampled, Scales;
    OnesScale();
    if 7 * d < 6 * rate {
      Reads(rate, d, [0, 1, 3, 4, 5, 6, 7, 8], 95);
    } else if 9 * d < 8 * rate {
      Reads(rate, d, [0, 1, 2, 4, 5, 6, 7, 8], 95);
    } else if 11 * d < 10 * rate {
      Reads(rate, d, [0, 1, 2, 3, 5, 6, 7, 8], 95);
    } else if 13 * d < 12 * rate {
      Reads(rate, d, [0, 1, 2, 3, 4, 6, 7, 8], 95);
    } else if 15 * d < 14 * rate {
      Reads(rate, d, [0, 1, 2, 3, 4, 5, 7, 8], 95);
    } else if 17 * d < 16 * rate {
      Reads(rate, d, [0, 1, 2, 3, 4, 5, 6, 8], 95);
    } else {
      Reads(rate, d, [0, 1, 2, 3, 4, 5, 6, 7], 100);
    }
  }

  /** Exactly when the next rate is not below that of the device, for every rate at which the receiver is not too
      slow. */
  lemma EnoughAlways(rate: int, d: int)
    requires 0 < d <= rate
    ensures Enough(rate, d)
  {
    hide Enough;
    if 17 * d < 4 * rate {
      ZeroStarts(rate, d);
    } else if 17 * d < 6 * rate {
      WideRuns(rate, d);
    } else if 13 * d < 6 * rate {
      MixedRuns(rate, d);
    } else if 11 * d < 6 * rate {
      ManyTwos(rate, d);
    } else if 13 * d < 8 * rate {
      FourTwos(rate, d);
    } else if 11 * d < 8 * rate {
      FewTwos(rate, d);
    } else if 17 * d < 14 * rate {
      TwoTwos(rate, d);
    } else {
      Ones(rate, d);
    }
  }
}

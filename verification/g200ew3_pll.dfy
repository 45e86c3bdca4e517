/** Matrox G200EW3: the pixel-PLL parameter search of the atomic check and
    the VRAM size adjustment of the probe.

    The search walks every (testp, testp2, testm, testn) in loop order and
    keeps the first candidate whose synthesised clock is nearest to the
    requested one. Loop order is captured by `Rank`, a mixed-radix number
    that grows by one per innermost step; "already visited" is "rank below
    the current position", which keeps every loop invariant linear. */
module G200ew3Pll {

  const VcoMax: int := 800000
  const VcoMin: int := 400000
  const PllRefFreq: int := 25000
  /** Initial `delta`, the largest `unsigned int`. */
  const U32Max: int := 0xffff_ffff

  /** One point of the search: the four loop counters. */
  datatype Candidate = Candidate(m: int, n: int, p: int, p2: int)

  /** What the atomic check stores into the CRTC state. */
  datatype PllValues = PllValues(m: int, n: int, p: int, s: int)

  const NoValues := PllValues(0, 0, 0, 0)

  /** The values stored for a chosen candidate: m, n and p off by one, s as is. */
  function ToValues(c: Candidate): PllValues {
    PllValues(c.m + 1, c.n + 1, c.p + 1, c.p2)
  }

  /** A (p, p2) pair the loop does not skip. */
  predicate PairFeasible(clock: int, p: int, p2: int) {
    p >= p2 && VcoMin <= clock * p * p2 <= VcoMax
  }

  predicate InRange(c: Candidate) {
    1 <= c.p < 8 && 1 <= c.p2 < 8 && 1 <= c.m < 26 && 32 <= c.n < 2048
  }

  /** A candidate whose delta the loop computes. */
  predicate Valid(clock: int, c: Candidate) {
    InRange(c) && PairFeasible(clock, c.p, c.p2)
  }

  /** Some (p, p2) pair survives the VCO window. */
  predicate AnyFeasible(clock: int) {
    exists p, p2 :: 1 <= p < 8 && 1 <= p2 < 8 && PairFeasible(clock, p, p2)
  }

  /** Strictly earlier in the order the nested loops visit candidates. */
  predicate Before(a: Candidate, b: Candidate) {
    || a.p < b.p
    || (a.p == b.p && a.p2 < b.p2)
    || (a.p == b.p && a.p2 == b.p2 && a.m < b.m)
    || (a.p == b.p && a.p2 == b.p2 && a.m == b.m && a.n < b.n)
  }

  /** The clock the PLL would synthesise, in unsigned integer division. */
  function Computed(c: Candidate): int
    requires InRange(c)
  {
    (PllRefFreq * c.n) / (c.m * c.p * c.p2)
  }

  /** |computed - clock|, the quantity the search minimises. */
  function Distance(clock: int, c: Candidate): int
    requires InRange(c)
  {
    var computed := Computed(c);
    if computed > clock then computed - clock else clock - computed
  }

  /** c is the first candidate, in loop order, of least distance. */
  ghost predicate IsBest(clock: int, c: Candidate) {
    && Valid(clock, c)
    && forall d :: Valid(clock, d) ==>
         Distance(clock, c) <= Distance(clock, d)
         && (Before(d, c) ==> Distance(clock, c) < Distance(clock, d))
  }

  // ---------------------------------------------------------------------
  // Loop positions

  /** Position of loop counters (p, p2, m, n) in visiting order. */
  function Pos(p: int, p2: int, m: int, n: int): int {
    p * 425984 + p2 * 53248 + m * 2048 + n
  }

  function Rank(c: Candidate): int {
    Pos(c.p, c.p2, c.m, c.n)
  }

  lemma RankWithinP(d: Candidate, p: int)
    requires InRange(d)
    requires Pos(p, 0, 0, 0) <= Rank(d) < Pos(p + 1, 0, 0, 0)
    ensures d.p == p
  {
  }

  lemma RankWithinPair(d: Candidate, p: int, p2: int)
    requires InRange(d) && 0 <= p2 < 8
    requires Pos(p, p2, 0, 0) <= Rank(d) < Pos(p, p2 + 1, 0, 0)
    ensures d.p == p && d.p2 == p2
  {
    RankWithinP(d, p);
  }

  lemma RankWithinM(d: Candidate, p: int, p2: int, m: int)
    requires InRange(d) && 0 <= p2 < 8 && 0 <= m < 26
    requires Pos(p, p2, m, 0) <= Rank(d) < Pos(p, p2, m + 1, 0)
    ensures d.p == p && d.p2 == p2 && d.m == m
  {
    RankWithinPair(d, p, p2);
  }

  /** Rank order is loop order, so "visited" means "rank below the position". */
  lemma {:induction false} RankIsLoopOrder(a: Candidate, b: Candidate)
    requires InRange(a) && InRange(b)
    ensures Rank(a) < Rank(b) <==> Before(a, b)
    ensures Rank(a) == Rank(b) <==> a == b
  {
    if Rank(a) == Rank(b) {
      RankWithinM(a, b.p, b.p2, b.m);
    }
    if Before(a, b) {
      if a.p < b.p {
        assert Rank(a) < Pos(a.p + 1, 0, 0, 0) <= Rank(b);
      } else if a.p2 < b.p2 {
        assert Rank(a) < Pos(a.p, a.p2 + 1, 0, 0) <= Rank(b);
      } else if a.m < b.m {
        assert Rank(a) < Pos(a.p, a.p2, a.m + 1, 0) <= Rank(b);
      }
    } else if a != b {
      if b.p < a.p {
        assert Rank(b) < Pos(b.p + 1, 0, 0, 0) <= Rank(a);
      } else if b.p2 < a.p2 {
        assert Rank(b) < Pos(b.p, b.p2 + 1, 0, 0) <= Rank(a);
      } else if b.m < a.m {
        assert Rank(b) < Pos(b.p, b.p2, b.m + 1, 0) <= Rank(a);
      }
    }
  }

  // ---------------------------------------------------------------------
  // Search state

  /** The candidate whose values are stored in pll. */
  function StoredCandidate(pll: PllValues): Candidate {
    Candidate(pll.m - 1, pll.n - 1, pll.p - 1, pll.s)
  }

  /** What the loop has established at position `pos`: either nothing
      visited so far was valid and pll is still zero, or pll encodes the
      first visited candidate of least distance and `delta` is its distance. */
  ghost predicate SearchState(clock: int, pos: int, pll: PllValues, delta: int) {
    if pll == NoValues then
      && delta == U32Max
      && forall d :: Valid(clock, d) ==> pos <= Rank(d)
    else
      var best := StoredCandidate(pll);
      && pll == ToValues(best)
      && Valid(clock, best)
      && Rank(best) < pos
      && delta == Distance(clock, best)
      && forall d :: Valid(clock, d) && Rank(d) < pos ==>
           delta <= Distance(clock, d) && (Rank(d) < Rank(best) ==> delta < Distance(clock, d))
  }

  /** No valid candidate lies in [pos1, pos2): the state carries over. */
  lemma Gap(clock: int, pos1: int, pos2: int, pll: PllValues, delta: int)
    requires pos1 <= pos2
    requires SearchState(clock, pos1, pll, delta)
    requires forall d :: Valid(clock, d) ==> !(pos1 <= Rank(d) < pos2)
    ensures SearchState(clock, pos2, pll, delta)
  {
  }

  /** The clock of a valid candidate is positive and within the VCO window. */
  lemma ClockBounds(clock: int, p: int, p2: int)
    requires 1 <= p && 1 <= p2 && PairFeasible(clock, p, p2)
    ensures 0 < clock <= VcoMax
  {
    var k := p * p2;
    assert clock * p * p2 == clock * k;
    assert clock * k == clock * (k - 1) + clock;
  }

  lemma DivBound(x: int, d: int)
    requires 0 <= x && 1 <= d
    ensures 0 <= x / d <= x
  {
    var q := x / d;
    assert q * d + x % d == x;
    assert q * d == q * (d - 1) + q;
  }

  /** `tmpdelta` as the loop computes it: the difference is formed in
      `long` and stored into an `unsigned int`. */
  function TmpDelta(clock: int, c: Candidate): int
    requires InRange(c)
  {
    var computed := Computed(c);
    if computed > clock then (computed - clock) % 0x1_0000_0000
    else (clock - computed) % 0x1_0000_0000
  }

  /** For valid candidates storing the difference never wraps, and it
      stays below the initial delta. */
  lemma TmpDeltaIsDistance(clock: int, c: Candidate)
    requires Valid(clock, c)
    ensures TmpDelta(clock, c) == Distance(clock, c) < U32Max
    ensures 0 <= Distance(clock, c)
  {
    ClockBounds(clock, c.p, c.p2);
    DivBound(PllRefFreq * c.n, c.m * c.p * c.p2);
  }

  /** One innermost iteration: evaluate c and keep it iff strictly better. */
  lemma Step(clock: int, c: Candidate, pll: PllValues, delta: int)
    requires Valid(clock, c)
    requires SearchState(clock, Rank(c), pll, delta)
    ensures Distance(clock, c) < delta ==> SearchState(clock, Rank(c) + 1, ToValues(c), Distance(clock, c))
    ensures !(Distance(clock, c) < delta) ==> SearchState(clock, Rank(c) + 1, pll, delta)
  {
    TmpDeltaIsDistance(clock, c);
    forall d | Valid(clock, d) && Rank(d) < Rank(c) + 1
      ensures Rank(d) < Rank(c) || d == c
    {
      RankIsLoopOrder(d, c);
    }
  }

  /** Step at the innermost loop's counters: what the loop body needs,
      stated at the positions the loop invariant names. */
  lemma StepAt(clock: int, testp: int, testp2: int, testm: int, testn: int, pll: PllValues, delta: int)
    requires 1 <= testp < 8 && 1 <= testp2 < 8 && 1 <= testm < 26 && 32 <= testn < 2048
    requires PairFeasible(clock, testp, testp2)
    requires SearchState(clock, Pos(testp, testp2, testm, testn), pll, delta)
    ensures var d := TmpDelta(clock, Candidate(testm, testn, testp, testp2));
      && (d < delta ==>
            SearchState(clock, Pos(testp, testp2, testm, testn + 1), PllValues(testm + 1, testn + 1, testp + 1, testp2), d))
      && (!(d < delta) ==> SearchState(clock, Pos(testp, testp2, testm, testn + 1), pll, delta))
  {
    var c := Candidate(testm, testn, testp, testp2);
    assert Rank(c) + 1 == Pos(testp, testp2, testm, testn + 1);
    TmpDeltaIsDistance(clock, c);
    Step(clock, c, pll, delta);
  }

  /** No valid candidate has n below 32 or m equal to 0. */
  lemma SkipPrefixes(clock: int, p: int, p2: int, m: int)
    requires 1 <= p2 < 8 && 0 <= m < 26
    ensures forall d :: Valid(clock, d) ==> !(Pos(p, p2, m, 0) <= Rank(d) < Pos(p, p2, m, 32))
    ensures m == 0 ==> forall d :: Valid(clock, d) ==> !(Pos(p, p2, 0, 0) <= Rank(d) < Pos(p, p2, 1, 0))
  {
    forall d | Valid(clock, d) && Pos(p, p2, m, 0) <= Rank(d) < Pos(p, p2, m, 32)
      ensures false
    {
      RankWithinM(d, p, p2, m);
    }
    if m == 0 {
      forall d | Valid(clock, d) && Pos(p, p2, 0, 0) <= Rank(d) < Pos(p, p2, 1, 0)
        ensures false
      {
        RankWithinM(d, p, p2, 0);
      }
    }
  }

  /** A pair the loop skips holds no valid candidate. */
  lemma SkipPair(clock: int, p: int, p2: int)
    requires 0 <= p2 < 8
    requires p2 == 0 || !PairFeasible(clock, p, p2)
    ensures forall d :: Valid(clock, d) ==> !(Pos(p, p2, 0, 0) <= Rank(d) < Pos(p, p2 + 1, 0, 0))
  {
    forall d | Valid(clock, d) && Pos(p, p2, 0, 0) <= Rank(d) < Pos(p, p2 + 1, 0, 0)
      ensures false
    {
      RankWithinPair(d, p, p2);
    }
  }

  lemma SkipFirstP(clock: int)
    ensures forall d :: Valid(clock, d) ==> !(0 <= Rank(d) < Pos(1, 0, 0, 0))
  {
    forall d | Valid(clock, d) && 0 <= Rank(d) < Pos(1, 0, 0, 0)
      ensures false
    {
      RankWithinP(d, 0);
    }
  }

  /** The innermost loop: testn from 32 to 2047 for one (p, p2, m). */
  method SearchN(clock: int, testp: int, testp2: int, testm: int, pll0: PllValues, delta0: int)
    returns (pll: PllValues, delta: int)
    requires 1 <= testp < 8 && 1 <= testp2 < 8 && 1 <= testm < 26
    requires PairFeasible(clock, testp, testp2)
    requires SearchState(clock, Pos(testp, testp2, testm, 32), pll0, delta0)
    ensures SearchState(clock, Pos(testp, testp2, testm + 1, 0), pll, delta)
  {
    pll, delta := pll0, delta0;
    var testn := 32;
    while testn < 2048
      invariant 32 <= testn <= 2048
      invariant SearchState(clock, Pos(testp, testp2, testm, testn), pll, delta)
    {
      // 25000 * 2047 and 25 * 7 * 7 both fit in an unsigned int.
      var tmpdelta := TmpDelta(clock, Candidate(testm, testn, testp, testp2));
      StepAt(clock, testp, testp2, testm, testn, pll, delta);
      if tmpdelta < delta {
        delta := tmpdelta;
        pll := PllValues(testm + 1, testn + 1, testp + 1, testp2);
      }
      testn := testn + 1;
    }
  }

  /** The testm loop for one feasible (p, p2) pair. */
  method SearchM(clock: int, testp: int, testp2: int, pll0: PllValues, delta0: int)
    returns (pll: PllValues, delta: int)
    requires 1 <= testp < 8 && 1 <= testp2 < 8
    requires PairFeasible(clock, testp, testp2)
    requires SearchState(clock, Pos(testp, testp2, 0, 0), pll0, delta0)
    ensures SearchState(clock, Pos(testp, testp2 + 1, 0, 0), pll, delta)
  {
    pll, delta := pll0, delta0;
    SkipPrefixes(clock, testp, testp2, 0);
    Gap(clock, Pos(testp, testp2, 0, 0), Pos(testp, testp2, 1, 0), pll, delta);
    var testm := 1;
    while testm < 26
      invariant 1 <= testm <= 26
      invariant SearchState(clock, Pos(testp, testp2, testm, 0), pll, delta)
    {
      SkipPrefixes(clock, testp, testp2, testm);
      Gap(clock, Pos(testp, testp2, testm, 0), Pos(testp, testp2, testm, 32), pll, delta);
      pll, delta := SearchN(clock, testp, testp2, testm, pll, delta);
      testm := testm + 1;
    }
  }

  /** The testp2 loop for one p: pairs with p < p2 or outside the VCO
      window are skipped. */
  method SearchP2(clock: int, testp: int, pll0: PllValues, delta0: int)
    returns (pll: PllValues, delta: int)
    requires 1 <= testp < 8
    requires SearchState(clock, Pos(testp, 0, 0, 0), pll0, delta0)
    ensures SearchState(clock, Pos(testp + 1, 0, 0, 0), pll, delta)
  {
    pll, delta := pll0, delta0;
    SkipPair(clock, testp, 0);
    Gap(clock, Pos(testp, 0, 0, 0), Pos(testp, 1, 0, 0), pll, delta);
    var testp2 := 1;
    while testp2 < 8
      invariant 1 <= testp2 <= 8
      invariant SearchState(clock, Pos(testp, testp2, 0, 0), pll, delta)
    {
      if testp < testp2 || clock * testp * testp2 > VcoMax || clock * testp * testp2 < VcoMin {
        SkipPair(clock, testp, testp2);
        Gap(clock, Pos(testp, testp2, 0, 0), Pos(testp, testp2 + 1, 0, 0), pll, delta);
      } else {
        pll, delta := SearchM(clock, testp, testp2, pll, delta);
      }
      testp2 := testp2 + 1;
    }
  }

  /** The search of the pixel-PLL atomic check. The result is zero exactly
      when no (p, p2) pair is feasible; otherwise it encodes the first
      candidate, in loop order, of least |computed - clock|. */
  method PixPllcAtomicCheck(clock: int) returns (pll: PllValues, ret: int)
    ensures ret == 0
    ensures pll == NoValues <==> !AnyFeasible(clock)
    ensures pll != NoValues ==> IsBest(clock, StoredCandidate(pll)) && pll == ToValues(StoredCandidate(pll))
    ensures pll != NoValues ==> 2 <= pll.m <= 26 && 33 <= pll.n <= 2048 && 2 <= pll.p <= 8 && 1 <= pll.s <= 7
  {
    pll := NoValues;
    var delta := U32Max;
    SkipFirstP(clock);
    Gap(clock, 0, Pos(1, 0, 0, 0), pll, delta);
    var testp := 1;
    while testp < 8
      invariant 1 <= testp <= 8
      invariant SearchState(clock, Pos(testp, 0, 0, 0), pll, delta)
    {
      pll, delta := SearchP2(clock, testp, pll, delta);
      testp := testp + 1;
    }
    ret := 0;
    Conclude(clock, pll, delta);
  }

  /** After the last position every valid candidate has been visited. */
  lemma Conclude(clock: int, pll: PllValues, delta: int)
    requires SearchState(clock, Pos(8, 0, 0, 0), pll, delta)
    ensures pll == NoValues <==> !AnyFeasible(clock)
    ensures pll != NoValues ==> IsBest(clock, StoredCandidate(pll)) && pll == ToValues(StoredCandidate(pll))
  {
    if pll != NoValues {
      var best := StoredCandidate(pll);
      forall d | Valid(clock, d)
        ensures Distance(clock, best) <= Distance(clock, d)
        ensures Before(d, best) ==> Distance(clock, best) < Distance(clock, d)
      {
        RankIsLoopOrder(d, best);
      }
    } else if AnyFeasible(clock) {
      var p, p2 :| 1 <= p < 8 && 1 <= p2 < 8 && PairFeasible(clock, p, p2);
      assert Valid(clock, Candidate(1, 32, p, p2));
    }
  }

  /** Two best candidates coincide: the search result is well defined. */
  lemma {:induction false} BestIsUnique(clock: int, a: Candidate, b: Candidate)
    requires IsBest(clock, a) && IsBest(clock, b)
    ensures a == b
  {
    if a != b {
      RankIsLoopOrder(a, b);
      RankIsLoopOrder(b, a);
    }
  }

  // ---------------------------------------------------------------------
  // VRAM

  const VramThreshold: int := 0x1000000
  const VramReserved: int := 0x400000

  /** Size handed to the generic VRAM probe: 4 MiB are withheld from
      boards with at least 16 MiB. */
  function ProbeVramSize(vramSize: nat): (r: nat)
    ensures r <= vramSize
    ensures r == vramSize <==> vramSize < VramThreshold
    ensures r != vramSize ==> r + VramReserved == vramSize && r >= VramThreshold - VramReserved
  {
    if vramSize >= VramThreshold then vramSize - VramReserved else vramSize
  }
}

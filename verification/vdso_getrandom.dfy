/** The vDSO getrandom selftest's opaque-state pool: `timespecsub`, the
    page-aligned slot layout of a freshly mapped block, and the LIFO
    free-list of states. The mutex is left out (the pool is modelled single
    threaded); mmap and the array growth are inputs that succeed or fail.

    For a power-of-two `page_size` the masks of the source are arithmetic:
    `x & (page_size - 1)` is `x % page_size` and `x & ~(page_size - 1)` is
    `x - x % page_size`; the model states them that way. */
module GetrandomPool {

  import Arith

  const NsecPerSec: int := 1000000000

  // ---------------------------------------------------------------------
  // timespecsub

  datatype Timespec = Timespec(sec: int, nsec: int)

  predicate Normalized(t: Timespec) {
    0 <= t.nsec < NsecPerSec
  }

  function TotalNsec(t: Timespec): int {
    t.sec * NsecPerSec + t.nsec
  }

  /** `timespecsub(t, u, v)`: subtract field-wise, then borrow one second
      if the nanoseconds went negative. The borrow keeps the value exact. */
  function TimespecSub(t: Timespec, u: Timespec): (v: Timespec)
    ensures TotalNsec(v) == TotalNsec(t) - TotalNsec(u)
    ensures Normalized(t) && Normalized(u) ==> Normalized(v)
  {
    var sec := t.sec - u.sec;
    var nsec := t.nsec - u.nsec;
    if nsec < 0 then Timespec(sec - 1, nsec + NsecPerSec) else Timespec(sec, nsec)
  }

  /** A normalised timespec is determined by the nanoseconds it denotes. */
  lemma NormalizedIsUnique(a: Timespec, b: Timespec)
    requires Normalized(a) && Normalized(b) && TotalNsec(a) == TotalNsec(b)
    ensures a == b
  {
    Arith.DivMod(TotalNsec(a), NsecPerSec, a.sec, a.nsec);
    Arith.DivMod(TotalNsec(b), NsecPerSec, b.sec, b.nsec);
  }

  /** On normalised inputs the result is the normalised form of the
      difference, so it does not depend on how the borrow was taken. */
  lemma TimespecSubIsDifference(t: Timespec, u: Timespec, d: Timespec)
    requires Normalized(t) && Normalized(u) && Normalized(d)
    requires TotalNsec(d) == TotalNsec(t) - TotalNsec(u)
    ensures TimespecSub(t, u) == d
  {
    NormalizedIsUnique(TimespecSub(t, u), d);
  }

  // ---------------------------------------------------------------------
  // Page arithmetic

  /** `x & (page_size - 1)`. */
  function PageOffset(x: nat, page: nat): nat
    requires page > 0
  {
    x % page
  }

  /** `(x + page_size - 1) & ~(page_size - 1)`. */
  function RoundUpToPage(x: nat, page: nat): nat
    requires page > 0
  {
    var y := x + page - 1;
    y - y % page
  }

  /** Size of the mapping for `num` states. */
  function AllocSize(num: nat, stateSize: nat, page: nat): nat
    requires page > 0
  {
    RoundUpToPage(num * stateSize, page)
  }

  /** The mapping is the least whole number of pages that holds `num` states. */
  lemma AllocSizeIsLeastPageMultiple(num: nat, stateSize: nat, page: nat)
    requires page > 0
    ensures AllocSize(num, stateSize, page) % page == 0
    ensures num * stateSize <= AllocSize(num, stateSize, page) < num * stateSize + page
  {
    var need := num * stateSize;
    var y := need + page - 1;
    var r := AllocSize(num, stateSize, page);
    Arith.DivMod(y, page, y / page, y % page);
    Arith.DivMod(r, page, y / page, 0);
  }

  /** States per page times pages: how many states the block is carved into. */
  function SlotCount(allocSize: nat, stateSize: nat, page: nat): nat
    requires page > 0 && stateSize > 0
  {
    Arith.MulLe(0, page / stateSize, allocSize / page);
    (page / stateSize) * (allocSize / page)
  }

  /** Where slot i lands: page i / q of the block, position i % q in it,
      for q states per page. */
  function SlotAddr(block: nat, i: nat, stateSize: nat, page: nat): nat
    requires 0 < stateSize <= page
  {
    var q := page / stateSize;
    block + (i / q) * page + (i % q) * stateSize
  }

  lemma PerPage(stateSize: nat, page: nat)
    requires 0 < stateSize <= page
    ensures var q := page / stateSize; q >= 1 && q * stateSize <= page < (q + 1) * stateSize
  {
    Arith.DivMod(page, stateSize, page / stateSize, page % stateSize);
  }

  /** One iteration of the layout loop. Slot i is due at position k of page
      pg; the loop moves to the next page exactly when the position is past
      the last whole state of the page, and the slot it stores is slot i of
      the closed form. Returns the position of slot i + 1. */
  lemma LayoutStep(block: nat, stateSize: nat, page: nat, pg: nat, k: nat, addr: nat, i: nat)
    returns (pg2: nat, k2: nat)
    requires 0 < stateSize <= page && block % page == 0
    requires k <= page / stateSize && i == pg * (page / stateSize) + k
    requires addr == block + pg * page + k * stateSize
    ensures var slot := if PageOffset(addr, page) + stateSize > page then RoundUpToPage(addr, page) else addr;
      && slot == SlotAddr(block, i, stateSize, page)
      && addr <= slot
      && PageOffset(slot, page) + stateSize <= page
      && k2 <= page / stateSize && i + 1 == pg2 * (page / stateSize) + k2
      && slot + stateSize == block + pg2 * page + k2 * stateSize
  {
    if k < page / stateSize {
      StepWithinPage(block, stateSize, page, pg, k, addr, i);
      pg2, k2 := pg, k + 1;
    } else {
      StepToNextPage(block, stateSize, page, pg, addr, i);
      pg2, k2 := pg + 1, 1;
    }
  }

  /** The state at position k < q fits in the current page. */
  lemma StepWithinPage(block: nat, stateSize: nat, page: nat, pg: nat, k: nat, addr: nat, i: nat)
    requires 0 < stateSize <= page && block % page == 0
    requires k < page / stateSize && i == pg * (page / stateSize) + k
    requires addr == block + pg * page + k * stateSize
    ensures PageOffset(addr, page) + stateSize <= page
    ensures addr == SlotAddr(block, i, stateSize, page)
    ensures addr + stateSize == block + pg * page + (k + 1) * stateSize
  {
    var bp := block / page;
    BlockPages(block, page, pg, k * stateSize);
    StayOnPage(bp + pg, stateSize, page, k, addr);
    SlotAddrAt(block, stateSize, page, pg, k, i);
    Arith.MulSucc(k, stateSize);
  }

  /** After the q-th state of a page the loop moves to the next page. */
  lemma StepToNextPage(block: nat, stateSize: nat, page: nat, pg: nat, addr: nat, i: nat)
    requires 0 < stateSize <= page && block % page == 0
    requires i == pg * (page / stateSize) + page / stateSize
    requires addr == block + pg * page + (page / stateSize) * stateSize
    ensures var slot := if PageOffset(addr, page) + stateSize > page then RoundUpToPage(addr, page) else addr;
      && slot == block + (pg + 1) * page
      && addr <= slot
      && PageOffset(slot, page) + stateSize <= page
      && slot == SlotAddr(block, i, stateSize, page)
      && 1 <= page / stateSize && i + 1 == (pg + 1) * (page / stateSize) + 1
  {
    var bp := block / page;
    PerPage(stateSize, page);
    BlockPages(block, page, pg, (page / stateSize) * stateSize);
    NextPage(bp + pg, stateSize, page, addr);
    BlockPages(block, page, pg + 1, 0);
    PageStart(bp + pg + 1, page);
    SlotAddrAt(block, stateSize, page, pg + 1, 0, i);
  }

  /** An offset from a page-aligned block, counted in pages of the whole address space. */
  lemma BlockPages(block: nat, page: nat, pg: nat, off: nat)
    requires page > 0 && block % page == 0
    ensures block + pg * page + off == (block / page + pg) * page + off
  {
    Arith.DivMod(block, page, block / page, 0);
  }

  lemma PageStart(pages: nat, page: nat)
    requires page > 0
    ensures PageOffset(pages * page, page) == 0
  {
    Arith.DivMod(pages * page, page, pages, 0);
  }

  /** Slot i at position k of page pg of the block is the loop's address. */
  lemma SlotAddrAt(block: nat, stateSize: nat, page: nat, pg: nat, k: nat, i: nat)
    requires 0 < stateSize <= page
    requires k < page / stateSize && i == pg * (page / stateSize) + k
    ensures SlotAddr(block, i, stateSize, page) == block + pg * page + k * stateSize
  {
    Arith.DivMod(i, page / stateSize, pg, k);
  }

  /** Position k < q of a page leaves room for a whole state: no skip. */
  lemma StayOnPage(pages: nat, stateSize: nat, page: nat, k: nat, addr: nat)
    requires 0 < stateSize <= page && k < page / stateSize
    requires addr == pages * page + k * stateSize
    ensures PageOffset(addr, page) == k * stateSize
    ensures PageOffset(addr, page) + stateSize <= page
  {
    var q := page / stateSize;
    PerPage(stateSize, page);
    Arith.MulLe(k + 1, q, stateSize);
    Arith.MulSucc(k, stateSize);
    Arith.DivMod(addr, page, pages, k * stateSize);
  }

  /** Past the q-th state the loop lands on the start of the next page,
      whether or not a partial state would still fit. */
  lemma NextPage(pages: nat, stateSize: nat, page: nat, addr: nat)
    requires 0 < stateSize <= page
    requires addr == pages * page + (page / stateSize) * stateSize
    ensures (if PageOffset(addr, page) + stateSize > page then RoundUpToPage(addr, page) else addr)
            == (pages + 1) * page
  {
    var q := page / stateSize;
    PerPage(stateSize, page);
    var off := q * stateSize;
    Arith.MulLe(1, q, stateSize);
    if off < page {
      Arith.DivMod(addr, page, pages, off);
      Arith.DivMod(addr + page - 1, page, pages + 1, off - 1);
    } else {
      Arith.DivMod(addr, page, pages + 1, 0);
    }
  }

  /** The layout loop of `vgetrandom_get_state`: carve `num` states out of
      a page-aligned block, skipping to the next page whenever a state
      would straddle a page boundary. */
  method LayoutStates(block: nat, num: nat, stateSize: nat, page: nat) returns (slots: seq<nat>)
    requires page > 0 && stateSize > 0 && block % page == 0
    requires num > 0 ==> stateSize <= page
    ensures |slots| == num
    ensures forall i :: 0 <= i < num ==> slots[i] == SlotAddr(block, i, stateSize, page)
    ensures forall i :: 0 <= i < num ==> PageOffset(slots[i], page) + stateSize <= page
    ensures forall i :: 0 <= i < num - 1 ==> slots[i] + stateSize <= slots[i + 1]
  {
    slots := [];
    if num == 0 {
      return;
    }
    slots := LayoutLoop(block, num, stateSize, page);
    forall j | 0 <= j < num
      ensures PageOffset(slots[j], page) + stateSize <= page
    {
      SlotOffset(block, j, stateSize, page);
    }
    forall j | 0 <= j < num - 1
      ensures slots[j] + stateSize <= slots[j + 1]
    {
      SlotAddrAdvance(block, j, stateSize, page);
    }
  }

  /** The loop of the layout on its own: slot i is stored at the closed
      form's address. */
  method LayoutLoop(block: nat, num: nat, stateSize: nat, page: nat) returns (slots: seq<nat>)
    requires 0 < stateSize <= page && block % page == 0
    ensures |slots| == num
    ensures forall i :: 0 <= i < num ==> slots[i] == SlotAddr(block, i, stateSize, page)
  {
    slots := [];
    var q := page / stateSize;
    PerPage(stateSize, page);
    var addr := block;
    ghost var pg: nat, k: nat := 0, 0;
    var i := 0;
    while i < num
      invariant 0 <= i <= num && |slots| == i
      invariant k <= q && i == pg * q + k
      invariant addr == block + pg * page + k * stateSize
      invariant forall j :: 0 <= j < i ==> slots[j] == SlotAddr(block, j, stateSize, page)
    {
      pg, k := LayoutStep(block, stateSize, page, pg, k, addr, i);
      if PageOffset(addr, page) + stateSize > page {
        addr := RoundUpToPage(addr, page);
      }
      slots := slots + [addr];
      addr := addr + stateSize;
      i := i + 1;
    }
  }

  /** Consecutive slots do not overlap: the next one follows directly on
      the same page, or starts the next page. */
  lemma SlotAddrAdvance(block: nat, i: nat, stateSize: nat, page: nat)
    requires 0 < stateSize <= page
    ensures SlotAddr(block, i, stateSize, page) + stateSize <= SlotAddr(block, i + 1, stateSize, page)
  {
    var q := page / stateSize;
    PerPage(stateSize, page);
    var t, r := i / q, i % q;
    if r + 1 < q {
      Arith.DivMod(i + 1, q, t, r + 1);
    } else {
      Arith.DivMod(i + 1, q, t + 1, 0);
      FitsInPage(r, q, stateSize, page);
    }
  }

  /** A slot's offset in its page leaves room for a whole state. */
  lemma SlotOffset(block: nat, i: nat, stateSize: nat, page: nat)
    requires 0 < stateSize <= page && block % page == 0
    ensures PageOffset(SlotAddr(block, i, stateSize, page), page) + stateSize <= page
  {
    var q := page / stateSize;
    PerPage(stateSize, page);
    var pg, k := i / q, i % q;
    BlockPages(block, page, pg, k * stateSize);
    StayOnPage(block / page + pg, stateSize, page, k, SlotAddr(block, i, stateSize, page));
  }

  /** Every slot of a block carved into SlotCount states lies inside the mapping. */
  lemma SlotsWithinBlock(block: nat, allocSize: nat, stateSize: nat, page: nat, i: nat)
    requires 0 < stateSize <= page && block % page == 0
    requires i < SlotCount(allocSize, stateSize, page)
    ensures block <= SlotAddr(block, i, stateSize, page)
    ensures SlotAddr(block, i, stateSize, page) + stateSize <= block + allocSize
  {
    var q := page / stateSize;
    PerPage(stateSize, page);
    FitsInPage(i % q, q, stateSize, page);
    Arith.MulLe(0, i / q, page);
    Arith.MulLe(0, i % q, stateSize);
    QuotientBelow(i, q, allocSize / page);
    WholePages(i / q, allocSize, page);
  }

  /** Position r < q of a page holds a whole state when q states fit. */
  lemma FitsInPage(r: nat, q: nat, stateSize: nat, page: nat)
    requires r < q && q * stateSize <= page
    ensures r * stateSize + stateSize <= page
  {
    Arith.MulLe(r + 1, q, stateSize);
  }

  lemma QuotientBelow(i: nat, q: nat, pages: nat)
    requires q >= 1 && i < q * pages
    ensures i / q < pages
  {
    if i / q >= pages {
      Arith.MulLe(pages, i / q, q);
    }
  }

  /** Page t < allocSize / page lies wholly inside the mapping. */
  lemma WholePages(t: nat, allocSize: nat, page: nat)
    requires page > 0 && t < allocSize / page
    ensures t * page + page <= allocSize
  {
    Arith.MulLe(t + 1, allocSize / page, page);
  }

  // ---------------------------------------------------------------------
  // The pool

  /** `vgrnd`: the states array (of `cap` entries) and the number of free
      states at its front. */
  datatype Pool = Pool(states: seq<nat>, len: nat, cap: nat)

  /** A state is an address; address 0 is NULL, which the pool never holds. */
  const Null: nat := 0

  predicate PoolInv(p: Pool) {
    && |p.states| == p.cap && p.len <= p.cap
    && forall j :: 0 <= j < p.len ==> p.states[j] != Null
  }

  /** Every state is either free in the pool or held by a caller. */
  predicate Accounted(p: Pool, held: nat) {
    p.len + held == p.cap
  }

  datatype Option<T> = None | Some(value: T)

  /** Take the most recently stored free state, which is never NULL. */
  function Pop(p: Pool): (r: (Pool, nat))
    requires PoolInv(p) && p.len > 0
    ensures PoolInv(r.0) && r.0.len == p.len - 1 && r.0.cap == p.cap
    ensures r.0.states == p.states && r.1 == p.states[p.len - 1]
    ensures r.1 != Null
  {
    (p.(len := p.len - 1), p.states[p.len - 1])
  }

  /** `vgetrandom_put_state`: NULL is ignored, any other state is stored
      at the top of the free list. */
  function PutState(p: Pool, state: nat): (r: Pool)
    requires PoolInv(p)
    requires state != Null ==> p.len < p.cap
    ensures PoolInv(r)
    ensures state == Null ==> r == p
    ensures state != Null ==> r.len == p.len + 1 && r.cap == p.cap && r.states[p.len] == state
    ensures forall j :: 0 <= j < p.len ==> r.states[j] == p.states[j]
  {
    if state == Null then p
    else p.(states := p.states[p.len := state], len := p.len + 1)
  }

  /** The free list is LIFO: a state put back is the next one handed out,
      and the free states below it are untouched. */
  lemma PutThenPop(p: Pool, s: nat)
    requires PoolInv(p) && p.len < p.cap && s != Null
    ensures var q := Pop(PutState(p, s));
      q.1 == s && q.0.len == p.len && q.0.cap == p.cap && q.0.states[..p.len] == p.states[..p.len]
  {
  }

  /** Putting NULL back changes nothing: the next state handed out is the
      one that was on top before. */
  lemma PutNullThenPop(p: Pool)
    requires PoolInv(p) && p.len > 0
    ensures PutState(p, Null) == p
    ensures Pop(PutState(p, Null)).1 == p.states[p.len - 1]
  {
  }

  /** Callers that return only states they were handed can never overflow
      the states array. */
  lemma PutHeldFits(p: Pool, held: nat, s: nat)
    requires PoolInv(p) && Accounted(p, held) && held > 0 && s != Null
    ensures p.len < p.cap
    ensures Accounted(PutState(p, s), held - 1)
  {
  }

  /** Refill with num == 0 as written: `len` stays 0 and the pop index
      `--len` wraps around in `size_t`. */
  function PopIndexAsWritten(len: nat): nat
    requires len <= Arith.SizeMax
  {
    (len - 1) % (Arith.SizeMax + 1)
  }

  /** A state larger than a page gives zero slots per page, so the refill
      produces none and the pop reads entry SIZE_MAX of the states array. */
  lemma AsWrittenEmptyRefill(stateSize: nat, page: nat, allocSize: nat, cap: nat)
    requires 0 < page < stateSize && cap <= Arith.SizeMax
    ensures SlotCount(allocSize, stateSize, page) == 0
    ensures PopIndexAsWritten(SlotCount(allocSize, stateSize, page)) == Arith.SizeMax
    ensures PopIndexAsWritten(SlotCount(allocSize, stateSize, page)) >= cap
  {
  }

  /** The refill asks mmap for zero bytes exactly when no CPU is online;
      Linux refuses such a mapping, so that refill never reaches the pop. */
  lemma ZeroLengthMapOnlyWithoutCpus(nprocs: nat, stateSize: nat, page: nat)
    requires page > 0 && stateSize > 0
    ensures AllocSize(nprocs, stateSize, page) == 0 <==> nprocs == 0
  {
    AllocSizeIsLeastPageMultiple(nprocs, stateSize, page);
    if nprocs > 0 {
      Arith.MulLe(1, nprocs, stateSize);
    } else {
      var a := AllocSize(nprocs, stateSize, page);
      Arith.DivMod(a, page, 0, a);
    }
  }

  /** `vgetrandom_get_state`. `nprocs` is the online CPU count, `mapped`
      the address mmap returns (None for MAP_FAILED) and `grown` whether
      the states array could be enlarged. Linux's mmap fails with EINVAL
      for a zero length, so a zero allocation size (no online CPU) takes
      the MAP_FAILED path whatever `mapped` says. A mapping never starts
      at address 0, so every state handed out is non-NULL. Unlike the
      source, a refill that yields no slot returns NULL instead of popping
      from an empty list. */
  method GetState(p: Pool, stateSize: nat, page: nat, nprocs: nat, mapped: Option<nat>, grown: bool)
    returns (r: Pool, state: nat)
    requires PoolInv(p) && page > 0 && stateSize > 0
    requires mapped.Some? ==> mapped.value > 0 && mapped.value % page == 0
    ensures PoolInv(r)
    ensures p.len > 0 ==> r == Pop(p).0 && state == Pop(p).1 && state != Null
    ensures p.len == 0 && (mapped.None? || AllocSize(nprocs, stateSize, page) == 0 || !grown) ==>
      r == p && state == Null
    ensures p.len == 0 && mapped.Some? && AllocSize(nprocs, stateSize, page) > 0 && grown ==>
      var num := SlotCount(AllocSize(nprocs, stateSize, page), stateSize, page);
      && r.cap == p.cap + num
      && (num == 0 ==> r.len == 0 && state == Null)
      && (num > 0 ==>
            && stateSize <= page
            && r.len == num - 1
            && state == SlotAddr(mapped.value, num - 1, stateSize, page) && state != Null
            && forall j :: 0 <= j < r.len ==> r.states[j] == SlotAddr(mapped.value, j, stateSize, page))
    ensures forall held: nat :: Accounted(p, held) ==> Accounted(r, if state != Null then held + 1 else held)
  {
    if p.len > 0 {
      var (q, s) := Pop(p);
      return q, s;
    }
    var allocSize := AllocSize(nprocs, stateSize, page);
    var num := SlotCount(allocSize, stateSize, page);
    if mapped.None? || allocSize == 0 || !grown {
      return p, Null;
    }
    if num > 0 {
      PerPage0(stateSize, page, allocSize);
    }
    r := Refill(p, mapped.value, num, stateSize, page);
    if num == 0 {
      return r, Null;
    }
    var (q, s) := Pop(r);
    return q, s;
  }

  /** The refill of an empty pool: the states array grows by `num`
      entries and its front holds the freshly laid out slots. */
  method Refill(p: Pool, block: nat, num: nat, stateSize: nat, page: nat) returns (r: Pool)
    requires PoolInv(p) && p.len == 0
    requires page > 0 && stateSize > 0 && block > 0 && block % page == 0
    requires num > 0 ==> stateSize <= page
    ensures PoolInv(r) && r.len == num && r.cap == p.cap + num
    ensures forall j :: 0 <= j < num ==> r.states[j] == SlotAddr(block, j, stateSize, page)
  {
    var slots := LayoutStates(block, num, stateSize, page);
    var grownStates := p.states + seq(num, _ => 0);
    var states := slots + grownStates[num..];
    assert forall j :: 0 <= j < num ==> states[j] == slots[j];
    forall j | 0 <= j < num
      ensures states[j] != Null
    {
      SlotAddrFromBlock(block, j, stateSize, page);
    }
    r := Pool(states, num, p.cap + num);
  }

  /** No slot lies below the start of its block. */
  lemma SlotAddrFromBlock(block: nat, i: nat, stateSize: nat, page: nat)
    requires 0 < stateSize <= page
    ensures block <= SlotAddr(block, i, stateSize, page)
  {
    var q := page / stateSize;
    Arith.MulLe(0, i / q, page);
    Arith.MulLe(0, i % q, stateSize);
  }

  /** With no slot per page, or no page, the block holds no slot. */
  lemma PerPage0(stateSize: nat, page: nat, allocSize: nat)
    requires page > 0 && stateSize > 0
    requires SlotCount(allocSize, stateSize, page) > 0
    ensures stateSize <= page
  {
  }
}

/** Powers of two and the mask expressions that round addresses. */
module AddressBits {
  function Pow2(n: nat): (p: nat)
    ensures p >= 1
  {
    if n == 0 then 1 else 2 * Pow2(n - 1)
  }

  /** The bitwise conjunction. */
  function And(x: nat, y: nat): nat {
    if x == 0 || y == 0 then 0
    else 2 * And(x / 2, y / 2) + (if x % 2 == 1 && y % 2 == 1 then 1 else 0)
  }

  /** The bitwise complement of a 64-bit value. */
  function Not(x: nat): nat
    requires x < Pow2(64)
  {
    Pow2(64) - 1 - x
  }

  lemma {:induction false} PowMonotone(k: nat, n: nat)
    requires k <= n
    ensures Pow2(k) <= Pow2(n)
  {
    if k < n { PowMonotone(k, n - 1); }
  }

  /** The least multiple of the alignment that is not below x. */
  function RoundUp(x: nat, alignment: nat): nat
    requires alignment >= 1
  {
    (x + alignment - 1) / alignment * alignment
  }

  lemma MulCancel(p: int, q: int, a: int)
    requires a > 0 && p * a < q * a
    ensures p < q
  {
    assert p >= q ==> (p - q) * a >= 0;
  }

  lemma DivUnique(x: int, d: int, q: int)
    requires d > 0 && q * d <= x < q * d + d
    ensures x / d == q
  {
    var r := x / d;
    DivBounds(x, d);
    MulCancel(r, q + 1, d);
    MulCancel(q, r + 1, d);
  }

  lemma DivBounds(x: int, d: int)
    requires d > 0
    ensures x / d * d <= x < x / d * d + d
  {
  }

  lemma DivTwice(x: nat, p: nat)
    requires p >= 1
    ensures x / 2 / p * p * 2 == x / (2 * p) * (2 * p)
  {
    var q := x / 2 / p;
    DivBounds(x / 2, p);
    assert q * (2 * p) == 2 * (q * p);
    DivUnique(x, 2 * p, q);
  }

  lemma {:induction false} AndOnes(x: nat, n: nat)
    requires x < Pow2(n)
    ensures And(x, Pow2(n) - 1) == x
    decreases n
  {
    hide And;
    if n > 0 {
      AndOnes(x / 2, n - 1);
      AndOdd(x, Pow2(n - 1) - 1);
    } else {
      AndNothing(x);
    }
  }

  /** A mask of leading ones clears the k lowest bits. */
  lemma {:induction false} AndMask(x: nat, k: nat, n: nat)
    requires k <= n && x < Pow2(n)
    ensures Pow2(n) >= Pow2(k)
    ensures And(x, Pow2(n) - Pow2(k)) == x / Pow2(k) * Pow2(k)
    decreases k
  {
    hide And, Pow2;
    PowMonotone(k, n);
    if k == 0 {
      PowTwice(0);
      AndOnes(x, n);
    } else {
      PowTwice(k);
      PowTwice(n);
      PowMonotone(k - 1, n - 1);
      AndMask(x / 2, k - 1, n - 1);
      MaskStep(x, Pow2(n - 1) - Pow2(k - 1), Pow2(k - 1));
    }
  }

  lemma PowTwice(k: nat)
    ensures Pow2(k) == if k == 0 then 1 else 2 * Pow2(k - 1)
  {
  }

  lemma MaskStep(x: nat, y: nat, p: nat)
    requires p >= 1 && And(x / 2, y) == x / 2 / p * p
    ensures And(x, 2 * y) == x / (2 * p) * (2 * p)
  {
    hide And;
    AndEven(x, y);
    DivTwice(x, p);
  }

  lemma AndNothing(x: nat)
    ensures And(x, 0) == 0
  {
  }

  lemma AndOdd(x: nat, y: nat)
    ensures And(x, 2 * y + 1) == 2 * And(x / 2, y) + x % 2
  {
  }

  lemma AndEven(x: nat, y: nat)
    ensures And(x, 2 * y) == 2 * And(x / 2, y)
  {
    Doubled(y);
    if x != 0 && y != 0 {
      assert And(x, 2 * y) == 2 * And(x / 2, y);
    }
  }

  lemma Doubled(y: nat)
    ensures 2 * y / 2 == y && 2 * y % 2 == 0
  {
  }

  /** (x + (alignment - 1)) & ~(alignment - 1) */
  function MaskedUp(x: nat, alignment: nat): nat
    requires 1 <= alignment <= Pow2(64)
  {
    And(x + (alignment - 1), Not(alignment - 1))
  }

  /** For every power of two, and a sum that does not wrap around, the mask expression
      is the least multiple of the alignment that is not below x. */
  lemma MaskRoundsUp(x: nat, k: nat)
    requires k <= 64 && x + Pow2(k) <= Pow2(64)
    ensures MaskedUp(x, Pow2(k)) == RoundUp(x, Pow2(k))
    ensures var r := MaskedUp(x, Pow2(k));
      && r % Pow2(k) == 0 && x <= r < x + Pow2(k)
      && forall m: nat :: m % Pow2(k) == 0 && m >= x ==> r <= m
  {
    hide And, Pow2;
    PowMonotone(k, 64);
    AndMask(x + (Pow2(k) - 1), k, 64);
    RoundsUp(x, Pow2(k));
  }

  lemma RoundsUp(x: nat, a: nat)
    requires a >= 1
    ensures var r := RoundUp(x, a);
      && r % a == 0 && x <= r < x + a
      && forall m: nat :: m % a == 0 && m >= x ==> r <= m
  {
    var q := (x + a - 1) / a;
    DivBounds(x + a - 1, a);
    MultipleRemainder(q, a);
    forall m: nat | m % a == 0 && m >= x ensures RoundUp(x, a) <= m {
      LeastMultiple(q, m, x, a);
    }
  }

  /** And the only multiple so close behind x. */
  lemma RoundUpIs(x: nat, a: nat, r: nat)
    requires a >= 1 && r % a == 0 && x <= r < x + a
    ensures RoundUp(x, a) == r
  {
    hide RoundUp;
    RoundsUp(x, a);
    var s := RoundUp(x, a);
    DivExact(r, a);
    DivExact(s, a);
    Succ(s / a, a);
    MulCancel(r / a, s / a + 1, a);
    if s / a > r / a { Ordered(r / a + 1, s / a, a); Succ(r / a, a); }
  }

  lemma MultipleRemainder(q: int, a: int)
    requires a >= 1
    ensures q * a % a == 0
  {
    DivUnique(q * a, a, q);
  }

  lemma DivExact(m: int, a: int)
    requires a > 0 && m % a == 0
    ensures m == m / a * a
  {
  }

  lemma Succ(n: int, a: int)
    ensures (n + 1) * a == n * a + a
  {
  }

  lemma Ordered(p: int, q: int, a: int)
    requires a > 0 && p <= q
    ensures p * a <= q * a
  {
    assert (q - p) * a >= 0;
  }

  lemma LeastMultiple(q: int, m: int, x: int, a: int)
    requires a >= 1 && m % a == 0 && m >= x && q * a < x + a
    ensures q * a <= m
  {
    var n := m / a;
    DivExact(m, a);
    Succ(n, a);
    MulCancel(q, n + 1, a);
    if q < n {
      Ordered(q, n, a);
    }
  }
}

/** The search for free address space in the memory map of the kernel. */
module AddressSpace {
  import opened Basics
  import opened AddressBits

  /** What QueryMemory() reports; kind zero is unmapped memory. */
  datatype MemoryInfo = MemoryInfo(address: nat, size: nat, kind: nat) {
    function End(): nat { address + size }
  }

  /** The kernel's map: nonempty blocks, each beginning where the one before ends. */
  predicate Tiles(blocks: seq<MemoryInfo>) {
    && blocks != []
    && (forall i :: 0 <= i < |blocks| ==> blocks[i].size > 0)
    && (forall i {:trigger blocks[i].End()} :: 0 <= i < |blocks| - 1 ==> blocks[i].End() == blocks[i + 1].address)
  }

  predicate Covers(blocks: seq<MemoryInfo>, start: nat, end: nat) {
    Tiles(blocks) && blocks[0].address <= start && end <= blocks[|blocks| - 1].End()
  }

  /** QueryMemory(): the block that contains the address. */
  function QueryMemory(blocks: seq<MemoryInfo>, address: nat): (b: MemoryInfo)
    requires Covers(blocks, address, address + 1)
    ensures b in blocks && b.address <= address < b.End()
    decreases |blocks|
  {
    if address < blocks[0].End() then blocks[0]
    else
      assert |blocks| > 1 && blocks[0].End() == blocks[1].address;
      TailTiles(blocks);
      QueryMemory(blocks[1..], address)
  }

  lemma TailTiles(blocks: seq<MemoryInfo>)
    requires Tiles(blocks) && |blocks| > 1
    ensures Tiles(blocks[1..])
  {
    var t := blocks[1..];
    forall i | 0 <= i < |t| - 1 ensures t[i].End() == t[i + 1].address {
      assert t[i] == blocks[i + 1];
      assert blocks[i + 1].End() == blocks[i + 2].address;
    }
  }

  lemma {:induction false} InOrder(blocks: seq<MemoryInfo>, i: nat, j: nat)
    requires Tiles(blocks) && i < j < |blocks|
    ensures blocks[i].End() <= blocks[j].address
  {
    if i + 1 < j {
      InOrder(blocks, i, j - 1);
      assert blocks[j - 1].End() == blocks[j].address;
    } else {
      assert blocks[i].End() == blocks[i + 1].address;
    }
  }

  /** Two blocks of a map are the same or do not overlap. */
  lemma Apart(blocks: seq<MemoryInfo>, a: MemoryInfo, b: MemoryInfo)
    requires Tiles(blocks) && a in blocks && b in blocks
    ensures a == b || a.End() <= b.address || b.End() <= a.address
  {
    var i :| 0 <= i < |blocks| && blocks[i] == a;
    var j :| 0 <= j < |blocks| && blocks[j] == b;
    if i < j { InOrder(blocks, i, j); } else if j < i { InOrder(blocks, j, i); }
  }

  /** An allocator's range and guard, and one request with its size rounded to pages. */
  datatype Request = Request(start: nat, end: nat, guard: nat, size: nat, alignment: nat)

  predicate Inside(q: Request, address: nat) {
    q.start <= address < q.end
  }

  predicate Suits(q: Request, b: MemoryInfo) {
    b.kind == 0 && q.size <= b.size
  }

  /** Where the search looks next: a guard further, and aligned. */
  function Candidate(q: Request, address: nat): (c: nat)
    requires q.alignment >= 1
    ensures address + q.guard <= c < address + q.guard + q.alignment && c % q.alignment == 0
  {
    RoundsUp(address + q.guard, q.alignment);
    RoundUp(address + q.guard, q.alignment)
  }

  /** One pass: the first candidate in a block that suits, going from block to block. */
  function FirstFit(q: Request, blocks: seq<MemoryInfo>, address: nat): (r: Option<nat>)
    requires Covers(blocks, q.start, q.end) && q.alignment >= 1
    ensures r.Some? ==> Inside(q, r.value)
    decreases q.end - address
  {
    var c := Candidate(q, address);
    if !Inside(q, c) then None
    else
      var b := QueryMemory(blocks, c);
      if Suits(q, b) then Some(c) else FirstFit(q, blocks, b.End())
  }

  /** Both passes. */
  function Search(q: Request, blocks: seq<MemoryInfo>, next: nat): Option<nat>
    requires Covers(blocks, q.start, q.end) && q.alignment >= 1
  {
    var r := FirstFit(q, blocks, next);
    if r.Some? then r else FirstFit(q, blocks, q.start)
  }

  /** What was found is aligned, inside the range, at least a guard beyond the origin
      of the pass, and in a free block no shorter than the size. */
  predicate Sound(q: Request, blocks: seq<MemoryInfo>, origin: nat, c: nat)
    requires Covers(blocks, q.start, q.end) && q.alignment >= 1
  {
    && c % q.alignment == 0 && Inside(q, c) && c >= origin + q.guard
    && var b := QueryMemory(blocks, c); b.kind == 0 && b.size >= q.size
  }

  lemma {:induction false} FirstFitSound(q: Request, blocks: seq<MemoryInfo>, address: nat)
    requires Covers(blocks, q.start, q.end) && q.alignment >= 1
    ensures FirstFit(q, blocks, address).Some? ==> Sound(q, blocks, address, FirstFit(q, blocks, address).value)
    decreases q.end - address
  {
    var c := Candidate(q, address);
    if Inside(q, c) && !Suits(q, QueryMemory(blocks, c)) {
      FirstFitSound(q, blocks, QueryMemory(blocks, c).End());
    }
  }

  /** A free block that is long enough for the size, and for a guard and the alignment,
      all of it inside the range. */
  predicate Ample(q: Request, b: MemoryInfo) {
    && b.kind == 0 && b.size >= q.size && b.size >= q.guard + q.alignment
    && b.address >= q.start && b.address + q.guard + q.alignment <= q.end
  }

  /** A pass that begins at or before such a block cannot step over it. */
  lemma {:induction false} FirstFitComplete(q: Request, blocks: seq<MemoryInfo>, address: nat, b: MemoryInfo)
    requires Covers(blocks, q.start, q.end) && q.alignment >= 1
    requires b in blocks && Ample(q, b) && q.start <= address <= b.address
    ensures FirstFit(q, blocks, address).Some?
    decreases q.end - address
  {
    var c := Candidate(q, address);
    var a := QueryMemory(blocks, c);
    Apart(blocks, a, b);
    if !Suits(q, a) {
      FirstFitComplete(q, blocks, a.End(), b);
    }
  }

  /** The search fails only if there is no such block anywhere in the range. */
  lemma SearchComplete(q: Request, blocks: seq<MemoryInfo>, next: nat)
    requires Covers(blocks, q.start, q.end) && q.alignment >= 1
    ensures Search(q, blocks, next).None? ==> forall b :: b in blocks ==> !Ample(q, b)
  {
    forall b | b in blocks && Ample(q, b) ensures Search(q, blocks, next).Some? {
      FirstFitComplete(q, blocks, q.start, b);
    }
  }

  // ---- Histories

  const PAGE_SIZE := 0x1000

  /** One call: what was asked for, and the kernel's map at the time. */
  datatype Call = Call(size: nat, alignment: nat, blocks: seq<MemoryInfo>)

  /** The fields of an allocator. */
  datatype Allocator = Allocator(start: nat, end: nat, guard: nat, next: nat)

  predicate Callable(a: Allocator, call: Call) {
    call.alignment >= 1 && Covers(call.blocks, a.start, a.end)
  }

  function RequestOf(a: Allocator, call: Call): Request {
    Request(a.start, a.end, a.guard, RoundUp(call.size, PAGE_SIZE), call.alignment)
  }

  /** The origin of the first pass: a position outside the range is given up. */
  function Origin(a: Allocator): nat {
    if a.start <= a.next < a.end then a.next else a.start
  }

  function Found(a: Allocator, call: Call): Option<nat>
    requires Callable(a, call)
  {
    Search(RequestOf(a, call), call.blocks, Origin(a))
  }

  /** A call that does not go back to the start of the range: neither because the
      position lies outside, nor to find its place in the second pass. */
  predicate Steady(a: Allocator, call: Call)
    requires Callable(a, call)
  {
    && Origin(a) == a.next
    && (Found(a, call).Some? ==> FirstFit(RequestOf(a, call), call.blocks, a.next).Some?)
  }

  function After(a: Allocator, call: Call): (r: Allocator)
    requires Callable(a, call)
    ensures r.start == a.start && r.end == a.end && r.guard == a.guard
  {
    a.(next := match Found(a, call) case Some(c) => c + RoundUp(call.size, PAGE_SIZE) case None => Origin(a))
  }

  predicate AllCallable(a: Allocator, calls: seq<Call>) {
    forall i :: 0 <= i < |calls| ==> Callable(a, calls[i])
  }

  /** The allocator in front of call number i of a history. */
  function At(a: Allocator, calls: seq<Call>, i: nat): (r: Allocator)
    requires AllCallable(a, calls) && i <= |calls|
    ensures r.start == a.start && r.end == a.end && r.guard == a.guard
  {
    if i == 0 then a else After(At(a, calls, i - 1), calls[i - 1])
  }

  function Place(a: Allocator, calls: seq<Call>, i: nat): Option<nat>
    requires AllCallable(a, calls) && i < |calls|
  {
    Found(At(a, calls, i), calls[i])
  }

  predicate SteadyBetween(a: Allocator, calls: seq<Call>, i: nat, j: nat)
    requires AllCallable(a, calls) && j < |calls|
  {
    forall m :: i < m <= j ==> Steady(At(a, calls, m), calls[m])
  }

  lemma SteadyAdvances(a: Allocator, call: Call)
    requires Callable(a, call) && Steady(a, call)
    ensures After(a, call).next >= a.next
    ensures Found(a, call).Some? ==> Found(a, call).value >= a.next + a.guard
  {
    FirstFitSound(RequestOf(a, call), call.blocks, a.next);
  }

  lemma {:induction false} PositionKept(a: Allocator, calls: seq<Call>, i: nat, j: nat)
    requires AllCallable(a, calls) && i < j < |calls| && SteadyBetween(a, calls, i, j)
    requires Place(a, calls, i).Some?
    ensures At(a, calls, j).next >= Place(a, calls, i).value + RoundUp(calls[i].size, PAGE_SIZE)
    decreases j
  {
    hide Search, RoundUp, Covers, Steady;
    if i < j - 1 {
      PositionKept(a, calls, i, j - 1);
      SteadyAdvances(At(a, calls, j - 1), calls[j - 1]);
    }
  }

  /** Over every history of calls, whatever the kernel's map at each of them: a range
      reserved later lies behind every range reserved earlier, a guard apart, as long
      as no call in between went back to the start. */
  lemma HistorySeparated(a: Allocator, calls: seq<Call>, i: nat, j: nat)
    requires AllCallable(a, calls) && i < j < |calls| && SteadyBetween(a, calls, i, j)
    requires Place(a, calls, i).Some? && Place(a, calls, j).Some?
    ensures Place(a, calls, j).value >= Place(a, calls, i).value + RoundUp(calls[i].size, PAGE_SIZE) + a.guard
  {
    PositionKept(a, calls, i, j);
    SteadyAdvances(At(a, calls, j), calls[j]);
  }

  // ---- Where exactly a range goes

  /** r is x rounded up to a multiple of the alignment. */
  predicate Rounded(x: nat, alignment: nat, r: nat)
    requires alignment >= 1
  {
    r % alignment == 0 && x <= r < x + alignment
  }

  /** The address at which a call looks first: behind the allocator's position, or the
      start of the range if that lies outside, a guard further and aligned. */
  predicate LooksAt(a: Allocator, call: Call, p: nat)
    requires call.alignment >= 1
  {
    Rounded((if a.start <= a.next < a.end then a.next else a.start) + a.guard, call.alignment, p)
  }

  /** A free block long enough for the request in whole pages. */
  predicate Serves(b: MemoryInfo, size: nat) {
    b.kind == 0 && exists n: nat :: Rounded(size, 0x1000, n) && n <= b.size
  }

  lemma ServesSuits(a: Allocator, call: Call, b: MemoryInfo)
    requires Callable(a, call)
    ensures Serves(b, call.size) <==> Suits(RequestOf(a, call), b)
  {
    hide RoundUp;
    RoundsUp(call.size, PAGE_SIZE);
    assert Rounded(call.size, 0x1000, RoundUp(call.size, PAGE_SIZE));
    if Serves(b, call.size) {
      var n: nat :| Rounded(call.size, 0x1000, n) && n <= b.size;
      RoundUpIs(call.size, PAGE_SIZE, n);
    }
  }

  lemma LooksAtCandidate(a: Allocator, call: Call, p: nat)
    requires Callable(a, call) && LooksAt(a, call, p)
    ensures Candidate(RequestOf(a, call), Origin(a)) == p
  {
    RoundUpIs(Origin(a) + a.guard, call.alignment, p);
  }

  lemma OnlyBlock(a: Allocator, call: Call, p: nat, b: MemoryInfo)
    requires Callable(a, call) && a.start <= p < a.end && b in call.blocks && b.address <= p < b.End()
    ensures QueryMemory(call.blocks, p) == b
  {
    Apart(call.blocks, QueryMemory(call.blocks, p), b);
  }

  /** If the address a call looks at lies in a block that serves, it is the result; if the
      block does not serve, the result is that of the same call from the block's end. */
  lemma PlaceHere(a: Allocator, call: Call, p: nat, b: MemoryInfo)
    requires Callable(a, call) && LooksAt(a, call, p) && a.start <= p < a.end
    requires b in call.blocks && b.address <= p < b.End()
    ensures Serves(b, call.size) ==> Found(a, call) == Some(p)
    ensures !Serves(b, call.size) && b.End() < a.end ==> Found(a, call) == Found(a.(next := b.End()), call)
  {
    hide RoundUp, Candidate, Serves;
    LooksAtCandidate(a, call, p);
    OnlyBlock(a, call, p, b);
    ServesSuits(a, call, b);
  }

  /** If the address is beyond the range, the result is that of the same call from the
      start; and null if the call looked there already. */
  lemma PlaceFromStart(a: Allocator, call: Call, p: nat)
    requires Callable(a, call) && LooksAt(a, call, p) && p >= a.end
    ensures Found(a, call) == Found(a.(next := a.start), call)
    ensures a.next == a.start || !(a.start <= a.next < a.end) ==> Found(a, call).None?
  {
    hide RoundUp, Candidate;
    LooksAtCandidate(a, call, p);
  }

  /** Ranges are packed: the next call is given the least multiple of its alignment that is
      not below the end of the range before, in whole pages, plus a guard, if that address
      is inside and lies in a block that serves. */
  lemma NextRangeFollows(a: Allocator, calls: seq<Call>, i: nat, n: nat, p: nat, b: MemoryInfo)
    requires AllCallable(a, calls) && i + 1 < |calls| && Place(a, calls, i).Some?
    requires Rounded(calls[i].size, 0x1000, n)
    requires Rounded(Place(a, calls, i).value + n + a.guard, calls[i + 1].alignment, p) && p < a.end
    requires b in calls[i + 1].blocks && b.address <= p < b.End() && Serves(b, calls[i + 1].size)
    ensures Place(a, calls, i + 1) == Some(p)
  {
    hide Found, Serves;
    var before := At(a, calls, i);
    FoundInside(before, calls[i]);
    RoundUpIs(calls[i].size, PAGE_SIZE, n);
    PlaceHere(After(before, calls[i]), calls[i + 1], p, b);
  }

  lemma FoundInside(a: Allocator, call: Call)
    requires Callable(a, call)
    ensures Found(a, call).Some? ==> a.start <= Found(a, call).value < a.end
  {
  }

  // ---- Ranges and their blocks

  /** The range reserved lies inside the free block it begins in. */
  predicate InBlock(a: Allocator, call: Call)
    requires Callable(a, call)
  {
    match Found(a, call)
    case None => true
    case Some(c) => c + RequestOf(a, call).size <= QueryMemory(call.blocks, c).End()
  }

  predicate Lands(q: Request, blocks: seq<MemoryInfo>, p: nat)
    requires Covers(blocks, q.start, q.end) && q.alignment >= 1
  {
    Inside(q, Candidate(q, p)) && Suits(q, QueryMemory(blocks, Candidate(q, p)))
  }

  /** If the candidate behind a position lies in a block that suits, what is left of the
      block from there on is enough. */
  predicate Roomy(q: Request, blocks: seq<MemoryInfo>, p: nat)
    requires Covers(blocks, q.start, q.end) && q.alignment >= 1
  {
    Lands(q, blocks, p) ==> Candidate(q, p) + q.size <= QueryMemory(blocks, Candidate(q, p)).End()
  }

  predicate Boundary(blocks: seq<MemoryInfo>, p: nat) {
    exists b :: b in blocks && b.address == p
  }

  /** Where a pass can begin or go on: at the start of the range, at the allocator's own
      position, or where a block begins. */
  predicate Position(a: Allocator, blocks: seq<MemoryInfo>, p: nat) {
    a.start <= p < a.end && (p == a.start || p == a.next || Boundary(blocks, p))
  }

  lemma CandidateMonotone(q: Request, p: nat, r: nat)
    requires q.alignment >= 1 && p <= r
    ensures Candidate(q, p) <= Candidate(q, r)
  {
    hide RoundUp;
    RoundsUp(p + q.guard, q.alignment);
  }

  /** A block ends where the next one begins, unless it is the last. */
  lemma EndIsBoundary(blocks: seq<MemoryInfo>, b: MemoryInfo, end: nat)
    requires Tiles(blocks) && b in blocks && b.End() < end <= blocks[|blocks| - 1].End()
    ensures Boundary(blocks, b.End())
  {
    var i :| 0 <= i < |blocks| && blocks[i] == b;
    assert i < |blocks| - 1 ==> blocks[i].End() == blocks[i + 1].address;
  }

  /** A pass finds the candidate of some position at which it began or went on. */
  lemma {:induction false} FoundFrom(q: Request, blocks: seq<MemoryInfo>, origin: nat) returns (p: nat)
    requires Covers(blocks, q.start, q.end) && q.alignment >= 1 && q.start <= origin
    requires FirstFit(q, blocks, origin).Some?
    ensures origin <= p < q.end && (p == origin || Boundary(blocks, p)) && Lands(q, blocks, p)
    ensures FirstFit(q, blocks, origin) == Some(Candidate(q, p))
    decreases q.end - origin
  {
    p := origin;
    if !Lands(q, blocks, origin) {
      var b := QueryMemory(blocks, Candidate(q, origin));
      p := FoundFrom(q, blocks, b.End());
      if p == b.End() { EndIsBoundary(blocks, b, q.end); }
    }
  }

  lemma FoundSomewhere(a: Allocator, call: Call) returns (p: nat)
    requires Callable(a, call) && Found(a, call).Some?
    ensures Position(a, call.blocks, p) && Lands(RequestOf(a, call), call.blocks, p)
    ensures Found(a, call) == Some(Candidate(RequestOf(a, call), p))
  {
    hide FirstFit, Candidate, RoundUp, Lands;
    var q := RequestOf(a, call);
    if FirstFit(q, call.blocks, Origin(a)).Some? {
      p := FoundFrom(q, call.blocks, Origin(a));
    } else {
      p := FoundFrom(q, call.blocks, a.start);
    }
  }

  /** The call at hand: with room behind every position it stays inside its block; and if
      the candidate behind its own position suits, exactly if there is room there. */
  lemma RangeStaysInBlock(a: Allocator, call: Call)
    requires Callable(a, call)
    ensures (forall p :: Position(a, call.blocks, p) ==> Roomy(RequestOf(a, call), call.blocks, p)) ==> InBlock(a, call)
    ensures Lands(RequestOf(a, call), call.blocks, Origin(a)) ==>
      (InBlock(a, call) <==> Roomy(RequestOf(a, call), call.blocks, Origin(a)))
  {
    hide Candidate, RoundUp;
    if Found(a, call).Some? {
      var p := FoundSomewhere(a, call);
    }
  }

  /** Which maps and requests are safe: from every position the range reserved stays
      inside its free block, if and only if the candidate behind every position leaves
      room for the size. The condition looks at one candidate for each block and does
      not search. */
  lemma RangesStayInBlocks(a: Allocator, call: Call)
    requires Callable(a, call)
    ensures
      (forall p :: Position(a, call.blocks, p) ==> InBlock(a.(next := p), call))
      <==> (forall p :: Position(a, call.blocks, p) ==> Roomy(RequestOf(a, call), call.blocks, p))
  {
    hide InBlock, Roomy, Lands, Candidate, RoundUp;
    var q := RequestOf(a, call);
    forall p | Position(a, call.blocks, p)
      ensures (forall r :: Position(a, call.blocks, r) ==> Roomy(q, call.blocks, r)) ==> InBlock(a.(next := p), call)
      ensures InBlock(a.(next := p), call) ==> Roomy(q, call.blocks, p)
    {
      RangeStaysInBlock(a.(next := p), call);
      RoomyOrNot(q, call.blocks, p);
      PositionsShrink(a, call.blocks, p);
    }
  }

  lemma RoomyOrNot(q: Request, blocks: seq<MemoryInfo>, p: nat)
    requires Covers(blocks, q.start, q.end) && q.alignment >= 1
    ensures Lands(q, blocks, p) || Roomy(q, blocks, p)
  {
  }

  lemma PositionsShrink(a: Allocator, blocks: seq<MemoryInfo>, p: nat)
    requires Position(a, blocks, p)
    ensures forall r :: Position(a.(next := p), blocks, r) ==> Position(a, blocks, r)
  {
  }

  /** Block by block: enough room behind the origin, or behind the block's beginning if
      that is later, in every block ahead that suits. */
  predicate RoomAhead(q: Request, blocks: seq<MemoryInfo>, origin: nat)
    requires q.alignment >= 1
  {
    forall b :: b in blocks && Suits(q, b) && origin < b.End() ==>
      Candidate(q, if b.address <= origin then origin else b.address) + q.size <= b.End()
  }

  /** Then a pass from the origin stays inside the block where it lands. */
  lemma PassStaysInBlock(q: Request, blocks: seq<MemoryInfo>, origin: nat)
    requires Covers(blocks, q.start, q.end) && q.alignment >= 1 && q.start <= origin
    requires RoomAhead(q, blocks, origin) && FirstFit(q, blocks, origin).Some?
    ensures var c := FirstFit(q, blocks, origin).value;
      Inside(q, c) && c + q.size <= QueryMemory(blocks, c).End()
  {
    hide FirstFit, RoundUp;
    var p := FoundFrom(q, blocks, origin);
    var b := QueryMemory(blocks, Candidate(q, p));
    if p != origin {
      var d :| d in blocks && d.address == p;
      Apart(blocks, d, b);
    }
    CandidateMonotone(q, p, if b.address <= origin then origin else b.address);
  }

  /** And a pass that begins where a block that suits does, with its candidate inside
      that block and the range, reserves a range in the block if and only if there is
      room for it. */
  lemma BlockEntered(q: Request, blocks: seq<MemoryInfo>, b: MemoryInfo)
    requires Covers(blocks, q.start, q.end) && q.alignment >= 1 && b in blocks && Suits(q, b)
    requires Inside(q, Candidate(q, b.address)) && Candidate(q, b.address) < b.End()
    ensures var r := FirstFit(q, blocks, b.address);
      && r == Some(Candidate(q, b.address)) && QueryMemory(blocks, r.value) == b
      && (r.value + q.size <= QueryMemory(blocks, r.value).End() <==> Candidate(q, b.address) + q.size <= b.End())
  {
    hide RoundUp;
    Apart(blocks, QueryMemory(blocks, Candidate(q, b.address)), b);
  }

  /** The same for both passes of a call. */
  lemma CallStaysInBlock(a: Allocator, call: Call)
    requires Callable(a, call)
    requires RoomAhead(RequestOf(a, call), call.blocks, Origin(a))
    requires RoomAhead(RequestOf(a, call), call.blocks, a.start)
    ensures InBlock(a, call)
  {
    hide FirstFit, Candidate, RoundUp, RoomAhead;
    var q := RequestOf(a, call);
    if FirstFit(q, call.blocks, Origin(a)).Some? {
      PassStaysInBlock(q, call.blocks, Origin(a));
    } else if FirstFit(q, call.blocks, a.start).Some? {
      PassStaysInBlock(q, call.blocks, a.start);
    }
  }

  /** The condition can fail: the size is compared with the whole block, not with what is
      left of it from the candidate on. */
  lemma RangeCanLeaveBlock()
    ensures
      var blocks := [MemoryInfo(0, 0x4000, 0), MemoryInfo(0x4000, 0x4000, 1)];
      var a, call := Allocator(0, 0x8000, 0x1000, 0), Call(0x4000, 0x1000, blocks);
      && Callable(a, call) && Found(a, call) == Some(0x1000)
      && !InBlock(a, call) && !Roomy(RequestOf(a, call), blocks, a.next)
  {
    hide RoundUp;
    var blocks := [MemoryInfo(0, 0x4000, 0), MemoryInfo(0x4000, 0x4000, 1)];
    var q := Request(0, 0x8000, 0x1000, 0x4000, 0x1000);
    FourPages();
    assert blocks[0].End() == blocks[1].address;
    assert Candidate(q, 0) == 0x1000;
    assert QueryMemory(blocks, 0x1000) == blocks[0];
  }

  lemma FourPages()
    ensures RoundUp(0x4000, PAGE_SIZE) == 0x4000
  {
  }

  // ---- Ranges given out twice

  /** The same request once more, on an unchanged map and from any position: the same
      range is given out again if and only if the search goes back to the start (the
      position behind the range lies outside, or nothing is found from there on) and the
      range is the first to be found from there; or if both size and guard are zero, when
      there is nothing to keep apart. */
  lemma RepeatedCall(a: Allocator, call: Call)
    requires Callable(a, call) && Found(a, call).Some?
    ensures
      var b, q := After(a, call), RequestOf(a, call);
      Found(b, call) == Found(a, call)
      <==> (|| (q.size == 0 && q.guard == 0)
            || (&& (Origin(b) != b.next || FirstFit(q, call.blocks, b.next).None?)
                && FirstFit(q, call.blocks, a.start) == Found(a, call)))
  {
    hide RoundUp;
    var b, q := After(a, call), RequestOf(a, call);
    var c := Found(a, call).value;
    FirstFitSound(q, call.blocks, Origin(a));
    FirstFitSound(q, call.blocks, a.start);
    FirstFitSound(q, call.blocks, b.next);
    if q.size == 0 && q.guard == 0 {
      CandidateHere(q, c);
    }
  }

  /** From the start, where the first range found is the one given out, the position
      behind it decides alone. */
  lemma RepeatedFromStart(a: Allocator, call: Call)
    requires Callable(a, call) && Origin(a) == a.start && Found(a, call).Some?
    ensures
      var b, q := After(a, call), RequestOf(a, call);
      Found(b, call) == Found(a, call)
      <==> (|| (q.size == 0 && q.guard == 0)
            || Origin(b) != b.next
            || FirstFit(q, call.blocks, b.next).None?)
  {
    hide FirstFit;
    RepeatedCall(a, call);
  }

  lemma CandidateHere(q: Request, c: nat)
    requires q.alignment >= 1 && q.guard == 0 && c % q.alignment == 0
    ensures Candidate(q, c) == c
  {
    RoundsUp(c, q.alignment);
  }

  /** From any position: a range that is given out again, or overlaps or touches one given
      out before it, means that some call in between went back to the start. */
  lemma OverlapMeansReturn(a: Allocator, calls: seq<Call>, i: nat, j: nat)
    requires AllCallable(a, calls) && i < j < |calls|
    requires Place(a, calls, i).Some? && Place(a, calls, j).Some?
    requires Place(a, calls, j).value < Place(a, calls, i).value + RoundUp(calls[i].size, PAGE_SIZE) + a.guard
    ensures exists m :: i < m <= j && !Steady(At(a, calls, m), calls[m])
  {
    hide Steady, RoundUp, Found;
    if SteadyBetween(a, calls, i, j) {
      HistorySeparated(a, calls, i, j);
    }
  }

  /** It does happen: with one block of four pages the second call starts over. */
  lemma WrapRepeats()
    ensures
      var blocks := [MemoryInfo(0, 0x4000, 0)];
      var a := Allocator(0x1000, 0x4000, 0x1000, 0x1000);
      var calls := [Call(0x2000, 0x1000, blocks), Call(0x2000, 0x1000, blocks)];
      && AllCallable(a, calls)
      && Place(a, calls, 0) == Some(0x2000) && Place(a, calls, 1) == Some(0x2000)
  {
    var blocks := [MemoryInfo(0, 0x4000, 0)];
    var a := Allocator(0x1000, 0x4000, 0x1000, 0x1000);
    var calls := [Call(0x2000, 0x1000, blocks), Call(0x2000, 0x1000, blocks)];
    assert RoundUp(0x2000, PAGE_SIZE) == 0x2000;
    assert At(a, calls, 1) == After(a, calls[0]);
  }
}

/** The allocator itself. */
module VirtualMemory {
  import opened Basics
  import opened AddressBits
  import opened AddressSpace

  class VirtualMemoryAllocator {
    const address_space_start: nat
    const address_space_end: nat
    const guard_page_size: nat
    var next_availaible_address: nat

    constructor (address_space_start: nat, address_space_end: nat, guard_page_size: nat)
      ensures State() == Allocator(address_space_start, address_space_end, guard_page_size, address_space_start)
    {
      this.address_space_start := address_space_start;
      this.address_space_end := address_space_end;
      this.guard_page_size := guard_page_size;
      next_availaible_address := address_space_start;
    }

    function State(): Allocator
      reads this
    {
      Allocator(address_space_start, address_space_end, guard_page_size, next_availaible_address)
    }

    static predicate InsideAddressRange(start_address: nat, end_address: nat, target_address: nat) {
      target_address >= start_address && target_address < end_address
    }

    /** No sum of the search exceeds an address. */
    ghost predicate Fits64(size: nat, alignement: nat, blocks: seq<MemoryInfo>) {
      && size + PAGE_SIZE <= Pow2(64)
      && address_space_start + guard_page_size + alignement <= Pow2(64)
      && address_space_end + guard_page_size + alignement <= Pow2(64)
      && forall b :: b in blocks && b.address < address_space_end ==>
           && b.End() + guard_page_size + alignement <= Pow2(64)
           && b.End() + b.size <= Pow2(64)
    }

    /** (size + (PAGE_SIZE - 1)) & ~(PAGE_SIZE - 1) */
    static method PageAlign(size: nat) returns (r: nat)
      requires size + PAGE_SIZE <= Pow2(64)
      ensures r == RoundUp(size, PAGE_SIZE) && size <= r < size + PAGE_SIZE
    {
      hide And, Not, Pow2;
      PageIsPower();
      MaskRoundsUp(size, 12);
      r := And(size + (PAGE_SIZE - 1), Not(PAGE_SIZE - 1));
    }

    /** (address + (alignement - 1)) & ~(alignement - 1) */
    static method AlignUp(address: nat, alignement: nat, ghost k: nat) returns (r: nat)
      requires k <= 64 && alignement == Pow2(k) && address + alignement <= Pow2(64)
      ensures r == RoundUp(address, alignement)
    {
      hide And, Not, Pow2, RoundUp;
      MaskRoundsUp(address, k);
      r := And(address + (alignement - 1), Not(alignement - 1));
    }

    /** The two passes of the search: k is the alignment's exponent, and blocks the
        kernel's map, which stays as it is during the call. */
    method Reserve(size_: nat, alignement: nat, ghost k: nat, blocks: seq<MemoryInfo>) returns (result: nat)
      requires k <= 64 && alignement == Pow2(k) && Fits64(size_, alignement, blocks)
      requires Covers(blocks, address_space_start, address_space_end)
      modifies this`next_availaible_address
      ensures var a, call := old(State()), Call(size_, alignement, blocks);
        && State() == After(a, call)
        && result == (match Found(a, call) case Some(c) => c case None => 0)
      ensures Found(old(State()), Call(size_, alignement, blocks)).Some? ==>
        && result % alignement == 0 && address_space_start <= result < address_space_end
        && result <= next_availaible_address && Rounded(size_, 0x1000, next_availaible_address - result)
      ensures Found(old(State()), Call(size_, alignement, blocks)).None? ==>
        next_availaible_address == if address_space_start <= old(next_availaible_address) < address_space_end
                                   then old(next_availaible_address) else address_space_start
    {
      hide FirstFit, RoundUp, Pow2, QueryMemory, Tiles;
      ghost var a, call := State(), Call(size_, alignement, blocks);
      ghost var q := RequestOf(a, call);
      var size := PageAlign(size_);
      if !InsideAddressRange(address_space_start, address_space_end, next_availaible_address) {
        next_availaible_address := address_space_start;
      }
      var address: nat := next_availaible_address;
      var already_retried := false;
      while true
        invariant next_availaible_address == Origin(a)
        invariant address + guard_page_size + alignement <= Pow2(64)
        invariant already_retried ==> FirstFit(q, blocks, Origin(a)).None?
        invariant FirstFit(q, blocks, address)
                  == FirstFit(q, blocks, if already_retried then address_space_start else Origin(a))
        decreases !already_retried, address_space_end - address
      {
        FirstFitStep(q, blocks, address);
        address := address + guard_page_size;
        address := AlignUp(address, alignement, k);
        if !InsideAddressRange(address_space_start, address_space_end, address) {
          if already_retried {
            address := 0;
            break;
          } else {
            address := address_space_start;
            already_retried := true;
            continue;
          }
        }
        var memory_info := QueryMemory(blocks, address);
        if memory_info.kind != 0 || size > memory_info.size {
          address := memory_info.address + memory_info.size;
          continue;
        }
        next_availaible_address := address + size;
        break;
      }
      result := address;
      Afterwards(a, call);
    }

    /** Free() forgets nothing and gives nothing back. */
    method Free(ptr: nat)
      ensures State() == old(State())
    {
    }
  }

  /** What a call leaves behind, in numbers. */
  lemma Afterwards(a: Allocator, call: Call)
    requires Callable(a, call)
    ensures match Found(a, call)
      case Some(c) =>
        c % call.alignment == 0 && After(a, call).next >= c && Rounded(call.size, 0x1000, After(a, call).next - c)
      case None => After(a, call).next == if a.start <= a.next < a.end then a.next else a.start
  {
    hide RoundUp, FirstFit;
    RoundsUp(call.size, PAGE_SIZE);
    FirstFitSound(RequestOf(a, call), call.blocks, Origin(a));
    FirstFitSound(RequestOf(a, call), call.blocks, a.start);
  }

  lemma PageIsPower()
    ensures Pow2(12) == PAGE_SIZE
  {
  }

  lemma FirstFitStep(q: Request, blocks: seq<MemoryInfo>, address: nat)
    requires Covers(blocks, q.start, q.end) && q.alignment >= 1
    ensures var c := Candidate(q, address);
      FirstFit(q, blocks, address)
      == if !Inside(q, c) then None
         else if Suits(q, QueryMemory(blocks, c)) then Some(c)
         else FirstFit(q, blocks, QueryMemory(blocks, c).End())
    ensures Candidate(q, address) == RoundUp(address + q.guard, q.alignment)
  {
  }

  /** What a caller gets: null only if no ample block exists, and otherwise a multiple of
      the alignment, inside the range, a guard beyond the position or the start of the
      range, in a free block that is no shorter than the rounded size. */
  lemma ReserveGives(a: Allocator, call: Call)
    requires Callable(a, call)
    ensures
      var q := RequestOf(a, call);
      match Found(a, call)
      case None => forall b :: b in call.blocks ==> !Ample(q, b)
      case Some(c) =>
        Sound(q, call.blocks, if FirstFit(q, call.blocks, Origin(a)).Some? then Origin(a) else a.start, c)
  {
    var q := RequestOf(a, call);
    SearchComplete(q, call.blocks, Origin(a));
    FirstFitSound(q, call.blocks, Origin(a));
    FirstFitSound(q, call.blocks, a.start);
  }
}

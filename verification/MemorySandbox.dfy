/**
 The memory accountant of the script sandbox: a header in front of every block records its
 size, and one counter of type size_t is checked against the sandbox limit.
 */
module MemorySandbox {

  import opened Optional
  import opened Sums

  const MAX_ALLOCATED := 64 * 1024 * 1024

  /** One more than the largest size_t. */
  const WORD := 0x1_0000_0000_0000_0000

  /** What every block has in front of it. */
  const HEADER := 8

  type Size = n: nat | n < WORD

  /** A non-null address handed out by the C heap. */
  type Pointer = nat

  function Add(x: Size, y: Size): Size { (x + y) % WORD }

  function Sub(x: Size, y: Size): Size { (x - y) % WORD }

  /** The counter and, for every live block, the size in its header. */
  datatype Heap = Heap(total: Size, blocks: map<Pointer, Size>)

  /**
   A request, with what the C heap would answer if it were asked: `None` is a failed malloc or
   realloc. A null `block` makes Realloc an allocation, a zero size makes it a release.
   */
  datatype Request =
    | Alloc(size: Size, answer: Option<Pointer>)
    | Realloc(block: Option<Pointer>, size: Size, answer: Option<Pointer>)
    | Free(block: Option<Pointer>)

  /** What the C heap is asked for: a size close to the largest size_t wraps round to a few bytes. */
  function Asked(size: Size): Size { Add(size, HEADER) }

  /** What the C heap has handed out for the given blocks. */
  ghost function Footprint(blocks: map<Pointer, Size>): nat {
    Sum(AskedOf(blocks))
  }

  ghost function AskedOf(blocks: map<Pointer, Size>): map<Pointer, nat> {
    map p | p in blocks :: Asked(blocks[p])
  }

  /** What C demands of the caller: only live blocks are passed back. */
  predicate Owed(h: Heap, r: Request) {
    match r
    case Alloc(_, _) => true
    case Realloc(block, _, _) => block.Some? ==> block.value in h.blocks
    case Free(block) => block.Some? ==> block.value in h.blocks
  }

  /** The blocks that stay while a request is served. */
  function Staying(h: Heap, r: Request): map<Pointer, Size> {
    if r.Realloc? && r.block.Some? then h.blocks - {r.block.value} else h.blocks
  }

  /** And what the C heap can do: it hands out addresses not in use, and no more than there is address space. */
  ghost predicate Legal(h: Heap, r: Request) {
    && Owed(h, r)
    && (!r.Free? && r.answer.Some? ==>
          && r.answer.value !in Staying(h, r)
          && Footprint(Staying(h, r)) + Asked(r.size) < WORD)
  }

  /** What the request leaves, and the pointer it returns. */
  function Step(h: Heap, r: Request): (Heap, Option<Pointer>)
    requires Owed(h, r)
  {
    match r
    case Alloc(size, answer) => Allocated(h, size, answer)
    case Realloc(None, size, answer) => Allocated(h, size, answer)
    case Realloc(Some(p), size, answer) =>
      if size == 0 then (Released(h, p), None)
      else if Add(Sub(h.total, h.blocks[p]), size) > MAX_ALLOCATED || answer.None? then (h, None)
      else Allocated(Released(h, p), size, answer)
    case Free(block) => (if block.None? then h else Released(h, block.value), None)
  }

  function Allocated(h: Heap, size: Size, answer: Option<Pointer>): (Heap, Option<Pointer>) {
    if size == 0 || Add(h.total, size) > MAX_ALLOCATED || answer.None? then (h, None)
    else (Heap(Add(h.total, size), h.blocks[answer.value := size]), answer)
  }

  function Released(h: Heap, p: Pointer): Heap
    requires p in h.blocks
  {
    Heap(Sub(h.total, h.blocks[p]), h.blocks - {p})
  }

  // ------------------------------------------------------------------ program

  class Sandbox {
    var totalAllocated: Size
    var blocks: map<Pointer, Size>

    ghost function State(): Heap
      reads this
    {
      Heap(totalAllocated, blocks)
    }

    constructor ()
      ensures State() == Heap(0, map[])
    {
      totalAllocated, blocks := 0, map[];
    }

    /** `answer` is what malloc returns when it is called. */
    method Alloc(size: Size, answer: Option<Pointer>) returns (r: Option<Pointer>)
      modifies this
      ensures (State(), r) == Step(old(State()), Request.Alloc(size, answer))
    {
      if size == 0 {
        return None;
      }
      if Add(totalAllocated, size) > MAX_ALLOCATED {
        return None;
      }
      if answer.None? {
        return None;
      }
      blocks := blocks[answer.value := size];
      totalAllocated := Add(totalAllocated, size);
      return answer;
    }

    /** `answer` is what realloc, or malloc for a null `block`, returns when it is called. */
    method Realloc(block: Option<Pointer>, size: Size, answer: Option<Pointer>) returns (r: Option<Pointer>)
      requires Owed(State(), Request.Realloc(block, size, answer))
      modifies this
      ensures (State(), r) == Step(old(State()), Request.Realloc(block, size, answer))
    {
      if block.Some? {
        var p := block.value;
        var oldSize := blocks[p];
        if size == 0 {
          totalAllocated := Sub(totalAllocated, oldSize);
          blocks := blocks - {p};
          return None;
        }
        if Add(Sub(totalAllocated, oldSize), size) > MAX_ALLOCATED {
          return None;
        }
        if answer.None? {
          return None;
        }
        blocks := blocks - {p};
        totalAllocated := Sub(totalAllocated, oldSize);
        totalAllocated := Add(totalAllocated, size);
        blocks := blocks[answer.value := size];
        return answer;
      } else {
        if size == 0 {
          return None;
        }
        if Add(totalAllocated, size) > MAX_ALLOCATED {
          return None;
        }
        if answer.None? {
          return None;
        }
        blocks := blocks[answer.value := size];
        totalAllocated := Add(totalAllocated, size);
        return answer;
      }
    }

    method Free(block: Option<Pointer>)
      requires Owed(State(), Request.Free(block))
      modifies this
      ensures State() == Step(old(State()), Request.Free(block)).0
    {
      if block.None? {
        return;
      }
      totalAllocated := Sub(totalAllocated, blocks[block.value]);
      blocks := blocks - {block.value};
    }
  }

  // -------------------------------------------------------------------- runs

  /** `hs` is a run from an empty sandbox that answers the requests `rs` in turn. */
  ghost predicate Run(hs: seq<Heap>, rs: seq<Request>) {
    && |hs| == |rs| + 1
    && hs[0] == Heap(0, map[])
    && forall i :: 0 <= i < |rs| ==> Legal(hs[i], rs[i]) && hs[i + 1] == Step(hs[i], rs[i]).0
  }

  /** Bytes in live blocks, by their headers. */
  ghost function Live(h: Heap): nat { Sum(h.blocks) }

  /** The counter is the number of live bytes, and within the limit. */
  ghost predicate Exact(h: Heap) {
    h.total == Live(h) <= MAX_ALLOCATED
  }

  /** The block a request gives back, if any: its bytes do not count against the new size. */
  function Returned(h: Heap, r: Request): nat
    requires Owed(h, r)
  {
    if r.Realloc? && r.block.Some? then h.blocks[r.block.value] else 0
  }

  /**
   The one way past the guard, and a caller can see it beforehand: the size is so large that the
   header wraps it round, and so is the sum that the guard compares.
   */
  predicate Wraps(live: nat, size: Size) {
    size >= WORD - HEADER && live + size >= WORD
  }

  ghost predicate MayWrap(h: Heap, r: Request)
    requires Owed(h, r) && Exact(h)
  {
    ReturnedIsLive(h, r);
    !r.Free? && Wraps(h.total - Returned(h, r), r.size)
  }

  /** It does wrap if the C heap serves the few bytes it is asked for. */
  ghost predicate SlipsThrough(h: Heap, r: Request)
    requires Owed(h, r)
  {
    Exact(h) && MayWrap(h, r) && r.answer.Some?
  }

  lemma ReturnedIsLive(h: Heap, r: Request)
    requires Owed(h, r)
    ensures Returned(h, r) <= Live(h)
  {
    if r.Realloc? && r.block.Some? {
      SumTake(h.blocks, r.block.value);
    }
  }

  lemma ModAdd(x: nat, y: nat)
    ensures (x % WORD + y) % WORD == (x + y) % WORD
  {
    var q := x / WORD;
    assert x + y == q * WORD + (x % WORD + y);
    ModShift(x % WORD + y, q);
  }

  lemma ModShift(x: int, q: int)
    ensures (q * WORD + x) % WORD == x % WORD
  {
    var d := x / WORD;
    assert q * WORD + x == (q + d) * WORD + x % WORD;
  }

  lemma ModSub(x: nat, y: nat)
    requires y <= x
    ensures (x % WORD - y) % WORD == (x - y) % WORD
  {
    var q := x / WORD;
    assert x - y == q * WORD + (x % WORD - y);
    ModShift(x % WORD - y, q);
  }

  lemma ReleasedBytes(h: Heap, p: Pointer)
    requires p in h.blocks
    ensures Live(Released(h, p)) == Live(h) - h.blocks[p]
    ensures h.total == Live(h) % WORD ==> Released(h, p).total == Live(Released(h, p)) % WORD
  {
    SumTake(h.blocks, p);
    ModSub(Live(h), h.blocks[p]);
  }

  lemma AllocatedBytes(h: Heap, size: Size, answer: Option<Pointer>)
    requires answer.Some? ==> answer.value !in h.blocks
    ensures var (h', r) := Allocated(h, size, answer);
            && Live(h') == Live(h) + (if r.Some? then size else 0)
            && (h.total == Live(h) % WORD ==> h'.total == Live(h') % WORD)
  {
    ModAdd(Live(h), size);
    if answer.Some? {
      SumPut(h.blocks, answer.value, size);
      assert h.blocks - {answer.value} == h.blocks;
    }
  }

  /** How many bytes a request adds to or takes from the live ones. */
  lemma StepBytes(h: Heap, r: Request)
    requires Legal(h, r)
    ensures var (h', p) := Step(h, r);
            && (p.Some? ==> !r.Free? && Live(h') == Live(h) - Returned(h, r) + r.size)
            && (p.None? && !r.Free? && r.size > 0 ==> h' == h)
            && (h.total == Live(h) % WORD ==> h'.total == Live(h') % WORD)
  {
    match r
    case Alloc(size, answer) => AllocatedBytes(h, size, answer);
    case Realloc(None, size, answer) => AllocatedBytes(h, size, answer);
    case Realloc(Some(p), size, answer) =>
      ReleasedBytes(h, p);
      AllocatedBytes(Released(h, p), size, answer);
    case Free(block) =>
      if block.Some? {
        ReleasedBytes(h, block.value);
      }
  }

  lemma ReleasedExact(h: Heap, p: Pointer)
    requires p in h.blocks && Exact(h)
    ensures h.blocks[p] <= Live(h) && Live(Released(h, p)) == Live(h) - h.blocks[p]
    ensures Exact(Released(h, p))
  {
    hide Sum;
    ReleasedBytes(h, p);
  }

  lemma FootprintTake(blocks: map<Pointer, Size>, p: Pointer)
    requires p in blocks
    ensures Footprint(blocks) == Asked(blocks[p]) + Footprint(blocks - {p})
  {
    SumTake(AskedOf(blocks), p);
    assert AskedOf(blocks) - {p} == AskedOf(blocks - {p});
  }

  /** Blocks of at least a byte whose headers did not wrap take from once to nine times their size. */
  lemma {:induction false} FootprintWithin(blocks: map<Pointer, Size>)
    requires forall p :: p in blocks ==> blocks[p] + HEADER < WORD
    ensures Sum(blocks) <= Footprint(blocks)
    ensures (forall p :: p in blocks ==> blocks[p] > 0) ==> Footprint(blocks) <= 9 * Sum(blocks)
    decreases |blocks|
  {
    hide Sum, Footprint;
    if blocks == map[] {
      NoBlocks();
    } else {
      var p :| p in blocks;
      FootprintTake(blocks, p);
      SumTake(blocks, p);
      Drops(blocks, p);
      FootprintWithin(blocks - {p});
    }
  }

  lemma NoBlocks()
    ensures Sum<Pointer>(map[]) == 0 && Footprint(map[]) == 0
  {
    assert AskedOf(map[]) == map[];
  }

  lemma LiveWithin(h: Heap)
    requires Exact(h)
    ensures Live(h) <= Footprint(h.blocks)
  {
    ExactSizes(h);
    FootprintWithin(h.blocks);
  }

  lemma ExactSizes(h: Heap)
    requires Exact(h)
    ensures forall p :: p in h.blocks ==> h.blocks[p] + HEADER < WORD
  {
    forall p | p in h.blocks
      ensures h.blocks[p] <= Live(h)
    {
      SumTake(h.blocks, p);
    }
  }

  lemma AllocatedExact(h: Heap, size: Size, answer: Option<Pointer>)
    requires Exact(h)
    requires answer.Some? ==> answer.value !in h.blocks && Footprint(h.blocks) + Asked(size) < WORD
    ensures var (h', r) := Allocated(h, size, answer);
            && (Exact(h') <==> !(answer.Some? && Wraps(h.total, size)))
            && (r.Some? ==> size > 0 && answer.Some?)
  {
    hide Sum, Live, Footprint;
    AllocatedBytes(h, size, answer);
    LiveWithin(h);
  }

  /** A request leaves the counter exact and within the limit if and only if it does not slip through. */
  lemma StepExact(h: Heap, r: Request)
    requires Legal(h, r) && Exact(h)
    ensures Exact(Step(h, r).0) <==> !SlipsThrough(h, r)
    ensures Step(h, r).1.Some? ==> r.size > 0 && r.answer.Some?
  {
    hide Sum, Live, Exact, Allocated, Released;
    match r
    case Alloc(size, answer) => AllocatedExact(h, size, answer);
    case Realloc(None, size, answer) => AllocatedExact(h, size, answer);
    case Realloc(Some(p), size, answer) => MovedExact(h, p, size, answer);
    case Free(block) =>
      if block.Some? {
        ReleasedExact(h, block.value);
      }
  }

  lemma MovedExact(h: Heap, p: Pointer, size: Size, answer: Option<Pointer>)
    requires Legal(h, Realloc(Some(p), size, answer)) && Exact(h)
    ensures var r := Realloc(Some(p), size, answer);
            && (Exact(Step(h, r).0) <==> !SlipsThrough(h, r))
            && (Step(h, r).1.Some? ==> size > 0 && answer.Some?)
  {
    hide Sum, Live, Allocated;
    ReleasedExact(h, p);
    AllocatedExact(Released(h, p), size, answer);
  }

  /**
   Over a whole run: the counter equals the live bytes and stays within the limit in every
   state if and only if no request of the run slips through.
   */
  lemma RunExact(hs: seq<Heap>, rs: seq<Request>)
    requires Run(hs, rs)
    ensures (forall i :: 0 <= i < |hs| ==> Exact(hs[i])) <==>
            (forall i :: 0 <= i < |rs| ==> !SlipsThrough(hs[i], rs[i]))
  {
    if forall i :: 0 <= i < |rs| ==> !SlipsThrough(hs[i], rs[i]) {
      forall i | 0 <= i < |hs|
        ensures Exact(hs[i])
      {
        ExactUpTo(hs, rs, i);
      }
    } else if forall i :: 0 <= i < |hs| ==> Exact(hs[i]) {
      var i :| 0 <= i < |rs| && SlipsThrough(hs[i], rs[i]);
      assert Exact(hs[i]) && Exact(hs[i + 1]);
      StepExact(hs[i], rs[i]);
    }
  }

  lemma {:induction false} ExactUpTo(hs: seq<Heap>, rs: seq<Request>, i: nat)
    requires Run(hs, rs) && i < |hs|
    requires forall i :: 0 <= i < |rs| ==> !SlipsThrough(hs[i], rs[i])
    ensures Exact(hs[i])
  {
    if i > 0 {
      ExactUpTo(hs, rs, i - 1);
      StepExact(hs[i - 1], rs[i - 1]);
    }
  }

  /** Past 64 live bytes, the largest request but seven asks malloc for nothing, and leaves a total of 56. */
  lemma WrappingRequestSlipsThrough()
    ensures var h := Step(Heap(0, map[]), Alloc(64, Some(1))).0;
            var r := Alloc(WORD - 8, Some(2));
            && Asked(r.size) == 0
            && Exact(h) && Legal(h, r) && SlipsThrough(h, r)
            && Step(h, r).1 == Some(2) && Step(h, r).0.total == 56 && Live(Step(h, r).0) == WORD + 56
  {
    var h0 := Heap(0, map[]);
    StepBytes(h0, Alloc(64, Some(1)));
    var h := Step(h0, Alloc(64, Some(1))).0;
    FootprintTake(h.blocks, 1);
    NoBlocks();
    assert h.blocks - {1} == map[];
    StepBytes(h, Alloc(WORD - 8, Some(2)));
  }

  // ------------------------------------------------------- what a caller can check

  function Answered(r: Request, answer: Option<Pointer>): Request
    requires !r.Free?
  {
    r.(answer := answer)
  }

  lemma {:induction false} FreshPointer(used: set<Pointer>) returns (p: Pointer)
    ensures forall q :: q in used ==> q < p
    decreases used
  {
    p := 0;
    if used != {} {
      var q :| q in used;
      var rest := FreshPointer(used - {q});
      p := if q < rest then rest else q + 1;
      assert used == used - {q} + {q};
    }
  }

  /** Whatever the C heap answers, the request is safe: if and only if its size does not wrap. */
  lemma SafeIffNoWrap(h: Heap, r: Request)
    requires Owed(h, r) && Exact(h) && !r.Free? && forall p :: p in h.blocks ==> h.blocks[p] > 0
    ensures (forall answer :: Legal(h, Answered(r, answer)) ==> Exact(Step(h, Answered(r, answer)).0))
            <==> !MayWrap(h, r)
  {
    hide Exact, Step, Footprint, Sum;
    forall answer | Legal(h, Answered(r, answer))
      ensures Exact(Step(h, Answered(r, answer)).0) <==> !(MayWrap(h, r) && answer.Some?)
    {
      StepExact(h, Answered(r, answer));
    }
    if MayWrap(h, r) {
      var p := FreshPointer(h.blocks.Keys);
      StayingIsSmall(h, r);
      assert Legal(h, Answered(r, Some(p)));
    }
  }

  lemma StayingIsSmall(h: Heap, r: Request)
    requires Owed(h, r) && Exact(h) && forall p :: p in h.blocks ==> h.blocks[p] > 0
    ensures Footprint(Staying(h, r)) <= 9 * MAX_ALLOCATED
    ensures MayWrap(h, r) ==> Asked(r.size) < HEADER
  {
    ExactSizes(h);
    FootprintWithin(Staying(h, r));
    if r.Realloc? && r.block.Some? {
      SumTake(h.blocks, r.block.value);
    }
  }

  /**
   When a request is granted: for a size above zero that the C heap answers, if the live bytes without
   the block given back and with the new size are within the limit, or wrap. The block is then at the
   answer with its size, the one given back is gone, and all others stay; else nothing changes, except
   that a size of zero gives the block back.
   */
  lemma GrantedWhen(h: Heap, r: Request)
    requires Legal(h, r) && Exact(h)
    ensures var (h', p) := Step(h, r);
            && (p.Some? <==> !r.Free? && r.size > 0 && r.answer.Some?
                             && (Live(h) - Returned(h, r) + r.size <= MAX_ALLOCATED || MayWrap(h, r)))
            && (p.Some? ==> p == r.answer && h'.blocks == Staying(h, r)[r.answer.value := r.size])
            && (p.None? && !r.Free? ==> h'.blocks == if r.size == 0 then Staying(h, r) else h.blocks)
            && (r.Free? ==> h'.blocks == if r.block.Some? then h.blocks - {r.block.value} else h.blocks)
  {
    hide Sum, Live, Footprint;
    ReturnedIsLive(h, r);
    if !r.Free? {
      StayingExact(h, r);
      LiveWithin(Heap(Live(h) - Returned(h, r), Staying(h, r)));
    }
  }

  lemma StayingExact(h: Heap, r: Request)
    requires Owed(h, r) && Exact(h)
    ensures Returned(h, r) <= Live(h) && Exact(Heap(Live(h) - Returned(h, r), Staying(h, r)))
  {
    ReturnedIsLive(h, r);
    if r.Realloc? && r.block.Some? {
      ReleasedExact(h, r.block.value);
    }
  }

  /** A run whose sizes are all below 2^64 less the header keeps the counter exact and within the limit. */
  lemma OrdinarySizesAreSafe(hs: seq<Heap>, rs: seq<Request>, i: nat)
    requires Run(hs, rs) && i < |hs|
    requires forall k :: 0 <= k < |rs| && !rs[k].Free? ==> rs[k].size < WORD - HEADER
    ensures Exact(hs[i])
  {
    hide Exact;
    forall k | 0 <= k < |rs|
      ensures !SlipsThrough(hs[k], rs[k])
    {
      if Exact(hs[k]) && !rs[k].Free? {
        assert !MayWrap(hs[k], rs[k]);
      }
    }
    ExactUpTo(hs, rs, i);
  }

  /** No block in a run is empty. */
  lemma {:induction false} NoEmptyBlocks(hs: seq<Heap>, rs: seq<Request>, i: nat, p: Pointer)
    requires Run(hs, rs) && i < |hs| && p in hs[i].blocks
    ensures hs[i].blocks[p] > 0
  {
    if i > 0 && p in hs[i - 1].blocks {
      NoEmptyBlocks(hs, rs, i - 1, p);
    }
  }

  /** Without any such restriction, every state of a run conserves bytes counted in size_t. */
  lemma {:induction false} RunConserves(hs: seq<Heap>, rs: seq<Request>, i: nat)
    requires Run(hs, rs) && i < |hs|
    ensures hs[i].total == Live(hs[i]) % WORD
  {
    if i > 0 {
      RunConserves(hs, rs, i - 1);
      StepBytes(hs[i - 1], rs[i - 1]);
    }
  }
}

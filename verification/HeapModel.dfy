/** The fixed-size-block heap on values: nine free lists of blocks carved from a
    fallback heap, what every operation keeps, and what follows for whole runs. */
module HeapModel {
  import opened Bits

  /** A request for `size` bytes aligned to 2^alignLog. */
  datatype Layout = Layout(size: nat, alignLog: nat)

  /** Bytes addr .. addr + size, handed out by the fallback heap. */
  datatype Block = Block(addr: nat, size: nat)

  const CLASSES: nat := 9
  const BLOCK_SIZES: seq<nat> := [8, 16, 32, 64, 128, 256, 512, 1024, 2048]

  /** `list_index`: the first block size that is at least the size and the
      alignment. */
  function ListIndex(l: Layout): (r: Option<nat>)
    ensures r.Some? ==> r.value < CLASSES
  {
    FirstFit(if l.size >= Pow2(l.alignLog) then l.size else Pow2(l.alignLog), 0)
  }

  function FirstFit(n: nat, k: nat): (r: Option<nat>)
    requires k <= CLASSES
    ensures r.Some? ==> k <= r.value < CLASSES
    decreases CLASSES - k
  {
    if k == CLASSES then None
    else if BLOCK_SIZES[k] >= n then Some(k)
    else FirstFit(n, k + 1)
  }

  /** The class found is the least whose blocks are large and aligned enough. */
  lemma ListIndexLeast(l: Layout, j: nat)
    requires j < CLASSES
    ensures l.size <= BLOCK_SIZES[j] && Pow2(l.alignLog) <= BLOCK_SIZES[j] <==>
            ListIndex(l).Some? && ListIndex(l).value <= j
  {
  }

  /** Only requests beyond 2048 bytes or a 2048-byte alignment have no class. */
  lemma NoClassIff(l: Layout)
    ensures ListIndex(l).None? <==> l.size > 2048 || Pow2(l.alignLog) > 2048
  {
    ListIndexLeast(l, CLASSES - 1);
  }

  lemma BlockSizesArePowers(k: nat)
    requires k < CLASSES
    ensures BLOCK_SIZES[k] == Pow2(k + 3)
  {
    assert Pow2(9) == 512;
  }

  /** `lists` are the free lists, first block first; `live` the allocations not
      yet freed; `held` what the fallback has handed out and not got back;
      `carved` how many blocks of each class it has handed out. */
  datatype Heap = Heap(lists: seq<seq<nat>>, live: map<nat, Layout>, held: set<Block>, carved: seq<nat>)

  /** What the allocator asks the fallback for. */
  function Carve(l: Layout): Layout
  {
    match ListIndex(l)
    case Some(k) => Layout(BLOCK_SIZES[k], k + 3)
    case None => l
  }

  predicate BlocksApart(b: Block, c: Block)
  {
    Apart(b.addr, b.addr + b.size, c.addr, c.addr + c.size)
  }

  /** The contract of the external fallback heap: null, or an aligned block that
      overlaps nothing it has handed out. */
  ghost predicate FallbackOk(h: Heap, l: Layout, answer: nat)
  {
    answer == 0 || (Aligned(answer, l.alignLog) && forall b :: b in h.held ==> BlocksApart(Block(answer, l.size), b))
  }

  predicate AsksFallback(h: Heap, l: Layout)
    requires |h.lists| == CLASSES
  {
    ListIndex(l).None? || h.lists[ListIndex(l).value] == []
  }

  /** `alloc`, the fallback's answer being given. */
  function Alloc(h: Heap, l: Layout, answer: nat): (Heap, nat)
    requires |h.lists| == |h.carved| == CLASSES
  {
    if !AsksFallback(h, l) then
      var k := ListIndex(l).value;
      (h.(lists := h.lists[k := h.lists[k][1..]], live := h.live[h.lists[k][0] := l]), h.lists[k][0])
    else if answer == 0 then (h, 0)
    else
      (h.(live := h.live[answer := l], held := h.held + {Block(answer, Carve(l).size)},
          carved := match ListIndex(l)
                    case Some(k) => h.carved[k := h.carved[k] + 1]
                    case None => h.carved),
       answer)
  }

  /** `dealloc` of a live allocation with its own layout. */
  function Dealloc(h: Heap, p: nat): Heap
    requires |h.lists| == CLASSES && p in h.live
  {
    match ListIndex(h.live[p])
    case Some(k) => h.(lists := h.lists[k := [p] + h.lists[k]], live := h.live - {p})
    case None => h.(held := h.held - {Block(p, h.live[p].size)}, live := h.live - {p})
  }

  // --- the invariant ---

  ghost predicate Listed(h: Heap, k: nat, p: nat)
  {
    k < CLASSES && k < |h.lists| && p in h.lists[k]
  }

  ghost predicate NoRepeats(xs: seq<nat>)
  {
    forall i, j :: 0 <= i < j < |xs| ==> xs[i] != xs[j]
  }

  /** The block of a listed address. */
  function ListBlock(k: nat, p: nat): Block
    requires k < CLASSES
  {
    Block(p, BLOCK_SIZES[k])
  }

  /** The block a live allocation occupies. */
  function Extent(p: nat, l: Layout): Block
  {
    Block(p, Carve(l).size)
  }

  ghost predicate HeldApart(held: set<Block>)
  {
    && (forall b, c :: b in held && c in held && b != c ==> BlocksApart(b, c))
    && (forall b :: b in held ==> b.addr > 0 && b.size > 0)
  }

  /** Each list holds distinct free blocks of its class's size and alignment. */
  ghost predicate ListsOk(h: Heap)
  {
    && |h.lists| == |h.carved| == CLASSES
    && (forall k :: 0 <= k < CLASSES ==> NoRepeats(h.lists[k]))
    && (forall k: nat, p: nat :: Listed(h, k, p) ==>
          ListBlock(k, p) in h.held && Aligned(p, k + 3) && p !in h.live)
  }

  ghost predicate LiveOk(h: Heap)
  {
    forall p :: p in h.live ==>
      Extent(p, h.live[p]) in h.held && Aligned(p, Carve(h.live[p]).alignLog)
  }

  ghost predicate IsListBlock(h: Heap, b: Block)
  {
    exists k: nat :: Listed(h, k, b.addr) && b == ListBlock(k, b.addr)
  }

  /** Nothing the fallback handed out is lost. */
  ghost predicate Accounted(h: Heap)
  {
    forall b :: b in h.held ==>
      (b.addr in h.live && Extent(b.addr, h.live[b.addr]) == b) || IsListBlock(h, b)
  }

  ghost predicate Inv(h: Heap)
  {
    HeldApart(h.held) && ListsOk(h) && LiveOk(h) && Accounted(h)
  }

  const EMPTY: Heap := Heap([[], [], [], [], [], [], [], [], []], map[], {}, [0, 0, 0, 0, 0, 0, 0, 0, 0])

  /** Blocks in use or on a free list never overlap. */
  lemma LiveAndFreeDisjoint(h: Heap)
    requires Inv(h)
    ensures forall p, q :: p in h.live && q in h.live && p != q ==>
              BlocksApart(Extent(p, h.live[p]), Extent(q, h.live[q]))
    ensures forall k: nat, p: nat, q :: Listed(h, k, p) && q in h.live ==>
              BlocksApart(ListBlock(k, p), Extent(q, h.live[q]))
    ensures forall j: nat, k: nat, p: nat, q: nat :: Listed(h, j, p) && Listed(h, k, q) && (j != k || p != q) ==>
              BlocksApart(ListBlock(j, p), ListBlock(k, q))
  {
  }

  /** What the allocator asks for covers the size and alignment wanted. */
  lemma CarveSuffices(l: Layout)
    ensures Carve(l).size >= l.size && Carve(l).alignLog >= l.alignLog
  {
    if ListIndex(l).Some? {
      var k := ListIndex(l).value;
      ListIndexLeast(l, k);
      BlockSizesArePowers(k);
      if l.alignLog > k + 3 {
        Pow2Monotone(k + 3, l.alignLog);
      }
    }
  }

  lemma ListedOnce(h: Heap, j: nat, k: nat, p: nat)
    requires Inv(h) && Listed(h, j, p) && Listed(h, k, p)
    ensures j == k
  {
  }

  // --- what the operations answer ---

  /** What an allocation of class `k` is carved as: a block of 2^(k + 3) bytes
      aligned to its size; a request without a class as it is. */
  lemma CarveExact(l: Layout)
    ensures match ListIndex(l)
            case Some(k) => Carve(l) == Layout(Pow2(k + 3), k + 3)
            case None => Carve(l) == l
  {
    if ListIndex(l).Some? {
      BlockSizesArePowers(ListIndex(l).value);
    }
  }

  /** A block of the class's list, the first one, is taken before the fallback is
      asked; allocation fails exactly when that list is empty, or there is no
      class, and the fallback fails. */
  lemma AllocAnswers(h: Heap, l: Layout, answer: nat)
    requires Inv(h)
    ensures var (h', p) := Alloc(h, l, answer);
            var c := ListIndex(l);
            && (p == 0 <==> answer == 0 && (c.None? || h.lists[c.value] == []))
            && (c.Some? && h.lists[c.value] != [] ==>
                  && h.lists[c.value] == [p] + h'.lists[c.value]
                  && h'.held == h.held && h'.carved == h.carved)
            && (answer != 0 && c.Some? && h.lists[c.value] == [] ==>
                  && p == answer && h'.lists == h.lists && h'.held == h.held + {Block(answer, Pow2(c.value + 3))}
                  && h'.carved[c.value] == h.carved[c.value] + 1)
            && (answer != 0 && c.None? ==>
                  && p == answer && h'.lists == h.lists && h'.held == h.held + {Block(answer, l.size)}
                  && h'.carved == h.carved)
            && |h'.lists| == |h'.carved| == CLASSES
            && (forall j: nat :: j < CLASSES && c != Some(j) ==>
                  h'.lists[j] == h.lists[j] && h'.carved[j] == h.carved[j])
  {
    CarveExact(l);
    hide ListIndex, Carve, LiveOk, Accounted;
    if !AsksFallback(h, l) {
      assert Listed(h, ListIndex(l).value, h.lists[ListIndex(l).value][0]);
    }
  }

  /** A freed block of a class goes to the front of its list, any other back to the
      fallback. */
  lemma DeallocReturns(h: Heap, p: nat)
    requires Inv(h) && p in h.live
    ensures var h', l := Dealloc(h, p), h.live[p];
            var c := ListIndex(l);
            && h'.live == h.live - {p} && h'.carved == h.carved
            && (c.Some? ==> h'.lists[c.value] == [p] + h.lists[c.value] && h'.held == h.held)
            && (c.None? ==> Block(p, l.size) in h.held && h'.held == h.held - {Block(p, l.size)})
            && |h'.lists| == CLASSES && (forall j: nat :: j < CLASSES && c != Some(j) ==> h'.lists[j] == h.lists[j])
  {
    hide ListIndex;
  }

  /** So a freed block of a class is the next one of it handed out, whatever the
      fallback would answer, and the heap is then as before. */
  lemma FreeThenAllocate(h: Heap, p: nat, l: Layout, answer: nat)
    requires Inv(h) && p in h.live && ListIndex(l).Some? && ListIndex(l) == ListIndex(h.live[p])
    ensures Alloc(Dealloc(h, p), l, answer) == (h.(live := h.live[p := l]), p)
  {
    hide ListIndex;
    var k := ListIndex(l).value;
    assert ([p] + h.lists[k])[1..] == h.lists[k];
    assert Dealloc(h, p).lists[k := h.lists[k]] == h.lists;
    assert (h.live - {p})[p := l] == h.live[p := l];
  }

  /** Freeing what was just allocated undoes the allocation, save that a block
      carved for a class stays with it. */
  lemma AllocateThenFree(h: Heap, l: Layout, answer: nat)
    requires Inv(h) && l.size > 0 && (AsksFallback(h, l) ==> FallbackOk(h, Carve(l), answer))
    requires Alloc(h, l, answer).1 != 0
    ensures var (h', p) := Alloc(h, l, answer);
            var c := ListIndex(l);
            && p in h'.live
            && Dealloc(h', p) == if c.Some? && h.lists[c.value] == []
                                 then h'.(live := h.live, lists := h.lists[c.value := [p]]) else h
  {
    AllocKeeps(h, l, answer);
    var (h', p) := Alloc(h, l, answer);
    hide Inv, ListIndex, Aligned;
    assert h.live[p := l] - {p} == h.live;
    match ListIndex(l) {
      case Some(k) =>
        if h.lists[k] != [] {
          assert [p] + h.lists[k][1..] == h.lists[k];
          assert h'.lists[k := h.lists[k]] == h.lists;
        } else {
          assert [p] + h.lists[k] == [p];
        }
      case None =>
        assert h.held + {Block(answer, l.size)} - {Block(answer, l.size)} == h.held;
    }
  }

  // --- every operation keeps the invariant ---

  lemma AllocFromList(h: Heap, l: Layout, answer: nat)
    requires Inv(h) && !AsksFallback(h, l)
    ensures var (h', p) := Alloc(h, l, answer);
            && Inv(h') && p != 0 && p !in h.live && Aligned(p, Carve(l).alignLog)
  {
    hide ListIndex, Aligned;
    var k := ListIndex(l).value;
    var (h', p) := Alloc(h, l, answer);
    assert Listed(h, k, p);
    forall j: nat, q: nat | Listed(h', j, q)
      ensures Listed(h, j, q) && q != p
    {
      if q == p {
        ListedOnce(h, j, k, p);
      }
    }
    forall b | b in h'.held
      ensures (b.addr in h'.live && Extent(b.addr, h'.live[b.addr]) == b) || IsListBlock(h', b)
    {
      if b.addr != p && IsListBlock(h, b) {
        var j: nat :| Listed(h, j, b.addr) && b == ListBlock(j, b.addr);
        assert Listed(h', j, b.addr);
      }
    }
  }

  lemma AllocFromFallback(h: Heap, l: Layout, answer: nat)
    requires Inv(h) && l.size > 0 && AsksFallback(h, l) && FallbackOk(h, Carve(l), answer) && answer != 0
    ensures var (h', p) := Alloc(h, l, answer);
            && Inv(h') && p !in h.live && Aligned(p, Carve(l).alignLog)
  {
    hide ListIndex, Aligned;
    var (h', p) := Alloc(h, l, answer);
    var given := Block(answer, Carve(l).size);
    forall k: nat, q: nat | Listed(h', k, q)
      ensures Listed(h, k, q) && q != p
    {
    }
    forall b | b in h'.held
      ensures (b.addr in h'.live && Extent(b.addr, h'.live[b.addr]) == b) || IsListBlock(h', b)
    {
      if IsListBlock(h, b) {
        var j: nat :| Listed(h, j, b.addr) && b == ListBlock(j, b.addr);
        assert Listed(h', j, b.addr);
      } else if b != given {
        assert BlocksApart(given, b);
      }
    }
  }

  /** Allocation returns null and changes nothing, or a block that nobody uses
      and that has the size and the alignment asked for. */
  lemma AllocKeeps(h: Heap, l: Layout, answer: nat)
    requires Inv(h) && l.size > 0 && (AsksFallback(h, l) ==> FallbackOk(h, Carve(l), answer))
    ensures var (h', p) := Alloc(h, l, answer);
            && Inv(h')
            && (p == 0 ==> h' == h)
            && (p != 0 ==> p !in h.live && h'.live == h.live[p := l]
                           && Aligned(p, l.alignLog) && Extent(p, l) in h'.held && Extent(p, l).size >= l.size)
  {
    CarveSuffices(l);
    hide ListIndex, Aligned, Carve;
    var (h', p) := Alloc(h, l, answer);
    if !AsksFallback(h, l) {
      AllocFromList(h, l, answer);
    } else if answer != 0 {
      AllocFromFallback(h, l, answer);
    }
    if p != 0 {
      AlignedSmaller(p, Carve(l).alignLog, l.alignLog);
      assert p in h'.live;
    }
  }

  lemma DeallocToList(h: Heap, p: nat)
    requires Inv(h) && p in h.live && ListIndex(h.live[p]).Some?
    ensures Inv(Dealloc(h, p))
  {
    hide ListIndex, Aligned;
    var k := ListIndex(h.live[p]).value;
    var h' := Dealloc(h, p);
    forall j: nat, q: nat | Listed(h', j, q)
      ensures Listed(h, j, q) || (j == k && q == p)
    {
    }
    assert NoRepeats(h'.lists[k]) by {
      assert forall i :: 0 <= i < |h.lists[k]| ==> Listed(h, k, h.lists[k][i]);
    }
    forall b | b in h'.held
      ensures (b.addr in h'.live && Extent(b.addr, h'.live[b.addr]) == b) || IsListBlock(h', b)
    {
      if b.addr == p {
        assert Listed(h', k, p) && b == ListBlock(k, p);
      } else if IsListBlock(h, b) {
        var j: nat :| Listed(h, j, b.addr) && b == ListBlock(j, b.addr);
      }
    }
  }

  lemma DeallocToFallback(h: Heap, p: nat)
    requires Inv(h) && p in h.live && ListIndex(h.live[p]).None?
    ensures Inv(Dealloc(h, p))
  {
  }

  // --- runs ---

  datatype Op = Allocate(layout: Layout, answer: nat) | Release(p: nat)

  function Step(h: Heap, op: Op): Heap
    requires |h.lists| == |h.carved| == CLASSES && (op.Release? ==> op.p in h.live)
  {
    match op
    case Allocate(l, answer) => Alloc(h, l, answer).0
    case Release(p) => Dealloc(h, p)
  }

  /** Requests are for at least one byte, frees are of live allocations, and the
      fallback keeps its contract. */
  ghost predicate Permitted(h: Heap, op: Op)
  {
    && |h.lists| == |h.carved| == CLASSES
    && match op
       case Allocate(l, answer) => l.size > 0 && (AsksFallback(h, l) ==> FallbackOk(h, Carve(l), answer))
       case Release(p) => p in h.live
  }

  ghost function Run(ops: seq<Op>): Heap
    decreases |ops|, 0
  {
    if ops == [] then EMPTY
    else
      var h := Run(ops[..|ops| - 1]);
      if Permitted(h, ops[|ops| - 1]) then Step(h, ops[|ops| - 1]) else h
  }

  ghost predicate Lawful(ops: seq<Op>)
    decreases |ops|, 1
  {
    ops == [] || (Lawful(ops[..|ops| - 1]) && Permitted(Run(ops[..|ops| - 1]), ops[|ops| - 1]))
  }

  /** The live allocations of a size class. */
  function LiveIn(h: Heap, k: nat): set<nat>
  {
    set p | p in h.live && ListIndex(h.live[p]) == Some(k)
  }

  /** The largest number of live allocations of the class at any time. */
  ghost function Peak(ops: seq<Op>, k: nat): nat
    decreases |ops|
  {
    if ops == [] then 0
    else
      var before, now := Peak(ops[..|ops| - 1], k), |LiveIn(Run(ops), k)|;
      if now > before then now else before
  }

  lemma StepKeeps(h: Heap, op: Op)
    requires Inv(h) && Permitted(h, op)
    ensures Inv(Step(h, op))
  {
    match op
    case Allocate(l, answer) => AllocKeeps(h, l, answer);
    case Release(p) =>
      if ListIndex(h.live[p]).Some? {
        DeallocToList(h, p);
      } else {
        DeallocToFallback(h, p);
      }
  }

  ghost predicate Balanced(h: Heap, k: nat)
  {
    k < |h.lists| && k < |h.carved| && h.carved[k] == |LiveIn(h, k)| + |h.lists[k]|
  }

  lemma LiveInAdded(h: Heap, h': Heap, p: nat, l: Layout, k: nat)
    requires p !in h.live && h'.live == h.live[p := l]
    ensures |LiveIn(h', k)| == |LiveIn(h, k)| + if ListIndex(l) == Some(k) then 1 else 0
  {
    hide ListIndex;
    assert LiveIn(h', k) == if ListIndex(l) == Some(k) then LiveIn(h, k) + {p} else LiveIn(h, k);
  }

  lemma LiveInRemoved(h: Heap, h': Heap, p: nat, k: nat)
    requires p in h.live && h'.live == h.live - {p}
    ensures |LiveIn(h', k)| == |LiveIn(h, k)| - if ListIndex(h.live[p]) == Some(k) then 1 else 0
  {
    hide ListIndex;
    assert LiveIn(h', k) == LiveIn(h, k) - {p};
  }

  /** A block is carved for a class only when every block of it is in use. */
  lemma StepBalances(h: Heap, op: Op, k: nat)
    requires Inv(h) && Permitted(h, op) && k < CLASSES && Balanced(h, k)
    ensures var h' := Step(h, op);
            && Balanced(h', k)
            && (h'.carved[k] == h.carved[k] || (h'.carved[k] == h.carved[k] + 1 && h'.lists[k] == []))
  {
    match op
    case Allocate(l, answer) =>
      AllocKeeps(h, l, answer);
      AllocAnswers(h, l, answer);
      hide Alloc, ListIndex, HeldApart, Accounted, LiveOk, ListsOk, FallbackOk, Aligned, LiveIn;
      var (h', p) := Alloc(h, l, answer);
      if p != 0 {
        LiveInAdded(h, h', p, l, k);
      }
    case Release(p) =>
      DeallocReturns(h, p);
      hide Dealloc, ListIndex, HeldApart, Accounted, LiveOk, ListsOk, LiveIn;
      LiveInRemoved(h, Dealloc(h, p), p, k);
  }

  /** Over every lawful run from the empty heap: the blocks handed out to a class
      are its live and its listed ones, and they are as many as were ever live
      at the same time. */
  lemma {:induction false} HighWaterMark(ops: seq<Op>, k: nat)
    requires Lawful(ops) && k < CLASSES
    ensures var h := Run(ops);
            && Inv(h)
            && h.carved[k] == |LiveIn(h, k)| + |h.lists[k]|
            && h.carved[k] == Peak(ops, k)
    decreases |ops|
  {
    if ops == [] {
      assert LiveIn(EMPTY, k) == {};
    } else {
      var before, op := ops[..|ops| - 1], ops[|ops| - 1];
      HighWaterMark(before, k);
      StepKeeps(Run(before), op);
      StepBalances(Run(before), op, k);
    }
  }
}

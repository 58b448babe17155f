/** `FixedSizeBlockAllocator`: free lists threaded through the free blocks
    themselves, in byte-addressed memory. */
module HeapCode {
  import opened Bits
  import opened HeapModel

  type Bytes = map<nat, nat>

  /** Bytes of a pointer, the size of a `ListNode`. */
  const WORD: nat := 8

  function Byte(m: Bytes, a: nat): nat
  {
    if a in m then m[a] else 0
  }

  /** The `n` bytes at `a` as a number, lowest byte first. */
  function Load(m: Bytes, a: nat, n: nat): nat
    decreases n
  {
    if n == 0 then 0 else Byte(m, a) + 256 * Load(m, a + 1, n - 1)
  }

  /** Stores the low `n` bytes of `w` at `a`. */
  function Store(m: Bytes, a: nat, w: nat, n: nat): Bytes
    decreases n
  {
    if n == 0 then m else Store(m, a + 1, w / 256, n - 1)[a := w % 256]
  }

  /** One more than the largest number of `n` bytes. */
  function Limit(n: nat): nat
  {
    if n == 0 then 1 else 256 * Limit(n - 1)
  }

  lemma {:induction false} StoreElsewhere(m: Bytes, a: nat, w: nat, n: nat, b: nat)
    requires b < a || a + n <= b
    ensures Byte(Store(m, a, w, n), b) == Byte(m, b)
    decreases n
  {
    if n > 0 {
      StoreElsewhere(m, a + 1, w / 256, n - 1, b);
    }
  }

  lemma {:induction false} LoadSame(m: Bytes, m': Bytes, a: nat, n: nat)
    requires forall b: nat :: a <= b < a + n ==> Byte(m', b) == Byte(m, b)
    ensures Load(m', a, n) == Load(m, a, n)
    decreases n
  {
    if n > 0 {
      LoadSame(m, m', a + 1, n - 1);
    }
  }

  lemma {:induction false} LoadStore(m: Bytes, a: nat, w: nat, n: nat)
    requires w < Limit(n)
    ensures Load(Store(m, a, w, n), a, n) == w
    decreases n
  {
    if n > 0 {
      var rest := Store(m, a + 1, w / 256, n - 1);
      LoadStore(m, a + 1, w / 256, n - 1);
      LoadSame(rest, Store(m, a, w, n), a + 1, n - 1);
    }
  }

  lemma {:induction false} LoadBounded(m: Bytes, a: nat, w: nat, n: nat)
    ensures Load(Store(m, a, w, n), a, n) < Limit(n)
    decreases n
  {
    if n > 0 {
      LoadBounded(m, a + 1, w / 256, n - 1);
      LoadSame(Store(m, a + 1, w / 256, n - 1), Store(m, a, w, n), a + 1, n - 1);
    }
  }

  /** A number survives being stored in `n` bytes exactly when it is below the
      limit, which for a pointer is 2^64. */
  lemma StoredIff(m: Bytes, a: nat, w: nat, n: nat)
    ensures Load(Store(m, a, w, n), a, n) == w <==> w < Limit(n)
    ensures Limit(WORD) == 0x1_0000_0000_0000_0000
  {
    if w < Limit(n) {
      LoadStore(m, a, w, n);
    } else {
      LoadBounded(m, a, w, n);
    }
    assert Limit(4) == 0x1_0000_0000;
    assert Limit(8) == 256 * 256 * 256 * 256 * Limit(4);
  }

  // --- lists ---

  /** The list that starts at `head` and runs through memory visits `xs`. */
  ghost predicate Chain(m: Bytes, head: nat, xs: seq<nat>)
    decreases |xs|
  {
    if xs == [] then head == 0
    else head == xs[0] && head != 0 && Chain(m, Load(m, head, WORD), xs[1..])
  }

  /** A store that misses the nodes of a list does not disturb it. */
  lemma {:induction false} ChainKept(m: Bytes, head: nat, xs: seq<nat>, a: nat, w: nat, n: nat)
    requires Chain(m, head, xs) && forall x :: x in xs ==> Apart(x, x + WORD, a, a + n)
    ensures Chain(Store(m, a, w, n), head, xs)
    decreases |xs|
  {
    hide Store, Load;
    if xs != [] {
      assert head in xs && forall x :: x in xs[1..] ==> x in xs;
      forall b: nat | head <= b < head + WORD
        ensures Byte(Store(m, a, w, n), b) == Byte(m, b)
      {
        StoreElsewhere(m, a, w, n, b);
      }
      LoadSame(m, Store(m, a, w, n), head, WORD);
      ChainKept(m, Load(m, head, WORD), xs[1..], a, w, n);
    }
  }

  ghost predicate Chains(m: Bytes, heads: seq<nat>, lists: seq<seq<nat>>)
  {
    |heads| == |lists| && forall k :: 0 <= k < |lists| ==> Chain(m, heads[k], lists[k])
  }

  /** Every block lies where a pointer can reach it. */
  ghost predicate Addressable(h: Heap)
  {
    forall b :: b in h.held ==> b.addr < Limit(WORD)
  }

  /** The bytes of the allocation at `q` are the same. */
  ghost predicate SameContents(m: Bytes, m': Bytes, q: nat, l: Layout)
  {
    forall b: nat :: q <= b < q + l.size ==> Byte(m', b) == Byte(m, b)
  }

  lemma StoreKeepsContents(m: Bytes, a: nat, w: nat, n: nat, q: nat, l: Layout)
    requires Apart(q, q + l.size, a, a + n)
    ensures SameContents(m, Store(m, a, w, n), q, l)
  {
    forall b: nat | q <= b < q + l.size
      ensures Byte(Store(m, a, w, n), b) == Byte(m, b)
    {
      StoreElsewhere(m, a, w, n, b);
    }
  }

  /** Writing the node of a listed block leaves every live allocation alone. */
  lemma ListedStoreKeeps(m: Bytes, h: Heap, k: nat, p: nat, w: nat)
    requires Inv(h) && Listed(h, k, p)
    ensures forall q :: q in h.live ==> SameContents(m, Store(m, p, w, WORD), q, h.live[q])
  {
    LiveAndFreeDisjoint(h);
    NodeFits(k);
    hide Inv, Store;
    forall q | q in h.live
      ensures SameContents(m, Store(m, p, w, WORD), q, h.live[q])
    {
      CarveSuffices(h.live[q]);
      assert BlocksApart(ListBlock(k, p), Extent(q, h.live[q]));
      StoreKeepsContents(m, p, w, WORD, q, h.live[q]);
    }
  }

  /** So does writing the node of a block being freed, for the others. */
  lemma FreedStoreKeeps(m: Bytes, h: Heap, k: nat, p: nat, w: nat)
    requires Inv(h) && k < CLASSES && p in h.live && ListIndex(h.live[p]) == Some(k)
    ensures forall q :: q in h.live && q != p ==> SameContents(m, Store(m, p, w, WORD), q, h.live[q])
  {
    LiveAndFreeDisjoint(h);
    NodeFits(k);
    hide Inv, Store;
    forall q | q in h.live && q != p
      ensures SameContents(m, Store(m, p, w, WORD), q, h.live[q])
    {
      CarveSuffices(h.live[q]);
      assert BlocksApart(Extent(p, h.live[p]), Extent(q, h.live[q]));
      StoreKeepsContents(m, p, w, WORD, q, h.live[q]);
    }
  }

  class FixedSizeBlockAllocator {
    /** `list_heads` */
    var heads: seq<nat>
    var mem: Bytes
    /** What the lists, the program and the fallback heap hold. */
    ghost var heap: Heap

    ghost predicate Valid()
      reads this
    {
      Inv(heap) && Addressable(heap) && Chains(mem, heads, heap.lists)
    }

    constructor ()
      ensures Valid() && heap == EMPTY
    {
      heads := [0, 0, 0, 0, 0, 0, 0, 0, 0];
      mem := map[];
      heap := EMPTY;
    }

    /** `asked` is what the fallback heap is asked for, if it is asked, and `answer`
        what it then returns. */
    method Alloc(l: Layout, answer: nat) returns (p: nat, asked: Option<Layout>)
      requires Valid() && l.size > 0
      requires AsksFallback(heap, l) ==> FallbackOk(heap, Carve(l), answer) && answer < Limit(WORD)
      modifies this
      ensures Valid() && (heap, p) == HeapModel.Alloc(old(heap), l, answer)
      ensures var c := ListIndex(l);
              asked == if c.None? then Some(l)
                       else if old(heap).lists[c.value] == [] then Some(Layout(Pow2(c.value + 3), c.value + 3))
                       else None
      ensures forall q :: q in old(heap).live ==> SameContents(old(mem), mem, q, old(heap).live[q])
    {
      hide ListIndex, FallbackOk, Limit, Load, Store, Pow2;
      AllocKeeps(heap, l, answer);
      ghost var h := heap;
      var index := ListIndex(l);
      heap := HeapModel.Alloc(heap, l, answer).0;
      if index.None? {
        p, asked := answer, Some(l);
      } else if heads[index.value] == 0 {
        var size := BLOCK_SIZES[index.value];
        BlockSizesArePowers(index.value);
        p, asked := answer, Some(Layout(size, index.value + 3));
      } else {
        var k := index.value;
        p, asked := heads[k], None;
        PopKeeps(mem, heads, h, k);
        ListedStoreKeeps(mem, h, k, p, 0);
        heads := heads[k := Load(mem, p, WORD)];
        mem := Store(mem, p, 0, WORD);
      }
    }

    /** `dealloc` with the layout of the allocation; `returned` tells whether the
        block goes back to the fallback heap. */
    method Dealloc(p: nat, l: Layout) returns (returned: bool)
      requires Valid() && p in heap.live && l == heap.live[p]
      modifies this
      ensures Valid() && heap == HeapModel.Dealloc(old(heap), p)
      ensures returned <==> l.size > 2048 || Pow2(l.alignLog) > 2048
      ensures forall q :: q in heap.live ==> SameContents(old(mem), mem, q, heap.live[q])
    {
      hide ListIndex, Limit, Load, Store, HeldApart, LiveOk, Accounted, Pow2;
      NoClassIff(l);
      ghost var h := heap;
      StepKeeps(heap, Release(p));
      heap := HeapModel.Dealloc(heap, p);
      var index := ListIndex(l);
      if index.Some? {
        var k := index.value;
        PushKeeps(mem, heads, h, k, p);
        FreedStoreKeeps(mem, h, k, p, heads[k]);
        mem := Store(mem, p, heads[k], WORD);
        heads := heads[k := p];
      }
      returned := index.None?;
    }

    /** The program stores any number of bytes anywhere inside an allocation it
        holds: the lists are not disturbed. */
    method Write(p: nat, a: nat, w: nat, n: nat)
      requires Valid() && p in heap.live && p <= a && a + n <= p + heap.live[p].size
      modifies this`mem
      ensures Valid() && mem == Store(old(mem), a, w, n)
    {
      WriteKeeps(mem, heads, heap, p, a, w, n);
      mem := Store(mem, a, w, n);
    }
  }

  /** A block holds a node. */
  lemma NodeFits(k: nat)
    requires k < CLASSES
    ensures WORD <= BLOCK_SIZES[k]
  {
  }

  lemma HeadReachable(m: Bytes, heads: seq<nat>, h: Heap, k: nat)
    requires Inv(h) && Addressable(h) && Chains(m, heads, h.lists) && k < CLASSES
    ensures heads[k] < Limit(WORD)
  {
    hide HeldApart, LiveOk, Accounted;
    if h.lists[k] != [] {
      assert Listed(h, k, heads[k]);
    }
  }

  lemma PopKeeps(m: Bytes, heads: seq<nat>, h: Heap, k: nat)
    requires Inv(h) && Chains(m, heads, h.lists) && k < CLASSES && h.lists[k] != []
    ensures heads[k] == h.lists[k][0]
    ensures Chains(Store(m, heads[k], 0, WORD), heads[k := Load(m, heads[k], WORD)],
                   h.lists[k := h.lists[k][1..]])
  {
    hide HeldApart, LiveOk, Accounted, Load, Store;
    var p := heads[k];
    var heads', lists' := heads[k := Load(m, p, WORD)], h.lists[k := h.lists[k][1..]];
    forall j: nat | j < CLASSES
      ensures Chain(Store(m, p, 0, WORD), heads'[j], lists'[j])
    {
      forall x | x in lists'[j]
        ensures Apart(x, x + WORD, p, p + WORD)
      {
        assert Listed(h, j, x) && Listed(h, k, p);
        NodesApart(h, j, x, k, p);
      }
      ChainKept(m, heads'[j], lists'[j], p, 0, WORD);
    }
  }

  lemma NodesApart(h: Heap, j: nat, x: nat, k: nat, p: nat)
    requires Inv(h) && Listed(h, j, x) && Listed(h, k, p) && (j != k || x != p)
    ensures Apart(x, x + WORD, p, p + WORD)
  {
    LiveAndFreeDisjoint(h);
    NodeFits(j);
    NodeFits(k);
  }

  lemma PushKeeps(m: Bytes, heads: seq<nat>, h: Heap, k: nat, p: nat)
    requires Inv(h) && Addressable(h) && Chains(m, heads, h.lists) && k < CLASSES
    requires p in h.live && ListIndex(h.live[p]) == Some(k)
    ensures Chains(Store(m, p, heads[k], WORD), heads[k := p], h.lists[k := [p] + h.lists[k]])
  {
    hide Store, Load, Accounted;
    NodeFits(k);
    forall j: nat | j < CLASSES
      ensures Chain(Store(m, p, heads[k], WORD), heads[j], h.lists[j])
    {
      StoreMissesLists(h, p, p, WORD, j);
      ChainKept(m, heads[j], h.lists[j], p, heads[k], WORD);
    }
    assert p != 0 by { assert Extent(p, h.live[p]) in h.held; }
    HeadReachable(m, heads, h, k);
    LoadStore(m, p, heads[k], WORD);
  }

  /** What lies inside a live allocation's block misses the nodes of every list. */
  lemma StoreMissesLists(h: Heap, p: nat, a: nat, n: nat, k: nat)
    requires Inv(h) && p in h.live && k < CLASSES && p <= a && a + n <= p + Carve(h.live[p]).size
    ensures forall x :: x in h.lists[k] ==> Apart(x, x + WORD, a, a + n)
  {
    LiveAndFreeDisjoint(h);
    hide Inv;
    forall x | x in h.lists[k]
      ensures Apart(x, x + WORD, a, a + n)
    {
      assert Listed(h, k, x) && BlocksApart(ListBlock(k, x), Extent(p, h.live[p]));
      NodeFits(k);
    }
  }

  lemma WriteKeeps(m: Bytes, heads: seq<nat>, h: Heap, p: nat, a: nat, w: nat, n: nat)
    requires Inv(h) && Chains(m, heads, h.lists) && p in h.live && p <= a && a + n <= p + h.live[p].size
    ensures Chains(Store(m, a, w, n), heads, h.lists)
  {
    hide Store, HeldApart, LiveOk, Accounted;
    CarveSuffices(h.live[p]);
    forall k: nat | k < CLASSES
      ensures Chain(Store(m, a, w, n), heads[k], h.lists[k])
    {
      StoreMissesLists(h, p, a, n, k);
      ChainKept(m, heads[k], h.lists[k], a, w, n);
    }
  }
}

/** Chunks of the buddy allocator and the pages they stand for. A chunk of
    level `l` and relative index `i` is the aligned run of 2^l pages that
    starts at page i * 2^l. */
module Chunks {
  import opened Bits

  const PAGE_SIZE: nat := 4096

  datatype Chunk = Chunk(level: nat, index: nat)

  predicate Covers(c: Chunk, page: nat)
  {
    Shr(page, c.level) == c.index
  }

  function FirstPage(c: Chunk): nat
  {
    Shl(c.index, c.level)
  }

  /** The pages of a chunk. */
  function Pages(c: Chunk): set<nat>
  {
    Interval(FirstPage(c), FirstPage(c) + Pow2(c.level))
  }

  function Parent(c: Chunk): Chunk
  {
    Chunk(c.level + 1, c.index / 2)
  }

  function Buddy(c: Chunk): Chunk
  {
    Chunk(c.level, if c.index % 2 == 0 then c.index + 1 else c.index - 1)
  }

  function LeftHalf(c: Chunk): Chunk
    requires c.level > 0
  {
    Chunk(c.level - 1, 2 * c.index)
  }

  function RightHalf(c: Chunk): Chunk
    requires c.level > 0
  {
    Chunk(c.level - 1, 2 * c.index + 1)
  }

  /** `c` lies inside `d`, `d` being at least as large. */
  predicate Within(c: Chunk, d: Chunk)
  {
    c.level <= d.level && Shr(c.index, d.level - c.level) == d.index
  }

  lemma PagesCovered(c: Chunk, p: nat)
    ensures p in Pages(c) <==> Covers(c, p)
  {
    ShrBounds(p, c.level);
    if p in Pages(c) {
      ShrUnique(p, c.level, c.index);
    }
  }

  lemma CoveredRange(c: Chunk, first: nat)
    requires first == FirstPage(c)
    ensures forall p: nat :: Covers(c, p) <==> first <= p < first + Pow2(c.level)
  {
    forall p: nat
      ensures Covers(c, p) <==> p in Pages(c)
    {
      PagesCovered(c, p);
    }
  }

  /** The buddy of a chunk with an odd index is the chunk right below it. */
  lemma OddBuddyBelow(c: Chunk, first: nat)
    requires c.index % 2 == 1 && first == FirstPage(c)
    ensures first >= Pow2(c.level)
    ensures forall p: nat :: Covers(Buddy(c), p) <==> first - Pow2(c.level) <= p < first
  {
    var b := Buddy(c);
    ShlNext(b.index, c.level);
    CoveredRange(b, first - Pow2(c.level));
  }

  lemma FirstPageCovered(c: Chunk)
    ensures Covers(c, FirstPage(c))
  {
    ShrShl(c.index, c.level);
  }

  /** Chunks form a tree: a smaller chunk that shares a page with a larger one
      lies inside it. */
  lemma Nesting(c: Chunk, d: Chunk, p: nat)
    requires Covers(c, p) && c.level <= d.level
    ensures Covers(d, p) <==> Within(c, d)
  {
    ShrAdd(p, c.level, d.level - c.level);
  }

  lemma WithinCovers(c: Chunk, d: Chunk, p: nat)
    requires Within(c, d) && Covers(c, p)
    ensures Covers(d, p)
  {
    Nesting(c, d, p);
  }

  /** A chunk strictly inside `d` has its parent inside `d` as well. */
  lemma ParentWithin(c: Chunk, d: Chunk)
    requires Within(c, d) && c != d
    ensures c.level < d.level && Within(Parent(c), d)
  {
    ShrAdd(c.index, 1, d.level - c.level - 1);
  }

  /** The two halves of a chunk partition it. */
  lemma HalvesCover(c: Chunk)
    requires c.level > 0
    ensures FirstPage(LeftHalf(c)) == FirstPage(c)
    ensures forall p: nat :: Covers(c, p) <==> Covers(LeftHalf(c), p) || Covers(RightHalf(c), p)
    ensures forall p: nat :: !(Covers(LeftHalf(c), p) && Covers(RightHalf(c), p))
  {
    ShlSum(c.index, c.index, c.level - 1);
  }

  lemma BuddiesPartitionParent(c: Chunk, p: nat)
    ensures Covers(Parent(c), p) <==> Covers(c, p) || Covers(Buddy(c), p)
    ensures !(Covers(c, p) && Covers(Buddy(c), p))
  {
  }
}

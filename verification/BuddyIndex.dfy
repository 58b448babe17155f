/** The set of chunks a buddy bitmap marks free, the two invariants it keeps,
    and what they determine: a Disjoint and Merged set of chunks is the one and
    only canonical index of its free pages. */
module BuddyIndex {
  import opened Bits
  import opened Chunks

  ghost predicate IsFree(s: set<Chunk>, p: nat)
  {
    exists c :: c in s && Covers(c, p)
  }

  /** The free pages, as a set. */
  ghost function FreePages(s: set<Chunk>): set<nat>
  {
    set c, p | c in s && p in Pages(c) :: p
  }

  /** No page lies in two marked chunks. */
  ghost predicate Disjoint(s: set<Chunk>)
  {
    forall c, d, p: nat :: c in s && d in s && Covers(c, p) && Covers(d, p) ==> c == d
  }

  /** No chunk below the top level is marked together with its buddy. */
  ghost predicate Merged(s: set<Chunk>, levels: nat)
  {
    forall c :: c in s && c.level + 1 < levels ==> Buddy(c) !in s
  }

  ghost predicate BelowTop(s: set<Chunk>, levels: nat)
  {
    forall c :: c in s ==> c.level < levels
  }

  /** The state the allocator keeps its bitmap in. */
  ghost predicate Valid(s: set<Chunk>, levels: nat)
  {
    BelowTop(s, levels) && Disjoint(s) && Merged(s, levels)
  }

  /** Every page of `c` is free. */
  ghost predicate FullyFree(s: set<Chunk>, c: Chunk)
  {
    forall p: nat :: Covers(c, p) ==> IsFree(s, p)
  }

  /** Some aligned block of 2^k pages is entirely free. */
  ghost predicate HasFreeBlock(s: set<Chunk>, k: nat)
  {
    exists i: nat :: FullyFree(s, Chunk(k, i))
  }

  lemma FreePagesIff(s: set<Chunk>, p: nat)
    ensures p in FreePages(s) <==> IsFree(s, p)
  {
    forall c | c in s
      ensures p in Pages(c) <==> Covers(c, p)
    {
      PagesCovered(c, p);
    }
  }

  lemma FreePagesAll(s: set<Chunk>)
    ensures forall p: nat :: p in FreePages(s) <==> IsFree(s, p)
  {
    forall p: nat
      ensures p in FreePages(s) <==> IsFree(s, p)
    {
      FreePagesIff(s, p);
    }
  }

  lemma FreePagesAre(s: set<Chunk>, pages: set<nat>)
    requires forall p: nat :: IsFree(s, p) <==> p in pages
    ensures FreePages(s) == pages
  {
    FreePagesAll(s);
  }

  lemma SameFreePages(s: set<Chunk>, t: set<Chunk>)
    ensures FreePages(s) == FreePages(t) <==> forall p: nat :: IsFree(s, p) <==> IsFree(t, p)
  {
    FreePagesAll(s);
    FreePagesAll(t);
  }

  lemma FullyFreePages(s: set<Chunk>, c: Chunk)
    ensures FullyFree(s, c) <==> Pages(c) <= FreePages(s)
  {
    forall p: nat
      ensures p in Pages(c) <==> Covers(c, p)
      ensures p in FreePages(s) <==> IsFree(s, p)
    {
      PagesCovered(c, p);
      FreePagesIff(s, p);
    }
  }

  // --- adding and removing one chunk ---

  lemma AddChunk(s: set<Chunk>, c: Chunk)
    requires Disjoint(s)
    requires forall p: nat :: Covers(c, p) ==> !IsFree(s, p)
    ensures Disjoint(s + {c})
    ensures forall p: nat :: IsFree(s + {c}, p) <==> IsFree(s, p) || Covers(c, p)
  {
  }

  lemma RemoveChunk(s: set<Chunk>, c: Chunk)
    requires Disjoint(s) && c in s
    ensures Disjoint(s - {c})
    ensures forall p: nat :: IsFree(s - {c}, p) <==> IsFree(s, p) && !Covers(c, p)
  {
  }

  lemma MergedAdd(s: set<Chunk>, c: Chunk, levels: nat)
    requires Merged(s, levels)
    requires c.level + 1 < levels ==> Buddy(c) !in s
    ensures Merged(s + {c}, levels)
  {
  }

  // --- completeness and canonical form ---

  /** In a Merged set a fully free block is marked itself or lies inside a
      marked chunk. */
  lemma {:induction false} FullyFreeIsMarked(s: set<Chunk>, c: Chunk, levels: nat) returns (d: Chunk)
    requires Merged(s, levels)
    requires c.level < levels && FullyFree(s, c)
    ensures d in s && Within(c, d)
    decreases c.level
  {
    if c.level == 0 {
      FirstPageCovered(c);
      d :| d in s && Covers(d, FirstPage(c));
      Nesting(c, d, FirstPage(c));
    } else {
      var l, r := LeftHalf(c), RightHalf(c);
      HalvesCover(c);
      d := FullyFreeIsMarked(s, l, levels);
      if d == l {
        d := FullyFreeIsMarked(s, r, levels);
        ParentWithin(r, d);
      } else {
        ParentWithin(l, d);
      }
    }
  }

  /** What a Disjoint and Merged index marks: exactly the maximal fully free
      aligned blocks, capped at the top level. */
  lemma Canonical(s: set<Chunk>, c: Chunk, levels: nat)
    requires Valid(s, levels)
    ensures c in s <==>
            && c.level < levels && FullyFree(s, c)
            && (c.level + 1 == levels || !FullyFree(s, Parent(c)))
  {
    if c in s && c.level + 1 < levels && FullyFree(s, Parent(c)) {
      var d := FullyFreeIsMarked(s, Parent(c), levels);
      FirstPageCovered(c);
      WithinCovers(Parent(c), d, FirstPage(c));
      assert false;
    }
    if c.level < levels && FullyFree(s, c) && c !in s {
      var d := FullyFreeIsMarked(s, c, levels);
      ParentWithin(c, d);
      forall p: nat | Covers(Parent(c), p)
        ensures IsFree(s, p)
      {
        WithinCovers(Parent(c), d, p);
      }
    }
  }

  /** Canonical form: the free pages determine the index bit for bit. */
  lemma CanonicalForm(s: set<Chunk>, t: set<Chunk>, levels: nat)
    requires Valid(s, levels)
    requires Valid(t, levels)
    requires FreePages(s) == FreePages(t)
    ensures s == t
  {
    SameFreePages(s, t);
    forall c
      ensures c in s <==> c in t
    {
      Canonical(s, c, levels);
      Canonical(t, c, levels);
    }
  }

  /** Completeness: a chunk of level k or more is marked exactly when some
      aligned block of 2^k pages is entirely free. */
  lemma Completeness(s: set<Chunk>, k: nat, levels: nat)
    requires BelowTop(s, levels) && Merged(s, levels) && k < levels
    ensures (exists c :: c in s && c.level >= k) <==> HasFreeBlock(s, k)
  {
    if HasFreeBlock(s, k) {
      var i: nat :| FullyFree(s, Chunk(k, i));
      var d := FullyFreeIsMarked(s, Chunk(k, i), levels);
    }
    if exists c :: c in s && c.level >= k {
      var c :| c in s && c.level >= k;
      var b := Chunk(k, Shr(FirstPage(c), k));
      FirstPageCovered(c);
      Nesting(b, c, FirstPage(c));
      forall p: nat | Covers(b, p)
        ensures IsFree(s, p)
      {
        WithinCovers(b, c, p);
      }
    }
  }
}

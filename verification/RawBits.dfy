/** The bitmap as a set of bit indices, and `merge_up_from` on it. The code
    computes the indices without regard to the level they fall in, so it can be
    started on frames the bitmap does not describe. */
module RawBits {
  import opened Bits
  import opened Chunks
  import opened BuddyIndex
  import opened BuddyOps
  import opened BuddyLayout

  /** The set bits. */
  ghost function On(bits: seq<bool>): set<nat>
  {
    set i | 0 <= i < |bits| && bits[i]
  }

  lemma OnIff(bits: seq<bool>, i: nat)
    ensures i in On(bits) <==> i < |bits| && bits[i]
  {
  }

  lemma OnWrite(bits: seq<bool>, i: nat, v: bool)
    requires i < |bits|
    ensures On(bits[i := v]) == if v then On(bits) + {i} else On(bits) - {i}
  {
    var after := bits[i := v];
    assert forall j :: 0 <= j < |bits| ==> after[j] == if j == i then v else bits[j];
  }

  /** The chunks whose bits are in `on`. */
  ghost function MarkedOn(sh: Shape, on: set<nat>): set<Chunk>
  {
    set c | c in AllChunks(sh) && Absolute(sh, c) in on
  }

  lemma MarkedIsOn(sh: Shape, bits: seq<bool>)
    ensures Marked(sh, bits) == MarkedOn(sh, On(bits))
  {
  }

  lemma MarkedOnIff(sh: Shape, on: set<nat>, c: Chunk)
    ensures c in MarkedOn(sh, on) <==> InShape(sh, c) && Absolute(sh, c) in on
  {
  }

  /** Setting or clearing the bit of a chunk. */
  lemma MarkedOnWrite(sh: Shape, on: set<nat>, c: Chunk)
    requires InShape(sh, c)
    ensures MarkedOn(sh, on + {Absolute(sh, c)}) == MarkedOn(sh, on) + {c}
    ensures MarkedOn(sh, on - {Absolute(sh, c)}) == MarkedOn(sh, on) - {c}
  {
    forall d
      ensures InShape(sh, d) && Absolute(sh, d) == Absolute(sh, c) <==> d == c
    {
      if InShape(sh, d) && Absolute(sh, d) == Absolute(sh, c) {
        AbsoluteInjective(sh, c, d);
      }
    }
  }

  lemma SetMarks(sh: Shape, before: seq<bool>, after: seq<bool>, page: nat)
    requires 0 < sh.levels && page < LevelBits(sh, 0) && On(after) == On(before) + {page}
    ensures Marked(sh, after) == Marked(sh, before) + {Chunk(0, page)}
  {
    MarkedIsOn(sh, before);
    MarkedIsOn(sh, after);
    MarkedOnWrite(sh, On(before), Chunk(0, page));
  }

  /** `merge_up_from` started at bit `i` as if it belonged to `level`; None is a
      panic on a bit outside the bitmap. */
  ghost function MergeBits(sh: Shape, on: set<nat>, i: nat, level: nat): Option<set<nat>>
    requires level < sh.levels && LevelOffset(sh, level) <= i
    decreases sh.levels - level
  {
    var total := LevelOffset(sh, sh.levels);
    var even := i - i % 2;
    OffsetEven(sh, level);
    if level + 1 == sh.levels then Some(on)
    else if even >= total || (even in on && even + 1 >= total) then None
    else if even !in on || even + 1 !in on then Some(on)
    else
      var up := (even - LevelOffset(sh, level)) / 2 + LevelOffset(sh, level + 1);
      if up >= total then None
      else MergeBits(sh, on - {even} - {even + 1} + {up}, up, level + 1)
  }

  /** Started at the bit of a chunk it never leaves the bitmap, and merges that
      chunk. */
  lemma {:induction false} MergeBitsMerges(sh: Shape, on: set<nat>, c: Chunk)
    requires InShape(sh, c)
    ensures var r := MergeBits(sh, on, Absolute(sh, c), c.level);
            r.Some? && MarkedOn(sh, r.value) == MergeUp(MarkedOn(sh, on), c, sh.levels)
    decreases sh.levels - c.level
  {
    hide LevelOffset, LevelBits, MarkedOn;
    if c.level + 1 < sh.levels {
      var even := Absolute(sh, c) - Absolute(sh, c) % 2;
      ClearLowBit(sh, c, even);
      var e := EvenBuddy(c);
      AbsoluteInBitmap(sh, e);
      AbsoluteInBitmap(sh, Buddy(e));
      AbsoluteInBitmap(sh, Parent(c));
      MarkedOnIff(sh, on, e);
      MarkedOnIff(sh, on, Buddy(e));
      if even in on && even + 1 in on {
        MarkedOnWrite(sh, on, e);
        MarkedOnWrite(sh, on - {even}, Buddy(e));
        MarkedOnWrite(sh, on - {even} - {even + 1}, Parent(c));
        MergeBitsMerges(sh, on - {even} - {even + 1} + {Absolute(sh, Parent(c))}, Parent(c));
        assert MarkedOn(sh, on) - {e} - {Buddy(e)} == MarkedOn(sh, on) - {c, Buddy(c)};
      }
    }
  }

  /** No bitmap makes a frame at or past the capacity free. */
  lemma FreeBelowCapacity(sh: Shape, bits: seq<bool>, p: nat)
    requires |bits| == LevelOffset(sh, sh.levels) && p in FreePages(Marked(sh, bits))
    ensures p < LevelBits(sh, 0)
  {
    var c :| c in Marked(sh, bits) && p in Pages(c);
    MarkedIff(sh, bits, c);
    InShapeIff(sh, c);
  }

  /** Returning a frame past the capacity, as far as the bitmap reaches, marks the
      chunk of a higher level that has its bit, unless that one has to merge. */
  lemma StrayReturn(sh: Shape, on: set<nat>, f: nat) returns (c: Chunk)
    requires 1 < sh.levels && LevelBits(sh, 0) <= f < LevelOffset(sh, sh.levels)
    ensures InShape(sh, c) && 1 <= c.level && Pages(c) <= Interval(0, LevelBits(sh, 0))
    ensures MarkedOn(sh, on + {f}) == MarkedOn(sh, on) + {c}
    ensures c.level + 1 < sh.levels && Buddy(c) !in MarkedOn(sh, on) ==>
              MergeBits(sh, on + {f}, f, 0) == Some(on + {f})
  {
    hide LevelBits, MarkedOn, Shl, Shr, Pages;
    c := BeyondCapacity(sh, f);
    MarkedOnWrite(sh, on, c);
    if c.level + 1 < sh.levels && Buddy(c) !in MarkedOn(sh, on) {
      ClearLowBit(sh, c, f - f % 2);
      var e := EvenBuddy(c);
      AbsoluteInBitmap(sh, Buddy(e));
      MarkedOnIff(sh, on, Buddy(c));
      assert Buddy(c) in {e, Buddy(e)};
      assert Absolute(sh, Buddy(c)) != f;
    }
  }
}

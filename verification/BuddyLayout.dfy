/** How chunks are laid out in the flat bitmap: level 0 first, then each level
    with half the bits of the one below. */
module BuddyLayout {
  import opened Bits
  import opened Chunks

  /** `levels` is BUDDY_LEVELS, `tops` the number of chunks of the top level and
      `huge` is LEVEL_2MIB. */
  datatype Shape = Shape(levels: nat, tops: nat, huge: nat)
  {
    ghost predicate Ok()
    {
      0 < huge < levels && 0 < tops
    }
  }

  /** The kernel's constants. */
  const KERNEL := Shape(16, 512, 9)

  /** MAX_BUDDY_BITS: twice the number of pages the bitmap can describe. */
  function MaxBuddyBits(sh: Shape): nat
  {
    Shl(sh.tops, sh.levels)
  }

  function LevelBits(sh: Shape, level: nat): nat
  {
    Shr(MaxBuddyBits(sh), level + 1)
  }

  /** LEVEL_OFFSETS[level] */
  function LevelOffset(sh: Shape, level: nat): nat
  {
    if level == 0 then 0 else LevelOffset(sh, level - 1) + Shr(MaxBuddyBits(sh), level)
  }

  ghost predicate InShape(sh: Shape, c: Chunk)
  {
    c.level < sh.levels && c.index < LevelBits(sh, c.level)
  }

  /** `relative_to_absolute` */
  function Absolute(sh: Shape, c: Chunk): nat
  {
    c.index + LevelOffset(sh, c.level)
  }

  // --- level sizes ---

  lemma LevelBitsExact(sh: Shape, level: nat)
    requires level < sh.levels
    ensures LevelBits(sh, level) == Shl(sh.tops, sh.levels - 1 - level)
  {
    ShlAdd(sh.tops, sh.levels - 1 - level, level + 1);
    ShrShl(Shl(sh.tops, sh.levels - 1 - level), level + 1);
  }

  /** Each level has twice the bits of the next: both halves of a chunk exist. */
  lemma LevelBitsHalve(sh: Shape, level: nat)
    requires level + 1 < sh.levels
    ensures LevelBits(sh, level) == 2 * LevelBits(sh, level + 1)
  {
    LevelBitsExact(sh, level);
  }

  lemma LevelBitsWiden(sh: Shape, l: nat, level: nat)
    requires l <= level < sh.levels
    ensures LevelBits(sh, l) == Shl(LevelBits(sh, level), level - l)
  {
    LevelBitsExact(sh, l);
    LevelBitsExact(sh, level);
    ShlAdd(sh.tops, sh.levels - 1 - level, level - l);
  }

  lemma {:induction false} OffsetMonotone(sh: Shape, a: nat, b: nat)
    requires a <= b
    ensures LevelOffset(sh, a) <= LevelOffset(sh, b)
    ensures a < b ==> LevelOffset(sh, a) + LevelBits(sh, a) <= LevelOffset(sh, b)
  {
    if a < b {
      OffsetMonotone(sh, a, b - 1);
    }
  }

  /** Every level starts at an even index, so clearing the low bit of an
      absolute index gives the even buddy of the same level. */
  lemma {:induction false} OffsetEven(sh: Shape, level: nat)
    requires level < sh.levels
    ensures LevelOffset(sh, level) % 2 == 0
  {
    if level > 0 {
      OffsetEven(sh, level - 1);
      LevelBitsHalve(sh, level - 1);
    }
  }

  function EvenBuddy(c: Chunk): Chunk
  {
    Chunk(c.level, c.index - c.index % 2)
  }

  lemma ClearLowBit(sh: Shape, c: Chunk, i: nat)
    requires InShape(sh, c) && c.level + 1 < sh.levels && i == Absolute(sh, c) - Absolute(sh, c) % 2
    ensures var e := EvenBuddy(c);
            && InShape(sh, e) && i == Absolute(sh, e)
            && InShape(sh, Buddy(e)) && i + 1 == Absolute(sh, Buddy(e))
            && {e, Buddy(e)} == {c, Buddy(c)}
    ensures InShape(sh, Parent(c)) && i >= LevelOffset(sh, c.level)
    ensures (i - LevelOffset(sh, c.level)) / 2 + LevelOffset(sh, c.level + 1) == Absolute(sh, Parent(c))
  {
    OffsetEven(sh, c.level);
    LevelBitsHalve(sh, c.level);
  }

  lemma HalvesInShape(sh: Shape, c: Chunk)
    requires InShape(sh, c) && c.level > 0
    ensures InShape(sh, LeftHalf(c)) && InShape(sh, RightHalf(c))
  {
  }

  /** A chunk is in the bitmap exactly when its pages are below the capacity. */
  lemma InShapeIff(sh: Shape, c: Chunk)
    requires c.level < sh.levels
    ensures InShape(sh, c) <==> FirstPage(c) + Pow2(c.level) <= LevelBits(sh, 0)
  {
    LevelBitsWiden(sh, 0, c.level);
    if InShape(sh, c) {
      ShlMonotone(c.index, LevelBits(sh, c.level), c.level);
    } else {
      ShlMonotone(LevelBits(sh, c.level), c.index, c.level);
    }
  }

  // --- absolute and relative indices ---

  lemma AbsoluteInBitmap(sh: Shape, c: Chunk)
    requires InShape(sh, c)
    ensures LevelOffset(sh, c.level) <= Absolute(sh, c) < LevelOffset(sh, c.level + 1) <= LevelOffset(sh, sh.levels)
  {
    OffsetMonotone(sh, c.level + 1, sh.levels);
  }

  lemma AbsoluteInjective(sh: Shape, c: Chunk, d: Chunk)
    requires InShape(sh, c) && InShape(sh, d) && Absolute(sh, c) == Absolute(sh, d)
    ensures c == d
  {
    if c.level < d.level {
      OffsetMonotone(sh, c.level, d.level);
    } else if d.level < c.level {
      OffsetMonotone(sh, d.level, c.level);
    }
  }

  /** The order of absolute indices is by level, then by index. */
  lemma AbsoluteOrder(sh: Shape, c: Chunk, d: Chunk)
    requires InShape(sh, c) && InShape(sh, d)
    ensures Absolute(sh, c) <= Absolute(sh, d) <==>
            c.level < d.level || (c.level == d.level && c.index <= d.index)
  {
    if c.level < d.level {
      OffsetMonotone(sh, c.level, d.level);
    } else if d.level < c.level {
      OffsetMonotone(sh, d.level, c.level);
    }
  }

  /** `absolute_to_relative` inverts `relative_to_absolute`. */
  method AbsoluteToRelative(sh: Shape, abs: nat) returns (index: nat, level: nat)
    requires abs < LevelOffset(sh, sh.levels)
    ensures InShape(sh, Chunk(level, index)) && Absolute(sh, Chunk(level, index)) == abs
  {
    for l := 0 to sh.levels
      invariant LevelOffset(sh, l) <= abs
    {
      if abs < LevelOffset(sh, l + 1) {
        return abs - LevelOffset(sh, l), l;
      }
    }
    assert false;
  }

  // --- the chunks a bitmap marks ---

  ghost function AllChunks(sh: Shape): set<Chunk>
  {
    set l, i | l in Interval(0, sh.levels) && i in Interval(0, LevelBits(sh, l)) :: Chunk(l, i)
  }

  ghost function Marked(sh: Shape, bits: seq<bool>): set<Chunk>
  {
    set c | c in AllChunks(sh) && Absolute(sh, c) < |bits| && bits[Absolute(sh, c)]
  }

  lemma MarkedIff(sh: Shape, bits: seq<bool>, c: Chunk)
    requires |bits| == LevelOffset(sh, sh.levels)
    ensures c in AllChunks(sh) <==> InShape(sh, c)
    ensures InShape(sh, c) ==> Absolute(sh, c) < |bits|
    ensures c in Marked(sh, bits) <==> InShape(sh, c) && bits[Absolute(sh, c)]
  {
    if InShape(sh, c) {
      AbsoluteInBitmap(sh, c);
    }
  }

  /** Writing one bit adds or removes one chunk. */
  lemma WriteBit(sh: Shape, bits: seq<bool>, c: Chunk, v: bool)
    requires |bits| == LevelOffset(sh, sh.levels) && InShape(sh, c)
    ensures Absolute(sh, c) < |bits|
    ensures Marked(sh, bits[Absolute(sh, c) := v]) == if v then Marked(sh, bits) + {c} else Marked(sh, bits) - {c}
  {
    AbsoluteInBitmap(sh, c);
    var after := bits[Absolute(sh, c) := v];
    forall d
      ensures d in Marked(sh, after) <==> if d == c then v else d in Marked(sh, bits)
    {
      MarkedIff(sh, bits, d);
      if InShape(sh, d) && Absolute(sh, c) == Absolute(sh, d) {
        AbsoluteInjective(sh, c, d);
      }
    }
  }

  // --- addresses ---

  /** `relative_index_to_addr` */
  function ToAddress(c: Chunk): nat
  {
    Shl(c.index * PAGE_SIZE, c.level)
  }

  /** `addr_to_relative_index` */
  function RelativeIndex(addr: nat, level: nat): nat
  {
    Shr(addr / PAGE_SIZE, level)
  }

  lemma {:induction false} ShlScaled(x: nat, n: nat)
    ensures Shl(x * PAGE_SIZE, n) == Shl(x, n) * PAGE_SIZE
  {
    if n > 0 {
      ShlScaled(x, n - 1);
    }
  }

  /** A chunk's address is that of its first page, and leads back to it. */
  lemma AddressRoundTrip(c: Chunk)
    ensures ToAddress(c) == FirstPage(c) * PAGE_SIZE
    ensures RelativeIndex(ToAddress(c), c.level) == c.index
  {
    ShlScaled(c.index, c.level);
    ShrShl(c.index, c.level);
  }

  // --- the kernel's numbers ---

  lemma {:induction false} OffsetClosedForm(sh: Shape, level: nat)
    requires level <= sh.levels
    ensures LevelOffset(sh, level) + Shl(sh.tops, sh.levels - level) == MaxBuddyBits(sh)
  {
    if level > 0 {
      OffsetClosedForm(sh, level - 1);
      LevelBitsExact(sh, level - 1);
    }
  }

  /** Every frame past the capacity of level 0, up to the size of the bitmap, has
      the bit of a chunk of a higher level: marking it free would mark pages
      below the capacity instead. Later frames have no bit. */
  lemma BeyondCapacity(sh: Shape, f: nat) returns (c: Chunk)
    requires LevelBits(sh, 0) <= f < LevelOffset(sh, sh.levels)
    ensures InShape(sh, c) && 1 <= c.level && Absolute(sh, c) == f == Absolute(sh, Chunk(0, f))
    ensures Pages(c) <= Interval(0, LevelBits(sh, 0))
  {
    var level := 1;
    while LevelOffset(sh, level + 1) <= f
      invariant 1 <= level < sh.levels && LevelOffset(sh, level) <= f
      decreases sh.levels - level
    {
      level := level + 1;
    }
    c := Chunk(level, f - LevelOffset(sh, level));
    InShapeIff(sh, c);
  }

  /** MAX_PHYS_MAP is 128 GiB, but level 0 has a bit for each page of its lower
      half only. */
  lemma KernelNumbers()
    ensures KERNEL.Ok()
    ensures MaxBuddyBits(KERNEL) == 0x20_0000_0000 / PAGE_SIZE
    ensures LevelBits(KERNEL, 0) * PAGE_SIZE == 0x10_0000_0000
    ensures LevelOffset(KERNEL, KERNEL.levels) == 33553920
    ensures Pow2(KERNEL.huge) * PAGE_SIZE == 0x20_0000
  {
    assert Shl(512, 8) == 0x2_0000;
    ShlAdd(512, 8, 8);
    assert Shl(0x2_0000, 8) == 0x200_0000;
    OffsetClosedForm(KERNEL, 16);
    assert Shr(MaxBuddyBits(KERNEL), 1) == 0x100_0000;
  }
}

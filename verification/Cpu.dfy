/** The registers and memory the context-switch code works on. Words and
    addresses are integers; a stack grows down in steps of 8. */
module Cpu {

  datatype Regs = Regs(
    rax: int, rbx: int, rcx: int, rdx: int, rsi: int, rdi: int, rbp: int,
    r8: int, r9: int, r10: int, r11: int, r12: int, r13: int, r14: int, r15: int,
    rsp: int, rip: int, rflags: int, cs: int, ss: int)

  type Memory = map<int, int>

  /** The words `ws` stand at address `a` and upwards. */
  ghost predicate Holds(m: Memory, a: int, ws: seq<int>)
  {
    forall i :: 0 <= i < |ws| ==> a + 8 * i in m && m[a + 8 * i] == ws[i]
  }

  /** Both memories agree at `a`. */
  ghost predicate SameAt(m: Memory, m': Memory, a: int)
  {
    (a in m <==> a in m') && (a in m ==> m[a] == m'[a])
  }

  ghost predicate SameWithin(m: Memory, m': Memory, lo: int, hi: int)
  {
    forall a :: lo <= a < hi ==> SameAt(m, m', a)
  }

  /** Nothing but lo..hi has changed. */
  ghost predicate SameOutside(m: Memory, m': Memory, lo: int, hi: int)
  {
    forall a :: a < lo || hi <= a ==> SameAt(m, m', a)
  }

  /** Bit 9 of RFLAGS, the interrupt flag. */
  predicate InterruptsOn(rflags: int)
  {
    rflags / 0x200 % 2 == 1
  }

  /** RFLAGS after `cli` */
  function Cli(rflags: int): (r: int)
    ensures !InterruptsOn(r) && (r == rflags || r == rflags - 0x200)
  {
    if InterruptsOn(rflags) then
      assert (rflags - 0x200) / 0x200 == rflags / 0x200 - 1;
      rflags - 0x200
    else rflags
  }

  /** RFLAGS after `sti` */
  function Sti(rflags: int): (r: int)
    ensures InterruptsOn(r) && (r == rflags || r == rflags + 0x200)
  {
    if InterruptsOn(rflags) then rflags else
      assert (rflags + 0x200) / 0x200 == rflags / 0x200 + 1;
      rflags + 0x200
  }

  lemma HoldsConcat(m: Memory, a: int, ws: seq<int>, vs: seq<int>)
    ensures Holds(m, a, ws + vs) <==> Holds(m, a, ws) && Holds(m, a + 8 * |ws|, vs)
  {
    var us := ws + vs;
    if Holds(m, a, us) {
      assert forall i :: 0 <= i < |ws| ==> us[i] == ws[i];
      forall i | 0 <= i < |vs|
        ensures a + 8 * |ws| + 8 * i in m && m[a + 8 * |ws| + 8 * i] == vs[i]
      {
        assert us[|ws| + i] == vs[i];
      }
    }
    if Holds(m, a, ws) && Holds(m, a + 8 * |ws|, vs) {
      forall i | 0 <= i < |us|
        ensures a + 8 * i in m && m[a + 8 * i] == us[i]
      {
        if i >= |ws| {
          assert us[i] == vs[i - |ws|];
        }
      }
    }
  }

  lemma HoldsKept(m: Memory, m': Memory, a: int, ws: seq<int>)
    requires Holds(m, a, ws) && SameWithin(m, m', a, a + 8 * |ws|)
    ensures Holds(m', a, ws)
  {
    forall i | 0 <= i < |ws|
      ensures a + 8 * i in m' && m'[a + 8 * i] == ws[i]
    {
      assert SameAt(m, m', a + 8 * i);
    }
  }

  lemma HoldsUnique(m: Memory, a: int, ws: seq<int>, vs: seq<int>)
    requires Holds(m, a, ws) && Holds(m, a, vs) && |ws| == |vs|
    ensures ws == vs
  {
  }

  lemma HoldsWord(m: Memory, a: int)
    requires a in m
    ensures Holds(m, a, [m[a]])
  {
  }

  lemma HoldsRest(m: Memory, a: int, ws: seq<int>)
    requires Holds(m, a, ws) && ws != []
    ensures a in m && m[a] == ws[0] && Holds(m, a + 8, ws[1..])
  {
    HoldsConcat(m, a, ws[..1], ws[1..]);
    assert ws[0] == ws[..1][0];
  }

  /** Writing below what stands on the stack. */
  lemma HoldsPush(m: Memory, a: int, ws: seq<int>, v: int)
    requires Holds(m, a, ws)
    ensures Holds(m[a - 8 := v], a - 8, [v] + ws)
  {
    var m' := m[a - 8 := v];
    HoldsConcat(m', a - 8, [v], ws);
  }
}

/** The 64-bit words that the block allocators keep their bits in, and the sequence of 64 bits that a word stands
    for.  Setting, clearing and testing through a one-hot mask work on one bit of the sequence. */
module WordBits {

  /** The bits of a word, lowest first. */
  type Word = w: seq<bool> | |w| == 64 witness seq(64, _ => false)

  const FULL: bv64 := 0xFFFF_FFFF_FFFF_FFFF

  /** A bit number as a shift amount. */
  function Shift(j: nat): bv6
    requires j < 64
  {
    if j == 0 then 0 else Shift(j - 1) + 1
  }

  lemma SuccessorNumber(x: bv6)
    requires x as nat < 63
    ensures (x + 1) as nat == x as nat + 1
  {
  }

  lemma {:induction false} ShiftNumber(j: nat)
    requires j < 64
    ensures Shift(j) as nat == j
  {
    if j > 0 {
      ShiftNumber(j - 1);
      SuccessorNumber(Shift(j - 1));
    }
  }

  lemma ShiftInjective(j: nat, k: nat)
    requires j < 64 && k < 64
    ensures Shift(j) == Shift(k) <==> j == k
  {
    ShiftNumber(j);
    ShiftNumber(k);
  }

  /** The test of one bit, as the code makes it. */
  predicate Test(w: bv64, x: bv6) {
    w & ((1 as bv64) << x) != 0
  }

  /** The lowest `n` bits of a word. */
  function LowestBits(w: bv64, n: nat): (r: seq<bool>)
    requires n <= 64
    ensures |r| == n
  {
    if n == 0 then [] else LowestBits(w, n - 1) + [Test(w, Shift(n - 1))]
  }

  function Bits(w: bv64): Word {
    LowestBits(w, 64)
  }

  lemma {:induction false} LowestAt(w: bv64, n: nat, j: nat)
    requires j < n <= 64
    ensures LowestBits(w, n)[j] == Test(w, Shift(j))
  {
    if j < n - 1 {
      LowestAt(w, n - 1, j);
    }
  }

  /** Testing a bit through its mask reads that bit of the sequence. */
  lemma TestBits(w: bv64, j: nat)
    requires j < 64
    ensures Bits(w)[j] == Test(w, Shift(j))
  {
    LowestAt(w, 64, j);
  }

  // ---------------------------------------------------------------- masks

  lemma MasksDisjoint(x: bv6, y: bv6)
    requires x != y
    ensures ((1 as bv64) << x) & ((1 as bv64) << y) == 0
  {
  }

  lemma MaskNonZero(x: bv6)
    ensures (1 as bv64) << x != 0
  {
  }

  lemma OrElsewhere(w: bv64, a: bv64, b: bv64)
    requires a & b == 0
    ensures (w | a) & b == w & b
  {
  }

  lemma OrHere(w: bv64, a: bv64)
    ensures (w | a) & a == a
  {
  }

  lemma AndNotElsewhere(w: bv64, a: bv64, b: bv64)
    requires a & b == 0
    ensures (w & !a) & b == w & b
  {
  }

  lemma AndNotHere(w: bv64, a: bv64)
    ensures (w & !a) & a == 0
  {
  }

  lemma SetElsewhere(w: bv64, x: bv6, y: bv6)
    requires x != y
    ensures (w | ((1 as bv64) << x)) & ((1 as bv64) << y) == w & ((1 as bv64) << y)
  {
    MasksDisjoint(x, y);
    OrElsewhere(w, (1 as bv64) << x, (1 as bv64) << y);
  }

  lemma ClearElsewhere(w: bv64, x: bv6, y: bv6)
    requires x != y
    ensures (w & !((1 as bv64) << x)) & ((1 as bv64) << y) == w & ((1 as bv64) << y)
  {
    MasksDisjoint(x, y);
    AndNotElsewhere(w, (1 as bv64) << x, (1 as bv64) << y);
  }

  lemma SetHere(w: bv64, x: bv6)
    ensures (w | ((1 as bv64) << x)) & ((1 as bv64) << x) != 0
  {
    MaskNonZero(x);
    OrHere(w, (1 as bv64) << x);
  }

  // ---------------------------------------------------------------- one bit at a time

  lemma SetTestElsewhere(w: bv64, u: bv64, x: bv6, y: bv6)
    requires u == w | ((1 as bv64) << x) && x != y
    ensures Test(u, y) <==> Test(w, y)
  {
    SetElsewhere(w, x, y);
  }

  lemma SetTestHere(w: bv64, u: bv64, x: bv6)
    requires u == w | ((1 as bv64) << x)
    ensures Test(u, x)
  {
    SetHere(w, x);
  }

  lemma ClearTestElsewhere(w: bv64, u: bv64, x: bv6, y: bv6)
    requires u == w & !((1 as bv64) << x) && x != y
    ensures Test(u, y) <==> Test(w, y)
  {
    ClearElsewhere(w, x, y);
  }

  lemma ClearTestHere(w: bv64, u: bv64, x: bv6)
    requires u == w & !((1 as bv64) << x)
    ensures !Test(u, x)
  {
    AndNotHere(w, (1 as bv64) << x);
  }

  lemma SetBitAt(w: bv64, u: bv64, x: bv6, j: nat, k: nat)
    requires j < 64 && k < 64 && x == Shift(j) && u == w | ((1 as bv64) << x)
    ensures Bits(u)[k] == (k == j || Bits(w)[k])
  {
    TestBits(u, k);
    TestBits(w, k);
    ShiftInjective(j, k);
    if k == j {
      SetTestHere(w, u, x);
    } else {
      SetTestElsewhere(w, u, x, Shift(k));
    }
  }

  lemma ClearBitAt(w: bv64, u: bv64, x: bv6, j: nat, k: nat)
    requires j < 64 && k < 64 && x == Shift(j) && u == w & !((1 as bv64) << x)
    ensures Bits(u)[k] == (k != j && Bits(w)[k])
  {
    TestBits(u, k);
    TestBits(w, k);
    ShiftInjective(j, k);
    if k == j {
      ClearTestHere(w, u, x);
    } else {
      ClearTestElsewhere(w, u, x, Shift(k));
    }
  }

  /** Bit `k` is `v` where `k` is `j`, and otherwise as before. */
  predicate Updated(b: Word, c: Word, j: nat, v: bool, k: nat)
    requires k < 64
  {
    c[k] == if k == j then v else b[k]
  }

  lemma UpdatedAll(b: Word, c: Word, j: nat, v: bool)
    requires j < 64 && forall k: nat {:trigger Updated(b, c, j, v, k)} :: k < 64 ==> Updated(b, c, j, v, k)
    ensures c == b[j := v]
  {
    forall k: nat | k < 64 ensures c[k] == b[j := v][k] {
      assert Updated(b, c, j, v, k);
    }
  }

  /** Setting a bit through its mask sets that bit of the sequence. */
  lemma SetBits(w: bv64, u: bv64, x: bv6, j: nat)
    requires j < 64 && x == Shift(j) && u == w | ((1 as bv64) << x)
    ensures Bits(u) == Bits(w)[j := true]
  {
    var b, c := Bits(w), Bits(u);
    forall k: nat | k < 64 ensures Updated(b, c, j, true, k) {
      SetBitAt(w, u, x, j, k);
    }
    UpdatedAll(b, c, j, true);
  }

  /** Clearing a bit through its mask clears that bit of the sequence. */
  lemma ClearBits(w: bv64, u: bv64, x: bv6, j: nat)
    requires j < 64 && x == Shift(j) && u == w & !((1 as bv64) << x)
    ensures Bits(u) == Bits(w)[j := false]
  {
    var b, c := Bits(w), Bits(u);
    forall k: nat | k < 64 ensures Updated(b, c, j, false, k) {
      ClearBitAt(w, u, x, j, k);
    }
    UpdatedAll(b, c, j, false);
  }

  // ---------------------------------------------------------------- all bits at once

  lemma HighRaw(x: bv6)
    requires x < 63
    ensures FULL << x == ((1 as bv64) << x) | (FULL << (x + 1))
  {
  }

  lemma OneBit(w: bv64, x: bv6)
    requires w & ((1 as bv64) << x) != 0
    ensures w & ((1 as bv64) << x) == (1 as bv64) << x
  {
  }

  lemma DropBit(w: bv64, a: bv64, h: bv64)
    requires w & a == a && w | (a | h) == FULL
    ensures w | h == FULL
  {
  }

  lemma OnesRaw(x: bv6)
    ensures FULL & ((1 as bv64) << x) != 0
  {
  }

  lemma LowStep(w: bv64, x: bv6)
    requires x < 63 && w | (FULL << x) == FULL && w & ((1 as bv64) << x) != 0
    ensures w | (FULL << (x + 1)) == FULL
  {
    HighRaw(x);
    OneBit(w, x);
    DropBit(w, (1 as bv64) << x, FULL << (x + 1));
  }

  lemma TopRaw(w: bv64)
    requires w | (FULL << 63) == FULL && w & ((1 as bv64) << 63) != 0
    ensures w == FULL
  {
  }

  /** Every bit of the sequence below `j` is set. */
  predicate SetBelow(b: Word, j: nat) {
    forall k :: 0 <= k < j && k < 64 ==> b[k]
  }

  lemma ShiftStep(j: nat)
    requires 0 < j < 64
    ensures Shift(j) == Shift(j - 1) + 1 && Shift(j - 1) < 63
  {
    ShiftNumber(j - 1);
    NumberBelow(Shift(j - 1));
  }

  lemma NumberBelow(x: bv6)
    requires x as nat < 63
    ensures x < 63
  {
  }

  lemma LastNumber(x: bv6)
    requires x as nat == 63
    ensures x == 63
  {
  }

  /** The bits from `x` on are the only ones that can be clear. */
  predicate ClearFrom(w: bv64, x: bv6) {
    w | (FULL << x) == FULL
  }

  lemma LowNext(w: bv64, y: bv6)
    requires y < 63 && Test(w, y) && ClearFrom(w, y)
    ensures ClearFrom(w, y + 1)
  {
    LowStep(w, y);
  }

  lemma {:induction false} LowBits(w: bv64, j: nat, x: bv6)
    requires j < 64 && x == Shift(j) && SetBelow(Bits(w), j)
    ensures ClearFrom(w, x)
  {
    if j > 0 {
      ShiftStep(j);
      LowBits(w, j - 1, Shift(j - 1));
      TestBits(w, j - 1);
      LowNext(w, Shift(j - 1));
    } else {
      OrFull(w);
    }
  }

  lemma OrFull(w: bv64)
    ensures w | (FULL << (0 as bv6)) == FULL
  {
  }

  lemma AllSet(w: bv64)
    requires SetBelow(Bits(w), 64)
    ensures w == FULL
  {
    ShiftNumber(63);
    LastNumber(Shift(63));
    LowBits(w, 63, 63);
    TestBits(w, 63);
    TopRaw(w);
  }

  lemma FullSet(j: nat)
    requires j < 64
    ensures Bits(FULL)[j]
  {
    TestBits(FULL, j);
    OnesRaw(Shift(j));
  }

  /** The comparison with all ones tells whether every bit of the sequence is set. */
  lemma FullBits(w: bv64)
    ensures w == FULL <==> SetBelow(Bits(w), 64)
  {
    forall j: nat | j < 64 ensures Bits(FULL)[j] {
      FullSet(j);
    }
    if SetBelow(Bits(w), 64) {
      AllSet(w);
    }
  }
}

/** The block allocators: one bit per block, a counter of used blocks, and searches for free blocks. */
module BlockBitmap {
  import opened WordBits

  const WRAP: nat := 0x1_0000_0000_0000_0000

  // ---------------------------------------------------------------- bits

  /** Block `b` is marked used. */
  predicate Used(m: seq<Word>, b: nat)
    requires b < 64 * |m|
  {
    m[b / 64][b % 64]
  }

  function SetBlock(m: seq<Word>, b: nat): (r: seq<Word>)
    requires b < 64 * |m|
    ensures |r| == |m|
  {
    m[b / 64 := m[b / 64][b % 64 := true]]
  }

  function ClearBlock(m: seq<Word>, b: nat): (r: seq<Word>)
    requires b < 64 * |m|
    ensures |r| == |m|
  {
    m[b / 64 := m[b / 64][b % 64 := false]]
  }

  /** Setting a block marks exactly it. */
  lemma SetBlockUsed(m: seq<Word>, b: nat, c: nat)
    requires b < 64 * |m| && c < 64 * |m|
    ensures Used(SetBlock(m, b), c) <==> c == b || Used(m, c)
  {
  }

  /** Clearing a block unmarks exactly it. */
  lemma ClearBlockUsed(m: seq<Word>, b: nat, c: nat)
    requires b < 64 * |m| && c < 64 * |m|
    ensures Used(ClearBlock(m, b), c) <==> c != b && Used(m, c)
  {
  }

  /** How many blocks below `n` are marked used. */
  function Count(m: seq<Word>, n: nat): nat
    requires n <= 64 * |m|
  {
    if n == 0 then 0 else Count(m, n - 1) + (if Used(m, n - 1) then 1 else 0)
  }

  lemma {:induction false} CountSet(m: seq<Word>, b: nat, n: nat)
    requires b < 64 * |m| && n <= 64 * |m| && !Used(m, b)
    ensures Count(SetBlock(m, b), n) == Count(m, n) + (if b < n then 1 else 0)
  {
    if n > 0 {
      CountSet(m, b, n - 1);
      SetBlockUsed(m, b, n - 1);
    }
  }

  lemma {:induction false} CountClear(m: seq<Word>, b: nat, n: nat)
    requires b < 64 * |m| && n <= 64 * |m| && Used(m, b)
    ensures Count(ClearBlock(m, b), n) == Count(m, n) - (if b < n then 1 else 0)
  {
    if n > 0 {
      CountClear(m, b, n - 1);
      ClearBlockUsed(m, b, n - 1);
    }
  }

  lemma ClearFree(m: seq<Word>, b: nat)
    requires b < 64 * |m| && !Used(m, b)
    ensures ClearBlock(m, b) == m
  {
    assert m[b / 64][b % 64 := false] == m[b / 64];
  }

  // ---------------------------------------------------------------- ranges

  /** `size` consecutive blocks from `s` are free. */
  ghost predicate FreeRange(m: seq<Word>, s: nat, size: nat) {
    s + size <= 64 * |m| && forall b: nat {:trigger Used(m, b)} :: s <= b < s + size ==> !Used(m, b)
  }

  /** No range of `size` free blocks starts below `n`. */
  ghost predicate NoneBelow(m: seq<Word>, size: nat, n: nat) {
    forall s: nat {:trigger FreeRange(m, s, size)} :: s < n ==> !FreeRange(m, s, size)
  }

  /** A used block inside a range rules it out. */
  lemma Blocked(m: seq<Word>, s: nat, size: nat, b: nat)
    requires s <= b < s + size && b < 64 * |m| && Used(m, b)
    ensures !FreeRange(m, s, size)
  {
  }

  /** Every start up to an obstacle inside the range fails with it. */
  lemma Obstacle(m: seq<Word>, size: nat, s: nat, count: nat)
    requires NoneBelow(m, size, s) && count < size && s + count < 64 * |m| && Used(m, s + count)
    ensures NoneBelow(m, size, s + count + 1)
  {
    forall t: nat | t < s + count + 1 ensures !FreeRange(m, t, size) {
      if s <= t {
        Blocked(m, t, size, s + count);
      }
    }
  }

  /** A full word holds no start of a free range. */
  lemma FullWord(m: seq<Word>, size: nat, i: nat)
    requires NoneBelow(m, size, 64 * i) && i < |m| && SetBelow(m[i], 64) && size > 0
    ensures NoneBelow(m, size, 64 * (i + 1))
  {
    forall t: nat | 64 * i <= t < 64 * (i + 1) ensures !FreeRange(m, t, size) {
      assert t / 64 == i;
      Blocked(m, t, size, t);
    }
  }

  // ---------------------------------------------------------------- what the operations do

  /** The bitmap, the counter of used blocks, and the number of blocks. */
  datatype Blocks = Blocks(bits: seq<Word>, used: nat, total: nat) {

    /** The blocks of the words that the searches look at. */
    function Scanned(): nat {
      64 * (total / 64)
    }

    predicate Valid() {
      total < WRAP && total / 64 <= |bits| && used < WRAP
    }

    /** get_total_usable_blocks, in 64 bits. */
    function Usable(): nat {
      (total - used) % WRAP
    }
  }

  /** 64-bit addition to the counter. */
  function Plus(used: nat, n: int): (r: nat)
    ensures r < WRAP
  {
    (used + n) % WRAP
  }

  /** The least free block from `b` on and below `n`, or -1. */
  function FirstFree(m: seq<Word>, n: nat, b: nat): (r: int)
    requires b <= n <= 64 * |m|
    ensures r == -1 || (b <= r < n && !Used(m, r))
    ensures forall c: nat {:trigger Used(m, c)} :: b <= c < (if r >= 0 then r else n) ==> Used(m, c)
    decreases n - b
  {
    if b == n then -1 else if !Used(m, b) then b else FirstFree(m, n, b + 1)
  }

  /** The least start from `s` on and below `n` of `size` free blocks, or -1. */
  ghost function FirstRange(m: seq<Word>, size: nat, n: nat, s: nat): (r: int)
    requires s <= n
    ensures r == -1 || (s <= r < n && FreeRange(m, r, size))
    ensures forall t: nat {:trigger FreeRange(m, t, size)} :: s <= t < (if r >= 0 then r else n) ==> !FreeRange(m, t, size)
    decreases n - s
  {
    if s == n then -1 else if FreeRange(m, s, size) then s else FirstRange(m, size, n, s + 1)
  }

  function SetRange(m: seq<Word>, s: nat, size: nat): (r: seq<Word>)
    requires s + size <= 64 * |m|
    ensures |r| == |m|
  {
    if size == 0 then m else SetBlock(SetRange(m, s, size - 1), s + size - 1)
  }

  function ClearRange(m: seq<Word>, s: nat, size: nat): (r: seq<Word>)
    requires s + size <= 64 * |m|
    ensures |r| == |m|
  {
    if size == 0 then m else ClearBlock(ClearRange(m, s, size - 1), s + size - 1)
  }

  /** The block that mmgr_alloc_block takes, or -1 when the counter says nothing is left or nothing is free. */
  function Chosen(s: Blocks): (b: int)
    requires s.Valid()
    ensures b == -1 || (0 <= b < s.Scanned() && !Used(s.bits, b))
  {
    if s.Usable() == 0 then -1 else FirstFree(s.bits, s.Scanned(), 0)
  }

  /** mmgr_alloc_block. */
  function Alloc(s: Blocks): Blocks
    requires s.Valid()
  {
    var b := Chosen(s);
    if b == -1 then s else s.(bits := SetBlock(s.bits, b), used := Plus(s.used, 1))
  }

  /** The start of the range that mmgr_alloc_size_blocks takes, or -1; it never takes a range of no blocks. */
  ghost function ChosenRange(s: Blocks, size: nat): (b: int)
    ensures b == -1 || (0 <= b < s.Scanned() && FreeRange(s.bits, b, size))
  {
    if s.Usable() <= size || size == 0 then -1 else FirstRange(s.bits, size, s.Scanned(), 0)
  }

  /** mmgr_alloc_size_blocks. */
  ghost function AllocRange(s: Blocks, size: nat): Blocks {
    var b := ChosenRange(s, size);
    if b == -1 then s else s.(bits := SetRange(s.bits, b, size), used := Plus(s.used, size))
  }

  /** mmgr_free_block, which ignores the null address. */
  function Free(s: Blocks, address: nat): Blocks
    requires address / 4096 < 64 * |s.bits|
  {
    if address == 0 then s else s.(bits := ClearBlock(s.bits, address / 4096), used := Plus(s.used, -1))
  }

  /** mmgr_free_size_blocks. */
  function FreeMany(s: Blocks, address: nat, size: nat): Blocks
    requires address / 4096 + size <= 64 * |s.bits|
  {
    if address == 0 then s
    else s.(bits := ClearRange(s.bits, address / 4096, size), used := Plus(s.used, -(size as int)))
  }

  /** The address that stands for a block; null stands for failure, and also for block 0. */
  function Address(b: int): nat {
    if b >= 0 then 4096 * b else 0
  }

  // ---------------------------------------------------------------- ranges of blocks

  lemma {:induction false} SetRangeUsed(m: seq<Word>, s: nat, size: nat, c: nat)
    requires s + size <= 64 * |m| && c < 64 * |m|
    ensures Used(SetRange(m, s, size), c) <==> s <= c < s + size || Used(m, c)
  {
    if size > 0 {
      SetRangeUsed(m, s, size - 1, c);
      SetBlockUsed(SetRange(m, s, size - 1), s + size - 1, c);
    }
  }

  lemma {:induction false} ClearRangeUsed(m: seq<Word>, s: nat, size: nat, c: nat)
    requires s + size <= 64 * |m| && c < 64 * |m|
    ensures Used(ClearRange(m, s, size), c) <==> !(s <= c < s + size) && Used(m, c)
  {
    if size > 0 {
      ClearRangeUsed(m, s, size - 1, c);
      ClearBlockUsed(ClearRange(m, s, size - 1), s + size - 1, c);
    }
  }

  lemma {:induction false} CountSetRange(m: seq<Word>, s: nat, size: nat)
    requires FreeRange(m, s, size)
    ensures Count(SetRange(m, s, size), 64 * |m|) == Count(m, 64 * |m|) + size
  {
    if size > 0 {
      assert !Used(m, s + size - 1);
      CountSetRange(m, s, size - 1);
      SetRangeUsed(m, s, size - 1, s + size - 1);
      CountSet(SetRange(m, s, size - 1), s + size - 1, 64 * |m|);
    }
  }

  /** `size` consecutive blocks from `s` are used. */
  ghost predicate UsedRange(m: seq<Word>, s: nat, size: nat) {
    s + size <= 64 * |m| && forall b: nat {:trigger Used(m, b)} :: s <= b < s + size ==> Used(m, b)
  }

  lemma {:induction false} CountClearRange(m: seq<Word>, s: nat, size: nat)
    requires UsedRange(m, s, size)
    ensures Count(ClearRange(m, s, size), 64 * |m|) == Count(m, 64 * |m|) - size
  {
    if size > 0 {
      assert Used(m, s + size - 1);
      CountClearRange(m, s, size - 1);
      ClearRangeUsed(m, s, size - 1, s + size - 1);
      CountClear(ClearRange(m, s, size - 1), s + size - 1, 64 * |m|);
    }
  }

  // ---------------------------------------------------------------- runs

  datatype Event = AllocOne | AllocMany(size: nat) | FreeOne(address: nat) | FreeSome(address: nat, size: nat)

  /** The allocator, the blocks that are handed out, and those that were marked at the start. */
  datatype World = World(blocks: Blocks, out: iset<nat>, reserved: iset<nat>)

  /** The call hands out block `b`: it is among those that the search finds. */
  ghost predicate Gives(s: Blocks, e: Event, b: nat)
    requires s.Valid()
  {
    match e
    case AllocOne => b == Chosen(s)
    case AllocMany(size) => ChosenRange(s, size) >= 0 && ChosenRange(s, size) <= b < ChosenRange(s, size) + size
    case _ => false
  }

  /** The call takes block `b` back. */
  predicate Returns(e: Event, b: nat) {
    match e
    case FreeOne(address) => address != 0 && b == address / 4096
    case FreeSome(address, size) => address != 0 && address / 4096 <= b < address / 4096 + size
    case _ => false
  }

  /** The array is large enough for what is searched for and for what is freed. */
  predicate InBounds(s: Blocks, e: Event) {
    match e
    case AllocOne => true
    case AllocMany(size) => s.Scanned() + size <= 64 * |s.bits| + 1
    case FreeOne(address) => address / 4096 < 64 * |s.bits|
    case FreeSome(address, size) => address / 4096 + size <= 64 * |s.bits|
  }

  ghost function Call(s: Blocks, e: Event): Blocks
    requires s.Valid() && InBounds(s, e)
  {
    match e
    case AllocOne => Alloc(s)
    case AllocMany(size) => AllocRange(s, size)
    case FreeOne(address) => Free(s, address)
    case FreeSome(address, size) => FreeMany(s, address, size)
  }

  /** Callers hand back blocks that were handed out. */
  ghost predicate Possible(w: World, e: Event) {
    w.blocks.Valid() && InBounds(w.blocks, e) && forall b: nat {:trigger Returns(e, b)} :: Returns(e, b) ==> b in w.out
  }

  ghost function Step(w: World, e: Event): World
    requires Possible(w, e)
  {
    var out := iset b: nat | (b in w.out || Gives(w.blocks, e, b)) && !Returns(e, b);
    World(Call(w.blocks, e), out, w.reserved)
  }

  /** The bit of a block is set exactly when it is handed out or was marked at the start, and never for both. */
  ghost predicate Accounted(w: World, b: nat) {
    && (b in w.out || b in w.reserved <==> b < 64 * |w.blocks.bits| && Used(w.blocks.bits, b))
    && !(b in w.out && b in w.reserved)
  }

  ghost predicate Inv(w: World) {
    w.blocks.Valid() && forall b: nat {:trigger Accounted(w, b)} :: Accounted(w, b)
  }

  /** How far the counter is from the number of set bits, in 64 bits. */
  function Drift(s: Blocks): nat {
    (s.used - Count(s.bits, 64 * |s.bits|)) % WRAP
  }

  lemma PlusMoves(used: nat, n: int, k: int)
    requires used < WRAP
    ensures (Plus(used, n) - (k + n)) % WRAP == (used - k) % WRAP
  {
  }

  /** What a call does to the bit of a block. */
  lemma CallUsed(s: Blocks, e: Event, b: nat)
    requires s.Valid() && InBounds(s, e)
    ensures |Call(s, e).bits| == |s.bits| && Call(s, e).Valid() && Call(s, e).total == s.total
    ensures Gives(s, e, b) ==> b < 64 * |s.bits| && !Used(s.bits, b) && !Returns(e, b)
    ensures b < 64 * |s.bits| ==> (Used(Call(s, e).bits, b) <==> (Used(s.bits, b) || Gives(s, e, b)) && !Returns(e, b))
  {
    if b < 64 * |s.bits| {
      match e
      case AllocOne => if Chosen(s) >= 0 { SetBlockUsed(s.bits, Chosen(s), b); }
      case AllocMany(size) => if ChosenRange(s, size) >= 0 { SetRangeUsed(s.bits, ChosenRange(s, size), size, b); }
      case FreeOne(address) => if address != 0 { ClearBlockUsed(s.bits, address / 4096, b); }
      case FreeSome(address, size) => if address != 0 { ClearRangeUsed(s.bits, address / 4096, size, b); }
    }
  }

  lemma AllocDrift(s: Blocks, e: Event)
    requires s.Valid() && InBounds(s, e) && (e.AllocOne? || e.AllocMany?)
    ensures Drift(Call(s, e)) == Drift(s)
  {
    var n := 64 * |s.bits|;
    if e.AllocOne? {
      if Chosen(s) >= 0 {
        CountSet(s.bits, Chosen(s), n);
        PlusMoves(s.used, 1, Count(s.bits, n));
      }
    } else if ChosenRange(s, e.size) >= 0 {
      CountSetRange(s.bits, ChosenRange(s, e.size), e.size);
      PlusMoves(s.used, e.size, Count(s.bits, n));
    }
  }

  lemma FreeDrift(w: World, e: Event)
    requires Inv(w) && Possible(w, e) && (e.FreeOne? || e.FreeSome?)
    ensures Drift(Call(w.blocks, e)) == Drift(w.blocks)
  {
    var s := w.blocks;
    var n := 64 * |s.bits|;
    if e.address != 0 {
      var b := e.address / 4096;
      if e.FreeOne? {
        assert Returns(e, b) && Accounted(w, b);
        CountClear(s.bits, b, n);
        PlusMoves(s.used, -1, Count(s.bits, n));
      } else {
        forall c: nat | b <= c < b + e.size ensures Used(s.bits, c) {
          assert Returns(e, c) && Accounted(w, c);
        }
        CountClearRange(s.bits, b, e.size);
        PlusMoves(s.used, -(e.size as int), Count(s.bits, n));
      }
    }
  }

  /** One call keeps the accounting, hands out only blocks that were neither handed out nor marked at the start, and
      moves the counter by the change in the number of set bits. */
  lemma StepInv(w: World, e: Event)
    requires Inv(w) && Possible(w, e)
    ensures Inv(Step(w, e)) && Drift(Step(w, e).blocks) == Drift(w.blocks)
    ensures forall b: nat {:trigger Gives(w.blocks, e, b)} :: Gives(w.blocks, e, b) ==> b !in w.out && b !in w.reserved
  {
    if e.AllocOne? || e.AllocMany? {
      AllocDrift(w.blocks, e);
    } else {
      FreeDrift(w, e);
    }
    CallUsed(w.blocks, e, 0);
    forall b: nat ensures Accounted(Step(w, e), b) {
      CallUsed(w.blocks, e, b);
      assert Accounted(w, b);
    }
    forall b: nat | Gives(w.blocks, e, b) ensures b !in w.out && b !in w.reserved {
      CallUsed(w.blocks, e, b);
      assert Accounted(w, b);
    }
  }

  ghost predicate Run(ws: seq<World>, es: seq<Event>) {
    |ws| == |es| + 1 && forall i: nat {:trigger StepAt(ws, es, i)} :: i < |es| ==> StepAt(ws, es, i)
  }

  ghost predicate StepAt(ws: seq<World>, es: seq<Event>, i: nat)
    requires |ws| == |es| + 1 && i < |es|
  {
    Possible(ws[i], es[i]) && ws[i + 1] == Step(ws[i], es[i])
  }

  /** Over every run, a bit is set exactly when its block is outstanding or was marked at the start, and the counter
      keeps its distance from the number of set bits. */
  lemma {:induction false} RunInv(ws: seq<World>, es: seq<Event>, k: nat)
    requires Run(ws, es) && Inv(ws[0]) && k <= |es|
    ensures Inv(ws[k]) && ws[k].reserved == ws[0].reserved && Drift(ws[k].blocks) == Drift(ws[0].blocks)
  {
    if k > 0 {
      RunInv(ws, es, k - 1);
      assert StepAt(ws, es, k - 1);
      StepInv(ws[k - 1], es[k - 1]);
    }
  }

  /** Over every run, no call hands out a block that is outstanding or was marked at the start. */
  lemma RunNeverTwice(ws: seq<World>, es: seq<Event>, k: nat, b: nat)
    requires Run(ws, es) && Inv(ws[0]) && k < |es|
    ensures Inv(ws[k]) && (Gives(ws[k].blocks, es[k], b) ==> b !in ws[k].out && b !in ws[0].reserved)
  {
    RunInv(ws, es, k);
    assert StepAt(ws, es, k);
    StepInv(ws[k], es[k]);
  }

  // ---------------------------------------------------------------- addresses

  /** The address returned is that of the block taken; null stands for a failure, and for block 0. */
  lemma AddressNames(s: Blocks)
    requires s.Valid()
    ensures var a := Address(Chosen(s));
            && a % 4096 == 0 && (a == 0 <==> Chosen(s) <= 0)
            && (Chosen(s) >= 0 ==> Gives(s, AllocOne, a / 4096) && a / 4096 == Chosen(s))
  {
  }

  lemma RangeAddressNames(s: Blocks, size: nat, b: nat)
    requires s.Valid()
    ensures var a := Address(ChosenRange(s, size));
            && a % 4096 == 0 && (a == 0 <==> ChosenRange(s, size) <= 0)
            && (ChosenRange(s, size) >= 0 ==> (Gives(s, AllocMany(size), b) <==> a / 4096 <= b < a / 4096 + size))
  {
  }

  lemma RangeGiven(s: Blocks, size: nat)
    requires s.Valid()
    ensures var a := Address(ChosenRange(s, size)); a % 4096 == 0 && (a != 0 ==> size > 0 && Gives(s, AllocMany(size), a / 4096))
  {
    RangeAddressNames(s, size, Address(ChosenRange(s, size)) / 4096);
  }

  /** An allocation succeeds exactly when the counter leaves a block and a scanned block is free. */
  lemma ChosenExact(s: Blocks)
    requires s.Valid()
    ensures Chosen(s) >= 0 <==> s.Usable() > 0 && exists b: nat {:trigger Used(s.bits, b)} :: b < s.Scanned() && !Used(s.bits, b)
  {
    if Chosen(s) >= 0 {
      assert !Used(s.bits, Chosen(s));
    }
  }

  /** A ranged allocation succeeds exactly when the range is not empty, the counter leaves more blocks than it has, and a
      free range of that size starts in the scanned words. */
  lemma ChosenRangeExact(s: Blocks, size: nat)
    requires s.Valid()
    ensures ChosenRange(s, size) >= 0 <==>
            size > 0 && s.Usable() > size && exists b: nat {:trigger FreeRange(s.bits, b, size)} :: b < s.Scanned() && FreeRange(s.bits, b, size)
  {
    if ChosenRange(s, size) >= 0 {
      assert FreeRange(s.bits, ChosenRange(s, size), size);
    }
  }

  lemma {:induction false} CountFull(m: seq<Word>, n: nat)
    requires n <= 64 * |m|
    ensures Count(m, n) <= n && (Count(m, n) == n <==> forall b: nat {:trigger Used(m, b)} :: b < n ==> Used(m, b))
  {
    if n > 0 {
      CountFull(m, n - 1);
    }
  }

  /** While the counter is in step with the bits and they cover exactly the scanned words, its test refuses nothing: an
      allocation fails exactly when every block is used. */
  lemma InStepExact(s: Blocks)
    requires s.Valid() && s.total == 64 * |s.bits| && s.used == Count(s.bits, s.total)
    ensures Chosen(s) == -1 <==> forall b: nat {:trigger Used(s.bits, b)} :: b < s.total ==> Used(s.bits, b)
  {
    CountFull(s.bits, s.total);
    ChosenExact(s);
  }

  lemma SameBits(m: seq<Word>, n: seq<Word>)
    requires |m| == |n| && forall b: nat {:trigger Used(m, b)} :: b < 64 * |m| ==> (Used(m, b) <==> Used(n, b))
    ensures m == n
  {
    forall i | 0 <= i < |m| ensures m[i] == n[i] {
      forall j | 0 <= j < 64 ensures m[i][j] == n[i][j] {
        assert Used(m, 64 * i + j) <==> Used(n, 64 * i + j);
      }
    }
  }

  lemma CounterBack(used: nat, n: nat)
    requires used < WRAP
    ensures Plus(Plus(used, n), -(n as int)) == used
  {
  }

  /** Freeing what was allocated restores the allocator exactly when it was not block 0, whose address is null. */
  lemma FreeUndoes(s: Blocks)
    requires s.Valid()
    ensures Address(Chosen(s)) / 4096 < 64 * |Alloc(s).bits| || Chosen(s) == -1
    ensures Chosen(s) >= 0 ==> (Free(Alloc(s), Address(Chosen(s))) == s <==> Chosen(s) != 0)
  {
    var b := Chosen(s);
    if b >= 0 {
      var m := SetBlock(s.bits, b);
      SetBlockUsed(s.bits, b, b);
      if b > 0 {
        forall c: nat | c < 64 * |m| ensures Used(ClearBlock(m, b), c) <==> Used(s.bits, c) {
          ClearBlockUsed(m, b, c);
          SetBlockUsed(s.bits, b, c);
        }
        SameBits(ClearBlock(m, b), s.bits);
        CounterBack(s.used, 1);
      }
    }
  }

  lemma RangeBitsBack(m: seq<Word>, s: nat, size: nat)
    requires FreeRange(m, s, size)
    ensures ClearRange(SetRange(m, s, size), s, size) == m
  {
    var n := SetRange(m, s, size);
    forall c: nat | c < 64 * |n| ensures Used(ClearRange(n, s, size), c) <==> Used(m, c) {
      ClearRangeUsed(n, s, size, c);
      SetRangeUsed(m, s, size, c);
    }
    SameBits(ClearRange(n, s, size), m);
  }

  /** The same for ranges. */
  lemma FreeManyUndoes(s: Blocks, size: nat)
    requires s.Valid() && ChosenRange(s, size) >= 0
    ensures Address(ChosenRange(s, size)) / 4096 + size <= 64 * |AllocRange(s, size).bits|
    ensures FreeMany(AllocRange(s, size), Address(ChosenRange(s, size)), size) == s <==> ChosenRange(s, size) != 0
  {
    var b := ChosenRange(s, size);
    if b > 0 {
      RangeBitsBack(s.bits, b, size);
      CounterBack(s.used, size);
    } else {
      SetRangeUsed(s.bits, b, size, b);
    }
  }

  lemma NotNext(y: int)
    ensures (y + 1) % WRAP != y % WRAP
  {
  }

  /** Freeing one block keeps that distance exactly when the block was marked used. */
  lemma FreeExact(s: Blocks, address: nat)
    requires s.Valid() && address != 0 && address / 4096 < 64 * |s.bits|
    ensures Drift(Free(s, address)) == Drift(s) <==> Used(s.bits, address / 4096)
  {
    var b := address / 4096;
    var k := Count(s.bits, 64 * |s.bits|);
    PlusMoves(s.used, -1, k);
    if Used(s.bits, b) {
      CountClear(s.bits, b, 64 * |s.bits|);
    } else {
      ClearFree(s.bits, b);
      NotNext(Plus(s.used, -1) - k);
    }
  }

  // ---------------------------------------------------------------- the code

  /** The bits of every word of the array. */
  ghost function WordsOf(a: seq<bv64>): seq<Word> {
    seq(|a|, i requires 0 <= i < |a| => Bits(a[i]))
  }

  lemma WordsUpdate(a: seq<bv64>, i: nat, u: bv64)
    requires i < |a|
    ensures WordsOf(a[i := u]) == WordsOf(a)[i := Bits(u)]
  {
  }

  /** The test of a bit. */
  method TestBit(w: bv64, j: nat) returns (r: bool)
    requires j < 64
    ensures r == Bits(w)[j]
  {
    TestBits(w, j);
    r := Test(w, Shift(j));
  }

  method SetBit(w: bv64, j: nat) returns (u: bv64)
    requires j < 64
    ensures Bits(u) == Bits(w)[j := true]
  {
    var x := Shift(j);
    u := w | (1 << x);
    SetBits(w, u, x, j);
  }

  method ClearBit(w: bv64, j: nat) returns (u: bv64)
    requires j < 64
    ensures Bits(u) == Bits(w)[j := false]
  {
    var x := Shift(j);
    u := w & !(1 << x);
    ClearBits(w, u, x, j);
  }

  /** The comparison with 0xFFFFFFFFFFFFFFFF. */
  method IsFull(w: bv64) returns (r: bool)
    ensures r == SetBelow(Bits(w), 64)
  {
    FullBits(w);
    r := w == 0xFFFF_FFFF_FFFF_FFFF;
  }

  lemma FreeFrom(m: seq<Word>, n: nat, b: nat, r: nat)
    requires b <= r < n <= 64 * |m| && !Used(m, r) && forall c: nat {:trigger Used(m, c)} :: b <= c < r ==> Used(m, c)
    ensures FirstFree(m, n, b) == r
  {
  }

  lemma NoneFree(m: seq<Word>, n: nat, b: nat)
    requires b <= n <= 64 * |m| && forall c: nat {:trigger Used(m, c)} :: b <= c < n ==> Used(m, c)
    ensures FirstFree(m, n, b) == -1
  {
  }

  lemma RangeFrom(m: seq<Word>, size: nat, n: nat, r: nat)
    requires r < n && FreeRange(m, r, size) && NoneBelow(m, size, r)
    ensures FirstRange(m, size, n, 0) == r
  {
  }

  lemma NoRange(m: seq<Word>, size: nat, n: nat)
    requires NoneBelow(m, size, n)
    ensures FirstRange(m, size, n, 0) == -1
  {
  }

  class BlockManager {
    const bits: array<bv64>
    const total: nat
    var used: nat

    /** What the array stands for. */
    ghost function Map(): seq<Word>
      reads this, bits
    {
      WordsOf(bits[..])
    }

    ghost function State(): Blocks
      reads this, bits
    {
      Blocks(Map(), used, total)
    }

    /** mmgr_is_block_free, which despite its name is true of a used block. */
    method IsBlockUsed(b: nat) returns (r: bool)
      requires b < 64 * bits.Length
      ensures r == Used(Map(), b)
    {
      r := TestBit(bits[b / 64], b % 64);
    }

    /** mmgr_get_first_free: the least free block in the scanned words, or -1 when there is none. */
    method GetFirstFree() returns (r: int)
      requires State().Valid()
      ensures r == FirstFree(Map(), State().Scanned(), 0)
    {
      ghost var m := Map();
      var i := 0;
      while i < total / 64
        invariant i <= total / 64
        invariant forall b: nat {:trigger Used(m, b)} :: b < 64 * i ==> Used(m, b)
      {
        var full := IsFull(bits[i]);
        if !full {
          var j := 0;
          while j < 64
            invariant j <= 64
            invariant forall b: nat {:trigger Used(m, b)} :: b < 64 * i + j ==> Used(m, b)
          {
            assert (64 * i + j) / 64 == i && (64 * i + j) % 64 == j;
            var marked := TestBit(bits[i], j);
            if !marked {
              FreeFrom(m, 64 * (total / 64), 0, 64 * i + j);
              return i * 64 + j;
            }
            j := j + 1;
          }
        }
        i := i + 1;
      }
      NoneFree(m, 64 * (total / 64), 0);
      r := -1;
    }

    /** The innermost loop of mmgr_get_first_range_free: how many blocks from `first` on are free, up to `size`. */
    method CountFree(first: nat, size: nat) returns (free: nat)
      requires first + size <= 64 * bits.Length
      ensures free <= size && FreeRange(Map(), first, free)
      ensures free < size ==> Used(Map(), first + free)
    {
      ghost var m := Map();
      free := 0;
      while free < size
        invariant free <= size && forall b: nat {:trigger Used(m, b)} :: first <= b < first + free ==> !Used(m, b)
      {
        var blocked := IsBlockUsed(first + free);
        if blocked {
          return;
        }
        free := free + 1;
      }
    }

    /** mmgr_get_first_range_free: the least start, in the scanned words, of `size` consecutive free blocks, or -1
        when there is none; a range may end past the scanned words. */
    method GetFirstRangeFree(size: nat) returns (r: int)
      requires State().Valid() && InBounds(State(), AllocMany(size))
      ensures r == if size == 0 then -1 else FirstRange(Map(), size, State().Scanned(), 0)
    {
      ghost var m := Map();
      var i := 0;
      while i < total / 64
        invariant i <= total / 64 && (size > 0 ==> NoneBelow(m, size, 64 * i))
      {
        var full := IsFull(bits[i]);
        if !full {
          var j: nat := 0;
          while j < 64
            invariant size > 0 ==> NoneBelow(m, size, 64 * i + j)
            decreases 64 - j
          {
            assert (64 * i + j) / 64 == i && (64 * i + j) % 64 == j;
            var marked := TestBit(bits[i], j);
            if !marked {
              var free := CountFree(i * 64 + j, size);
              if size > 0 {
                if free == size {
                  RangeFrom(m, size, 64 * (total / 64), i * 64 + j);
                  return i * 64 + j;
                }
                Obstacle(m, size, i * 64 + j, free);
                j := j + free;
              }
            } else if size > 0 {
              Obstacle(m, size, i * 64 + j, 0);
            }
            j := j + 1;
          }
        } else if size > 0 {
          FullWord(m, size, i);
        }
        i := i + 1;
      }
      if size > 0 {
        NoRange(m, size, 64 * (total / 64));
      }
      r := -1;
    }

    /** mmgr_set_block. */
    method Mark(b: nat)
      requires b < 64 * bits.Length
      modifies bits
      ensures Map() == SetBlock(old(Map()), b)
    {
      var u := SetBit(bits[b / 64], b % 64);
      WordsUpdate(bits[..], b / 64, u);
      ghost var a := bits[..];
      bits[b / 64] := u;
      assert bits[..] == a[b / 64 := u];
    }

    /** mmgr_unset_block. */
    method Unmark(b: nat)
      requires b < 64 * bits.Length
      modifies bits
      ensures Map() == ClearBlock(old(Map()), b)
    {
      var u := ClearBit(bits[b / 64], b % 64);
      WordsUpdate(bits[..], b / 64, u);
      ghost var a := bits[..];
      bits[b / 64] := u;
      assert bits[..] == a[b / 64 := u];
    }

    /** The marking loop of mmgr_alloc_size_blocks. */
    method MarkRange(s: nat, size: nat)
      requires s + size <= 64 * bits.Length
      modifies bits
      ensures Map() == SetRange(old(Map()), s, size)
    {
      ghost var m := Map();
      for i := 0 to size
        invariant Map() == SetRange(m, s, i)
      {
        Mark(s + i);
      }
    }

    /** The clearing loop of mmgr_free_size_blocks. */
    method UnmarkRange(s: nat, size: nat)
      requires s + size <= 64 * bits.Length
      modifies bits
      ensures Map() == ClearRange(old(Map()), s, size)
    {
      ghost var m := Map();
      for i := 0 to size
        invariant Map() == ClearRange(m, s, i)
      {
        Unmark(s + i);
      }
    }

    /** mmgr_alloc_block: the address of the block taken, or 0. */
    method AllocBlock() returns (address: nat)
      requires State().Valid()
      modifies this`used, bits
      ensures State() == Alloc(old(State())) && address == Address(Chosen(old(State())))
      ensures address % 4096 == 0 && (address != 0 ==> Gives(old(State()), AllocOne, address / 4096))
    {
      ghost var s := State();
      AddressNames(s);
      if (total - used) % WRAP == 0 {
        return 0;
      }
      var r := GetFirstFree();
      assert State() == s;
      if r == -1 {
        return 0;
      }
      Mark(r);
      used := Plus(used, 1);
      address := r * 4096;
    }

    /** mmgr_alloc_size_blocks: the address of the first block of the range taken, or 0. */
    method AllocSizeBlocks(size: nat) returns (address: nat)
      requires State().Valid() && InBounds(State(), AllocMany(size))
      modifies this`used, bits
      ensures State() == AllocRange(old(State()), size) && address == Address(ChosenRange(old(State()), size))
      ensures address % 4096 == 0 && (address != 0 ==> size > 0 && Gives(old(State()), AllocMany(size), address / 4096))
    {
      ghost var s := State();
      RangeGiven(s, size);
      if (total - used) % WRAP <= size {
        return 0;
      }
      var r := GetFirstRangeFree(size);
      assert State() == s;
      if r == -1 {
        return 0;
      }
      MarkRange(r, size);
      used := Plus(used, size);
      address := r * 4096;
    }

    /** mmgr_free_block. */
    method FreeBlock(address: nat)
      requires State().Valid() && InBounds(State(), FreeOne(address))
      modifies this`used, bits
      ensures State() == Free(old(State()), address)
    {
      if address == 0 {
        return;
      }
      Unmark(address / 4096);
      used := Plus(used, -1);
    }

    /** mmgr_free_size_blocks. */
    method FreeSizeBlocks(address: nat, size: nat)
      requires State().Valid() && InBounds(State(), FreeSome(address, size))
      modifies this`used, bits
      ensures State() == FreeMany(old(State()), address, size)
    {
      if address == 0 {
        return;
      }
      UnmarkRange(address / 4096, size);
      used := Plus(used, -(size as int));
    }
  }
}

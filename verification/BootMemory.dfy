/** The two allocators at boot.  The tables that vmmgr_init makes come from the frame allocator, which starts behind the
    blocks that mm_phy_init marks; vmmgr_alloc_page counts up from the end of the kernel image through the same physical
    memory and knows nothing of them. */
module BootMemory {
  import Bitmap = BlockBitmap
  import Bump

  /** The blocks that mm_phy_init marks last. */
  const RESERVED: nat := 1024

  /** Exactly the first `n` of the scanned blocks are used. */
  ghost predicate UsedBelow(s: Bitmap.Blocks, n: nat) {
    s.Valid() && forall b: nat {:trigger Bitmap.Used(s.bits, b)} :: b < s.Scanned() ==> (Bitmap.Used(s.bits, b) <==> b < n)
  }

  lemma AllocKeeps(s: Bitmap.Blocks)
    requires s.Valid()
    ensures var t := Bitmap.Alloc(s); t.Valid() && t.total == s.total && |t.bits| == |s.bits|
  {
    Bitmap.CallUsed(s, Bitmap.AllocOne, 0);
  }

  /** The allocator after `k` calls. */
  function Allocs(s: Bitmap.Blocks, k: nat): (t: Bitmap.Blocks)
    requires s.Valid()
    ensures t.Valid() && t.total == s.total && |t.bits| == |s.bits|
  {
    if k == 0 then s
    else
      AllocKeeps(Allocs(s, k - 1));
      Bitmap.Alloc(Allocs(s, k - 1))
  }

  lemma UsableAfter(s: Bitmap.Blocks)
    requires s.Valid() && s.Usable() > 0
    ensures (s.total - Bitmap.Plus(s.used, 1)) % Bitmap.WRAP == s.Usable() - 1
  {
  }

  lemma AllocNext(s: Bitmap.Blocks, n: nat)
    requires UsedBelow(s, n) && n < s.Scanned() && s.Usable() > 0
    ensures Bitmap.Chosen(s) == n && UsedBelow(Bitmap.Alloc(s), n + 1) && Bitmap.Alloc(s).Usable() == s.Usable() - 1
  {
    var b := Bitmap.Chosen(s);
    assert !Bitmap.Used(s.bits, n);
    AllocKeeps(s);
    UsableAfter(s);
    forall c: nat | c < s.Scanned() ensures Bitmap.Used(Bitmap.Alloc(s).bits, c) <==> c < n + 1 {
      Bitmap.SetBlockUsed(s.bits, b, c);
    }
  }

  /** The blocks come in order. */
  lemma {:induction false} AllocsInOrder(s: Bitmap.Blocks, n: nat, k: nat)
    requires UsedBelow(s, n) && n + k <= s.Scanned() && s.Usable() >= k
    ensures UsedBelow(Allocs(s, k), n + k) && Allocs(s, k).Usable() == s.Usable() - k
  {
    if k > 0 {
      AllocsInOrder(s, n, k - 1);
      AllocNext(Allocs(s, k - 1), n + k - 1);
    }
  }

  /** The block of boot table `j`: the j-th that the allocator hands out. */
  lemma BootBlock(s: Bitmap.Blocks, j: nat)
    requires UsedBelow(s, RESERVED) && RESERVED + j < s.Scanned() && s.Usable() > j
    ensures Bitmap.Chosen(Allocs(s, j)) == RESERVED + j
  {
    AllocsInOrder(s, RESERVED, j);
    AllocNext(Allocs(s, j), RESERVED + j);
  }

  // ---------------------------------------------------------------- both allocators

  /** The byte at the kernel address `x` lies in the physical block `b`. */
  predicate InBlock(b: int, x: nat) {
    Bump.KERNEL_BASE + 4096 * b <= x < Bump.KERNEL_BASE + 4096 * (b + 1)
  }

  /** The byte at `x` belongs to call `i` of vmmgr_alloc_page and to boot table `j`. */
  ghost predicate Shared(s: Bitmap.Blocks, base: nat, prev: Bump.Count, args: seq<Bump.Count>, i: nat, j: nat, x: nat)
    requires s.Valid() && i < |args|
  {
    Bump.InRegion(base, prev, args, i, x) && InBlock(Bitmap.Chosen(Allocs(s, j)), x)
  }

  /** No call of vmmgr_alloc_page hands out a byte of one of the first `k` boot tables. */
  ghost predicate Apart(s: Bitmap.Blocks, k: nat, base: nat, prev: Bump.Count, args: seq<Bump.Count>)
    requires s.Valid()
  {
    forall i: nat, j: nat, x: nat {:trigger Shared(s, base, prev, args, i, j, x)} ::
      i < |args| && j < k ==> !Shared(s, base, prev, args, i, j, x)
  }

  lemma CallBelow(base: nat, prev: Bump.Count, args: seq<Bump.Count>, i: nat, x: nat)
    requires i < |args| && Bump.Start(base, prev, args, |args|) <= Bump.WRAP && Bump.InRegion(base, prev, args, i, x)
    ensures x < Bump.Start(base, prev, args, |args|)
  {
    var y: nat :| Bump.Holds(base, prev, args, i, x, y);
    Bump.StartMonotone(base, prev, args, i + 1, |args|);
  }

  lemma FirstTableReached(s: Bitmap.Blocks, base: nat, prev: Bump.Count, args: seq<Bump.Count>) returns (i: nat)
    requires UsedBelow(s, RESERVED) && RESERVED < s.Scanned() && s.Usable() > 0 && Bump.Start(base, prev, args, |args|) <= Bump.WRAP
    requires Bump.Start(base, prev, args, 0) <= Bump.KERNEL_BASE + 4096 * RESERVED < Bump.Start(base, prev, args, |args|)
    ensures i < |args| && Shared(s, base, prev, args, i, 0, Bump.KERNEL_BASE + 4096 * RESERVED)
  {
    var x := Bump.KERNEL_BASE + 4096 * RESERVED;
    i := Bump.FindRegion(base, prev, args, x, |args|);
    Bump.StartMonotone(base, prev, args, i + 1, |args|);
    BootBlock(s, 0);
    assert Bump.Holds(base, prev, args, i, x, x);
  }

  /** The pages for tables stay clear of the boot tables exactly as long as their addresses stay below 4 MiB of physical
      memory. */
  lemma BootApart(s: Bitmap.Blocks, k: nat, base: nat, prev: Bump.Count, args: seq<Bump.Count>)
    requires UsedBelow(s, RESERVED) && 0 < k && RESERVED + k <= s.Scanned() && s.Usable() >= k
    requires Bump.Start(base, prev, args, |args|) <= Bump.WRAP && Bump.Start(base, prev, args, 0) <= Bump.KERNEL_BASE + 4096 * RESERVED
    ensures Apart(s, k, base, prev, args) <==> Bump.Start(base, prev, args, |args|) <= Bump.KERNEL_BASE + 4096 * RESERVED
  {
    if Bump.Start(base, prev, args, |args|) <= Bump.KERNEL_BASE + 4096 * RESERVED {
      forall i: nat, j: nat, x: nat | i < |args| && j < k ensures !Shared(s, base, prev, args, i, j, x) {
        BootBlock(s, j);
        if Shared(s, base, prev, args, i, j, x) {
          CallBelow(base, prev, args, i, x);
        }
      }
    } else {
      var i := FirstTableReached(s, base, prev, args);
    }
  }

  lemma {:induction false} SinglePages(base: nat, prev: Bump.Count, args: seq<Bump.Count>, k: nat)
    requires k <= |args| && forall i :: 0 <= i < |args| ==> args[i] == 0
    ensures Bump.Start(base, prev, args, k) == base + 4096 * (prev as nat) + 4096 * (k + 1)
  {
    if k > 0 {
      SinglePages(base, prev, args, k - 1);
    }
  }

  /** So with `free` bytes of physical memory in use by the kernel image, exactly 1023 - free / 4096 calls for one page,
      rounded down, stay clear of them. */
  lemma BootCalls(s: Bitmap.Blocks, k: nat, free: nat, args: seq<Bump.Count>)
    requires UsedBelow(s, RESERVED) && 0 < k && RESERVED + k <= s.Scanned() && s.Usable() >= k
    requires free + 4096 <= 4096 * RESERVED && (forall i :: 0 <= i < |args| ==> args[i] == 0)
    requires Bump.KERNEL_BASE + free + 4096 * (|args| + 1) <= Bump.WRAP
    ensures Apart(s, k, Bump.KERNEL_BASE + free, 0, args) <==> |args| <= (4096 * 1023 - free) / 4096
  {
    SinglePages(Bump.KERNEL_BASE + free, 0, args, 0);
    SinglePages(Bump.KERNEL_BASE + free, 0, args, |args|);
    BootApart(s, k, Bump.KERNEL_BASE + free, 0, args);
  }

  /** Pages of calls that stay clear do not contain the first table. */
  lemma RootApart(s: Bitmap.Blocks, pages: seq<nat>, calls: seq<nat>, base: nat, prev: Bump.Count, args: seq<Bump.Count>)
    requires UsedBelow(s, RESERVED) && RESERVED < s.Scanned() && s.Usable() > 0 && Bump.FromCalls(pages, calls, base, prev, args)
    requires Bump.KERNEL_BASE <= base && Bump.Start(base, prev, args, |args|) <= Bump.KERNEL_BASE + 4096 * RESERVED
    ensures Bitmap.Chosen(s) == RESERVED && RESERVED !in pages
  {
    BootBlock(s, 0);
    forall n | 0 <= n < |pages| ensures pages[n] != RESERVED {
      Bump.StartMonotone(base, prev, args, calls[n] + 1, |args|);
    }
  }
}

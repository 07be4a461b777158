/** vmmgr_alloc_page: the bump allocator that page tables and kernel stacks come from. */
module Bump {
  import PageBits
  import PageTables

  const WRAP: nat := 0x1_0000_0000_0000_0000
  const KERNEL_BASE: nat := 0xFFFF_FFFF_8000_0000

  /** Arguments are 16-bit; a call with argument n asks for n + 1 pages. */
  type Count = n: nat | n < 0x1_0000

  /** Where the region of call `k` starts, which is where the one before it ends, before wrap-around. */
  function Start(base: nat, prev: Count, args: seq<Count>, k: nat): nat
    requires k <= |args|
  {
    if k == 0 then base + 4096 + 4096 * (prev as nat) else Start(base, prev, args, k - 1) + 4096 + 4096 * (args[k - 1] as nat)
  }

  /** The byte at the 64-bit address `x` belongs to the pages that call `k` asked for; `y` is that address
      before wrap-around. */
  predicate Holds(base: nat, prev: Count, args: seq<Count>, k: nat, x: nat, y: nat)
    requires k < |args|
  {
    Start(base, prev, args, k) <= y < Start(base, prev, args, k + 1) && y % WRAP == x
  }

  ghost predicate InRegion(base: nat, prev: Count, args: seq<Count>, k: nat, x: nat)
    requires k < |args|
  {
    exists y: nat :: Holds(base, prev, args, k, x, y)
  }

  ghost predicate Disjoint(base: nat, prev: Count, args: seq<Count>) {
    forall i: nat, j: nat, x: nat :: i < j < |args| ==>
      !(InRegion(base, prev, args, i, x) && InRegion(base, prev, args, j, x))
  }

  lemma {:induction false} StartMonotone(base: nat, prev: Count, args: seq<Count>, i: nat, j: nat)
    requires i <= j <= |args|
    ensures Start(base, prev, args, i) + 4096 * (j - i) <= Start(base, prev, args, j)
  {
    if i < j {
      StartMonotone(base, prev, args, i, j - 1);
    }
  }

  /** The region of a call with argument n is n + 1 pages long. */
  lemma RegionLength(base: nat, prev: Count, args: seq<Count>, k: nat)
    requires k < |args|
    ensures Start(base, prev, args, k + 1) == Start(base, prev, args, k) + 4096 * (args[k] as nat + 1)
  {
  }

  /** Every page that a call asked for is in its region, at the address returned and behind it. */
  lemma PagesInRegion(base: nat, prev: Count, args: seq<Count>, k: nat, d: nat)
    requires k < |args| && d < 4096 * (args[k] as nat + 1)
    ensures InRegion(base, prev, args, k, (Start(base, prev, args, k) + d) % WRAP)
  {
    RegionLength(base, prev, args, k);
    assert Holds(base, prev, args, k, (Start(base, prev, args, k) + d) % WRAP, Start(base, prev, args, k) + d);
  }

  /** Start depends on earlier arguments only. */
  lemma {:induction false} StartPrefix(base: nat, prev: Count, args: seq<Count>, n: Count, k: nat)
    requires k <= |args|
    ensures Start(base, prev, args + [n], k) == Start(base, prev, args, k)
  {
    if k > 0 {
      StartPrefix(base, prev, args, n, k - 1);
    }
  }

  lemma {:induction false} FindRegion(base: nat, prev: Count, args: seq<Count>, y: nat, n: nat) returns (k: nat)
    requires n <= |args| && Start(base, prev, args, 0) <= y < Start(base, prev, args, n)
    ensures k < n && Start(base, prev, args, k) <= y < Start(base, prev, args, k + 1)
  {
    if y < Start(base, prev, args, n - 1) {
      k := FindRegion(base, prev, args, y, n - 1);
    } else {
      k := n - 1;
    }
  }

  lemma SameResidue(x: nat, y: nat)
    requires x < y && x % WRAP == y % WRAP
    ensures y - x >= WRAP
  {
  }

  lemma NextLap(x: nat)
    ensures (x + WRAP) % WRAP == x % WRAP
  {
  }

  /** The regions handed out are pairwise disjoint exactly when together they fit in the address space. */
  lemma RegionsDisjoint(base: nat, prev: Count, args: seq<Count>)
    ensures Disjoint(base, prev, args) <==>
            Start(base, prev, args, |args|) - Start(base, prev, args, 0) <= WRAP
  {
    var first, last := Start(base, prev, args, 0), Start(base, prev, args, |args|);
    if last - first <= WRAP {
      forall i: nat, j: nat, x: nat | i < j < |args|
        ensures !(InRegion(base, prev, args, i, x) && InRegion(base, prev, args, j, x))
      {
        if y: nat, z: nat :| Holds(base, prev, args, i, x, y) && Holds(base, prev, args, j, x, z) {
          StartMonotone(base, prev, args, 0, i);
          StartMonotone(base, prev, args, i + 1, j);
          StartMonotone(base, prev, args, j + 1, |args|);
          SameResidue(y, z);
          assert false;
        }
      }
    } else {
      var k := FindRegion(base, prev, args, first + WRAP, |args|);
      NextLap(first);
      assert Holds(base, prev, args, 0, first % WRAP, first);
      assert Holds(base, prev, args, k, first % WRAP, first + WRAP);
      assert InRegion(base, prev, args, 0, first % WRAP) && InRegion(base, prev, args, k, first % WRAP);
    }
  }

  /** The physical page of the k-th address, as the table code computes it. */
  function PageNumber(address: nat): int {
    (address - KERNEL_BASE) / 4096
  }

  lemma PageSmall(base: nat, prev: Count, args: seq<Count>, i: nat)
    requires KERNEL_BASE <= base && i < |args| && Start(base, prev, args, |args|) <= WRAP
    ensures 0 <= PageNumber(Start(base, prev, args, i)) < 0x8_0000
  {
    StartMonotone(base, prev, args, 0, i);
    StartMonotone(base, prev, args, i, |args|);
  }

  /** As long as the address does not wrap, the pages are distinct and small enough for a table entry. */
  lemma TablePages(base: nat, prev: Count, args: seq<Count>, i: nat, j: nat)
    requires KERNEL_BASE <= base && i < j < |args| && Start(base, prev, args, |args|) <= WRAP
    ensures 0 <= PageNumber(Start(base, prev, args, i)) < PageNumber(Start(base, prev, args, j)) < 0x1_0000_0000
  {
    StartMonotone(base, prev, args, 0, i);
    StartMonotone(base, prev, args, i, j);
    StartMonotone(base, prev, args, j, |args|);
  }

  /** The pages are those of the calls `calls` to the allocator, in order; the other calls are for something else. */
  predicate FromCalls(pages: seq<nat>, calls: seq<nat>, base: nat, prev: Count, args: seq<Count>) {
    && |pages| == |calls| && (forall n :: 0 <= n < |calls| ==> calls[n] < |args|)
    && (forall m, n :: 0 <= m < n < |calls| ==> calls[m] < calls[n])
    && (forall n :: 0 <= n < |calls| && calls[n] < |args| ==> pages[n] == PageNumber(Start(base, prev, args, calls[n])))
  }

  /** The page exists, holds no reserved bits and is in no tree yet. */
  ghost predicate Untouched(s: PageTables.Tables, p: nat) {
    p in s.mem && p !in s.own && forall x: PageBits.Index :: s.mem[p][x].high == 0
  }

  /** So they are a heap for tables: distinct, small enough for an entry, and spare as long as they are untouched. */
  lemma PagesForTables(s: PageTables.Tables, calls: seq<nat>, base: nat, prev: Count, args: seq<Count>)
    requires KERNEL_BASE <= base && Start(base, prev, args, |args|) <= WRAP && FromCalls(s.pages, calls, base, prev, args)
    requires s.next <= |s.pages|
    requires forall n {:trigger s.pages[n]} :: s.next <= n < |s.pages| ==> Untouched(s, s.pages[n])
    ensures PageTables.HeapOk(s)
  {
    forall m, n | 0 <= m < n < |s.pages| ensures s.pages[m] != s.pages[n] {
      TablePages(base, prev, args, calls[m], calls[n]);
    }
    forall n | s.next <= n < |s.pages| ensures PageTables.Spare(s, s.pages[n]) {
      PageSmall(base, prev, args, calls[n]);
    }
  }

  class Allocator {
    var bump: nat
    var prevPages: Count
    ghost const base: nat
    ghost const prev: Count
    ghost var args: seq<Count>

    ghost predicate Valid()
      reads this
    {
      if args == [] then bump == base % WRAP && prevPages == prev
      else bump == Start(base, prev, args, |args| - 1) % WRAP && prevPages == args[|args| - 1]
    }

    constructor (start: nat)
      requires start < WRAP
      ensures Valid() && args == [] && base == start && prev == 0
    {
      bump, prevPages := start, 0;
      base, prev, args := start, 0, [];
    }

    method AllocPage(n: Count) returns (address: nat)
      requires Valid()
      modifies this
      ensures Valid() && args == old(args) + [n]
      ensures address == Start(base, prev, args, |old(args)|) % WRAP
    {
      ghost var k := |args|;
      StartPrefix(base, prev, args, n, k);
      AddWraps(if args == [] then base else Start(base, prev, args, k - 1), 4096 + 4096 * (prevPages as nat));
      bump := (bump + (4096 + 4096 * (prevPages as nat))) % WRAP;
      prevPages := n;
      args := args + [n];
      return bump;
    }
  }

  lemma AddWraps(x: nat, y: nat)
    ensures (x % WRAP + y) % WRAP == (x + y) % WRAP
  {
  }
}

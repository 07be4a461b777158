/** exec's clear does succeed, exactly when an empty slot ends each of its loops, and empties every table it reaches. */
module ClearProgress {
  import opened Options
  import opened PageBits
  import opened PageTables
  import opened ForkTables
  import opened ForkSpaces
  import opened CowSteps
  import opened DenseTables
  import opened ForkProgress

  predicate AllEmpty(mem: Memory, q: nat) {
    q in mem && forall x: Index :: mem[q][x] == EMPTY
  }

  /** What is empty stays empty. */
  lemma EmptyStays(own: map<nat, Node>, mem: Memory, m: Memory, r: nat, top: bool, q: nat)
    requires WipedAll(own, mem, m, r, top) && AllEmpty(mem, q)
    ensures AllEmpty(m, q)
  {
    assert Wiped(own, mem, m, r, top, q);
  }

  // ---------------------------------------------------------------- a directory

  /** A table of the directory behind slots `i` and `j`. */
  predicate InDir(n: Node, r: nat, i: Index, j: Index) {
    (n.Pd? || n.Pt?) && n.space == User(r) && n.i == i && n.j == j
  }

  ghost predicate DirOnly(own: map<nat, Node>, mem: Memory, m: Memory, r: nat, i: Index, j: Index, q: nat) {
    q in own && !InDir(own[q], r, i, j) ==> q in mem && q in m && m[q] == mem[q]
  }

  /** The directory `pd` and its page tables are empty now. */
  ghost predicate DirCleared(mem: Memory, m: Memory, pd: nat) {
    pd in mem && AllEmpty(m, pd) && forall x: Index {:trigger mem[pd][x]} :: mem[pd][x] != EMPTY ==> AllEmpty(m, mem[pd][x].frame)
  }

  /** What clearing a directory from slot `k` on does. */
  ghost predicate PdCleared(own: map<nat, Node>, mem: Memory, m: Memory, r: nat, pd: nat, i: Index, j: Index, k: nat) {
    && WipedAll(own, mem, m, r, false) && pd in mem && pd in m
    && (forall q {:trigger DirOnly(own, mem, m, r, i, j, q)} :: DirOnly(own, mem, m, r, i, j, q))
    && (forall x: Index {:trigger m[pd][x]} :: m[pd][x] == if x < k then mem[pd][x] else EMPTY)
    && (forall x: Index {:trigger mem[pd][x]} :: k <= x && mem[pd][x] != EMPTY ==> AllEmpty(m, mem[pd][x].frame))
  }

  /** One page table blanked and its slot emptied. */
  lemma TableCleared(own: map<nat, Node>, mem: Memory, m: Memory, r: nat, pd: nat, i: Index, j: Index, k: Index, page: nat)
    requires Owned(mem, own) && pd in own && own[pd] == Pd(User(r), i, j) && pd in mem && mem[pd][k] != EMPTY && page == mem[pd][k].Page()
    requires page in mem && m == Store(mem[page := Cleared(mem[page], 512)], pd, k, EMPTY)
    ensures page == mem[pd][k].frame && AllEmpty(m, page) && WipedAll(own, mem, m, r, false) && Owned(m, own)
    ensures forall q {:trigger DirOnly(own, mem, m, r, i, j, q)} :: DirOnly(own, mem, m, r, i, j, q)
    ensures pd in m && m[pd] == mem[pd][k := EMPTY]
  {
    assert NodeOk(mem, own, pd) && SlotOk(mem, own, pd, k);
    forall q ensures Wiped(own, mem, m, r, false, q) {
    }
    WipedOwned(own, mem, m, r, false);
    forall q ensures DirOnly(own, mem, m, r, i, j, q) {
      if q in own {
        assert NodeOk(mem, own, q);
      }
    }
  }

  lemma TableInMemory(own: map<nat, Node>, mem: Memory, pd: nat, k: Index)
    requires Owned(mem, own) && pd in own && own[pd].Pd?
    ensures pd in mem && (mem[pd][k] != EMPTY ==> mem[pd][k].Page() in mem)
  {
    assert NodeOk(mem, own, pd) && SlotOk(mem, own, pd, k);
    if mem[pd][k] != EMPTY {
      assert NodeOk(mem, own, mem[pd][k].frame);
    }
  }

  lemma PdThenRest(own: map<nat, Node>, mem: Memory, m: Memory, u: Memory, r: nat, pd: nat, i: Index, j: Index, k: Index)
    requires pd in mem && pd in m && WipedAll(own, mem, m, r, false) && m[pd] == mem[pd][k := EMPTY]
    requires mem[pd][k] != EMPTY ==> AllEmpty(m, mem[pd][k].frame)
    requires forall q {:trigger DirOnly(own, mem, m, r, i, j, q)} :: DirOnly(own, mem, m, r, i, j, q)
    requires PdCleared(own, m, u, r, pd, i, j, k + 1)
    ensures PdCleared(own, mem, u, r, pd, i, j, k)
  {
    WipedTransitive(own, mem, m, u, r, false);
    forall q ensures DirOnly(own, mem, u, r, i, j, q) {
      assert DirOnly(own, mem, m, r, i, j, q) && DirOnly(own, m, u, r, i, j, q);
    }
    if mem[pd][k] != EMPTY {
      EmptyStays(own, m, u, r, false, mem[pd][k].frame);
    }
    forall x: Index | k <= x && mem[pd][x] != EMPTY ensures AllEmpty(u, mem[pd][x].frame) {
      assert x == k || m[pd][x] == mem[pd][x];
    }
  }

  lemma SamePd(own: map<nat, Node>, mem: Memory, r: nat, pd: nat, i: Index, j: Index)
    requires Owned(mem, own) && pd in own
    ensures PdCleared(own, mem, mem, r, pd, i, j, 512)
  {
    assert NodeOk(mem, own, pd);
    forall q ensures Wiped(own, mem, mem, r, false, q) && DirOnly(own, mem, mem, r, i, j, q) {
      if q in own {
        assert NodeOk(mem, own, q);
      }
    }
  }

  lemma {:induction false} ClearPdExact(own: map<nat, Node>, mem: Memory, r: nat, pd: nat, i: Index, j: Index, k: nat)
    requires k <= 512 && Owned(mem, own) && pd in own && own[pd] == Pd(User(r), i, j)
    ensures ClearPd(mem, pd, k).Some? && PdCleared(own, mem, ClearPd(mem, pd, k).value, r, pd, i, j, k)
    decreases 512 - k
  {
    if k == 512 {
      SamePd(own, mem, r, pd, i, j);
    } else {
      TableInMemory(own, mem, pd, k);
      var m := mem;
      if mem[pd][k] == EMPTY {
        SamePd(own, mem, r, pd, i, j);
        assert mem[pd][k := EMPTY] == mem[pd];
      } else {
        var page := mem[pd][k].Page();
        m := Store(mem[page := Cleared(mem[page], 512)], pd, k, EMPTY);
        TableCleared(own, mem, m, r, pd, i, j, k, page);
      }
      ClearPdExact(own, m, r, pd, i, j, k + 1);
      PdThenRest(own, mem, m, ClearPd(mem, pd, k).value, r, pd, i, j, k);
    }
  }

  // ---------------------------------------------------------------- a pointer table

  ghost predicate SlotOnly(own: map<nat, Node>, mem: Memory, m: Memory, r: nat, i: Index, q: nat) {
    q in own && !OfSlot(own[q], r, i) ==> q in mem && q in m && m[q] == mem[q]
  }

  /** What clearing a pointer table from slot `j` up to its first empty one does. */
  ghost predicate PdptCleared(own: map<nat, Node>, mem: Memory, m: Memory, r: nat, p: nat, i: Index, j: nat)
    requires j <= 512
  {
    && WipedAll(own, mem, m, r, false) && p in mem && p in m
    && (forall q {:trigger SlotOnly(own, mem, m, r, i, q)} :: SlotOnly(own, mem, m, r, i, q))
    && (forall y: Index {:trigger mem[p][y]} :: j <= y < FirstEmpty(mem[p], j) ==> m[p][y] == EMPTY && DirCleared(mem, m, mem[p][y].frame))
  }

  lemma DirStaysCleared(own: map<nat, Node>, mem: Memory, m: Memory, u: Memory, r: nat, pd: nat)
    requires DirCleared(mem, m, pd) && WipedAll(own, m, u, r, false)
    ensures DirCleared(mem, u, pd)
  {
    EmptyStays(own, m, u, r, false, pd);
    forall x: Index | mem[pd][x] != EMPTY ensures AllEmpty(u, mem[pd][x].frame) {
      EmptyStays(own, m, u, r, false, mem[pd][x].frame);
    }
  }

  /** The slot emptied and the directory behind it cleared. */
  ghost predicate DirRoundDone(own: map<nat, Node>, mem: Memory, m: Memory, r: nat, p: nat, i: Index, j: Index) {
    && p in mem && p in m && WipedAll(own, mem, m, r, false) && Owned(m, own) && m[p] == mem[p][j := EMPTY]
    && DirCleared(mem, m, mem[p][j].frame)
    && (forall q {:trigger DirOnly(own, mem, m, r, i, j, q)} :: q != p ==> DirOnly(own, mem, m, r, i, j, q))
  }

  lemma ClearDirRound(own: map<nat, Node>, mem: Memory, r: nat, p: nat, i: Index, j: Index)
    requires Owned(mem, own) && p in own && own[p] == Pdpt(User(r), i) && p in mem && mem[p][j] != EMPTY
    ensures var m := ClearPd(Store(mem, p, j, EMPTY), mem[p][j].Page(), 0);
            m.Some? && DirRoundDone(own, mem, m.value, r, p, i, j)
  {
    var pd, m1 := mem[p][j].frame, Store(mem, p, j, EMPTY);
    DirSlotEmptied(own, mem, r, p, i, j, pd, m1);
    ClearPdExact(own, m1, r, pd, i, j, 0);
    var m := ClearPd(m1, pd, 0).value;
    WipedOwned(own, m1, m, r, false);
    WipedTransitive(own, mem, m1, m, r, false);
    DirRoundFrom(own, mem, m1, m, r, p, pd, i, j);
  }

  lemma DirSlotEmptied(own: map<nat, Node>, mem: Memory, r: nat, p: nat, i: Index, j: Index, pd: nat, m1: Memory)
    requires Owned(mem, own) && p in own && own[p] == Pdpt(User(r), i) && p in mem && mem[p][j] != EMPTY
    requires pd == mem[p][j].frame && m1 == Store(mem, p, j, EMPTY)
    ensures pd == mem[p][j].Page() && pd in own && own[pd] == Pd(User(r), i, j) && pd in mem
    ensures Owned(m1, own) && WipedAll(own, mem, m1, r, false)
  {
    assert NodeOk(mem, own, p) && SlotOk(mem, own, p, j);
    assert NodeOk(mem, own, pd);
    EmptySlotWipes(own, mem, r, p, j);
    WipedOwned(own, mem, m1, r, false);
  }

  lemma DirRoundFrom(own: map<nat, Node>, mem: Memory, m1: Memory, m: Memory, r: nat, p: nat, pd: nat, i: Index, j: Index)
    requires p in own && own[p] == Pdpt(User(r), i) && p in mem && pd == mem[p][j].frame && pd in mem && pd != p
    requires m1 == Store(mem, p, j, EMPTY) && PdCleared(own, m1, m, r, pd, i, j, 0) && Owned(m, own) && WipedAll(own, mem, m, r, false)
    ensures DirRoundDone(own, mem, m, r, p, i, j)
  {
    assert DirOnly(own, m1, m, r, i, j, p);
    forall q | q != p ensures DirOnly(own, mem, m, r, i, j, q) {
      assert DirOnly(own, m1, m, r, i, j, q);
    }
    forall x: Index | mem[pd][x] != EMPTY ensures AllEmpty(m, mem[pd][x].frame) {
      assert m1[pd][x] == mem[pd][x];
    }
  }

  lemma OtherDirectory(own: map<nat, Node>, mem: Memory, m: Memory, r: nat, p: nat, i: Index, j: Index, y: Index)
    requires Owned(mem, own) && p in own && own[p] == Pdpt(User(r), i) && DirRoundDone(own, mem, m, r, p, i, j)
    requires y != j && mem[p][y] != EMPTY
    ensures m[p][y] == mem[p][y] && mem[p][y].frame in mem && mem[p][y].frame in m && m[mem[p][y].frame] == mem[mem[p][y].frame]
  {
    assert NodeOk(mem, own, p) && SlotOk(mem, own, p, y);
    assert DirOnly(own, mem, m, r, i, j, mem[p][y].frame);
  }

  lemma ClearedFromEarlier(mem: Memory, m: Memory, u: Memory, pd: nat)
    requires DirCleared(m, u, pd) && pd in mem && m[pd] == mem[pd]
    ensures DirCleared(mem, u, pd)
  {
  }

  lemma DirRoundThenRest(own: map<nat, Node>, mem: Memory, m: Memory, u: Memory, r: nat, p: nat, i: Index, j: Index)
    requires Owned(mem, own) && p in own && own[p] == Pdpt(User(r), i) && p in mem && mem[p][j] != EMPTY
    requires DirRoundDone(own, mem, m, r, p, i, j) && PdptCleared(own, m, u, r, p, i, j + 1)
    ensures FirstEmpty(m[p], j + 1) == FirstEmpty(mem[p], j) && PdptCleared(own, mem, u, r, p, i, j)
  {
    FirstEmptyAfter(mem[p], m[p], j);
    WipedTransitive(own, mem, m, u, r, false);
    forall q ensures SlotOnly(own, mem, u, r, i, q) {
      assert DirOnly(own, mem, m, r, i, j, q) || q == p;
      assert SlotOnly(own, m, u, r, i, q);
    }
    forall y: Index | j <= y < FirstEmpty(mem[p], j) ensures u[p][y] == EMPTY && DirCleared(mem, u, mem[p][y].frame) {
      if y == j {
        DirStaysCleared(own, mem, m, u, r, mem[p][j].frame);
        assert Wiped(own, m, u, r, false, p);
      } else {
        OtherDirectory(own, mem, m, r, p, i, j, y);
        ClearedFromEarlier(mem, m, u, mem[p][y].frame);
      }
    }
  }

  lemma SamePdpt(own: map<nat, Node>, mem: Memory, r: nat, p: nat, i: Index, j: nat)
    requires Owned(mem, own) && p in own && j <= 512 && (p in mem ==> FirstEmpty(mem[p], j) == j)
    ensures PdptCleared(own, mem, mem, r, p, i, j)
  {
    assert NodeOk(mem, own, p);
    forall q ensures Wiped(own, mem, mem, r, false, q) && SlotOnly(own, mem, mem, r, i, q) {
      if q in own {
        assert NodeOk(mem, own, q);
      }
    }
  }

  lemma {:induction false} ClearPdptExact(own: map<nat, Node>, mem: Memory, r: nat, p: nat, i: Index, j: nat)
    requires j <= 512 && Owned(mem, own) && p in own && own[p] == Pdpt(User(r), i)
    ensures p in mem
    ensures ClearPdpt(mem, p, j).Some? <==> FirstEmpty(mem[p], j) < 512
    ensures ClearPdpt(mem, p, j).Some? ==> PdptCleared(own, mem, ClearPdpt(mem, p, j).value, r, p, i, j)
    decreases 512 - j
  {
    assert NodeOk(mem, own, p);
    if j < 512 {
      if mem[p][j] == EMPTY {
        SamePdpt(own, mem, r, p, i, j);
      } else {
        ClearDirRound(own, mem, r, p, i, j);
        var m := ClearPd(Store(mem, p, j, EMPTY), mem[p][j].Page(), 0).value;
        ClearPdptExact(own, m, r, p, i, j + 1);
        FirstEmptyAfter(mem[p], m[p], j);
        if ClearPdpt(mem, p, j).Some? {
          DirRoundThenRest(own, mem, m, ClearPdpt(mem, p, j).value, r, p, i, j);
        }
      }
    }
  }

  // ---------------------------------------------------------------- the top-level table

  /** The pointer table `p` is empty up to its first empty slot, and so are the directories behind it. */
  ghost predicate PtrCleared(mem: Memory, m: Memory, p: nat) {
    && p in mem && p in m
    && forall y: Index {:trigger mem[p][y]} :: y < FirstEmpty(mem[p], 0) ==> m[p][y] == EMPTY && DirCleared(mem, m, mem[p][y].frame)
  }

  /** The slot emptied and the pointer table behind it cleared. */
  ghost predicate TopRoundDone(own: map<nat, Node>, mem: Memory, m: Memory, r: nat, i: Index) {
    && r in mem && r in m && WipedAll(own, mem, m, r, true) && Owned(m, own) && m[r] == mem[r][i := EMPTY]
    && PtrCleared(mem, m, mem[r][i].frame)
    && (forall q {:trigger SlotOnly(own, mem, m, r, i, q)} :: q != r ==> SlotOnly(own, mem, m, r, i, q))
  }

  lemma PtrFromLater(own: map<nat, Node>, mem: Memory, m1: Memory, m: Memory, r: nat, p: nat, i: Index)
    requires Owned(mem, own) && p in own && own[p] == Pdpt(User(r), i) && r in own && own[r] == Pml(r) && r in mem
    requires m1 == Store(mem, r, i, EMPTY) && PdptCleared(own, m1, m, r, p, i, 0)
    ensures PtrCleared(mem, m, p)
  {
    assert NodeOk(mem, own, p);
    assert m1[p] == mem[p];
    forall y: Index | y < FirstEmpty(mem[p], 0) ensures m[p][y] == EMPTY && DirCleared(mem, m, mem[p][y].frame) {
      assert SlotOk(mem, own, p, y);
      assert NodeOk(mem, own, mem[p][y].frame);
      assert m1[p][y] == mem[p][y];
      ClearedFromEarlier(mem, m1, m, mem[p][y].frame);
    }
  }

  lemma ClearTopRoundExact(own: map<nat, Node>, mem: Memory, r: nat, i: Index)
    requires Owned(mem, own) && r in own && own[r] == Pml(r) && r in mem && i < SELF && mem[r][i] != EMPTY
    ensures var m := ClearPdpt(Store(mem, r, i, EMPTY), mem[r][i].Page(), 0);
            && (m.Some? <==> FirstEmpty(TableAt(mem, mem[r][i]), 0) < 512)
            && (m.Some? ==> TopRoundDone(own, mem, m.value, r, i))
  {
    var p, m1 := mem[r][i].frame, Store(mem, r, i, EMPTY);
    SlotEmptied(own, mem, r, i, p, m1);
    ClearPdptExact(own, m1, r, p, i, 0);
    var m := ClearPdpt(m1, p, 0);
    if m.Some? {
      ClearTopRound(own, mem, r, i);
      TopRoundFrom(own, mem, m1, m.value, r, p, i);
    }
  }

  lemma SlotEmptied(own: map<nat, Node>, mem: Memory, r: nat, i: Index, p: nat, m1: Memory)
    requires Owned(mem, own) && r in own && own[r] == Pml(r) && r in mem && i < SELF && mem[r][i] != EMPTY
    requires p == mem[r][i].frame && m1 == Store(mem, r, i, EMPTY)
    ensures p == mem[r][i].Page() && p in own && own[p] == Pdpt(User(r), i) && p in mem && p in m1 && m1[p] == mem[p] && Owned(m1, own)
  {
    assert NodeOk(mem, own, r) && SlotOk(mem, own, r, i);
    assert NodeOk(mem, own, p);
    EmptySlotWipes(own, mem, r, r, i);
    WipedOwned(own, mem, m1, r, true);
  }

  lemma TopRoundFrom(own: map<nat, Node>, mem: Memory, m1: Memory, m: Memory, r: nat, p: nat, i: Index)
    requires Owned(mem, own) && p in own && own[p] == Pdpt(User(r), i) && r in own && own[r] == Pml(r) && r in mem && p == mem[r][i].frame
    requires m1 == Store(mem, r, i, EMPTY) && PdptCleared(own, m1, m, r, p, i, 0)
    requires WipedAll(own, mem, m, r, true) && Owned(m, own) && r in m && m[r] == mem[r][i := EMPTY]
    ensures TopRoundDone(own, mem, m, r, i)
  {
    PtrFromLater(own, mem, m1, m, r, p, i);
    forall q | q != r ensures SlotOnly(own, mem, m, r, i, q) {
      assert SlotOnly(own, m1, m, r, i, q);
    }
  }

  lemma OtherPointer(own: map<nat, Node>, mem: Memory, m: Memory, r: nat, i: Index, x: Index)
    requires Owned(mem, own) && r in own && own[r] == Pml(r) && TopRoundDone(own, mem, m, r, i) && x != i && x < SELF && mem[r][x] != EMPTY
    ensures var p := mem[r][x].frame;
            && m[r][x] == mem[r][x] && p in own && own[p] == Pdpt(User(r), x) && p in mem && p in m && m[p] == mem[p]
  {
    assert NodeOk(mem, own, r) && SlotOk(mem, own, r, x);
    assert SlotOnly(own, mem, m, r, i, mem[r][x].frame);
  }

  lemma {:induction false} EndsSame(own: map<nat, Node>, mem: Memory, m: Memory, r: nat, i: Index, x: nat)
    requires Owned(mem, own) && r in own && own[r] == Pml(r) && TopRoundDone(own, mem, m, r, i) && i < x <= SELF
    ensures Ends(m, m[r], x) <==> Ends(mem, mem[r], x)
    decreases SELF - x
  {
    if x < SELF && mem[r][x] != EMPTY {
      OtherPointer(own, mem, m, r, i, x);
      EndsSame(own, mem, m, r, i, x + 1);
    }
  }

  lemma OtherPtrCleared(own: map<nat, Node>, mem: Memory, m: Memory, u: Memory, r: nat, i: Index, x: Index)
    requires Owned(mem, own) && r in own && own[r] == Pml(r) && TopRoundDone(own, mem, m, r, i) && x != i && x < SELF && mem[r][x] != EMPTY
    requires PtrCleared(m, u, mem[r][x].frame)
    ensures PtrCleared(mem, u, mem[r][x].frame)
  {
    OtherPointer(own, mem, m, r, i, x);
    var p := mem[r][x].frame;
    forall y: Index | y < FirstEmpty(mem[p], 0) ensures u[p][y] == EMPTY && DirCleared(mem, u, mem[p][y].frame) {
      assert NodeOk(mem, own, p) && SlotOk(mem, own, p, y);
      assert SlotOnly(own, mem, m, r, i, mem[p][y].frame);
      assert m[p][y] == mem[p][y];
      ClearedFromEarlier(mem, m, u, mem[p][y].frame);
    }
  }

  lemma DirKept(own: map<nat, Node>, mem: Memory, m: Memory, u: Memory, r: nat, pd: nat)
    requires DirCleared(mem, m, pd) && WipedAll(own, m, u, r, true)
    ensures DirCleared(mem, u, pd)
  {
    EmptyStays(own, m, u, r, true, pd);
    forall x: Index | mem[pd][x] != EMPTY ensures AllEmpty(u, mem[pd][x].frame) {
      EmptyStays(own, m, u, r, true, mem[pd][x].frame);
    }
  }

  lemma PtrKept(own: map<nat, Node>, mem: Memory, m: Memory, u: Memory, r: nat, p: nat)
    requires PtrCleared(mem, m, p) && WipedAll(own, m, u, r, true)
    ensures PtrCleared(mem, u, p)
  {
    assert Wiped(own, m, u, r, true, p);
    forall y: Index | y < FirstEmpty(mem[p], 0) ensures u[p][y] == EMPTY && DirCleared(mem, u, mem[p][y].frame) {
      DirKept(own, mem, m, u, r, mem[p][y].frame);
    }
  }

  /** The loop over the top-level table ends exactly when an empty slot ends it and each loop inside it, and then every
      table it reached is empty. */
  lemma {:induction false} ClearPmlExact(own: map<nat, Node>, mem: Memory, r: nat, i: nat)
    requires i <= SELF && Owned(mem, own) && r in own && own[r] == Pml(r) && r in mem
    ensures ClearPml(mem, r, i).Some? <==> Ends(mem, mem[r], i)
    ensures ClearPml(mem, r, i).Some? ==>
              forall x: Index {:trigger mem[r][x]} :: i <= x < FirstEmpty(mem[r], i) ==> PtrCleared(mem, ClearPml(mem, r, i).value, mem[r][x].frame)
    decreases SELF - i
  {
    if i < SELF && mem[r][i] != EMPTY {
      ClearTopRoundExact(own, mem, r, i);
      var m := ClearPdpt(Store(mem, r, i, EMPTY), mem[r][i].Page(), 0);
      if m.Some? {
        ClearPmlExact(own, m.value, r, i + 1);
        EndsSame(own, mem, m.value, r, i, i + 1);
        if ClearPml(mem, r, i).Some? {
          TopsThenRestCleared(own, mem, m.value, r, i);
        }
      }
    }
  }

  lemma TopsThenRestCleared(own: map<nat, Node>, mem: Memory, m: Memory, r: nat, i: Index)
    requires i < SELF && Owned(mem, own) && r in own && own[r] == Pml(r) && r in mem && mem[r][i] != EMPTY
    requires TopRoundDone(own, mem, m, r, i) && ClearPml(m, r, i + 1).Some?
    requires forall x: Index {:trigger m[r][x]} :: i + 1 <= x < FirstEmpty(m[r], i + 1) ==> PtrCleared(m, ClearPml(m, r, i + 1).value, m[r][x].frame)
    ensures forall x: Index {:trigger mem[r][x]} :: i <= x < FirstEmpty(mem[r], i) ==> PtrCleared(mem, ClearPml(m, r, i + 1).value, mem[r][x].frame)
  {
    var u := ClearPml(m, r, i + 1).value;
    ClearPmlDone(own, m, r, i + 1);
    FirstEmptyAfter(mem[r], m[r], i);
    forall x: Index | i <= x < FirstEmpty(mem[r], i) ensures PtrCleared(mem, u, mem[r][x].frame) {
      if x == i {
        PtrKept(own, mem, m, u, r, mem[r][i].frame);
      } else {
        assert m[r][x] == mem[r][x];
        OtherPtrCleared(own, mem, m, u, r, i, x);
      }
    }
  }

  // ---------------------------------------------------------------- machines

  /** exec's clear succeeds exactly when an empty slot ends each of its loops. */
  lemma ClearExact(m: Machine, r: nat)
    requires Consistent(m) && r in m.roots
    ensures r in m.vm.mem && (ClearFrom(m, r).Some? <==> Ends(m.vm.mem, m.vm.mem[r], 0))
  {
    assert NodeOk(m.vm.mem, m.vm.own, r);
    ClearPmlExact(m.vm.own, m.vm.mem, r, 0);
  }

  /** For programs in the first gibibyte it always does. */
  lemma LowClearSucceeds(m: Machine, r: nat)
    requires Consistent(m) && r in m.roots && LowTables(m.vm.mem, r)
    ensures ClearFrom(m, r).Some?
  {
    LowShape(m, r);
    LowCount(m.vm.mem, m.vm.mem[r]);
    ClearExact(m, r);
  }

  /** The tables of a walk that the loops reach, by their entries. */
  lemma ReachedFrames(m: Machine, r: nat, a: Address)
    requires Consistent(m) && r in m.roots && a.pml < SELF && Reached(m.vm.mem, r, a)
    ensures var mem := m.vm.mem;
            var p := mem[r][a.pml].frame;
            && PdptPage(mem, r, a) == Some(p) && p in mem && a.pdpt < FirstEmpty(mem[p], 0)
            && var q := mem[p][a.pdpt].frame;
               && PdPage(mem, r, a) == Some(q) && q in mem
               && (PtPage(mem, r, a).Some? ==> mem[q][a.pd] != EMPTY && PtPage(mem, r, a) == Some(mem[q][a.pd].frame))
  {
    var mem, own := m.vm.mem, m.vm.own;
    FrameBehind(mem, own, r, a.pml);
    var p := mem[r][a.pml].frame;
    FrameBehind(mem, own, p, a.pdpt);
    FrameBehind(mem, own, mem[p][a.pdpt].frame, a.pd);
  }

  lemma FrameBehind(mem: Memory, own: map<nat, Node>, q: nat, x: Index)
    requires Owned(mem, own) && q in own && !own[q].Pt? && (own[q].Pml? ==> x != SELF)
    ensures q in mem && (Next(mem, q, x).Some? <==> mem[q][x] != EMPTY)
    ensures var p := mem[q][x].frame;
            mem[q][x] != EMPTY ==> Next(mem, q, x) == Some(p) && p in own && p in mem && own[p] == Child(own[q], x)
  {
    assert NodeOk(mem, own, q) && SlotOk(mem, own, q, x);
    if mem[q][x] != EMPTY {
      assert NodeOk(mem, own, mem[q][x].frame);
    }
  }

  lemma ClearedSlots(m: Machine, r: nat, x: Index)
    requires Consistent(m) && r in m.roots && ClearFrom(m, r).Some? && r in m.vm.mem && x < FirstEmpty(m.vm.mem[r], 0)
    ensures var n := ClearFrom(m, r).value.vm.mem; r in n && n[r][x] == EMPTY && PtrCleared(m.vm.mem, n, m.vm.mem[r][x].frame)
  {
    ClearPmlExact(m.vm.own, m.vm.mem, r, 0);
    ClearPmlDone(m.vm.own, m.vm.mem, r, 0);
  }

  /** Every table that the loops reach is emptied: the slots of `a` at the two upper levels, and the whole directory and
      page table of its old walk. */
  lemma ClearEmpties(m: Machine, r: nat, a: Address)
    requires Consistent(m) && r in m.roots && ClearFrom(m, r).Some? && a.pml < SELF && Reached(m.vm.mem, r, a)
    ensures var n := ClearFrom(m, r).value.vm.mem;
            var p, q, t := PdptPage(m.vm.mem, r, a), PdPage(m.vm.mem, r, a), PtPage(m.vm.mem, r, a);
            && r in n && n[r][a.pml] == EMPTY && p.Some? && p.value in n && n[p.value][a.pdpt] == EMPTY
            && q.Some? && AllEmpty(n, q.value) && (t.Some? ==> AllEmpty(n, t.value))
  {
    ReachedFrames(m, r, a);
    ClearedSlots(m, r, a.pml);
  }
}

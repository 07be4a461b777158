/** User programs of this kernel keep all their pages below 1 GiB.  Every step keeps it so, and then the tables are
    dense, as fork and exec need them. */
module DenseTables {
  import opened Options
  import opened PageBits
  import opened PageTables
  import opened ForkTables
  import opened ForkSpaces
  import opened CowSteps

  /** The page lies in the first gibibyte: its first two indices are zero. */
  predicate Low(a: Address) {
    a.pml == 0 && a.pdpt == 0
  }

  /** The walk of `a` in address space `r` finds no table outside the first gibibyte. */
  ghost predicate LowAt(mem: Memory, r: nat, a: Address) {
    a.pml < SELF ==> (PdptPage(mem, r, a).Some? ==> a.pml == 0) && (PdPage(mem, r, a).Some? ==> a.pdpt == 0)
  }

  ghost predicate LowTables(mem: Memory, r: nat) {
    forall a: Address {:trigger LowAt(mem, r, a)} :: LowAt(mem, r, a)
  }

  ghost predicate AllLow(m: Machine) {
    forall r {:trigger LowTables(m.vm.mem, r)} :: r in m.roots ==> LowTables(m.vm.mem, r)
  }

  // ---------------------------------------------------------------- low tables are dense

  lemma LowTop(m: Machine, r: nat, x: Index)
    requires Consistent(m) && r in m.roots && LowTables(m.vm.mem, r) && 0 < x < SELF
    ensures r in m.vm.mem && m.vm.mem[r][x] == EMPTY
  {
    var a := Address(x, 0, 0, 0, 0);
    assert LowAt(m.vm.mem, r, a);
    StepStaysInTree(m.vm.mem, m.vm.own, r, x);
  }

  lemma FirstUsed(t: Table)
    requires t[0] != EMPTY
    ensures FirstEmpty(t, 0) > 0
  {
  }

  lemma UsedSlot(m: Machine, p: nat, x: Index)
    requires Consistent(m) && p in m.vm.own && !m.vm.own[p].Pt? && (m.vm.own[p].Pml? ==> x != SELF) && Next(m.vm.mem, p, x).Some?
    ensures p in m.vm.mem && m.vm.mem[p][x] != EMPTY
    ensures var q := Next(m.vm.mem, p, x).value;
            q == m.vm.mem[p][x].frame && q in m.vm.own && q in m.vm.mem && m.vm.own[q] == Child(m.vm.own[p], x)
  {
    assert NodeOk(m.vm.mem, m.vm.own, p) && SlotOk(m.vm.mem, m.vm.own, p, x);
    assert NodeOk(m.vm.mem, m.vm.own, m.vm.mem[p][x].frame);
  }

  lemma LowReached(m: Machine, r: nat, a: Address)
    requires Consistent(m) && r in m.roots && LowAt(m.vm.mem, r, a) && a.pml < SELF && PdPage(m.vm.mem, r, a).Some?
    ensures Reached(m.vm.mem, r, a)
  {
    UsedSlot(m, r, a.pml);
    var p := PdptPage(m.vm.mem, r, a).value;
    UsedSlot(m, p, a.pdpt);
    FirstUsed(m.vm.mem[r]);
    FirstUsed(m.vm.mem[p]);
  }

  /** Tables without a directory above the first gibibyte are dense. */
  lemma LowIsDense(m: Machine, r: nat)
    requires Consistent(m) && r in m.roots && LowTables(m.vm.mem, r)
    ensures Dense(m, r)
  {
    LowTop(m, r, 1);
    forall x: Index | 0 < x < SELF ensures m.vm.mem[r][x] == EMPTY {
      LowTop(m, r, x);
    }
    forall a: Address | a.pml < SELF && PdPage(m.vm.mem, r, a).Some? ensures Reached(m.vm.mem, r, a) {
      assert LowAt(m.vm.mem, r, a);
      LowReached(m, r, a);
    }
  }

  // ---------------------------------------------------------------- mapping

  lemma AttachLow(s: Tables, mem': Memory, page: nat, slot: Index, p: nat, root: nat, a: Address)
    requires Owned(s.mem, s.own) && IsRoot(s, root) && a.pml < SELF
    requires Attached(s.mem, mem', s.own, page, slot, p) && !s.own[page].Pt?
    requires s.own[page].Pd? || (slot == 0 && forall x: Index :: Next(mem', p, x).None?)
    requires LowAt(s.mem, root, a)
    ensures LowAt(mem', root, a)
  {
    WalkStaysInTree(s, root, a);
    AttachStep(s.mem, mem', s.own, page, slot, p, root, a.pml);
    var q := PdptPage(s.mem, root, a);
    if q.Some? {
      AttachStep(s.mem, mem', s.own, page, slot, p, q.value, a.pdpt);
    }
  }

  lemma DescendLow(s: Tables, page: nat, slot: Index, words: nat, user: bool, root: nat, a: Address)
    requires Sound(s) && page in s.own && !s.own[page].Pt? && words <= 512
    requires if s.own[page].Pd? then words == 1 else words == 512 && slot == 0
    requires IsRoot(s, root) && LowAt(s.mem, root, a)
    requires Descend(s, page, slot, Child(s.own[page], slot), words, user).Some?
    ensures LowAt(Descend(s, page, slot, Child(s.own[page], slot), words, user).value.0.mem, root, a)
  {
    DescendSound(s, page, slot, words, user);
    var t := Descend(s, page, slot, Child(s.own[page], slot), words, user).value.0;
    if Next(s.mem, page, slot).None? && a.pml < SELF {
      var p := s.pages[s.next];
      assert Spare(s, p);
      forall q, x: Index | q in s.own && !(q == page && x == slot) ensures SameSlot(s.mem, t.mem, q, x) {
        assert NodeOk(s.mem, s.own, q);
      }
      AttachLow(s, t.mem, page, slot, p, root, a);
    }
  }

  /** A table in the kernel half is on no user walk. */
  lemma AttachKernelLow(s: Tables, mem': Memory, page: nat, slot: Index, p: nat, root: nat, a: Address)
    requires Owned(s.mem, s.own) && IsRoot(s, root) && a.pml < SELF
    requires Attached(s.mem, mem', s.own, page, slot, p) && !s.own[page].Pt?
    requires if s.own[page].Pml? then slot == 511 else s.own[page].space.Kernel?
    requires LowAt(s.mem, root, a)
    ensures LowAt(mem', root, a)
  {
    WalkStaysInTree(s, root, a);
    AttachStep(s.mem, mem', s.own, page, slot, p, root, a.pml);
    var q := PdptPage(s.mem, root, a);
    if q.Some? {
      AttachStep(s.mem, mem', s.own, page, slot, p, q.value, a.pdpt);
    }
  }

  lemma DescendKernelLow(s: Tables, page: nat, slot: Index, words: nat, user: bool, root: nat, a: Address)
    requires Sound(s) && page in s.own && !s.own[page].Pt? && words <= 512
    requires words == 512 || s.own[page].Pd?
    requires if s.own[page].Pml? then slot == 511 else s.own[page].space.Kernel?
    requires IsRoot(s, root) && LowAt(s.mem, root, a)
    requires Descend(s, page, slot, Child(s.own[page], slot), words, user).Some?
    ensures LowAt(Descend(s, page, slot, Child(s.own[page], slot), words, user).value.0.mem, root, a)
  {
    DescendSound(s, page, slot, words, user);
    var t := Descend(s, page, slot, Child(s.own[page], slot), words, user).value.0;
    if Next(s.mem, page, slot).None? && a.pml < SELF {
      var p := s.pages[s.next];
      assert Spare(s, p);
      forall q, x: Index | q in s.own && !(q == page && x == slot) ensures SameSlot(s.mem, t.mem, q, x) {
        assert NodeOk(s.mem, s.own, q);
      }
      AttachKernelLow(s, t.mem, page, slot, p, root, a);
    }
  }

  lemma PrepareDirectoryLow(s: Tables, r: nat, a: Address, user: bool, root: nat, b: Address)
    requires Sound(s) && IsRoot(s, r) && (Low(a) || a.pml == 511) && IsRoot(s, root) && LowAt(s.mem, root, b)
    requires PrepareDirectory(s, r, a, user).Some?
    ensures LowAt(PrepareDirectory(s, r, a, user).value.0.mem, root, b)
  {
    DescendStep(s, r, a.pml, 512, user);
    var (t, pdpt) := Descend(s, r, a.pml, Pdpt(SpaceOf(r, a.pml), a.pml), 512, user).value;
    assert IsRoot(t, root);
    if Low(a) {
      DescendLow(s, r, a.pml, 512, user, root, b);
      DescendLow(t, pdpt, a.pdpt, 512, user, root, b);
    } else {
      DescendKernelLow(s, r, a.pml, 512, user, root, b);
      DescendKernelLow(t, pdpt, a.pdpt, 512, user, root, b);
    }
  }

  lemma PrepareLow(s: Tables, r: nat, a: Address, user: bool, root: nat, b: Address)
    requires Sound(s) && IsRoot(s, r) && (Low(a) || a.pml == 511) && IsRoot(s, root) && LowAt(s.mem, root, b)
    requires Prepare(s, r, a, user).Some?
    ensures LowAt(Prepare(s, r, a, user).value.0.mem, root, b)
  {
    PrepareDirectorySound(s, r, a, user);
    PrepareDirectoryLow(s, r, a, user, root, b);
    var (t, pd) := PrepareDirectory(s, r, a, user).value;
    assert IsRoot(t, root);
    DescendLow(t, pd, a.pd, 1, user, root, b);
  }

  lemma StoreLow(s: Tables, pt: nat, x: Index, e: Entry, root: nat, b: Address)
    requires Owned(s.mem, s.own) && pt in s.own && pt in s.mem && s.own[pt].Pt? && IsRoot(s, root) && LowAt(s.mem, root, b)
    ensures LowAt(Store(s.mem, pt, x, e), root, b)
  {
    if b.pml < SELF {
      WalkStaysInTree(s, root, b);
    }
  }

  lemma MapLow(s: Tables, r: nat, a: Address, frame: nat, user: bool, root: nat, b: Address)
    requires Sound(s) && IsRoot(s, r) && (Low(a) || a.pml == 511) && IsRoot(s, root) && LowAt(s.mem, root, b)
    requires MapWalk(s, r, a, frame, user).Some?
    ensures LowAt(MapWalk(s, r, a, frame, user).value.mem, root, b)
  {
    PrepareSound(s, r, a, user);
    PrepareLow(s, r, a, user, root, b);
    var (t, pt) := Prepare(s, r, a, user).value;
    assert IsRoot(t, root);
    StoreLow(t, pt, a.pt, SetEntry(t.mem[pt][a.pt], frame, user), root, b);
  }

  lemma MapWindowLow(m: Machine, n: Machine, r: nat, v: Word, frame: nat, user: bool)
    requires Consistent(m) && r in m.roots && (Low(Split(v)) || Split(v).pml == 511) && AllLow(m)
    requires MapWindow(m.vm, r, v, frame, user) == Some(n.vm) && n.roots == m.roots
    ensures AllLow(n)
  {
    WindowRefinesWalk(m.vm, r, v, frame, user);
    forall root | root in m.roots ensures LowTables(n.vm.mem, root) {
      assert LowTables(m.vm.mem, root);
      forall b: Address ensures LowAt(n.vm.mem, root, b) {
        assert LowAt(m.vm.mem, root, b);
        MapLow(m.vm, r, Split(v), frame, user, root, b);
      }
    }
  }

  // ---------------------------------------------------------------- fork

  /** Every table above the page tables is as it was. */
  ghost predicate UpperKept(s: Tables, t: Tables) {
    forall q {:trigger SameTable(s, t, q)} :: q in s.own && !s.own[q].Pt? ==> SameTable(s, t, q)
  }

  ghost predicate SameTable(s: Tables, t: Tables, q: nat) {
    q in s.mem && q in t.mem && t.mem[q] == s.mem[q]
  }

  lemma KeptLow(s: Tables, t: Tables, root: nat, a: Address)
    requires Owned(s.mem, s.own) && IsRoot(s, root) && UpperKept(s, t) && LowAt(s.mem, root, a)
    ensures LowAt(t.mem, root, a)
  {
    if a.pml < SELF {
      WalkStaysInTree(s, root, a);
      assert SameTable(s, t, root);
      var p := PdptPage(s.mem, root, a);
      if p.Some? {
        assert SameTable(s, t, p.value);
      }
    }
  }

  lemma ForkKeepsUpper(s: Tables, r: nat)
    requires Sound(s) && IsRoot(s, r) && Forked(s, r, true).Some?
    ensures UpperKept(s, Forked(s, r, true).value.0)
  {
    ForkCopies(s, r, true);
    CloneSound(s, r);
    var (m, c) := Clone(s, r).value;
    var t := Forked(s, r, true).value.0;
    forall q | q in s.own && !s.own[q].Pt? ensures SameTable(s, t, q) {
      assert NodeOk(s.mem, s.own, q);
      assert PmlKeeps(m, t, c, r, 0, FirstEmpty(m.mem[r], 0), q);
    }
  }

  lemma CopiedDirectories(m: Tables, t: Tables, r: nat, c: nat, p: nat, a: Address)
    requires TopCopied(m, t, r, c, a.pml) && m.mem[r][a.pml].present && m.mem[r][a.pml].high == 0 && m.mem[r][a.pml].frame == p
    requires p in m.mem && (m.mem[p][a.pdpt] == EMPTY || m.mem[p][a.pdpt].present)
    ensures PdPage(t.mem, c, a).Some? ==> PdPage(m.mem, r, a).Some?
  {
    var q := t.mem[c][a.pml].frame;
    assert PtrCopied(m, t, p, q);
    assert a.pdpt >= FirstEmpty(m.mem[p], 0) ==> t.mem[q][a.pdpt] == EMPTY;
  }

  /** The child has a directory only where the parent has one. */
  lemma ChildDirectories(s: Tables, r: nat, a: Address)
    requires Sound(s) && IsRoot(s, r) && r in s.mem && Forked(s, r, true).Some? && a.pml < FirstEmpty(s.mem[r], 0) && a.pml < SELF
    ensures var (t, c) := Forked(s, r, true).value;
            PdPage(t.mem, c, a).Some? ==> PdPage(s.mem, r, a).Some?
  {
    ForkCopies(s, r, true);
    CloneSound(s, r);
    var (m, c) := Clone(s, r).value;
    assert TopCopied(m, Forked(s, r, true).value.0, r, c, a.pml);
    forall q | q in s.mem && q != c ensures SameTable(s, m, q) {
    }
    ParentDirectory(s, m, c, r, a);
    CopiedDirectories(m, Forked(s, r, true).value.0, r, c, s.mem[r][a.pml].frame, a);
  }

  lemma ParentDirectory(s: Tables, m: Tables, c: nat, r: nat, a: Address)
    requires Sound(s) && IsRoot(s, r) && r in s.mem && a.pml < FirstEmpty(s.mem[r], 0) && a.pml < SELF && c !in s.own
    requires forall q {:trigger SameTable(s, m, q)} :: q in s.mem && q != c ==> SameTable(s, m, q)
    ensures r in m.mem && m.mem[r] == s.mem[r] && s.mem[r][a.pml].present && s.mem[r][a.pml].high == 0
    ensures var p := s.mem[r][a.pml].frame;
            p in m.mem && (m.mem[p][a.pdpt] == EMPTY || m.mem[p][a.pdpt].present) && PdPage(m.mem, r, a) == PdPage(s.mem, r, a)
  {
    assert NodeOk(s.mem, s.own, r) && SlotOk(s.mem, s.own, r, a.pml);
    var p := s.mem[r][a.pml].frame;
    assert NodeOk(s.mem, s.own, p) && SlotOk(s.mem, s.own, p, a.pdpt);
    assert SameTable(s, m, r) && SameTable(s, m, p);
  }

  lemma ChildLow(s: Tables, r: nat, a: Address)
    requires Sound(s) && IsRoot(s, r) && r in s.mem && DenseTop(s.mem[r]) && Forked(s, r, true).Some? && LowAt(s.mem, r, a)
    ensures LowAt(Forked(s, r, true).value.0.mem, Forked(s, r, true).value.1, a)
  {
    if a.pml < SELF {
      ChildSlot(s, r, true, a.pml);
      assert NodeOk(s.mem, s.own, r) && SlotOk(s.mem, s.own, r, a.pml);
      if a.pml < FirstEmpty(s.mem[r], 0) {
        ChildDirectories(s, r, a);
      }
    }
  }

  lemma ForkLow(m: Machine, r: nat)
    requires Consistent(m) && r in m.roots && AllLow(m) && ForkFrom(m, r).Some?
    ensures AllLow(ForkFrom(m, r).value)
  {
    var n := ForkFrom(m, r).value;
    assert LowTables(m.vm.mem, r);
    LowIsDense(m, r);
    ForkKeepsUpper(m.vm, r);
    forall root | root in n.roots ensures LowTables(n.vm.mem, root) {
      forall a: Address ensures LowAt(n.vm.mem, root, a) {
        if root in m.roots {
          assert LowTables(m.vm.mem, root) && LowAt(m.vm.mem, root, a);
          KeptLow(m.vm, n.vm, root, a);
        } else {
          assert LowAt(m.vm.mem, r, a);
          ChildLow(m.vm, r, a);
        }
      }
    }
  }

  // ---------------------------------------------------------------- exec

  lemma WipedLow(s: Tables, mem': Memory, r: nat, root: nat, a: Address)
    requires Owned(s.mem, s.own) && IsRoot(s, root) && WipedAll(s.own, s.mem, mem', r, true) && LowAt(s.mem, root, a)
    ensures LowAt(mem', root, a)
  {
    if a.pml < SELF {
      WalkStaysInTree(s, root, a);
      assert NodeOk(s.mem, s.own, root);
      assert Wiped(s.own, s.mem, mem', r, true, root);
      var p := PdptPage(s.mem, root, a);
      if p.Some? {
        assert NodeOk(s.mem, s.own, p.value);
        assert Wiped(s.own, s.mem, mem', r, true, p.value);
      }
    }
  }

  lemma ClearLow(m: Machine, r: nat)
    requires Consistent(m) && r in m.roots && AllLow(m) && ClearFrom(m, r).Some?
    ensures AllLow(ClearFrom(m, r).value)
  {
    var n := ClearFrom(m, r).value;
    RootIsSelfMapped(m.vm, r);
    ClearPmlDone(m.vm.own, m.vm.mem, r, 0);
    forall root | root in n.roots ensures LowTables(n.vm.mem, root) {
      assert LowTables(m.vm.mem, root);
      forall a: Address ensures LowAt(n.vm.mem, root, a) {
        assert LowAt(m.vm.mem, root, a);
        WipedLow(m.vm, n.vm.mem, r, root, a);
      }
    }
  }

  // ---------------------------------------------------------------- steps

  /** The step maps pages in the first gibibyte only; stores may go anywhere. */
  predicate LowEvent(e: Event) {
    (e.Map? || e.Fault?) ==> Low(Split(e.v))
  }

  /** Every step of programs that stay low keeps the tables low. */
  lemma StepLow(m: Machine, e: Event)
    requires Inv(m) && AllLow(m) && Possible(m, e) && LowEvent(e) && Step(m, e).Some?
    ensures AllLow(Step(m, e).value)
  {
    match e
    case Map(r, v, frame, page) => MapWindowLow(m, Step(m, e).value, r, v, frame, true);
    case Fork(r, child) => ForkLow(m, r);
    case Fault(r, v, frame) => FaultLow(m, r, v, frame);
    case Clear(r) => ClearLow(m, r);
    case Write(r, v, word) =>
      WriteForm(m, r, v, word);
      SameTablesLow(m, Step(m, e).value);
    case Kernel(r, v, frame) => MapWindowLow(m, Step(m, e).value, r, v, frame, false);
  }

  lemma FaultLow(m: Machine, r: nat, v: Word, frame: nat)
    requires Consistent(m) && r in m.roots && Low(Split(v)) && AllLow(m) && Resolve(m, r, v, frame).Some?
    ensures AllLow(Resolve(m, r, v, frame).value)
  {
    MapWindowLow(m, MapFrom(m, r, v, frame).value, r, v, frame, true);
    SameTablesLow(MapFrom(m, r, v, frame).value, Resolve(m, r, v, frame).value);
  }

  lemma SameTablesLow(m: Machine, n: Machine)
    requires AllLow(m) && n.vm == m.vm && n.roots == m.roots
    ensures AllLow(n)
  {
  }

  /** The tables that vmmgr_init starts from have no user directory at all. */
  lemma BootLow(mem: Memory, root: nat)
    requires root in mem && forall x: Index :: x < SELF ==> mem[root][x] == EMPTY
    ensures LowTables(mem, root)
  {
    forall a: Address ensures LowAt(mem, root, a) {
    }
  }
}

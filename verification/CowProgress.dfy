/** When the calls of a run succeed. */
module CowProgress {
  import opened Options
  import opened PageBits
  import opened PageTables
  import opened UserAccess
  import opened CowSteps
  import opened DenseTables
  import opened ForkProgress
  import opened ClearProgress
  import opened CowRuns

  /** A user page can be mapped exactly when there are pages for the tables it lacks. */
  lemma MapSucceeds(m: Machine, r: nat, v: Word, frame: nat)
    requires Consistent(m) && r in m.roots && Split(v).pml < SELF && frame < PAGE_LIMIT
    ensures MapFrom(m, r, v, frame).Some? <==> Missing(m.vm.mem, r, Split(v)) <= m.vm.Left()
  {
    WindowRefinesWalk(m.vm, r, v, frame, true);
    MapTranslates(m.vm, r, Split(v), frame, true);
  }

  /** A kernel page likewise; it then translates to the frame, writable and closed to programs. */
  lemma KernelMapped(m: Machine, r: nat, v: Word, frame: nat)
    requires Consistent(m) && r in m.roots && Split(v).pml == 511 && frame < PAGE_LIMIT
    ensures KernelFrom(m, r, v, frame).Some? <==> Missing(m.vm.mem, r, Split(v)) <= m.vm.Left()
    ensures KernelFrom(m, r, v, frame).Some? ==>
              var n := KernelFrom(m, r, v, frame).value;
              && Translate(n.vm.mem, r, Split(v)) == Some((frame, Split(v).offset))
              && Leaf(n.vm.mem, r, Split(v)).Some? && Leaf(n.vm.mem, r, Split(v)).value.writable
              && UserTarget(n.vm.mem, r, Split(v)).None?
  {
    WindowRefinesWalk(m.vm, r, v, frame, false);
    MapTranslates(m.vm, r, Split(v), frame, false);
    if KernelFrom(m, r, v, frame).Some? {
      KernelEnlarges(m, r, v, frame);
      KernelClosed(KernelFrom(m, r, v, frame).value.vm, r, Split(v));
    }
  }

  /** It does so in every address space whose slot 511 refers to the same pointer table. */
  lemma SharedKernel(m: Machine, r: nat, v: Word, frame: nat, r': nat)
    requires Consistent(m) && r in m.roots && r' in m.roots && Split(v).pml == 511 && frame < PAGE_LIMIT
    requires KernelFrom(m, r, v, frame).Some?
    requires PdptPage(m.vm.mem, r, Split(v)).Some? && PdptPage(m.vm.mem, r', Split(v)) == PdptPage(m.vm.mem, r, Split(v))
    ensures var n := KernelFrom(m, r, v, frame).value;
            Leaf(n.vm.mem, r', Split(v)) == Leaf(n.vm.mem, r, Split(v))
  {
    var a := Split(v);
    var n := KernelFrom(m, r, v, frame).value;
    WindowRefinesWalk(m.vm, r, v, frame, false);
    PrepareSound(m.vm, r, a, false);
    var (t, pt) := Prepare(m.vm, r, a, false).value;
    WalkPersists(m.vm, t, Missing(m.vm.mem, r, a), r, a);
    WalkPersists(m.vm, t, Missing(m.vm.mem, r, a), r', a);
    assert IsRoot(t, r) && IsRoot(t, r');
    SameBelow(t.mem, r, r', a);
    StoreEverywhere(t, pt, SetEntry(t.mem[pt][a.pt], frame, false), r, a, r', a);
  }

  lemma SameBelow(mem: Memory, r: nat, r': nat, a: Address)
    requires PdptPage(mem, r', a) == PdptPage(mem, r, a)
    ensures PtPage(mem, r', a) == PtPage(mem, r, a)
  {
  }

  /** Whether a call succeeds, by what can be seen before it. */
  ghost predicate Enabled(s: System, c: Call) {
    var m := s.m;
    match c
    case Mmap(r, v, page) => Missing(m.vm.mem, r, Split(v)) <= m.vm.Left()
    case ForkProcess(r, child) => r in m.vm.mem && m.vm.Left() >= 1 + TablesUnder(m.vm.mem, m.vm.mem[r], 0)
    case CowFault(r, v) => true
    case ExecClear(r) => true
    case StoreWord(r, v, word) =>
      Split(v).pml < SELF && Leaf(m.vm.mem, r, Split(v)).Some? && Leaf(m.vm.mem, r, Split(v)).value.writable
    case MapKernel(r, v, frame) => Missing(m.vm.mem, r, Split(v)) <= m.vm.Left()
    case TakeBlock => true
  }

  lemma StoreEnabled(m: Machine, r: nat, v: Word, word: Word)
    requires Consistent(m) && r in m.roots && (Split(v).pml == SELF ==> !SelfUser(m.vm.mem, r))
    ensures WriteFrom(m, r, v, word).Some? <==>
            Split(v).pml < SELF && Leaf(m.vm.mem, r, Split(v)).Some? && Leaf(m.vm.mem, r, Split(v)).value.writable
  {
    if Split(v).pml < SELF {
      WriteSucceeds(m, r, v, word);
    } else if WriteFrom(m, r, v, word).Some? {
      WriteForm(m, r, v, word);
    }
  }

  lemma AllocatingEnabled(s: System, c: Call, frame: nat)
    requires Inv(s.m) && (c.Mmap? || c.CowFault?) && c.r in s.m.roots
    requires Split(c.v).pml < SELF && frame < PAGE_LIMIT && frame in s.m.data
    requires c.CowFault? ==> Leaf(s.m.vm.mem, c.r, Split(c.v)).Some?
    ensures Step(s.m, EventOf(c, frame)).Some? <==> Enabled(s, c)
  {
    if c.Mmap? {
      MapSucceeds(s.m, c.r, c.v, frame);
    } else {
      FaultFinds(s.m, c.r, c.v, frame);
    }
  }

  lemma OtherEnabled(s: System, c: Call, frame: nat)
    requires Consistent(s.m) && (c.ForkProcess? || c.ExecClear? || c.StoreWord? || c.MapKernel?) && c.r in s.m.roots
    requires LowTables(s.m.vm.mem, c.r)
    requires c.StoreWord? && Split(c.v).pml == SELF ==> !SelfUser(s.m.vm.mem, c.r)
    requires c.MapKernel? ==> Split(c.v).pml == 511 && c.frame < PAGE_LIMIT
    ensures Step(s.m, EventOf(c, frame)).Some? <==> Enabled(s, c)
  {
    match c
    case ForkProcess(r, child) => LowForkExact(s.m, r);
    case ExecClear(r) => LowClearSucceeds(s.m, r);
    case StoreWord(r, v, word) => StoreEnabled(s.m, r, v, word);
    case MapKernel(r, v, f) => KernelEnabled(s.m, r, v, f);
  }

  lemma KernelEnabled(m: Machine, r: nat, v: Word, frame: nat)
    requires Consistent(m) && r in m.roots && Split(v).pml == 511 && frame < PAGE_LIMIT
    ensures KernelFrom(m, r, v, frame).Some? <==> Missing(m.vm.mem, r, Split(v)) <= m.vm.Left()
  {
    KernelMapped(m, r, v, frame);
  }

  lemma StepEnabled(s: System, c: Call)
    requires SystemInv(s) && AllLow(s.m) && Ready(s, c) && !c.TakeBlock?
    ensures Step(s.m, EventOf(c, FrameOf(s))).Some? <==> Enabled(s, c)
  {
    assert LowTables(s.m.vm.mem, c.r);
    if c.Mmap? || c.CowFault? {
      BlockIsFresh(s, PageOf(c.r, Split(c.v)));
      AllocatingEnabled(s, c, FrameOf(s));
    } else {
      OtherEnabled(s, c, FrameOf(s));
    }
  }

  /** In every state of a run of programs in the first gibibyte, a fault, an exec and an allocation of the kernel always
      succeed, a store exactly when its leaf is writable, and a map or a fork exactly when there are pages for the tables
      it adds. */
  lemma CallSucceeds(ss: seq<System>, cs: seq<Call>, k: nat, c: Call)
    requires LowRun(ss, cs) && LowInv(ss, 0) && k <= |cs| && Ready(ss[k], c)
    ensures ss[k].frames.Valid() && (Perform(ss[k], c).Some? <==> Enabled(ss[k], c))
  {
    LowRunTo(ss, cs, k);
    if !c.TakeBlock? {
      StepEnabled(ss[k], c);
    }
  }
}

/** Which branch page_fault_handler takes, and what fork does to that: the copy marks every entry of a shared page
    table, the absent ones too. */
module FaultBranches {
  import opened Options
  import opened PageBits
  import opened PageTables
  import opened ForkTables
  import opened ForkSpaces
  import opened UserAccess
  import opened CowSteps

  /** What becomes of a fault outside the stack: reading the entry faults again because there is no page table, the
      thread is killed, copying the page faults again because it is absent, or the page is copied. */
  datatype Fate = NoTable | Killed | Absent | Copied

  /** The handler reads the entry of the faulting address through the window and looks at its mark. */
  function FateOf(mem: Memory, r: nat, v: Word): Fate {
    match Load(mem, r, Split(PtEntryAddress(v)))
    case None => NoTable
    case Some(e) => if !e.cow then Killed else if e.present then Copied else Absent
  }

  /** The entry of `a` in its page table, present or not. */
  function EntryOf(mem: Memory, r: nat, a: Address): Option<Entry> {
    var p :- PtPage(mem, r, a);
    if p in mem then Some(mem[p][a.pt]) else None
  }

  lemma SlotReads(mem: Memory, r: nat, a: Address)
    requires SelfMapped(mem, r)
    ensures Load(mem, r, PtSlot(a)) == EntryOf(mem, r, a)
  {
    SlotsTranslate(mem, r, a);
  }

  lemma FateReads(mem: Memory, r: nat, v: Word, a: Address)
    requires SelfMapped(mem, r) && a == Split(v)
    ensures Load(mem, r, Split(PtEntryAddress(v))) == EntryOf(mem, r, a)
  {
    WindowSlots(v);
    SlotReads(mem, r, a);
  }

  function Shared(e: Option<Entry>): Option<Entry> {
    if e.Some? then Some(Share(e.value)) else None
  }

  // ---------------------------------------------------------------- entries after fork

  lemma EntryThrough(s: Tables, t: Tables, r: nat, r': nat, pd: nat, pd': nat, a: Address)
    requires PdPage(s.mem, r, a) == Some(pd) && PdPage(t.mem, r', a) == Some(pd') && pd in s.mem && pd' in t.mem
    requires s.mem[pd][a.pd] == EMPTY || (s.mem[pd][a.pd].present && s.mem[pd][a.pd].high == 0)
    requires s.mem[pd][a.pd] == EMPTY ==> t.mem[pd'][a.pd] == EMPTY
    requires s.mem[pd][a.pd] != EMPTY ==>
               var p, q := s.mem[pd][a.pd].frame, t.mem[pd'][a.pd].frame;
               && t.mem[pd'][a.pd].present && t.mem[pd'][a.pd].high == 0 && p in s.mem && q in t.mem && t.mem[q] == SharedTable(s.mem[p])
    ensures EntryOf(t.mem, r', a) == Shared(EntryOf(s.mem, r, a))
  {
    if s.mem[pd][a.pd] != EMPTY {
      SharedTableAt(s.mem[s.mem[pd][a.pd].frame], a.pt);
    }
  }

  lemma CopiedEntry(s: Tables, t: Tables, r: nat, c: nat, a: Address)
    requires SoundBut(s, c) && IsRoot(s, r) && r != c && PmlCopied(s, t, r, c, 0)
    requires a.pml < SELF && Reached(s.mem, r, a)
    ensures EntryOf(t.mem, r, a) == Shared(EntryOf(s.mem, r, a)) && EntryOf(t.mem, c, a) == Shared(EntryOf(s.mem, r, a))
  {
    var pd, pd' := CopyDirectories(s, t, r, c, a);
    EntryThrough(s, t, r, r, pd, pd, a);
    EntryThrough(s, t, r, c, pd, pd', a);
  }

  /** Where there is no directory there is none after fork either. */
  lemma UncopiedEntry(s: Tables, t: Tables, r: nat, c: nat, a: Address)
    requires SoundBut(s, c) && IsRoot(s, r) && r != c && PmlCopied(s, t, r, c, 0) && r in s.mem
    requires a.pml < SELF && PdPage(s.mem, r, a).None? && !Reached(s.mem, r, a)
    requires a.pml >= FirstEmpty(s.mem[r], 0) ==> s.mem[r][a.pml] == EMPTY && s.mem[c][a.pml] == EMPTY
    ensures EntryOf(t.mem, r, a).None? && EntryOf(t.mem, c, a).None? && EntryOf(s.mem, r, a).None?
  {
    assert PmlKeeps(s, t, c, r, 0, FirstEmpty(s.mem[r], 0), r);
    if a.pml < FirstEmpty(s.mem[r], 0) {
      PointerKept(s, t, r, c, a);
      assert TopCopied(s, t, r, c, a.pml);
    }
  }

  lemma PointerKept(s: Tables, t: Tables, r: nat, c: nat, a: Address)
    requires SoundBut(s, c) && IsRoot(s, r) && r != c && PmlCopied(s, t, r, c, 0) && a.pml < FirstEmpty(s.mem[r], 0)
    ensures var p := s.mem[r][a.pml].frame;
            && PdptPage(s.mem, r, a) == Some(p) && PdptPage(t.mem, r, a) == Some(p)
            && p in s.mem && p in t.mem && t.mem[p] == s.mem[p]
            && (s.mem[p][a.pdpt] == EMPTY <==> PdPage(s.mem, r, a).None?)
  {
    WalkTables(s, c, r, a);
    assert PmlKeeps(s, t, c, r, 0, FirstEmpty(s.mem[r], 0), r);
    assert PmlKeeps(s, t, c, r, 0, FirstEmpty(s.mem[r], 0), s.mem[r][a.pml].frame);
  }

  lemma CloneEntry(s: Tables, r: nat, a: Address)
    requires Sound(s) && IsRoot(s, r) && Clone(s, r).Some? && a.pml < SELF
    ensures EntryOf(Clone(s, r).value.0.mem, r, a) == EntryOf(s.mem, r, a)
    ensures PdPage(Clone(s, r).value.0.mem, r, a) == PdPage(s.mem, r, a)
  {
    CloneSound(s, r);
    WalkStaysInTree(s, r, a);
  }

  /** After fork from a dense address space, every entry of its page tables is shared, in it and in the child. */
  lemma ForkedEntry(m: Machine, r: nat, a: Address)
    requires Consistent(m) && r in m.roots && Dense(m, r) && ForkFrom(m, r).Some? && a.pml < SELF
    ensures var n, c := ForkFrom(m, r).value, Forked(m.vm, r, true).value.1;
            && EntryOf(n.vm.mem, r, a) == Shared(EntryOf(m.vm.mem, r, a))
            && EntryOf(n.vm.mem, c, a) == Shared(EntryOf(m.vm.mem, r, a))
  {
    var s := m.vm;
    ForkCopies(s, r, true);
    CloneSound(s, r);
    CloneEntry(s, r, a);
    CloneReached(s, r, a);
    var (t, c) := Clone(s, r).value;
    var u := Forked(s, r, true).value.0;
    if Reached(t.mem, r, a) {
      CopiedEntry(t, u, r, c, a);
    } else {
      DenseUnreached(m, r, a);
      UncopiedEntry(t, u, r, c, a);
    }
  }

  lemma DenseUnreached(m: Machine, r: nat, a: Address)
    requires Dense(m, r) && a.pml < SELF && !(a.pml < FirstEmpty(m.vm.mem[r], 0) && Reached(m.vm.mem, r, a))
    ensures PdPage(m.vm.mem, r, a).None? && (a.pml >= FirstEmpty(m.vm.mem[r], 0) ==> m.vm.mem[r][a.pml] == EMPTY)
  {
    assert Reached(m.vm.mem, r, a) || PdPage(m.vm.mem, r, a).None?;
  }

  // ---------------------------------------------------------------- faults after fork

  /** What a fault comes to once its entry is shared. */
  function SharedFate(e: Option<Entry>): Fate {
    if e.None? then NoTable else if e.value.present then Copied else Absent
  }

  /** Right after a fork, no fault in a user slot of the parent or of the child reaches the branch that kills the thread:
      it is resolved exactly when the page is mapped, and otherwise the handler itself faults, at the copy when there is
      a page table and before it when there is none. */
  lemma ForkedFate(m: Machine, r: nat, v: Word, r': nat)
    requires Inv(m) && r in m.roots && Dense(m, r) && ForkFrom(m, r).Some? && Split(v).pml < SELF
    requires r' == r || r' == Forked(m.vm, r, true).value.1
    ensures FateOf(ForkFrom(m, r).value.vm.mem, r', v) == SharedFate(EntryOf(m.vm.mem, r, Split(v)))
  {
    var n := ForkFrom(m, r).value;
    ForkEnlarges(m, r);
    ForkedEntry(m, r, Split(v));
    assert IsRoot(n.vm, r') && NodeOk(n.vm.mem, n.vm.own, r');
    FateReads(n.vm.mem, r', v, Split(v));
  }

  // ---------------------------------------------------------------- every fault

  /** The branch that a fault in a user slot takes, in every consistent state: killed exactly when there is a page table and
      its entry is not marked, resolved exactly when the page is mapped and marked. */
  lemma FateExact(m: Machine, r: nat, v: Word)
    requires Consistent(m) && r in m.roots && Split(v).pml < SELF
    ensures var e := EntryOf(m.vm.mem, r, Split(v));
            && (FateOf(m.vm.mem, r, v) == NoTable <==> PtPage(m.vm.mem, r, Split(v)).None?)
            && (FateOf(m.vm.mem, r, v) == Killed <==> e.Some? && !e.value.cow)
            && (FateOf(m.vm.mem, r, v) == Copied <==> Leaf(m.vm.mem, r, Split(v)).Some? && Leaf(m.vm.mem, r, Split(v)).value.cow)
  {
    assert NodeOk(m.vm.mem, m.vm.own, r);
    FateReads(m.vm.mem, r, v, Split(v));
    WalkStaysInTree(m.vm, r, Split(v));
  }

  /** A page table that mapping a page adds has no other entry: a fault at any other page of it kills the thread. */
  lemma FreshTableKills(m: Machine, r: nat, v: Word, frame: nat, w: Word)
    requires Consistent(m) && r in m.roots && Split(v).pml < SELF && frame < PAGE_LIMIT && frame in m.data
    requires PtPage(m.vm.mem, r, Split(v)).None? && MapFrom(m, r, v, frame).Some?
    requires PageOf(r, Split(w)) == PageOf(r, Split(v).(pt := Split(w).pt)) && Split(w).pt != Split(v).pt
    ensures FateOf(MapFrom(m, r, v, frame).value.vm.mem, r, w) == Killed
  {
    var a, b, n := Split(v), Split(w), MapFrom(m, r, v, frame).value;
    MapEnlarges(m, r, v, frame);
    FreshEntry(m, r, v, frame, b.pt);
    assert EntryOf(n.vm.mem, r, b) == EntryOf(n.vm.mem, r, a.(pt := b.pt));
    assert IsRoot(n.vm, r) && NodeOk(n.vm.mem, n.vm.own, r);
    FateReads(n.vm.mem, r, w, b);
  }

  lemma FreshEntry(m: Machine, r: nat, v: Word, frame: nat, x: Index)
    requires Consistent(m) && r in m.roots && Split(v).pml < SELF && frame < PAGE_LIMIT && x != Split(v).pt
    requires PtPage(m.vm.mem, r, Split(v)).None? && MapFrom(m, r, v, frame).Some?
    ensures EntryOf(MapFrom(m, r, v, frame).value.vm.mem, r, Split(v).(pt := x)) == Some(EMPTY)
  {
    WindowRefinesWalk(m.vm, r, v, frame, true);
    FreshWalkEntry(m.vm, r, Split(v), frame, x);
  }

  lemma PreparedBlank(s: Tables, r: nat, a: Address, x: Index)
    requires Sound(s) && AllBlank(s) && IsRoot(s, r) && a.pml < SELF && PtPage(s.mem, r, a).None? && Prepare(s, r, a, true).Some?
    ensures var (t, pt) := Prepare(s, r, a, true).value;
            Sound(t) && IsRoot(t, r) && PtPage(t.mem, r, a) == Some(pt) && pt in t.mem && t.mem[pt][x] == EMPTY
  {
    PrepareSound(s, r, a, true);
    assert Blank(s, s.next + Missing(s.mem, r, a) - 1);
  }

  lemma FreshWalkEntry(s: Tables, r: nat, a: Address, frame: nat, x: Index)
    requires Sound(s) && AllBlank(s) && IsRoot(s, r) && a.pml < SELF && PtPage(s.mem, r, a).None? && x != a.pt
    requires MapWalk(s, r, a, frame, true).Some?
    ensures EntryOf(MapWalk(s, r, a, frame, true).value.mem, r, a.(pt := x)) == Some(EMPTY)
  {
    PreparedBlank(s, r, a, x);
    var (t, pt) := Prepare(s, r, a, true).value;
    StoredEntry(t, r, a, pt, SetEntry(t.mem[pt][a.pt], frame, true), x);
  }

  lemma StoredEntry(t: Tables, r: nat, a: Address, pt: nat, e: Entry, x: Index)
    requires Owned(t.mem, t.own) && IsRoot(t, r) && a.pml < SELF && PtPage(t.mem, r, a) == Some(pt) && pt in t.mem && x != a.pt
    ensures EntryOf(Store(t.mem, pt, a.pt, e), r, a.(pt := x)) == Some(t.mem[pt][x])
  {
    WalkStaysInTree(t, r, a);
  }
}

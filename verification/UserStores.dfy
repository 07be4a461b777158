/** Stores of programs through slot 510, where every top-level table shows itself: they end isolation exactly where
    that slot lets programs through, which is the case in every address space that was made by fork. */
module UserStores {
  import opened Options
  import opened PageBits
  import opened PageTables
  import opened UserAccess
  import opened CowSteps

  // ---------------------------------------------------------------- one store

  /** No address space lets programs through its slot 510. */
  ghost predicate Closed(m: Machine) {
    forall r {:trigger SelfUser(m.vm.mem, r)} :: r in m.roots ==> !SelfUser(m.vm.mem, r)
  }

  /** A store whose target is a table. */
  lemma TableStore(m: Machine, r: nat, v: Word, word: Word, p: nat, x: Index)
    requires UserTarget(m.vm.mem, r, Split(v)) == Some((p, 8 * x)) && p in m.vm.mem && p !in m.data
    ensures WriteFrom(m, r, v, word) == Some(m.(vm := m.vm.(mem := Store(m.vm.mem, p, x, Decode(word)))))
  {
  }

  /** A program that may go through slot 510 can write any word into any slot of its top-level table. */
  lemma TopWord(m: Machine, r: nat, x: Index, word: Word) returns (v: Word)
    requires Consistent(m) && r in m.roots && SelfUser(m.vm.mem, r)
    ensures Split(v).pml == SELF
    ensures r in m.vm.mem && WriteFrom(m, r, v, word) == Some(m.(vm := m.vm.(mem := Store(m.vm.mem, r, x, Decode(word)))))
  {
    var u := AddressWord(Address(x, 0, 0, 0, 0));
    v := PmlEntryAddress(u);
    WindowOpens(m.vm, r, u);
    assert NodeOk(m.vm.mem, m.vm.own, r);
    TableStore(m, r, v, word, r, x);
  }

  /** The word of an entry that permits stores and refers to the page. */
  lemma EntryWord(page: nat) returns (w: Word)
    requires page < PAGE_LIMIT
    ensures Decode(w) == SetEntry(EMPTY, page, true)
  {
    var x := NumberWord(page);
    w := SetEntryWord(0, x << 12, true);
    SetEntryDecodes(0, x, true);
    EmptyIsZero(0);
  }

  /** Other address spaces do not walk through the top-level table of `c`. */
  lemma TopStoreElsewhere(m: Machine, c: nat, x: Index, e: Entry, r: nat, a: Address)
    requires Consistent(m) && c in m.roots && r in m.roots && r != c && a.pml < SELF && c in m.vm.mem
    ensures var mem := Store(m.vm.mem, c, x, e);
            && PdptPage(mem, r, a) == PdptPage(m.vm.mem, r, a) && PdPage(mem, r, a) == PdPage(m.vm.mem, r, a)
            && PtPage(mem, r, a) == PtPage(m.vm.mem, r, a) && Leaf(mem, r, a) == Leaf(m.vm.mem, r, a)
  {
    WalkStaysInTree(m.vm, r, a);
  }

  /** A slot that refers to the pointer table of another address space shows its pages. */
  lemma BorrowedLeaf(m: Machine, c: nat, r: nat, a: Address, e: Entry)
    requires Consistent(m) && c in m.roots && r in m.roots && r != c && a.pml < SELF && c in m.vm.mem
    requires PdptPage(m.vm.mem, r, a).Some? && e.present && e.Page() == PdptPage(m.vm.mem, r, a).value
    ensures Leaf(Store(m.vm.mem, c, a.pml, e), c, a) == Leaf(m.vm.mem, r, a)
  {
    WalkStaysInTree(m.vm, r, a);
  }

  lemma EmptiedLeaf(m: Machine, c: nat, a: Address)
    requires c in m.vm.mem
    ensures Leaf(Store(m.vm.mem, c, a.pml, EMPTY), c, a).None?
  {
  }

  /** Emptying a slot takes away the pages behind it. */
  lemma EmptiedShows(m: Machine, c: nat, o: VirtualPage)
    requires Consistent(m) && c in m.roots && SelfUser(m.vm.mem, c) && o.space == User(c) && Content(m, o).Some?
    ensures !WritesPrivate(m)
  {
    EmptyIsZero(0);
    var v := TopWord(m, c, o.i, 0);
    EmptiedLeaf(m, c, Address(o.i, o.j, o.k, o.l, 0));
    assert !PrivateWrite(m, c, v, 0, o);
  }

  /** Referring to a pointer table of another address space adds its pages. */
  lemma BorrowedShows(m: Machine, c: nat, w: VirtualPage, o: VirtualPage)
    requires Consistent(m) && c in m.roots && SelfUser(m.vm.mem, c) && Content(m, w).Some?
    requires o == w.(space := User(c)) && Content(m, o).None?
    ensures !WritesPrivate(m)
  {
    var word := BorrowWord(m, c, w);
    var v := TopWord(m, c, w.i, word);
    assert !PrivateWrite(m, c, v, word, o);
  }

  lemma BorrowWord(m: Machine, c: nat, w: VirtualPage) returns (word: Word)
    requires Consistent(m) && c in m.roots && Content(m, w).Some? && w.space != User(c)
    ensures c in m.vm.mem && Permits(Decode(word))
    ensures PdptPage(m.vm.mem, w.space.root, Address(w.i, w.j, w.k, w.l, 0)) == Some(Decode(word).Page())
    ensures Leaf(Store(m.vm.mem, c, w.i, Decode(word)), c, Address(w.i, w.j, w.k, w.l, 0)) == LeafOf(m, w)
  {
    var a := Address(w.i, w.j, w.k, w.l, 0);
    WalkStaysInTree(m.vm, w.space.root, a);
    var p := PdptPage(m.vm.mem, w.space.root, a).value;
    assert NodeOk(m.vm.mem, m.vm.own, p) && NodeOk(m.vm.mem, m.vm.own, c);
    word := EntryWord(p);
    BorrowedLeaf(m, c, w.space.root, a, Decode(word));
  }

  /** When any page is mapped at all, a program that may go through slot 510 changes a page that it does not store to. */
  lemma WindowShows(m: Machine, c: nat, w: VirtualPage)
    requires Consistent(m) && c in m.roots && SelfUser(m.vm.mem, c) && Content(m, w).Some?
    ensures !WritesPrivate(m)
  {
    var o := w.(space := User(c));
    if Content(m, o).Some? {
      EmptiedShows(m, c, o);
    } else {
      BorrowedShows(m, c, w, o);
    }
  }

  /** Stores are private exactly when writable leaves are exclusive and, as soon as any page is mapped, no address space
      lets programs through its slot 510. */
  lemma PrivateExact(m: Machine)
    requires Consistent(m)
    ensures Closed(m) ==> (WritesPrivate(m) <==> Exclusive(m))
    ensures View(m) != imap[] ==> (WritesPrivate(m) <==> Exclusive(m) && Closed(m))
  {
    if WritesPrivate(m) {
      PrivateNeedsExclusive(m);
      if View(m) != imap[] && !Closed(m) {
        var w :| w in View(m);
        var c :| c in m.roots && SelfUser(m.vm.mem, c);
        WindowShows(m, c, w);
      }
    }
    if Exclusive(m) && Closed(m) {
      forall r, v, word, w | r in m.roots ensures PrivateWrite(m, r, v, word, w) {
        WriteIsPrivate(m, r, v, word, w);
      }
    }
  }

  // ---------------------------------------------------------------- the stores of one program

  /** A store: an address and the word that is at it afterwards. */
  datatype StoreOp = StoreOp(v: Word, word: Word)

  /** A program that makes these stores and nothing else; None when one of them faults. */
  function Stores(m: Machine, r: nat, ops: seq<StoreOp>): Option<Machine>
    decreases |ops|
  {
    if ops == [] then Some(m)
    else
      var n :- WriteFrom(m, r, ops[0].v, ops[0].word);
      Stores(n, r, ops[1..])
  }

  /** Where slot 510 is closed, no stores of a program change a page of another address space. */
  lemma {:induction false} ClosedStores(m: Machine, r: nat, ops: seq<StoreOp>, w: VirtualPage)
    requires Inv(m) && r in m.roots && !SelfUser(m.vm.mem, r) && w.space != User(r) && Stores(m, r, ops).Some?
    ensures Content(Stores(m, r, ops).value, w) == Content(m, w)
    decreases |ops|
  {
    if ops != [] {
      var e := Write(r, ops[0].v, ops[0].word);
      var n := Step(m, e).value;
      WriteForm(m, r, ops[0].v, ops[0].word);
      WriteStep(m, e);
      ViewAt(m, w);
      ViewAt(n, w);
      ClosedStores(n, r, ops[1..], w);
    }
  }

  /** The tables of a user page, below its pointer table, permit stores. */
  lemma OpenTables(s: Tables, r: nat, a: Address)
    requires Sound(s) && Guarded(s) && IsRoot(s, r) && a.pml < SELF && PtPage(s.mem, r, a).Some?
    ensures var p, q := PdptPage(s.mem, r, a).value, PdPage(s.mem, r, a).value;
            && p in s.own && s.own[p].Pdpt? && q in s.own && s.own[q].Pd?
            && UserNext(s.mem, p, a.pdpt) == Some(q) && UserNext(s.mem, q, a.pd) == PtPage(s.mem, r, a)
  {
    WalkStaysInTree(s, r, a);
    var p, q := PdptPage(s.mem, r, a).value, PdPage(s.mem, r, a).value;
    assert FlagsOk(s, p, a.pdpt) && FlagsOk(s, q, a.pd);
  }

  lemma WindowThrough(mem: Memory, c: nat, a: Address, e: Entry, p: nat, q: nat, t: nat)
    requires c in mem && Permits(mem[c][SELF]) && mem[c][SELF].Page() == c && Permits(e) && e.Page() == p && a.pml < SELF
    requires p != c && q != c && UserNext(mem, p, a.pdpt) == Some(q) && UserNext(mem, q, a.pd) == Some(t)
    ensures UserTarget(Store(mem, c, a.pml, e), c, PtSlot(a)) == Some((t, 8 * a.pt))
  {
  }

  /** The second store of the two below: through the borrowed slot, the window shows the page table of the other
      address space. */
  lemma BorrowedTarget(m: Machine, c: nat, r: nat, a: Address, e: Entry)
    requires Consistent(m) && c in m.roots && SelfUser(m.vm.mem, c) && r in m.roots && a.pml < SELF
    requires PtPage(m.vm.mem, r, a).Some? && Permits(e) && PdptPage(m.vm.mem, r, a) == Some(e.Page())
    ensures c in m.vm.mem
    ensures UserTarget(Store(m.vm.mem, c, a.pml, e), c, PtSlot(a)) == Some((PtPage(m.vm.mem, r, a).value, 8 * a.pt))
  {
    OpenTables(m.vm, r, a);
    assert NodeOk(m.vm.mem, m.vm.own, c) && FlagsOk(m.vm, c, SELF);
    WindowThrough(m.vm.mem, c, a, e, e.Page(), PdPage(m.vm.mem, r, a).value, PtPage(m.vm.mem, r, a).value);
  }

  lemma LeafEmptied(mem: Memory, r: nat, a: Address, p: nat)
    requires PtPage(mem, r, a) == Some(p) && p in mem
    requires PdPage(mem, r, a) != Some(p) && PdptPage(mem, r, a) != Some(p) && r != p
    ensures Leaf(Store(mem, p, a.pt, EMPTY), r, a).None?
  {
  }

  /** Two stores of a program take a page away from another address space: the first one makes a slot of its own
      top-level table refer to a pointer table of the other, the second one empties the leaf. */
  lemma TwoStores(m: Machine, c: nat, w: VirtualPage) returns (ops: seq<StoreOp>)
    requires Consistent(m) && c in m.roots && SelfUser(m.vm.mem, c) && w.space != User(c) && Content(m, w).Some?
    ensures Stores(m, c, ops).Some? && Content(Stores(m, c, ops).value, w).None?
  {
    var r, a := w.space.root, Address(w.i, w.j, w.k, w.l, 0);
    var word := BorrowWord(m, c, w);
    var v := TopWord(m, c, w.i, word);
    var u := AddressWord(a);
    ops := [StoreOp(v, word), StoreOp(PtEntryAddress(u), 0)];
    var n := WriteFrom(m, c, v, word).value;
    SecondStore(m, n, c, w, Decode(word), u);
    assert ops[1..] == [ops[1]] && ops[1..][1..] == [];
    assert Stores(n, c, ops[1..]) == WriteFrom(n, c, PtEntryAddress(u), 0);
  }

  lemma SecondStore(m: Machine, n: Machine, c: nat, w: VirtualPage, e: Entry, u: Word)
    requires Consistent(m) && c in m.roots && c in m.vm.mem && SelfUser(m.vm.mem, c) && w.space != User(c) && Content(m, w).Some?
    requires Split(u) == Address(w.i, w.j, w.k, w.l, 0)
    requires Permits(e) && PdptPage(m.vm.mem, w.space.root, Split(u)) == Some(e.Page())
    requires n == m.(vm := m.vm.(mem := Store(m.vm.mem, c, w.i, e)))
    ensures var o := WriteFrom(n, c, PtEntryAddress(u), 0);
            o.Some? && Content(o.value, w).None?
  {
    BorrowedTarget(m, c, w.space.root, Split(u), e);
    WindowSlots(u);
    EmptyIsZero(0);
    TakenAway(m, c, w.space.root, Split(u), e);
    TableStore(n, c, PtEntryAddress(u), 0, PtPage(m.vm.mem, w.space.root, Split(u)).value, w.l);
  }

  lemma TakenAway(m: Machine, c: nat, r: nat, a: Address, e: Entry)
    requires Consistent(m) && c in m.roots && c in m.vm.mem && r in m.roots && r != c && a.pml < SELF && PtPage(m.vm.mem, r, a).Some?
    ensures var p, mem := PtPage(m.vm.mem, r, a).value, Store(m.vm.mem, c, a.pml, e);
            p in mem && p !in m.data && Leaf(Store(mem, p, a.pt, EMPTY), r, a).None?
  {
    TopStoreElsewhere(m, c, a.pml, e, r, a);
    WalkStaysInTree(m.vm, r, a);
    LeafEmptied(Store(m.vm.mem, c, a.pml, e), r, a, PtPage(m.vm.mem, r, a).value);
  }

  ghost predicate Reaches(m: Machine, c: nat, ops: seq<StoreOp>, w: VirtualPage) {
    Stores(m, c, ops).Some? && Content(Stores(m, c, ops).value, w) != Content(m, w)
  }

  /** Isolation, exactly: some stores of a program change a mapped page of another address space if and only if its own
      slot 510 lets programs through. */
  lemma IsolationExact(m: Machine, c: nat, w: VirtualPage)
    requires Inv(m) && c in m.roots && w.space != User(c) && Content(m, w).Some?
    ensures (exists ops {:trigger Reaches(m, c, ops, w)} :: Reaches(m, c, ops, w)) <==> SelfUser(m.vm.mem, c)
  {
    if SelfUser(m.vm.mem, c) {
      var ops := TwoStores(m, c, w);
      assert Reaches(m, c, ops, w);
    } else {
      forall ops ensures !Reaches(m, c, ops, w) {
        if Stores(m, c, ops).Some? {
          ClosedStores(m, c, ops, w);
        }
      }
    }
  }

  // ---------------------------------------------------------------- which address spaces these are

  lemma FaultKeeps(m: Machine, e: Event)
    requires Inv(m) && Possible(m, e) && e.Fault? && Step(m, e).Some?
    ensures Keeps(m.vm, Step(m, e).value.vm)
  {
    FaultForm(m, e.r, e.v, e.frame);
    MapEnlarges(m, e.r, e.v, e.frame);
  }

  lemma StepKeeps(m: Machine, e: Event)
    requires Inv(m) && Possible(m, e) && Step(m, e).Some?
    ensures Keeps(m.vm, Step(m, e).value.vm)
  {
    match e
    case Map(_, _, _, _) => MapEnlarges(m, e.r, e.v, e.frame);
    case Fault(_, _, _) => FaultKeeps(m, e);
    case Fork(_, _) => ForkKeepsFlags(m.vm, e.r);
    case Clear(_) => ClearKeepsFlags(m.vm, e.r);
    case Write(_, _, _) =>
      WriteForm(m, e.r, e.v, e.word);
      KeepsSame(m.vm);
    case Kernel(_, _, _) => KernelEnlarges(m, e.r, e.v, e.frame);
  }

  lemma ForkRoots(m: Machine, e: Event)
    requires Inv(m) && Possible(m, e) && e.Fork? && Step(m, e).Some?
    ensures Step(m, e).value.roots == m.roots + {e.child} && e.child !in m.roots
    ensures SelfUser(Step(m, e).value.vm.mem, e.child)
  {
    ForkEnlarges(m, e.r);
    ForkKeepsFlags(m.vm, e.r);
  }

  lemma SameRoots(m: Machine, e: Event)
    requires !e.Fork? && Step(m, e).Some?
    ensures Step(m, e).value.roots == m.roots
  {
  }

  /** No step changes the slot 510 of an address space, and fork makes one that lets programs through. */
  lemma StepSelf(m: Machine, e: Event, r: nat)
    requires Inv(m) && Possible(m, e) && Step(m, e).Some? && r in Step(m, e).value.roots
    ensures SelfUser(Step(m, e).value.vm.mem, r) <==> r !in m.roots || SelfUser(m.vm.mem, r)
  {
    StepKeeps(m, e);
    if e.Fork? {
      ForkRoots(m, e);
    } else {
      SameRoots(m, e);
    }
    if r in m.roots {
      assert NodeOk(m.vm.mem, m.vm.own, r);
      assert SelfKept(m.vm, Step(m, e).value.vm, r);
    }
  }
}

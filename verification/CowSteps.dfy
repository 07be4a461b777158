/** The virtual-memory operations one by one, against address spaces that copy eagerly and share nothing. */
module CowSteps {
  import opened Options
  import opened PageBits
  import opened PageTables
  import opened ForkTables
  import opened ForkSpaces
  import opened UserAccess

  /** The 64-bit words of a page. */
  type Page = p: seq<Word> | |p| == 512 witness seq(512, _ => 0)

  /** The page tables, the contents of the frames that user pages are kept in, and the address spaces. */
  datatype Machine = Machine(vm: Tables, data: map<nat, Page>, roots: set<nat>)

  /** `v` is a user page of one of the address spaces: it lies below the self-referencing slot. */
  predicate Covers(m: Machine, v: VirtualPage) {
    v.space.User? && v.space.root in m.roots && v.i < SELF
  }

  function LeafOf(m: Machine, v: VirtualPage): Option<Entry>
    requires v.space.User?
  {
    Leaf(m.vm.mem, v.space.root, Address(v.i, v.j, v.k, v.l, 0))
  }

  /** What a program reads in a user page. */
  function Content(m: Machine, v: VirtualPage): Option<Page> {
    if !Covers(m, v) then None
    else
      var e :- LeafOf(m, v);
      if e.Page() in m.data then Some(m.data[e.Page()]) else None
  }

  /** Everything that all programs together can read. */
  ghost function View(m: Machine): imap<VirtualPage, Page> {
    imap v: VirtualPage | Content(m, v).Some? :: Content(m, v).value
  }

  // ---------------------------------------------------------------- steps

  datatype Event =
    | Map(r: nat, v: Word, frame: nat, page: Page) // mmap: program load and stack growth
    | Fork(r: nat, child: nat)
    | Fault(r: nat, v: Word, frame: nat)           // the copy-on-write branch of page_fault_handler
    | Clear(r: nat)                                // exec
    | Write(r: nat, v: Word, word: Word)           // a store in user mode, after which `word` is the word around `v`
    | Kernel(r: nat, v: Word, frame: nat)          // a page of the kernel half, at boot and for devices

  function MapFrom(m: Machine, r: nat, v: Word, frame: nat): Option<Machine> {
    var vm :- MapWindow(m.vm, r, v, frame, true);
    Some(m.(vm := vm))
  }

  /** Copy a page out through its old translation, map a new frame, and copy it back through the new one. */
  function Resolve(m: Machine, r: nat, v: Word, frame: nat): Option<Machine> {
    var base := Split(FaultPageWord(v));
    var page :- Content(m, PageOf(r, base));
    var n :- MapFrom(m, r, v, frame);
    var e :- Leaf(n.vm.mem, r, base);
    Some(n.(data := n.data[e.Page() := page]))
  }

  function ForkFrom(m: Machine, r: nat): Option<Machine> {
    var (vm, c) :- Forked(m.vm, r, true);
    Some(Machine(vm, m.data, m.roots + {c}))
  }

  function ClearFrom(m: Machine, r: nat): Option<Machine> {
    var mem :- ClearPml(m.vm.mem, r, 0);
    Some(m.(vm := m.vm.(mem := mem)))
  }

  /** A store in user mode, to a data frame or to a table; None is a fault. */
  function WriteFrom(m: Machine, r: nat, v: Word, word: Word): Option<Machine> {
    var (page, offset) :- UserTarget(m.vm.mem, r, Split(v));
    if page in m.data then Some(m.(data := m.data[page := m.data[page][offset / 8 := word]]))
    else if page in m.vm.mem then Some(m.(vm := m.vm.(mem := Store(m.vm.mem, page, offset / 8, Decode(word)))))
    else None
  }

  function KernelFrom(m: Machine, r: nat, v: Word, frame: nat): Option<Machine> {
    var vm :- MapWindow(m.vm, r, v, frame, false);
    Some(m.(vm := vm))
  }

  function Step(m: Machine, e: Event): Option<Machine> {
    match e
    case Map(r, v, frame, page) => MapFrom(m, r, v, frame)
    case Fork(r, child) => ForkFrom(m, r)
    case Fault(r, v, frame) => Resolve(m, r, v, frame)
    case Clear(r) => ClearFrom(m, r)
    case Write(r, v, word) => WriteFrom(m, r, v, word)
    case Kernel(r, v, frame) => KernelFrom(m, r, v, frame)
  }

  /** No directory lies behind a gap at either of the two upper levels, so that the loops of fork and exec
      reach everything. */
  ghost predicate Dense(m: Machine, r: nat) {
    && r in m.vm.mem && DenseTop(m.vm.mem[r])
    && (forall a: Address {:trigger Reached(m.vm.mem, r, a)} ::
          a.pml < SELF && PdPage(m.vm.mem, r, a).Some? ==> Reached(m.vm.mem, r, a))
  }

  /** No user page other than `v` is kept in the frame. */
  ghost predicate Unused(m: Machine, v: VirtualPage, frame: nat) {
    forall w: VirtualPage {:trigger Covers(m, w)} :: Covers(m, w) && w != v && LeafOf(m, w).Some? ==> LeafOf(m, w).value.Page() != frame
  }

  /** When a step can happen, apart from what the frame allocator may hand out: the page is a user page, the
      frame is a data frame, fork and exec find dense tables, a fault is a copy-on-write fault, and a store goes
      through slot 510 only where that slot does not let programs through. */
  ghost predicate Possible(m: Machine, e: Event) {
    && e.r in m.roots
    && match e {
         case Map(r, v, frame, page) =>
           Split(v).pml < SELF && frame < PAGE_LIMIT && frame in m.data && m.data[frame] == page
         case Fork(r, child) => Dense(m, r) && m.vm.Left() > 0 && child == m.vm.pages[m.vm.next]
         case Fault(r, v, frame) =>
           && Canonical(v) && Canonical(FaultPageWord(v)) && Split(v).pml < SELF
           && frame < PAGE_LIMIT && frame in m.data
           && Leaf(m.vm.mem, r, Split(v)).Some? && Leaf(m.vm.mem, r, Split(v)).value.cow
         case Clear(r) => Dense(m, r)
         case Write(r, v, word) => Split(v).pml == SELF ==> !SelfUser(m.vm.mem, r)
         case Kernel(r, v, frame) => Split(v).pml == 511 && frame < PAGE_LIMIT
       }
  }

  /** The frame allocator hands out a frame that no other user page is kept in. */
  ghost predicate FreshFrame(m: Machine, e: Event) {
    (e.Map? || e.Fault?) ==> Unused(m, PageOf(e.r, Split(e.v)), e.frame)
  }

  // ---------------------------------------------------------------- the invariant

  ghost predicate PageOk(m: Machine, v: VirtualPage) {
    Covers(m, v) && LeafOf(m, v).Some? ==>
      LeafOf(m, v).value.Page() in m.data && (LeafOf(m, v).value.writable || LeafOf(m, v).value.cow)
  }

  ghost predicate Apart(m: Machine, v: VirtualPage, w: VirtualPage) {
    Covers(m, v) && Covers(m, w) && v != w && LeafOf(m, v).Some? && LeafOf(m, w).Some? && LeafOf(m, v).value.writable ==>
      LeafOf(m, v).value.Page() != LeafOf(m, w).value.Page()
  }

  /** A writable leaf is the only leaf of any address space that names its frame. */
  ghost predicate Exclusive(m: Machine) {
    forall v, w {:trigger Apart(m, v, w)} :: Apart(m, v, w)
  }

  ghost predicate Consistent(m: Machine) {
    && Sound(m.vm) && Guarded(m.vm) && AllBlank(m.vm) && m.data.Keys !! m.vm.mem.Keys
    && (forall r {:trigger r in m.roots} :: r in m.roots ==> IsRoot(m.vm, r))
    && (forall v {:trigger PageOk(m, v)} :: PageOk(m, v))
  }

  ghost predicate Inv(m: Machine) {
    Consistent(m) && Exclusive(m)
  }

  lemma LeafIsPage(m: Machine, r: nat, a: Address)
    requires a.pml < SELF
    ensures PageOf(r, a).space == User(r) && Leaf(m.vm.mem, r, a) == LeafOf(m, PageOf(r, a))
  {
  }

  /** Steps that keep the page tables' spare pages. */
  lemma BlankKept(s: Tables, t: Tables)
    requires Sound(t) && t.pages == s.pages && s.next <= t.next
    requires forall q {:trigger Untouched(s, t, q)} :: Untouched(s, t, q)
    requires AllBlank(s)
    ensures AllBlank(t)
  {
    forall n: nat | t.next <= n < |t.pages| ensures Blank(t, n) {
      assert Blank(s, n);
      assert Spare(t, t.pages[n]);
      assert Untouched(s, t, t.pages[n]);
    }
  }

  // ---------------------------------------------------------------- mapping a page

  /** What mapping a frame does to the leaves. */
  ghost predicate Mapped(m: Machine, n: Machine, v: VirtualPage, frame: nat) {
    && Covers(m, v) && n.roots == m.roots
    && LeafOf(n, v).Some? && LeafOf(n, v).value.writable && LeafOf(n, v).value.Page() == frame
    && (forall w {:trigger SameLeaf(m, n, w)} :: Covers(m, w) && w != v ==> SameLeaf(m, n, w))
  }

  ghost predicate SameLeaf(m: Machine, n: Machine, w: VirtualPage)
    requires w.space.User?
  {
    LeafOf(n, w) == LeafOf(m, w)
  }

  /** The page that is taken for a new page table is zero, so mapping adds no other translation. */
  lemma BlankLeaf(m: Machine, r: nat, a: Address, r': nat, b: Address)
    requires Consistent(m) && r in m.roots && r' in m.roots && a.pml < SELF && b.pml < SELF
    ensures PreparedLeaf(m.vm, r, a, r', b) == Leaf(m.vm.mem, r', b)
  {
    var k := Missing(m.vm.mem, r, a);
    if 0 < k <= m.vm.Left() {
      assert Blank(m.vm, m.vm.next + k - 1);
    }
  }

  lemma MapKeeps(m: Machine, r: nat, v: Word, frame: nat, w: VirtualPage)
    requires Consistent(m) && r in m.roots && Split(v).pml < SELF && MapFrom(m, r, v, frame).Some?
    requires Covers(m, w) && w != PageOf(r, Split(v))
    ensures SameLeaf(m, MapFrom(m, r, v, frame).value, w)
  {
    var b := Address(w.i, w.j, w.k, w.l, 0);
    WindowRefinesWalk(m.vm, r, v, frame, true);
    MapOthers(m.vm, r, Split(v), frame, true, w.space.root, b);
    BlankLeaf(m, r, Split(v), w.space.root, b);
  }

  /** Tables were added from the spare pages; no table was lost and no spare page written. */
  ghost predicate Enlarged(s: Tables, t: Tables) {
    && Sound(t) && Extends(s.own, t.own) && t.mem.Keys == s.mem.Keys && t.pages == s.pages && s.next <= t.next
    && (forall q {:trigger Untouched(s, t, q)} :: Untouched(s, t, q))
    && Keeps(s, t)
  }

  lemma WalkEnlarges(s: Tables, root: nat, a: Address, frame: nat, user: bool)
    requires Sound(s) && Guarded(s) && AllBlank(s) && IsRoot(s, root) && Sided(a, user) && frame < PAGE_LIMIT
    requires MapWalk(s, root, a, frame, user).Some?
    ensures Enlarged(s, MapWalk(s, root, a, frame, user).value)
  {
    MapTranslates(s, root, a, frame, user);
    MapKeepsFlags(s, root, a, frame, user);
  }

  lemma MapEnlarges(m: Machine, r: nat, v: Word, frame: nat)
    requires Consistent(m) && r in m.roots && Split(v).pml < SELF && frame < PAGE_LIMIT
    requires MapFrom(m, r, v, frame).Some?
    ensures var n := MapFrom(m, r, v, frame).value;
            && Enlarged(m.vm, n.vm) && n.data == m.data && n.roots == m.roots
            && Leaf(n.vm.mem, r, Split(v)).Some? && Leaf(n.vm.mem, r, Split(v)).value.writable
            && Leaf(n.vm.mem, r, Split(v)).value.Page() == frame
  {
    WindowRefinesWalk(m.vm, r, v, frame, true);
    WalkEnlarges(m.vm, r, Split(v), frame, true);
    WalkWrites(m.vm, r, Split(v), frame);
  }

  lemma WalkWrites(s: Tables, root: nat, a: Address, frame: nat)
    requires Sound(s) && IsRoot(s, root) && a.pml != SELF && frame < PAGE_LIMIT && MapWalk(s, root, a, frame, true).Some?
    ensures var e := Leaf(MapWalk(s, root, a, frame, true).value.mem, root, a);
            e.Some? && e.value.writable && e.value.Page() == frame
  {
    MapTranslates(s, root, a, frame, true);
  }

  lemma MapLeaves(m: Machine, r: nat, v: Word, frame: nat)
    requires Consistent(m) && r in m.roots && Split(v).pml < SELF && frame < PAGE_LIMIT
    requires MapFrom(m, r, v, frame).Some?
    ensures Mapped(m, MapFrom(m, r, v, frame).value, PageOf(r, Split(v)), frame)
  {
    var n := MapFrom(m, r, v, frame).value;
    MapEnlarges(m, r, v, frame);
    LeafIsPage(n, r, Split(v));
    forall w | Covers(m, w) && w != PageOf(r, Split(v)) ensures SameLeaf(m, n, w) {
      MapKeeps(m, r, v, frame, w);
    }
  }

  lemma MappedConsistent(m: Machine, n: Machine, v: VirtualPage, frame: nat)
    requires Consistent(m) && Mapped(m, n, v, frame) && frame in m.data && Enlarged(m.vm, n.vm) && n.data == m.data
    ensures Consistent(n)
  {
    BlankKept(m.vm, n.vm);
    forall w ensures PageOk(n, w) {
      if Covers(m, w) && w != v {
        assert PageOk(m, w) && SameLeaf(m, n, w);
      }
    }
  }

  /** Mapping a frame keeps writable pages exclusive exactly when no other page was kept in it. */
  lemma MappedExclusive(m: Machine, n: Machine, v: VirtualPage, frame: nat)
    requires Exclusive(m) && Mapped(m, n, v, frame)
    ensures Exclusive(n) <==> Unused(m, v, frame)
  {
    if Unused(m, v, frame) {
      forall x, y ensures Apart(n, x, y) {
        if Covers(m, x) && Covers(m, y) && x != y {
          assert Apart(m, x, y) && Apart(m, y, x);
          assert x == v || SameLeaf(m, n, x);
          assert y == v || SameLeaf(m, n, y);
        }
      }
    }
    if Exclusive(n) {
      forall w | Covers(m, w) && w != v && LeafOf(m, w).Some? ensures LeafOf(m, w).value.Page() != frame {
        assert SameLeaf(m, n, w);
        assert Apart(n, v, w);
      }
    }
  }

  /** Exclusiveness is about the tables only. */
  lemma SameTables(m: Machine, n: Machine)
    requires m.vm == n.vm && m.roots == n.roots
    ensures Exclusive(m) <==> Exclusive(n)
  {
    forall v, w ensures Apart(m, v, w) <==> Apart(n, v, w) {
    }
  }

  // ---------------------------------------------------------------- fork

  /** The page a page of the forked machine was before: the child's pages were the parent's. */
  function Origin(w: VirtualPage, r: nat, c: nat): VirtualPage {
    if w.space == User(c) then w.(space := User(r)) else w
  }

  ghost predicate ForkedLeaf(m: Machine, n: Machine, r: nat, c: nat, w: VirtualPage) {
    Covers(n, w) ==>
      var o := Origin(w, r, c);
      Covers(m, o) && LeafOf(n, w) == if o.space == User(r) then ShareLeaf(LeafOf(m, o)) else LeafOf(m, o)
  }

  lemma ForkEnlarges(m: Machine, r: nat)
    requires Consistent(m) && r in m.roots && Dense(m, r) && ForkFrom(m, r).Some?
    ensures var n := ForkFrom(m, r).value;
            m.vm.Left() > 0 &&
            var c := m.vm.pages[m.vm.next];
            && Enlarged(m.vm, n.vm) && n.data == m.data && n.roots == m.roots + {c} && c !in m.roots && IsRoot(n.vm, c)
  {
    ForkSound(m.vm, r, true);
    ForkKeepsFlags(m.vm, r);
  }

  /** A page that the loops do not reach is not mapped. */
  lemma DenseLeaf(m: Machine, r: nat, a: Address)
    requires Dense(m, r) && a.pml < SELF
    ensures !(a.pml < FirstEmpty(m.vm.mem[r], 0) && Reached(m.vm.mem, r, a)) ==> Leaf(m.vm.mem, r, a).None?
  {
    if FirstEmpty(m.vm.mem[r], 0) <= a.pml {
      assert m.vm.mem[r][a.pml] == EMPTY;
    } else if PdPage(m.vm.mem, r, a).Some? {
      assert Reached(m.vm.mem, r, a);
    }
  }

  lemma ForkLeaves(m: Machine, r: nat, w: VirtualPage)
    requires Consistent(m) && r in m.roots && Dense(m, r) && ForkFrom(m, r).Some?
    ensures m.vm.Left() > 0 && ForkedLeaf(m, ForkFrom(m, r).value, r, m.vm.pages[m.vm.next], w)
  {
    var n := ForkFrom(m, r).value;
    ForkEnlarges(m, r);
    if Covers(n, w) {
      var o := Origin(w, r, m.vm.pages[m.vm.next]);
      var a := Address(w.i, w.j, w.k, w.l, 0);
      ForkTranslates(m.vm, r, true, o.space.root, a);
      DenseLeaf(m, r, a);
    }
  }

  lemma ForkedApart(m: Machine, n: Machine, r: nat, c: nat, v: VirtualPage, w: VirtualPage)
    requires ForkedLeaf(m, n, r, c, v) && ForkedLeaf(m, n, r, c, w) && Apart(m, v, Origin(w, r, c))
    ensures Apart(n, v, w)
  {
  }

  lemma ForkedExclusive(m: Machine, n: Machine, r: nat, c: nat)
    requires Exclusive(m)
    requires forall w {:trigger ForkedLeaf(m, n, r, c, w)} :: ForkedLeaf(m, n, r, c, w)
    ensures Exclusive(n)
  {
    forall v, w ensures Apart(n, v, w) {
      assert ForkedLeaf(m, n, r, c, v) && ForkedLeaf(m, n, r, c, w) && Apart(m, v, Origin(w, r, c));
      ForkedApart(m, n, r, c, v, w);
    }
  }

  lemma ForkedConsistent(m: Machine, n: Machine, r: nat, c: nat)
    requires Consistent(m) && Enlarged(m.vm, n.vm) && n.data == m.data && n.roots == m.roots + {c} && IsRoot(n.vm, c)
    requires forall w {:trigger ForkedLeaf(m, n, r, c, w)} :: ForkedLeaf(m, n, r, c, w)
    ensures Consistent(n)
  {
    BlankKept(m.vm, n.vm);
    forall w ensures PageOk(n, w) {
      assert ForkedLeaf(m, n, r, c, w);
      assert PageOk(m, Origin(w, r, c));
    }
  }

  // ---------------------------------------------------------------- exec

  lemma ClearLeaves(m: Machine, r: nat, w: VirtualPage)
    requires Consistent(m) && r in m.roots && Dense(m, r) && ClearFrom(m, r).Some? && Covers(m, w)
    ensures var n := ClearFrom(m, r).value;
            && Enlarged(m.vm, n.vm) && n.data == m.data && n.roots == m.roots
            && LeafOf(n, w) == if w.space == User(r) then None else LeafOf(m, w)
  {
    var a := Address(w.i, w.j, w.k, w.l, 0);
    ClearTranslates(m.vm, r, w.space.root, a);
    ClearKeepsFlags(m.vm, r);
  }

  ghost predicate ClearedLeaf(m: Machine, n: Machine, r: nat, w: VirtualPage) {
    Covers(m, w) ==> LeafOf(n, w) == if w.space == User(r) then None else LeafOf(m, w)
  }

  lemma ClearedInv(m: Machine, n: Machine, r: nat)
    requires Inv(m) && Enlarged(m.vm, n.vm) && n.data == m.data && n.roots == m.roots
    requires forall w {:trigger ClearedLeaf(m, n, r, w)} :: ClearedLeaf(m, n, r, w)
    ensures Inv(n)
  {
    BlankKept(m.vm, n.vm);
    forall w ensures PageOk(n, w) {
      assert ClearedLeaf(m, n, r, w) && PageOk(m, w);
    }
    forall v, w ensures Apart(n, v, w) {
      assert ClearedLeaf(m, n, r, v) && ClearedLeaf(m, n, r, w) && Apart(m, v, w);
    }
  }

  // ---------------------------------------------------------------- frames and their contents

  /** Changing the contents of data frames keeps the invariant. */
  lemma DataConsistent(m: Machine, n: Machine)
    requires Consistent(m) && n.vm == m.vm && n.roots == m.roots && n.data.Keys == m.data.Keys
    ensures Consistent(n)
  {
    forall w ensures PageOk(n, w) {
      assert PageOk(m, w);
    }
  }

  lemma DataInv(m: Machine, n: Machine)
    requires Inv(m) && n.vm == m.vm && n.roots == m.roots && n.data.Keys == m.data.Keys
    ensures Inv(n)
  {
    SameTables(m, n);
    DataConsistent(m, n);
  }

  // ---------------------------------------------------------------- eager copies

  /** The same step where every address space keeps its own copy of every page: fork copies, a
      copy-on-write fault does nothing. */
  ghost function Ideal(s: imap<VirtualPage, Page>, e: Event): imap<VirtualPage, Page> {
    match e
    case Map(r, v, frame, page) => s[PageOf(r, Split(v)) := page]
    case Fork(r, child) => imap w: VirtualPage | Origin(w, r, child) in s :: s[Origin(w, r, child)]
    case Fault(r, v, frame) => s
    case Clear(r) => imap w: VirtualPage | w in s && w.space != User(r) :: s[w]
    case Write(r, v, word) =>
      var p := PageOf(r, Split(v));
      if p in s then s[p := s[p][Split(v).offset / 8 := word]] else s
    case Kernel(r, v, frame) => s
  }

  ghost function Lookup(s: imap<VirtualPage, Page>, v: VirtualPage): Option<Page> {
    if v in s then Some(s[v]) else None
  }

  lemma ViewAt(m: Machine, v: VirtualPage)
    ensures Lookup(View(m), v) == Content(m, v)
  {
  }

  lemma ViewIs(m: Machine, s: imap<VirtualPage, Page>)
    requires forall v {:trigger Content(m, v)} :: Content(m, v) == Lookup(s, v)
    ensures View(m) == s
  {
    forall v ensures v in View(m) <==> v in s {
      assert Content(m, v) == Lookup(s, v);
    }
    forall v | v in s ensures View(m)[v] == s[v] {
      assert Content(m, v) == Lookup(s, v);
    }
  }

  /** Pages with the same leaf and the same bytes in their frame read the same. */
  lemma SameContent(m: Machine, v: VirtualPage, n: Machine, w: VirtualPage)
    requires Covers(m, v) && Covers(n, w) && PageOk(m, v)
    requires LeafOf(n, w).Some? <==> LeafOf(m, v).Some?
    requires LeafOf(m, v).Some? ==> LeafOf(n, w).value.Page() == LeafOf(m, v).value.Page()
    requires LeafOf(m, v).Some? ==>
               var f := LeafOf(m, v).value.Page(); f in m.data ==> f in n.data && n.data[f] == m.data[f]
    ensures Content(n, w) == Content(m, v)
  {
  }

  lemma MappedView(m: Machine, n: Machine, p: VirtualPage, frame: nat)
    requires Consistent(m) && Mapped(m, n, p, frame) && n.data == m.data && frame in m.data
    ensures View(n) == View(m)[p := m.data[frame]]
  {
    forall w ensures Content(n, w) == Lookup(View(m)[p := m.data[frame]], w) {
      ViewAt(m, w);
      if Covers(m, w) && w != p {
        assert PageOk(m, w) && SameLeaf(m, n, w);
        SameContent(m, w, n, w);
      }
    }
    ViewIs(n, View(m)[p := m.data[frame]]);
  }

  lemma MapStep(m: Machine, e: Event)
    requires Inv(m) && Possible(m, e) && FreshFrame(m, e) && e.Map? && Step(m, e).Some?
    ensures Inv(Step(m, e).value) && View(Step(m, e).value) == Ideal(View(m), e)
  {
    var n := Step(m, e).value;
    var p := PageOf(e.r, Split(e.v));
    MapEnlarges(m, e.r, e.v, e.frame);
    MapLeaves(m, e.r, e.v, e.frame);
    MappedConsistent(m, n, p, e.frame);
    MappedExclusive(m, n, p, e.frame);
    MappedView(m, n, p, e.frame);
  }

  lemma FaultKeepsContent(m: Machine, k: Machine, n: Machine, p: VirtualPage, frame: nat, w: VirtualPage)
    requires Inv(m) && Mapped(m, k, p, frame) && Unused(m, p, frame) && k.data == m.data && frame in m.data
    requires Content(m, p).Some? && n == k.(data := k.data[frame := Content(m, p).value])
    ensures Content(n, w) == Content(m, w)
  {
    if Covers(m, w) && w != p {
      assert PageOk(m, w) && SameLeaf(m, k, w);
      SameContent(m, w, n, w);
    }
  }

  /** The copy back goes to the new frame. */
  lemma FaultForm(m: Machine, r: nat, v: Word, frame: nat)
    requires Consistent(m) && r in m.roots && Split(v).pml < SELF && frame < PAGE_LIMIT && Resolve(m, r, v, frame).Some?
    ensures MapFrom(m, r, v, frame).Some? && Content(m, PageOf(r, Split(v))).Some?
    ensures var k := MapFrom(m, r, v, frame).value;
            Resolve(m, r, v, frame).value == k.(data := k.data[frame := Content(m, PageOf(r, Split(v))).value])
  {
    FaultPageBase(v);
    MapEnlarges(m, r, v, frame);
    LeafIsPage(MapFrom(m, r, v, frame).value, r, Split(v));
    LeafIsPage(MapFrom(m, r, v, frame).value, r, Split(FaultPageWord(v)));
  }

  lemma FaultStep(m: Machine, e: Event)
    requires Inv(m) && Possible(m, e) && FreshFrame(m, e) && e.Fault? && Step(m, e).Some?
    ensures Inv(Step(m, e).value) && View(Step(m, e).value) == Ideal(View(m), e)
  {
    FaultForm(m, e.r, e.v, e.frame);
    MapEnlarges(m, e.r, e.v, e.frame);
    MapLeaves(m, e.r, e.v, e.frame);
    FaultedInv(m, MapFrom(m, e.r, e.v, e.frame).value, Step(m, e).value, PageOf(e.r, Split(e.v)), e.frame);
  }

  lemma FaultedInv(m: Machine, k: Machine, n: Machine, p: VirtualPage, frame: nat)
    requires Inv(m) && Mapped(m, k, p, frame) && Unused(m, p, frame) && k.data == m.data && frame in m.data
    requires Enlarged(m.vm, k.vm)
    requires Content(m, p).Some? && n == k.(data := k.data[frame := Content(m, p).value])
    ensures Inv(n) && View(n) == View(m)
  {
    MappedConsistent(m, k, p, frame);
    MappedExclusive(m, k, p, frame);
    DataInv(k, n);
    FaultKeepsView(m, k, n, p, frame);
  }

  lemma FaultKeepsView(m: Machine, k: Machine, n: Machine, p: VirtualPage, frame: nat)
    requires Inv(m) && Mapped(m, k, p, frame) && Unused(m, p, frame) && k.data == m.data && frame in m.data
    requires Content(m, p).Some? && n == k.(data := k.data[frame := Content(m, p).value])
    ensures View(n) == View(m)
  {
    forall w ensures Content(n, w) == Lookup(View(m), w) {
      ViewAt(m, w);
      FaultKeepsContent(m, k, n, p, frame, w);
    }
    ViewIs(n, View(m));
  }

  lemma ForkedContent(m: Machine, n: Machine, r: nat, c: nat, w: VirtualPage)
    requires Consistent(m) && ForkedLeaf(m, n, r, c, w) && n.data == m.data && n.roots == m.roots + {c} && r in m.roots
    requires c !in m.roots
    ensures Content(n, w) == Content(m, Origin(w, r, c))
  {
    var o := Origin(w, r, c);
    if Covers(n, w) {
      assert PageOk(m, o);
      SameContent(m, o, n, w);
    }
  }

  lemma ForkedView(m: Machine, n: Machine, e: Event)
    requires Consistent(m) && e.Fork? && n.data == m.data && n.roots == m.roots + {e.child} && e.r in m.roots && e.child !in m.roots
    requires forall w {:trigger ForkedLeaf(m, n, e.r, e.child, w)} :: ForkedLeaf(m, n, e.r, e.child, w)
    ensures View(n) == Ideal(View(m), e)
  {
    forall w ensures Content(n, w) == Lookup(Ideal(View(m), e), w) {
      assert ForkedLeaf(m, n, e.r, e.child, w);
      ForkedContent(m, n, e.r, e.child, w);
      ViewAt(m, Origin(w, e.r, e.child));
    }
    ViewIs(n, Ideal(View(m), e));
  }

  lemma ForkStep(m: Machine, e: Event)
    requires Inv(m) && Possible(m, e) && e.Fork? && Step(m, e).Some?
    ensures Inv(Step(m, e).value) && View(Step(m, e).value) == Ideal(View(m), e)
  {
    var n := Step(m, e).value;
    ForkEnlarges(m, e.r);
    forall w ensures ForkedLeaf(m, n, e.r, e.child, w) {
      ForkLeaves(m, e.r, w);
    }
    ForkedConsistent(m, n, e.r, e.child);
    ForkedExclusive(m, n, e.r, e.child);
    ForkedView(m, n, e);
  }

  lemma ClearStep(m: Machine, e: Event)
    requires Inv(m) && Possible(m, e) && e.Clear? && Step(m, e).Some?
    ensures Inv(Step(m, e).value) && View(Step(m, e).value) == Ideal(View(m), e)
  {
    var n := Step(m, e).value;
    forall w ensures ClearedLeaf(m, n, e.r, w) {
      if Covers(m, w) {
        ClearLeaves(m, e.r, w);
      }
    }
    ClearLeaves(m, e.r, VirtualPage(User(e.r), 0, 0, 0, 0));
    ClearedInv(m, n, e.r);
    forall w ensures Content(n, w) == Lookup(Ideal(View(m), e), w) {
      ViewAt(m, w);
      assert ClearedLeaf(m, n, e.r, w) && PageOk(m, w);
    }
    ViewIs(n, Ideal(View(m), e));
  }

  lemma WrittenContent(m: Machine, n: Machine, p: VirtualPage, page: Page, w: VirtualPage)
    requires Inv(m) && Covers(m, p) && LeafOf(m, p).Some? && LeafOf(m, p).value.writable
    requires n == m.(data := m.data[LeafOf(m, p).value.Page() := page])
    ensures Content(n, w) == if w == p then Some(page) else Content(m, w)
  {
    assert PageOk(m, w) && PageOk(m, p) && Apart(m, p, w);
  }

  /** A store that does not go through slot 510 goes to the frame of a user page with a writable leaf. */
  lemma WriteForm(m: Machine, r: nat, v: Word, word: Word)
    requires Consistent(m) && r in m.roots && (Split(v).pml == SELF ==> !SelfUser(m.vm.mem, r)) && WriteFrom(m, r, v, word).Some?
    ensures Split(v).pml < SELF && Covers(m, PageOf(r, Split(v)))
    ensures var e := LeafOf(m, PageOf(r, Split(v)));
            && e.Some? && e.value.writable && e.value.Page() in m.data
            && WriteFrom(m, r, v, word).value ==
               m.(data := m.data[e.value.Page() := m.data[e.value.Page()][Split(v).offset / 8 := word]])
  {
    if Split(v).pml == 511 {
      KernelClosed(m.vm, r, Split(v));
    }
    TargetTranslates(m.vm.mem, r, Split(v));
    LeafIsPage(m, r, Split(v));
    assert PageOk(m, PageOf(r, Split(v)));
  }

  lemma WrittenView(m: Machine, n: Machine, p: VirtualPage, x: Index, word: Word)
    requires Inv(m) && Covers(m, p) && LeafOf(m, p).Some? && LeafOf(m, p).value.writable && LeafOf(m, p).value.Page() in m.data
    requires var f := LeafOf(m, p).value.Page(); n == m.(data := m.data[f := m.data[f][x := word]])
    ensures Inv(n) && p in View(m) && View(n) == View(m)[p := View(m)[p][x := word]]
  {
    DataInv(m, n);
    ViewAt(m, p);
    var page := View(m)[p][x := word];
    forall w ensures Content(n, w) == Lookup(View(m)[p := page], w) {
      ViewAt(m, w);
      WrittenContent(m, n, p, page, w);
    }
    ViewIs(n, View(m)[p := page]);
  }

  lemma WriteStep(m: Machine, e: Event)
    requires Inv(m) && Possible(m, e) && e.Write? && Step(m, e).Some?
    ensures Inv(Step(m, e).value) && View(Step(m, e).value) == Ideal(View(m), e)
  {
    WriteForm(m, e.r, e.v, e.word);
    WrittenView(m, Step(m, e).value, PageOf(e.r, Split(e.v)), Split(e.v).offset / 8, e.word);
  }

  // ---------------------------------------------------------------- the kernel half

  lemma KernelLeaf(m: Machine, r: nat, v: Word, frame: nat, w: VirtualPage)
    requires Consistent(m) && r in m.roots && Split(v).pml == 511 && KernelFrom(m, r, v, frame).Some? && Covers(m, w)
    ensures SameLeaf(m, KernelFrom(m, r, v, frame).value, w)
  {
    var a, b := Split(v), Address(w.i, w.j, w.k, w.l, 0);
    WindowRefinesWalk(m.vm, r, v, frame, false);
    MapEverywhere(m.vm, r, a, frame, false, w.space.root, b);
    var t := KernelFrom(m, r, v, frame).value.vm;
    if PtPage(t.mem, w.space.root, b) == PtPage(t.mem, r, a) {
      SharedBefore(m.vm, r, a, frame, false, w.space.root, b);
    }
  }

  lemma KernelEnlarges(m: Machine, r: nat, v: Word, frame: nat)
    requires Consistent(m) && r in m.roots && Split(v).pml == 511 && frame < PAGE_LIMIT && KernelFrom(m, r, v, frame).Some?
    ensures Enlarged(m.vm, KernelFrom(m, r, v, frame).value.vm)
  {
    WindowRefinesWalk(m.vm, r, v, frame, false);
    WalkEnlarges(m.vm, r, Split(v), frame, false);
  }

  /** Changes of the tables that keep all user leaves keep everything. */
  lemma SameLeaves(m: Machine, n: Machine)
    requires Inv(m) && Enlarged(m.vm, n.vm) && n.data == m.data && n.roots == m.roots
    requires forall w {:trigger SameLeaf(m, n, w)} :: Covers(m, w) ==> SameLeaf(m, n, w)
    ensures Inv(n) && View(n) == View(m)
  {
    BlankKept(m.vm, n.vm);
    forall w ensures PageOk(n, w) && Content(n, w) == Lookup(View(m), w) {
      ViewAt(m, w);
      assert PageOk(m, w) && (Covers(m, w) ==> SameLeaf(m, n, w));
    }
    forall v, w ensures Apart(n, v, w) {
      assert Apart(m, v, w) && (Covers(m, v) ==> SameLeaf(m, n, v)) && (Covers(m, w) ==> SameLeaf(m, n, w));
    }
    ViewIs(n, View(m));
  }

  lemma KernelStep(m: Machine, e: Event)
    requires Inv(m) && Possible(m, e) && e.Kernel? && Step(m, e).Some?
    ensures Inv(Step(m, e).value) && View(Step(m, e).value) == Ideal(View(m), e)
  {
    var n := Step(m, e).value;
    KernelEnlarges(m, e.r, e.v, e.frame);
    forall w | Covers(m, w) ensures SameLeaf(m, n, w) {
      KernelLeaf(m, e.r, e.v, e.frame, w);
    }
    SameLeaves(m, n);
  }

  /** Every step keeps the invariant and does what it would do without sharing. */
  lemma StepRefines(m: Machine, e: Event)
    requires Inv(m) && Possible(m, e) && FreshFrame(m, e) && Step(m, e).Some?
    ensures Inv(Step(m, e).value) && View(Step(m, e).value) == Ideal(View(m), e)
  {
    match e
    case Map(_, _, _, _) => MapStep(m, e);
    case Fork(_, _) => ForkStep(m, e);
    case Fault(_, _, _) => FaultStep(m, e);
    case Clear(_) => ClearStep(m, e);
    case Write(_, _, _) => WriteStep(m, e);
    case Kernel(_, _, _) => KernelStep(m, e);
  }

  // ---------------------------------------------------------------- exclusiveness is what isolation needs

  ghost predicate PrivateWrite(m: Machine, r: nat, v: Word, word: Word, w: VirtualPage) {
    var n := WriteFrom(m, r, v, word);
    n.Some? && w != PageOf(r, Split(v)) ==> Content(n.value, w) == Content(m, w)
  }

  /** No store of any program changes what any page reads but the one it goes through. */
  ghost predicate WritesPrivate(m: Machine) {
    forall r, v, word, w {:trigger PrivateWrite(m, r, v, word, w)} :: r in m.roots ==> PrivateWrite(m, r, v, word, w)
  }

  lemma WriteIsPrivate(m: Machine, r: nat, v: Word, word: Word, w: VirtualPage)
    requires Consistent(m) && Exclusive(m) && r in m.roots && (Split(v).pml == SELF ==> !SelfUser(m.vm.mem, r))
    ensures PrivateWrite(m, r, v, word, w)
  {
    if WriteFrom(m, r, v, word).Some? {
      WriteForm(m, r, v, word);
      assert Apart(m, PageOf(r, Split(v)), w);
    }
  }

  lemma OtherWord(x: Word)
    ensures x ^ 1 != x
  {
  }

  lemma SharedWriteShows(m: Machine, p: VirtualPage, w: VirtualPage)
    requires Consistent(m) && WritesPrivate(m)
    ensures Apart(m, p, w)
  {
    if Covers(m, p) && Covers(m, w) && p != w && LeafOf(m, p).Some? && LeafOf(m, w).Some? && LeafOf(m, p).value.writable {
      var r := p.space.root;
      var v := AddressWord(Address(p.i, p.j, p.k, p.l, 0));
      assert PageOk(m, p) && PageOk(m, w);
      UserPages(m.vm, r, Split(v));
      TargetTranslates(m.vm.mem, r, Split(v));
      var x := m.data[LeafOf(m, p).value.Page()][0];
      OtherWord(x);
      assert PrivateWrite(m, r, v, x ^ 1, w);
    }
  }

  lemma PrivateNeedsExclusive(m: Machine)
    requires Consistent(m) && WritesPrivate(m)
    ensures Exclusive(m)
  {
    forall v, w ensures Apart(m, v, w) {
      SharedWriteShows(m, v, w);
    }
  }

  /** A step hands out a frame that is used elsewhere exactly when it breaks exclusiveness. */
  lemma FreshExact(m: Machine, e: Event)
    requires Inv(m) && Possible(m, e) && (e.Map? || e.Fault?) && Step(m, e).Some?
    ensures Exclusive(Step(m, e).value) <==> FreshFrame(m, e)
  {
    MapLeaves(m, e.r, e.v, e.frame);
    var n := MapFrom(m, e.r, e.v, e.frame).value;
    MappedExclusive(m, n, PageOf(e.r, Split(e.v)), e.frame);
    if e.Fault? {
      FaultForm(m, e.r, e.v, e.frame);
      SameTables(n, Step(m, e).value);
    }
  }

  /** A frame that is handed out twice, as the frame allocator does with frame 0 once it has run out, ends
      isolation: some store through one of the pages changes the other. */
  lemma FrameTwice(m: Machine, e: Event, n: Machine, f: Event)
    requires Inv(m) && Possible(m, e) && FreshFrame(m, e) && Step(m, e) == Some(n) && e.Map?
    requires Possible(n, f) && f.Map? && Step(n, f).Some?
    requires f.frame == e.frame && PageOf(f.r, Split(f.v)) != PageOf(e.r, Split(e.v))
    ensures !WritesPrivate(Step(n, f).value)
  {
    StepRefines(m, e);
    MapLeaves(m, e.r, e.v, e.frame);
    FreshExact(n, f);
    MapEnlarges(n, f.r, f.v, f.frame);
    MapLeaves(n, f.r, f.v, f.frame);
    assert !Unused(n, PageOf(f.r, Split(f.v)), f.frame) by {
      assert Covers(n, PageOf(e.r, Split(e.v)));
    }
    MappedConsistent(n, Step(n, f).value, PageOf(f.r, Split(f.v)), f.frame);
    if WritesPrivate(Step(n, f).value) {
      PrivateNeedsExclusive(Step(n, f).value);
    }
  }

  lemma WalkedMissing(s: Tables, r: nat, a: Address)
    requires Leaf(s.mem, r, a).Some?
    ensures Missing(s.mem, r, a) == 0
  {
  }

  /** A store through a user page does not fault exactly when its leaf is writable. */
  lemma WriteSucceeds(m: Machine, r: nat, v: Word, word: Word)
    requires Consistent(m) && r in m.roots && Split(v).pml < SELF
    ensures WriteFrom(m, r, v, word).Some? <==> Leaf(m.vm.mem, r, Split(v)).Some? && Leaf(m.vm.mem, r, Split(v)).value.writable
  {
    UserPages(m.vm, r, Split(v));
    LeafIsPage(m, r, Split(v));
    assert PageOk(m, PageOf(r, Split(v)));
    if UserTarget(m.vm.mem, r, Split(v)).Some? {
      TargetTranslates(m.vm.mem, r, Split(v));
    }
  }

  lemma FaultFinds(m: Machine, r: nat, v: Word, frame: nat)
    requires Inv(m) && r in m.roots && Split(v).pml < SELF && frame < PAGE_LIMIT && frame in m.data
    requires Leaf(m.vm.mem, r, Split(v)).Some?
    ensures Resolve(m, r, v, frame).Some?
    ensures var e := Leaf(Resolve(m, r, v, frame).value.vm.mem, r, Split(v)); e.Some? && e.value.writable
  {
    var a := Split(v);
    LeafIsPage(m, r, a);
    assert PageOk(m, PageOf(r, a));
    FaultPageBase(v);
    WalkedMissing(m.vm, r, a);
    WindowRefinesWalk(m.vm, r, v, frame, true);
    MapTranslates(m.vm, r, a, frame, true);
    MapEnlarges(m, r, v, frame);
    LeafIsPage(MapFrom(m, r, v, frame).value, r, a);
  }

  lemma FaultPossible(m: Machine, r: nat, v: Word, frame: nat)
    requires Inv(m) && r in m.roots && Canonical(v) && Split(v).pml < 256 && frame < PAGE_LIMIT && frame in m.data
    requires Leaf(m.vm.mem, r, Split(v)).Some? && !Leaf(m.vm.mem, r, Split(v)).value.writable
    ensures Possible(m, Fault(r, v, frame))
  {
    LeafIsPage(m, r, Split(v));
    assert PageOk(m, PageOf(r, Split(v)));
    FaultPageBase(v);
  }

  lemma FaultedConsistent(m: Machine, k: Machine, n: Machine, p: VirtualPage, frame: nat, page: Page)
    requires Consistent(m) && Mapped(m, k, p, frame) && k.data == m.data && frame in m.data && Enlarged(m.vm, k.vm)
    requires n == k.(data := k.data[frame := page])
    ensures Consistent(n) && n.roots == m.roots
  {
    MappedConsistent(m, k, p, frame);
    DataConsistent(k, n);
  }

  /** The copy-on-write fault leaves a consistent machine, whatever the frame. */
  lemma FaultConsistent(m: Machine, r: nat, v: Word, frame: nat)
    requires Inv(m) && Possible(m, Fault(r, v, frame)) && Resolve(m, r, v, frame).Some?
    ensures Consistent(Resolve(m, r, v, frame).value) && r in Resolve(m, r, v, frame).value.roots
  {
    var p := PageOf(r, Split(v));
    FaultForm(m, r, v, frame);
    MapEnlarges(m, r, v, frame);
    MapLeaves(m, r, v, frame);
    FaultedConsistent(m, MapFrom(m, r, v, frame).value, Resolve(m, r, v, frame).value, p, frame, Content(m, p).value);
  }

  /** A store to a mapped user page in the lower half succeeds, at the latest after one fault. */
  lemma StoreSucceeds(m: Machine, r: nat, v: Word, frame: nat, word: Word)
    requires Inv(m) && r in m.roots && Canonical(v) && Split(v).pml < 256 && frame < PAGE_LIMIT && frame in m.data
    requires Leaf(m.vm.mem, r, Split(v)).Some?
    ensures WriteFrom(m, r, v, word).Some? ||
            (Possible(m, Fault(r, v, frame)) && Step(m, Fault(r, v, frame)).Some? &&
             WriteFrom(Step(m, Fault(r, v, frame)).value, r, v, word).Some?)
  {
    WriteSucceeds(m, r, v, word);
    if WriteFrom(m, r, v, word).None? {
      FaultPossible(m, r, v, frame);
      FaultFinds(m, r, v, frame);
      FaultConsistent(m, r, v, frame);
      WriteSucceeds(Resolve(m, r, v, frame).value, r, v, word);
    }
  }

  // ---------------------------------------------------------------- where runs start

  /** The tables that vmmgr_init starts from: a zero page whose slot 510 refers to itself. */
  lemma BootInv(mem: Memory, root: nat, pages: seq<nat>, data: map<nat, Page>)
    requires root in mem && root < PAGE_LIMIT && root !in pages && data.Keys !! mem.Keys
    requires mem[root] == Cleared(mem[root], 512)[SELF := SetEntry(EMPTY, root, false)]
    requires forall n {:trigger pages[n]} :: 0 <= n < |pages| ==>
               pages[n] in mem && pages[n] < PAGE_LIMIT && forall x: Index :: mem[pages[n]][x] == EMPTY
    requires forall k, n :: 0 <= k < n < |pages| ==> pages[k] != pages[n]
    ensures Inv(Machine(Tables(mem, pages, 0, map[root := Pml(root)]), data, {root}))
    ensures View(Machine(Tables(mem, pages, 0, map[root := Pml(root)]), data, {root})) == imap[]
  {
    var vm := Tables(mem, pages, 0, map[root := Pml(root)]);
    var m := Machine(vm, data, {root});
    forall x: Index ensures SlotOk(mem, vm.own, root, x) {
    }
    assert NodeOk(mem, vm.own, root);
    forall n | 0 <= n < |pages| ensures Spare(vm, pages[n]) {
    }
    forall v ensures Content(m, v) == Lookup(imap[], v) && (Covers(m, v) ==> LeafOf(m, v).None?) {
      if Covers(m, v) {
        assert mem[root][v.i] == EMPTY;
      }
    }
    ViewIs(m, imap[]);
  }
}

/** Four-level page tables in physical memory: the processor's walk, the recursive window, and the two
    functions that map a page. */
module PageTables {
  import opened Options
  import opened PageBits

  /** The 512 entries of a page that is read as a table. */
  type Table = t: seq<Entry> | |t| == 512 witness BLANK

  const BLANK: seq<Entry> := seq(512, _ => EMPTY)

  /** Physical memory by page number. */
  type Memory = map<nat, Table>

  // ---------------------------------------------------------------- the processor's walk

  function Next(mem: Memory, page: nat, slot: Index): Option<nat> {
    if page in mem && mem[page][slot].present then Some(mem[page][slot].Page()) else None
  }

  function PdptPage(mem: Memory, root: nat, a: Address): Option<nat> {
    Next(mem, root, a.pml)
  }

  function PdPage(mem: Memory, root: nat, a: Address): Option<nat> {
    var p :- PdptPage(mem, root, a);
    Next(mem, p, a.pdpt)
  }

  function PtPage(mem: Memory, root: nat, a: Address): Option<nat> {
    var p :- PdPage(mem, root, a);
    Next(mem, p, a.pd)
  }

  /** The four-level walk of section 4.5 of the Intel SDM, volume 3A: a page and the offset in it, or a fault. */
  function Translate(mem: Memory, root: nat, a: Address): Option<(nat, nat)> {
    var p :- PtPage(mem, root, a);
    var frame :- Next(mem, p, a.pt);
    Some((frame, a.offset))
  }

  /** The leaf entry that translates `a`, when there is one. */
  function Leaf(mem: Memory, root: nat, a: Address): Option<Entry> {
    var p :- PtPage(mem, root, a);
    if p in mem && mem[p][a.pt].present then Some(mem[p][a.pt]) else None
  }

  // ---------------------------------------------------------------- the recursive window

  predicate SelfMapped(mem: Memory, root: nat) {
    root in mem && mem[root][SELF].present && mem[root][SELF].Page() == root
  }

  /** The window addresses of the four entries of `a`, as the processor splits them. */
  function PmlSlot(a: Address): Address { Address(SELF, SELF, SELF, SELF, 8 * a.pml) }
  function PdptSlot(a: Address): Address { Address(SELF, SELF, SELF, a.pml, 8 * a.pdpt) }
  function PdSlot(a: Address): Address { Address(SELF, SELF, a.pml, a.pdpt, 8 * a.pd) }
  function PtSlot(a: Address): Address { Address(SELF, a.pml, a.pdpt, a.pd, 8 * a.pt) }

  lemma WindowSlots(v: Word)
    ensures Split(PmlEntryAddress(v)) == PmlSlot(Split(v)) && Split(PdptEntryAddress(v)) == PdptSlot(Split(v))
    ensures Split(PdEntryAddress(v)) == PdSlot(Split(v)) && Split(PtEntryAddress(v)) == PtSlot(Split(v))
  {
    WindowIndices(v);
  }

  /** Slot `slot` of a table, as a physical location. */
  function SlotOf(table: Option<nat>, slot: Index): Option<(nat, nat)> {
    var p :- table;
    Some((p, 8 * slot))
  }

  lemma SlotsTranslate(mem: Memory, root: nat, a: Address)
    requires SelfMapped(mem, root)
    ensures Translate(mem, root, PmlSlot(a)) == Some((root, 8 * a.pml))
    ensures Translate(mem, root, PdptSlot(a)) == SlotOf(PdptPage(mem, root, a), a.pdpt)
    ensures Translate(mem, root, PdSlot(a)) == SlotOf(PdPage(mem, root, a), a.pd)
    ensures Translate(mem, root, PtSlot(a)) == SlotOf(PtPage(mem, root, a), a.pt)
  {
  }

  /** Walking the window addresses reaches the slots of the explicit walk, and faults exactly when the
      explicit walk has no table to look in. */
  lemma WindowReachesSlots(mem: Memory, root: nat, v: Word)
    requires SelfMapped(mem, root)
    ensures Translate(mem, root, Split(PmlEntryAddress(v))) == Some((root, 8 * Split(v).pml))
    ensures Translate(mem, root, Split(PdptEntryAddress(v))) == SlotOf(PdptPage(mem, root, Split(v)), Split(v).pdpt)
    ensures Translate(mem, root, Split(PdEntryAddress(v))) == SlotOf(PdPage(mem, root, Split(v)), Split(v).pd)
    ensures Translate(mem, root, Split(PtEntryAddress(v))) == SlotOf(PtPage(mem, root, Split(v)), Split(v).pt)
  {
    WindowSlots(v);
    SlotsTranslate(mem, root, Split(v));
  }

  // ---------------------------------------------------------------- table pages and who uses them

  /** Slot 511 holds the kernel half, which every address space shares. */
  datatype Space = Kernel | User(root: nat)

  /** The place of a table page in the tree of an address space. */
  datatype Node = Pml(root: nat)
                | Pdpt(space: Space, i: Index)
                | Pd(space: Space, i: Index, j: Index)
                | Pt(space: Space, i: Index, j: Index, k: Index)

  function SpaceOf(root: nat, pml: Index): Space {
    if pml == 511 then Kernel else User(root)
  }

  /** The place of the table that slot `x` of a table refers to. */
  function Child(n: Node, x: Index): Node
    requires !n.Pt?
  {
    match n
    case Pml(root) => Pdpt(SpaceOf(root, x), x)
    case Pdpt(space, i) => Pd(space, i, x)
    case Pd(space, i, j) => Pt(space, i, j, x)
  }

  /** Memory, the pages the bump allocator hands out in order with the number it has handed out, and the
      place of every table page in use. */
  datatype Tables = Tables(mem: Memory, pages: seq<nat>, next: nat, own: map<nat, Node>) {

    /** How many pages are still to be handed out. */
    function Left(): int {
      |pages| - next
    }
  }

  predicate ChildOk(e: Entry, own: map<nat, Node>, n: Node) {
    e == EMPTY || (e.present && e.high == 0 && e.frame in own && own[e.frame] == n)
  }

  /** A slot of a table refers to a table of the right place; a leaf entry only has a small frame. */
  ghost predicate SlotOk(mem: Memory, own: map<nat, Node>, p: nat, x: Index)
    requires p in mem && p in own
  {
    var n := own[p];
    if n.Pt? then mem[p][x].high == 0
    else (n.Pml? && x == SELF) || ChildOk(mem[p][x], own, Child(n, x))
  }

  ghost predicate NodeOk(mem: Memory, own: map<nat, Node>, p: nat) {
    && p in own && p in mem && p < PAGE_LIMIT
    && (own[p].Pml? ==> own[p].root == p && SelfMapped(mem, p))
    && (forall x: Index {:trigger SlotOk(mem, own, p, x)} :: SlotOk(mem, own, p, x))
  }

  /** The owned pages form trees: a page has one place, and no two slots share a table. */
  ghost predicate Owned(mem: Memory, own: map<nat, Node>) {
    forall p {:trigger NodeOk(mem, own, p)} :: p in own ==> NodeOk(mem, own, p)
  }

  /** A page that can still be taken for a table. */
  ghost predicate Spare(s: Tables, p: nat) {
    && p in s.mem && p < PAGE_LIMIT && p !in s.own
    && (forall x: Index :: s.mem[p][x].high == 0)
  }

  ghost predicate HeapOk(s: Tables) {
    && s.next <= |s.pages|
    && (forall n {:trigger s.pages[n]} :: s.next <= n < |s.pages| ==> Spare(s, s.pages[n]))
    && (forall m, n :: 0 <= m < n < |s.pages| ==> s.pages[m] != s.pages[n])
  }

  ghost predicate Sound(s: Tables) {
    Owned(s.mem, s.own) && HeapOk(s)
  }

  lemma StepStaysInTree(mem: Memory, own: map<nat, Node>, p: nat, x: Index)
    requires Owned(mem, own) && p in own && !own[p].Pt? && (own[p].Pml? ==> x != SELF)
    ensures p in mem
    ensures Next(mem, p, x).Some? ==>
              Next(mem, p, x).value in own && own[Next(mem, p, x).value] == Child(own[p], x)
    ensures Next(mem, p, x).None? ==> mem[p][x] == EMPTY
  {
    assert NodeOk(mem, own, p);
    assert SlotOk(mem, own, p, x);
  }

  /** The walk stays in the tree of its address space. */
  lemma WalkStaysInTree(s: Tables, root: nat, a: Address)
    requires Owned(s.mem, s.own) && IsRoot(s, root) && a.pml != SELF
    ensures root in s.mem
    ensures var p := PdptPage(s.mem, root, a);
            p.Some? ==> p.value in s.own && s.own[p.value] == Pdpt(SpaceOf(root, a.pml), a.pml)
    ensures var p := PdPage(s.mem, root, a);
            p.Some? ==> p.value in s.own && s.own[p.value] == Pd(SpaceOf(root, a.pml), a.pml, a.pdpt)
    ensures var p := PtPage(s.mem, root, a);
            p.Some? ==> p.value in s.own && p.value in s.mem && s.own[p.value] == Pt(SpaceOf(root, a.pml), a.pml, a.pdpt, a.pd)
  {
    StepStaysInTree(s.mem, s.own, root, a.pml);
    var p := PdptPage(s.mem, root, a);
    if p.Some? {
      StepStaysInTree(s.mem, s.own, p.value, a.pdpt);
      var q := PdPage(s.mem, root, a);
      if q.Some? {
        StepStaysInTree(s.mem, s.own, q.value, a.pd);
        if PtPage(s.mem, root, a).Some? {
          assert NodeOk(s.mem, s.own, PtPage(s.mem, root, a).value);
        }
      }
    }
  }

  ghost predicate IsRoot(s: Tables, root: nat) {
    root in s.own && s.own[root] == Pml(root)
  }

  // ---------------------------------------------------------------- mapping by explicit walk

  /** A page whose first `words` entries have been cleared by memset. */
  function Cleared(t: Table, words: nat): Table
    requires words <= 512
  {
    seq(512, x requires 0 <= x < 512 => if x < words then EMPTY else t[x])
  }

  /** Take the next page for a table at place `n`, clearing its first `words` entries. */
  function NewTable(s: Tables, n: Node, words: nat): Option<(Tables, nat)>
    requires words <= 512
  {
    if s.next >= |s.pages| || s.pages[s.next] !in s.mem then None
    else
      var p := s.pages[s.next];
      Some((Tables(s.mem[p := Cleared(s.mem[p], words)], s.pages, s.next + 1, s.own[p := n]), p))
  }

  function Store(mem: Memory, page: nat, slot: Index, e: Entry): Memory
    requires page in mem
  {
    mem[page := mem[page][slot := e]]
  }

  /** One level of the walk: the table behind a slot, created when the slot has none. */
  function Descend(s: Tables, page: nat, slot: Index, n: Node, words: nat, user: bool): Option<(Tables, nat)>
    requires words <= 512
  {
    if page !in s.mem then None
    else if s.mem[page][slot].present then Some((s, s.mem[page][slot].Page()))
    else
      var (t, p) :- NewTable(s, n, words);
      var e := SetEntry(t.mem[page][slot], p, user);
      Some((t.(mem := Store(t.mem, page, slot, e)), e.Page()))
  }

  /** The two levels above the page tables. */
  function PrepareDirectory(s: Tables, root: nat, a: Address, user: bool): Option<(Tables, nat)> {
    var sp := SpaceOf(root, a.pml);
    var (t, pdpt) :- Descend(s, root, a.pml, Pdpt(sp, a.pml), 512, user);
    Descend(t, pdpt, a.pdpt, Pd(sp, a.pml, a.pdpt), 512, user)
  }

  /** The three levels above the leaf.  Only the first word of a new page table is cleared, since that
      memset is given the size of a pointer. */
  function Prepare(s: Tables, root: nat, a: Address, user: bool): Option<(Tables, nat)> {
    var (t, pd) :- PrepareDirectory(s, root, a, user);
    Descend(t, pd, a.pd, Pt(SpaceOf(root, a.pml), a.pml, a.pdpt, a.pd), 1, user)
  }

  /** vmmgr_map_page: walk from the root, creating what is missing, and write the leaf. */
  function MapWalk(s: Tables, root: nat, a: Address, frame: nat, user: bool): Option<Tables> {
    var (t, pt) :- Prepare(s, root, a, user);
    if pt !in t.mem then None
    else Some(t.(mem := Store(t.mem, pt, a.pt, SetEntry(t.mem[pt][a.pt], frame, user))))
  }

  lemma WindowBase()
    ensures Split(0xFFFF_FF7F_BFDF_E000) == Address(SELF, SELF, SELF, SELF, 0)
  {
    WindowIndices(0);
    assert PmlEntryAddress(0) == 0xFFFF_FF7F_BFDF_E000;
  }

  /** Mapping the top-level table at its own address in the window, as vmmgr_init does, changes nothing exactly
      when the slot is writable and its frame is a small one. */
  lemma SelfMapNoOp(s: Tables, root: nat)
    requires SelfMapped(s.mem, root)
    ensures MapWalk(s, root, Split(0xFFFF_FF7F_BFDF_E000), root, false) == Some(s) <==>
            s.mem[root][SELF].writable && s.mem[root][SELF].high == 0
  {
    WindowBase();
    var a := Address(SELF, SELF, SELF, SELF, 0);
    var e := s.mem[root][SELF];
    var t := s.(mem := Store(s.mem, root, SELF, SetEntry(e, root, false)));
    assert Prepare(s, root, a, false) == Some((s, root));
    assert MapWalk(s, root, a, root, false) == Some(t);
    if SetEntry(e, root, false) == e {
      assert s.mem[root][SELF := e] == s.mem[root];
      assert t.mem == s.mem;
    } else {
      assert t.mem[root][SELF] != s.mem[root][SELF];
    }
  }

  // ---------------------------------------------------------------- mapping through the window

  function Load(mem: Memory, root: nat, a: Address): Option<Entry> {
    var (page, offset) :- Translate(mem, root, a);
    if page in mem && offset < 4096 then Some(mem[page][offset / 8]) else None
  }

  function StoreAt(mem: Memory, root: nat, a: Address, e: Entry): Option<Memory> {
    var (page, offset) :- Translate(mem, root, a);
    if page in mem && offset < 4096 then Some(Store(mem, page, offset / 8, e)) else None
  }

  /** Read an entry through the window and, when it is not present, fill it with a new table. */
  function FillAt(s: Tables, root: nat, a: Address, n: Node, words: nat, user: bool): Option<Tables>
    requires words <= 512
  {
    var e :- Load(s.mem, root, a);
    if e.present then Some(s)
    else
      var (t, p) :- NewTable(s, n, words);
      var e :- Load(t.mem, root, a);
      var mem :- StoreAt(t.mem, root, a, SetEntry(e, p, user));
      Some(t.(mem := mem))
  }

  /** Mapping `a` with its four entries read and written at the virtual addresses `e4` to `e1`. */
  function MapThrough(s: Tables, root: nat, a: Address, e4: Address, e3: Address, e2: Address, e1: Address,
                      frame: nat, user: bool): Option<Tables>
  {
    var sp := SpaceOf(root, a.pml);
    var s1 :- FillAt(s, root, e4, Pdpt(sp, a.pml), 512, user);
    var s2 :- FillAt(s1, root, e3, Pd(sp, a.pml, a.pdpt), 512, user);
    var s3 :- FillAt(s2, root, e2, Pt(sp, a.pml, a.pdpt, a.pd), 1, user);
    var e :- Load(s3.mem, root, e1);
    var mem :- StoreAt(s3.mem, root, e1, SetEntry(e, frame, user));
    Some(s3.(mem := mem))
  }

  /** vmmgr_map_page_after_paging: every entry is read and written at its address in the window. */
  function MapWindow(s: Tables, root: nat, v: Word, frame: nat, user: bool): Option<Tables> {
    MapThrough(s, root, Split(v), Split(PmlEntryAddress(v)), Split(PdptEntryAddress(v)), Split(PdEntryAddress(v)),
               Split(PtEntryAddress(v)), frame, user)
  }

  // ---------------------------------------------------------------- one level of the walk

  ghost predicate Extends(own: map<nat, Node>, own': map<nat, Node>) {
    forall p {:trigger own'[p]} {:trigger p in own'} :: p in own ==> p in own' && own'[p] == own[p]
  }

  /** A page that may become a table at place `n`. */
  ghost predicate Fresh(t: Table, n: Node) {
    if n.Pt? then forall x: Index :: t[x].high == 0 else forall x: Index :: t[x] == EMPTY
  }

  /** A slot stays right when the trees grow. */
  lemma SlotPersists(mem: Memory, own: map<nat, Node>, mem': Memory, own': map<nat, Node>, p: nat, x: Index)
    requires p in own && p in mem && p in mem' && Extends(own, own') && SlotOk(mem, own, p, x) && mem'[p][x] == mem[p][x]
    ensures SlotOk(mem', own', p, x)
  {
  }

  lemma NodePersists(mem: Memory, own: map<nat, Node>, mem': Memory, own': map<nat, Node>, p: nat)
    requires NodeOk(mem, own, p) && Extends(own, own') && p in mem' && mem'[p] == mem[p]
    ensures NodeOk(mem', own', p)
  {
    forall x: Index ensures SlotOk(mem', own', p, x) {
      assert SlotOk(mem, own, p, x);
      SlotPersists(mem, own, mem', own', p, x);
    }
  }

  /** Hanging a fresh page in an empty slot keeps the trees. */
  lemma AttachOwned(mem: Memory, own: map<nat, Node>, page: nat, slot: Index, p: nat, t: Table, user: bool)
    requires Owned(mem, own) && page in own && page in mem && !own[page].Pt? && (own[page].Pml? ==> slot != SELF)
    requires p in mem && p < PAGE_LIMIT && p !in own && Fresh(t, Child(own[page], slot))
    ensures Owned(Store(mem[p := t], page, slot, SetEntry(EMPTY, p, user)), own[p := Child(own[page], slot)])
  {
    var n := Child(own[page], slot);
    var mem' := Store(mem[p := t], page, slot, SetEntry(EMPTY, p, user));
    var own' := own[p := n];
    forall q | q in own' ensures NodeOk(mem', own', q) {
      if q == p {
        assert own'[p] == n && !n.Pml?;
      } else if q == page {
        assert NodeOk(mem, own, q);
        forall x: Index ensures SlotOk(mem', own', q, x) {
          assert SlotOk(mem, own, q, x);
          if x != slot {
            SlotPersists(mem, own, mem', own', q, x);
          }
        }
      } else {
        assert NodeOk(mem, own, q);
        NodePersists(mem, own, mem', own', q);
      }
    }
  }

  lemma HeapTail(s: Tables, page: nat, slot: Index, n: Node, t: Table, e: Entry)
    requires HeapOk(s) && s.Left() > 0 && page in s.own && page in s.mem
    ensures var p := s.pages[s.next];
            HeapOk(Tables(Store(s.mem[p := t], page, slot, e), s.pages, s.next + 1, s.own[p := n]))
  {
    var p := s.pages[s.next];
    var s' := Tables(Store(s.mem[p := t], page, slot, e), s.pages, s.next + 1, s.own[p := n]);
    forall m | s'.next <= m < |s'.pages| ensures Spare(s', s'.pages[m]) {
      assert Spare(s, s.pages[m]);
    }
  }

  /** Tables were added: `taken` pages moved from the heap into the trees, present entries and all other
      pages stayed. */
  ghost predicate Grew(s: Tables, t: Tables, taken: nat) {
    && t.pages == s.pages && t.next == s.next + taken <= |s.pages|
    && Extends(s.own, t.own)
    && t.mem.Keys == s.mem.Keys
    && (forall q {:trigger Untouched(s, t, q)} :: Untouched(s, t, q))
    && (forall q, x: Index {:trigger Kept(s, t, q, x)} :: Kept(s, t, q, x))
  }

  /** A page without a place keeps its contents. */
  ghost predicate Untouched(s: Tables, t: Tables, q: nat) {
    q in s.mem && q !in t.own ==> q in t.mem && t.mem[q] == s.mem[q]
  }

  ghost predicate Kept(s: Tables, t: Tables, q: nat, x: Index) {
    q in s.own && q in s.mem && q in t.mem && s.mem[q][x].present ==> t.mem[q][x] == s.mem[q][x]
  }

  lemma GrewTransitive(s: Tables, t: Tables, u: Tables, m: nat, n: nat)
    requires Grew(s, t, m) && Grew(t, u, n)
    ensures Grew(s, u, m + n)
  {
    forall q ensures Untouched(s, u, q) {
      assert Untouched(s, t, q) && Untouched(t, u, q);
    }
    forall q, x: Index ensures Kept(s, u, q, x) {
      assert Kept(s, t, q, x) && Kept(t, u, q, x);
    }
  }

  /** Descending keeps the trees sound and changes at most the empty slot and the page taken for it. */
  lemma DescendSound(s: Tables, page: nat, slot: Index, words: nat, user: bool)
    requires Sound(s) && page in s.own && !s.own[page].Pt? && words <= 512
    requires s.own[page].Pml? ==> slot != SELF
    requires words == 512 || s.own[page].Pd?
    ensures page in s.mem
    ensures var n := Child(s.own[page], slot);
            match Descend(s, page, slot, n, words, user)
            case None => Next(s.mem, page, slot).None? && s.Left() == 0
            case Some((t, p)) =>
              && Sound(t) && p in t.own && t.own[p] == n && Next(t.mem, page, slot) == Some(p)
              && (Next(s.mem, page, slot).Some? ==> t == s)
              && (Next(s.mem, page, slot).None? ==>
                    && s.Left() > 0 && p == s.pages[s.next]
                    && t == Tables(Store(s.mem[p := Cleared(s.mem[p], words)], page, slot, SetEntry(EMPTY, p, user)),
                                   s.pages, s.next + 1, s.own[p := n]))
  {
    var n := Child(s.own[page], slot);
    StepStaysInTree(s.mem, s.own, page, slot);
    if Next(s.mem, page, slot).None? && s.Left() > 0 {
      var p := s.pages[s.next];
      assert Spare(s, p);
      var t := Cleared(s.mem[p], words);
      AttachOwned(s.mem, s.own, page, slot, p, t, user);
      HeapTail(s, page, slot, n, t, SetEntry(EMPTY, p, user));
    }
  }

  lemma DescendGrew(s: Tables, page: nat, slot: Index, words: nat, user: bool)
    requires Sound(s) && page in s.own && !s.own[page].Pt? && words <= 512
    requires s.own[page].Pml? ==> slot != SELF
    requires words == 512 || s.own[page].Pd?
    ensures var n := Child(s.own[page], slot);
            match Descend(s, page, slot, n, words, user)
            case None => Next(s.mem, page, slot).None? && s.Left() == 0
            case Some((t, p)) =>
              && Sound(t) && p in t.own && p in t.mem && t.own[p] == n && Next(t.mem, page, slot) == Some(p)
              && (if Next(s.mem, page, slot).Some? then t == s && Grew(s, t, 0)
                  else Grew(s, t, 1) && p == s.pages[s.next] && p in s.mem && t.mem[p] == Cleared(s.mem[p], words) &&
                       forall x: Index :: x < words ==> Next(t.mem, p, x).None?)
  {
    DescendSound(s, page, slot, words, user);
    StepStaysInTree(s.mem, s.own, page, slot);
    var n := Child(s.own[page], slot);
    var d := Descend(s, page, slot, n, words, user);
    if d.Some? {
      assert NodeOk(d.value.0.mem, d.value.0.own, d.value.1);
      if Next(s.mem, page, slot).None? {
        assert Spare(s, s.pages[s.next]);
      }
    }
  }

  // ---------------------------------------------------------------- the levels above the leaf

  /** How many of the three tables above the leaf are missing. */
  function Missing(mem: Memory, root: nat, a: Address): nat {
    if PdptPage(mem, root, a).None? then 3
    else if PdPage(mem, root, a).None? then 2
    else if PtPage(mem, root, a).None? then 1
    else 0
  }

  lemma NextPersists(s: Tables, t: Tables, n: nat, q: nat, x: Index)
    requires Grew(s, t, n) && q in s.own && q in s.mem
    ensures Next(s.mem, q, x).Some? ==> Next(t.mem, q, x) == Next(s.mem, q, x)
  {
    assert Kept(s, t, q, x);
  }

  /** Walks that succeeded keep succeeding, table for table. */
  lemma WalkPersists(s: Tables, t: Tables, n: nat, root: nat, a: Address)
    requires Grew(s, t, n) && Owned(s.mem, s.own) && IsRoot(s, root) && a.pml != SELF
    ensures PdptPage(s.mem, root, a).Some? ==> PdptPage(t.mem, root, a) == PdptPage(s.mem, root, a)
    ensures PdPage(s.mem, root, a).Some? ==> PdPage(t.mem, root, a) == PdPage(s.mem, root, a)
    ensures PtPage(s.mem, root, a).Some? ==> PtPage(t.mem, root, a) == PtPage(s.mem, root, a)
  {
    WalkStaysInTree(s, root, a);
    NextPersists(s, t, n, root, a.pml);
    var p := PdptPage(s.mem, root, a);
    if p.Some? {
      assert NodeOk(s.mem, s.own, p.value);
      NextPersists(s, t, n, p.value, a.pdpt);
      var q := PdPage(s.mem, root, a);
      if q.Some? {
        assert NodeOk(s.mem, s.own, q.value);
        NextPersists(s, t, n, q.value, a.pd);
      }
    }
  }

  /** What one level of the walk achieves: slot `x` of `q` refers to `p`, a new page when it was empty. */
  ghost predicate Descended(s: Tables, t: Tables, q: nat, x: Index, p: nat, words: nat)
    requires words <= 512
  {
    && Sound(t) && p in t.own && p in t.mem && Next(t.mem, q, x) == Some(p)
    && (if Next(s.mem, q, x).Some? then t == s && Grew(s, t, 0)
        else Grew(s, t, 1) && p == s.pages[s.next] && p in s.mem && t.mem[p] == Cleared(s.mem[p], words) &&
             forall x: Index :: x < words ==> Next(t.mem, p, x).None?)
  }

  lemma DescendStep(s: Tables, page: nat, slot: Index, words: nat, user: bool)
    requires Sound(s) && page in s.own && !s.own[page].Pt? && words <= 512
    requires s.own[page].Pml? ==> slot != SELF
    requires words == 512 || s.own[page].Pd?
    ensures var n := Child(s.own[page], slot);
            match Descend(s, page, slot, n, words, user)
            case None => Next(s.mem, page, slot).None? && s.Left() == 0
            case Some((t, p)) => Descended(s, t, page, slot, p, words) && t.own[p] == n
  {
    DescendGrew(s, page, slot, words, user);
  }

  lemma ComposeDirectory(s: Tables, s1: Tables, pdpt: nat, s2: Tables, pd: nat, root: nat, a: Address)
    requires Sound(s) && IsRoot(s, root) && a.pml != SELF
    requires Descended(s, s1, root, a.pml, pdpt, 512) && Descended(s1, s2, pdpt, a.pdpt, pd, 512)
    ensures var m := Missing(s.mem, root, a);
            var d := if m == 0 then 0 else m - 1;
            && Grew(s, s2, d) && (d == 0 ==> s2 == s)
            && PdPage(s2.mem, root, a) == Some(pd)
            && (Next(s2.mem, pd, a.pd).Some? <==> m == 0)
  {
    assert IsRoot(s1, root);
    var n1 := if PdptPage(s.mem, root, a).Some? then 0 else 1;
    var n2 := if PdPage(s1.mem, root, a).Some? then 0 else 1;
    GrewTransitive(s, s1, s2, n1, n2);
    WalkPersists(s1, s2, n2, root, a);
  }

  lemma PrepareDirectorySound(s: Tables, root: nat, a: Address, user: bool)
    requires Sound(s) && IsRoot(s, root) && a.pml != SELF
    ensures var m := Missing(s.mem, root, a);
            var d := if m == 0 then 0 else m - 1;
            match PrepareDirectory(s, root, a, user)
            case None => s.Left() < d
            case Some((t, pd)) =>
              && Sound(t) && Grew(s, t, d) && (d == 0 ==> t == s)
              && pd in t.own && t.own[pd] == Pd(SpaceOf(root, a.pml), a.pml, a.pdpt)
              && PdPage(t.mem, root, a) == Some(pd)
              && (Next(t.mem, pd, a.pd).Some? <==> m == 0)
  {
    var sp := SpaceOf(root, a.pml);
    DescendStep(s, root, a.pml, 512, user);
    var d1 := Descend(s, root, a.pml, Pdpt(sp, a.pml), 512, user);
    if d1.Some? {
      var (s1, pdpt) := d1.value;
      DescendStep(s1, pdpt, a.pdpt, 512, user);
      var d2 := Descend(s1, pdpt, a.pdpt, Pd(sp, a.pml, a.pdpt), 512, user);
      if d2.Some? {
        ComposeDirectory(s, s1, pdpt, d2.value.0, d2.value.1, root, a);
      }
    }
  }

  /** The pages still to be handed out have not changed. */
  lemma HeapPersists(s: Tables, t: Tables, taken: nat)
    requires Grew(s, t, taken) && HeapOk(t) && t.Left() > 0
    ensures var p := t.pages[t.next];
            p in s.mem && p in t.mem && t.mem[p] == s.mem[p]
  {
    assert Spare(t, t.pages[t.next]);
    assert Untouched(s, t, t.pages[t.next]);
  }

  lemma ComposeTable(s: Tables, t: Tables, pd: nat, u: Tables, pt: nat, root: nat, a: Address)
    requires var m := Missing(s.mem, root, a);
             Sound(t) && Grew(s, t, if m == 0 then 0 else m - 1) && (m == 0 ==> t == s) &&
             (Next(t.mem, pd, a.pd).Some? <==> m == 0)
    requires IsRoot(s, root) && a.pml != SELF && PdPage(t.mem, root, a) == Some(pd)
    requires Descended(t, u, pd, a.pd, pt, 1)
    ensures var m := Missing(s.mem, root, a);
            && Grew(s, u, m) && PtPage(u.mem, root, a) == Some(pt)
            && (if m == 0 then u == s else pt == s.pages[s.next + m - 1] && pt in s.mem && u.mem[pt] == Cleared(s.mem[pt], 1))
  {
    var m := Missing(s.mem, root, a);
    if m > 0 {
      assert IsRoot(t, root);
      GrewTransitive(s, t, u, m - 1, 1);
      WalkPersists(t, u, 1, root, a);
      HeapPersists(s, t, m - 1);
    }
  }

  /** The levels above the leaf are prepared exactly when the allocator has the missing tables. */
  lemma PrepareSound(s: Tables, root: nat, a: Address, user: bool)
    requires Sound(s) && IsRoot(s, root) && a.pml != SELF
    ensures var m := Missing(s.mem, root, a);
            match Prepare(s, root, a, user)
            case None => s.Left() < m
            case Some((t, pt)) =>
              && Sound(t) && Grew(s, t, m)
              && pt in t.own && pt in t.mem && t.own[pt] == Pt(SpaceOf(root, a.pml), a.pml, a.pdpt, a.pd)
              && PtPage(t.mem, root, a) == Some(pt)
              && (if m == 0 then t == s
                  else pt == s.pages[s.next + m - 1] && pt in s.mem && t.mem[pt] == Cleared(s.mem[pt], 1))
  {
    PrepareDirectorySound(s, root, a, user);
    var d := PrepareDirectory(s, root, a, user);
    if d.Some? {
      var (t, pd) := d.value;
      DescendStep(t, pd, a.pd, 1, user);
      var e := Descend(t, pd, a.pd, Pt(SpaceOf(root, a.pml), a.pml, a.pdpt, a.pd), 1, user);
      if e.Some? {
        ComposeTable(s, t, pd, e.value.0, e.value.1, root, a);
      }
    }
  }

  // ---------------------------------------------------------------- what a mapping changes

  /** The page a virtual page stands for: address spaces agree on it in the kernel half only. */
  datatype VirtualPage = VirtualPage(space: Space, i: Index, j: Index, k: Index, l: Index)

  function PageOf(root: nat, a: Address): VirtualPage {
    VirtualPage(SpaceOf(root, a.pml), a.pml, a.pdpt, a.pd, a.pt)
  }

  function Present(e: Entry): Option<Entry> {
    if e.present then Some(e) else None
  }

  /** Memory after a page was hung in an empty slot. */
  ghost predicate Attached(mem: Memory, mem': Memory, own: map<nat, Node>, page: nat, slot: Index, p: nat) {
    && page in own && page in mem && page in mem' && !mem[page][slot].present && p !in own && p in mem'
    && mem'[page][slot].present && mem'[page][slot].Page() == p
    && (forall q, x: Index {:trigger SameSlot(mem, mem', q, x)} ::
          q in own && !(q == page && x == slot) ==> SameSlot(mem, mem', q, x))
  }

  ghost predicate SameSlot(mem: Memory, mem': Memory, q: nat, x: Index) {
    q in mem && q in mem' && mem'[q][x] == mem[q][x]
  }

  lemma AttachStep(mem: Memory, mem': Memory, own: map<nat, Node>, page: nat, slot: Index, p: nat, q: nat, x: Index)
    requires Attached(mem, mem', own, page, slot, p) && q in own
    ensures Next(mem', q, x) == if q == page && x == slot then Some(p) else Next(mem, q, x)
    ensures Next(mem, q, x).Some? ==> !(q == page && x == slot)
    ensures q in mem && q in mem'
    ensures !(q == page && x == slot) ==> mem'[q][x] == mem[q][x]
  {
    assert (q == page && x == slot) || SameSlot(mem, mem', q, x);
  }

  /** A table hung in an empty slot changes no translation, except that a page table may come with present
      entries. */
  lemma AttachLeaf(s: Tables, mem': Memory, page: nat, slot: Index, p: nat, root: nat, a: Address)
    requires Owned(s.mem, s.own) && IsRoot(s, root) && a.pml != SELF
    requires Attached(s.mem, mem', s.own, page, slot, p) && !s.own[page].Pt?
    requires s.own[page].Pd? || forall x: Index :: Next(mem', p, x).None?
    ensures Leaf(mem', root, a) ==
            if PdPage(s.mem, root, a) == Some(page) && a.pd == slot then Present(mem'[p][a.pt]) else Leaf(s.mem, root, a)
  {
    WalkStaysInTree(s, root, a);
    AttachStep(s.mem, mem', s.own, page, slot, p, root, a.pml);
    var p1 := PdptPage(s.mem, root, a);
    if p1.Some? {
      AttachStep(s.mem, mem', s.own, page, slot, p, p1.value, a.pdpt);
      var p2 := PdPage(s.mem, root, a);
      if p2.Some? {
        AttachStep(s.mem, mem', s.own, page, slot, p, p2.value, a.pd);
        var p3 := PtPage(s.mem, root, a);
        if p3.Some? {
          AttachStep(s.mem, mem', s.own, page, slot, p, p3.value, a.pt);
        }
      }
    }
  }

  lemma DescendLeaf(s: Tables, page: nat, slot: Index, words: nat, user: bool, root: nat, a: Address)
    requires Sound(s) && page in s.own && !s.own[page].Pt? && words <= 512
    requires s.own[page].Pml? ==> slot != SELF
    requires words == 512 || s.own[page].Pd?
    requires IsRoot(s, root) && a.pml != SELF
    requires Descend(s, page, slot, Child(s.own[page], slot), words, user).Some?
    ensures var t := Descend(s, page, slot, Child(s.own[page], slot), words, user).value.0;
            if Next(s.mem, page, slot).None? && PdPage(s.mem, root, a) == Some(page) && a.pd == slot
            then s.Left() > 0 && s.pages[s.next] in s.mem && Leaf(t.mem, root, a) == Present(Cleared(s.mem[s.pages[s.next]], words)[a.pt])
            else Leaf(t.mem, root, a) == Leaf(s.mem, root, a)
  {
    DescendSound(s, page, slot, words, user);
    var t := Descend(s, page, slot, Child(s.own[page], slot), words, user).value.0;
    if Next(s.mem, page, slot).None? {
      var p := s.pages[s.next];
      assert Spare(s, p);
      forall q, x: Index | q in s.own && !(q == page && x == slot) ensures SameSlot(s.mem, t.mem, q, x) {
        assert NodeOk(s.mem, s.own, q);
      }
      AttachLeaf(s, t.mem, page, slot, p, root, a);
    }
  }

  /** What the walk finds at `b` after preparing the levels above `a`: the old leaf, or what the page taken
      for the page table of `a` held in a word that was not cleared. */
  function PreparedLeaf(s: Tables, root: nat, a: Address, root': nat, b: Address): Option<Entry> {
    var m := Missing(s.mem, root, a);
    if 0 < m <= s.Left() && s.pages[s.next + m - 1] in s.mem && PageOf(root', b) == PageOf(root, a.(pt := b.pt))
    then (if b.pt == 0 then None else Present(s.mem[s.pages[s.next + m - 1]][b.pt]))
    else Leaf(s.mem, root', b)
  }

  lemma PrepareDirectoryLeaf(s: Tables, root: nat, a: Address, user: bool, root': nat, b: Address)
    requires Sound(s) && IsRoot(s, root) && a.pml != SELF && IsRoot(s, root') && b.pml != SELF
    requires PrepareDirectory(s, root, a, user).Some?
    ensures Leaf(PrepareDirectory(s, root, a, user).value.0.mem, root', b) == Leaf(s.mem, root', b)
  {
    var sp := SpaceOf(root, a.pml);
    DescendGrew(s, root, a.pml, 512, user);
    DescendLeaf(s, root, a.pml, 512, user, root', b);
    WalkStaysInTree(s, root', b);
    var (s1, pdpt) := Descend(s, root, a.pml, Pdpt(sp, a.pml), 512, user).value;
    assert IsRoot(s1, root) && IsRoot(s1, root');
    WalkStaysInTree(s1, root', b);
    DescendLeaf(s1, pdpt, a.pdpt, 512, user, root', b);
  }

  lemma ComposeLeaf(s: Tables, t: Tables, pd: nat, mem: Memory, root: nat, a: Address, root': nat, b: Address)
    requires var m := Missing(s.mem, root, a);
             Sound(t) && Grew(s, t, if m == 0 then 0 else m - 1) && (Next(t.mem, pd, a.pd).Some? <==> m == 0)
    requires IsRoot(s, root) && a.pml != SELF && IsRoot(s, root') && b.pml != SELF
    requires root' == root || PageOf(root', b) != PageOf(root, a.(pt := b.pt))
    requires PdPage(t.mem, root, a) == Some(pd) && pd in t.own && t.own[pd] == Pd(SpaceOf(root, a.pml), a.pml, a.pdpt)
    requires Leaf(t.mem, root', b) == Leaf(s.mem, root', b)
    requires if Next(t.mem, pd, a.pd).None? && PdPage(t.mem, root', b) == Some(pd) && b.pd == a.pd
             then t.Left() > 0 && t.pages[t.next] in t.mem && Leaf(mem, root', b) == Present(Cleared(t.mem[t.pages[t.next]], 1)[b.pt])
             else Leaf(mem, root', b) == Leaf(t.mem, root', b)
    requires Missing(s.mem, root, a) <= s.Left()
    ensures Leaf(mem, root', b) == PreparedLeaf(s, root, a, root', b)
  {
    assert IsRoot(t, root');
    WalkStaysInTree(t, root', b);
    var m := Missing(s.mem, root, a);
    if m > 0 {
      HeapPersists(s, t, m - 1);
    }
  }

  lemma PrepareLeaf(s: Tables, root: nat, a: Address, user: bool, root': nat, b: Address)
    requires Sound(s) && IsRoot(s, root) && a.pml != SELF && IsRoot(s, root') && b.pml != SELF
    requires root' == root || PageOf(root', b) != PageOf(root, a.(pt := b.pt))
    requires Prepare(s, root, a, user).Some?
    ensures Leaf(Prepare(s, root, a, user).value.0.mem, root', b) == PreparedLeaf(s, root, a, root', b)
  {
    PrepareDirectorySound(s, root, a, user);
    PrepareDirectoryLeaf(s, root, a, user, root', b);
    var (t, pd) := PrepareDirectory(s, root, a, user).value;
    assert IsRoot(t, root');
    DescendLeaf(t, pd, a.pd, 1, user, root', b);
    DescendStep(t, pd, a.pd, 1, user);
    ComposeLeaf(s, t, pd, Prepare(s, root, a, user).value.0.mem, root, a, root', b);
  }

  /** Writing a leaf keeps the trees and the spare pages. */
  lemma StoreLeafSound(s: Tables, pt: nat, x: Index, e: Entry)
    requires Sound(s) && pt in s.own && pt in s.mem && s.own[pt].Pt? && e.high == 0
    ensures Sound(s.(mem := Store(s.mem, pt, x, e)))
  {
    var t := s.(mem := Store(s.mem, pt, x, e));
    forall q | q in t.own ensures NodeOk(t.mem, t.own, q) {
      assert NodeOk(s.mem, s.own, q);
      if q == pt {
        forall y: Index ensures SlotOk(t.mem, t.own, q, y) {
          assert SlotOk(s.mem, s.own, q, y);
        }
      } else {
        NodePersists(s.mem, s.own, t.mem, t.own, q);
      }
    }
    forall n | t.next <= n < |t.pages| ensures Spare(t, t.pages[n]) {
      assert Spare(s, s.pages[n]);
    }
  }

  /** Writing a leaf changes the translation of the pages that use it and of no other. */
  lemma StoreLeafLeaf(s: Tables, pt: nat, x: Index, e: Entry, root: nat, a: Address)
    requires Owned(s.mem, s.own) && IsRoot(s, root) && a.pml != SELF
    requires pt in s.own && pt in s.mem && s.own[pt].Pt?
    ensures Leaf(Store(s.mem, pt, x, e), root, a) ==
            if PtPage(s.mem, root, a) == Some(pt) && a.pt == x then Present(e) else Leaf(s.mem, root, a)
    ensures PtPage(Store(s.mem, pt, x, e), root, a) == PtPage(s.mem, root, a)
  {
    WalkStaysInTree(s, root, a);
  }

  /** Both map functions write the requested translation, and fail only when a table they need cannot be
      allocated. */
  lemma MapTranslates(s: Tables, root: nat, a: Address, frame: nat, user: bool)
    requires Sound(s) && IsRoot(s, root) && a.pml != SELF && frame < PAGE_LIMIT
    ensures MapWalk(s, root, a, frame, user).Some? <==> Missing(s.mem, root, a) <= s.Left()
    ensures match MapWalk(s, root, a, frame, user)
            case None => true
            case Some(t) =>
              && Sound(t) && Extends(s.own, t.own) && t.mem.Keys == s.mem.Keys
              && t.pages == s.pages && t.next == s.next + Missing(s.mem, root, a)
              && Translate(t.mem, root, a) == Some((frame, a.offset))
              && Leaf(t.mem, root, a).Some? && Leaf(t.mem, root, a).value.writable
              && (user ==> Leaf(t.mem, root, a).value.user)
              && (forall q {:trigger Untouched(s, t, q)} :: Untouched(s, t, q))
  {
    PrepareSound(s, root, a, user);
    var d := Prepare(s, root, a, user);
    if d.Some? {
      var (t, pt) := d.value;
      assert IsRoot(t, root);
      assert NodeOk(t.mem, t.own, pt);
      assert SlotOk(t.mem, t.own, pt, a.pt);
      var e := SetEntry(t.mem[pt][a.pt], frame, user);
      StoreLeafSound(t, pt, a.pt, e);
      StoreLeafLeaf(t, pt, a.pt, e, root, a);
      forall q ensures Untouched(s, t.(mem := Store(t.mem, pt, a.pt, e)), q) {
        assert Untouched(s, t, q);
      }
    }
  }

  /** Every other page keeps its translation, but for what an uncleared page table brings with it. */
  lemma MapOthers(s: Tables, root: nat, a: Address, frame: nat, user: bool, root': nat, b: Address)
    requires Sound(s) && IsRoot(s, root) && a.pml != SELF && IsRoot(s, root') && b.pml != SELF
    requires PageOf(root', b) != PageOf(root, a)
    requires root' == root || PageOf(root', b) != PageOf(root, a.(pt := b.pt))
    requires MapWalk(s, root, a, frame, user).Some?
    ensures Leaf(MapWalk(s, root, a, frame, user).value.mem, root', b) == PreparedLeaf(s, root, a, root', b)
  {
    PrepareSound(s, root, a, user);
    PrepareLeaf(s, root, a, user, root', b);
    var (t, pt) := Prepare(s, root, a, user).value;
    assert IsRoot(t, root');
    WalkStaysInTree(t, root', b);
    StoreLeafLeaf(t, pt, a.pt, SetEntry(t.mem[pt][a.pt], frame, user), root', b);
  }

  /** The page table that the walk of `b` ends in decides what a mapping does to `b`: nothing, unless it is the page
      table of the mapped page; then `b` reads as the same entry does in the address space that was mapped into. */
  lemma MapEverywhere(s: Tables, root: nat, a: Address, frame: nat, user: bool, root': nat, b: Address)
    requires Sound(s) && IsRoot(s, root) && a.pml != SELF && IsRoot(s, root') && b.pml != SELF
    requires MapWalk(s, root, a, frame, user).Some?
    ensures var t := MapWalk(s, root, a, frame, user).value;
            if PtPage(t.mem, root', b) == PtPage(t.mem, root, a) then Leaf(t.mem, root', b) == Leaf(t.mem, root, a.(pt := b.pt))
            else Leaf(t.mem, root', b) == Leaf(s.mem, root', b)
  {
    PrepareSound(s, root, a, user);
    PrepareElsewhere(s, root, a, user, root', b);
    var (e, pt) := Prepare(s, root, a, user).value;
    assert IsRoot(e, root) && IsRoot(e, root');
    StoreEverywhere(e, pt, SetEntry(e.mem[pt][a.pt], frame, user), root, a, root', b);
  }

  /** Writing the leaf of `a` changes the leaf of `b` only when both walks end in the same page table. */
  lemma StoreEverywhere(s: Tables, pt: nat, e: Entry, root: nat, a: Address, root': nat, b: Address)
    requires Owned(s.mem, s.own) && IsRoot(s, root) && a.pml != SELF && IsRoot(s, root') && b.pml != SELF
    requires pt in s.own && pt in s.mem && s.own[pt].Pt? && PtPage(s.mem, root, a) == Some(pt)
    ensures var mem := Store(s.mem, pt, a.pt, e);
            && PtPage(mem, root', b) == PtPage(s.mem, root', b) && PtPage(mem, root, a) == Some(pt)
            && (if PtPage(s.mem, root', b) == Some(pt) then Leaf(mem, root', b) == Leaf(mem, root, a.(pt := b.pt))
                else Leaf(mem, root', b) == Leaf(s.mem, root', b))
  {
    StoreLeafLeaf(s, pt, a.pt, e, root', b);
    StoreLeafLeaf(s, pt, a.pt, e, root, a);
    if PtPage(s.mem, root', b) == Some(pt) {
      SameTableLeaf(Store(s.mem, pt, a.pt, e), root', b, root, a);
    }
  }

  lemma SameTableLeaf(mem: Memory, root': nat, b: Address, root: nat, a: Address)
    requires PtPage(mem, root', b) == PtPage(mem, root, a)
    ensures Leaf(mem, root', b) == Leaf(mem, root, a.(pt := b.pt))
  {
  }

  /** Preparing the levels above `a` changes the leaf of `b` only when its walk now ends in the page table of `a`. */
  lemma PrepareElsewhere(s: Tables, root: nat, a: Address, user: bool, root': nat, b: Address)
    requires Sound(s) && IsRoot(s, root) && a.pml != SELF && IsRoot(s, root') && b.pml != SELF
    requires Prepare(s, root, a, user).Some?
    ensures var (e, pt) := Prepare(s, root, a, user).value;
            PtPage(e.mem, root', b) != Some(pt) ==> Leaf(e.mem, root', b) == Leaf(s.mem, root', b)
  {
    PrepareDirectorySound(s, root, a, user);
    PrepareDirectoryLeaf(s, root, a, user, root', b);
    var (d, pd) := PrepareDirectory(s, root, a, user).value;
    assert IsRoot(d, root');
    DescendLeaf(d, pd, a.pd, 1, user, root', b);
    DescendStep(d, pd, a.pd, 1, user);
    var (e, pt) := Prepare(s, root, a, user).value;
    if Next(d.mem, pd, a.pd).None? && PdPage(d.mem, root', b) == Some(pd) && b.pd == a.pd {
      WalkPersists(d, e, 1, root', b);
    }
  }

  /** The page that a mapping at `a` would take for a new page table holds a present entry that survives:
      only the first word is cleared, and the word of `a` is overwritten. */
  predicate StaleAt(s: Tables, root: nat, a: Address, x: Index) {
    var m := Missing(s.mem, root, a);
    0 < m <= s.Left() && s.pages[s.next + m - 1] in s.mem && x != 0 && x != a.pt && s.mem[s.pages[s.next + m - 1]][x].present
  }

  lemma FrameOfSpace(s: Tables, root: nat, a: Address, frame: nat, user: bool, b: Address)
    requires Sound(s) && IsRoot(s, root) && a.pml != SELF && b.pml != SELF && PageOf(root, b) != PageOf(root, a)
    requires MapWalk(s, root, a, frame, user).Some?
    ensures Leaf(MapWalk(s, root, a, frame, user).value.mem, root, b) == Leaf(s.mem, root, b) || StaleAt(s, root, a, b.pt)
  {
    PrepareSound(s, root, a, user);
    MapOthers(s, root, a, frame, user, root, b);
  }

  /** A page of another address space whose walk now ends in the page table of `a` had the leaf that the mapped address
      space had there. */
  lemma SharedBefore(s: Tables, root: nat, a: Address, frame: nat, user: bool, root': nat, b: Address)
    requires Sound(s) && IsRoot(s, root) && a.pml != SELF && IsRoot(s, root') && b.pml != SELF
    requires MapWalk(s, root, a, frame, user).Some?
    requires var t := MapWalk(s, root, a, frame, user).value; PtPage(t.mem, root', b) == PtPage(t.mem, root, a)
    ensures Leaf(s.mem, root', b) == Leaf(s.mem, root, a.(pt := b.pt))
    ensures PageOf(root', b) == PageOf(root, a.(pt := b.pt))
  {
    PrepareSound(s, root, a, user);
    var (e, pt) := Prepare(s, root, a, user).value;
    var entry := SetEntry(e.mem[pt][a.pt], frame, user);
    assert IsRoot(e, root) && IsRoot(e, root');
    StoreLeafLeaf(e, pt, a.pt, entry, root', b);
    StoreLeafLeaf(e, pt, a.pt, entry, root, a);
    WalkStaysInTree(e, root', b);
    var m := Missing(s.mem, root, a);
    if m == 0 {
      SameTableLeaf(s.mem, root', b, root, a);
    } else {
      WalkStaysInTree(s, root', b);
      WalkPersists(s, e, m, root', b);
      assert Spare(s, s.pages[s.next + m - 1]);
    }
  }

  lemma FrameOfOthers(s: Tables, root: nat, a: Address, frame: nat, user: bool, root': nat, b: Address)
    requires Sound(s) && IsRoot(s, root) && a.pml != SELF && IsRoot(s, root') && b.pml != SELF && PageOf(root', b) != PageOf(root, a)
    requires MapWalk(s, root, a, frame, user).Some?
    ensures Leaf(MapWalk(s, root, a, frame, user).value.mem, root', b) == Leaf(s.mem, root', b) || StaleAt(s, root, a, b.pt)
  {
    MapEverywhere(s, root, a, frame, user, root', b);
    var t := MapWalk(s, root, a, frame, user).value;
    if PtPage(t.mem, root', b) == PtPage(t.mem, root, a) {
      SharedBefore(s, root, a, frame, user, root', b);
      FrameOfSpace(s, root, a, frame, user, a.(pt := b.pt));
    }
  }

  /** Some page other than the mapped one, in some address space, has another leaf than before. */
  ghost predicate Disturbs(s: Tables, t: Tables, page: VirtualPage, root: nat, b: Address) {
    IsRoot(s, root) && b.pml != SELF && PageOf(root, b) != page && Leaf(t.mem, root, b) != Leaf(s.mem, root, b)
  }

  /** Mapping a page leaves every other page of every address space alone exactly when nothing is stale. */
  lemma MapFrame(s: Tables, root: nat, a: Address, frame: nat, user: bool)
    requires Sound(s) && IsRoot(s, root) && a.pml != SELF
    requires MapWalk(s, root, a, frame, user).Some?
    ensures (forall x: Index :: !StaleAt(s, root, a, x)) <==>
            (forall root', b: Address {:trigger Disturbs(s, MapWalk(s, root, a, frame, user).value, PageOf(root, a), root', b)} ::
               !Disturbs(s, MapWalk(s, root, a, frame, user).value, PageOf(root, a), root', b))
  {
    var t := MapWalk(s, root, a, frame, user).value;
    var page := PageOf(root, a);
    forall root', b: Address ensures Disturbs(s, t, page, root', b) ==> StaleAt(s, root, a, b.pt) {
      if Disturbs(s, t, page, root', b) {
        FrameOfOthers(s, root, a, frame, user, root', b);
      }
    }
    if x: Index :| StaleAt(s, root, a, x) {
      StaleShows(s, root, a, frame, user, x);
      assert Disturbs(s, t, page, root, a.(pt := x));
    }
  }

  lemma StaleShows(s: Tables, root: nat, a: Address, frame: nat, user: bool, x: Index)
    requires Sound(s) && IsRoot(s, root) && a.pml != SELF && StaleAt(s, root, a, x)
    requires MapWalk(s, root, a, frame, user).Some?
    ensures Leaf(MapWalk(s, root, a, frame, user).value.mem, root, a.(pt := x)) != Leaf(s.mem, root, a.(pt := x))
  {
    MapOthers(s, root, a, frame, user, root, a.(pt := x));
    StaleLeaf(s, root, a, x);
  }

  lemma StaleLeaf(s: Tables, root: nat, a: Address, x: Index)
    requires StaleAt(s, root, a, x)
    ensures PreparedLeaf(s, root, a, root, a.(pt := x)).Some? && Leaf(s.mem, root, a.(pt := x)).None?
  {
  }

  // ---------------------------------------------------------------- the window refines the walk

  lemma RootIsSelfMapped(s: Tables, root: nat)
    requires Owned(s.mem, s.own) && IsRoot(s, root)
    ensures SelfMapped(s.mem, root)
  {
    assert NodeOk(s.mem, s.own, root);
  }

  /** Taking a spare page moves no table that a walk uses. */
  lemma SpareKeepsWalk(s: Tables, p: nat, t: Table, root: nat, a: Address)
    requires Owned(s.mem, s.own) && IsRoot(s, root) && a.pml != SELF && p in s.mem && p !in s.own
    ensures SelfMapped(s.mem[p := t], root)
    ensures PdptPage(s.mem[p := t], root, a) == PdptPage(s.mem, root, a)
    ensures PdPage(s.mem[p := t], root, a) == PdPage(s.mem, root, a)
    ensures PtPage(s.mem[p := t], root, a) == PtPage(s.mem, root, a)
  {
    RootIsSelfMapped(s, root);
    WalkStaysInTree(s, root, a);
  }

  /** Filling an entry at a window address is descending from the slot that the address translates to. */
  lemma FillIsDescend(s: Tables, root: nat, w: Address, page: nat, slot: Index, n: Node, words: nat, user: bool)
    requires words <= 512 && page in s.mem && Translate(s.mem, root, w) == Some((page, 8 * slot))
    requires var t := NewTable(s, n, words);
             t.Some? ==> Translate(t.value.0.mem, root, w) == Some((page, 8 * slot))
    ensures FillAt(s, root, w, n, words, user) ==
            match Descend(s, page, slot, n, words, user) case None => None case Some(d) => Some(d.0)
  {
    assert (8 * slot) / 8 == slot;
  }

  function First(d: Option<(Tables, nat)>): Option<Tables> {
    var r :- d;
    Some(r.0)
  }

  lemma FillSlots(s: Tables, root: nat, a: Address, n: Node, words: nat, user: bool)
    requires Sound(s) && IsRoot(s, root) && a.pml != SELF && words <= 512
    ensures FillAt(s, root, PmlSlot(a), n, words, user) == First(Descend(s, root, a.pml, n, words, user))
    ensures var p := PdptPage(s.mem, root, a);
            p.Some? ==> FillAt(s, root, PdptSlot(a), n, words, user) == First(Descend(s, p.value, a.pdpt, n, words, user))
    ensures var p := PdPage(s.mem, root, a);
            p.Some? ==> FillAt(s, root, PdSlot(a), n, words, user) == First(Descend(s, p.value, a.pd, n, words, user))
  {
    RootIsSelfMapped(s, root);
    WalkStaysInTree(s, root, a);
    SlotsTranslate(s.mem, root, a);
    var t := NewTable(s, n, words);
    if t.Some? {
      assert Spare(s, s.pages[s.next]);
      SpareKeepsWalk(s, s.pages[s.next], Cleared(s.mem[s.pages[s.next]], words), root, a);
      SlotsTranslate(t.value.0.mem, root, a);
    }
    FillIsDescend(s, root, PmlSlot(a), root, a.pml, n, words, user);
    var p := PdptPage(s.mem, root, a);
    if p.Some? {
      assert NodeOk(s.mem, s.own, p.value);
      FillIsDescend(s, root, PdptSlot(a), p.value, a.pdpt, n, words, user);
      var q := PdPage(s.mem, root, a);
      if q.Some? {
        assert NodeOk(s.mem, s.own, q.value);
        FillIsDescend(s, root, PdSlot(a), q.value, a.pd, n, words, user);
      }
    }
  }

  lemma StorePt(s: Tables, root: nat, a: Address, pt: nat)
    requires Sound(s) && IsRoot(s, root) && a.pml != SELF && PtPage(s.mem, root, a) == Some(pt)
    ensures pt in s.mem && Load(s.mem, root, PtSlot(a)) == Some(s.mem[pt][a.pt])
    ensures forall e :: StoreAt(s.mem, root, PtSlot(a), e) == Some(Store(s.mem, pt, a.pt, e))
  {
    RootIsSelfMapped(s, root);
    WalkStaysInTree(s, root, a);
    SlotsTranslate(s.mem, root, a);
    assert (8 * a.pt) / 8 == a.pt;
  }

  lemma SlotsRefineWalk(s: Tables, root: nat, a: Address, frame: nat, user: bool)
    requires Sound(s) && IsRoot(s, root) && a.pml != SELF
    ensures MapThrough(s, root, a, PmlSlot(a), PdptSlot(a), PdSlot(a), PtSlot(a), frame, user) ==
            MapWalk(s, root, a, frame, user)
  {
    var sp := SpaceOf(root, a.pml);
    FillSlots(s, root, a, Pdpt(sp, a.pml), 512, user);
    DescendStep(s, root, a.pml, 512, user);
    var d1 := Descend(s, root, a.pml, Pdpt(sp, a.pml), 512, user);
    if d1.Some? {
      var (s1, pdpt) := d1.value;
      assert IsRoot(s1, root);
      FillSlots(s1, root, a, Pd(sp, a.pml, a.pdpt), 512, user);
      PrepareDirectorySound(s, root, a, user);
      var d2 := PrepareDirectory(s, root, a, user);
      if d2.Some? {
        var (s2, pd) := d2.value;
        assert IsRoot(s2, root);
        FillSlots(s2, root, a, Pt(sp, a.pml, a.pdpt, a.pd), 1, user);
        PrepareSound(s, root, a, user);
        var d3 := Prepare(s, root, a, user);
        if d3.Some? {
          assert IsRoot(d3.value.0, root);
          StorePt(d3.value.0, root, a, d3.value.1);
        }
      }
    }
  }

  /** vmmgr_map_page_after_paging does through the window exactly what vmmgr_map_page does by walking. */
  lemma WindowRefinesWalk(s: Tables, root: nat, v: Word, frame: nat, user: bool)
    requires Sound(s) && IsRoot(s, root) && Split(v).pml != SELF
    ensures MapWindow(s, root, v, frame, user) == MapWalk(s, root, Split(v), frame, user)
  {
    WindowSlots(v);
    SlotsRefineWalk(s, root, Split(v), frame, user);
  }
}

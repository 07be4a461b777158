/** What programs may store to: the permission test of the processor, and the flags that the table code leaves in the
    entries of every table. */
module UserAccess {
  import opened Options
  import opened PageBits
  import opened PageTables
  import opened ForkTables
  import opened ForkSpaces

  // ---------------------------------------------------------------- stores in user mode

  /** What the processor asks of an entry at every level before it stores in user mode: section 4.6 of the Intel SDM,
      volume 3A. */
  predicate Permits(e: Entry) {
    e.present && e.writable && e.user
  }

  function UserNext(mem: Memory, page: nat, slot: Index): Option<nat> {
    if page in mem && Permits(mem[page][slot]) then Some(mem[page][slot].Page()) else None
  }

  /** The page and the offset in it that a store in user mode goes to, or a fault. */
  function UserTarget(mem: Memory, root: nat, a: Address): Option<(nat, nat)> {
    var p :- UserNext(mem, root, a.pml);
    var p :- UserNext(mem, p, a.pdpt);
    var p :- UserNext(mem, p, a.pd);
    var p :- UserNext(mem, p, a.pt);
    Some((p, a.offset))
  }

  /** A store that is permitted goes where the walk goes, through a writable leaf. */
  lemma TargetTranslates(mem: Memory, root: nat, a: Address)
    requires UserTarget(mem, root, a).Some?
    ensures Translate(mem, root, a) == UserTarget(mem, root, a)
    ensures Leaf(mem, root, a).Some? && Permits(Leaf(mem, root, a).value)
    ensures UserTarget(mem, root, a) == Some((Leaf(mem, root, a).value.Page(), a.offset))
  {
  }

  /** Slot 510 lets programs through. */
  predicate SelfUser(mem: Memory, root: nat) {
    root in mem && mem[root][SELF].user
  }

  // ---------------------------------------------------------------- flags of the entries

  /** The flags of slot `x` of a table at place `n`: user tables hang in entries that permit stores, slot 510 is
      writable, slot 511 is closed to programs, and pages of user tables are user pages. */
  predicate Flags(n: Node, x: Index, e: Entry) {
    match n
    case Pml(_) => if x < SELF then e == EMPTY || Permits(e) else if x == SELF then e.present && e.writable else !e.user
    case Pdpt(space, _) => space.User? ==> e == EMPTY || Permits(e)
    case Pd(space, _, _) => space.User? ==> e == EMPTY || Permits(e)
    case Pt(space, _, _, _) => space.User? && e.present ==> e.user
  }

  ghost predicate FlagsOk(s: Tables, q: nat, x: Index) {
    q in s.own && q in s.mem ==> Flags(s.own[q], x, s.mem[q][x])
  }

  ghost predicate Guarded(s: Tables) {
    forall q, x: Index {:trigger FlagsOk(s, q, x)} :: FlagsOk(s, q, x)
  }

  /** Pages still to be handed out for tables are zero. */
  ghost predicate Blank(s: Tables, n: nat)
    requires n < |s.pages|
  {
    s.pages[n] in s.mem && forall x: Index :: s.mem[s.pages[n]][x] == EMPTY
  }

  ghost predicate AllBlank(s: Tables) {
    forall n: nat {:trigger Blank(s, n)} :: s.next <= n < |s.pages| ==> Blank(s, n)
  }

  /** The self-referencing slots stay as they are. */
  ghost predicate SelfKept(s: Tables, t: Tables, q: nat) {
    IsRoot(s, q) && q in s.mem ==> IsRoot(t, q) && q in t.mem && t.mem[q][SELF] == s.mem[q][SELF]
  }

  /** Everything that a step on the tables keeps. */
  ghost predicate Keeps(s: Tables, t: Tables) {
    Guarded(t) && forall q {:trigger SelfKept(s, t, q)} :: SelfKept(s, t, q)
  }

  lemma KeepsTransitive(s: Tables, t: Tables, u: Tables)
    requires Keeps(s, t) && Keeps(t, u)
    ensures Keeps(s, u)
  {
    forall q ensures SelfKept(s, u, q) {
      assert SelfKept(s, t, q) && SelfKept(t, u, q);
    }
  }

  lemma KeepsSame(s: Tables)
    requires Guarded(s)
    ensures Keeps(s, s)
  {
    forall q ensures SelfKept(s, s, q) {
    }
  }

  // ---------------------------------------------------------------- mapping a page

  /** A new table hung in a slot with the right flags. */
  lemma HangKeeps(s: Tables, t: Tables, page: nat, slot: Index, p: nat, table: Table, e: Entry, n: Node)
    requires Guarded(s) && page in s.own && page in s.mem && p !in s.own && !n.Pml?
    requires forall x: Index :: table[x] == EMPTY
    requires t.mem == Store(s.mem[p := table], page, slot, e) && t.own == s.own[p := n]
    requires Flags(s.own[page], slot, e) && (s.own[page].Pml? ==> slot != SELF)
    ensures Keeps(s, t)
  {
    forall q, x: Index ensures FlagsOk(t, q, x) {
      assert FlagsOk(s, q, x);
    }
    forall q ensures SelfKept(s, t, q) {
    }
  }

  lemma ClearedBlank(t: Table, words: nat)
    requires words == 512 || (words < 512 && forall x: Index :: t[x] == EMPTY)
    ensures forall x: Index :: Cleared(t, words)[x] == EMPTY
  {
  }

  lemma DescendKeeps(s: Tables, page: nat, slot: Index, words: nat, user: bool)
    requires Sound(s) && Guarded(s) && AllBlank(s) && page in s.own && !s.own[page].Pt? && words <= 512
    requires s.own[page].Pml? ==> slot != SELF
    requires words == 512 || s.own[page].Pd?
    requires forall p :: Flags(s.own[page], slot, SetEntry(EMPTY, p, user))
    ensures var d := Descend(s, page, slot, Child(s.own[page], slot), words, user);
            d.Some? ==> Keeps(s, d.value.0) && AllBlank(d.value.0)
  {
    DescendSound(s, page, slot, words, user);
    var d := Descend(s, page, slot, Child(s.own[page], slot), words, user);
    if d.Some? {
      var t := d.value.0;
      if Next(s.mem, page, slot).Some? {
        KeepsSame(s);
      } else {
        var p := s.pages[s.next];
        assert Spare(s, p) && Blank(s, s.next);
        ClearedBlank(s.mem[p], words);
        HangKeeps(s, t, page, slot, p, Cleared(s.mem[p], words), SetEntry(EMPTY, p, user), Child(s.own[page], slot));
        forall n: nat | t.next <= n < |t.pages| ensures Blank(t, n) {
          assert Blank(s, n) && Spare(s, s.pages[n]);
        }
      }
    }
  }

  /** The map functions are used with the user flag below slot 510 and without it in slot 511. */
  predicate Sided(a: Address, user: bool) {
    (a.pml < SELF && user) || (a.pml == 511 && !user)
  }

  lemma PrepareKeeps(s: Tables, root: nat, a: Address, user: bool)
    requires Sound(s) && Guarded(s) && AllBlank(s) && IsRoot(s, root) && Sided(a, user)
    ensures var d := Prepare(s, root, a, user);
            d.Some? ==> Keeps(s, d.value.0)
  {
    var sp := SpaceOf(root, a.pml);
    DescendStep(s, root, a.pml, 512, user);
    DescendKeeps(s, root, a.pml, 512, user);
    var d1 := Descend(s, root, a.pml, Pdpt(sp, a.pml), 512, user);
    if d1.Some? {
      var (s1, pdpt) := d1.value;
      DescendStep(s1, pdpt, a.pdpt, 512, user);
      DescendKeeps(s1, pdpt, a.pdpt, 512, user);
      var d2 := Descend(s1, pdpt, a.pdpt, Pd(sp, a.pml, a.pdpt), 512, user);
      if d2.Some? {
        var (s2, pd) := d2.value;
        DescendKeeps(s2, pd, a.pd, 1, user);
        KeepsTransitive(s, s1, s2);
        if Prepare(s, root, a, user).Some? {
          KeepsTransitive(s, s2, Prepare(s, root, a, user).value.0);
        }
      }
    }
  }

  /** Mapping a page keeps the flags. */
  lemma MapKeepsFlags(s: Tables, root: nat, a: Address, frame: nat, user: bool)
    requires Sound(s) && Guarded(s) && AllBlank(s) && IsRoot(s, root) && Sided(a, user)
    ensures var t := MapWalk(s, root, a, frame, user);
            t.Some? ==> Keeps(s, t.value)
  {
    PrepareKeeps(s, root, a, user);
    PrepareSound(s, root, a, user);
    var t := MapWalk(s, root, a, frame, user);
    if t.Some? {
      var (m, pt) := Prepare(s, root, a, user).value;
      forall q, x: Index ensures FlagsOk(t.value, q, x) {
        assert FlagsOk(m, q, x);
      }
      forall q ensures SelfKept(m, t.value, q) {
      }
      KeepsTransitive(s, m, t.value);
    }
  }

  // ---------------------------------------------------------------- fork

  lemma CloneKeeps(s: Tables, r: nat)
    requires Sound(s) && Guarded(s) && IsRoot(s, r) && Clone(s, r).Some?
    ensures var (t, c) := Clone(s, r).value;
            Keeps(s, t) && c in t.mem && t.mem[c][SELF] == SetEntry(EMPTY, c, true)
  {
    CloneSound(s, r);
    var (t, c) := Clone(s, r).value;
    forall q, x: Index ensures FlagsOk(t, q, x) {
      assert FlagsOk(s, q, x) && FlagsOk(s, r, x);
    }
    forall q ensures SelfKept(s, t, q) {
    }
  }

  /** A table for the child below `dst`. */
  lemma WithTableKeeps(s: Tables, c: nat, dst: nat, x: Index, n: Node)
    requires SoundBut(s, c) && Guarded(s) && CanTake(s) && dst in s.own && dst in s.mem && !n.Pml?
    requires s.own[dst].Pml? ==> x < SELF
    ensures Keeps(s, WithTable(s, dst, x, n, 512, true))
  {
    var p := s.pages[s.next];
    assert Spare(s, p);
    ClearedBlank(s.mem[p], 512);
    HangKeeps(s, WithTable(s, dst, x, n, 512, true), dst, x, p, Cleared(s.mem[p], 512),
              SetEntry(s.mem[p := Cleared(s.mem[p], 512)][dst][x], p, true), n);
  }

  lemma SharedKeeps(s: Tables, m: Tables, t: Tables, dst: nat, k: Index, a: nat, p: nat, n: Node)
    requires Guarded(s) && a in s.own && a in s.mem && s.own[a].Pt? && s.own[a].space.User? && n.Pt? && p !in s.own
    requires m.own == s.own[p := n] && dst in s.own && dst in s.mem && !s.own[dst].Pml? && dst in m.mem && Permits(m.mem[dst][k])
    requires m.mem.Keys == s.mem.Keys
    requires forall y: Index :: y != k ==> m.mem[dst][y] == s.mem[dst][y]
    requires forall q {:trigger m.mem[q]} :: q in s.mem && q != p && q != dst ==> m.mem[q] == s.mem[q]
    requires t == m.(mem := m.mem[p := SharedTable(s.mem[a])][a := SharedTable(s.mem[a])])
    ensures Keeps(s, t)
  {
    forall q, x: Index ensures FlagsOk(t, q, x) {
      assert FlagsOk(s, q, x) && FlagsOk(s, a, x);
      SharedTableAt(s.mem[a], x);
    }
    forall q ensures SelfKept(s, t, q) {
    }
  }

  lemma CopyEntryKeeps(s: Tables, r: nat, c: nat, src: nat, dst: nat, i: Index, j: Index, k: Index)
    requires SoundBut(s, c) && Guarded(s) && Directories(s, r, c, src, dst, i, j) && src in s.mem && dst in s.mem
    requires s.mem[dst][k] == EMPTY
    ensures var t := CopyEntry(s, c, src, dst, i, j, k, true);
            t.Some? ==> Keeps(s, t.value)
  {
    var t := CopyEntry(s, c, src, dst, i, j, k, true);
    if s.mem[src][k] == EMPTY {
      KeepsSame(s);
    } else if t.Some? {
      var m := WithTable(s, dst, k, Pt(User(c), i, j, k), 1, true);
      var a := s.mem[src][k].frame;
      EntryPrepared(s, r, c, src, dst, i, j, k, a, true);
      WithTableSound(s, c, dst, k, Pt(User(c), i, j, k), 1, true);
      SharedKeeps(s, m, t.value, dst, k, a, s.pages[s.next], Pt(User(c), i, j, k));
    }
  }

  lemma {:induction false} CopyPdKeeps(s: Tables, r: nat, c: nat, src: nat, dst: nat, i: Index, j: Index, k: nat)
    requires k <= 512 && SoundBut(s, c) && Guarded(s) && Directories(s, r, c, src, dst, i, j)
    requires dst in s.mem && forall x: Index :: x >= k ==> s.mem[dst][x] == EMPTY
    ensures var t := CopyPd(s, c, src, dst, i, j, k, true);
            t.Some? ==> Keeps(s, t.value)
    decreases 512 - k
  {
    if k == 512 {
      KeepsSame(s);
    } else if CopyPd(s, c, src, dst, i, j, k, true).Some? {
      CopyEntryKeeps(s, r, c, src, dst, i, j, k);
      CopyEntryDone(s, r, c, src, dst, i, j, k, true);
      var t := CopyEntry(s, c, src, dst, i, j, k, true).value;
      CopyPdKeeps(t, r, c, src, dst, i, j, k + 1);
      KeepsTransitive(s, t, CopyPd(s, c, src, dst, i, j, k, true).value);
    }
  }

  lemma CopyDirKeeps(s: Tables, r: nat, c: nat, src: nat, dst: nat, i: Index, j: Index)
    requires SoundBut(s, c) && Guarded(s) && PointerTables(s, r, c, src, dst, i) && src in s.mem && dst in s.mem
    requires s.mem[src][j] != EMPTY && s.mem[dst][j] == EMPTY
    ensures var t := CopyDir(s, c, src, dst, i, j, true);
            t.Some? ==> Keeps(s, t.value)
  {
    var result := CopyDir(s, c, src, dst, i, j, true);
    if result.Some? {
      var t := WithTable(s, dst, j, Pd(User(c), i, j), 512, true);
      DirPrepared(s, r, c, src, dst, i, j, true);
      WithTableKeeps(s, c, dst, j, Pd(User(c), i, j));
      CopyPdKeeps(t, r, c, s.mem[src][j].frame, s.pages[s.next], i, j, 0);
      KeepsTransitive(s, t, result.value);
    }
  }

  lemma {:induction false} CopyPdptKeeps(s: Tables, r: nat, c: nat, src: nat, dst: nat, i: Index, j: nat)
    requires j <= 512 && SoundBut(s, c) && Guarded(s) && PointerTables(s, r, c, src, dst, i)
    requires dst in s.mem && forall x: Index :: x >= j ==> s.mem[dst][x] == EMPTY
    ensures var t := CopyPdpt(s, c, src, dst, i, j, true);
            t.Some? ==> Keeps(s, t.value)
    decreases 512 - j
  {
    var result := CopyPdpt(s, c, src, dst, i, j, true);
    if result.Some? {
      if s.mem[src][j] == EMPTY {
        KeepsSame(s);
      } else {
        CopyDirKeeps(s, r, c, src, dst, i, j);
        CopyDirDone(s, r, c, src, dst, i, j, true);
        var t := CopyDir(s, c, src, dst, i, j, true).value;
        CopyPdptKeeps(t, r, c, src, dst, i, j + 1);
        KeepsTransitive(s, t, result.value);
      }
    }
  }

  /** The new pointer table is hung below the child's top-level table and empty. */
  lemma TopPrepared(s: Tables, r: nat, c: nat, i: Index, user: bool)
    requires SoundBut(s, c) && IsRoot(s, r) && r != c && r in s.mem && i < SELF && s.mem[r][i] != EMPTY && CanTake(s)
    ensures var t := WithTable(s, c, i, Pdpt(User(c), i), 512, user); var p := s.pages[s.next];
            && r in t.mem && t.mem[r] == s.mem[r] && s.mem[r][i].Page() == s.mem[r][i].frame
            && SoundBut(t, c) && PointerTables(t, r, c, s.mem[r][i].frame, p, i)
            && p in t.mem && forall x: Index :: t.mem[p][x] == EMPTY
  {
    var p := s.pages[s.next];
    assert NodeOk(s.mem, s.own, r);
    assert SlotOk(s.mem, s.own, r, i);
    WithTableSound(s, c, c, i, Pdpt(User(c), i), 512, user);
    forall x: Index ensures WithTable(s, c, i, Pdpt(User(c), i), 512, user).mem[p][x] == EMPTY {
      BlankTable(s.mem[p], x);
    }
  }

  lemma CopyTopKeeps(s: Tables, r: nat, c: nat, i: Index)
    requires SoundBut(s, c) && Guarded(s) && IsRoot(s, r) && r != c && r in s.mem && i < SELF && s.mem[r][i] != EMPTY
    ensures var t := CopyTop(s, r, c, i, true);
            t.Some? ==> Keeps(s, t.value)
  {
    var result := CopyTop(s, r, c, i, true);
    if result.Some? {
      var t := WithTable(s, c, i, Pdpt(User(c), i), 512, true);
      TopPrepared(s, r, c, i, true);
      WithTableKeeps(s, c, c, i, Pdpt(User(c), i));
      CopyPdptKeeps(t, r, c, s.mem[r][i].frame, s.pages[s.next], i, 0);
      KeepsTransitive(s, t, result.value);
    }
  }

  lemma {:induction false} CopyPmlKeeps(s: Tables, r: nat, c: nat, i: nat)
    requires i <= SELF && SoundBut(s, c) && Guarded(s) && IsRoot(s, r) && r != c
    requires forall x: Index :: s.mem[c][x].high == 0
    ensures var t := CopyPml(s, r, c, i, true);
            t.Some? ==> Keeps(s, t.value)
    decreases SELF - i
  {
    var result := CopyPml(s, r, c, i, true);
    if result.Some? {
      if s.mem[r][i] == EMPTY {
        KeepsSame(s);
      } else {
        CopyTopKeeps(s, r, c, i);
        CopyTopDone(s, r, c, i, true);
        var t := CopyTop(s, r, c, i, true).value;
        CopyPmlKeeps(t, r, c, i + 1);
        KeepsTransitive(s, t, result.value);
      }
    }
  }

  /** Fork keeps the flags, and slot 510 of the new address space lets programs through. */
  lemma ForkKeepsFlags(s: Tables, r: nat)
    requires Sound(s) && Guarded(s) && IsRoot(s, r) && Forked(s, r, true).Some?
    ensures var (t, c) := Forked(s, r, true).value;
            Keeps(s, t) && SelfUser(t.mem, c)
  {
    CloneSound(s, r);
    CloneKeeps(s, r);
    var (m, c) := Clone(s, r).value;
    CopyPmlKeeps(m, r, c, 0);
    var t := Forked(s, r, true).value.0;
    KeepsTransitive(s, m, t);
    assert SelfKept(m, t, c);
  }

  // ---------------------------------------------------------------- exec

  /** Clearing keeps the flags. */
  lemma ClearKeepsFlags(s: Tables, r: nat)
    requires Sound(s) && Guarded(s) && IsRoot(s, r) && ClearPml(s.mem, r, 0).Some?
    ensures Keeps(s, s.(mem := ClearPml(s.mem, r, 0).value))
  {
    assert NodeOk(s.mem, s.own, r);
    ClearPmlDone(s.own, s.mem, r, 0);
    var t := s.(mem := ClearPml(s.mem, r, 0).value);
    forall q, x: Index ensures FlagsOk(t, q, x) {
      assert FlagsOk(s, q, x) && Wiped(s.own, s.mem, t.mem, r, true, q);
    }
    forall q ensures SelfKept(s, t, q) {
      assert Wiped(s.own, s.mem, t.mem, r, true, q);
    }
  }

  // ---------------------------------------------------------------- what programs can reach

  /** No store in user mode reaches the kernel half. */
  lemma KernelClosed(s: Tables, r: nat, a: Address)
    requires Guarded(s) && IsRoot(s, r) && a.pml == 511
    ensures UserTarget(s.mem, r, a).None?
  {
    assert FlagsOk(s, r, 511);
  }

  /** A page below slot 510 can be stored to exactly when its leaf is writable. */
  lemma UserPages(s: Tables, r: nat, a: Address)
    requires Sound(s) && Guarded(s) && IsRoot(s, r) && a.pml < SELF
    ensures UserTarget(s.mem, r, a).Some? <==> Leaf(s.mem, r, a).Some? && Leaf(s.mem, r, a).value.writable
  {
    WalkStaysInTree(s, r, a);
    assert NodeOk(s.mem, s.own, r);
    assert FlagsOk(s, r, a.pml);
    var p := PdptPage(s.mem, r, a);
    if p.Some? {
      assert NodeOk(s.mem, s.own, p.value) && FlagsOk(s, p.value, a.pdpt);
      var q := PdPage(s.mem, r, a);
      if q.Some? {
        assert NodeOk(s.mem, s.own, q.value) && FlagsOk(s, q.value, a.pd);
        if PtPage(s.mem, r, a).Some? {
          assert FlagsOk(s, PtPage(s.mem, r, a).value, a.pt);
        }
      }
    }
  }

  /** The window: the word that slot 510 shows of the top-level table. */
  lemma WindowOpens(s: Tables, r: nat, v: Word)
    requires Sound(s) && Guarded(s) && IsRoot(s, r) && SelfUser(s.mem, r)
    ensures Split(PmlEntryAddress(v)).pml == SELF
    ensures UserTarget(s.mem, r, Split(PmlEntryAddress(v))) == Some((r, 8 * Split(v).pml))
  {
    WindowSlots(v);
    assert NodeOk(s.mem, s.own, r) && FlagsOk(s, r, SELF);
  }

  ghost predicate ReachesSelf(mem: Memory, r: nat, v: Word) {
    Split(v).pml == SELF && UserTarget(mem, r, Split(v)).Some?
  }

  /** Some store in user mode goes through slot 510 exactly when that slot lets programs through. */
  lemma WindowExact(s: Tables, r: nat)
    requires Sound(s) && Guarded(s) && IsRoot(s, r)
    ensures (exists v {:trigger ReachesSelf(s.mem, r, v)} :: ReachesSelf(s.mem, r, v)) <==> SelfUser(s.mem, r)
  {
    if SelfUser(s.mem, r) {
      WindowOpens(s, r, 0);
      assert ReachesSelf(s.mem, r, PmlEntryAddress(0));
    }
  }
}

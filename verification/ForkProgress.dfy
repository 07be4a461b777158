/** Fork takes one page for the new top-level table and one for every table it copies, and it succeeds exactly when
    there are that many and its loops end. */
module ForkProgress {
  import opened Options
  import opened PageBits
  import opened PageTables
  import opened ForkTables
  import opened ForkSpaces
  import opened UserAccess
  import opened CowSteps
  import opened DenseTables

  // ---------------------------------------------------------------- how many tables there are to copy

  /** The used slots of a table from slot `k` on. */
  function UsedFrom(t: Table, k: nat): nat
    requires k <= 512
    decreases 512 - k
  {
    if k == 512 then 0 else (if t[k] == EMPTY then 0 else 1) + UsedFrom(t, k + 1)
  }

  /** The table that an entry refers to. */
  function TableAt(mem: Memory, e: Entry): Table {
    if e.frame in mem then mem[e.frame] else seq(512, _ => EMPTY)
  }

  /** The directories and page tables below a pointer table, from slot `j` up to the first empty one. */
  function TablesBelow(mem: Memory, t: Table, j: nat): nat
    requires j <= 512
    decreases 512 - j
  {
    if j == 512 || t[j] == EMPTY then 0 else 1 + UsedFrom(TableAt(mem, t[j]), 0) + TablesBelow(mem, t, j + 1)
  }

  /** All tables below a top-level table, from slot `i` up to the first empty one. */
  function TablesUnder(mem: Memory, t: Table, i: nat): nat
    requires i <= SELF
    decreases SELF - i
  {
    if i == SELF || t[i] == EMPTY then 0 else 1 + TablesBelow(mem, TableAt(mem, t[i]), 0) + TablesUnder(mem, t, i + 1)
  }

  /** The loops end: an empty slot comes before slot 510, and one in every pointer table before it. */
  predicate Ends(mem: Memory, t: Table, i: nat)
    requires i <= SELF
    decreases SELF - i
  {
    i < SELF && (t[i] == EMPTY || (FirstEmpty(TableAt(mem, t[i]), 0) < 512 && Ends(mem, t, i + 1)))
  }

  // ---------------------------------------------------------------- the loops

  lemma CanTakeOne(s: Tables)
    requires HeapOk(s)
    ensures CanTake(s) <==> s.Left() > 0
  {
    if s.Left() > 0 {
      assert Spare(s, s.pages[s.next]);
    }
  }

  /** The outcome of copying something that takes `need` pages. */
  predicate Takes(s: Tables, result: Option<Tables>, need: nat) {
    (result.Some? <==> s.Left() >= need) && (result.Some? ==> result.value.Left() == s.Left() - need)
  }

  lemma CopyEntryTakes(s: Tables, r: nat, c: nat, src: nat, dst: nat, i: Index, j: Index, k: Index, user: bool)
    requires SoundBut(s, c) && Directories(s, r, c, src, dst, i, j) && src in s.mem && dst in s.mem && s.mem[dst][k] == EMPTY
    ensures Takes(s, CopyEntry(s, c, src, dst, i, j, k, user), if s.mem[src][k] == EMPTY then 0 else 1)
  {
    CanTakeOne(s);
    if s.mem[src][k] != EMPTY && s.Left() > 0 {
      EntryPrepared(s, r, c, src, dst, i, j, k, s.mem[src][k].frame, user);
    }
  }

  lemma {:induction false} CopyPdTakes(s: Tables, r: nat, c: nat, src: nat, dst: nat, i: Index, j: Index, k: nat, user: bool)
    requires k <= 512 && SoundBut(s, c) && Directories(s, r, c, src, dst, i, j) && src in s.mem
    requires dst in s.mem && forall x: Index :: x >= k ==> s.mem[dst][x] == EMPTY
    ensures Takes(s, CopyPd(s, c, src, dst, i, j, k, user), UsedFrom(s.mem[src], k))
    decreases 512 - k
  {
    if k < 512 {
      CopyEntryTakes(s, r, c, src, dst, i, j, k, user);
      CopyEntryDone(s, r, c, src, dst, i, j, k, user);
      var t := CopyEntry(s, c, src, dst, i, j, k, user);
      if t.Some? {
        assert RoundKeeps(s, t.value, dst, r, i, j, k, src);
        CopyPdTakes(t.value, r, c, src, dst, i, j, k + 1, user);
      }
    }
  }

  lemma DirectoryExists(s: Tables, r: nat, c: nat, src: nat, i: Index, j: Index)
    requires SoundBut(s, c) && src in s.own && s.own[src] == Pdpt(User(r), i) && src in s.mem && s.mem[src][j] != EMPTY
    ensures var pd := s.mem[src][j].frame; pd in s.own && pd in s.mem && s.own[pd] == Pd(User(r), i, j)
  {
    assert NodeOk(s.mem, s.own, src);
    assert SlotOk(s.mem, s.own, src, j);
    assert NodeOk(s.mem, s.own, s.mem[src][j].frame);
  }

  lemma CopyDirTakes(s: Tables, r: nat, c: nat, src: nat, dst: nat, i: Index, j: Index, user: bool)
    requires SoundBut(s, c) && PointerTables(s, r, c, src, dst, i) && src in s.mem && dst in s.mem
    requires s.mem[src][j] != EMPTY && s.mem[dst][j] == EMPTY
    ensures Takes(s, CopyDir(s, c, src, dst, i, j, user), 1 + UsedFrom(TableAt(s.mem, s.mem[src][j]), 0))
  {
    CanTakeOne(s);
    DirectoryExists(s, r, c, src, i, j);
    if s.Left() > 0 {
      var t := WithTable(s, dst, j, Pd(User(c), i, j), 512, user);
      var pd := s.mem[src][j].frame;
      DirPrepared(s, r, c, src, dst, i, j, user);
      WithTableSound(s, c, dst, j, Pd(User(c), i, j), 512, user);
      assert t.mem[pd] == s.mem[pd];
      CopyPdTakes(t, r, c, pd, s.pages[s.next], i, j, 0, user);
    }
  }

  /** The pointer tables and directories of `r` are as they were. */
  ghost predicate Same(s: Tables, t: Tables, r: nat, q: nat) {
    q in s.own && (s.own[q].Pdpt? || s.own[q].Pd?) && s.own[q].space == User(r) ==> q in s.mem && q in t.mem && t.mem[q] == s.mem[q]
  }

  lemma {:induction false} BelowSame(s: Tables, t: Tables, r: nat, c: nat, src: nat, i: Index, j: nat)
    requires SoundBut(s, c) && src in s.own && s.own[src] == Pdpt(User(r), i) && src in s.mem && j <= 512
    requires forall q {:trigger Same(s, t, r, q)} :: Same(s, t, r, q)
    ensures src in t.mem && TablesBelow(t.mem, t.mem[src], j) == TablesBelow(s.mem, s.mem[src], j)
    decreases 512 - j
  {
    assert Same(s, t, r, src);
    if j < 512 && s.mem[src][j] != EMPTY {
      DirectoryExists(s, r, c, src, i, j);
      assert Same(s, t, r, s.mem[src][j].frame);
      BelowSame(s, t, r, c, src, i, j + 1);
    }
  }

  lemma DirSame(s: Tables, t: Tables, r: nat, c: nat, src: nat, dst: nat, i: Index, j: Index)
    requires SoundBut(s, c) && PointerTables(s, r, c, src, dst, i) && DirDone(s, t, r, c, src, dst, i, j)
    ensures forall q {:trigger Same(s, t, r, q)} :: Same(s, t, r, q)
  {
    forall q ensures Same(s, t, r, q) {
      assert DirKeeps(s, t, dst, r, i, j, q);
    }
  }

  /** Copying a pointer table whose loop ends. */
  ghost predicate TakesIf(s: Tables, result: Option<Tables>, ends: bool, need: nat) {
    (result.Some? <==> ends && s.Left() >= need) && (result.Some? ==> result.value.Left() == s.Left() - need)
  }

  lemma TakesThen(s: Tables, t: Option<Tables>, u: Option<Tables>, ends: bool, a: nat, b: nat)
    requires Takes(s, t, a) && (if t.None? then u.None? else TakesIf(t.value, u, ends, b))
    ensures TakesIf(s, u, ends, a + b)
  {
  }

  /** One round leaves what the next one needs. */
  lemma DirNext(s: Tables, t: Tables, r: nat, c: nat, src: nat, dst: nat, i: Index, j: Index, user: bool)
    requires SoundBut(s, c) && PointerTables(s, r, c, src, dst, i) && src in s.mem && dst in s.mem
    requires s.mem[src][j] != EMPTY && s.mem[dst][j] == EMPTY && CopyDir(s, c, src, dst, i, j, user) == Some(t)
    ensures SoundBut(t, c) && PointerTables(t, r, c, src, dst, i) && src in t.mem && t.mem[src] == s.mem[src] && dst in t.mem
    ensures forall x: Index :: x != j ==> t.mem[dst][x] == s.mem[dst][x]
    ensures TablesBelow(t.mem, t.mem[src], j + 1) == TablesBelow(s.mem, s.mem[src], j + 1)
  {
    CopyDirDone(s, r, c, src, dst, i, j, user);
    DirSame(s, t, r, c, src, dst, i, j);
    BelowSame(s, t, r, c, src, i, j + 1);
    assert Same(s, t, r, src);
  }

  ghost predicate PdptTakes(s: Tables, c: nat, src: nat, dst: nat, i: Index, j: nat, user: bool)
    requires j <= 512 && src in s.mem
  {
    TakesIf(s, CopyPdpt(s, c, src, dst, i, j, user), FirstEmpty(s.mem[src], j) < 512, TablesBelow(s.mem, s.mem[src], j))
  }

  lemma PdptRound(s: Tables, t: Option<Tables>, r: nat, c: nat, src: nat, dst: nat, i: Index, j: Index, user: bool)
    requires SoundBut(s, c) && PointerTables(s, r, c, src, dst, i) && src in s.mem && dst in s.mem
    requires s.mem[src][j] != EMPTY && s.mem[dst][j] == EMPTY && t == CopyDir(s, c, src, dst, i, j, user)
    requires t.Some? ==> src in t.value.mem && PdptTakes(t.value, c, src, dst, i, j + 1, user)
    ensures PdptTakes(s, c, src, dst, i, j, user)
  {
    CopyDirTakes(s, r, c, src, dst, i, j, user);
    if t.Some? {
      DirNext(s, t.value, r, c, src, dst, i, j, user);
    }
    TakesThen(s, t, CopyPdpt(s, c, src, dst, i, j, user), FirstEmpty(s.mem[src], j + 1) < 512,
              1 + UsedFrom(TableAt(s.mem, s.mem[src][j]), 0), TablesBelow(s.mem, s.mem[src], j + 1));
  }

  lemma {:induction false} CopyPdptTakes(s: Tables, r: nat, c: nat, src: nat, dst: nat, i: Index, j: nat, user: bool)
    requires j <= 512 && SoundBut(s, c) && PointerTables(s, r, c, src, dst, i) && src in s.mem
    requires dst in s.mem && forall x: Index :: x >= j ==> s.mem[dst][x] == EMPTY
    ensures PdptTakes(s, c, src, dst, i, j, user)
    decreases 512 - j
  {
    if j < 512 && s.mem[src][j] != EMPTY {
      var t := CopyDir(s, c, src, dst, i, j, user);
      if t.Some? {
        DirNext(s, t.value, r, c, src, dst, i, j, user);
        CopyPdptTakes(t.value, r, c, src, dst, i, j + 1, user);
      }
      PdptRound(s, t, r, c, src, dst, i, j, user);
    }
  }

  lemma PointerTableExists(s: Tables, r: nat, c: nat, i: Index)
    requires SoundBut(s, c) && IsRoot(s, r) && r != c && r in s.mem && i < SELF && s.mem[r][i] != EMPTY
    ensures var p := s.mem[r][i].frame; p in s.own && p in s.mem && s.own[p] == Pdpt(User(r), i)
  {
    assert NodeOk(s.mem, s.own, r);
    assert SlotOk(s.mem, s.own, r, i);
    assert NodeOk(s.mem, s.own, s.mem[r][i].frame);
  }

  lemma HungSame(s: Tables, r: nat, c: nat, i: Index, user: bool)
    requires SoundBut(s, c) && IsRoot(s, r) && r != c && r in s.mem && i < SELF && CanTake(s)
    ensures var t := WithTable(s, c, i, Pdpt(User(c), i), 512, user);
            && SoundBut(t, c) && Extends(s.own, t.own) && t.Left() == s.Left() - 1
            && forall q {:trigger Same(s, t, r, q)} :: Same(s, t, r, q)
  {
    var t := WithTable(s, c, i, Pdpt(User(c), i), 512, user);
    WithTableSound(s, c, c, i, Pdpt(User(c), i), 512, user);
    forall q ensures Same(s, t, r, q) {
      if q in s.own && q != c {
        assert NodeOk(s.mem, s.own, q);
      }
    }
  }

  lemma CopyTopTakes(s: Tables, r: nat, c: nat, i: Index, user: bool)
    requires SoundBut(s, c) && IsRoot(s, r) && r != c && r in s.mem && i < SELF && s.mem[r][i] != EMPTY
    ensures TakesIf(s, CopyTop(s, r, c, i, user), FirstEmpty(TableAt(s.mem, s.mem[r][i]), 0) < 512,
                    1 + TablesBelow(s.mem, TableAt(s.mem, s.mem[r][i]), 0))
  {
    CanTakeOne(s);
    if s.Left() > 0 {
      var t := WithTable(s, c, i, Pdpt(User(c), i), 512, user);
      var src := s.mem[r][i].frame;
      PointerTableExists(s, r, c, i);
      TopPrepared(s, r, c, i, user);
      HungSame(s, r, c, i, user);
      SlotSame(s, t, r, c, i, s.mem[r][i]);
      assert src in t.mem && TableAt(t.mem, s.mem[r][i]) == t.mem[src];
      CopyPdptTakes(t, r, c, src, s.pages[s.next], i, 0, user);
    }
  }

  /** The top-level table, the pointer tables and the directories of `r` are as they were. */
  ghost predicate SameTrees(s: Tables, t: Tables, r: nat) {
    r in s.mem && r in t.mem && t.mem[r] == s.mem[r] && forall q {:trigger Same(s, t, r, q)} :: Same(s, t, r, q)
  }

  lemma SlotSame(s: Tables, t: Tables, r: nat, c: nat, i: Index, e: Entry)
    requires SoundBut(s, c) && IsRoot(s, r) && r != c && r in s.mem && i < SELF && s.mem[r][i] == e != EMPTY
    requires forall q {:trigger Same(s, t, r, q)} :: Same(s, t, r, q)
    ensures TableAt(t.mem, e) == TableAt(s.mem, e) && TablesBelow(t.mem, TableAt(t.mem, e), 0) == TablesBelow(s.mem, TableAt(s.mem, e), 0)
  {
    PointerTableExists(s, r, c, i);
    assert Same(s, t, r, e.frame);
    BelowSame(s, t, r, c, e.frame, i, 0);
  }

  lemma {:induction false} UnderSame(s: Tables, t: Tables, r: nat, c: nat, i: nat)
    requires SoundBut(s, c) && IsRoot(s, r) && r != c && SameTrees(s, t, r) && i <= SELF
    ensures TablesUnder(t.mem, t.mem[r], i) == TablesUnder(s.mem, s.mem[r], i) && (Ends(t.mem, t.mem[r], i) <==> Ends(s.mem, s.mem[r], i))
    decreases SELF - i
  {
    if i < SELF && s.mem[r][i] != EMPTY {
      SlotSame(s, t, r, c, i, s.mem[r][i]);
      UnderSame(s, t, r, c, i + 1);
    }
  }

  lemma TopSame(s: Tables, t: Tables, r: nat, c: nat, i: Index)
    requires SoundBut(s, c) && IsRoot(s, r) && r != c && TopDone(s, t, r, c, i)
    ensures SameTrees(s, t, r)
  {
    assert TopKeeps(s, t, c, r, i, r);
    forall q ensures Same(s, t, r, q) {
      assert TopKeeps(s, t, c, r, i, q);
    }
  }

  lemma TakesIfThen(s: Tables, t: Option<Tables>, u: Option<Tables>, first: bool, rest: bool, a: nat, b: nat)
    requires TakesIf(s, t, first, a) && (if t.None? then u.None? else TakesIf(t.value, u, rest, b))
    ensures TakesIf(s, u, first && rest, a + b)
  {
  }

  ghost predicate PmlTakes(s: Tables, r: nat, c: nat, i: nat, user: bool)
    requires i <= SELF && r in s.mem
  {
    TakesIf(s, CopyPml(s, r, c, i, user), Ends(s.mem, s.mem[r], i), TablesUnder(s.mem, s.mem[r], i))
  }

  /** One round leaves what the next one needs. */
  lemma TopNext(s: Tables, t: Tables, r: nat, c: nat, i: Index, user: bool)
    requires i < SELF && SoundBut(s, c) && IsRoot(s, r) && r != c && r in s.mem && s.mem[r][i] != EMPTY && s.mem[c][i].high == 0
    requires CopyTop(s, r, c, i, user) == Some(t)
    ensures SoundBut(t, c) && IsRoot(t, r) && r in t.mem && t.mem[r] == s.mem[r]
    ensures (forall x: Index :: s.mem[c][x].high == 0) ==> forall x: Index :: t.mem[c][x].high == 0
    ensures TablesUnder(t.mem, t.mem[r], i + 1) == TablesUnder(s.mem, s.mem[r], i + 1)
    ensures Ends(t.mem, t.mem[r], i + 1) <==> Ends(s.mem, s.mem[r], i + 1)
  {
    CopyTopDone(s, r, c, i, user);
    TopSame(s, t, r, c, i);
    UnderSame(s, t, r, c, i + 1);
  }

  lemma PmlRound(s: Tables, t: Option<Tables>, r: nat, c: nat, i: Index, user: bool)
    requires i < SELF && SoundBut(s, c) && IsRoot(s, r) && r != c && r in s.mem && s.mem[r][i] != EMPTY && s.mem[c][i].high == 0
    requires t == CopyTop(s, r, c, i, user) && (t.Some? ==> r in t.value.mem && PmlTakes(t.value, r, c, i + 1, user))
    ensures PmlTakes(s, r, c, i, user)
  {
    CopyTopTakes(s, r, c, i, user);
    if t.Some? {
      TopNext(s, t.value, r, c, i, user);
    }
    TakesIfThen(s, t, CopyPml(s, r, c, i, user), FirstEmpty(TableAt(s.mem, s.mem[r][i]), 0) < 512, Ends(s.mem, s.mem[r], i + 1),
                1 + TablesBelow(s.mem, TableAt(s.mem, s.mem[r][i]), 0), TablesUnder(s.mem, s.mem[r], i + 1));
  }

  lemma {:induction false} CopyPmlTakes(s: Tables, r: nat, c: nat, i: nat, user: bool)
    requires i <= SELF && SoundBut(s, c) && IsRoot(s, r) && r != c && r in s.mem && forall x: Index :: s.mem[c][x].high == 0
    ensures PmlTakes(s, r, c, i, user)
    decreases SELF - i
  {
    if i < SELF && s.mem[r][i] != EMPTY {
      var t := CopyTop(s, r, c, i, user);
      if t.Some? {
        TopNext(s, t.value, r, c, i, user);
        CopyPmlTakes(t.value, r, c, i + 1, user);
      }
      PmlRound(s, t, r, c, i, user);
    }
  }

  lemma CloneSame(s: Tables, r: nat)
    requires Sound(s) && IsRoot(s, r) && Clone(s, r).Some?
    ensures SameTrees(s, Clone(s, r).value.0, r)
  {
    CloneSound(s, r);
    var t := Clone(s, r).value.0;
    forall q ensures Same(s, t, r, q) {
      if q in s.own {
        assert NodeOk(s.mem, s.own, q);
      }
    }
  }

  /** Fork succeeds exactly when its loops end and there is a page for the new top-level table and for each table that
      they reach, and it takes exactly these. */
  lemma ForkTakes(s: Tables, r: nat, user: bool)
    requires Sound(s) && IsRoot(s, r)
    ensures r in s.mem
    ensures var need := 1 + TablesUnder(s.mem, s.mem[r], 0);
            && (Forked(s, r, user).Some? <==> Ends(s.mem, s.mem[r], 0) && s.Left() >= need)
            && (Forked(s, r, user).Some? ==> Forked(s, r, user).value.0.Left() == s.Left() - need)
  {
    assert NodeOk(s.mem, s.own, r);
    CanTakeOne(s);
    if s.Left() > 0 {
      CloneSound(s, r);
      CloneSame(s, r);
      var (t, c) := Clone(s, r).value;
      CopyPmlTakes(t, r, c, 0, user);
      CloneUnder(s, t, r, c);
    }
  }

  lemma CloneUnder(s: Tables, t: Tables, r: nat, c: nat)
    requires Sound(s) && IsRoot(s, r) && SameTrees(s, t, r) && SoundBut(t, c) && IsRoot(t, r) && r != c && t.own == s.own[c := Pml(c)]
    ensures TablesUnder(t.mem, t.mem[r], 0) == TablesUnder(s.mem, s.mem[r], 0) && (Ends(t.mem, t.mem[r], 0) <==> Ends(s.mem, s.mem[r], 0))
  {
    forall q ensures Same(t, s, r, q) {
      assert Same(s, t, r, q);
    }
    UnderSame(t, s, r, c, 0);
  }

  // ---------------------------------------------------------------- programs in the first gibibyte

  lemma {:induction false} UsedBound(t: Table, k: nat)
    requires k <= 512
    ensures UsedFrom(t, k) <= 512 - k
    decreases 512 - k
  {
    if k < 512 {
      UsedBound(t, k + 1);
    }
  }

  /** The shape that low tables have: nothing beyond the first slot at the two upper levels. */
  lemma LowShape(m: Machine, r: nat)
    requires Consistent(m) && r in m.roots && LowTables(m.vm.mem, r)
    ensures r in m.vm.mem && m.vm.mem[r][1] == EMPTY
    ensures m.vm.mem[r][0] != EMPTY ==> TableAt(m.vm.mem, m.vm.mem[r][0])[1] == EMPTY
  {
    LowTop(m, r, 1);
    assert NodeOk(m.vm.mem, m.vm.own, r) && SlotOk(m.vm.mem, m.vm.own, r, 0);
    if m.vm.mem[r][0] != EMPTY {
      var p := m.vm.mem[r][0].frame;
      assert NodeOk(m.vm.mem, m.vm.own, p) && SlotOk(m.vm.mem, m.vm.own, p, 1);
      assert LowAt(m.vm.mem, r, Address(0, 1, 0, 0, 0));
    }
  }

  lemma LowCount(mem: Memory, t: Table)
    requires t[1] == EMPTY && (t[0] != EMPTY ==> TableAt(mem, t[0])[1] == EMPTY)
    ensures Ends(mem, t, 0) && TablesUnder(mem, t, 0) <= 514
  {
    if t[0] != EMPTY {
      var p := TableAt(mem, t[0]);
      UsedBound(TableAt(mem, p[0]), 0);
      assert TablesBelow(mem, p, 1) == 0 && TablesUnder(mem, t, 1) == 0;
      assert FirstEmpty(p, 0) <= 1;
    }
  }

  /** For a program in the first gibibyte fork succeeds exactly when that many pages are left, at most 515. */
  lemma LowForkExact(m: Machine, r: nat)
    requires Consistent(m) && r in m.roots && LowTables(m.vm.mem, r)
    ensures r in m.vm.mem && TablesUnder(m.vm.mem, m.vm.mem[r], 0) <= 514
    ensures ForkFrom(m, r).Some? <==> m.vm.Left() >= 1 + TablesUnder(m.vm.mem, m.vm.mem[r], 0)
  {
    LowShape(m, r);
    LowCount(m.vm.mem, m.vm.mem[r]);
    ForkTakes(m.vm, r, true);
  }
}

/** What fork and exec do to translations: clone_pgdir followed by copy_page_table, and clear_page_tables. */
module ForkSpaces {
  import opened Options
  import opened PageBits
  import opened PageTables
  import opened ForkTables

  /** clone_pgdir: a copy of the top-level table whose slot 510 refers to the copy. */
  function Clone(s: Tables, r: nat): Option<(Tables, nat)> {
    if !CanTake(s) || r !in s.mem then None
    else
      var c := s.pages[s.next];
      Some((Tables(s.mem[c := s.mem[r][SELF := SetEntry(EMPTY, c, true)]], s.pages, s.next + 1, s.own[c := Pml(c)]), c))
  }

  /** clone_pgdir, then copy_page_table. */
  function Forked(s: Tables, r: nat, user: bool): Option<(Tables, nat)> {
    var (t, c) :- Clone(s, r);
    var u :- CopyPml(t, r, c, 0, user);
    Some((u, c))
  }

  lemma CloneSound(s: Tables, r: nat)
    requires Sound(s) && IsRoot(s, r) && Clone(s, r).Some?
    ensures var (t, c) := Clone(s, r).value;
            && SoundBut(t, c) && Took(s, t) && c !in s.own && r != c && IsRoot(t, r) && r in s.mem
            && t.own == s.own[c := Pml(c)]
            && (forall x: Index :: t.mem[c][x].high == 0)
            && (forall x: Index :: x != SELF ==> t.mem[c][x] == s.mem[r][x])
            && (forall q {:trigger t.mem[q]} :: q in s.mem && q != c ==> q in t.mem && t.mem[q] == s.mem[q])
  {
    var (t, c) := Clone(s, r).value;
    assert Spare(s, c);
    assert NodeOk(s.mem, s.own, r);
    forall x: Index ensures t.mem[c][x].high == 0 {
      assert SlotOk(s.mem, s.own, r, x);
    }
    forall n | t.next <= n < |t.pages| ensures Spare(t, t.pages[n]) {
      assert Spare(s, s.pages[n]);
    }
    forall q | q in t.own && q != c ensures NodeOk(t.mem, t.own, q) {
      assert NodeOk(s.mem, s.own, q);
      NodePersists(s.mem, s.own, t.mem, t.own, q);
    }
    forall q ensures Untouched(s, t, q) {
    }
  }

  // ---------------------------------------------------------------- translations after fork

  /** The loops of copy_page_table get to the directory of `a`: no empty slot comes before it at either of
      the two upper levels. */
  predicate Reached(mem: Memory, r: nat, a: Address) {
    r in mem && a.pml < FirstEmpty(mem[r], 0) && a.pdpt < DirEnd(mem, r, a.pml)
  }

  function ShareLeaf(leaf: Option<Entry>): Option<Entry> {
    var e :- leaf;
    Some(Share(e))
  }

  /** The tables behind the walk of `a` in address space `r`, when there are any. */
  lemma WalkTables(s: Tables, c: nat, r: nat, a: Address)
    requires SoundBut(s, c) && IsRoot(s, r) && r != c && a.pml != SELF
    ensures r in s.mem
    ensures s.mem[r][a.pml] == EMPTY || (s.mem[r][a.pml].present && s.mem[r][a.pml].high == 0)
    ensures var p := PdptPage(s.mem, r, a);
            p.Some? ==> p.value in s.own && p.value in s.mem && s.own[p.value] == Pdpt(SpaceOf(r, a.pml), a.pml) &&
                        (s.mem[p.value][a.pdpt] == EMPTY || (s.mem[p.value][a.pdpt].present && s.mem[p.value][a.pdpt].high == 0))
    ensures var p := PdPage(s.mem, r, a);
            p.Some? ==> p.value in s.own && p.value in s.mem && s.own[p.value] == Pd(SpaceOf(r, a.pml), a.pml, a.pdpt) &&
                        (s.mem[p.value][a.pd] == EMPTY || (s.mem[p.value][a.pd].present && s.mem[p.value][a.pd].high == 0))
    ensures var p := PtPage(s.mem, r, a);
            p.Some? ==> p.value in s.own && p.value in s.mem && s.own[p.value] == Pt(SpaceOf(r, a.pml), a.pml, a.pdpt, a.pd)
  {
    assert NodeOk(s.mem, s.own, r);
    assert SlotOk(s.mem, s.own, r, a.pml);
    var p := PdptPage(s.mem, r, a);
    if p.Some? {
      assert NodeOk(s.mem, s.own, p.value);
      assert SlotOk(s.mem, s.own, p.value, a.pdpt);
      var q := PdPage(s.mem, r, a);
      if q.Some? {
        assert NodeOk(s.mem, s.own, q.value);
        assert SlotOk(s.mem, s.own, q.value, a.pd);
        var w := PtPage(s.mem, r, a);
        if w.Some? {
          assert NodeOk(s.mem, s.own, w.value);
        }
      }
    }
  }

  /** A walk that finds the same tables finds the same leaf. */
  lemma SameWalk(s: Tables, t: Tables, c: nat, r: nat, a: Address)
    requires SoundBut(s, c) && IsRoot(s, r) && r != c && a.pml != SELF
    requires forall q {:trigger q in s.own} :: q in s.own && q != c && OnWalk(s.own[q], r, a) ==>
               q in s.mem && q in t.mem && t.mem[q] == s.mem[q]
    ensures Leaf(t.mem, r, a) == Leaf(s.mem, r, a)
  {
    WalkTables(s, c, r, a);
  }

  /** The places a walk of `a` in address space `r` goes through. */
  predicate OnWalk(n: Node, r: nat, a: Address) {
    var sp := SpaceOf(r, a.pml);
    n == Pml(r) || n == Pdpt(sp, a.pml) || n == Pd(sp, a.pml, a.pdpt) || n == Pt(sp, a.pml, a.pdpt, a.pd)
  }

  lemma CopyKeepsOthers(s: Tables, t: Tables, r: nat, c: nat, r': nat, a: Address)
    requires SoundBut(s, c) && IsRoot(s, r) && r != c && PmlCopied(s, t, r, c, 0)
    requires IsRoot(s, r') && r' != c && a.pml != SELF
    requires r' != r || a.pml == 511 || !Reached(s.mem, r, a)
    ensures Leaf(t.mem, r', a) == Leaf(s.mem, r', a)
  {
    var end := FirstEmpty(s.mem[r], 0);
    forall q | q in s.own && q != c && OnWalk(s.own[q], r', a) ensures q in s.mem && q in t.mem && t.mem[q] == s.mem[q] {
      assert PmlKeeps(s, t, c, r, 0, end, q);
    }
    SameWalk(s, t, c, r', a);
  }

  /** A copied directory entry leads the child to the shared form of the parent's leaf. */
  lemma EntryLeaf(s: Tables, t: Tables, r: nat, c: nat, pd: nat, pd': nat, a: Address)
    requires PdPage(s.mem, r, a) == Some(pd) && PdPage(t.mem, c, a) == Some(pd') && EntryCopied(s, t, pd, pd', a.pd)
    requires s.mem[pd][a.pd] == EMPTY || (s.mem[pd][a.pd].present && s.mem[pd][a.pd].high == 0)
    ensures Leaf(t.mem, c, a) == ShareLeaf(Leaf(s.mem, r, a))
  {
    if s.mem[pd][a.pd] != EMPTY {
      SharedTableAt(s.mem[s.mem[pd][a.pd].frame], a.pt);
    }
  }

  /** A copied directory entry also leaves the parent with the shared form of its leaf. */
  lemma EntryLeafParent(s: Tables, t: Tables, r: nat, pd: nat, pd': nat, a: Address)
    requires PdPage(s.mem, r, a) == Some(pd) && PdPage(t.mem, r, a) == Some(pd) && EntryCopied(s, t, pd, pd', a.pd)
    requires pd in t.mem && t.mem[pd] == s.mem[pd]
    requires s.mem[pd][a.pd] == EMPTY || (s.mem[pd][a.pd].present && s.mem[pd][a.pd].high == 0)
    ensures Leaf(t.mem, r, a) == ShareLeaf(Leaf(s.mem, r, a))
  {
    if s.mem[pd][a.pd] != EMPTY {
      SharedTableAt(s.mem[s.mem[pd][a.pd].frame], a.pt);
    }
  }

  /** The pointer tables that the walks of `a` use after the copy. */
  lemma CopyPointers(s: Tables, t: Tables, r: nat, c: nat, a: Address) returns (p: nat, p': nat)
    requires SoundBut(s, c) && IsRoot(s, r) && r != c && PmlCopied(s, t, r, c, 0)
    requires a.pml < SELF && Reached(s.mem, r, a)
    ensures PdptPage(s.mem, r, a) == Some(p) && PdptPage(t.mem, r, a) == Some(p) && PdptPage(t.mem, c, a) == Some(p')
    ensures DirCopied(s, t, p, p', a.pdpt) && p in s.mem && p in t.mem && t.mem[p] == s.mem[p]
    ensures s.mem[p][a.pdpt].present && s.mem[p][a.pdpt].high == 0
  {
    var end := FirstEmpty(s.mem[r], 0);
    WalkTables(s, c, r, a);
    assert PmlKeeps(s, t, c, r, 0, end, r);
    p := PdptPage(s.mem, r, a).value;
    assert PmlKeeps(s, t, c, r, 0, end, p);
    assert TopCopied(s, t, r, c, a.pml);
    p' := t.mem[c][a.pml].frame;
    assert DirCopied(s, t, p, p', a.pdpt);
  }

  /** The copy leaves the parent's directory alone. */
  lemma DirectoryKept(s: Tables, t: Tables, r: nat, c: nat, a: Address, pd: nat)
    requires SoundBut(s, c) && IsRoot(s, r) && r != c && PmlCopied(s, t, r, c, 0)
    requires a.pml < SELF && PdPage(s.mem, r, a) == Some(pd)
    ensures pd in s.mem && pd in t.mem && t.mem[pd] == s.mem[pd]
    ensures s.mem[pd][a.pd] == EMPTY || (s.mem[pd][a.pd].present && s.mem[pd][a.pd].high == 0)
  {
    WalkTables(s, c, r, a);
    assert PmlKeeps(s, t, c, r, 0, FirstEmpty(s.mem[r], 0), pd);
  }

  /** The directories that the walks of `a` use after the copy. */
  lemma CopyDirectories(s: Tables, t: Tables, r: nat, c: nat, a: Address) returns (pd: nat, pd': nat)
    requires SoundBut(s, c) && IsRoot(s, r) && r != c && PmlCopied(s, t, r, c, 0)
    requires a.pml < SELF && Reached(s.mem, r, a)
    ensures PdPage(s.mem, r, a) == Some(pd) && PdPage(t.mem, r, a) == Some(pd) && PdPage(t.mem, c, a) == Some(pd')
    ensures EntryCopied(s, t, pd, pd', a.pd) && pd in s.mem && pd in t.mem && t.mem[pd] == s.mem[pd]
    ensures s.mem[pd][a.pd] == EMPTY || (s.mem[pd][a.pd].present && s.mem[pd][a.pd].high == 0)
  {
    var pdpt, pdpt' := CopyPointers(s, t, r, c, a);
    pd, pd' := s.mem[pdpt][a.pdpt].frame, t.mem[pdpt'][a.pdpt].frame;
    DirectoryKept(s, t, r, c, a, pd);
    assert EntryCopied(s, t, pd, pd', a.pd);
  }

  lemma CopySharesParent(s: Tables, t: Tables, r: nat, c: nat, a: Address)
    requires SoundBut(s, c) && IsRoot(s, r) && r != c && PmlCopied(s, t, r, c, 0)
    requires a.pml < SELF && Reached(s.mem, r, a)
    ensures Leaf(t.mem, r, a) == ShareLeaf(Leaf(s.mem, r, a))
  {
    var pd, pd' := CopyDirectories(s, t, r, c, a);
    EntryLeafParent(s, t, r, pd, pd', a);
  }

  lemma CopyGivesChild(s: Tables, t: Tables, r: nat, c: nat, a: Address)
    requires SoundBut(s, c) && IsRoot(s, r) && r != c && PmlCopied(s, t, r, c, 0)
    requires a.pml < FirstEmpty(s.mem[r], 0)
    ensures Leaf(t.mem, c, a) == if Reached(s.mem, r, a) then ShareLeaf(Leaf(s.mem, r, a)) else None
  {
    if Reached(s.mem, r, a) {
      var pd, pd' := CopyDirectories(s, t, r, c, a);
      EntryLeaf(s, t, r, c, pd, pd', a);
    } else {
      assert TopCopied(s, t, r, c, a.pml);
      assert t.mem[t.mem[c][a.pml].frame][a.pdpt] == EMPTY;
    }
  }

  lemma CloneLeaf(s: Tables, r: nat, r': nat, a: Address)
    requires Sound(s) && IsRoot(s, r) && Clone(s, r).Some? && a.pml != SELF && IsRoot(s, r')
    ensures Leaf(Clone(s, r).value.0.mem, r', a) == Leaf(s.mem, r', a)
  {
    CloneSound(s, r);
    WalkStaysInTree(s, r', a);
  }

  lemma CloneReached(s: Tables, r: nat, a: Address)
    requires Sound(s) && IsRoot(s, r) && Clone(s, r).Some? && a.pml != SELF
    ensures r in s.mem && r in Clone(s, r).value.0.mem && Clone(s, r).value.0.mem[r] == s.mem[r]
    ensures a.pml < FirstEmpty(s.mem[r], 0) ==> (Reached(Clone(s, r).value.0.mem, r, a) <==> Reached(s.mem, r, a))
  {
    CloneSound(s, r);
    assert NodeOk(s.mem, s.own, r);
    assert SlotOk(s.mem, s.own, r, a.pml);
    if s.mem[r][a.pml] != EMPTY {
      assert NodeOk(s.mem, s.own, s.mem[r][a.pml].frame);
    }
  }

  lemma CopyTranslatesOld(s: Tables, t: Tables, r: nat, c: nat, r': nat, a: Address)
    requires SoundBut(s, c) && IsRoot(s, r) && r != c && PmlCopied(s, t, r, c, 0)
    requires IsRoot(s, r') && r' != c && a.pml != SELF
    ensures Leaf(t.mem, r', a) ==
            if r' == r && a.pml < FirstEmpty(s.mem[r], 0) && Reached(s.mem, r, a) then ShareLeaf(Leaf(s.mem, r, a)) else Leaf(s.mem, r', a)
  {
    if r' == r && a.pml < FirstEmpty(s.mem[r], 0) && Reached(s.mem, r, a) {
      CopySharesParent(s, t, r, c, a);
    } else {
      CopyKeepsOthers(s, t, r, c, r', a);
    }
  }

  lemma CopyTranslatesChild(s: Tables, t: Tables, r: nat, c: nat, a: Address)
    requires SoundBut(s, c) && IsRoot(s, r) && r != c && PmlCopied(s, t, r, c, 0) && a.pml != SELF
    requires forall x: Index :: x != SELF ==> s.mem[c][x] == s.mem[r][x]
    ensures Leaf(t.mem, c, a) ==
            if a.pml < FirstEmpty(s.mem[r], 0) && !Reached(s.mem, r, a) then None else Leaf(t.mem, r, a)
  {
    if a.pml < FirstEmpty(s.mem[r], 0) {
      CopyGivesChild(s, t, r, c, a);
      if Reached(s.mem, r, a) {
        CopySharesParent(s, t, r, c, a);
      }
    } else {
      assert PmlKeeps(s, t, c, r, 0, FirstEmpty(s.mem[r], 0), r);
      assert t.mem[c][a.pml] == t.mem[r][a.pml];
    }
  }

  lemma ForkCopies(s: Tables, r: nat, user: bool)
    requires Sound(s) && IsRoot(s, r) && Forked(s, r, user).Some?
    ensures Clone(s, r).Some? && Clone(s, r).value.1 == Forked(s, r, user).value.1
    ensures var (t, c) := Clone(s, r).value;
            && SoundBut(t, c) && r != c && IsRoot(t, r) && PmlCopied(t, Forked(s, r, user).value.0, r, c, 0)
            && (forall x: Index :: x != SELF ==> t.mem[c][x] == t.mem[r][x])
  {
    CloneSound(s, r);
    var (t, c) := Clone(s, r).value;
    CopyPmlDone(t, r, c, 0, user);
  }

  /** Fork, page by page.  In the parent and in the child the pages that the loops reach name the same frame,
      read-only and marked copy-on-write; a page behind a gap in a pointer table stays with the parent only;
      a page behind a gap in the top-level table is reached through a table that both use.  Nothing else
      changes in the parent or in any other address space. */
  lemma ForkTranslates(s: Tables, r: nat, user: bool, r': nat, a: Address)
    requires Sound(s) && IsRoot(s, r) && Forked(s, r, user).Some? && a.pml != SELF && IsRoot(s, r')
    ensures r in s.mem
    ensures var (t, c) := Forked(s, r, user).value;
            && Leaf(t.mem, r', a) == (if r' == r && a.pml < FirstEmpty(s.mem[r], 0) && Reached(s.mem, r, a)
                                      then ShareLeaf(Leaf(s.mem, r, a)) else Leaf(s.mem, r', a))
            && Leaf(t.mem, c, a) == (if a.pml < FirstEmpty(s.mem[r], 0) && !Reached(s.mem, r, a)
                                     then None else Leaf(t.mem, r, a))
  {
    ForkCopies(s, r, user);
    CloneSound(s, r);
    var (t, c) := Clone(s, r).value;
    CloneLeaf(s, r, r', a);
    CloneReached(s, r, a);
    CopyTranslatesOld(t, Forked(s, r, user).value.0, r, c, r', a);
    CopyTranslatesChild(t, Forked(s, r, user).value.0, r, c, a);
  }

  // ---------------------------------------------------------------- separation

  /** The used user slots of the top-level table come before the unused ones. */
  predicate DenseTop(t: Table) {
    forall x: Index :: FirstEmpty(t, 0) <= x < SELF ==> t[x] == EMPTY
  }

  /** In sound tables, two address spaces have no user table in common, at any level. */
  lemma SpacesDisjoint(s: Tables, r: nat, a: Address, r': nat, b: Address)
    requires Sound(s) && IsRoot(s, r) && IsRoot(s, r') && r != r' && a.pml < SELF && b.pml < SELF
    ensures PdptPage(s.mem, r, a).Some? ==> PdptPage(s.mem, r, a) != PdptPage(s.mem, r', b)
    ensures PdPage(s.mem, r, a).Some? ==> PdPage(s.mem, r, a) != PdPage(s.mem, r', b)
    ensures PtPage(s.mem, r, a).Some? ==> PtPage(s.mem, r, a) != PtPage(s.mem, r', b)
  {
    WalkStaysInTree(s, r, a);
    WalkStaysInTree(s, r', b);
  }

  lemma ChildSlot(s: Tables, r: nat, user: bool, x: Index)
    requires Sound(s) && IsRoot(s, r) && Forked(s, r, user).Some? && x != SELF
    ensures r in s.mem
    ensures var (t, c) := Forked(s, r, user).value;
            && c in t.mem && r in t.mem && t.mem[r] == s.mem[r] && r != c && Extends(s.own, t.own)
            && (if x < FirstEmpty(s.mem[r], 0)
                then t.mem[c][x].present && t.mem[c][x].high == 0 && t.mem[c][x].frame in t.own &&
                     t.own[t.mem[c][x].frame] == Pdpt(User(c), x)
                else t.mem[c][x] == s.mem[r][x])
  {
    ForkCopies(s, r, user);
    CloneSound(s, r);
    var (t, c) := Clone(s, r).value;
    var u := Forked(s, r, user).value.0;
    assert PmlKeeps(t, u, c, r, 0, FirstEmpty(t.mem[r], 0), r);
    if x < FirstEmpty(s.mem[r], 0) {
      assert TopCopied(t, u, r, c, x);
    }
  }

  /** After fork from a dense address space the tables are sound again, with one more address space. */
  lemma ForkSound(s: Tables, r: nat, user: bool)
    requires Sound(s) && IsRoot(s, r) && Forked(s, r, user).Some? && r in s.mem && DenseTop(s.mem[r])
    ensures var (t, c) := Forked(s, r, user).value;
            && Sound(t) && IsRoot(t, c) && c !in s.own && c in s.mem && Took(s, t)
  {
    ForkCopies(s, r, user);
    CloneSound(s, r);
    var (m, c) := Clone(s, r).value;
    var t := Forked(s, r, user).value.0;
    TookTransitive(s, m, t);
    assert NodeOk(s.mem, s.own, r);
    assert Spare(s, c);
    forall x: Index ensures SlotOk(t.mem, t.own, c, x) {
      if x != SELF {
        ChildSlot(s, r, user, x);
        assert SlotOk(s.mem, s.own, r, x);
      }
    }
    assert NodeOk(t.mem, t.own, c);
    forall q | q in t.own ensures NodeOk(t.mem, t.own, q) {
    }
  }

  lemma OtherPlace(own: map<nat, Node>, e: Entry, f: Entry)
    requires e.high == 0 && f.high == 0 && e.frame in own && f.frame in own && own[e.frame] != own[f.frame]
    ensures e.Page() != f.Page()
  {
  }

  lemma SlotDiffers(s: Tables, t: Tables, r: nat, c: nat, x: Index)
    requires Sound(s) && IsRoot(s, r) && x < SELF && r != c && r in s.mem && Extends(s.own, t.own)
    requires c in t.mem && r in t.mem && t.mem[r] == s.mem[r]
    requires if x < FirstEmpty(s.mem[r], 0)
             then t.mem[c][x].present && t.mem[c][x].high == 0 && t.mem[c][x].frame in t.own &&
                  t.own[t.mem[c][x].frame] == Pdpt(User(c), x)
             else t.mem[c][x] == s.mem[r][x]
    ensures t.mem[r][x].present <==> s.mem[r][x] != EMPTY
    ensures t.mem[r][x].present ==> (t.mem[c][x].Page() != t.mem[r][x].Page() <==> x < FirstEmpty(s.mem[r], 0))
  {
    assert NodeOk(s.mem, s.own, r);
    assert SlotOk(s.mem, s.own, r, x);
    if s.mem[r][x] != EMPTY && x < FirstEmpty(s.mem[r], 0) {
      OtherPlace(t.own, t.mem[c][x], t.mem[r][x]);
    }
  }

  /** Parent and child refer to different tables in every user slot exactly when the parent is dense. */
  lemma ForkSeparates(s: Tables, r: nat, user: bool)
    requires Sound(s) && IsRoot(s, r) && Forked(s, r, user).Some?
    ensures r in s.mem && r in Forked(s, r, user).value.0.mem && Forked(s, r, user).value.1 in Forked(s, r, user).value.0.mem
    ensures var (t, c) := Forked(s, r, user).value;
            DenseTop(s.mem[r]) <==>
            forall x: Index :: x < SELF && t.mem[r][x].present ==> t.mem[c][x].Page() != t.mem[r][x].Page()
  {
    ChildSlot(s, r, user, 0);
    var (t, c) := Forked(s, r, user).value;
    assert NodeOk(s.mem, s.own, r);
    forall x: Index | x < SELF
      ensures t.mem[r][x].present ==> (t.mem[c][x].Page() != t.mem[r][x].Page() <==> x < FirstEmpty(s.mem[r], 0))
      ensures t.mem[r][x].present <==> s.mem[r][x] != EMPTY
    {
      ChildSlot(s, r, user, x);
      SlotDiffers(s, t, r, c, x);
    }
  }

  function NamedFrame(leaf: Option<Entry>): Option<nat> {
    var e :- leaf;
    Some(e.Page())
  }

  /** A mapped page of `r` that a copy reaches at the top level but not in its pointer table. */
  predicate BehindGap(s: Tables, r: nat, a: Address)
    requires r in s.mem
  {
    a.pml < FirstEmpty(s.mem[r], 0) && !Reached(s.mem, r, a) && Leaf(s.mem, r, a).Some?
  }

  lemma PreservesByCases(before: Option<Entry>, parent: Option<Entry>, child: Option<Entry>, top: bool, reached: bool)
    requires parent == if top && reached then ShareLeaf(before) else before
    requires child == if top && !reached then None else parent
    ensures NamedFrame(child) == NamedFrame(before) <==> !(top && !reached && before.Some?)
  {
  }

  /** A user page names the same frame in the child as in the parent before, unless it lies behind a gap in
      a pointer table. */
  lemma ForkPreserves(s: Tables, r: nat, user: bool, a: Address)
    requires Sound(s) && IsRoot(s, r) && Forked(s, r, user).Some? && a.pml != SELF
    ensures r in s.mem
    ensures NamedFrame(Leaf(Forked(s, r, user).value.0.mem, Forked(s, r, user).value.1, a)) == NamedFrame(Leaf(s.mem, r, a))
            <==> !BehindGap(s, r, a)
  {
    ForkTranslates(s, r, user, r, a);
    var (t, c) := Forked(s, r, user).value;
    PreservesByCases(Leaf(s.mem, r, a), Leaf(t.mem, r, a), Leaf(t.mem, c, a), a.pml < FirstEmpty(s.mem[r], 0), Reached(s.mem, r, a));
  }

  // ---------------------------------------------------------------- clear_page_tables

  /** The loop over a directory: blank every page table and empty the slot. */
  function ClearPd(mem: Memory, pd: nat, k: nat): Option<Memory>
    requires k <= 512
    decreases 512 - k
  {
    if k == 512 then Some(mem)
    else if pd !in mem then None
    else if mem[pd][k] == EMPTY then ClearPd(mem, pd, k + 1)
    else
      var page := mem[pd][k].Page();
      if page !in mem then None
      else
        var blanked := mem[page := Cleared(mem[page], 512)];
        ClearPd(Store(blanked, pd, k, EMPTY), pd, k + 1)
  }

  /** The loop over a pointer table, up to the first empty slot. */
  function ClearPdpt(mem: Memory, pdpt: nat, j: nat): Option<Memory>
    requires j <= 512
    decreases 512 - j
  {
    if j == 512 || pdpt !in mem then None
    else if mem[pdpt][j] == EMPTY then Some(mem)
    else
      var m :- ClearPd(Store(mem, pdpt, j, EMPTY), mem[pdpt][j].Page(), 0);
      ClearPdpt(m, pdpt, j + 1)
  }

  /** The loop over the top-level table, up to the first empty slot. */
  function ClearPml(mem: Memory, r: nat, i: nat): Option<Memory>
    requires i <= SELF
    decreases SELF - i
  {
    if i == SELF || r !in mem then None
    else if mem[r][i] == EMPTY then Some(mem)
    else
      var m :- ClearPdpt(Store(mem, r, i, EMPTY), mem[r][i].Page(), 0);
      ClearPml(m, r, i + 1)
  }

  predicate BelongsTo(n: Node, r: nat) {
    if n.Pml? then n.root == r else n.space == User(r)
  }

  /** Clearing only empties entries of the tables of `r`, no kernel slot, and below the top level (`top`
      false) no entry of the top-level table. */
  ghost predicate Wiped(own: map<nat, Node>, mem: Memory, mem': Memory, r: nat, top: bool, q: nat) {
    q in mem ==>
      && q in mem'
      && (if q in own && BelongsTo(own[q], r) && (own[q].Pml? ==> top)
          then forall x: Index :: mem'[q][x] == mem[q][x] || (mem'[q][x] == EMPTY && (own[q].Pml? ==> x < SELF))
          else mem'[q] == mem[q])
  }

  ghost predicate WipedAll(own: map<nat, Node>, mem: Memory, mem': Memory, r: nat, top: bool) {
    mem'.Keys == mem.Keys && forall q {:trigger Wiped(own, mem, mem', r, top, q)} :: Wiped(own, mem, mem', r, top, q)
  }

  lemma WipedTransitive(own: map<nat, Node>, m0: Memory, m1: Memory, m2: Memory, r: nat, top: bool)
    requires WipedAll(own, m0, m1, r, top) && WipedAll(own, m1, m2, r, top)
    ensures WipedAll(own, m0, m2, r, top)
  {
    forall q ensures Wiped(own, m0, m2, r, top, q) {
      assert Wiped(own, m0, m1, r, top, q) && Wiped(own, m1, m2, r, top, q);
    }
  }

  lemma WipedBelowTop(own: map<nat, Node>, mem: Memory, mem': Memory, r: nat)
    requires WipedAll(own, mem, mem', r, false)
    ensures WipedAll(own, mem, mem', r, true)
  {
    forall q ensures Wiped(own, mem, mem', r, true, q) {
      assert Wiped(own, mem, mem', r, false, q);
    }
  }

  /** Emptying entries keeps the trees. */
  lemma WipedOwned(own: map<nat, Node>, mem: Memory, mem': Memory, r: nat, top: bool)
    requires Owned(mem, own) && WipedAll(own, mem, mem', r, top)
    ensures Owned(mem', own)
  {
    forall q | q in own ensures NodeOk(mem', own, q) {
      assert NodeOk(mem, own, q);
      assert Wiped(own, mem, mem', r, top, q);
      forall x: Index ensures SlotOk(mem', own, q, x) {
        assert SlotOk(mem, own, q, x);
      }
    }
  }

  /** Emptying one slot of a table of `r`. */
  lemma EmptySlotWipes(own: map<nat, Node>, mem: Memory, r: nat, q: nat, x: Index)
    requires q in own && q in mem && BelongsTo(own[q], r) && (own[q].Pml? ==> x < SELF)
    ensures WipedAll(own, mem, Store(mem, q, x, EMPTY), r, own[q].Pml?)
  {
    forall p ensures Wiped(own, mem, Store(mem, q, x, EMPTY), r, own[q].Pml?, p) {
    }
  }

  lemma {:induction false} ClearPdDone(own: map<nat, Node>, mem: Memory, r: nat, pd: nat, i: Index, j: Index, k: nat)
    requires k <= 512 && Owned(mem, own) && pd in own && own[pd] == Pd(User(r), i, j)
    ensures var m := ClearPd(mem, pd, k);
            m.Some? ==> WipedAll(own, mem, m.value, r, false)
    decreases 512 - k
  {
    assert NodeOk(mem, own, pd);
    if k < 512 {
      if mem[pd][k] == EMPTY {
        ClearPdDone(own, mem, r, pd, i, j, k + 1);
      } else if ClearPd(mem, pd, k).Some? {
        assert SlotOk(mem, own, pd, k);
        var page := mem[pd][k].Page();
        var blanked := mem[page := Cleared(mem[page], 512)];
        var m := Store(blanked, pd, k, EMPTY);
        forall q ensures Wiped(own, mem, m, r, false, q) {
        }
        WipedOwned(own, mem, m, r, false);
        ClearPdDone(own, m, r, pd, i, j, k + 1);
        WipedTransitive(own, mem, m, ClearPd(mem, pd, k).value, r, false);
      }
    }
  }

  lemma {:induction false} ClearPdptDone(own: map<nat, Node>, mem: Memory, r: nat, pdpt: nat, i: Index, j: nat)
    requires j <= 512 && Owned(mem, own) && pdpt in own && own[pdpt] == Pdpt(User(r), i)
    ensures var m := ClearPdpt(mem, pdpt, j);
            m.Some? ==> WipedAll(own, mem, m.value, r, false)
    decreases 512 - j
  {
    assert NodeOk(mem, own, pdpt);
    var result := ClearPdpt(mem, pdpt, j);
    if result.Some? {
      if mem[pdpt][j] == EMPTY {
        forall q ensures Wiped(own, mem, mem, r, false, q) {
        }
      } else {
        assert SlotOk(mem, own, pdpt, j);
        var m1 := Store(mem, pdpt, j, EMPTY);
        EmptySlotWipes(own, mem, r, pdpt, j);
        WipedOwned(own, mem, m1, r, false);
        ClearPdDone(own, m1, r, mem[pdpt][j].Page(), i, j, 0);
        var m2 := ClearPd(m1, mem[pdpt][j].Page(), 0).value;
        WipedOwned(own, m1, m2, r, false);
        ClearPdptDone(own, m2, r, pdpt, i, j + 1);
        WipedTransitive(own, mem, m1, m2, r, false);
        WipedTransitive(own, mem, m2, result.value, r, false);
      }
    }
  }

  /** What clearing did to the top-level table, from slot `i` on, and to everything else. */
  ghost predicate TopCleared(own: map<nat, Node>, mem: Memory, m: Memory, r: nat, i: nat)
    requires i <= 512
  {
    && WipedAll(own, mem, m, r, true) && r in mem && r in m && FirstEmpty(mem[r], i) < SELF
    && (forall x: Index {:trigger m[r][x]} :: m[r][x] == if i <= x < FirstEmpty(mem[r], i) then EMPTY else mem[r][x])
  }

  lemma ClearTopRound(own: map<nat, Node>, mem: Memory, r: nat, i: Index)
    requires Owned(mem, own) && r in own && own[r] == Pml(r) && r in mem && i < SELF && mem[r][i] != EMPTY
    ensures var m := ClearPdpt(Store(mem, r, i, EMPTY), mem[r][i].Page(), 0);
            m.Some? ==> WipedAll(own, mem, m.value, r, true) && Owned(m.value, own) && r in m.value &&
                        m.value[r] == mem[r][i := EMPTY]
  {
    assert NodeOk(mem, own, r);
    assert SlotOk(mem, own, r, i);
    var m1 := Store(mem, r, i, EMPTY);
    EmptySlotWipes(own, mem, r, r, i);
    WipedOwned(own, mem, m1, r, true);
    ClearPdptDone(own, m1, r, mem[r][i].Page(), i, 0);
    var m2 := ClearPdpt(m1, mem[r][i].Page(), 0);
    if m2.Some? {
      assert Wiped(own, m1, m2.value, r, false, r);
      WipedOwned(own, m1, m2.value, r, false);
      WipedBelowTop(own, m1, m2.value, r);
      WipedTransitive(own, mem, m1, m2.value, r, true);
    }
  }

  /** Clearing empties the top-level slots up to the first empty one, keeps the others, and otherwise only
      empties entries of the tables of this address space. */
  lemma {:induction false} ClearPmlDone(own: map<nat, Node>, mem: Memory, r: nat, i: nat)
    requires i <= SELF && Owned(mem, own) && r in own && own[r] == Pml(r) && r in mem
    ensures var m := ClearPml(mem, r, i);
            m.Some? ==> TopCleared(own, mem, m.value, r, i)
    decreases SELF - i
  {
    var result := ClearPml(mem, r, i);
    if result.Some? {
      if mem[r][i] == EMPTY {
        forall q ensures Wiped(own, mem, mem, r, true, q) {
        }
      } else {
        ClearTopRound(own, mem, r, i);
        var m := ClearPdpt(Store(mem, r, i, EMPTY), mem[r][i].Page(), 0).value;
        ClearPmlDone(own, m, r, i + 1);
        WipedTransitive(own, mem, m, result.value, r, true);
        FirstEmptyAfter(mem[r], m[r], i);
      }
    }
  }

  lemma {:induction false} FirstEmptyAgrees(t: Table, u: Table, x: nat)
    requires x <= 512 && forall y: Index :: y >= x ==> t[y] == u[y]
    ensures FirstEmpty(t, x) == FirstEmpty(u, x)
    decreases 512 - x
  {
    if x < 512 && t[x] != EMPTY {
      FirstEmptyAgrees(t, u, x + 1);
    }
  }

  lemma FirstEmptyAfter(t: Table, u: Table, i: Index)
    requires t[i] != EMPTY && forall y: Index :: y > i ==> t[y] == u[y]
    ensures FirstEmpty(t, i) == FirstEmpty(u, i + 1)
  {
    FirstEmptyAgrees(t, u, i + 1);
  }

  /** exec's clear, page by page: the pages under the used slots are gone, no other address space and no
      kernel page notices, and a user slot survives exactly when it lies behind a gap. */
  lemma ClearTranslates(s: Tables, r: nat, r': nat, a: Address)
    requires Sound(s) && IsRoot(s, r) && IsRoot(s, r') && a.pml != SELF && r in s.mem && ClearPml(s.mem, r, 0).Some?
    ensures var t := s.(mem := ClearPml(s.mem, r, 0).value);
            && Sound(t) && r in t.mem && t.mem.Keys == s.mem.Keys
            && (forall q {:trigger Untouched(s, t, q)} :: Untouched(s, t, q))
            && (r' == r && a.pml < FirstEmpty(s.mem[r], 0) ==> Leaf(t.mem, r, a).None?)
            && (r' != r || a.pml == 511 ==> Leaf(t.mem, r', a) == Leaf(s.mem, r', a))
            && (a.pml < SELF ==> (t.mem[r][a.pml] != EMPTY <==> a.pml > FirstEmpty(s.mem[r], 0) && s.mem[r][a.pml] != EMPTY))
  {
    ClearPmlDone(s.own, s.mem, r, 0);
    var t := s.(mem := ClearPml(s.mem, r, 0).value);
    WipedOwned(s.own, s.mem, t.mem, r, true);
    forall n | t.next <= n < |t.pages| ensures Spare(t, t.pages[n]) {
      assert Spare(s, s.pages[n]);
      assert Wiped(s.own, s.mem, t.mem, r, true, s.pages[n]);
    }
    forall q ensures Untouched(s, t, q) {
      assert Wiped(s.own, s.mem, t.mem, r, true, q);
    }
    if r' != r || a.pml == 511 {
      WipedElsewhere(s, t, r, r', a);
    }
  }

  lemma WipedElsewhere(s: Tables, t: Tables, r: nat, r': nat, a: Address)
    requires Sound(s) && IsRoot(s, r) && IsRoot(s, r') && a.pml != SELF && r in s.mem
    requires WipedAll(s.own, s.mem, t.mem, r, true) && r in t.mem && t.mem[r][511] == s.mem[r][511]
    requires r' != r || a.pml == 511
    ensures Leaf(t.mem, r', a) == Leaf(s.mem, r', a)
  {
    WalkStaysInTree(s, r', a);
    assert Wiped(s.own, s.mem, t.mem, r, true, r');
    var p := PdptPage(s.mem, r', a);
    if p.Some? {
      assert NodeOk(s.mem, s.own, p.value);
      assert Wiped(s.own, s.mem, t.mem, r, true, p.value);
      var q := PdPage(s.mem, r', a);
      if q.Some? {
        assert NodeOk(s.mem, s.own, q.value);
        assert Wiped(s.own, s.mem, t.mem, r, true, q.value);
        var w := PtPage(s.mem, r', a);
        if w.Some? {
          assert Wiped(s.own, s.mem, t.mem, r, true, w.value);
        }
      }
    }
  }
}

/** The virtual-memory manager as it runs: table pages are rewritten in place, entry by entry. */
module Vmm {
  import opened Options
  import opened PageBits
  import opened PageTables
  import opened ForkTables
  import opened ForkSpaces

  /** A page table whose first `l` entries have been shared. */
  ghost function SharedFirst(t: Table, l: nat): Table {
    seq(512, x requires 0 <= x < 512 => if x < l then Share(t[x]) else t[x])
  }

  lemma SharedFirstStep(t: Table, l: Index)
    ensures SharedFirst(t, l)[l := Share(t[l])] == SharedFirst(t, l + 1)
    ensures SharedFirst(t, l)[l] == t[l] && SharedFirst(t, l + 1)[l := Share(Share(t[l]))] == SharedFirst(t, l + 1)
  {
  }

  lemma CopyPmlStep(s: Tables, r: nat, c: nat, i: nat, user: bool)
    requires i < SELF && r in s.mem && c in s.mem && s.mem[r][i] != EMPTY
    ensures var t := CopyTop(s, r, c, i, user);
            CopyPml(s, r, c, i, user) == if t.None? then None else CopyPml(t.value, r, c, i + 1, user)
  {
  }

  /** The part of physical memory that holds tables, the pages that sub_malloc(0, 1) hands out in order and
      how many it has handed out.  A method that returns false is one that panics or walks off a table. */
  class Manager {
    var mem: Memory
    var pages: seq<nat>
    var next: nat
    ghost var own: map<nat, Node>

    ghost function State(): Tables
      reads this
    {
      Tables(mem, pages, next, own)
    }

    /** Take a page for a table and memset its first words. */
    method Take(ghost n: Node, words: nat) returns (ok: bool, p: nat)
      requires words <= 512
      modifies this
      ensures NewTable(old(State()), n, words) == if ok then Some((State(), p)) else None
    {
      if next >= |pages| || pages[next] !in mem {
        return false, 0;
      }
      p := pages[next];
      next := next + 1;
      own := own[p := n];
      ghost var before := mem;
      assert Cleared(before[p], 0) == before[p];
      for x := 0 to words
        invariant p in mem && mem == before[p := Cleared(before[p], x)]
        invariant pages == old(pages) && next == old(next) + 1 && own == old(own)[p := n]
      {
        mem := Store(mem, p, x, EMPTY);
        assert mem[p] == Cleared(before[p], x + 1);
      }
      ok := true;
    }

    /** The table behind a slot, created when the slot has none. */
    method Enter(page: nat, slot: Index, ghost n: Node, words: nat, user: bool) returns (ok: bool, p: nat)
      requires words <= 512
      modifies this
      ensures Descend(old(State()), page, slot, n, words, user) == if ok then Some((State(), p)) else None
    {
      if page !in mem {
        return false, 0;
      }
      if mem[page][slot].present {
        return true, mem[page][slot].Page();
      }
      ok, p := Take(n, words);
      if ok {
        mem := Store(mem, page, slot, SetEntry(mem[page][slot], p, user));
        p := mem[page][slot].Page();
      }
    }

    /** vmmgr_map_page. */
    method MapPage(root: nat, a: Address, frame: nat) returns (ok: bool)
      modifies this
      ensures MapWalk(old(State()), root, a, frame, false) == if ok then Some(State()) else None
    {
      ghost var sp := SpaceOf(root, a.pml);
      var pdpt, pd, pt;
      ok, pdpt := Enter(root, a.pml, Pdpt(sp, a.pml), 512, false);
      if !ok { return; }
      ok, pd := Enter(pdpt, a.pdpt, Pd(sp, a.pml, a.pdpt), 512, false);
      if !ok { return; }
      ok, pt := Enter(pd, a.pd, Pt(sp, a.pml, a.pdpt, a.pd), 1, false);
      if !ok { return; }
      if pt !in mem {
        return false;
      }
      mem := Store(mem, pt, a.pt, SetEntry(mem[pt][a.pt], frame, false));
    }

    /** Fill the entry at a virtual address with a new table, when it is not present. */
    method Fill(root: nat, a: Address, ghost n: Node, words: nat, user: bool) returns (ok: bool)
      requires words <= 512
      modifies this
      ensures FillAt(old(State()), root, a, n, words, user) == if ok then Some(State()) else None
    {
      var e := Load(mem, root, a);
      if e.None? {
        return false;
      }
      if e.value.present {
        return true;
      }
      var p;
      ok, p := Take(n, words);
      if !ok { return; }
      e := Load(mem, root, a);
      if e.None? {
        return false;
      }
      var m := StoreAt(mem, root, a, SetEntry(e.value, p, user));
      if m.None? {
        return false;
      }
      mem := m.value;
    }

    /** vmmgr_map_page_after_paging. */
    method MapPageAfterPaging(root: nat, v: Word, frame: nat, user: bool) returns (ok: bool)
      modifies this
      ensures MapWindow(old(State()), root, v, frame, user) == if ok then Some(State()) else None
    {
      ghost var a := Split(v);
      ghost var sp := SpaceOf(root, a.pml);
      ok := Fill(root, Split(PmlEntryAddress(v)), Pdpt(sp, a.pml), 512, user);
      if !ok { return; }
      ok := Fill(root, Split(PdptEntryAddress(v)), Pd(sp, a.pml, a.pdpt), 512, user);
      if !ok { return; }
      ok := Fill(root, Split(PdEntryAddress(v)), Pt(sp, a.pml, a.pdpt, a.pd), 1, user);
      if !ok { return; }
      var e := Load(mem, root, Split(PtEntryAddress(v)));
      if e.None? {
        return false;
      }
      var m := StoreAt(mem, root, Split(PtEntryAddress(v)), SetEntry(e.value, frame, user));
      if m.None? {
        return false;
      }
      mem := m.value;
    }

    /** fork's page for the child's top-level table, and clone_pgdir. */
    method ClonePgdir(r: nat) returns (ok: bool, c: nat)
      modifies this
      ensures Clone(old(State()), r) == if ok then Some((State(), c)) else None
    {
      if next >= |pages| || pages[next] !in mem || r !in mem {
        return false, 0;
      }
      c := pages[next];
      next := next + 1;
      own := own[c := Pml(c)];
      ghost var before := mem;
      for i := 0 to 512
        invariant mem.Keys == before.Keys && mem == before[c := mem[c]] && mem[r] == before[r]
        invariant forall x: Index :: x < i ==> mem[c][x] == before[r][x]
        invariant pages == old(pages) && next == old(next) + 1 && own == old(own)[c := Pml(c)]
      {
        mem := Store(mem, c, i, mem[r][i]);
      }
      assert mem[c] == before[r];
      mem := Store(mem, c, SELF, SetEntry(EMPTY, c, true));
      assert mem == before[c := before[r][SELF := SetEntry(EMPTY, c, true)]];
      ok := true;
    }

    /** copy_page_table's memcpy of a page table and its loop over the 512 entries of both tables. */
    method ShareTable(p: nat, page: nat)
      requires p in mem && page in mem
      modifies this`mem
      ensures mem == old(mem)[p := SharedTable(old(mem)[page])][page := SharedTable(old(mem)[page])]
    {
      ghost var t := mem[page];
      mem := mem[p := mem[page]];
      assert SharedFirst(t, 0) == t;
      for l := 0 to 512
        invariant mem == old(mem)[p := SharedFirst(t, l)][page := SharedFirst(t, l)]
      {
        SharedFirstStep(t, l);
        mem := Store(mem, p, l, Share(mem[p][l]));
        mem := Store(mem, page, l, Share(mem[page][l]));
      }
      assert SharedFirst(t, 512) == SharedTable(t);
    }

    /** A new table in slot `x` of `dst`. */
    method Hang(dst: nat, x: Index, ghost n: Node, words: nat, user: bool) returns (ok: bool, p: nat)
      requires dst in mem && words <= 512
      modifies this
      ensures ok == CanTake(old(State()))
      ensures ok ==> p == old(pages[next]) && State() == WithTable(old(State()), dst, x, n, words, user)
    {
      ok, p := Take(n, words);
      if ok {
        mem := Store(mem, dst, x, SetEntry(mem[dst][x], p, user));
      }
    }

    /** copy_page_table's loop over a page directory. */
    method CopyTables(ghost c: nat, src: nat, dst: nat, ghost i: Index, ghost j: Index, user: bool) returns (ok: bool)
      modifies this
      ensures CopyPd(old(State()), c, src, dst, i, j, 0, user) == if ok then Some(State()) else None
    {
      var k := 0;
      while k < 512
        invariant k <= 512
        invariant CopyPd(State(), c, src, dst, i, j, k, user) == CopyPd(old(State()), c, src, dst, i, j, 0, user)
      {
        if src !in mem || dst !in mem {
          return false;
        }
        if mem[src][k] != EMPTY {
          var p;
          ok, p := Hang(dst, k, Pt(User(c), i, j, k), 1, user);
          if !ok || mem[src][k].Page() !in mem {
            return false;
          }
          ShareTable(p, mem[src][k].Page());
        }
        k := k + 1;
      }
      ok := true;
    }

    /** copy_page_table's loop over a page-directory-pointer table. */
    method CopyDirectories(ghost c: nat, src: nat, dst: nat, ghost i: Index, user: bool) returns (ok: bool)
      modifies this
      ensures CopyPdpt(old(State()), c, src, dst, i, 0, user) == if ok then Some(State()) else None
    {
      var j := 0;
      while j < 512 && src in mem && dst in mem && mem[src][j] != EMPTY
        invariant j <= 512
        invariant CopyPdpt(State(), c, src, dst, i, j, user) == CopyPdpt(old(State()), c, src, dst, i, 0, user)
        decreases 512 - j
      {
        var p;
        ok, p := Hang(dst, j, Pd(User(c), i, j), 512, user);
        if !ok {
          return;
        }
        ok := CopyTables(c, mem[src][j].Page(), p, i, j, user);
        if !ok {
          return;
        }
        j := j + 1;
      }
      ok := j < 512 && src in mem && dst in mem;
    }

    /** One round of copy_page_table's loop over the top-level table. */
    method CopySlot(r: nat, c: nat, i: Index, user: bool) returns (ok: bool)
      requires r in mem && c in mem
      modifies this
      ensures CopyTop(old(State()), r, c, i, user) == if ok then Some(State()) else None
    {
      var p;
      ok, p := Hang(c, i, Pdpt(User(c), i), 512, user);
      if ok {
        ok := CopyDirectories(c, mem[r][i].Page(), p, i, user);
      }
    }

    /** copy_page_table. */
    method CopyPageTable(r: nat, c: nat, user: bool) returns (ok: bool)
      modifies this
      ensures CopyPml(old(State()), r, c, 0, user) == if ok then Some(State()) else None
    {
      var i := 0;
      while i < SELF && r in mem && c in mem && mem[r][i] != EMPTY
        invariant i <= SELF
        invariant CopyPml(State(), r, c, i, user) == CopyPml(old(State()), r, c, 0, user)
        decreases SELF - i
      {
        CopyPmlStep(State(), r, c, i, user);
        ok := CopySlot(r, c, i, user);
        if !ok {
          return;
        }
        i := i + 1;
      }
      ok := i < SELF && r in mem && c in mem;
    }

    /** fork's two calls. */
    method Fork(r: nat) returns (ok: bool, c: nat)
      modifies this
      ensures Forked(old(State()), r, true) == if ok then Some((State(), c)) else None
    {
      ok, c := ClonePgdir(r);
      if ok {
        ok := CopyPageTable(r, c, true);
      }
    }

    /** clear_page_tables' loop over a page directory. */
    method ClearTables(pd: nat) returns (ok: bool)
      modifies this`mem
      ensures ClearPd(old(mem), pd, 0) == if ok then Some(mem) else None
    {
      var k := 0;
      while k < 512
        invariant k <= 512
        invariant ClearPd(mem, pd, k) == ClearPd(old(mem), pd, 0)
      {
        if pd !in mem {
          return false;
        }
        if mem[pd][k] != EMPTY {
          var page := mem[pd][k].Page();
          if page !in mem {
            return false;
          }
          mem := mem[page := Cleared(mem[page], 512)];
          mem := Store(mem, pd, k, EMPTY);
        }
        k := k + 1;
      }
      ok := true;
    }

    /** clear_page_tables' loop over a page-directory-pointer table. */
    method ClearDirectories(pdpt: nat) returns (ok: bool)
      modifies this`mem
      ensures ClearPdpt(old(mem), pdpt, 0) == if ok then Some(mem) else None
    {
      var j := 0;
      while j < 512 && pdpt in mem && mem[pdpt][j] != EMPTY
        invariant j <= 512
        invariant ClearPdpt(mem, pdpt, j) == ClearPdpt(old(mem), pdpt, 0)
        decreases 512 - j
      {
        var pd := mem[pdpt][j].Page();
        mem := Store(mem, pdpt, j, EMPTY);
        ok := ClearTables(pd);
        if !ok {
          return;
        }
        j := j + 1;
      }
      ok := j < 512 && pdpt in mem;
    }

    /** clear_page_tables. */
    method ClearPageTables(r: nat) returns (ok: bool)
      modifies this`mem
      ensures ClearPml(old(mem), r, 0) == if ok then Some(mem) else None
    {
      var i := 0;
      while i < SELF && r in mem && mem[r][i] != EMPTY
        invariant i <= SELF
        invariant ClearPml(mem, r, i) == ClearPml(old(mem), r, 0)
        decreases SELF - i
      {
        var pdpt := mem[r][i].Page();
        mem := Store(mem, r, i, EMPTY);
        ok := ClearDirectories(pdpt);
        if !ok {
          return;
        }
        i := i + 1;
      }
      ok := i < SELF && r in mem;
    }
  }
}

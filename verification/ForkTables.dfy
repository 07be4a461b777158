/** fork's page-table copy: the loops of copy_page_table, table by table. */
module ForkTables {
  import opened Options
  import opened PageBits
  import opened PageTables

  // ---------------------------------------------------------------- what the loops compute

  /** A page table with every entry made read-only and marked copy-on-write. */
  function SharedTable(t: Table): Table {
    seq(512, x requires 0 <= x < 512 => Share(t[x]))
  }

  /** The allocator has a page to give. */
  predicate CanTake(s: Tables) {
    s.next < |s.pages| && s.pages[s.next] in s.mem
  }

  /** The next page becomes a table at place `n`, its first `words` entries cleared, and slot `x` of `dst`
      refers to it. */
  function WithTable(s: Tables, dst: nat, x: Index, n: Node, words: nat, user: bool): Tables
    requires CanTake(s) && dst in s.mem && words <= 512
  {
    var p := s.pages[s.next];
    var mem := s.mem[p := Cleared(s.mem[p], words)];
    Tables(Store(mem, dst, x, SetEntry(mem[dst][x], p, user)), s.pages, s.next + 1, s.own[p := n])
  }

  /** One round of the loop over a page directory: copy the page table behind slot `k` and share its pages. */
  function CopyEntry(s: Tables, c: nat, src: nat, dst: nat, i: Index, j: Index, k: Index, user: bool): Option<Tables>
    requires src in s.mem && dst in s.mem
  {
    if s.mem[src][k] == EMPTY then Some(s)
    else if !CanTake(s) then None
    else
      var t := WithTable(s, dst, k, Pt(User(c), i, j, k), 1, user);
      var page := t.mem[src][k].Page();
      if page !in t.mem then None
      else
        var shared := SharedTable(t.mem[page]);
        Some(t.(mem := t.mem[s.pages[s.next] := shared][page := shared]))
  }

  /** The loop over the 512 slots of a page directory, from slot `k` on. */
  function CopyPd(s: Tables, c: nat, src: nat, dst: nat, i: Index, j: Index, k: nat, user: bool): Option<Tables>
    requires k <= 512
    decreases 512 - k
  {
    if k == 512 then Some(s)
    else if src !in s.mem || dst !in s.mem then None
    else
      var t :- CopyEntry(s, c, src, dst, i, j, k, user);
      CopyPd(t, c, src, dst, i, j, k + 1, user)
  }

  /** One round of the loop over a page-directory-pointer table. */
  function CopyDir(s: Tables, c: nat, src: nat, dst: nat, i: Index, j: Index, user: bool): Option<Tables>
    requires src in s.mem && dst in s.mem
  {
    if !CanTake(s) then None
    else
      var t := WithTable(s, dst, j, Pd(User(c), i, j), 512, user);
      CopyPd(t, c, t.mem[src][j].Page(), s.pages[s.next], i, j, 0, user)
  }

  /** The loop over a page-directory-pointer table stops at the first empty slot; a table without one would
      make it run off the page. */
  function CopyPdpt(s: Tables, c: nat, src: nat, dst: nat, i: Index, j: nat, user: bool): Option<Tables>
    requires j <= 512
    decreases 512 - j
  {
    if j == 512 || src !in s.mem || dst !in s.mem then None
    else if s.mem[src][j] == EMPTY then Some(s)
    else
      var t :- CopyDir(s, c, src, dst, i, j, user);
      CopyPdpt(t, c, src, dst, i, j + 1, user)
  }

  /** One round of the loop over the top-level table. */
  function CopyTop(s: Tables, r: nat, c: nat, i: Index, user: bool): Option<Tables>
    requires r in s.mem && c in s.mem
  {
    if !CanTake(s) then None
    else
      var t := WithTable(s, c, i, Pdpt(User(c), i), 512, user);
      CopyPdpt(t, c, t.mem[r][i].Page(), s.pages[s.next], i, 0, user)
  }

  /** The loop over the top-level table, which also stops at the first empty slot; it must do so before the
      self-referencing slot. */
  function CopyPml(s: Tables, r: nat, c: nat, i: nat, user: bool): Option<Tables>
    requires i <= SELF
    decreases SELF - i
  {
    if i == SELF || r !in s.mem || c !in s.mem then None
    else if s.mem[r][i] == EMPTY then Some(s)
    else
      var t :- CopyTop(s, r, c, i, user);
      CopyPml(t, r, c, i + 1, user)
  }

  /** The first empty slot at or after `x`, or 512. */
  function FirstEmpty(t: Table, x: nat): (r: nat)
    requires x <= 512
    ensures x <= r <= 512
    ensures forall y: Index :: x <= y < r ==> t[y] != EMPTY
    ensures r < 512 ==> t[r] == EMPTY
    decreases 512 - x
  {
    if x == 512 || t[x] == EMPTY then x else FirstEmpty(t, x + 1)
  }

  // ---------------------------------------------------------------- invariants of the copy

  /** The trees are sound but for the top-level table of the child, which is still being filled. */
  ghost predicate SoundBut(s: Tables, c: nat) {
    && HeapOk(s) && IsRoot(s, c) && c in s.mem && SelfMapped(s.mem, c)
    && (forall p {:trigger NodeOk(s.mem, s.own, p)} :: p in s.own && p != c ==> NodeOk(s.mem, s.own, p))
  }

  /** Pages moved from the allocator into the trees; what is not a table stayed. */
  ghost predicate Took(s: Tables, t: Tables) {
    && t.pages == s.pages && s.next <= t.next && Extends(s.own, t.own) && t.mem.Keys == s.mem.Keys
    && (forall q {:trigger Untouched(s, t, q)} :: Untouched(s, t, q))
  }

  lemma TookTransitive(s: Tables, t: Tables, u: Tables)
    requires Took(s, t) && Took(t, u)
    ensures Took(s, u)
  {
    forall q ensures Untouched(s, u, q) {
      assert Untouched(s, t, q) && Untouched(t, u, q);
    }
  }

  /** The page tables of the parent that a copy starting at a given place still has to share. */
  predicate Ahead(n: Node, r: nat, i: nat, j: nat, k: nat) {
    n.Pt? && n.space == User(r) && n.i == i && n.j == j && n.k >= k
  }

  ghost predicate PdKeeps(s: Tables, t: Tables, dst: nat, r: nat, i: nat, j: nat, k: nat, q: nat) {
    q in s.own && q != dst && !Ahead(s.own[q], r, i, j, k) ==> q in s.mem && q in t.mem && t.mem[q] == s.mem[q]
  }

  /** Slot `x` of the child's directory leads to a shared copy of what the parent's leads to. */
  ghost predicate EntryCopied(s: Tables, t: Tables, src: nat, dst: nat, x: Index) {
    && src in s.mem && dst in t.mem
    && (s.mem[src][x] == EMPTY ==> t.mem[dst][x] == EMPTY)
    && (s.mem[src][x] != EMPTY ==>
          var a, b := s.mem[src][x].frame, t.mem[dst][x].frame;
          && t.mem[dst][x].present && t.mem[dst][x].high == 0
          && a in s.mem && a in t.mem && b in t.mem
          && t.mem[b] == SharedTable(s.mem[a]) && t.mem[a] == SharedTable(s.mem[a]))
  }

  /** The directory of the parent and the one of the child that a loop works on. */
  ghost predicate Directories(s: Tables, r: nat, c: nat, src: nat, dst: nat, i: Index, j: Index) {
    && r != c && src in s.own && dst in s.own
    && s.own[src] == Pd(User(r), i, j) && s.own[dst] == Pd(User(c), i, j)
  }

  ghost predicate PdCopied(s: Tables, t: Tables, r: nat, c: nat, src: nat, dst: nat, i: Index, j: Index, k: nat) {
    && SoundBut(t, c) && Took(s, t)
    && (forall q {:trigger PdKeeps(s, t, dst, r, i, j, k, q)} :: PdKeeps(s, t, dst, r, i, j, k, q))
    && (forall x: Index {:trigger EntryCopied(s, t, src, dst, x)} :: x >= k ==> EntryCopied(s, t, src, dst, x))
    && dst in s.mem && dst in t.mem
    && (forall x: Index {:trigger t.mem[dst][x]} :: x < k ==> t.mem[dst][x] == s.mem[dst][x])
  }

  // ---------------------------------------------------------------- one round

  lemma SharedTableAt(t: Table, x: Index)
    ensures SharedTable(t)[x] == Share(t[x])
  {
  }

  /** Taking a spare page for a table keeps the trees: it hangs in an empty slot of `dst`, or in a slot of
      the unfinished child. */
  lemma WithTableSound(s: Tables, c: nat, dst: nat, x: Index, n: Node, words: nat, user: bool)
    requires SoundBut(s, c) && CanTake(s) && dst in s.own && dst in s.mem && words <= 512 && !n.Pml?
    requires words == 512 || n.Pt?
    requires dst == c ==> x != SELF
    requires dst != c ==> !s.own[dst].Pt? && !s.own[dst].Pml? && n == Child(s.own[dst], x) && s.mem[dst][x] == EMPTY
    ensures var t := WithTable(s, dst, x, n, words, user); var p := s.pages[s.next];
            && SoundBut(t, c) && Took(s, t)
            && p !in s.own && t.own == s.own[p := n] && t.mem[p] == Cleared(s.mem[p], words)
            && t.mem[dst][x] == SetEntry(s.mem[dst][x], p, user)
            && (forall y: Index :: y != x ==> t.mem[dst][y] == s.mem[dst][y])
            && (forall q {:trigger t.mem[q]} :: q in s.mem && q != p && q != dst ==> t.mem[q] == s.mem[q])
  {
    var p := s.pages[s.next];
    assert Spare(s, p);
    var t := WithTable(s, dst, x, n, words, user);
    HeapTail(s, dst, x, n, Cleared(s.mem[p], words), SetEntry(s.mem[dst][x], p, user));
    forall q | q in t.own && q != c ensures NodeOk(t.mem, t.own, q) {
      if q == p {
        forall y: Index ensures SlotOk(t.mem, t.own, p, y) {
          assert t.mem[p][y] == Cleared(s.mem[p], words)[y];
        }
      } else if q == dst {
        assert NodeOk(s.mem, s.own, q);
        forall y: Index ensures SlotOk(t.mem, t.own, q, y) {
          assert SlotOk(s.mem, s.own, q, y);
          if y != x {
            SlotPersists(s.mem, s.own, t.mem, t.own, q, y);
          }
        }
      } else {
        assert NodeOk(s.mem, s.own, q);
        NodePersists(s.mem, s.own, t.mem, t.own, q);
      }
    }
    forall q ensures Untouched(s, t, q) {
    }
  }

  /** Rewriting two page tables with shared entries keeps the trees. */
  lemma ShareBut(s: Tables, c: nat, a: nat, b: nat)
    requires SoundBut(s, c) && a in s.own && s.own[a].Pt? && a in s.mem && b in s.own && s.own[b].Pt? && b in s.mem
    ensures var shared := SharedTable(s.mem[a]);
            SoundBut(s.(mem := s.mem[b := shared][a := shared]), c)
  {
    var shared := SharedTable(s.mem[a]);
    var t := s.(mem := s.mem[b := shared][a := shared]);
    forall n | t.next <= n < |t.pages| ensures Spare(t, t.pages[n]) {
      assert Spare(s, s.pages[n]);
    }
    forall q | q in t.own && q != c ensures NodeOk(t.mem, t.own, q) {
      assert NodeOk(s.mem, s.own, q);
      if q == a || q == b {
        assert NodeOk(s.mem, s.own, a);
        forall y: Index ensures SlotOk(t.mem, t.own, q, y) {
          assert SlotOk(s.mem, s.own, a, y);
          SharedTableAt(s.mem[a], y);
        }
      } else {
        NodePersists(s.mem, s.own, t.mem, t.own, q);
      }
    }
  }

  /** What one round did: slot `k` was copied, everything else the copy still needs is as before. */
  ghost predicate RoundDone(s: Tables, t: Tables, r: nat, c: nat, src: nat, dst: nat, i: Index, j: Index, k: Index) {
    && SoundBut(t, c) && Took(s, t) && EntryCopied(s, t, src, dst, k)
    && dst in s.mem && dst in t.mem && (forall x: Index :: x != k ==> t.mem[dst][x] == s.mem[dst][x])
    && (s.mem[src][k] != EMPTY ==> t.mem[dst][k].frame in t.own && t.own[t.mem[dst][k].frame] == Pt(User(c), i, j, k))
    && (forall q {:trigger RoundKeeps(s, t, dst, r, i, j, k, q)} :: RoundKeeps(s, t, dst, r, i, j, k, q))
  }

  ghost predicate RoundKeeps(s: Tables, t: Tables, dst: nat, r: nat, i: Index, j: Index, k: Index, q: nat) {
    q in s.own && q != dst && s.own[q] != Pt(User(r), i, j, k) ==> q in s.mem && q in t.mem && t.mem[q] == s.mem[q]
  }

  lemma EmptyRound(s: Tables, r: nat, c: nat, src: nat, dst: nat, i: Index, j: Index, k: Index)
    requires SoundBut(s, c) && Directories(s, r, c, src, dst, i, j) && src in s.mem && dst in s.mem
    requires s.mem[dst][k] == EMPTY && s.mem[src][k] == EMPTY
    ensures RoundDone(s, s, r, c, src, dst, i, j, k)
  {
    forall q ensures RoundKeeps(s, s, dst, r, i, j, k, q) {
      if q in s.own && q != c {
        assert NodeOk(s.mem, s.own, q);
      }
    }
  }

  /** A round that hung page `p` in slot `k` and shared the page table `a` with it. */
  lemma SharedRound(s: Tables, m: Tables, t: Tables, r: nat, c: nat, src: nat, dst: nat, i: Index, j: Index, k: Index, a: nat, p: nat)
    requires SoundBut(s, c) && SoundBut(t, c) && Directories(s, r, c, src, dst, i, j) && src in s.mem && dst in s.mem
    requires s.mem[src][k] != EMPTY && s.mem[src][k].frame == a && a in s.own && s.own[a] == Pt(User(r), i, j, k) && a in s.mem
    requires Took(s, m) && p !in s.own && p in s.mem && m.own == s.own[p := Pt(User(c), i, j, k)]
    requires dst in m.mem && m.mem[dst][k].present && m.mem[dst][k].high == 0 && m.mem[dst][k].frame == p
    requires forall y: Index :: y != k ==> m.mem[dst][y] == s.mem[dst][y]
    requires forall q {:trigger m.mem[q]} :: q in s.mem && q != p && q != dst ==> m.mem[q] == s.mem[q]
    requires t == m.(mem := m.mem[p := SharedTable(s.mem[a])][a := SharedTable(s.mem[a])])
    ensures RoundDone(s, t, r, c, src, dst, i, j, k)
  {
    forall q ensures Untouched(s, t, q) {
      assert Untouched(s, m, q);
    }
    forall q ensures RoundKeeps(s, t, dst, r, i, j, k, q) {
      if q in s.own && q != c {
        assert NodeOk(s.mem, s.own, q);
      }
    }
  }

  /** The new table is hung below `dst`, and the old one is as it was. */
  lemma EntryPrepared(s: Tables, r: nat, c: nat, src: nat, dst: nat, i: Index, j: Index, k: Index, a: nat, user: bool)
    requires SoundBut(s, c) && Directories(s, r, c, src, dst, i, j) && src in s.mem && dst in s.mem && CanTake(s)
    requires s.mem[dst][k] == EMPTY && s.mem[src][k] != EMPTY && a == s.mem[src][k].frame
    ensures var m := WithTable(s, dst, k, Pt(User(c), i, j, k), 1, user);
            && a in s.own && a in s.mem && s.own[a] == Pt(User(r), i, j, k) && s.mem[src][k].Page() == a
            && src in m.mem && m.mem[src][k] == s.mem[src][k] && a in m.mem && m.mem[a] == s.mem[a]
            && m.own == s.own[s.pages[s.next] := Pt(User(c), i, j, k)]
  {
    assert NodeOk(s.mem, s.own, src);
    assert SlotOk(s.mem, s.own, src, k);
    WithTableSound(s, c, dst, k, Pt(User(c), i, j, k), 1, user);
    assert NodeOk(s.mem, s.own, a);
  }

  lemma CopyEntryDone(s: Tables, r: nat, c: nat, src: nat, dst: nat, i: Index, j: Index, k: Index, user: bool)
    requires SoundBut(s, c) && Directories(s, r, c, src, dst, i, j) && src in s.mem && dst in s.mem
    requires s.mem[dst][k] == EMPTY
    ensures var t := CopyEntry(s, c, src, dst, i, j, k, user);
            t.Some? ==> RoundDone(s, t.value, r, c, src, dst, i, j, k)
  {
    var t := CopyEntry(s, c, src, dst, i, j, k, user);
    if s.mem[src][k] == EMPTY {
      EmptyRound(s, r, c, src, dst, i, j, k);
    } else if t.Some? {
      var p := s.pages[s.next];
      var m := WithTable(s, dst, k, Pt(User(c), i, j, k), 1, user);
      var a := s.mem[src][k].frame;
      EntryPrepared(s, r, c, src, dst, i, j, k, a, user);
      WithTableSound(s, c, dst, k, Pt(User(c), i, j, k), 1, user);
      ShareBut(m, c, a, p);
      SharedRound(s, m, t.value, r, c, src, dst, i, j, k, a, p);
    }
  }

  // ---------------------------------------------------------------- the loop over a page directory

  lemma EntryThenRest(s: Tables, t: Tables, u: Tables, r: nat, c: nat, src: nat, dst: nat, i: Index, j: Index, k: Index, x: Index)
    requires SoundBut(s, c) && Directories(s, r, c, src, dst, i, j) && src in s.mem && k <= x
    requires RoundDone(s, t, r, c, src, dst, i, j, k) && PdCopied(t, u, r, c, src, dst, i, j, k + 1)
    ensures EntryCopied(s, u, src, dst, x)
  {
    assert RoundKeeps(s, t, dst, r, i, j, k, src);
    assert NodeOk(s.mem, s.own, src);
    assert SlotOk(s.mem, s.own, src, x);
    if x == k {
      assert u.mem[dst][x] == t.mem[dst][x];
      if s.mem[src][x] != EMPTY {
        assert PdKeeps(t, u, dst, r, i, j, k + 1, s.mem[src][x].frame);
        assert PdKeeps(t, u, dst, r, i, j, k + 1, t.mem[dst][x].frame);
      }
    } else {
      assert EntryCopied(t, u, src, dst, x);
      if s.mem[src][x] != EMPTY {
        assert RoundKeeps(s, t, dst, r, i, j, k, s.mem[src][x].frame);
      }
    }
  }

  lemma RoundThenRest(s: Tables, t: Tables, u: Tables, r: nat, c: nat, src: nat, dst: nat, i: Index, j: Index, k: Index)
    requires SoundBut(s, c) && Directories(s, r, c, src, dst, i, j) && src in s.mem
    requires RoundDone(s, t, r, c, src, dst, i, j, k) && PdCopied(t, u, r, c, src, dst, i, j, k + 1)
    ensures PdCopied(s, u, r, c, src, dst, i, j, k)
  {
    TookTransitive(s, t, u);
    forall q ensures PdKeeps(s, u, dst, r, i, j, k, q) {
      assert RoundKeeps(s, t, dst, r, i, j, k, q);
      assert PdKeeps(t, u, dst, r, i, j, k + 1, q);
    }
    forall x: Index | x >= k ensures EntryCopied(s, u, src, dst, x) {
      EntryThenRest(s, t, u, r, c, src, dst, i, j, k, x);
    }
  }

  /** Copying a page directory from slot `k` on shares every page table behind it, and nothing else. */
  lemma {:induction false} CopyPdDone(s: Tables, r: nat, c: nat, src: nat, dst: nat, i: Index, j: Index, k: nat, user: bool)
    requires k <= 512 && SoundBut(s, c) && Directories(s, r, c, src, dst, i, j)
    requires dst in s.mem && forall x: Index :: x >= k ==> s.mem[dst][x] == EMPTY
    ensures var t := CopyPd(s, c, src, dst, i, j, k, user);
            t.Some? ==> PdCopied(s, t.value, r, c, src, dst, i, j, k)
    decreases 512 - k
  {
    assert NodeOk(s.mem, s.own, src);
    if k == 512 {
      forall q ensures PdKeeps(s, s, dst, r, i, j, k, q) {
        if q in s.own && q != c {
          assert NodeOk(s.mem, s.own, q);
        }
      }
    } else {
      var t := CopyEntry(s, c, src, dst, i, j, k, user);
      CopyEntryDone(s, r, c, src, dst, i, j, k, user);
      if t.Some? && CopyPd(s, c, src, dst, i, j, k, user).Some? {
        CopyPdDone(t.value, r, c, src, dst, i, j, k + 1, user);
        RoundThenRest(s, t.value, CopyPd(s, c, src, dst, i, j, k, user).value, r, c, src, dst, i, j, k);
      }
    }
  }

  // ---------------------------------------------------------------- the loop over a pointer table

  /** A copied entry is also copied from an earlier state that agrees on what is read. */
  lemma EntryFromEarlier(s: Tables, t: Tables, u: Tables, src: nat, dst: nat, x: Index)
    requires EntryCopied(t, u, src, dst, x) && src in s.mem && s.mem[src] == t.mem[src]
    requires s.mem[src][x] != EMPTY ==> s.mem[src][x].frame in s.mem && t.mem[s.mem[src][x].frame] == s.mem[s.mem[src][x].frame]
    ensures EntryCopied(s, u, src, dst, x)
  {
  }

  /** A copied entry stays copied in a later state that agrees on what was written. */
  lemma EntryInLater(s: Tables, t: Tables, u: Tables, src: nat, dst: nat, x: Index)
    requires EntryCopied(s, t, src, dst, x) && dst in u.mem && u.mem[dst] == t.mem[dst]
    requires s.mem[src][x] != EMPTY ==>
               var a, b := s.mem[src][x].frame, t.mem[dst][x].frame;
               a in u.mem && b in u.mem && u.mem[a] == t.mem[a] && u.mem[b] == t.mem[b]
    ensures EntryCopied(s, u, src, dst, x)
  {
  }

  /** Slot `x` of the child's pointer table leads to a copy of the directory that the parent's leads to. */
  ghost predicate DirCopied(s: Tables, t: Tables, src: nat, dst: nat, x: Index) {
    && src in s.mem && dst in t.mem && t.mem[dst][x].present && t.mem[dst][x].high == 0
    && (forall y: Index {:trigger EntryCopied(s, t, s.mem[src][x].frame, t.mem[dst][x].frame, y)} ::
          EntryCopied(s, t, s.mem[src][x].frame, t.mem[dst][x].frame, y))
  }

  predicate AheadOfDir(n: Node, r: nat, i: nat, j: nat, end: nat) {
    n.Pt? && n.space == User(r) && n.i == i && j <= n.j < end
  }

  ghost predicate PdptKeeps(s: Tables, t: Tables, dst: nat, r: nat, i: nat, j: nat, end: nat, q: nat) {
    q in s.own && q != dst && !AheadOfDir(s.own[q], r, i, j, end) ==> q in s.mem && q in t.mem && t.mem[q] == s.mem[q]
  }

  ghost predicate PointerTables(s: Tables, r: nat, c: nat, src: nat, dst: nat, i: Index) {
    && r != c && src in s.own && dst in s.own
    && s.own[src] == Pdpt(User(r), i) && s.own[dst] == Pdpt(User(c), i)
  }

  ghost predicate PdptCopied(s: Tables, t: Tables, r: nat, c: nat, src: nat, dst: nat, i: Index, j: nat)
    requires j <= 512
  {
    && SoundBut(t, c) && Took(s, t) && src in s.mem && dst in s.mem && dst in t.mem
    && (forall q {:trigger PdptKeeps(s, t, dst, r, i, j, FirstEmpty(s.mem[src], j), q)} ::
          PdptKeeps(s, t, dst, r, i, j, FirstEmpty(s.mem[src], j), q))
    && FirstEmpty(s.mem[src], j) < 512
    && (forall x: Index {:trigger DirCopied(s, t, src, dst, x)} ::
          j <= x < FirstEmpty(s.mem[src], j) ==> DirCopied(s, t, src, dst, x))
    && (forall x: Index {:trigger t.mem[dst][x]} ::
          x < j || x >= FirstEmpty(s.mem[src], j) ==> t.mem[dst][x] == s.mem[dst][x])
  }

  /** What one round did: slot `j` was copied, everything else the copy still needs is as before. */
  ghost predicate DirDone(s: Tables, t: Tables, r: nat, c: nat, src: nat, dst: nat, i: Index, j: Index) {
    && SoundBut(t, c) && Took(s, t) && DirCopied(s, t, src, dst, j) && dst in s.mem
    && (forall x: Index :: x != j ==> t.mem[dst][x] == s.mem[dst][x])
    && t.mem[dst][j].frame in t.own && t.own[t.mem[dst][j].frame] == Pd(User(c), i, j)
    && (forall q {:trigger DirKeeps(s, t, dst, r, i, j, q)} :: DirKeeps(s, t, dst, r, i, j, q))
  }

  ghost predicate DirKeeps(s: Tables, t: Tables, dst: nat, r: nat, i: Index, j: Index, q: nat) {
    q in s.own && q != dst && !Ahead(s.own[q], r, i, j, 0) ==> q in s.mem && q in t.mem && t.mem[q] == s.mem[q]
  }

  lemma DirRound(s: Tables, t: Tables, u: Tables, r: nat, c: nat, src: nat, dst: nat, i: Index, j: Index, user: bool)
    requires SoundBut(s, c) && PointerTables(s, r, c, src, dst, i) && src in s.mem && dst in s.mem && CanTake(s)
    requires s.mem[src][j] != EMPTY && s.mem[dst][j] == EMPTY
    requires t == WithTable(s, dst, j, Pd(User(c), i, j), 512, user)
    requires PdCopied(t, u, r, c, s.mem[src][j].frame, s.pages[s.next], i, j, 0)
    ensures DirDone(s, u, r, c, src, dst, i, j)
  {
    var p := s.pages[s.next];
    WithTableSound(s, c, dst, j, Pd(User(c), i, j), 512, user);
    assert NodeOk(s.mem, s.own, src);
    assert SlotOk(s.mem, s.own, src, j);
    var pd := s.mem[src][j].frame;
    assert NodeOk(s.mem, s.own, pd);
    assert PdKeeps(t, u, p, r, i, j, 0, dst);
    TookTransitive(s, t, u);
    forall q ensures DirKeeps(s, u, dst, r, i, j, q) {
      assert PdKeeps(t, u, p, r, i, j, 0, q);
      if q in s.own && q != c {
        assert NodeOk(s.mem, s.own, q);
      }
    }
    forall y: Index ensures EntryCopied(s, u, pd, p, y) {
      assert EntryCopied(t, u, pd, p, y);
      assert SlotOk(s.mem, s.own, pd, y);
      if s.mem[pd][y] != EMPTY {
        assert NodeOk(s.mem, s.own, s.mem[pd][y].frame);
      }
      EntryFromEarlier(s, t, u, pd, p, y);
    }
  }

  lemma DirThenRest(s: Tables, t: Tables, u: Tables, r: nat, c: nat, src: nat, dst: nat, i: Index, j: Index, x: Index)
    requires SoundBut(s, c) && PointerTables(s, r, c, src, dst, i) && src in s.mem && s.mem[src][j] != EMPTY
    requires DirDone(s, t, r, c, src, dst, i, j) && PdptCopied(t, u, r, c, src, dst, i, j + 1)
    requires j <= x < FirstEmpty(s.mem[src], j)
    ensures DirCopied(s, u, src, dst, x)
  {
    assert DirKeeps(s, t, dst, r, i, j, src);
    assert NodeOk(s.mem, s.own, src);
    assert SlotOk(s.mem, s.own, src, x);
    var pd := s.mem[src][x].frame;
    assert NodeOk(s.mem, s.own, pd);
    if x == j {
      var pd' := t.mem[dst][x].frame;
      assert u.mem[dst][x] == t.mem[dst][x];
      assert NodeOk(t.mem, t.own, pd');
      forall y: Index ensures EntryCopied(s, u, pd, pd', y) {
        assert EntryCopied(s, t, pd, pd', y);
        assert SlotOk(s.mem, s.own, pd, y) && SlotOk(t.mem, t.own, pd', y);
        assert PdptKeeps(t, u, dst, r, i, j + 1, FirstEmpty(t.mem[src], j + 1), pd');
        if s.mem[pd][y] != EMPTY {
          assert PdptKeeps(t, u, dst, r, i, j + 1, FirstEmpty(t.mem[src], j + 1), s.mem[pd][y].frame);
          assert PdptKeeps(t, u, dst, r, i, j + 1, FirstEmpty(t.mem[src], j + 1), t.mem[pd'][y].frame);
        }
        EntryInLater(s, t, u, pd, pd', y);
      }
    } else {
      assert DirCopied(t, u, src, dst, x);
      var pd' := u.mem[dst][x].frame;
      assert DirKeeps(s, t, dst, r, i, j, pd);
      forall y: Index ensures EntryCopied(s, u, pd, pd', y) {
        assert EntryCopied(t, u, pd, pd', y);
        assert SlotOk(s.mem, s.own, pd, y);
        if s.mem[pd][y] != EMPTY {
          assert DirKeeps(s, t, dst, r, i, j, s.mem[pd][y].frame);
        }
        EntryFromEarlier(s, t, u, pd, pd', y);
      }
    }
  }

  lemma DirsThenRest(s: Tables, t: Tables, u: Tables, r: nat, c: nat, src: nat, dst: nat, i: Index, j: Index)
    requires SoundBut(s, c) && PointerTables(s, r, c, src, dst, i) && src in s.mem && s.mem[src][j] != EMPTY
    requires DirDone(s, t, r, c, src, dst, i, j) && PdptCopied(t, u, r, c, src, dst, i, j + 1)
    ensures PdptCopied(s, u, r, c, src, dst, i, j)
  {
    TookTransitive(s, t, u);
    assert DirKeeps(s, t, dst, r, i, j, src);
    forall q ensures PdptKeeps(s, u, dst, r, i, j, FirstEmpty(s.mem[src], j), q) {
      assert DirKeeps(s, t, dst, r, i, j, q);
      assert PdptKeeps(t, u, dst, r, i, j + 1, FirstEmpty(t.mem[src], j + 1), q);
    }
    forall x: Index | j <= x < FirstEmpty(s.mem[src], j) ensures DirCopied(s, u, src, dst, x) {
      DirThenRest(s, t, u, r, c, src, dst, i, j, x);
    }
  }

  lemma BlankTable(t: Table, x: Index)
    ensures Cleared(t, 512)[x] == EMPTY
  {
  }

  /** The new directory is hung below `dst` and empty, so the loop over the slots of the old one can start. */
  lemma DirPrepared(s: Tables, r: nat, c: nat, src: nat, dst: nat, i: Index, j: Index, user: bool)
    requires SoundBut(s, c) && PointerTables(s, r, c, src, dst, i) && src in s.mem && dst in s.mem && CanTake(s)
    requires s.mem[src][j] != EMPTY && s.mem[dst][j] == EMPTY
    ensures var t := WithTable(s, dst, j, Pd(User(c), i, j), 512, user); var p := s.pages[s.next];
            && src in t.mem && t.mem[src] == s.mem[src] && SoundBut(t, c) && Directories(t, r, c, s.mem[src][j].frame, p, i, j)
            && s.mem[src][j].Page() == s.mem[src][j].frame
            && p in t.mem && forall x: Index :: t.mem[p][x] == EMPTY
  {
    var p := s.pages[s.next];
    assert NodeOk(s.mem, s.own, src);
    assert SlotOk(s.mem, s.own, src, j);
    WithTableSound(s, c, dst, j, Pd(User(c), i, j), 512, user);
    forall x: Index ensures WithTable(s, dst, j, Pd(User(c), i, j), 512, user).mem[p][x] == EMPTY {
      BlankTable(s.mem[p], x);
    }
  }

  lemma CopyDirDone(s: Tables, r: nat, c: nat, src: nat, dst: nat, i: Index, j: Index, user: bool)
    requires SoundBut(s, c) && PointerTables(s, r, c, src, dst, i) && src in s.mem && dst in s.mem
    requires s.mem[src][j] != EMPTY && s.mem[dst][j] == EMPTY
    ensures var t := CopyDir(s, c, src, dst, i, j, user);
            t.Some? ==> DirDone(s, t.value, r, c, src, dst, i, j)
  {
    var result := CopyDir(s, c, src, dst, i, j, user);
    if result.Some? {
      var t := WithTable(s, dst, j, Pd(User(c), i, j), 512, user);
      DirPrepared(s, r, c, src, dst, i, j, user);
      CopyPdDone(t, r, c, s.mem[src][j].frame, s.pages[s.next], i, j, 0, user);
      DirRound(s, t, result.value, r, c, src, dst, i, j, user);
    }
  }

  lemma PdptCopiedAtEmpty(s: Tables, r: nat, c: nat, src: nat, dst: nat, i: Index, j: Index)
    requires SoundBut(s, c) && PointerTables(s, r, c, src, dst, i) && src in s.mem && dst in s.mem && s.mem[src][j] == EMPTY
    ensures PdptCopied(s, s, r, c, src, dst, i, j)
  {
    forall q ensures PdptKeeps(s, s, dst, r, i, j, FirstEmpty(s.mem[src], j), q) {
      if q in s.own && q != c {
        assert NodeOk(s.mem, s.own, q);
      }
    }
  }

  /** Copying a pointer table from slot `j` on copies the directories up to the first empty slot. */
  lemma {:induction false} CopyPdptDone(s: Tables, r: nat, c: nat, src: nat, dst: nat, i: Index, j: nat, user: bool)
    requires j <= 512 && SoundBut(s, c) && PointerTables(s, r, c, src, dst, i)
    requires dst in s.mem && forall x: Index :: x >= j ==> s.mem[dst][x] == EMPTY
    ensures var t := CopyPdpt(s, c, src, dst, i, j, user);
            t.Some? ==> PdptCopied(s, t.value, r, c, src, dst, i, j)
    decreases 512 - j
  {
    var result := CopyPdpt(s, c, src, dst, i, j, user);
    if result.Some? {
      if s.mem[src][j] == EMPTY {
        PdptCopiedAtEmpty(s, r, c, src, dst, i, j);
      } else {
        CopyDirDone(s, r, c, src, dst, i, j, user);
        var u := CopyDir(s, c, src, dst, i, j, user).value;
        CopyPdptDone(u, r, c, src, dst, i, j + 1, user);
        DirsThenRest(s, u, result.value, r, c, src, dst, i, j);
      }
    }
  }

  // ---------------------------------------------------------------- the loop over the top-level table

  /** The child's pointer table `dst` is a copy of the parent's, up to the first empty slot. */
  ghost predicate PtrCopied(s: Tables, t: Tables, src: nat, dst: nat) {
    && src in s.mem && dst in t.mem && FirstEmpty(s.mem[src], 0) < 512
    && (forall y: Index {:trigger DirCopied(s, t, src, dst, y)} :: y < FirstEmpty(s.mem[src], 0) ==> DirCopied(s, t, src, dst, y))
    && (forall y: Index {:trigger t.mem[dst][y]} :: y >= FirstEmpty(s.mem[src], 0) ==> t.mem[dst][y] == EMPTY)
  }

  /** How many directories a copy takes from the pointer table behind slot `x`. */
  function DirEnd(mem: Memory, r: nat, x: Index): nat {
    if r in mem && mem[r][x].frame in mem then FirstEmpty(mem[mem[r][x].frame], 0) else 0
  }

  predicate AheadOfTop(mem: Memory, n: Node, r: nat, i: nat, end: nat) {
    n.Pt? && n.space == User(r) && i <= n.i < end && n.j < DirEnd(mem, r, n.i)
  }

  ghost predicate PmlKeeps(s: Tables, t: Tables, c: nat, r: nat, i: nat, end: nat, q: nat) {
    q in s.own && q != c && !AheadOfTop(s.mem, s.own[q], r, i, end) ==> q in s.mem && q in t.mem && t.mem[q] == s.mem[q]
  }

  ghost predicate TopKeeps(s: Tables, t: Tables, c: nat, r: nat, i: Index, q: nat) {
    q in s.own && q != c && !AheadOfTop(s.mem, s.own[q], r, i, i + 1) ==> q in s.mem && q in t.mem && t.mem[q] == s.mem[q]
  }

  /** Slot `x` of the child leads to its own copy of what slot `x` of the parent leads to. */
  ghost predicate TopCopied(s: Tables, t: Tables, r: nat, c: nat, x: Index) {
    && r in s.mem && c in t.mem && t.mem[c][x].present && t.mem[c][x].high == 0
    && t.mem[c][x].frame in t.own && t.own[t.mem[c][x].frame] == Pdpt(User(c), x)
    && PtrCopied(s, t, s.mem[r][x].frame, t.mem[c][x].frame)
  }

  ghost predicate PmlCopied(s: Tables, t: Tables, r: nat, c: nat, i: nat)
    requires i <= 512
  {
    && SoundBut(t, c) && Took(s, t) && r in s.mem && c in s.mem
    && (forall q {:trigger PmlKeeps(s, t, c, r, i, FirstEmpty(s.mem[r], i), q)} ::
          PmlKeeps(s, t, c, r, i, FirstEmpty(s.mem[r], i), q))
    && FirstEmpty(s.mem[r], i) < SELF
    && (forall x: Index {:trigger TopCopied(s, t, r, c, x)} :: i <= x < FirstEmpty(s.mem[r], i) ==> TopCopied(s, t, r, c, x))
    && (forall x: Index {:trigger t.mem[c][x]} :: x < i || x >= FirstEmpty(s.mem[r], i) ==> t.mem[c][x] == s.mem[c][x])
  }

  ghost predicate TopDone(s: Tables, t: Tables, r: nat, c: nat, i: Index) {
    && SoundBut(t, c) && Took(s, t) && TopCopied(s, t, r, c, i) && c in s.mem
    && (forall x: Index :: x != i ==> t.mem[c][x] == s.mem[c][x])
    && (forall q {:trigger TopKeeps(s, t, c, r, i, q)} :: TopKeeps(s, t, c, r, i, q))
  }

  /** A copied directory is also copied from an earlier state that agrees on what is read. */
  lemma DirFromEarlier(s: Tables, t: Tables, u: Tables, r: nat, src: nat, dst: nat, x: Index)
    requires DirCopied(t, u, src, dst, x) && src in s.own && src in s.mem && src in t.mem && t.mem[src] == s.mem[src]
    requires NodeOk(s.mem, s.own, src) && s.own[src].Pdpt? && s.mem[src][x] != EMPTY
    requires var pd := s.mem[src][x].frame;
             && pd in s.mem && pd in t.mem && t.mem[pd] == s.mem[pd]
             && (forall y: Index :: s.mem[pd][y] != EMPTY ==>
                   s.mem[pd][y].frame in s.mem && s.mem[pd][y].frame in t.mem && t.mem[s.mem[pd][y].frame] == s.mem[s.mem[pd][y].frame])
    ensures DirCopied(s, u, src, dst, x)
  {
    var pd := s.mem[src][x].frame;
    forall y: Index ensures EntryCopied(s, u, pd, u.mem[dst][x].frame, y) {
      assert EntryCopied(t, u, pd, u.mem[dst][x].frame, y);
      EntryFromEarlier(s, t, u, pd, u.mem[dst][x].frame, y);
    }
  }

  lemma PtrFromEarlier(s: Tables, t: Tables, u: Tables, c: nat, src: nat, dst: nat, i: Index, r: nat)
    requires PtrCopied(t, u, src, dst) && SoundBut(s, c) && r != c && src in s.own && s.own[src] == Pdpt(User(r), i)
    requires forall q {:trigger q in s.own} :: q in s.own && q != c && OfSlot(s.own[q], r, i) ==>
               q in s.mem && q in t.mem && t.mem[q] == s.mem[q]
    ensures PtrCopied(s, u, src, dst)
  {
    assert NodeOk(s.mem, s.own, src);
    forall y: Index | y < FirstEmpty(s.mem[src], 0) ensures DirCopied(s, u, src, dst, y) {
      assert DirCopied(t, u, src, dst, y);
      assert SlotOk(s.mem, s.own, src, y);
      var pd := s.mem[src][y].frame;
      assert NodeOk(s.mem, s.own, pd);
      forall z: Index | s.mem[pd][z] != EMPTY
        ensures s.mem[pd][z].frame in s.mem && s.mem[pd][z].frame in t.mem && t.mem[s.mem[pd][z].frame] == s.mem[s.mem[pd][z].frame]
      {
        assert SlotOk(s.mem, s.own, pd, z);
        assert NodeOk(s.mem, s.own, s.mem[pd][z].frame);
      }
      DirFromEarlier(s, t, u, r, src, dst, y);
    }
  }

  /** A table of the address space `r` under slot `i`. */
  predicate OfSlot(n: Node, r: nat, i: Index) {
    !n.Pml? && n.space == User(r) && n.i == i
  }

  lemma DirInLater(s: Tables, t: Tables, u: Tables, r: nat, c: nat, src: nat, dst: nat, i: Index, x: Index)
    requires DirCopied(s, t, src, dst, x) && SoundBut(s, c) && SoundBut(t, c) && Took(s, t) && r != c
    requires src in s.own && s.own[src] == Pdpt(User(r), i) && dst in t.own && t.own[dst] == Pdpt(User(c), i)
    requires s.mem[src][x] != EMPTY && dst in u.mem && u.mem[dst] == t.mem[dst]
    requires forall q {:trigger q in t.own} :: q in t.own && q != c && (OfSlot(t.own[q], r, i) || OfSlot(t.own[q], c, i)) ==>
               q in t.mem && q in u.mem && u.mem[q] == t.mem[q]
    ensures DirCopied(s, u, src, dst, x)
  {
    assert NodeOk(s.mem, s.own, src);
    assert SlotOk(s.mem, s.own, src, x);
    assert NodeOk(t.mem, t.own, dst);
    assert SlotOk(t.mem, t.own, dst, x);
    var pd, pd' := s.mem[src][x].frame, t.mem[dst][x].frame;
    assert NodeOk(s.mem, s.own, pd);
    assert NodeOk(t.mem, t.own, pd');
    forall y: Index ensures EntryCopied(s, u, pd, pd', y) {
      assert EntryCopied(s, t, pd, pd', y);
      assert SlotOk(s.mem, s.own, pd, y);
      assert SlotOk(t.mem, t.own, pd', y);
      if s.mem[pd][y] != EMPTY {
        assert s.mem[pd][y].frame in t.own && t.mem[pd'][y].frame in t.own;
      }
      EntryInLater(s, t, u, pd, pd', y);
    }
  }

  lemma PtrInLater(s: Tables, t: Tables, u: Tables, r: nat, c: nat, src: nat, dst: nat, i: Index)
    requires PtrCopied(s, t, src, dst) && SoundBut(s, c) && SoundBut(t, c) && Took(s, t) && r != c
    requires src in s.own && s.own[src] == Pdpt(User(r), i) && dst in t.own && t.own[dst] == Pdpt(User(c), i)
    requires forall q {:trigger q in t.own} :: q in t.own && q != c && (OfSlot(t.own[q], r, i) || OfSlot(t.own[q], c, i)) ==>
               q in t.mem && q in u.mem && u.mem[q] == t.mem[q]
    ensures PtrCopied(s, u, src, dst)
  {
    forall y: Index | y < FirstEmpty(s.mem[src], 0) ensures DirCopied(s, u, src, dst, y) {
      assert DirCopied(s, t, src, dst, y);
      DirInLater(s, t, u, r, c, src, dst, i, y);
    }
  }

  lemma TopRound(s: Tables, t: Tables, u: Tables, r: nat, c: nat, i: Index, user: bool)
    requires SoundBut(s, c) && IsRoot(s, r) && r != c && r in s.mem && i < SELF && s.mem[r][i] != EMPTY && s.mem[c][i].high == 0
    requires CanTake(s) && t == WithTable(s, c, i, Pdpt(User(c), i), 512, user)
    requires PdptCopied(t, u, r, c, s.mem[r][i].frame, s.pages[s.next], i, 0)
    ensures TopDone(s, u, r, c, i)
  {
    var p := s.pages[s.next];
    WithTableSound(s, c, c, i, Pdpt(User(c), i), 512, user);
    TookTransitive(s, t, u);
    assert NodeOk(s.mem, s.own, r);
    assert SlotOk(s.mem, s.own, r, i);
    var src := s.mem[r][i].frame;
    assert t.mem[src] == s.mem[src];
    assert PdptKeeps(t, u, p, r, i, 0, FirstEmpty(t.mem[src], 0), c);
    forall q ensures TopKeeps(s, u, c, r, i, q) {
      assert PdptKeeps(t, u, p, r, i, 0, FirstEmpty(t.mem[src], 0), q);
      if q in s.own && q != c {
        assert NodeOk(s.mem, s.own, q);
      }
    }
    forall y: Index ensures t.mem[p][y] == EMPTY {
      BlankTable(s.mem[p], y);
    }
    assert PtrCopied(t, u, src, p) by {
      forall y: Index | y < FirstEmpty(t.mem[src], 0) ensures DirCopied(t, u, src, p, y) {
      }
    }
    forall q | q in s.own && q != c && OfSlot(s.own[q], r, i) ensures q in s.mem && q in t.mem && t.mem[q] == s.mem[q] {
      assert NodeOk(s.mem, s.own, q);
    }
    PtrFromEarlier(s, t, u, c, src, p, i, r);
  }

  lemma CopyTopCopies(s: Tables, r: nat, c: nat, i: Index, user: bool)
    requires SoundBut(s, c) && IsRoot(s, r) && r != c && r in s.mem && i < SELF && s.mem[r][i] != EMPTY
    requires CanTake(s)
    ensures var t := WithTable(s, c, i, Pdpt(User(c), i), 512, user);
            var u := CopyTop(s, r, c, i, user);
            u.Some? ==> PdptCopied(t, u.value, r, c, s.mem[r][i].frame, s.pages[s.next], i, 0)
  {
    var p := s.pages[s.next];
    assert NodeOk(s.mem, s.own, r);
    assert SlotOk(s.mem, s.own, r, i);
    WithTableSound(s, c, c, i, Pdpt(User(c), i), 512, user);
    var t := WithTable(s, c, i, Pdpt(User(c), i), 512, user);
    assert t.mem[r] == s.mem[r];
    forall y: Index ensures t.mem[p][y] == EMPTY {
      BlankTable(s.mem[p], y);
    }
    CopyPdptDone(t, r, c, s.mem[r][i].frame, p, i, 0, user);
  }

  lemma CopyTopDone(s: Tables, r: nat, c: nat, i: Index, user: bool)
    requires SoundBut(s, c) && IsRoot(s, r) && r != c && r in s.mem && i < SELF && s.mem[r][i] != EMPTY && s.mem[c][i].high == 0
    ensures var t := CopyTop(s, r, c, i, user);
            t.Some? ==> TopDone(s, t.value, r, c, i)
  {
    var result := CopyTop(s, r, c, i, user);
    if result.Some? {
      CopyTopCopies(s, r, c, i, user);
      TopRound(s, WithTable(s, c, i, Pdpt(User(c), i), 512, user), result.value, r, c, i, user);
    }
  }

  lemma TopThenRest(s: Tables, t: Tables, u: Tables, r: nat, c: nat, i: Index, x: Index)
    requires SoundBut(s, c) && IsRoot(s, r) && r != c && r in s.mem && s.mem[r][i] != EMPTY
    requires TopDone(s, t, r, c, i) && PmlCopied(t, u, r, c, i + 1) && i <= x < FirstEmpty(s.mem[r], i) < SELF
    ensures TopCopied(s, u, r, c, x)
  {
    assert TopKeeps(s, t, c, r, i, r);
    assert NodeOk(s.mem, s.own, r);
    assert SlotOk(s.mem, s.own, r, x);
    var src := s.mem[r][x].frame;
    if x == i {
      assert u.mem[c][x] == t.mem[c][x];
      forall q | q in t.own && q != c && (OfSlot(t.own[q], r, i) || OfSlot(t.own[q], c, i))
        ensures q in t.mem && q in u.mem && u.mem[q] == t.mem[q]
      {
        assert PmlKeeps(t, u, c, r, i + 1, FirstEmpty(t.mem[r], i + 1), q);
      }
      PtrInLater(s, t, u, r, c, src, t.mem[c][x].frame, i);
    } else {
      assert TopCopied(t, u, r, c, x);
      forall q | q in s.own && q != c && OfSlot(s.own[q], r, x) ensures q in s.mem && q in t.mem && t.mem[q] == s.mem[q] {
        assert TopKeeps(s, t, c, r, i, q);
      }
      PtrFromEarlier(s, t, u, c, src, u.mem[c][x].frame, x, r);
    }
  }

  lemma DirEndKept(s: Tables, t: Tables, r: nat, c: nat, i: Index, x: Index)
    requires SoundBut(s, c) && IsRoot(s, r) && r != c && TopDone(s, t, r, c, i) && x != SELF && r in s.mem && s.mem[r][x] != EMPTY
    ensures DirEnd(t.mem, r, x) == DirEnd(s.mem, r, x)
  {
    assert TopKeeps(s, t, c, r, i, r);
    assert NodeOk(s.mem, s.own, r);
    assert SlotOk(s.mem, s.own, r, x);
    assert TopKeeps(s, t, c, r, i, s.mem[r][x].frame);
  }

  lemma TopsThenRest(s: Tables, t: Tables, u: Tables, r: nat, c: nat, i: Index)
    requires SoundBut(s, c) && IsRoot(s, r) && r != c && r in s.mem && s.mem[r][i] != EMPTY
    requires TopDone(s, t, r, c, i) && PmlCopied(t, u, r, c, i + 1)
    ensures PmlCopied(s, u, r, c, i)
  {
    TookTransitive(s, t, u);
    assert TopKeeps(s, t, c, r, i, r);
    forall q ensures PmlKeeps(s, u, c, r, i, FirstEmpty(s.mem[r], i), q) {
      assert TopKeeps(s, t, c, r, i, q);
      assert PmlKeeps(t, u, c, r, i + 1, FirstEmpty(t.mem[r], i + 1), q);
      if q in s.own && s.own[q].Pt? && s.own[q].space == User(r) && i < s.own[q].i < FirstEmpty(s.mem[r], i) {
        DirEndKept(s, t, r, c, i, s.own[q].i);
      }
    }
    forall x: Index | i <= x < FirstEmpty(s.mem[r], i) ensures TopCopied(s, u, r, c, x) {
      TopThenRest(s, t, u, r, c, i, x);
    }
  }

  lemma PmlCopiedAtEmpty(s: Tables, r: nat, c: nat, i: Index)
    requires SoundBut(s, c) && IsRoot(s, r) && r in s.mem && i < SELF && s.mem[r][i] == EMPTY
    ensures PmlCopied(s, s, r, c, i)
  {
    forall q ensures PmlKeeps(s, s, c, r, i, FirstEmpty(s.mem[r], i), q) {
      if q in s.own && q != c {
        assert NodeOk(s.mem, s.own, q);
      }
    }
  }

  /** Copying the top-level table from slot `i` on copies the trees up to the first empty slot. */
  lemma {:induction false} CopyPmlDone(s: Tables, r: nat, c: nat, i: nat, user: bool)
    requires i <= SELF && SoundBut(s, c) && IsRoot(s, r) && r != c
    requires forall x: Index :: s.mem[c][x].high == 0
    ensures var t := CopyPml(s, r, c, i, user);
            t.Some? ==> PmlCopied(s, t.value, r, c, i)
    decreases SELF - i
  {
    var result := CopyPml(s, r, c, i, user);
    if result.Some? {
      if s.mem[r][i] == EMPTY {
        PmlCopiedAtEmpty(s, r, c, i);
      } else {
        CopyTopDone(s, r, c, i, user);
        var u := CopyTop(s, r, c, i, user).value;
        CopyPmlDone(u, r, c, i + 1, user);
        TopsThenRest(s, u, result.value, r, c, i);
      }
    }
  }
}

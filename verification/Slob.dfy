/** The SLOB allocator: an address-ordered ring of free blocks.  Addresses count 16-byte units. */
module Slob {

  /** Block headers by address, and the block where searches start. */
  datatype Heap = Heap(units: map<nat, nat>, next: map<nat, nat>, free: nat)

  /** The block after the one at index `i`; the last block links back to the first. */
  function Succ(ring: seq<nat>, i: nat): nat
    requires i < |ring|
  {
    if i + 1 < |ring| then ring[i + 1] else ring[0]
  }

  function Pred(ring: seq<nat>, p: nat): nat
    requires |ring| > 0 && p <= |ring|
  {
    if p == 0 then ring[|ring| - 1] else ring[p - 1]
  }

  predicate Linked(h: Heap, ring: seq<nat>, i: nat)
    requires i < |ring|
  {
    ring[i] in h.units && ring[i] in h.next && h.units[ring[i]] >= 1 && h.next[ring[i]] == Succ(ring, i)
  }

  /** Blocks are in address order, and two that follow each other leave a gap: adjacent ones are merged. */
  predicate Apart(h: Heap, ring: seq<nat>, i: nat, j: nat)
    requires i < j < |ring|
  {
    ring[i] in h.units && ring[i] + h.units[ring[i]] < ring[j]
  }

  /** The headers form the circular, strictly address-ordered, fully coalesced list `ring`. */
  ghost predicate Ring(h: Heap, ring: seq<nat>) {
    && |ring| > 0 && h.free in ring
    && (forall i: nat {:trigger Linked(h, ring, i)} :: i < |ring| ==> Linked(h, ring, i))
    && (forall i: nat, j: nat {:trigger Apart(h, ring, i, j)} :: i < j < |ring| ==> Apart(h, ring, i, j))
  }

  predicate Within(h: Heap, ring: seq<nat>, i: nat, x: nat)
    requires i < |ring|
  {
    ring[i] in h.units && ring[i] <= x < ring[i] + h.units[ring[i]]
  }

  /** Unit `x` belongs to a free block. */
  ghost predicate InFree(h: Heap, ring: seq<nat>, x: nat) {
    exists i: nat {:trigger Within(h, ring, i, x)} :: i < |ring| && Within(h, ring, i, x)
  }

  /** None of the `k` units from `b` is free. */
  ghost predicate Taken(h: Heap, ring: seq<nat>, b: nat, k: nat) {
    forall x: nat {:trigger InFree(h, ring, x)} :: b <= x < b + k ==> !InFree(h, ring, x)
  }

  // ---------------------------------------------------------------- slob_free

  /** The index of the first block above `b`, from index `i` on. */
  function Place(ring: seq<nat>, b: nat, i: nat): (p: nat)
    requires i <= |ring|
    ensures i <= p <= |ring| && (forall j :: i <= j < p ==> ring[j] <= b) && (p < |ring| ==> b < ring[p])
    decreases |ring| - i
  {
    if i == |ring| || b < ring[i] then i else Place(ring, b, i + 1)
  }

  /** The pointer updates of slob_free, once the block before `b` is found. */
  function Release(h: Heap, cur: nat, b: nat, k: nat): Heap
    requires cur in h.next && cur in h.units && h.next[cur] in h.units && h.next[cur] in h.next
  {
    var n := h.next[cur];
    var units := if b + k == n then k + h.units[n] else k;
    var next := if b + k == n then h.next[n] else n;
    if cur + h.units[cur] == b
    then Heap(h.units[b := units][cur := h.units[cur] + units], h.next[b := next][cur := next], cur)
    else Heap(h.units[b := units], h.next[b := next][cur := b], cur)
  }

  /** The ring after the block at `b` came in at index `p`, merged with the block before it, the one after it,
      both or neither. */
  function Merged(ring: seq<nat>, p: nat, b: nat, left: bool, right: bool): seq<nat>
    requires p <= |ring| && (right ==> p < |ring|)
  {
    ring[..p] + (if left then [] else [b]) + ring[if right then p + 1 else p..]
  }

  predicate MergesLeft(h: Heap, ring: seq<nat>, p: nat, b: nat) {
    0 < p <= |ring| && ring[p - 1] in h.units && ring[p - 1] + h.units[ring[p - 1]] == b
  }

  predicate MergesRight(ring: seq<nat>, p: nat, b: nat, k: nat) {
    p < |ring| && b + k == ring[p]
  }

  /** The ring has one block and `b` ends where it starts: the block is absorbed but stays linked. */
  predicate Absorbs(ring: seq<nat>, b: nat, k: nat) {
    |ring| == 1 && b + k == ring[0]
  }

  lemma TakenApart(h: Heap, ring: seq<nat>, b: nat, k: nat, i: nat)
    requires Ring(h, ring) && Taken(h, ring, b, k) && k > 0 && i < |ring|
    ensures ring[i] in h.units
    ensures if ring[i] <= b then ring[i] + h.units[ring[i]] <= b else b + k <= ring[i]
  {
    assert Linked(h, ring, i);
    if ring[i] <= b {
      assert Within(h, ring, i, b) ==> InFree(h, ring, b);
    } else {
      assert Within(h, ring, i, ring[i]) && InFree(h, ring, ring[i]);
    }
  }

  /** The blocks below index `p` end at or before `b`; the others start at or after its end. */
  ghost predicate Side(h: Heap, ring: seq<nat>, b: nat, k: nat, p: nat, i: nat)
    requires i < |ring|
  {
    ring[i] in h.units && h.units[ring[i]] >= 1 && if i < p then ring[i] + h.units[ring[i]] <= b else b + k <= ring[i]
  }

  ghost predicate Spot(h: Heap, ring: seq<nat>, b: nat, k: nat, p: nat) {
    && Ring(h, ring) && k > 0 && p <= |ring|
    && (forall i: nat {:trigger Side(h, ring, b, k, p, i)} :: i < |ring| ==> Side(h, ring, b, k, p, i))
  }

  lemma PlaceIsSpot(h: Heap, ring: seq<nat>, b: nat, k: nat)
    requires Ring(h, ring) && Taken(h, ring, b, k) && k > 0
    ensures Spot(h, ring, b, k, Place(ring, b, 0))
  {
    var p := Place(ring, b, 0);
    forall i: nat | i < |ring| ensures Side(h, ring, b, k, p, i) {
      assert Linked(h, ring, i);
      TakenApart(h, ring, b, k, i);
      assert p < i < |ring| ==> Apart(h, ring, p, i);
    }
  }

  /** The index of the block that slob_free stops at. */
  function Before(ring: seq<nat>, p: nat): nat
    requires |ring| > 0 && p <= |ring|
  {
    if p == 0 then |ring| - 1 else p - 1
  }

  lemma BlocksApart(h: Heap, ring: seq<nat>, i: nat, j: nat)
    requires Ring(h, ring) && i < |ring| && j < |ring| && i != j
    ensures ring[i] in h.units && ring[j] in h.units
    ensures ring[i] + h.units[ring[i]] < ring[j] || ring[j] + h.units[ring[j]] < ring[i]
  {
    assert Linked(h, ring, i) && Linked(h, ring, j);
    assert if i < j then Apart(h, ring, i, j) else Apart(h, ring, j, i);
  }

  lemma DistinctBlocks(h: Heap, ring: seq<nat>, i: nat, j: nat)
    requires Ring(h, ring) && i < |ring| && j < |ring| && i != j
    ensures ring[i] != ring[j]
  {
    assert if i < j then Apart(h, ring, i, j) else Apart(h, ring, j, i);
  }

  lemma SpotLinks(h: Heap, ring: seq<nat>, b: nat, k: nat, p: nat)
    requires Spot(h, ring, b, k, p)
    ensures var cur := ring[Before(ring, p)];
            && cur in h.next && cur in h.units && h.next[cur] == ring[if p < |ring| then p else 0]
            && h.next[cur] in h.units && h.next[cur] in h.next
            && h.next[h.next[cur]] == Succ(ring, if p < |ring| then p else 0)
            && (MergesLeft(h, ring, p, b) <==> cur + h.units[cur] == b)
            && (MergesRight(ring, p, b, k) <==> b + k == h.next[cur])
  {
    assert Linked(h, ring, Before(ring, p));
    assert Linked(h, ring, if p < |ring| then p else 0);
    assert Side(h, ring, b, k, p, Before(ring, p));
    assert Side(h, ring, b, k, p, 0);
  }

  /** The state and the ring after the block came in, in the terms of the place it comes in at. */
  ghost predicate Released(h: Heap, ring: seq<nat>, b: nat, k: nat, p: nat, h': Heap, ring': seq<nat>) {
    && Spot(h, ring, b, k, p) && Before(ring, p) < |ring|
    && ring[Before(ring, p)] in h.units && ring[Before(ring, p)] in h.next
    && h.next[ring[Before(ring, p)]] in h.units && h.next[ring[Before(ring, p)]] in h.next
    && h' == Release(h, ring[Before(ring, p)], b, k)
    && ring' == Merged(ring, p, b, MergesLeft(h, ring, p, b), MergesRight(ring, p, b, k))
  }

  /** Where block `i` of the new ring was before; the new block itself stands for no old one. */
  function OldIndex(p: nat, left: bool, right: bool, i: nat): int {
    if i < p then i
    else if !left && i == p then -1
    else i - (if left then 0 else 1) + (if right then 1 else 0)
  }

  lemma ReleasedAt(h: Heap, ring: seq<nat>, b: nat, k: nat, p: nat, h': Heap, ring': seq<nat>, i: nat)
    requires Released(h, ring, b, k, p, h', ring') && i < |ring'|
    ensures var o := OldIndex(p, MergesLeft(h, ring, p, b), MergesRight(ring, p, b, k), i);
            -1 <= o < |ring| && ring'[i] == (if o == -1 then b else ring[o]) && (MergesRight(ring, p, b, k) ==> o != p)
  {
  }

  /** The units of a block after the release. */
  lemma ReleasedUnits(h: Heap, ring: seq<nat>, b: nat, k: nat, p: nat, h': Heap, ring': seq<nat>, i: nat)
    requires Released(h, ring, b, k, p, h', ring') && i < |ring'|
    ensures var left, right := MergesLeft(h, ring, p, b), MergesRight(ring, p, b, k);
            var o := OldIndex(p, left, right, i);
            && ring'[i] in h'.units && 0 <= o + 1 <= |ring|
            && (o >= 0 ==> Side(h, ring, b, k, p, o)) && (right ==> Side(h, ring, b, k, p, p))
            && h'.units[ring'[i]] == (if o >= 0 then h.units[ring[o]] else 0)
                                     + (if o == -1 || (left && o == p - 1) then k + (if right then h.units[ring[p]] else 0) else 0)
  {
    SpotLinks(h, ring, b, k, p);
    ReleasedAt(h, ring, b, k, p, h', ring', i);
    var o := OldIndex(p, MergesLeft(h, ring, p, b), MergesRight(ring, p, b, k), i);
    if o >= 0 {
      assert Side(h, ring, b, k, p, o);
      if o != Before(ring, p) {
        DistinctBlocks(h, ring, o, Before(ring, p));
      }
    }
  }

  lemma ReleasedApart(h: Heap, ring: seq<nat>, b: nat, k: nat, p: nat, h': Heap, ring': seq<nat>, i: nat, j: nat)
    requires Released(h, ring, b, k, p, h', ring') && i < j < |ring'|
    ensures Apart(h', ring', i, j)
  {
    var left, right := MergesLeft(h, ring, p, b), MergesRight(ring, p, b, k);
    ReleasedUnits(h, ring, b, k, p, h', ring', i);
    ReleasedAt(h, ring, b, k, p, h', ring', i);
    ReleasedAt(h, ring, b, k, p, h', ring', j);
    var o, q := OldIndex(p, left, right, i), OldIndex(p, left, right, j);
    assert o >= 0 && q >= 0 ==> Apart(h, ring, o, q);
    assert q > p ==> Apart(h, ring, p, q) && Side(h, ring, b, k, p, p);
    assert q >= 0 ==> Side(h, ring, b, k, p, q);
    assert 0 <= o < p - 1 ==> Apart(h, ring, o, p - 1) && Side(h, ring, b, k, p, p - 1);
  }

  /** The link of each block of the new ring. */
  lemma ReleasedNext(h: Heap, ring: seq<nat>, b: nat, k: nat, p: nat, h': Heap, ring': seq<nat>, i: nat)
    requires Released(h, ring, b, k, p, h', ring') && !Absorbs(ring, b, k) && i < |ring'|
    ensures var left, right := MergesLeft(h, ring, p, b), MergesRight(ring, p, b, k);
            var o := OldIndex(p, left, right, i);
            && ring'[i] in h'.next && o < |ring|
            && h'.next[ring'[i]] == if o == -1 || (left && o == p - 1)
                                    then (if right then Succ(ring, p) else ring[if p < |ring| then p else 0])
                                    else if o == Before(ring, p) then b
                                    else Succ(ring, o)
  {
    var c := Before(ring, p);
    SpotLinks(h, ring, b, k, p);
    ReleasedAt(h, ring, b, k, p, h', ring', i);
    assert Side(h, ring, b, k, p, c);
    var o := OldIndex(p, MergesLeft(h, ring, p, b), MergesRight(ring, p, b, k), i);
    if o >= 0 {
      assert Linked(h, ring, o) && Side(h, ring, b, k, p, o);
      if o != c {
        DistinctBlocks(h, ring, o, c);
      }
    }
  }

  lemma ReleasedLinked(h: Heap, ring: seq<nat>, b: nat, k: nat, p: nat, h': Heap, ring': seq<nat>, i: nat)
    requires Released(h, ring, b, k, p, h', ring') && !Absorbs(ring, b, k) && i < |ring'|
    ensures Linked(h', ring', i)
  {
    var left, right := MergesLeft(h, ring, p, b), MergesRight(ring, p, b, k);
    ReleasedUnits(h, ring, b, k, p, h', ring', i);
    ReleasedNext(h, ring, b, k, p, h', ring', i);
    ReleasedAt(h, ring, b, k, p, h', ring', if i + 1 < |ring'| then i + 1 else 0);
    assert |ring'| == |ring| + 1 - (if left then 1 else 0) - (if right then 1 else 0);
  }

  /** slob_free keeps the ring circular, ordered and coalesced, whichever neighbours it merges with. */
  lemma ReleaseRing(h: Heap, ring: seq<nat>, b: nat, k: nat, p: nat, h': Heap, ring': seq<nat>)
    requires Released(h, ring, b, k, p, h', ring') && !Absorbs(ring, b, k)
    ensures Ring(h', ring')
  {
    forall i: nat | i < |ring'| ensures Linked(h', ring', i) {
      ReleasedLinked(h, ring, b, k, p, h', ring', i);
    }
    forall i: nat, j: nat | i < j < |ring'| ensures Apart(h', ring', i, j) {
      ReleasedApart(h, ring, b, k, p, h', ring', i, j);
    }
    var c := Before(ring, p);
    var i := if p == 0 then |ring'| - 1 else p - 1;
    ReleasedAt(h, ring, b, k, p, h', ring', i);
    assert ring'[i] == ring[c];
  }

  /** Where an old block is in the new ring: the block after the new one may have become part of it. */
  function NewIndex(p: nat, left: bool, right: bool, o: nat): int {
    if o < p then o
    else if right && o == p then (if left then p - 1 else p)
    else o + (if left then 0 else 1) - (if right then 1 else 0)
  }

  lemma ReleasedHas(h: Heap, ring: seq<nat>, b: nat, k: nat, p: nat, h': Heap, ring': seq<nat>, x: nat)
    requires Released(h, ring, b, k, p, h', ring') && (InFree(h, ring, x) || b <= x < b + k)
    ensures InFree(h', ring', x)
  {
    var left, right := MergesLeft(h, ring, p, b), MergesRight(ring, p, b, k);
    var i: int;
    if b <= x < b + k {
      i := if left then p - 1 else p;
    } else {
      var o: nat :| o < |ring| && Within(h, ring, o, x);
      i := NewIndex(p, left, right, o);
    }
    ReleasedAt(h, ring, b, k, p, h', ring', i);
    ReleasedUnits(h, ring, b, k, p, h', ring', i);
    assert Within(h', ring', i, x);
  }

  lemma ReleasedOnly(h: Heap, ring: seq<nat>, b: nat, k: nat, p: nat, h': Heap, ring': seq<nat>, x: nat)
    requires Released(h, ring, b, k, p, h', ring') && InFree(h', ring', x)
    ensures InFree(h, ring, x) || b <= x < b + k
  {
    var left, right := MergesLeft(h, ring, p, b), MergesRight(ring, p, b, k);
    var i: nat :| i < |ring'| && Within(h', ring', i, x);
    ReleasedAt(h, ring, b, k, p, h', ring', i);
    ReleasedUnits(h, ring, b, k, p, h', ring', i);
    var o := OldIndex(p, left, right, i);
    assert o >= 0 ==> Within(h, ring, o, x) || (left && o == p - 1);
    assert right ==> (Within(h, ring, p, x) <==> ring[p] <= x < ring[p] + h.units[ring[p]]);
    assert o >= 0 ==> (Within(h, ring, o, x) <==> ring[o] <= x < ring[o] + h.units[ring[o]]);
  }

  /** slob_free adds exactly the freed units to the free ones. */
  lemma ReleaseUnits(h: Heap, ring: seq<nat>, b: nat, k: nat, p: nat, h': Heap, ring': seq<nat>)
    requires Released(h, ring, b, k, p, h', ring')
    ensures forall x: nat {:trigger InFree(h', ring', x)} :: InFree(h', ring', x) <==> InFree(h, ring, x) || b <= x < b + k
  {
    forall x: nat ensures InFree(h', ring', x) <==> InFree(h, ring, x) || b <= x < b + k {
      if InFree(h, ring, x) || b <= x < b + k {
        ReleasedHas(h, ring, b, k, p, h', ring', x);
      }
      if InFree(h', ring', x) {
        ReleasedOnly(h, ring, b, k, p, h', ring', x);
      }
    }
  }

  /** All units of the freed block, and no others, became free. */
  ghost predicate Gained(h: Heap, ring: seq<nat>, h': Heap, ring': seq<nat>, b: nat, k: nat) {
    forall x: nat {:trigger InFree(h', ring', x)} :: InFree(h', ring', x) <==> InFree(h, ring, x) || b <= x < b + k
  }

  lemma AbsorbedBreaks(h: Heap, x: nat, b: nat, k: nat, h': Heap, ring': seq<nat>)
    requires Ring(h, [x]) && k > 0 && b + k == x && x in h.units && x in h.next && h.next[x] == x && h' == Release(h, x, b, k)
    ensures !Ring(h', ring')
  {
    if Ring(h', ring') {
      var i: nat :| i < |ring'| && ring'[i] == x;
      assert Linked(h, [x], 0);
      assert Linked(h', ring', i);
      var j := if i + 1 < |ring'| then i + 1 else 0;
      assert ring'[j] == b;
      BlocksApart(h', ring', i, j);
    }
  }

  /** slob_free leaves a good ring with exactly the freed units added, unless the only free block starts where
      the freed one ends. */
  lemma ReleaseExact(h: Heap, ring: seq<nat>, b: nat, k: nat)
    requires Ring(h, ring) && Taken(h, ring, b, k) && k > 0
    ensures var cur := Pred(ring, Place(ring, b, 0));
            && cur in h.next && cur in h.units && h.next[cur] in h.units && h.next[cur] in h.next
            && (!Absorbs(ring, b, k) <==>
                exists ring' :: Ring(Release(h, cur, b, k), ring') && Gained(h, ring, Release(h, cur, b, k), ring', b, k))
  {
    var p := Place(ring, b, 0);
    PlaceIsSpot(h, ring, b, k);
    SpotLinks(h, ring, b, k, p);
    var h' := Release(h, Pred(ring, p), b, k);
    var ring' := Merged(ring, p, b, MergesLeft(h, ring, p, b), MergesRight(ring, p, b, k));
    assert Released(h, ring, b, k, p, h', ring');
    if Absorbs(ring, b, k) {
      assert ring == [ring[0]];
      assert Linked(h, ring, 0);
      forall r ensures !Ring(h', r) {
        AbsorbedBreaks(h, ring[0], b, k, h', r);
      }
    } else {
      ReleaseRing(h, ring, b, k, p, h', ring');
      ReleaseUnits(h, ring, b, k, p, h', ring');
    }
  }

  // ---------------------------------------------------------------- slob_alloc

  /** How far the first multiple of `align` at or above `cur` is; no alignment is asked for with 0. */
  function Delta(cur: nat, align: nat): nat {
    if align == 0 then 0 else (align - cur % align) % align
  }

  lemma DeltaAligns(cur: nat, align: nat)
    requires align > 0
    ensures (cur + Delta(cur, align)) % align == 0 && Delta(cur, align) < align
  {
    var q, r := cur / align, cur % align;
    if r > 0 {
      SmallRemainder(align - r, align);
      Multiple(q + 1, align);
      assert cur + (align - r) == (q + 1) * align;
    } else {
      Multiple(1, align);
    }
  }

  lemma SmallRemainder(x: nat, m: nat)
    requires x < m
    ensures x % m == x
  {
  }

  lemma {:induction false} Multiple(q: nat, m: nat)
    requires m > 0
    ensures (q * m) % m == 0
  {
    if q > 0 {
      Multiple(q - 1, m);
      assert q * m == (q - 1) * m + m;
      AddOnce((q - 1) * m, m);
    }
  }

  lemma AddOnce(x: nat, m: nat)
    requires m > 0
    ensures (x + m) % m == x % m
  {
    var q := x / m;
    assert x + m == (q + 1) * m + x % m;
    QuotientUnique(x + m, m, q + 1, x % m);
  }

  lemma {:induction false} TimesGap(q: nat, r: nat, m: nat)
    requires q < r
    ensures q * m + m <= r * m
  {
    assert r * m == (r - 1) * m + m;
    if q < r - 1 {
      TimesGap(q, r - 1, m);
    }
  }

  lemma QuotientUnique(x: nat, m: nat, q: nat, r: nat)
    requires m > 0 && r < m && x == q * m + r
    ensures x % m == r
  {
    if q < x / m {
      TimesGap(q, x / m, m);
    } else if x / m < q {
      TimesGap(x / m, q, m);
    }
  }

  /** Splitting the front off a block, up to its aligned part. */
  function SplitFront(h: Heap, cur: nat, d: nat): Heap
    requires cur in h.units && cur in h.next && d <= h.units[cur]
  {
    Heap(h.units[cur + d := h.units[cur] - d][cur := d], h.next[cur + d := h.next[cur]][cur := cur + d], h.free)
  }

  /** Taking the first `k` units of block `c`, which follows `prev`. */
  function TakeUnits(h: Heap, prev: nat, c: nat, k: nat): Heap
    requires c in h.units && c in h.next && k <= h.units[c]
  {
    if h.units[c] == k then Heap(h.units, h.next[prev := h.next[c]], prev)
    else
      var next := h.next[prev := c + k];
      Heap(h.units[c + k := h.units[c] - k][c := k], next[c + k := next[c]], prev)
  }

  /** The pointer updates of slob_alloc on a block that fits, once an aligned start `d` units into it and the
      block before it are known. */
  function Carve(h: Heap, prev: nat, cur: nat, k: nat, d: nat): Heap
    requires cur in h.units && cur in h.next && d + k <= h.units[cur]
  {
    if d > 0 then TakeUnits(SplitFront(h, cur, d), cur, cur + d, k) else TakeUnits(h, prev, cur, k)
  }

  /** The ring after `k` units were taken `d` units into block `i`: a front part stays when there is one, and
      so does a tail. */
  function Carved(ring: seq<nat>, i: nat, k: nat, d: nat, tail: bool): seq<nat>
    requires i < |ring|
  {
    ring[..i] + (if d > 0 then [ring[i]] else []) + (if tail then [ring[i] + d + k] else []) + ring[i + 1..]
  }

  /** The only block is used from its start: the ring keeps no other block to link from. */
  predicate Empties(ring: seq<nat>, d: nat) {
    |ring| == 1 && d == 0
  }

  /** The allocation of `k` units `d` units into block `i`. */
  ghost predicate Cut(h: Heap, ring: seq<nat>, i: nat, k: nat, d: nat, h': Heap, ring': seq<nat>) {
    && Ring(h, ring) && i < |ring| && k > 0 && ring[i] in h.units && ring[i] in h.next && d + k <= h.units[ring[i]]
    && h' == Carve(h, ring[Before(ring, i)], ring[i], k, d)
    && ring' == Carved(ring, i, k, d, d + k < h.units[ring[i]])
  }

  /** Where block `m` of the new ring was before; the tail stands for no old block. */
  function CutIndex(i: nat, front: bool, tail: bool, m: nat): int {
    if m < i then m
    else if front && m == i then i
    else if tail && m == i + (if front then 1 else 0) then -1
    else m + 1 - (if front then 1 else 0) - (if tail then 1 else 0)
  }

  lemma CutAt(h: Heap, ring: seq<nat>, i: nat, k: nat, d: nat, h': Heap, ring': seq<nat>, m: nat)
    requires Cut(h, ring, i, k, d, h', ring') && m < |ring'|
    ensures var o := CutIndex(i, d > 0, d + k < h.units[ring[i]], m);
            && -1 <= o < |ring| && ring'[m] == (if o == -1 then ring[i] + d + k else ring[o])
            && (o == i ==> d > 0)
  {
  }

  lemma CutUnits(h: Heap, ring: seq<nat>, i: nat, k: nat, d: nat, h': Heap, ring': seq<nat>, m: nat)
    requires Cut(h, ring, i, k, d, h', ring') && m < |ring'|
    ensures var o := CutIndex(i, d > 0, d + k < h.units[ring[i]], m);
            && ring'[m] in h'.units && (o >= 0 ==> o < |ring| && ring[o] in h.units)
            && h'.units[ring'[m]] == if o == -1 then h.units[ring[i]] - d - k else if o == i then d else h.units[ring[o]]
  {
    CutAt(h, ring, i, k, d, h', ring', m);
    var o := CutIndex(i, d > 0, d + k < h.units[ring[i]], m);
    if o >= 0 && o != i {
      assert Linked(h, ring, o);
      BlocksApart(h, ring, o, i);
    }
  }

  lemma CutApart(h: Heap, ring: seq<nat>, i: nat, k: nat, d: nat, h': Heap, ring': seq<nat>, m: nat, n: nat)
    requires Cut(h, ring, i, k, d, h', ring') && m < n < |ring'|
    ensures Apart(h', ring', m, n)
  {
    CutUnits(h, ring, i, k, d, h', ring', m);
    CutAt(h, ring, i, k, d, h', ring', m);
    CutAt(h, ring, i, k, d, h', ring', n);
    var tail := d + k < h.units[ring[i]];
    var o, q := CutIndex(i, d > 0, tail, m), CutIndex(i, d > 0, tail, n);
    assert o >= 0 && q >= 0 ==> Apart(h, ring, o, q);
    assert q > i ==> Apart(h, ring, i, q);
    assert 0 <= o < i ==> Apart(h, ring, o, i);
  }

  /** The link of each block of the new ring. */
  lemma CutNext(h: Heap, ring: seq<nat>, i: nat, k: nat, d: nat, h': Heap, ring': seq<nat>, m: nat)
    requires Cut(h, ring, i, k, d, h', ring') && !Empties(ring, d) && m < |ring'|
    ensures var tail := d + k < h.units[ring[i]];
            var o := CutIndex(i, d > 0, tail, m);
            && ring'[m] in h'.next && o < |ring|
            && h'.next[ring'[m]] == if o == -1 then Succ(ring, i)
                                    else if o == (if d > 0 then i else Before(ring, i))
                                    then (if tail then ring[i] + d + k else Succ(ring, i))
                                    else Succ(ring, o)
  {
    var c := Before(ring, i);
    CutAt(h, ring, i, k, d, h', ring', m);
    var o := CutIndex(i, d > 0, d + k < h.units[ring[i]], m);
    assert Linked(h, ring, i) && Linked(h, ring, c);
    if c != i {
      BlocksApart(h, ring, c, i);
    }
    if o >= 0 && o != i {
      assert Linked(h, ring, o);
      BlocksApart(h, ring, o, i);
      if o != c {
        DistinctBlocks(h, ring, o, c);
      }
    }
  }

  lemma CutLinked(h: Heap, ring: seq<nat>, i: nat, k: nat, d: nat, h': Heap, ring': seq<nat>, m: nat)
    requires Cut(h, ring, i, k, d, h', ring') && !Empties(ring, d) && m < |ring'|
    ensures Linked(h', ring', m)
  {
    var tail := d + k < h.units[ring[i]];
    CutUnits(h, ring, i, k, d, h', ring', m);
    CutNext(h, ring, i, k, d, h', ring', m);
    CutAt(h, ring, i, k, d, h', ring', if m + 1 < |ring'| then m + 1 else 0);
    assert |ring'| == |ring| - 1 + (if d > 0 then 1 else 0) + (if tail then 1 else 0);
    var o := CutIndex(i, d > 0, tail, m);
    assert o >= 0 ==> Linked(h, ring, o);
  }

  /** slob_alloc keeps the ring circular, ordered and coalesced, with the front and the tail in their place. */
  lemma CutRing(h: Heap, ring: seq<nat>, i: nat, k: nat, d: nat, h': Heap, ring': seq<nat>)
    requires Cut(h, ring, i, k, d, h', ring') && !Empties(ring, d)
    ensures Ring(h', ring')
  {
    forall m: nat | m < |ring'| ensures Linked(h', ring', m) {
      CutLinked(h, ring, i, k, d, h', ring', m);
    }
    forall m: nat, n: nat | m < n < |ring'| ensures Apart(h', ring', m, n) {
      CutApart(h, ring, i, k, d, h', ring', m, n);
    }
    var m := if d > 0 then i else if i == 0 then |ring'| - 1 else i - 1;
    CutAt(h, ring, i, k, d, h', ring', m);
    assert ring'[m] == h'.free;
  }

  lemma CutHas(h: Heap, ring: seq<nat>, i: nat, k: nat, d: nat, h': Heap, ring': seq<nat>, x: nat)
    requires Cut(h, ring, i, k, d, h', ring') && InFree(h, ring, x) && !(ring[i] + d <= x < ring[i] + d + k)
    ensures InFree(h', ring', x)
  {
    var front, tail := if d > 0 then 1 else 0, if d + k < h.units[ring[i]] then 1 else 0;
    var o: nat :| o < |ring| && Within(h, ring, o, x);
    var m := if o < i then o else if o > i then o - 1 + front + tail else if x < ring[i] + d then i else i + front;
    CutAt(h, ring, i, k, d, h', ring', m);
    CutUnits(h, ring, i, k, d, h', ring', m);
    assert Within(h', ring', m, x);
  }

  lemma CutOnly(h: Heap, ring: seq<nat>, i: nat, k: nat, d: nat, h': Heap, ring': seq<nat>, x: nat)
    requires Cut(h, ring, i, k, d, h', ring') && InFree(h', ring', x)
    ensures InFree(h, ring, x) && !(ring[i] + d <= x < ring[i] + d + k)
  {
    var m: nat :| m < |ring'| && Within(h', ring', m, x);
    CutAt(h, ring, i, k, d, h', ring', m);
    CutUnits(h, ring, i, k, d, h', ring', m);
    var o := CutIndex(i, d > 0, d + k < h.units[ring[i]], m);
    assert Within(h, ring, if o == -1 then i else o, x);
    if o >= 0 && o != i {
      BlocksApart(h, ring, o, i);
    }
  }

  /** The allocated units, and no others, stopped being free. */
  ghost predicate Lost(h: Heap, ring: seq<nat>, h': Heap, ring': seq<nat>, c: nat, k: nat) {
    forall x: nat {:trigger InFree(h', ring', x)} :: InFree(h', ring', x) <==> InFree(h, ring, x) && !(c <= x < c + k)
  }

  lemma CutLoses(h: Heap, ring: seq<nat>, i: nat, k: nat, d: nat, h': Heap, ring': seq<nat>)
    requires Cut(h, ring, i, k, d, h', ring')
    ensures Lost(h, ring, h', ring', ring[i] + d, k)
    ensures forall x: nat :: ring[i] + d <= x < ring[i] + d + k ==> InFree(h, ring, x)
    ensures ring[i] + d in h'.units && h'.units[ring[i] + d] == k
  {
    forall x: nat ensures InFree(h', ring', x) <==> InFree(h, ring, x) && !(ring[i] + d <= x < ring[i] + d + k) {
      if InFree(h, ring, x) && !(ring[i] + d <= x < ring[i] + d + k) {
        CutHas(h, ring, i, k, d, h', ring', x);
      }
      if InFree(h', ring', x) {
        CutOnly(h, ring, i, k, d, h', ring', x);
      }
    }
    forall x: nat | ring[i] + d <= x < ring[i] + d + k ensures InFree(h, ring, x) {
      assert Within(h, ring, i, x);
    }
  }

  /** slob_alloc leaves a good ring with exactly the allocated units gone, unless it uses the only free block
      from its start. */
  lemma CarveExact(h: Heap, ring: seq<nat>, i: nat, k: nat, d: nat)
    requires Ring(h, ring) && i < |ring| && k > 0 && ring[i] in h.units && ring[i] in h.next && d + k <= h.units[ring[i]]
    ensures var h' := Carve(h, ring[Before(ring, i)], ring[i], k, d);
            !Empties(ring, d) <==> exists ring' :: Ring(h', ring') && Lost(h, ring, h', ring', ring[i] + d, k)
  {
    var h' := Carve(h, ring[Before(ring, i)], ring[i], k, d);
    var ring' := Carved(ring, i, k, d, d + k < h.units[ring[i]]);
    assert Cut(h, ring, i, k, d, h', ring');
    if Empties(ring, d) {
      forall r ensures !(Ring(h', r) && Lost(h, ring, h', r, ring[i] + d, k)) {
        if Ring(h', r) {
          var m: nat :| m < |r| && r[m] == h'.free;
          assert Linked(h', r, m) && Within(h', r, m, ring[i]) && InFree(h', r, ring[i]);
        }
      }
    } else {
      CutRing(h, ring, i, k, d, h', ring');
      CutLoses(h, ring, i, k, d, h', ring');
    }
  }

  // ---------------------------------------------------------------- the loops

  /** SLOB_UNITS, for a size in bytes. */
  function SlobUnits(size: nat): nat {
    (size + 15) / 16
  }

  /** They are as many as the size needs, and no more. */
  lemma UnitsCover(size: nat)
    ensures size <= 16 * SlobUnits(size) < size + 16
  {
  }

  predicate Fits(h: Heap, cur: nat, k: nat, align: nat) {
    cur in h.units && k + Delta(cur, align) <= h.units[cur]
  }

  predicate BlockFits(h: Heap, ring: seq<nat>, o: nat, k: nat, align: nat)
    requires o < |ring|
  {
    Fits(h, ring[o], k, align)
  }

  ghost predicate SomeFits(h: Heap, ring: seq<nat>, k: nat, align: nat) {
    exists o: nat {:trigger BlockFits(h, ring, o, k, align)} :: o < |ring| && BlockFits(h, ring, o, k, align)
  }

  /** The test that ends slob_free's walk is true at one block only: the one before the freed block. */
  lemma StopsAt(h: Heap, ring: seq<nat>, b: nat, k: nat, p: nat, c: nat)
    requires Spot(h, ring, b, k, p) && c < |ring|
    ensures var next := Succ(ring, c);
            ring[c] < b < next || (ring[c] >= next && (b > ring[c] || b < next)) <==> c == Before(ring, p)
  {
    assert Side(h, ring, b, k, p, c);
    assert Side(h, ring, b, k, p, if c + 1 < |ring| then c + 1 else 0);
    assert c + 1 < |ring| ==> Apart(h, ring, c, c + 1);
    assert c + 1 == |ring| && 0 < c ==> Apart(h, ring, 0, c);
  }

  /** How many links lead from index `i` to index `j`. */
  function Hops(n: nat, i: nat, j: nat): nat
    requires i < n && j < n
  {
    if i <= j then j - i else j - i + n
  }

  /** slob_free did its work: a good ring, and exactly the freed units added. */
  ghost predicate FreedBlock(h: Heap, ring: seq<nat>, h': Heap, ring': seq<nat>, b: nat, k: nat) {
    Ring(h', ring') && Gained(h, ring, h', ring', b, k) && Released(h, ring, b, k, Place(ring, b, 0), h', ring')
  }

  lemma SpotApart(h: Heap, ring: seq<nat>, b: nat, k: nat, p: nat)
    requires Spot(h, ring, b, k, p)
    ensures b !in ring
  {
    forall i: nat | i < |ring| ensures ring[i] != b {
      assert Side(h, ring, b, k, p, i);
    }
  }

  /** What slob_free relies on, and that it may store the number of units first. */
  lemma FreePrepares(h: Heap, ring: seq<nat>, b: nat, k: nat)
    requires Ring(h, ring) && Taken(h, ring, b, k) && k > 0
    ensures var p := Place(ring, b, 0); var cur := Pred(ring, p);
            && Spot(h, ring, b, k, p) && cur != b
            && cur in h.next && cur in h.units && h.next[cur] in h.units && h.next[cur] in h.next && h.next[cur] != b
            && Release(Heap(h.units[b := k], h.next, h.free), cur, b, k) == Release(h, cur, b, k)
  {
    PlaceIsSpot(h, ring, b, k);
    SpotLinks(h, ring, b, k, Place(ring, b, 0));
    SpotApart(h, ring, b, k, Place(ring, b, 0));
  }

  lemma FreedBlockDone(h: Heap, ring: seq<nat>, b: nat, k: nat, cur: nat, h': Heap) returns (ring': seq<nat>)
    requires Ring(h, ring) && Taken(h, ring, b, k) && k > 0 && !Absorbs(ring, b, k) && cur == Pred(ring, Place(ring, b, 0))
    requires cur in h.next && cur in h.units && h.next[cur] in h.units && h.next[cur] in h.next
    requires h' == Release(h, cur, b, k)
    ensures FreedBlock(h, ring, h', ring', b, k)
  {
    var p := Place(ring, b, 0);
    PlaceIsSpot(h, ring, b, k);
    ring' := Merged(ring, p, b, MergesLeft(h, ring, p, b), MergesRight(ring, p, b, k));
    ReleaseRing(h, ring, b, k, p, h', ring');
    ReleaseUnits(h, ring, b, k, p, h', ring');
  }

  /** A block on the way from index `first` to index `last` fits. */
  ghost predicate FitsBetween(h: Heap, ring: seq<nat>, first: nat, last: nat, k: nat, align: nat)
    requires first < |ring| && last < |ring|
  {
    exists o: nat {:trigger BlockFits(h, ring, o, k, align)} ::
      o < |ring| && Hops(|ring|, first, o) <= Hops(|ring|, first, last) && BlockFits(h, ring, o, k, align)
  }

  /** No block from index `first` up to but not including index `i` fits. */
  ghost predicate NoneBefore(h: Heap, ring: seq<nat>, first: nat, i: nat, k: nat, align: nat)
    requires first < |ring| && i < |ring|
  {
    forall o: nat {:trigger BlockFits(h, ring, o, k, align)} ::
      o < |ring| && Hops(|ring|, first, o) < Hops(|ring|, first, i) ==> !BlockFits(h, ring, o, k, align)
  }

  lemma NoneAfter(h: Heap, ring: seq<nat>, first: nat, last: nat, i: nat, k: nat, align: nat)
    requires first < |ring| && i < |ring| && last < |ring| && Hops(|ring|, first, i) <= Hops(|ring|, first, last)
    requires NoneBefore(h, ring, first, i, k, align) && !BlockFits(h, ring, i, k, align)
    ensures i == last ==> !FitsBetween(h, ring, first, last, k, align)
    ensures i != last ==>
              var j := if i + 1 < |ring| then i + 1 else 0;
              && NoneBefore(h, ring, first, j, k, align) && Before(ring, j) == i
              && Hops(|ring|, first, j) <= Hops(|ring|, first, last) && Hops(|ring|, j, last) < Hops(|ring|, i, last)
  {
  }

  /** slob_alloc took the first block from index `first` on that fits, and an aligned part of it. */
  ghost predicate CutFirst(h: Heap, ring: seq<nat>, h': Heap, ring': seq<nat>, first: nat, k: nat, align: nat, i: nat, c: nat) {
    Takes(h, ring, h', ring', k, align, i, c) && first < |ring| && NoneBefore(h, ring, first, i, k, align)
  }

  /** The block at index `i` fits, and an aligned part of it was taken. */
  ghost predicate Takes(h: Heap, ring: seq<nat>, h': Heap, ring': seq<nat>, k: nat, align: nat, i: nat, c: nat) {
    && i < |ring| && BlockFits(h, ring, i, k, align) && c == ring[i] + Delta(ring[i], align)
    && Cut(h, ring, i, k, Delta(ring[i], align), h', ring')
  }

  lemma FullLap(h: Heap, ring: seq<nat>, last: nat, k: nat, align: nat)
    requires last < |ring|
    ensures FitsBetween(h, ring, if last + 1 < |ring| then last + 1 else 0, last, k, align) <==> SomeFits(h, ring, k, align)
  {
    if SomeFits(h, ring, k, align) {
      var o: nat :| o < |ring| && BlockFits(h, ring, o, k, align);
      assert BlockFits(h, ring, o, k, align);
    }
  }

  // ---------------------------------------------------------------- pages

  lemma NextMultiple(b: nat, p: nat, m: nat)
    requires m > 0 && p % m == 0 && b <= p
    ensures b + Delta(b, m) <= p
  {
    var q, r := b / m, b % m;
    if r > 0 {
      SmallRemainder(m - r, m);
      if p / m < q {
        TimesGap(p / m, q, m);
      } else if q < p / m {
        TimesGap(q, p / m, m);
      }
    } else {
      Multiple(1, m);
    }
  }

  lemma DivisorOfPage(p: nat, align: nat)
    requires p % 256 == 0 && align > 0 && 256 % align == 0
    ensures p % align == 0
  {
    var a, b := p / 256, 256 / align;
    Multiple(a * b, align);
    assert p == a * 256 && 256 == b * align;
    assert (a * b) * align == a * (b * align);
  }

  /** The alignments for which a page start is aligned. */
  predicate PageAlign(align: nat) {
    align == 0 || 256 % align == 0
  }

  /** A free block that contains a whole page holds every request of at most a page. */
  lemma PageFits(h: Heap, b: nat, page: nat, k: nat, align: nat)
    requires b in h.units && b <= page && page + 256 <= b + h.units[b] && page % 256 == 0 && k <= 256 && PageAlign(align)
    ensures Fits(h, b, k, align)
  {
    if align > 0 {
      DivisorOfPage(page, align);
      NextMultiple(b, page, align);
    }
  }

  /** The block that the freed units are part of. */
  function Host(h: Heap, ring: seq<nat>, b: nat): nat {
    var p := Place(ring, b, 0);
    if MergesLeft(h, ring, p, b) then p - 1 else p
  }

  /** Every block but the host is an old one, as small as before. */
  lemma OthersMiss(h: Heap, ring: seq<nat>, b: nat, k: nat, h': Heap, ring': seq<nat>, i: nat, size: nat, align: nat)
    requires FreedBlock(h, ring, h', ring', b, k) && i < |ring'| && i != Host(h, ring, b)
    ensures var o := OldIndex(Place(ring, b, 0), MergesLeft(h, ring, Place(ring, b, 0), b), MergesRight(ring, Place(ring, b, 0), b, k), i);
            0 <= o < |ring| && (i < Place(ring, b, 0) ==> o == i) && (BlockFits(h', ring', i, size, align) <==> BlockFits(h, ring, o, size, align))
  {
    ReleasedAt(h, ring, b, k, Place(ring, b, 0), h', ring', i);
    ReleasedUnits(h, ring, b, k, Place(ring, b, 0), h', ring', i);
  }

  /** After a block was freed above another one: the host holds it, the freed block still links to the block after
      the host, and searches now start at the host or, when the freed block is the host, before it. */
  lemma HostLinks(h: Heap, ring: seq<nat>, b: nat, k: nat, h': Heap, ring': seq<nat>)
    requires FreedBlock(h, ring, h', ring', b, k) && k > 0 && 0 < Place(ring, b, 0)
    ensures var left := MergesLeft(h, ring, Place(ring, b, 0), b); var m := Host(h, ring, b);
            && m < |ring'| && (!left ==> 0 < m && ring'[m] == b) && b in h'.next && h'.next[b] == Succ(ring', m)
            && h'.free == (if left then ring'[m] else ring'[m - 1])
            && ring'[m] in h'.units && ring'[m] <= b && b + k <= ring'[m] + h'.units[ring'[m]]
  {
    var p := Place(ring, b, 0);
    var left := MergesLeft(h, ring, p, b);
    var m := Host(h, ring, b);
    SpotLinks(h, ring, b, k, p);
    SpotApart(h, ring, b, k, p);
    ReleasedAt(h, ring, b, k, p, h', ring', m);
    ReleasedUnits(h, ring, b, k, p, h', ring', m);
    assert Linked(h', ring', m);
    ReleasedAt(h, ring, b, k, p, h', ring', p - 1);
  }

  /** The search that slob_alloc resumes after a donation can start from the donated page: it is on the ring, or
      the block it links to is too small. */
  ghost predicate Resumable(h: Heap, ring: seq<nat>, start: nat, first: nat, k: nat, align: nat) {
    && first < |ring| && start in h.next && h.next[start] == ring[first]
    && (start == ring[Before(ring, first)] || !BlockFits(h, ring, first, k, align))
  }

  function After(ring: seq<nat>, i: nat): nat
    requires i < |ring|
  {
    if i + 1 < |ring| then i + 1 else 0
  }

  /** The index where the search after a donation ends. */
  function LastAfter(h: Heap, ring: seq<nat>, b: nat): int {
    if MergesLeft(h, ring, Place(ring, b, 0), b) then Host(h, ring, b) else Host(h, ring, b) - 1
  }

  /** A donation after a lap in which nothing fitted.  When the page joins the block before it, the resumed search
      ends with that block and finds it; otherwise it sees only blocks that were already too small. */
  lemma FirstDonation(h: Heap, ring: seq<nat>, b: nat, h': Heap, ring': seq<nat>, k: nat, align: nat)
    requires FreedBlock(h, ring, h', ring', b, 256) && !SomeFits(h, ring, k, align)
    requires b % 256 == 0 && k <= 256 && PageAlign(align) && 0 < Place(ring, b, 0)
    requires MergesLeft(h, ring, Place(ring, b, 0), b) ==> 1 < Place(ring, b, 0)
    ensures var m := Host(h, ring, b); var last := LastAfter(h, ring, b);
            && m < |ring'| && 0 <= last < |ring'| && h'.free == ring'[last] && Resumable(h', ring', b, After(ring', m), k, align)
            && (FitsBetween(h', ring', After(ring', m), last, k, align) <==> MergesLeft(h, ring, Place(ring, b, 0), b))
            && (forall i: nat {:trigger BlockFits(h', ring', i, k, align)} :: i < |ring'| && i != m ==> !BlockFits(h', ring', i, k, align))
  {
    var m := Host(h, ring, b);
    HostLinks(h, ring, b, 256, h', ring');
    PageFits(h', ring'[m], b, k, align);
    forall i: nat | i < |ring'| && i != m ensures !BlockFits(h', ring', i, k, align) {
      OthersMiss(h, ring, b, 256, h', ring', i, k, align);
    }
    assert BlockFits(h', ring', m, k, align);
    assert ring'[Before(ring', After(ring', m))] == ring'[m];
  }

  /** A second, higher donation leaves the block with the first page where it is. */
  lemma FirstPageStays(h: Heap, ring: seq<nat>, m: nat, b: nat, h': Heap, ring': seq<nat>, k: nat, align: nat)
    requires FreedBlock(h, ring, h', ring', b, 256) && 0 < m < |ring| && BlockFits(h, ring, m, k, align)
    requires ring[m] in h.units && ring[m] + 256 <= b && b % 256 == 0 && k <= 256 && PageAlign(align)
    ensures m < Place(ring, b, 0) && m < |ring'| && BlockFits(h', ring', m, k, align)
  {
    var p := Place(ring, b, 0);
    assert m < p by {
      assert p < m ==> Apart(h, ring, p, m);
    }
    HostLinks(h, ring, b, 256, h', ring');
    if m == Host(h, ring, b) {
      PageFits(h', ring'[m], b, k, align);
    } else {
      OthersMiss(h, ring, b, 256, h', ring', m, k, align);
    }
  }

  /** Now the search finds the first page, or the block the second one joined. */
  lemma SecondDonation(h: Heap, ring: seq<nat>, m: nat, b: nat, h': Heap, ring': seq<nat>, k: nat, align: nat)
    requires FreedBlock(h, ring, h', ring', b, 256) && 0 < m < |ring| && BlockFits(h, ring, m, k, align)
    requires forall i: nat {:trigger BlockFits(h, ring, i, k, align)} :: i < |ring| && i != m ==> !BlockFits(h, ring, i, k, align)
    requires ring[m] in h.units && ring[m] + 256 <= b && b % 256 == 0 && k <= 256 && PageAlign(align)
    ensures var n := Host(h, ring, b); var last := LastAfter(h, ring, b);
            && n < |ring'| && 0 <= last < |ring'| && h'.free == ring'[last] && Resumable(h', ring', b, After(ring', n), k, align)
            && FitsBetween(h', ring', After(ring', n), last, k, align)
  {
    var n := Host(h, ring, b);
    FirstPageStays(h, ring, m, b, h', ring', k, align);
    HostLinks(h, ring, b, 256, h', ring');
    var first, last := After(ring', n), LastAfter(h, ring, b);
    if MergesLeft(h, ring, Place(ring, b, 0), b) && first != n {
      OthersMiss(h, ring, b, 256, h', ring', first, k, align);
    }
    assert ring'[Before(ring', first)] == ring'[n];
    assert Hops(|ring'|, first, m) <= Hops(|ring'|, first, last);
  }

  /** The setting slob_alloc runs in: a block of the ring that lies below all pages, and two more pages to take, the
      second above the first. */
  ghost predicate Supplied(h: Heap, ring: seq<nat>, arena: nat, pages: seq<nat>, k: nat) {
    && Ring(h, ring) && arena in ring && arena in h.units && 0 < k <= 256
    && |pages| >= 2 && arena + h.units[arena] < pages[0] && pages[0] + 256 <= pages[1]
    && pages[0] % 256 == 0 && pages[1] % 256 == 0
    && Taken(h, ring, pages[0], 256) && Taken(h, ring, pages[1], 256)
  }

  lemma AbovePlace(h: Heap, ring: seq<nat>, arena: nat, b: nat, k: nat)
    requires Ring(h, ring) && arena in ring && arena in h.units && arena + h.units[arena] < b && Taken(h, ring, b, k) && k > 0
    ensures 0 < Place(ring, b, 0) && !Absorbs(ring, b, k)
    ensures MergesLeft(h, ring, Place(ring, b, 0), b) ==> 1 < Place(ring, b, 0)
  {
    var a: nat :| a < |ring| && ring[a] == arena;
    PlaceIsSpot(h, ring, b, k);
    assert Side(h, ring, b, k, Place(ring, b, 0), a);
    assert Side(h, ring, b, k, Place(ring, b, 0), 0);
  }

  /** The unit is in one of the first `n` pages. */
  ghost predicate InPages(pages: seq<nat>, n: nat, x: nat)
    requires n <= |pages|
  {
    exists i: nat {:trigger pages[i]} :: i < n && pages[i] <= x < pages[i] + 256
  }

  /** `k` aligned units were taken from what was free and what the first `used` pages brought. */
  ghost predicate Allocated(h: Heap, ring: seq<nat>, h': Heap, ring': seq<nat>, pages: seq<nat>, used: nat, c: nat, k: nat, align: nat) {
    && used <= |pages| && Ring(h', ring') && c in h'.units && h'.units[c] == k && (align > 0 ==> c % align == 0)
    && (forall x: nat {:trigger InFree(h', ring', x)} ::
          InFree(h', ring', x) <==> (InFree(h, ring, x) || InPages(pages, used, x)) && !(c <= x < c + k))
    && (forall x: nat {:trigger InFree(h, ring, x)} :: c <= x < c + k ==> InFree(h, ring, x) || InPages(pages, used, x))
  }

  /** Taking the block that fits, after `used` pages were donated. */
  lemma CutAllocates(h: Heap, ring: seq<nat>, m: Heap, mid: seq<nat>, h': Heap, ring': seq<nat>, pages: seq<nat>, used: nat,
                     k: nat, align: nat, i: nat, c: nat)
    requires used <= |pages| && Takes(m, mid, h', ring', k, align, i, c) && !Empties(mid, Delta(mid[i], align))
    requires forall x: nat {:trigger InFree(m, mid, x)} :: InFree(m, mid, x) <==> InFree(h, ring, x) || InPages(pages, used, x)
    ensures Allocated(h, ring, h', ring', pages, used, c, k, align)
  {
    var d := Delta(mid[i], align);
    CutRing(m, mid, i, k, d, h', ring');
    CutLoses(m, mid, i, k, d, h', ring');
    if align > 0 {
      DeltaAligns(mid[i], align);
    }
    forall x: nat ensures InFree(h', ring', x) <==> (InFree(h, ring, x) || InPages(pages, used, x)) && !(c <= x < c + k) {
      assert InFree(m, mid, x) <==> InFree(h, ring, x) || InPages(pages, used, x);
    }
    forall x: nat | c <= x < c + k ensures InFree(h, ring, x) || InPages(pages, used, x) {
      assert InFree(m, mid, x);
    }
  }

  /** The request uses the only free block from its start. */
  predicate UsesUp(h: Heap, ring: seq<nat>, k: nat, align: nat) {
    |ring| == 1 && BlockFits(h, ring, 0, k, align) && Delta(ring[0], align) == 0
  }

  lemma PageGained(h: Heap, ring: seq<nat>, m: Heap, mid: seq<nat>, n: Heap, next: seq<nat>, pages: seq<nat>, used: nat)
    requires used < |pages| && Gained(m, mid, n, next, pages[used], 256)
    requires forall x: nat {:trigger InFree(m, mid, x)} :: InFree(m, mid, x) <==> InFree(h, ring, x) || InPages(pages, used, x)
    ensures forall x: nat {:trigger InFree(n, next, x)} :: InFree(n, next, x) <==> InFree(h, ring, x) || InPages(pages, used + 1, x)
  {
    forall x: nat ensures InFree(n, next, x) <==> InFree(h, ring, x) || InPages(pages, used + 1, x) {
      assert InFree(m, mid, x) <==> InFree(h, ring, x) || InPages(pages, used, x);
      if InPages(pages, used, x) {
        var i: nat :| i < used && pages[i] <= x < pages[i] + 256;
        assert i < used + 1 && pages[i] <= x < pages[i] + 256;
      }
    }
  }

  /** The second page is still unused after the first was donated. */
  lemma StillTaken(h: Heap, ring: seq<nat>, h': Heap, ring': seq<nat>, b: nat, c: nat)
    requires Taken(h, ring, c, 256) && Gained(h, ring, h', ring', b, 256) && b + 256 <= c
    ensures Taken(h', ring', c, 256)
  {
    forall x: nat | c <= x < c + 256 ensures !InFree(h', ring', x) {
      assert !InFree(h, ring, x);
    }
  }

  lemma ArenaStays(h: Heap, ring: seq<nat>, arena: nat, b: nat, k: nat, h': Heap, ring': seq<nat>)
    requires FreedBlock(h, ring, h', ring', b, k) && arena in ring && arena in h.units && arena + h.units[arena] < b
    ensures arena in ring' && arena in h'.units && h'.units[arena] == h.units[arena]
  {
    var p := Place(ring, b, 0);
    var a: nat :| a < |ring| && ring[a] == arena;
    assert Side(h, ring, b, k, p, a);
    assert a < p && ring'[a] == arena;
    ReleasedUnits(h, ring, b, k, p, h', ring', a);
  }

  /** What a donation has to leave behind for the search to go on. */
  ghost predicate Resumes(h: Heap, ring: seq<nat>, b: nat, h': Heap, ring': seq<nat>, k: nat, align: nat) {
    var m := Host(h, ring, b); var last := LastAfter(h, ring, b);
    && m < |ring'| && 0 <= last < |ring'| && h'.free == ring'[last] && Resumable(h', ring', b, After(ring', m), k, align)
  }

  lemma FirstResumes(h: Heap, ring: seq<nat>, arena: nat, b: nat, k: nat, align: nat)
    requires Ring(h, ring) && arena in ring && arena in h.units && arena + h.units[arena] < b && Taken(h, ring, b, 256)
    requires !SomeFits(h, ring, k, align) && b % 256 == 0 && k <= 256 && PageAlign(align)
    ensures 0 < Place(ring, b, 0) && (MergesLeft(h, ring, Place(ring, b, 0), b) ==> 1 < Place(ring, b, 0))
    ensures forall h', ring' {:trigger FreedBlock(h, ring, h', ring', b, 256)} ::
              FreedBlock(h, ring, h', ring', b, 256) ==> Resumes(h, ring, b, h', ring', k, align)
  {
    AbovePlace(h, ring, arena, b, 256);
    forall h', ring' | FreedBlock(h, ring, h', ring', b, 256) ensures Resumes(h, ring, b, h', ring', k, align) {
      FirstDonation(h, ring, b, h', ring', k, align);
    }
  }

  lemma SecondResumes(h0: Heap, ring0: seq<nat>, a: nat, h: Heap, ring: seq<nat>, b: nat, k: nat, align: nat)
    requires FreedBlock(h0, ring0, h, ring, a, 256) && !SomeFits(h0, ring0, k, align) && 0 < Place(ring0, a, 0)
    requires !MergesLeft(h0, ring0, Place(ring0, a, 0), a)
    requires a % 256 == 0 && b % 256 == 0 && a + 256 <= b && k <= 256 && PageAlign(align)
    ensures forall h', ring' {:trigger FreedBlock(h, ring, h', ring', b, 256)} ::
              FreedBlock(h, ring, h', ring', b, 256) ==>
                Resumes(h, ring, b, h', ring', k, align) && FitsBetween(h', ring', After(ring', Host(h, ring, b)), LastAfter(h, ring, b), k, align)
  {
    FirstDonation(h0, ring0, a, h, ring, k, align);
    HostLinks(h0, ring0, a, 256, h, ring);
    PageFits(h, a, a, k, align);
    forall h', ring' | FreedBlock(h, ring, h', ring', b, 256)
      ensures Resumes(h, ring, b, h', ring', k, align) && FitsBetween(h', ring', After(ring', Host(h, ring, b)), LastAfter(h, ring, b), k, align)
    {
      SecondDonation(h, ring, Host(h0, ring0, a), b, h', ring', k, align);
    }
  }

  /** A first donation whose page the search did not reach leaves a second one what it needs. */
  lemma BeforeSecond(h: Heap, ring: seq<nat>, arena: nat, m: Heap, mid: seq<nat>, pages: seq<nat>, k: nat, align: nat)
    requires Supplied(h, ring, arena, pages, k) && PageAlign(align) && !SomeFits(h, ring, k, align)
    requires FreedBlock(h, ring, m, mid, pages[0], 256)
    requires var last := LastAfter(h, ring, pages[0]);
             && 0 <= last < |mid| && Host(h, ring, pages[0]) < |mid|
             && !FitsBetween(m, mid, After(mid, Host(h, ring, pages[0])), last, k, align)
    ensures arena in mid && arena in m.units && arena + m.units[arena] < pages[1] && Taken(m, mid, pages[1], 256)
    ensures forall h', ring' {:trigger FreedBlock(m, mid, h', ring', pages[1], 256)} ::
              FreedBlock(m, mid, h', ring', pages[1], 256) ==>
                Resumes(m, mid, pages[1], h', ring', k, align) &&
                FitsBetween(h', ring', After(ring', Host(m, mid, pages[1])), LastAfter(m, mid, pages[1]), k, align)
  {
    FirstResumes(h, ring, arena, pages[0], k, align);
    ArenaStays(h, ring, arena, pages[0], 256, m, mid);
    FirstDonation(h, ring, pages[0], m, mid, k, align);
    StillTaken(h, ring, m, mid, pages[0], pages[1]);
    SecondResumes(h, ring, pages[0], m, mid, pages[1], k, align);
  }

  /** The free list at one moment. */
  datatype Snapshot = Snapshot(heap: Heap, ring: seq<nat>)

  ghost predicate Donation(trace: seq<Snapshot>, pages: seq<nat>, j: nat)
    requires j + 1 < |trace| && j < |pages|
  {
    FreedBlock(trace[j].heap, trace[j].ring, trace[j + 1].heap, trace[j + 1].ring, pages[j], 256)
  }

  /** A successful call of slob_alloc, through the free lists `trace`: it donates the first pages one after the other,
      and then takes `k` units at `c` from the block at index `i`. */
  ghost predicate Call(trace: seq<Snapshot>, pages: seq<nat>, h': Heap, ring': seq<nat>, k: nat, align: nat, i: nat, c: nat) {
    && 0 < |trace| <= |pages| + 1
    && (forall j: nat {:trigger Donation(trace, pages, j)} :: j + 1 < |trace| ==> Donation(trace, pages, j))
    && Takes(trace[|trace| - 1].heap, trace[|trace| - 1].ring, h', ring', k, align, i, c)
  }

  /** The free list before donation `n`: what was free and the pages so far, and the arena block as it was. */
  ghost predicate Through(trace: seq<Snapshot>, pages: seq<nat>, arena: nat, n: nat)
    requires 0 < |trace| <= |pages| + 1 && n < |trace|
  {
    var h, s := trace[0], trace[n];
    && Ring(s.heap, s.ring) && arena in s.ring && arena in s.heap.units && arena in h.heap.units
    && s.heap.units[arena] == h.heap.units[arena]
    && (forall x: nat {:trigger InFree(s.heap, s.ring, x)} ::
          InFree(s.heap, s.ring, x) <==> InFree(h.heap, h.ring, x) || InPages(pages, n, x))
  }

  lemma ThroughStep(trace: seq<Snapshot>, pages: seq<nat>, arena: nat, n: nat)
    requires 0 < |trace| <= |pages| + 1 && n + 1 < |trace| && Through(trace, pages, arena, n) && Donation(trace, pages, n)
    requires arena + trace[0].heap.units[arena] < pages[n]
    ensures Through(trace, pages, arena, n + 1)
  {
    var h, m, s := trace[0], trace[n], trace[n + 1];
    ArenaStays(m.heap, m.ring, arena, pages[n], 256, s.heap, s.ring);
    PageGained(h.heap, h.ring, m.heap, m.ring, s.heap, s.ring, pages, n);
  }

  lemma {:induction false} ThroughAll(trace: seq<Snapshot>, pages: seq<nat>, arena: nat, n: nat)
    requires 0 < |trace| <= |pages| + 1 && n < |trace| && Through(trace, pages, arena, 0)
    requires forall j: nat {:trigger Donation(trace, pages, j)} :: j + 1 < |trace| ==> Donation(trace, pages, j)
    requires forall j: nat {:trigger pages[j]} :: j + 1 < |trace| ==> arena + trace[0].heap.units[arena] < pages[j]
    ensures Through(trace, pages, arena, n)
  {
    if n > 0 {
      ThroughAll(trace, pages, arena, n - 1);
      assert Donation(trace, pages, n - 1);
      ThroughStep(trace, pages, arena, n - 1);
    }
  }

  /** After a donation the page and the arena are in different blocks. */
  lemma TwoBlocks(trace: seq<Snapshot>, pages: seq<nat>, arena: nat, n: nat)
    requires 0 < |trace| <= |pages| + 1 && 0 < n < |trace| && Through(trace, pages, arena, n)
    requires arena + trace[0].heap.units[arena] < pages[n - 1]
    ensures |trace[n].ring| > 1
  {
    var s := trace[n];
    assert InPages(pages, n, pages[n - 1]);
    assert InFree(s.heap, s.ring, pages[n - 1]);
    var o: nat :| o < |s.ring| && Within(s.heap, s.ring, o, pages[n - 1]);
    var a: nat :| a < |s.ring| && s.ring[a] == arena;
    assert a != o;
  }

  /** A call that uses the only free block from its start leaves no good ring. */
  lemma CallBreaks(h: Heap, ring: seq<nat>, pages: seq<nat>, h': Heap, ring': seq<nat>, k: nat, align: nat, i: nat, c: nat)
    requires Takes(h, ring, h', ring', k, align, i, c) && UsesUp(h, ring, k, align)
    ensures !Allocated(h, ring, h', ring', pages, 0, c, k, align)
  {
    CarveExact(h, ring, i, k, 0);
    CutLoses(h, ring, i, k, 0, h', ring');
  }

  /** What a call hands out comes from what was free and from the pages it took. */
  lemma CallAllocates(trace: seq<Snapshot>, pages: seq<nat>, arena: nat, h': Heap, ring': seq<nat>, k: nat, align: nat, i: nat, c: nat)
    requires Call(trace, pages, h', ring', k, align, i, c)
    requires var h := trace[0]; Ring(h.heap, h.ring) && arena in h.ring && arena in h.heap.units && !UsesUp(h.heap, h.ring, k, align)
    requires forall j: nat {:trigger pages[j]} :: j + 1 < |trace| ==> arena + trace[0].heap.units[arena] < pages[j]
    ensures Allocated(trace[0].heap, trace[0].ring, h', ring', pages, |trace| - 1, c, k, align)
  {
    var n := |trace| - 1;
    ThroughAll(trace, pages, arena, n);
    if n > 0 {
      TwoBlocks(trace, pages, arena, n);
    }
    CutAllocates(trace[0].heap, trace[0].ring, trace[n].heap, trace[n].ring, h', ring', pages, n, k, align, i, c);
  }

  /** So a call does what it promises exactly when it does not use the only free block from its start. */
  lemma CallExact(trace: seq<Snapshot>, pages: seq<nat>, arena: nat, h': Heap, ring': seq<nat>, k: nat, align: nat, i: nat, c: nat)
    requires Call(trace, pages, h', ring', k, align, i, c)
    requires var h := trace[0]; Ring(h.heap, h.ring) && arena in h.ring && arena in h.heap.units
    requires |trace| > 1 ==> !SomeFits(trace[0].heap, trace[0].ring, k, align)
    requires forall j: nat {:trigger pages[j]} :: j + 1 < |trace| ==> arena + trace[0].heap.units[arena] < pages[j]
    ensures Allocated(trace[0].heap, trace[0].ring, h', ring', pages, |trace| - 1, c, k, align) <==>
            !UsesUp(trace[0].heap, trace[0].ring, k, align)
  {
    if UsesUp(trace[0].heap, trace[0].ring, k, align) {
      assert BlockFits(trace[0].heap, trace[0].ring, 0, k, align);
      CallBreaks(trace[0].heap, trace[0].ring, pages, h', ring', k, align, i, c);
    } else {
      CallAllocates(trace, pages, arena, h', ring', k, align, i, c);
    }
  }

  lemma CallPlain(h: Heap, ring: seq<nat>, pages: seq<nat>, h': Heap, ring': seq<nat>, k: nat, align: nat, i: nat, c: nat)
    requires Takes(h, ring, h', ring', k, align, i, c)
    ensures Call([Snapshot(h, ring)], pages, h', ring', k, align, i, c)
  {
  }

  lemma CallOnePage(h: Heap, ring: seq<nat>, m: Heap, mid: seq<nat>, pages: seq<nat>, h': Heap, ring': seq<nat>,
                    k: nat, align: nat, i: nat, c: nat)
    requires |pages| > 0 && FreedBlock(h, ring, m, mid, pages[0], 256) && Takes(m, mid, h', ring', k, align, i, c)
    ensures Call([Snapshot(h, ring), Snapshot(m, mid)], pages, h', ring', k, align, i, c)
  {
  }

  lemma CallTwoPages(h: Heap, ring: seq<nat>, m: Heap, mid: seq<nat>, n: Heap, end: seq<nat>, pages: seq<nat>, h': Heap,
                     ring': seq<nat>, k: nat, align: nat, i: nat, c: nat)
    requires |pages| > 1 && FreedBlock(h, ring, m, mid, pages[0], 256) && FreedBlock(m, mid, n, end, pages[1], 256)
    requires Takes(n, end, h', ring', k, align, i, c)
    ensures Call([Snapshot(h, ring), Snapshot(m, mid), Snapshot(n, end)], pages, h', ring', k, align, i, c)
  {
  }

  class Allocator {
    var units: map<nat, nat>
    var next: map<nat, nat>
    var slobfree: nat
    ghost var ring: seq<nat>

    ghost function State(): Heap
      reads this
    {
      Heap(units, next, slobfree)
    }

    /** One block of one unit, linked to itself. */
    constructor (arena: nat)
      ensures ring == [arena] && State() == Heap(map[arena := 1], map[arena := arena], arena) && Ring(State(), ring)
    {
      units, next, slobfree, ring := map[arena := 1], map[arena := arena], arena, [arena];
    }

    /** The walk of slob_free, from slobfree to the block before `b`. */
    method FindBefore(b: nat, ghost h: Heap, ghost k: nat, ghost p: nat) returns (cur: nat)
      requires Spot(h, ring, b, k, p) && next == h.next && slobfree == h.free
      ensures cur == Pred(ring, p)
    {
      ghost var c: nat :| c < |ring| && ring[c] == slobfree;
      cur := slobfree;
      assert Linked(h, ring, c);
      StopsAt(h, ring, b, k, p, c);
      while !(cur < b < next[cur])
        invariant c < |ring| && cur == ring[c] && cur in next && next[cur] == Succ(ring, c)
        invariant cur < b < next[cur] || (cur >= next[cur] && (b > cur || b < next[cur])) <==> c == Before(ring, p)
        decreases Hops(|ring|, c, Before(ring, p))
      {
        if cur >= next[cur] && (b > cur || b < next[cur]) {
          break;
        }
        cur := next[cur];
        c := if c + 1 < |ring| then c + 1 else 0;
        assert Linked(h, ring, c);
        StopsAt(h, ring, b, k, p, c);
      }
    }

    /** slob_free. */
    method Free(b: nat, size: nat)
      requires Ring(State(), ring)
      requires b != 0 && size == 0 ==> b in units
      requires var k := if size != 0 then SlobUnits(size) else if b in units then units[b] else 0;
               b != 0 ==> k > 0 && Taken(State(), ring, b, k)
      modifies this
      ensures b == 0 ==> State() == old(State()) && ring == old(ring)
      ensures b != 0 ==>
                var k := if size != 0 then SlobUnits(size) else old(units[b]);
                if Absorbs(old(ring), b, k) then ring == old(ring)
                else FreedBlock(old(State()), old(ring), State(), ring, b, k)
    {
      if b == 0 {
        return;
      }
      ghost var h := State();
      ghost var k := if size != 0 then SlobUnits(size) else units[b];
      ghost var p := Place(ring, b, 0);
      FreePrepares(h, ring, b, k);
      if size != 0 {
        units := units[b := SlobUnits(size)];
      }
      var cur := FindBefore(b, h, k, p);
      Link(cur, b, k);
      if !Absorbs(ring, b, k) {
        ring := FreedBlockDone(h, ring, b, k, cur, State());
      }
    }

    /** The merging half of slob_free. */
    method Link(cur: nat, b: nat, ghost k: nat)
      requires b in units && units[b] == k && cur != b
      requires cur in next && cur in units && next[cur] in units && next[cur] in next && next[cur] != b
      modifies this`units, this`next, this`slobfree
      ensures State() == Release(old(State()), cur, b, k)
    {
      if b + units[b] == next[cur] {
        units := units[b := units[b] + units[next[cur]]];
        next := next[b := next[next[cur]]];
      } else {
        next := next[b := next[cur]];
      }
      if cur + units[cur] == b {
        units := units[cur := units[cur] + units[b]];
        next := next[cur := next[b]];
      } else {
        next := next[cur := b];
      }
      slobfree := cur;
    }

    method Cleave(cur: nat, d: nat) returns (c: nat)
      requires cur in units && cur in next && 0 < d <= units[cur]
      modifies this`units, this`next
      ensures State() == SplitFront(old(State()), cur, d) && c == cur + d
    {
      c := cur + d;
      units := units[c := units[cur] - d];
      next := next[c := next[cur]];
      next := next[cur := c];
      units := units[cur := d];
    }

    method Detach(prev: nat, c: nat, k: nat)
      requires c in units && c in next && prev in next && 0 < k <= units[c]
      modifies this`units, this`next, this`slobfree
      ensures State() == TakeUnits(old(State()), prev, c, k)
    {
      if units[c] == k {
        next := next[prev := next[c]];
      } else {
        next := next[prev := c + k];
        units := units[next[prev] := units[c] - k];
        next := next[next[prev] := next[c]];
        units := units[c := k];
      }
      slobfree := prev;
    }

    /** The updates of slob_alloc on the block that fits. */
    method Split(prev: nat, cur: nat, k: nat, d: nat) returns (c: nat)
      requires cur in units && cur in next && prev in next && k > 0 && d + k <= units[cur]
      modifies this`units, this`next, this`slobfree
      ensures State() == Carve(old(State()), prev, cur, k, d) && c == cur + d
    {
      if d != 0 {
        c := Cleave(cur, d);
        Detach(cur, c, k);
      } else {
        c := cur;
        Detach(prev, c, k);
      }
    }

    /** The search loop of slob_alloc from the block after `start` up to slobfree.  `start` need not be on the
        ring as long as the block it links to is too small. */
    method Scan(start: nat, k: nat, align: nat, ghost first: nat, ghost last: nat) returns (found: bool, c: nat, ghost i: nat)
      requires Ring(State(), ring) && k > 0 && first < |ring| && last < |ring| && ring[last] == slobfree
      requires start in next && next[start] == ring[first]
      requires start == ring[Before(ring, first)] || !BlockFits(State(), ring, first, k, align)
      modifies this
      ensures found <==> FitsBetween(old(State()), old(ring), first, last, k, align)
      ensures !found ==> State() == old(State()) && ring == old(ring)
      ensures found ==> CutFirst(old(State()), old(ring), State(), ring, first, k, align, i, c)
    {
      ghost var h, r := State(), ring;
      var prev := start;
      var cur := next[prev];
      i := first;
      while true
        invariant State() == h && ring == r && i < |r| && cur == r[i]
        invariant prev == r[Before(r, i)] || !BlockFits(h, r, i, k, align)
        invariant Hops(|r|, first, i) <= Hops(|r|, first, last) && NoneBefore(h, r, first, i, k, align)
        decreases Hops(|r|, i, last)
      {
        assert Linked(h, r, i);
        var d := Delta(cur, align);
        if units[cur] >= k + d {
          assert BlockFits(h, r, i, k, align);
          assert Linked(h, r, Before(r, i));
          c := Split(prev, cur, k, d);
          ring := Carved(r, i, k, d, d + k < h.units[r[i]]);
          return true, c, i;
        }
        NoneAfter(h, r, first, last, i, k, align);
        if cur == slobfree {
          if i != last {
            DistinctBlocks(h, r, i, last);
          }
          return false, 0, i;
        }
        prev, cur := cur, next[cur];
        i := if i + 1 < |r| then i + 1 else 0;
      }
    }

    /** One lap of slob_alloc, from the block after slobfree up to slobfree itself: it finds a block when there
        is one that fits. */
    method Lap(k: nat, align: nat) returns (found: bool, c: nat, ghost i: nat, ghost first: nat)
      requires Ring(State(), ring) && k > 0
      modifies this
      ensures found <==> SomeFits(old(State()), old(ring), k, align)
      ensures !found ==> State() == old(State()) && ring == old(ring)
      ensures found ==> CutFirst(old(State()), old(ring), State(), ring, first, k, align, i, c)
      ensures first < |old(ring)| && old(ring)[Before(old(ring), first)] == old(slobfree)
    {
      ghost var s: nat :| s < |ring| && ring[s] == slobfree;
      assert Linked(State(), ring, s);
      first := if s + 1 < |ring| then s + 1 else 0;
      FullLap(State(), ring, s, k, align);
      found, c, i := Scan(slobfree, k, align, first, s);
    }

    /** Donate a page above the static block. */
    method GivePage(page: nat, ghost arena: nat)
      requires Ring(State(), ring) && arena in ring && arena in units && arena + units[arena] < page
      requires Taken(State(), ring, page, 256)
      modifies this
      ensures FreedBlock(old(State()), old(ring), State(), ring, page, 256)
    {
      AbovePlace(State(), ring, arena, page, 256);
      Free(page, 4096);
    }

    /** Donate a page and go on searching from it. */
    method Donate(page: nat, k: nat, align: nat, ghost arena: nat) returns (found: bool, c: nat, ghost i: nat, ghost m: Heap, ghost mid: seq<nat>)
      requires Ring(State(), ring) && arena in ring && arena in units && arena + units[arena] < page
      requires Taken(State(), ring, page, 256) && k > 0
      requires forall h', ring' {:trigger FreedBlock(State(), ring, h', ring', page, 256)} ::
                 FreedBlock(State(), ring, h', ring', page, 256) ==> Resumes(State(), ring, page, h', ring', k, align)
      modifies this
      ensures FreedBlock(old(State()), old(ring), m, mid, page, 256)
      ensures var first := After(mid, Host(old(State()), old(ring), page)); var last := LastAfter(old(State()), old(ring), page);
              && 0 <= last < |mid|
              && (found <==> FitsBetween(m, mid, first, last, k, align))
              && (!found ==> State() == m && ring == mid)
              && (found ==> CutFirst(m, mid, State(), ring, first, k, align, i, c))
    {
      ghost var h, r := State(), ring;
      GivePage(page, arena);
      m, mid := State(), ring;
      assert Resumes(h, r, page, m, mid, k, align);
      found, c, i := Scan(page, k, align, After(mid, Host(h, r, page)), LastAfter(h, r, page));
    }

    /** The pages that slob_alloc takes when nothing fits.  Two always suffice, although the search resumes from the
        donated page. */
    method AllocPages(k: nat, align: nat, pages: seq<nat>, ghost arena: nat) returns (c: nat, used: nat, ghost trace: seq<Snapshot>, ghost i: nat)
      requires Supplied(State(), ring, arena, pages, k) && PageAlign(align) && !SomeFits(State(), ring, k, align)
      modifies this
      ensures 1 <= used <= 2 && |trace| == used + 1 && trace[0] == Snapshot(old(State()), old(ring))
      ensures Call(trace, pages, State(), ring, k, align, i, c)
    {
      ghost var h, r, m, mid := State(), ring, State(), ring;
      var found;
      FirstResumes(h, r, arena, pages[0], k, align);
      found, c, i, m, mid := Donate(pages[0], k, align, arena);
      if found {
        CallOnePage(h, r, m, mid, pages, State(), ring, k, align, i, c);
        return c, 1, [Snapshot(h, r), Snapshot(m, mid)], i;
      }
      BeforeSecond(h, r, arena, m, mid, pages, k, align);
      ghost var n, end;
      found, c, i, n, end := Donate(pages[1], k, align, arena);
      CallTwoPages(h, r, m, mid, n, end, pages, State(), ring, k, align, i, c);
      return c, 2, [Snapshot(h, r), Snapshot(m, mid), Snapshot(n, end)], i;
    }

    /** slob_alloc: a lap over the ring and, when nothing fits, pages; a request for a whole page gives up instead. */
    method Alloc(size: nat, align: nat, pages: seq<nat>, ghost arena: nat)
        returns (ok: bool, c: nat, used: nat, ghost trace: seq<Snapshot>, ghost i: nat)
      requires Supplied(State(), ring, arena, pages, SlobUnits(size)) && PageAlign(align)
      modifies this
      ensures ok <==> SomeFits(old(State()), old(ring), SlobUnits(size), align) || size != 4096
      ensures !ok ==> State() == old(State()) && ring == old(ring) && used == 0
      ensures ok ==> (Allocated(old(State()), old(ring), State(), ring, pages, used, c, SlobUnits(size), align) <==>
                      !UsesUp(old(State()), old(ring), SlobUnits(size), align))
      ensures |trace| == used + 1 && trace[0] == Snapshot(old(State()), old(ring))
      ensures ok ==> Call(trace, pages, State(), ring, SlobUnits(size), align, i, c)
      ensures used <= 2 && (used == 0 <==> SomeFits(old(State()), old(ring), SlobUnits(size), align) || size == 4096)
    {
      var k := SlobUnits(size);
      ghost var h, r, first := State(), ring, 0;
      ok, c, i, first := Lap(k, align);
      used, trace := 0, [Snapshot(h, r)];
      if ok {
        CallPlain(h, r, pages, State(), ring, k, align, i, c);
      } else if size != 4096 {
        c, used, trace, i := AllocPages(k, align, pages, arena);
        ok := true;
      }
      if ok {
        CallExact(trace, pages, arena, State(), ring, k, align, i, c);
      }
    }
  }
}

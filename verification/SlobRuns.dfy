/** Whole runs of allocations, frees and page donations. */
module SlobRuns {
  import opened Slob

  /** The free list, the blocks that are handed out with their sizes, the pages donated so far, and the static
      block that the list starts with. */
  datatype World = World(heap: Heap, ring: seq<nat>, live: map<nat, nat>, pages: set<nat>, arena: nat)

  predicate LiveAt(w: World, b: nat, x: nat) {
    b in w.live && b <= x < b + w.live[b]
  }

  /** Unit `x` belongs to a block that is handed out. */
  ghost predicate InLive(w: World, x: nat) {
    exists b: nat {:trigger LiveAt(w, b, x)} :: LiveAt(w, b, x)
  }

  predicate PageAt(w: World, p: nat, x: nat) {
    p in w.pages && p <= x < p + 256
  }

  /** Unit `x` was given to the allocator. */
  ghost predicate Given(w: World, x: nat) {
    x == w.arena || exists p: nat {:trigger PageAt(w, p, x)} :: PageAt(w, p, x)
  }

  // ---------------------------------------------------------------- steps

  datatype Event = Alloc(k: nat, align: nat, i: nat) | Free(b: nat) | Donate(page: nat)

  /** Requests are for at least two units and take a block that fits; freed blocks are live; pages are new and
      not adjacent to the static block. */
  ghost predicate Possible(w: World, e: Event) {
    match e
    case Alloc(k, align, i) => k >= 2 && i < |w.ring| && Fits(w.heap, w.ring[i], k, align)
    case Free(b) => b in w.live
    case Donate(page) =>
      && page + 256 != w.arena && page != w.arena + 1
      && (forall x: nat {:trigger Given(w, x)} :: page <= x < page + 256 ==> !Given(w, x))
  }

  ghost predicate Step(w: World, e: Event, v: World) {
    && v.arena == w.arena
    && match e {
         case Alloc(k, align, i) =>
           && i < |w.ring| && Cut(w.heap, w.ring, i, k, Delta(w.ring[i], align), v.heap, v.ring)
           && v.live == w.live[w.ring[i] + Delta(w.ring[i], align) := k] && v.pages == w.pages
         case Free(b) =>
           && b in w.live && Released(w.heap, w.ring, b, w.live[b], Place(w.ring, b, 0), v.heap, v.ring)
           && v.live == w.live - {b} && v.pages == w.pages
         case Donate(page) =>
           && Released(w.heap, w.ring, page, 256, Place(w.ring, page, 0), v.heap, v.ring)
           && v.live == w.live && v.pages == w.pages + {page}
       }
  }

  // ---------------------------------------------------------------- the invariant

  /** Each unit that was given is free or belongs to a live block, never both, and no other unit is or does. */
  ghost predicate Accounted(w: World, x: nat) {
    (InFree(w.heap, w.ring, x) || InLive(w, x) <==> Given(w, x)) && !(InFree(w.heap, w.ring, x) && InLive(w, x))
  }

  ghost predicate Separate(w: World, a: nat, b: nat) {
    a in w.live && b in w.live && a < b ==> a + w.live[a] <= b
  }

  ghost predicate Inv(w: World) {
    && Ring(w.heap, w.ring)
    && w.arena in w.ring && w.arena in w.heap.units && w.heap.units[w.arena] == 1
    && (forall x: nat {:trigger Accounted(w, x)} :: Accounted(w, x))
    && (forall a: nat, b: nat {:trigger Separate(w, a, b)} :: Separate(w, a, b))
    && (forall b: nat {:trigger b in w.live} :: b in w.live ==> w.live[b] >= 2)
    && !Given(w, w.arena + 1) && (w.arena > 0 ==> !Given(w, w.arena - 1))
  }

  lemma ArenaInRing(w: World) returns (a: nat)
    requires Ring(w.heap, w.ring) && w.arena in w.ring && w.arena in w.heap.units && w.heap.units[w.arena] == 1
    ensures a < |w.ring| && w.ring[a] == w.arena && InFree(w.heap, w.ring, w.arena)
  {
    a :| 0 <= a < |w.ring| && w.ring[a] == w.arena;
    assert Within(w.heap, w.ring, a, w.arena);
  }

  // ---------------------------------------------------------------- allocation

  lemma AllocStep(w: World, e: Event, v: World)
    requires Inv(w) && Possible(w, e) && e.Alloc? && Step(w, e, v)
    ensures Inv(v)
  {
    var d := Delta(w.ring[e.i], e.align);
    var c := w.ring[e.i] + d;
    var a := ArenaInRing(w);
    assert e.i != a;
    CutRing(w.heap, w.ring, e.i, e.k, d, v.heap, v.ring);
    CutLoses(w.heap, w.ring, e.i, e.k, d, v.heap, v.ring);
    CutKeepsBlock(w.heap, w.ring, e.i, e.k, d, v.heap, v.ring, a);
    AllocLive(w, v, c, e.k);
    forall x: nat ensures Accounted(v, x) {
      AllocAccounts(w, v, c, e.k, x);
    }
    GivenSame(w, v);
  }

  lemma GivenSame(w: World, v: World)
    requires v.arena == w.arena && v.pages == w.pages
    ensures forall x: nat {:trigger Given(v, x)} :: Given(v, x) <==> Given(w, x)
  {
    forall x: nat ensures Given(v, x) <==> Given(w, x) {
      forall p: nat ensures PageAt(v, p, x) <==> PageAt(w, p, x) {
      }
    }
  }

  /** A block other than the one that is cut stays. */
  lemma CutKeepsBlock(h: Heap, ring: seq<nat>, i: nat, k: nat, d: nat, h': Heap, ring': seq<nat>, a: nat)
    requires Cut(h, ring, i, k, d, h', ring') && a < |ring| && a != i && ring[a] in h.units
    ensures ring[a] in ring' && ring[a] in h'.units && h'.units[ring[a]] == h.units[ring[a]]
  {
    var m := if a < i then a else a - 1 + (if d > 0 then 1 else 0) + (if d + k < h.units[ring[i]] then 1 else 0);
    CutAt(h, ring, i, k, d, h', ring', m);
    CutUnits(h, ring, i, k, d, h', ring', m);
    assert ring'[m] == ring[a];
  }

  lemma FreeNotLive(w: World, b: nat, x: nat)
    requires Inv(w) && InFree(w.heap, w.ring, x)
    ensures !LiveAt(w, b, x)
  {
    assert Accounted(w, x);
  }

  /** The new block is apart from the live ones, because its units were free. */
  lemma AllocLive(w: World, v: World, c: nat, k: nat)
    requires Inv(w) && k >= 2 && v.live == w.live[c := k]
    requires forall x: nat :: c <= x < c + k ==> InFree(w.heap, w.ring, x)
    ensures c !in w.live
    ensures forall a: nat, b: nat {:trigger Separate(v, a, b)} :: Separate(v, a, b)
  {
    forall b: nat | b in w.live ensures b + w.live[b] <= c || c + k <= b {
      FreeNotLive(w, b, c);
      if c <= b < c + k {
        FreeNotLive(w, b, b);
      }
    }
    forall a: nat, b: nat ensures Separate(v, a, b) {
      assert Separate(w, a, b);
    }
  }

  lemma AllocAccounts(w: World, v: World, c: nat, k: nat, x: nat)
    requires Inv(w) && v.live == w.live[c := k] && c !in w.live && v.arena == w.arena && v.pages == w.pages
    requires Lost(w.heap, w.ring, v.heap, v.ring, c, k)
    requires forall y: nat :: c <= y < c + k ==> InFree(w.heap, w.ring, y)
    ensures Accounted(v, x)
  {
    GivenSame(w, v);
    assert Accounted(w, x);
    assert InFree(v.heap, v.ring, x) <==> InFree(w.heap, w.ring, x) && !(c <= x < c + k);
    if InLive(w, x) {
      var b: nat :| LiveAt(w, b, x);
      assert LiveAt(v, b, x);
    }
    if c <= x < c + k {
      assert LiveAt(v, c, x);
    }
    if InLive(v, x) {
      var b: nat :| LiveAt(v, b, x);
      assert b == c || LiveAt(w, b, x);
    }
  }

  // ---------------------------------------------------------------- freeing and donating

  lemma LiveIsTaken(w: World, b: nat)
    requires Inv(w) && b in w.live
    ensures Taken(w.heap, w.ring, b, w.live[b])
  {
    forall x: nat | b <= x < b + w.live[b] ensures !InFree(w.heap, w.ring, x) {
      assert Accounted(w, x) && LiveAt(w, b, x);
    }
  }

  /** The static block never ends up next to what is freed. */
  lemma NotNextToArena(w: World, b: nat, k: nat)
    requires Inv(w) && k > 0 && forall x: nat {:trigger Given(w, x)} :: b <= x < b + k ==> Given(w, x)
    ensures b + k != w.arena && b != w.arena + 1
  {
    assert b <= b + k - 1 < b + k && Given(w, b) && Given(w, b + k - 1);
  }

  lemma LiveIsGiven(w: World, b: nat)
    requires Inv(w) && b in w.live
    ensures forall x: nat {:trigger Given(w, x)} :: b <= x < b + w.live[b] ==> Given(w, x)
  {
    forall x: nat | b <= x < b + w.live[b] ensures Given(w, x) {
      assert Accounted(w, x) && LiveAt(w, b, x);
    }
  }

  lemma GivenIsTaken(w: World, page: nat)
    requires Inv(w) && forall x: nat {:trigger Given(w, x)} :: page <= x < page + 256 ==> !Given(w, x)
    ensures Taken(w.heap, w.ring, page, 256)
  {
    forall x: nat | page <= x < page + 256 ensures !InFree(w.heap, w.ring, x) {
      assert Accounted(w, x) && !Given(w, x);
    }
  }

  /** A block that is not next to the freed one stays. */
  lemma ReleaseKeepsBlock(h: Heap, ring: seq<nat>, b: nat, k: nat, p: nat, h': Heap, ring': seq<nat>, a: nat)
    requires Released(h, ring, b, k, p, h', ring') && a < |ring| && ring[a] in h.units
    requires b + k != ring[a] && b != ring[a] + h.units[ring[a]]
    ensures ring[a] in ring' && ring[a] in h'.units && h'.units[ring[a]] == h.units[ring[a]]
  {
    var i := NewIndex(p, MergesLeft(h, ring, p, b), MergesRight(ring, p, b, k), a);
    ReleasedAt(h, ring, b, k, p, h', ring', i);
    ReleasedUnits(h, ring, b, k, p, h', ring', i);
    assert ring'[i] == ring[a];
  }

  lemma ReleaseKeepsArena(w: World, b: nat, k: nat, h': Heap, ring': seq<nat>)
    requires Inv(w) && Released(w.heap, w.ring, b, k, Place(w.ring, b, 0), h', ring')
    requires b + k != w.arena && b != w.arena + 1
    ensures !Absorbs(w.ring, b, k)
    ensures w.arena in ring' && w.arena in h'.units && h'.units[w.arena] == 1
  {
    var a := ArenaInRing(w);
    ReleaseKeepsBlock(w.heap, w.ring, b, k, Place(w.ring, b, 0), h', ring', a);
  }

  lemma FreeStep(w: World, e: Event, v: World)
    requires Inv(w) && Possible(w, e) && e.Free? && Step(w, e, v)
    ensures Inv(v)
  {
    var k := w.live[e.b];
    var p := Place(w.ring, e.b, 0);
    LiveIsGiven(w, e.b);
    NotNextToArena(w, e.b, k);
    ReleaseKeepsArena(w, e.b, k, v.heap, v.ring);
    ReleaseRing(w.heap, w.ring, e.b, k, p, v.heap, v.ring);
    ReleaseUnits(w.heap, w.ring, e.b, k, p, v.heap, v.ring);
    GivenSame(w, v);
    forall x: nat ensures Accounted(v, x) {
      FreeAccounts(w, v, e.b, x);
    }
    forall a: nat, b: nat ensures Separate(v, a, b) {
      assert Separate(w, a, b);
    }
  }

  lemma FreeAccounts(w: World, v: World, b: nat, x: nat)
    requires Inv(w) && b in w.live && v.live == w.live - {b} && v.arena == w.arena && v.pages == w.pages
    requires Gained(w.heap, w.ring, v.heap, v.ring, b, w.live[b])
    ensures Accounted(v, x)
  {
    GivenSame(w, v);
    assert Accounted(w, x);
    assert InFree(v.heap, v.ring, x) <==> InFree(w.heap, w.ring, x) || b <= x < b + w.live[b];
    assert b <= x < b + w.live[b] ==> LiveAt(w, b, x);
    if InLive(v, x) {
      var a: nat :| LiveAt(v, a, x);
      assert LiveAt(w, a, x);
      assert Separate(w, a, b) && Separate(w, b, a);
    }
    if InLive(w, x) && !InLive(v, x) {
      var a: nat :| LiveAt(w, a, x);
      assert a == b || LiveAt(v, a, x);
    }
  }

  lemma GivenMore(w: World, v: World, page: nat, x: nat)
    requires v.arena == w.arena && v.pages == w.pages + {page}
    ensures Given(v, x) <==> Given(w, x) || page <= x < page + 256
  {
    if Given(w, x) && x != w.arena {
      var p: nat :| PageAt(w, p, x);
      assert PageAt(v, p, x);
    }
    if page <= x < page + 256 {
      assert PageAt(v, page, x);
    }
    if Given(v, x) && x != w.arena {
      var p: nat :| PageAt(v, p, x);
      assert p == page || PageAt(w, p, x);
    }
  }

  lemma DonateStep(w: World, e: Event, v: World)
    requires Inv(w) && Possible(w, e) && e.Donate? && Step(w, e, v)
    ensures Inv(v)
  {
    var p := Place(w.ring, e.page, 0);
    ReleaseKeepsArena(w, e.page, 256, v.heap, v.ring);
    ReleaseRing(w.heap, w.ring, e.page, 256, p, v.heap, v.ring);
    ReleaseUnits(w.heap, w.ring, e.page, 256, p, v.heap, v.ring);
    assert Given(w, w.arena);
    GivenMore(w, v, e.page, w.arena + 1);
    if w.arena > 0 {
      GivenMore(w, v, e.page, w.arena - 1);
    }
    forall x: nat ensures Accounted(v, x) {
      GivenMore(w, v, e.page, x);
      assert Accounted(w, x) && (e.page <= x < e.page + 256 ==> !Given(w, x));
      assert InFree(v.heap, v.ring, x) <==> InFree(w.heap, w.ring, x) || e.page <= x < e.page + 256;
      assert forall b: nat :: LiveAt(v, b, x) <==> LiveAt(w, b, x);
    }
    forall a: nat, b: nat ensures Separate(v, a, b) {
      assert Separate(w, a, b);
    }
  }

  // ---------------------------------------------------------------- runs

  ghost predicate Run(ws: seq<World>, es: seq<Event>) {
    && |ws| == |es| + 1
    && forall i {:trigger es[i]} :: 0 <= i < |es| ==> Possible(ws[i], es[i]) && Step(ws[i], es[i], ws[i + 1])
  }

  /** Over every run, live and free blocks partition the units that were given, and the search pointer stays on
      the ring. */
  lemma {:induction false} RunPartitions(ws: seq<World>, es: seq<Event>)
    requires Run(ws, es) && Inv(ws[0])
    ensures Inv(ws[|es|])
  {
    if es != [] {
      var k := |es| - 1;
      assert forall i :: 0 <= i < k ==> es[..k][i] == es[i];
      RunPartitions(ws[..k + 1], es[..k]);
      var e := es[k];
      match e
      case Alloc(_, _, _) => AllocStep(ws[k], e, ws[k + 1]);
      case Free(_) => FreeStep(ws[k], e, ws[k + 1]);
      case Donate(_) => DonateStep(ws[k], e, ws[k + 1]);
    }
  }

  // ---------------------------------------------------------------- calls of slob_alloc

  /** Pages that a call may take: whole, above the static block and not next to it, ascending, and new. */
  ghost predicate NewPages(w: World, pages: seq<nat>) {
    && (forall j :: 0 <= j < |pages| ==> pages[j] % 256 == 0 && w.arena + 1 < pages[j])
    && (forall i, j :: 0 <= i < j < |pages| ==> pages[i] + 256 <= pages[j])
    && (forall j, x: nat {:trigger pages[j], Given(w, x)} :: 0 <= j < |pages| && pages[j] <= x < pages[j] + 256 ==> !Given(w, x))
  }

  /** In every state that a run reaches, slob_alloc is supplied with what it needs. */
  lemma CallSupplied(w: World, pages: seq<nat>, k: nat)
    requires Inv(w) && NewPages(w, pages) && |pages| >= 2 && 1 <= k <= 256
    ensures Supplied(w.heap, w.ring, w.arena, pages, k)
  {
    GivenIsTaken(w, pages[0]);
    GivenIsTaken(w, pages[1]);
  }

  /** The world after the first `j` donations of a call. */
  ghost function WorldAt(w: World, trace: seq<Snapshot>, pages: seq<nat>, j: nat): World
    requires j < |trace| && j <= |pages|
  {
    World(trace[j].heap, trace[j].ring, w.live, w.pages + (set p | p in pages[..j]), w.arena)
  }

  lemma {:induction false} GivenAt(w: World, trace: seq<Snapshot>, pages: seq<nat>, j: nat, x: nat)
    requires j < |trace| && j <= |pages|
    ensures Given(WorldAt(w, trace, pages, j), x) <==> Given(w, x) || InPages(pages, j, x)
  {
    var v := WorldAt(w, trace, pages, j);
    if j == 0 {
      assert v.pages == w.pages;
      GivenSame(w, v);
    } else {
      var u := WorldAt(w, trace, pages, j - 1);
      GivenAt(w, trace, pages, j - 1, x);
      assert pages[..j] == pages[..j - 1] + [pages[j - 1]];
      assert v.pages == u.pages + {pages[j - 1]};
      GivenMore(u, v, pages[j - 1], x);
    }
  }

  lemma DonationStep(w: World, trace: seq<Snapshot>, pages: seq<nat>, j: nat)
    requires NewPages(w, pages) && j + 1 < |trace| && j < |pages| && Donation(trace, pages, j)
    ensures Possible(WorldAt(w, trace, pages, j), Donate(pages[j]))
    ensures Step(WorldAt(w, trace, pages, j), Donate(pages[j]), WorldAt(w, trace, pages, j + 1))
  {
    var u, v := WorldAt(w, trace, pages, j), WorldAt(w, trace, pages, j + 1);
    assert pages[..j + 1] == pages[..j] + [pages[j]];
    assert v.pages == u.pages + {pages[j]};
    forall x: nat | pages[j] <= x < pages[j] + 256 ensures !Given(u, x) {
      GivenAt(w, trace, pages, j, x);
    }
  }

  ghost function Donations(pages: seq<nat>, n: nat): seq<Event>
    requires n <= |pages|
  {
    seq(n, j requires 0 <= j < n => Donate(pages[j]))
  }

  /** The worlds that a call goes through. */
  ghost function CallWorlds(w: World, trace: seq<Snapshot>, pages: seq<nat>, v: World): seq<World>
    requires |trace| <= |pages| + 1
  {
    seq(|trace|, j requires 0 <= j < |trace| => WorldAt(w, trace, pages, j)) + [v]
  }

  lemma TakeStep(w: World, s: Snapshot, h: Heap, ring: seq<nat>, k: nat, align: nat, i: nat, c: nat)
    requires w.heap == s.heap && w.ring == s.ring && k >= 2 && Takes(s.heap, s.ring, h, ring, k, align, i, c)
    ensures Possible(w, Alloc(k, align, i)) && Step(w, Alloc(k, align, i), World(h, ring, w.live[c := k], w.pages, w.arena))
  {
  }

  lemma WorldStart(w: World, trace: seq<Snapshot>, pages: seq<nat>)
    requires |trace| > 0 && trace[0] == Snapshot(w.heap, w.ring)
    ensures WorldAt(w, trace, pages, 0) == w
  {
    assert w.pages + (set p | p in pages[..0]) == w.pages;
  }

  /** A whole call of slob_alloc is a run: a donation for each page it takes, and then one allocation. */
  lemma CallIsRun(w: World, trace: seq<Snapshot>, pages: seq<nat>, h: Heap, ring: seq<nat>, k: nat, align: nat, i: nat, c: nat)
      returns (ws: seq<World>, es: seq<Event>)
    requires Inv(w) && NewPages(w, pages) && k >= 2 && Call(trace, pages, h, ring, k, align, i, c)
    requires trace[0] == Snapshot(w.heap, w.ring)
    ensures Run(ws, es) && ws[0] == w && es == Donations(pages, |trace| - 1) + [Alloc(k, align, i)]
    ensures var v := ws[|es|]; v.heap == h && v.ring == ring && v.live == w.live[c := k] && Inv(v)
  {
    var n := |trace| - 1;
    var last := WorldAt(w, trace, pages, n);
    es := Donations(pages, n) + [Alloc(k, align, i)];
    ws := CallWorlds(w, trace, pages, World(h, ring, w.live[c := k], last.pages, w.arena));
    WorldStart(w, trace, pages);
    forall j | 0 <= j < |es| ensures Possible(ws[j], es[j]) && Step(ws[j], es[j], ws[j + 1]) {
      if j < n {
        assert Donation(trace, pages, j);
        DonationStep(w, trace, pages, j);
      } else {
        TakeStep(last, trace[n], h, ring, k, align, i, c);
      }
    }
    RunPartitions(ws, es);
  }

  /** The static block alone, as the allocator starts. */
  lemma StartInv(arena: nat)
    ensures Inv(World(Heap(map[arena := 1], map[arena := arena], arena), [arena], map[], {}, arena))
  {
    var w := World(Heap(map[arena := 1], map[arena := arena], arena), [arena], map[], {}, arena);
    assert Ring(w.heap, w.ring) by {
      assert Linked(w.heap, w.ring, 0);
    }
    forall x: nat ensures Accounted(w, x) {
      assert Within(w.heap, w.ring, 0, x) <==> x == arena;
      assert InFree(w.heap, w.ring, x) <==> x == arena;
    }
  }

  /** Every event that is possible has a next state, which is what the methods compute. */
  lemma StepExists(w: World, e: Event) returns (v: World)
    requires Inv(w) && Possible(w, e)
    ensures Step(w, e, v)
  {
    match e
    case Alloc(k, align, i) =>
      var d := Delta(w.ring[i], align);
      assert Linked(w.heap, w.ring, i);
      v := World(Carve(w.heap, w.ring[Before(w.ring, i)], w.ring[i], k, d),
                 Carved(w.ring, i, k, d, d + k < w.heap.units[w.ring[i]]), w.live[w.ring[i] + d := k], w.pages, w.arena);
    case Free(b) =>
      LiveIsTaken(w, b);
      var h, r := ReleaseExists(w.heap, w.ring, b, w.live[b]);
      v := World(h, r, w.live - {b}, w.pages, w.arena);
    case Donate(page) =>
      GivenIsTaken(w, page);
      var h, r := ReleaseExists(w.heap, w.ring, page, 256);
      v := World(h, r, w.live, w.pages + {page}, w.arena);
  }

  lemma ReleaseExists(h: Heap, ring: seq<nat>, b: nat, k: nat) returns (h': Heap, ring': seq<nat>)
    requires Ring(h, ring) && Taken(h, ring, b, k) && k > 0
    ensures Released(h, ring, b, k, Place(ring, b, 0), h', ring')
  {
    var p := Place(ring, b, 0);
    PlaceIsSpot(h, ring, b, k);
    SpotLinks(h, ring, b, k, p);
    h' := Release(h, ring[Before(ring, p)], b, k);
    ring' := Merged(ring, p, b, MergesLeft(h, ring, p, b), MergesRight(ring, p, b, k));
  }
}

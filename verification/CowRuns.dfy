/** Whole runs of the virtual-memory operations together with the frame allocator they take their frames from. */
module CowRuns {
  import opened Options
  import opened PageBits
  import opened PageTables
  import opened UserAccess
  import opened CowSteps
  import opened UserStores
  import opened DenseTables
  import Bitmap = BlockBitmap

  /** The machine, and the frame allocator's bitmap and counter. */
  datatype System = System(m: Machine, frames: Bitmap.Blocks)

  datatype Call =
    | Mmap(r: nat, v: Word, page: Page)        // map the allocator's block, which happens to hold `page`
    | ForkProcess(r: nat, child: nat)
    | CowFault(r: nat, v: Word)                // copy into the allocator's block
    | ExecClear(r: nat)
    | StoreWord(r: nat, v: Word, word: Word)   // a store in user mode
    | MapKernel(r: nat, v: Word, frame: nat)
    | TakeBlock                                // the kernel takes a block for itself

  /** The allocator has a block to give. */
  predicate Available(s: System) {
    s.frames.Valid() && Bitmap.Chosen(s.frames) >= 0
  }

  /** The frame that a call to the allocator yields: its block, or 0 once it has run out. */
  function FrameOf(s: System): nat {
    if Available(s) then Bitmap.Chosen(s.frames) else 0
  }

  /** It is the frame at the address that mmgr_alloc_block returns, null being the address of frame 0. */
  lemma FrameIsAddress(s: System)
    requires s.frames.Valid()
    ensures var address := Bitmap.Address(Bitmap.Chosen(s.frames)); address == 4096 * FrameOf(s) && FrameOf(s) == address / 4096
  {
    Bitmap.AddressNames(s.frames);
  }

  /** The step of the machine that a call makes with the given frame. */
  function EventOf(c: Call, frame: nat): Event
    requires !c.TakeBlock?
  {
    match c
    case Mmap(r, v, page) => Map(r, v, frame, page)
    case ForkProcess(r, child) => Event.Fork(r, child)
    case CowFault(r, v) => Fault(r, v, frame)
    case ExecClear(r) => Clear(r)
    case StoreWord(r, v, word) => Write(r, v, word)
    case MapKernel(r, v, f) => Event.Kernel(r, v, f)
  }

  predicate Allocates(c: Call) {
    c.Mmap? || c.CowFault? || c.TakeBlock?
  }

  function Perform(s: System, c: Call): Option<System>
    requires s.frames.Valid()
  {
    var frames := if Allocates(c) then Bitmap.Alloc(s.frames) else s.frames;
    if c.TakeBlock? then Some(s.(frames := frames))
    else
      var m :- CowSteps.Step(s.m, EventOf(c, FrameOf(s)));
      Some(System(m, frames))
  }

  /** When a call happens: the address space exists, mmap is given a user page, a fault is a copy-on-write fault,
      an allocating call finds a block, and a program whose slot 510 lets programs through does not store there.
      Nothing else is said about that block or about stores. */
  ghost predicate Ready(s: System, c: Call) {
    c.TakeBlock? ||
    (&& c.r in s.m.roots
     && match c {
          case Mmap(r, v, page) =>
            Split(v).pml < SELF && Available(s) && FrameOf(s) in s.m.data && s.m.data[FrameOf(s)] == page
          case ForkProcess(r, child) => s.m.vm.Left() > 0 && child == s.m.vm.pages[s.m.vm.next]
          case CowFault(r, v) =>
            && Canonical(v) && Split(v).pml < SELF && Available(s)
            && Leaf(s.m.vm.mem, r, Split(v)).Some? && Leaf(s.m.vm.mem, r, Split(v)).value.cow
          case ExecClear(r) => true
          case StoreWord(r, v, word) => Split(v).pml == SELF ==> !SelfUser(s.m.vm.mem, r)
          case MapKernel(r, v, frame) => Split(v).pml == 511 && frame < PAGE_LIMIT
        })
  }

  /** What the loops of fork and exec need of the tables, and the mask of the fault handler of the address. */
  ghost predicate Suited(s: System, c: Call) {
    && (c.ForkProcess? || c.ExecClear? ==> Dense(s.m, c.r))
    && (c.CowFault? ==> Canonical(FaultPageWord(c.v)))
  }

  ghost predicate Callable(s: System, c: Call) {
    Ready(s, c) && Suited(s, c)
  }

  // ---------------------------------------------------------------- the invariant

  /** A free block is a data frame. */
  ghost predicate FreeOk(s: System, b: nat) {
    s.frames.Valid() && b < s.frames.Scanned() && !Bitmap.Used(s.frames.bits, b) ==> b in s.m.data && b < PAGE_LIMIT
  }

  /** The frame of a mapped user page is marked used. */
  ghost predicate InUse(s: System, w: VirtualPage) {
    Covers(s.m, w) && LeafOf(s.m, w).Some? ==>
      var f := LeafOf(s.m, w).value.Page(); f < 64 * |s.frames.bits| && Bitmap.Used(s.frames.bits, f)
  }

  ghost predicate SystemInv(s: System) {
    && Inv(s.m) && s.frames.Valid()
    && (forall b: nat {:trigger FreeOk(s, b)} :: FreeOk(s, b))
    && (forall w {:trigger InUse(s, w)} :: InUse(s, w))
  }

  /** The allocator's block is kept by no user page. */
  lemma BlockIsFresh(s: System, v: VirtualPage)
    requires SystemInv(s) && Available(s)
    ensures Unused(s.m, v, FrameOf(s)) && FrameOf(s) in s.m.data && FrameOf(s) < PAGE_LIMIT
  {
    var f := FrameOf(s);
    assert FreeOk(s, f);
    forall w | Covers(s.m, w) && LeafOf(s.m, w).Some? ensures LeafOf(s.m, w).value.Page() != f {
      assert InUse(s, w);
    }
  }

  lemma CallPossible(s: System, c: Call)
    requires SystemInv(s) && Callable(s, c) && !c.TakeBlock?
    ensures Possible(s.m, EventOf(c, FrameOf(s))) && FreshFrame(s.m, EventOf(c, FrameOf(s)))
  {
    if c.Mmap? || c.CowFault? {
      BlockIsFresh(s, PageOf(c.r, Split(c.v)));
    }
  }

  // ---------------------------------------------------------------- where the frames of the leaves come from

  /** The leaf of `w` names a frame that a leaf named before, or the frame of the step. */
  ghost predicate FrameFrom(m: Machine, n: Machine, o: VirtualPage, w: VirtualPage, frame: nat) {
    Covers(n, w) && LeafOf(n, w).Some? ==>
      || LeafOf(n, w).value.Page() == frame
      || (Covers(m, o) && LeafOf(m, o).Some? && LeafOf(n, w).value.Page() == LeafOf(m, o).value.Page())
  }

  lemma StepFrames(m: Machine, e: Event, w: VirtualPage) returns (o: VirtualPage)
    requires Inv(m) && Possible(m, e) && Step(m, e).Some? && (e.Map? || e.Fault?)
    ensures FrameFrom(m, Step(m, e).value, o, w, e.frame)
  {
    o := w;
    MapLeaves(m, e.r, e.v, e.frame);
    var k := MapFrom(m, e.r, e.v, e.frame).value;
    if e.Fault? {
      FaultForm(m, e.r, e.v, e.frame);
    }
    if Covers(m, w) && w != PageOf(e.r, Split(e.v)) {
      assert SameLeaf(m, k, w);
    }
  }

  /** The leaf of `w` names a frame that a leaf named before. */
  ghost predicate FrameKept(m: Machine, n: Machine, o: VirtualPage, w: VirtualPage) {
    Covers(n, w) && LeafOf(n, w).Some? ==>
      Covers(m, o) && LeafOf(m, o).Some? && LeafOf(n, w).value.Page() == LeafOf(m, o).value.Page()
  }

  lemma ForkKeepsFrames(m: Machine, e: Event, w: VirtualPage) returns (o: VirtualPage)
    requires Inv(m) && Possible(m, e) && Step(m, e).Some? && e.Fork?
    ensures FrameKept(m, Step(m, e).value, o, w)
  {
    o := Origin(w, e.r, e.child);
    ForkLeaves(m, e.r, w);
  }

  lemma OtherFrames(m: Machine, e: Event, w: VirtualPage) returns (o: VirtualPage)
    requires Inv(m) && Possible(m, e) && Step(m, e).Some? && !e.Map? && !e.Fault?
    ensures FrameKept(m, Step(m, e).value, o, w)
  {
    o := w;
    match e
    case Fork(r, child) => o := ForkKeepsFrames(m, e, w);
    case Clear(r) => if Covers(m, w) { ClearLeaves(m, r, w); }
    case Write(r, v, word) => WriteForm(m, r, v, word);
    case Kernel(r, v, frame) => if Covers(m, w) { KernelLeaf(m, r, v, frame, w); }
  }

  // ---------------------------------------------------------------- steps

  /** A block that is taken is marked, and no mark is lost. */
  lemma AllocMarks(s: Bitmap.Blocks, b: nat)
    requires s.Valid() && b < 64 * |s.bits|
    ensures var t := Bitmap.Alloc(s);
            && t.Valid() && |t.bits| == |s.bits| && t.Scanned() == s.Scanned()
            && (Bitmap.Used(t.bits, b) <==> Bitmap.Used(s.bits, b) || b == Bitmap.Chosen(s))
  {
    Bitmap.CallUsed(s, Bitmap.AllocOne, b);
  }

  lemma AllocValid(s: Bitmap.Blocks)
    requires s.Valid()
    ensures var t := Bitmap.Alloc(s); t.Valid() && |t.bits| == |s.bits| && t.Scanned() == s.Scanned()
  {
    Bitmap.CallUsed(s, Bitmap.AllocOne, 0);
  }

  lemma FreeKept(s: System, t: System, b: nat)
    requires FreeOk(s, b) && s.frames.Valid() && s.m.data.Keys <= t.m.data.Keys
    requires t.frames == s.frames || t.frames == Bitmap.Alloc(s.frames)
    ensures FreeOk(t, b)
  {
    AllocValid(s.frames);
    if b < s.frames.Scanned() {
      AllocMarks(s.frames, b);
    }
  }

  lemma MarkKept(s: System, t: System, f: nat)
    requires s.frames.Valid() && f < 64 * |s.frames.bits| && Bitmap.Used(s.frames.bits, f)
    requires t.frames == s.frames || t.frames == Bitmap.Alloc(s.frames)
    ensures f < 64 * |t.frames.bits| && Bitmap.Used(t.frames.bits, f)
  {
    AllocMarks(s.frames, f);
  }

  lemma DataSame(m: Machine, e: Event)
    requires Step(m, e).Some? && !e.Fault? && !e.Write?
    ensures Step(m, e).value.data == m.data
  {
  }

  lemma FaultData(m: Machine, r: nat, v: Word, frame: nat)
    requires Resolve(m, r, v, frame).Some?
    ensures m.data.Keys <= Resolve(m, r, v, frame).value.data.Keys
  {
  }

  lemma WriteData(m: Machine, r: nat, v: Word, word: Word)
    requires WriteFrom(m, r, v, word).Some?
    ensures m.data.Keys <= WriteFrom(m, r, v, word).value.data.Keys
  {
  }

  lemma DataKept(m: Machine, e: Event)
    requires Step(m, e).Some?
    ensures m.data.Keys <= Step(m, e).value.data.Keys
  {
    if e.Fault? {
      FaultData(m, e.r, e.v, e.frame);
    } else if e.Write? {
      WriteData(m, e.r, e.v, e.word);
    } else {
      DataSame(m, e);
    }
  }

  lemma InUseKept(s: System, c: Call, w: VirtualPage)
    requires SystemInv(s) && Callable(s, c) && !c.TakeBlock? && Perform(s, c).Some?
    ensures InUse(Perform(s, c).value, w)
  {
    var t := Perform(s, c).value;
    var e := EventOf(c, FrameOf(s));
    CallPossible(s, c);
    if c.Mmap? || c.CowFault? {
      var o := StepFrames(s.m, e, w);
      InUseFrom(s, t, o, w);
    } else {
      var o := OtherFrames(s.m, e, w);
      assert InUse(s, o);
    }
  }

  lemma InUseFrom(s: System, t: System, o: VirtualPage, w: VirtualPage)
    requires SystemInv(s) && Available(s) && t.frames == Bitmap.Alloc(s.frames) && FrameFrom(s.m, t.m, o, w, FrameOf(s))
    ensures InUse(t, w)
  {
    assert InUse(s, o);
    AllocMarks(s.frames, FrameOf(s));
    if Covers(t.m, w) && LeafOf(t.m, w).Some? && LeafOf(t.m, w).value.Page() != FrameOf(s) {
      MarkKept(s, t, LeafOf(t.m, w).value.Page());
    }
  }

  /** What a call does where every address space keeps its own copy of every page. */
  ghost function IdealCall(v: imap<VirtualPage, Page>, c: Call): imap<VirtualPage, Page> {
    if c.TakeBlock? then v else Ideal(v, EventOf(c, 0))
  }

  lemma IdealIgnoresFrame(v: imap<VirtualPage, Page>, c: Call, frame: nat)
    requires !c.TakeBlock?
    ensures Ideal(v, EventOf(c, frame)) == IdealCall(v, c)
  {
  }

  lemma TakeBlockStep(s: System, c: Call)
    requires SystemInv(s) && c.TakeBlock?
    ensures Perform(s, c).Some? && SystemInv(Perform(s, c).value) && Perform(s, c).value.m == s.m
  {
    var t := Perform(s, c).value;
    AllocValid(s.frames);
    forall b: nat ensures FreeOk(t, b) {
      assert FreeOk(s, b);
      FreeKept(s, t, b);
    }
    forall w ensures InUse(t, w) {
      assert InUse(s, w);
      if Covers(s.m, w) && LeafOf(s.m, w).Some? {
        MarkKept(s, t, LeafOf(s.m, w).value.Page());
      }
    }
  }

  lemma MachineStep(s: System, c: Call)
    requires SystemInv(s) && Callable(s, c) && !c.TakeBlock? && Perform(s, c).Some?
    ensures SystemInv(Perform(s, c).value) && View(Perform(s, c).value.m) == IdealCall(View(s.m), c)
  {
    var t := Perform(s, c).value;
    CallPossible(s, c);
    StepRefines(s.m, EventOf(c, FrameOf(s)));
    IdealIgnoresFrame(View(s.m), c, FrameOf(s));
    AllocValid(s.frames);
    DataKept(s.m, EventOf(c, FrameOf(s)));
    forall b: nat ensures FreeOk(t, b) {
      assert FreeOk(s, b);
      FreeKept(s, t, b);
    }
    forall w ensures InUse(t, w) {
      InUseKept(s, c, w);
    }
  }

  /** Every call keeps the invariant and does what it would do without sharing, with whatever frame the allocator
      yields. */
  lemma CallRefines(s: System, c: Call)
    requires SystemInv(s) && Callable(s, c) && Perform(s, c).Some?
    ensures SystemInv(Perform(s, c).value) && View(Perform(s, c).value.m) == IdealCall(View(s.m), c)
  {
    if c.TakeBlock? {
      TakeBlockStep(s, c);
    } else {
      MachineStep(s, c);
    }
  }

  // ---------------------------------------------------------------- runs

  ghost predicate StepAt(ss: seq<System>, cs: seq<Call>, i: nat)
    requires |ss| == |cs| + 1 && i < |cs|
  {
    ss[i].frames.Valid() && Callable(ss[i], cs[i]) && Perform(ss[i], cs[i]) == Some(ss[i + 1])
  }

  /** The system goes through `ss` by the calls `cs`. */
  ghost predicate Run(ss: seq<System>, cs: seq<Call>) {
    |ss| == |cs| + 1 && forall i: nat {:trigger StepAt(ss, cs, i)} :: i < |cs| ==> StepAt(ss, cs, i)
  }

  ghost function IdealRun(v: imap<VirtualPage, Page>, cs: seq<Call>): imap<VirtualPage, Page> {
    if cs == [] then v else IdealCall(IdealRun(v, cs[..|cs| - 1]), cs[|cs| - 1])
  }

  lemma SystemNext(ss: seq<System>, cs: seq<Call>, i: nat)
    requires Run(ss, cs) && i < |cs| && SystemInv(ss[i])
    ensures SystemInv(ss[i + 1]) && View(ss[i + 1].m) == IdealCall(View(ss[i].m), cs[i])
  {
    assert StepAt(ss, cs, i);
    CallRefines(ss[i], cs[i]);
  }

  lemma InvNext(ss: seq<System>, cs: seq<Call>, i: nat)
    requires Run(ss, cs) && i < |cs| && SystemInv(ss[i])
    ensures SystemInv(ss[i + 1])
  {
    SystemNext(ss, cs, i);
  }

  /** The invariant holds throughout every run. */
  lemma {:induction false} RunSystem(ss: seq<System>, cs: seq<Call>, k: nat)
    requires Run(ss, cs) && SystemInv(ss[0]) && k <= |cs|
    ensures SystemInv(ss[k])
  {
    if k > 0 {
      RunSystem(ss, cs, k - 1);
      InvNext(ss, cs, k - 1);
    }
  }

  lemma IdealNext(v: imap<VirtualPage, Page>, cs: seq<Call>, i: nat)
    requires i < |cs|
    ensures IdealRun(v, cs[..i + 1]) == IdealCall(IdealRun(v, cs[..i]), cs[i])
  {
    assert cs[..i + 1][..i] == cs[..i];
  }

  lemma ViewNext(ss: seq<System>, cs: seq<Call>, i: nat, v: imap<VirtualPage, Page>)
    requires Run(ss, cs) && SystemInv(ss[0]) && i < |cs| && View(ss[i].m) == IdealRun(v, cs[..i])
    ensures View(ss[i + 1].m) == IdealRun(v, cs[..i + 1])
  {
    RunSystem(ss, cs, i);
    SystemNext(ss, cs, i);
    IdealNext(v, cs, i);
  }

  lemma {:induction false} RunView(ss: seq<System>, cs: seq<Call>, k: nat)
    requires Run(ss, cs) && SystemInv(ss[0]) && k <= |cs|
    ensures View(ss[k].m) == IdealRun(View(ss[0].m), cs[..k])
  {
    if k > 0 {
      RunView(ss, cs, k - 1);
      ViewNext(ss, cs, k - 1, View(ss[0].m));
    }
  }

  /** Over every run, all programs read in memory what they would read if fork copied all pages at once. */
  lemma RunRefines(ss: seq<System>, cs: seq<Call>)
    requires Run(ss, cs) && SystemInv(ss[0])
    ensures SystemInv(ss[|cs|]) && View(ss[|cs|].m) == IdealRun(View(ss[0].m), cs)
  {
    RunSystem(ss, cs, |cs|);
    RunView(ss, cs, |cs|);
    assert cs[..|cs|] == cs;
  }

  /** Calls that are allowed to change what address space `r` reads. */
  predicate Concerns(c: Call, r: nat) {
    match c
    case Mmap(r', _, _) => r' == r
    case ForkProcess(_, child) => child == r
    case ExecClear(r') => r' == r
    case StoreWord(r', _, _) => r' == r
    case _ => false
  }

  lemma {:induction false} IdealKeeps(s: imap<VirtualPage, Page>, cs: seq<Call>, v: VirtualPage)
    requires v.space.User? && forall c :: c in cs ==> !Concerns(c, v.space.root)
    ensures Lookup(IdealRun(s, cs), v) == Lookup(s, v)
  {
    if cs != [] {
      var k := |cs| - 1;
      assert cs[k] in cs;
      IdealKeeps(s, cs[..k], v);
    }
  }

  /** Isolation: whatever the other address spaces fork, fault on, map, clear or store, except through a slot 510 that
      lets them through, whatever is forked from `r` itself, and whatever blocks are handed out, a page of `r` keeps its
      contents. */
  lemma RunIsolates(ss: seq<System>, cs: seq<Call>, v: VirtualPage)
    requires Run(ss, cs) && SystemInv(ss[0])
    requires v.space.User? && forall c :: c in cs ==> !Concerns(c, v.space.root)
    ensures Content(ss[|cs|].m, v) == Content(ss[0].m, v)
  {
    RunRefines(ss, cs);
    IdealKeeps(View(ss[0].m), cs, v);
    ViewAt(ss[0].m, v);
    ViewAt(ss[|cs|].m, v);
  }

  // ---------------------------------------------------------------- programs in the first gibibyte

  predicate LowCall(c: Call) {
    c.Mmap? || c.CowFault? ==> Low(Split(c.v))
  }

  ghost predicate LowStepAt(ss: seq<System>, cs: seq<Call>, i: nat)
    requires |ss| == |cs| + 1 && i < |cs|
  {
    ss[i].frames.Valid() && Ready(ss[i], cs[i]) && LowCall(cs[i]) && Perform(ss[i], cs[i]) == Some(ss[i + 1])
  }

  ghost predicate LowRun(ss: seq<System>, cs: seq<Call>) {
    |ss| == |cs| + 1 && forall i: nat {:trigger LowStepAt(ss, cs, i)} :: i < |cs| ==> LowStepAt(ss, cs, i)
  }

  lemma LowSuited(s: System, c: Call)
    requires Inv(s.m) && AllLow(s.m) && Ready(s, c) && LowCall(c)
    ensures Suited(s, c)
  {
    if c.ForkProcess? || c.ExecClear? {
      assert LowTables(s.m.vm.mem, c.r);
      LowIsDense(s.m, c.r);
    }
    if c.CowFault? {
      FaultPageBase(c.v);
    }
  }

  lemma LowStep(s: System, c: Call, t: System)
    requires SystemInv(s) && AllLow(s.m) && Ready(s, c) && LowCall(c) && Perform(s, c) == Some(t)
    ensures Callable(s, c) && SystemInv(t) && AllLow(t.m)
  {
    LowSuited(s, c);
    CallRefines(s, c);
    if !c.TakeBlock? {
      CallPossible(s, c);
      StepLow(s.m, EventOf(c, FrameOf(s)));
    }
  }

  /** What holds throughout the runs of such programs. */
  ghost predicate LowInv(ss: seq<System>, k: nat)
    requires k < |ss|
  {
    SystemInv(ss[k]) && AllLow(ss[k].m)
  }

  lemma LowNext(ss: seq<System>, cs: seq<Call>, i: nat)
    requires LowRun(ss, cs) && i < |cs| && LowInv(ss, i)
    ensures StepAt(ss, cs, i) && LowInv(ss, i + 1)
  {
    assert LowStepAt(ss, cs, i);
    LowStep(ss[i], cs[i], ss[i + 1]);
  }

  lemma {:induction false} LowRunTo(ss: seq<System>, cs: seq<Call>, k: nat)
    requires LowRun(ss, cs) && LowInv(ss, 0) && k <= |cs|
    ensures LowInv(ss, k)
  {
    if k > 0 {
      LowRunTo(ss, cs, k - 1);
      LowNext(ss, cs, k - 1);
    }
  }

  lemma LowRunIsRun(ss: seq<System>, cs: seq<Call>)
    requires LowRun(ss, cs) && LowInv(ss, 0)
    ensures Run(ss, cs)
  {
    forall i: nat | i < |cs| ensures StepAt(ss, cs, i) {
      LowRunTo(ss, cs, i);
      LowNext(ss, cs, i);
    }
  }

  /** For programs that stay in the first gibibyte, memory reads the same over every run as if fork copied all pages,
      and the tables stay dense. */
  lemma LowRunRefines(ss: seq<System>, cs: seq<Call>)
    requires LowRun(ss, cs) && SystemInv(ss[0]) && AllLow(ss[0].m)
    ensures Run(ss, cs) && SystemInv(ss[|cs|]) && View(ss[|cs|].m) == IdealRun(View(ss[0].m), cs)
    ensures forall r {:trigger Dense(ss[|cs|].m, r)} :: r in ss[|cs|].m.roots ==> Dense(ss[|cs|].m, r)
  {
    LowRunTo(ss, cs, |cs|);
    LowRunIsRun(ss, cs);
    RunRefines(ss, cs);
    var m := ss[|cs|].m;
    forall r | r in m.roots ensures Dense(m, r) {
      assert LowTables(m.vm.mem, r);
      LowIsDense(m, r);
    }
  }

  /** Such runs isolate the address spaces. */
  lemma LowRunIsolates(ss: seq<System>, cs: seq<Call>, v: VirtualPage)
    requires LowRun(ss, cs) && SystemInv(ss[0]) && AllLow(ss[0].m)
    requires v.space.User? && forall c :: c in cs ==> !Concerns(c, v.space.root)
    ensures Content(ss[|cs|].m, v) == Content(ss[0].m, v)
  {
    LowRunRefines(ss, cs);
    RunIsolates(ss, cs, v);
  }

  // ---------------------------------------------------------------- from boot

  /** The state that vmmgr_init and the frame allocator leave: the first table, and blocks of which the free ones are
      memory that holds no table. */
  lemma BootSystem(mem: Memory, root: nat, pages: seq<nat>, data: map<nat, Page>, frames: Bitmap.Blocks)
    requires root in mem && root < PAGE_LIMIT && root !in pages && data.Keys !! mem.Keys
    requires mem[root] == Cleared(mem[root], 512)[SELF := SetEntry(EMPTY, root, false)]
    requires forall n {:trigger pages[n]} :: 0 <= n < |pages| ==>
               pages[n] in mem && pages[n] < PAGE_LIMIT && forall x: Index :: mem[pages[n]][x] == EMPTY
    requires forall k, n :: 0 <= k < n < |pages| ==> pages[k] != pages[n]
    requires frames.Valid() && forall b: nat {:trigger b in data} ::
               b < frames.Scanned() && !Bitmap.Used(frames.bits, b) ==> b in data && b < PAGE_LIMIT
    ensures var m := Machine(Tables(mem, pages, 0, map[root := Pml(root)]), data, {root});
            SystemInv(System(m, frames)) && AllLow(m) && Closed(m) && View(m) == imap[]
  {
    var m := Machine(Tables(mem, pages, 0, map[root := Pml(root)]), data, {root});
    var s := System(m, frames);
    BootInv(mem, root, pages, data);
    BootLow(mem, root);
    forall b: nat ensures FreeOk(s, b) {
      assert b in data || b !in data;
    }
    forall w ensures InUse(s, w) {
      if Covers(m, w) && LeafOf(m, w).Some? {
        assert PageOk(m, w);
        ViewAt(m, w);
      }
    }
  }

  // ---------------------------------------------------------------- slot 510

  lemma CallSelf(s: System, c: Call, r: nat)
    requires SystemInv(s) && Callable(s, c) && Perform(s, c).Some? && r in Perform(s, c).value.m.roots
    ensures SelfUser(Perform(s, c).value.m.vm.mem, r) <==> r !in s.m.roots || SelfUser(s.m.vm.mem, r)
  {
    if !c.TakeBlock? {
      CallPossible(s, c);
      StepSelf(s.m, EventOf(c, FrameOf(s)), r);
    }
  }

  lemma SelfNext(ss: seq<System>, cs: seq<Call>, i: nat, r: nat)
    requires Run(ss, cs) && SystemInv(ss[0]) && i < |cs| && r in ss[i + 1].m.roots
    ensures SelfUser(ss[i + 1].m.vm.mem, r) <==> r !in ss[i].m.roots || SelfUser(ss[i].m.vm.mem, r)
  {
    RunSystem(ss, cs, i);
    assert StepAt(ss, cs, i);
    CallSelf(ss[i], cs[i], r);
  }

  /** Over every run from boot, the address spaces whose slot 510 lets programs through are those made by fork. */
  lemma {:induction false} RunForked(ss: seq<System>, cs: seq<Call>, k: nat, r: nat)
    requires Run(ss, cs) && SystemInv(ss[0]) && Closed(ss[0].m) && k <= |cs| && r in ss[k].m.roots
    ensures SelfUser(ss[k].m.vm.mem, r) <==> r !in ss[0].m.roots
  {
    if k > 0 {
      SelfNext(ss, cs, k - 1, r);
      if r in ss[k - 1].m.roots {
        RunForked(ss, cs, k - 1, r);
      } else {
        RunRoots(ss, cs, k - 1, r);
      }
    }
  }

  lemma RootsNext(ss: seq<System>, cs: seq<Call>, i: nat)
    requires Run(ss, cs) && SystemInv(ss[0]) && i < |cs|
    ensures ss[i].m.roots <= ss[i + 1].m.roots
  {
    RunSystem(ss, cs, i);
    assert StepAt(ss, cs, i);
    CallRoots(ss[i], cs[i]);
  }

  /** No address space is lost. */
  lemma {:induction false} RunRoots(ss: seq<System>, cs: seq<Call>, k: nat, r: nat)
    requires Run(ss, cs) && SystemInv(ss[0]) && k <= |cs| && r !in ss[k].m.roots
    ensures r !in ss[0].m.roots
  {
    if k > 0 {
      RootsNext(ss, cs, k - 1);
      RunRoots(ss, cs, k - 1, r);
    }
  }

  lemma CallRoots(s: System, c: Call)
    requires SystemInv(s) && Callable(s, c) && Perform(s, c).Some?
    ensures s.m.roots <= Perform(s, c).value.m.roots
  {
    if c.ForkProcess? {
      CallPossible(s, c);
      ForkRoots(s.m, EventOf(c, FrameOf(s)));
    } else if !c.TakeBlock? {
      SameRoots(s.m, EventOf(c, FrameOf(s)));
    }
  }

  /** Over every run from boot, the stores of a program can change a mapped page of another address space if and only
      if the program's address space was made by fork. */
  lemma RunIsolationExact(ss: seq<System>, cs: seq<Call>, k: nat, c: nat, w: VirtualPage)
    requires Run(ss, cs) && SystemInv(ss[0]) && Closed(ss[0].m) && k <= |cs| && c in ss[k].m.roots
    requires w.space != User(c) && Content(ss[k].m, w).Some?
    ensures (exists ops {:trigger Reaches(ss[k].m, c, ops, w)} :: Reaches(ss[k].m, c, ops, w)) <==> c !in ss[0].m.roots
  {
    RunSystem(ss, cs, k);
    RunForked(ss, cs, k, c);
    IsolationExact(ss[k].m, c, w);
  }

  /** Over every run, no store of any program goes to the kernel half. */
  lemma RunKernelClosed(ss: seq<System>, cs: seq<Call>, k: nat, r: nat, v: Word, word: Word)
    requires Run(ss, cs) && SystemInv(ss[0]) && k <= |cs| && r in ss[k].m.roots && Split(v).pml == 511
    ensures WriteFrom(ss[k].m, r, v, word).None?
  {
    RunSystem(ss, cs, k);
    KernelClosed(ss[k].m.vm, r, Split(v));
  }

  // ---------------------------------------------------------------- reserved blocks, and running out

  /** The block is marked used and no user page is kept in it. */
  ghost predicate Reserved(s: System, b: nat) {
    && b < 64 * |s.frames.bits| && Bitmap.Used(s.frames.bits, b)
    && forall w {:trigger Covers(s.m, w)} :: Covers(s.m, w) && LeafOf(s.m, w).Some? ==> LeafOf(s.m, w).value.Page() != b
  }

  lemma ReservedStep(s: System, c: Call, b: nat)
    requires SystemInv(s) && Callable(s, c) && Perform(s, c).Some? && Reserved(s, b)
    ensures Reserved(Perform(s, c).value, b)
  {
    var t := Perform(s, c).value;
    MarkKept(s, t, b);
    if !c.TakeBlock? {
      CallPossible(s, c);
      var e := EventOf(c, FrameOf(s));
      forall w | Covers(t.m, w) && LeafOf(t.m, w).Some? ensures LeafOf(t.m, w).value.Page() != b {
        if c.Mmap? || c.CowFault? {
          var o := StepFrames(s.m, e, w);
        } else {
          var o := OtherFrames(s.m, e, w);
        }
      }
    }
  }

  /** A block that the kernel takes is reserved from then on. */
  lemma TakenIsReserved(s: System)
    requires SystemInv(s) && Available(s)
    ensures Reserved(Perform(s, TakeBlock).value, FrameOf(s))
  {
    AllocMarks(s.frames, FrameOf(s));
    assert FreeOk(s, FrameOf(s));
    var t := Perform(s, TakeBlock).value;
    forall w | Covers(t.m, w) && LeafOf(t.m, w).Some? ensures LeafOf(t.m, w).value.Page() != FrameOf(s) {
      assert InUse(s, w);
    }
  }

  /** A block that the kernel keeps for itself never becomes a user page: block 0 and the rest of the low memory that
      is reserved at boot, and the blocks taken later for the kernel. */
  lemma {:induction false} RunReserved(ss: seq<System>, cs: seq<Call>, i: nat, k: nat, b: nat)
    requires Run(ss, cs) && SystemInv(ss[0]) && i <= k <= |cs|
    requires Reserved(ss[i], b) || (i < k && cs[i].TakeBlock? && Available(ss[i]) && b == FrameOf(ss[i]))
    ensures Reserved(ss[k], b)
  {
    if i < k {
      if i == k - 1 && !Reserved(ss[i], b) {
        ReservedFirst(ss, cs, i);
      } else {
        RunReserved(ss, cs, i, k - 1, b);
        ReservedNext(ss, cs, k - 1, b);
      }
    }
  }

  lemma ReservedFirst(ss: seq<System>, cs: seq<Call>, i: nat)
    requires Run(ss, cs) && SystemInv(ss[0]) && i < |cs| && cs[i].TakeBlock? && Available(ss[i])
    ensures Reserved(ss[i + 1], FrameOf(ss[i]))
  {
    RunSystem(ss, cs, i);
    assert StepAt(ss, cs, i);
    TakenIsReserved(ss[i]);
  }

  lemma ReservedNext(ss: seq<System>, cs: seq<Call>, i: nat, b: nat)
    requires Run(ss, cs) && SystemInv(ss[0]) && i < |cs| && Reserved(ss[i], b)
    ensures Reserved(ss[i + 1], b)
  {
    RunSystem(ss, cs, i);
    assert StepAt(ss, cs, i);
    ReservedStep(ss[i], cs[i], b);
  }

  /** When no block is left the frame is 0, and the call keeps stores private exactly when no other page is kept in
      frame 0. */
  lemma ExhaustedExact(s: System, c: Call)
    requires SystemInv(s) && !Available(s) && (c.Mmap? || c.CowFault?)
    requires Possible(s.m, EventOf(c, 0)) && Perform(s, c).Some?
    ensures var t := Perform(s, c).value;
            Exclusive(t.m) <==> Unused(s.m, PageOf(c.r, Split(c.v)), 0)
    ensures !Available(Perform(s, c).value)
  {
    FreshExact(s.m, EventOf(c, 0));
  }

  /** So the first page mapped after the last block is still private, and the second one is not. */
  lemma ExhaustedTwice(s: System, c: Call, t: System, d: Call)
    requires SystemInv(s) && !Available(s) && Reserved(s, 0) && c.Mmap? && d.Mmap?
    requires Possible(s.m, EventOf(c, 0)) && Perform(s, c) == Some(t)
    requires t.frames.Valid() && Possible(t.m, EventOf(d, 0)) && Perform(t, d).Some?
    requires PageOf(d.r, Split(d.v)) != PageOf(c.r, Split(c.v))
    ensures Inv(t.m) && View(t.m) == IdealCall(View(s.m), c) && !WritesPrivate(Perform(t, d).value.m)
  {
    StepRefines(s.m, EventOf(c, 0));
    IdealIgnoresFrame(View(s.m), c, 0);
    FrameTwice(s.m, EventOf(c, 0), t.m, EventOf(d, 0));
  }

  // ---------------------------------------------------------------- what a call does to the blocks

  /** A call marks the block it is given, when it allocates and there is one, and no other. */
  lemma CallMarks(s: System, c: Call, b: nat)
    requires s.frames.Valid() && Perform(s, c).Some? && b < 64 * |s.frames.bits|
    ensures var t := Perform(s, c).value;
            && |t.frames.bits| == |s.frames.bits|
            && (Bitmap.Used(t.frames.bits, b) <==> Bitmap.Used(s.frames.bits, b) || (Allocates(c) && Available(s) && b == FrameOf(s)))
  {
    AllocMarks(s.frames, b);
  }
}

/** Page-table words as the source manipulates them: flag and frame setters, index macros and the
    address arithmetic of the recursive window, with the record form the other modules use. */
module PageBits {

  /** A 64-bit machine word: a virtual address, a page-table entry or a physical address. */
  type Word = bv64

  /** The self-referencing slot of every top-level table. */
  const SELF: Index := 510

  /** Page numbers the entry setters can store: physical addresses below 2^44. */
  const PAGE_LIMIT: nat := 0x1_0000_0000

  // ---------------------------------------------------------------- entry words

  /** set_pml4_entry, set_pdpe_entry, set_pde_entry and set_page_entry: the attributes, then the frame.
      The frame setters overwrite bits 12 to 43 and leave bits 44 to 51 alone. */
  function SetEntryWord(e: Word, addr: Word, user: bool): Word {
    if user then ((e | 1 | 2 | 4) & !0x0000_0FFF_FFFF_F000) | addr
    else ((e | 1 | 2) & !0x0000_0FFF_FFFF_F000) | addr
  }

  /** The leaf update of vmmgr_map_page: the frame first, then the attributes. */
  function SetLeafWord(e: Word, addr: Word): Word {
    ((e & !0x0000_0FFF_FFFF_F000) | addr) | 1 | 2
  }

  /** What copy_page_table does to a leaf entry, in the parent and in the child. */
  function ShareWord(e: Word): Word {
    (e & !2) | 0x4000_0000_0000_0000
  }

  /** PAGE_PHYSICAL_ADDRESS, as a page number. */
  function FrameWord(e: Word): Word {
    (e & !0xFFF0_0000_0000_0FFF) >> 12
  }

  /** Every bit that is not one of the four flags and not part of the frame. */
  function RestWord(e: Word): Word {
    e & 0xBFF0_0000_0000_0FF8
  }

  // ---------------------------------------------------------------- entries as records

  /** A page-table entry: four flags, bits 12 to 43, bits 44 to 51, and every other bit. */
  datatype Entry = Entry(present: bool, writable: bool, user: bool, cow: bool, frame: nat, high: nat, rest: Word) {

    /** The page the processor goes to, and PAGE_PHYSICAL_ADDRESS reads. */
    function Page(): nat {
      high * 0x1_0000_0000 + frame
    }
  }

  const EMPTY: Entry := Entry(false, false, false, false, 0, 0, 0)

  function Decode(e: Word): Entry {
    Entry(e & 1 != 0, e & 2 != 0, e & 4 != 0, e & 0x4000_0000_0000_0000 != 0,
          ((e >> 12) & 0xFFFF_FFFF) as nat, ((e >> 44) & 0xFF) as nat, RestWord(e))
  }

  function SetEntry(e: Entry, page: nat, user: bool): Entry {
    e.(present := true, writable := true, user := e.user || user, frame := page)
  }

  function Share(e: Entry): Entry {
    e.(writable := false, cow := true)
  }

  // ---------------------------------------------------------------- index macros

  type Index = n: nat | n < 512

  /** A virtual address as the processor reads it: one index per table level and the offset in the page. */
  datatype Address = Address(pml: Index, pdpt: Index, pd: Index, pt: Index, offset: nat)

  function Split(v: Word): Address {
    Address(PmlIndex(v), PdptIndex(v), PdIndex(v), PtIndex(v), PageOffset(v))
  }

  function PmlIndex(v: Word): Index {
    ((v >> 39) & 0x1FF) as nat
  }

  function PdptIndex(v: Word): Index {
    ((v >> 30) & 0x1FF) as nat
  }

  function PdIndex(v: Word): Index {
    ((v >> 21) & 0x1FF) as nat
  }

  function PtIndex(v: Word): Index {
    ((v >> 12) & 0x1FF) as nat
  }

  function PageOffset(v: Word): (r: nat)
    ensures r < 4096
  {
    (v & 0xFFF) as nat
  }

  // ---------------------------------------------------------------- the recursive window

  function PmlBits(v: Word): Word { (v >> 39) & 0x1FF }
  function PdptBits(v: Word): Word { (v >> 30) & 0x1FF }
  function PdBits(v: Word): Word { (v >> 21) & 0x1FF }
  function PtBits(v: Word): Word { (v >> 12) & 0x1FF }

  /** The offset arithmetic of get_pml4e_offset_recurse, on the index fields of an address. */
  function PmlWindow(a: Word): Word {
    0xFFFF_FF7F_BFDF_E000 + 8 * a
  }

  /** The offset arithmetic of get_pdpe_offset_recurse. */
  function PdptWindow(a: Word, b: Word): Word {
    var o := ((0xFFFF_FF7F_BFC0_0000 as Word) >> 12) + a;
    (o << 12) + 8 * b
  }

  /** The offset arithmetic of get_pde_offset_recurse. */
  function PdWindow(a: Word, b: Word, c: Word): Word {
    var o := ((0xFFFF_FF7F_8000_0000 as Word) >> 21) + a;
    var o := o << 21;
    var o := (o >> 12) + b;
    (o << 12) + 8 * c
  }

  /** The offset arithmetic of get_pte_recurse and set_phys_virt_recurse. */
  function PtWindow(a: Word, b: Word, c: Word, d: Word): Word {
    var o := ((0xFFFF_FF00_0000_0000 as Word) >> 30) + a;
    var o := o << 30;
    var o := (o >> 21) + b;
    var o := o << 21;
    var o := (o >> 12) + c;
    (o << 12) + 8 * d
  }

  function PmlEntryAddress(v: Word): Word {
    PmlWindow(PmlBits(v))
  }

  function PdptEntryAddress(v: Word): Word {
    PdptWindow(PmlBits(v), PdptBits(v))
  }

  function PdEntryAddress(v: Word): Word {
    PdWindow(PmlBits(v), PdptBits(v), PdBits(v))
  }

  function PtEntryAddress(v: Word): Word {
    PtWindow(PmlBits(v), PdptBits(v), PdBits(v), PtBits(v))
  }

  /** The address in the upper half with the given four indices and page offset. */
  function UpperHalf(a: Word, b: Word, c: Word, d: Word, off: Word): Word {
    0xFFFF_0000_0000_0000 | (a << 39) | (b << 30) | (c << 21) | (d << 12) | off
  }

  /** Bits 63 to 47 agree, as the processor requires of every address it translates. */
  predicate Canonical(v: Word) {
    v >> 47 == 0 || v >> 47 == 0x1_FFFF
  }

  lemma UpperHalfFields(a: Word, b: Word, c: Word, d: Word, off: Word)
    requires a < 512 && b < 512 && c < 512 && d < 512 && off < 4096
    ensures var v := UpperHalf(a, b, c, d, off);
            PmlBits(v) == a && PdptBits(v) == b && PdBits(v) == c && PtBits(v) == d && v & 0xFFF == off
    ensures a >= 256 ==> Canonical(UpperHalf(a, b, c, d, off))
  {
  }

  lemma IndexBits(v: Word)
    ensures PmlBits(v) < 512 && PdptBits(v) < 512 && PdBits(v) < 512 && PtBits(v) < 512
  {
  }

  lemma PmlWindowForm(a: Word)
    requires a < 512
    ensures PmlWindow(a) == UpperHalf(510, 510, 510, 510, 8 * a)
  {
  }

  lemma PdptWindowForm(a: Word, b: Word)
    requires a < 512 && b < 512
    ensures PdptWindow(a, b) == UpperHalf(510, 510, 510, a, 8 * b)
  {
  }

  lemma PdWindowForm(a: Word, b: Word, c: Word)
    requires a < 512 && b < 512 && c < 512
    ensures PdWindow(a, b, c) == UpperHalf(510, 510, a, b, 8 * c)
  {
  }

  lemma PtWindowForm(a: Word, b: Word, c: Word, d: Word)
    requires a < 512 && b < 512 && c < 512 && d < 512
    ensures PtWindow(a, b, c, d) == UpperHalf(510, a, b, c, 8 * d)
  {
  }

  lemma IndicesOfUpperHalf(a: Word, b: Word, c: Word, d: Word, x: Word)
    requires a < 512 && b < 512 && c < 512 && d < 512 && x < 512
    ensures var v := UpperHalf(a, b, c, d, 8 * x);
            PmlIndex(v) == a as nat && PdptIndex(v) == b as nat && PdIndex(v) == c as nat && PtIndex(v) == d as nat &&
            PageOffset(v) == 8 * (x as nat)
  {
    UpperHalfFields(a, b, c, d, 8 * x);
    assert (8 * x) as nat == 8 * (x as nat);
  }

  /** The window addresses shift the indices of `v` down by one to four levels, filling in with 510. */
  lemma WindowIndices(v: Word)
    ensures Split(PmlEntryAddress(v)) == Address(SELF, SELF, SELF, SELF, 8 * PmlIndex(v))
    ensures Split(PdptEntryAddress(v)) == Address(SELF, SELF, SELF, PmlIndex(v), 8 * PdptIndex(v))
    ensures Split(PdEntryAddress(v)) == Address(SELF, SELF, PmlIndex(v), PdptIndex(v), 8 * PdIndex(v))
    ensures Split(PtEntryAddress(v)) == Address(SELF, PmlIndex(v), PdptIndex(v), PdIndex(v), 8 * PtIndex(v))
  {
    var a, b, c, d := PmlBits(v), PdptBits(v), PdBits(v), PtBits(v);
    IndexBits(v);
    PmlWindowForm(a);
    PdptWindowForm(a, b);
    PdWindowForm(a, b, c);
    PtWindowForm(a, b, c, d);
    IndicesOfUpperHalf(510, 510, 510, 510, a);
    IndicesOfUpperHalf(510, 510, 510, a, b);
    IndicesOfUpperHalf(510, 510, a, b, c);
    IndicesOfUpperHalf(510, a, b, c, d);
  }

  /** The processor accepts all four addresses. */
  lemma WindowCanonical(v: Word)
    ensures Canonical(PmlEntryAddress(v)) && Canonical(PdptEntryAddress(v))
    ensures Canonical(PdEntryAddress(v)) && Canonical(PtEntryAddress(v))
  {
    var a, b, c, d := PmlBits(v), PdptBits(v), PdBits(v), PtBits(v);
    IndexBits(v);
    PmlWindowForm(a);
    PdptWindowForm(a, b);
    PdWindowForm(a, b, c);
    PtWindowForm(a, b, c, d);
    UpperHalfFields(510, 510, 510, 510, 8 * a);
    UpperHalfFields(510, 510, 510, a, 8 * b);
    UpperHalfFields(510, 510, a, b, 8 * c);
    UpperHalfFields(510, a, b, c, 8 * d);
  }

  // ---------------------------------------------------------------- the records are the words

  lemma SetEntryFlags(e: Word, x: Word, user: bool)
    requires x < 0x1_0000_0000
    ensures var n := SetEntryWord(e, x << 12, user);
            n & 1 != 0 && n & 2 != 0 && RestWord(n) == RestWord(e)
  {
  }

  lemma SetEntryUser(e: Word, x: Word, user: bool)
    requires x < 0x1_0000_0000
    ensures (SetEntryWord(e, x << 12, user) & 4 != 0) == (e & 4 != 0 || user)
  {
  }

  lemma SetEntryCow(e: Word, x: Word, user: bool)
    requires x < 0x1_0000_0000
    ensures SetEntryWord(e, x << 12, user) & 0x4000_0000_0000_0000 == e & 0x4000_0000_0000_0000
  {
  }

  lemma SetEntryFrame(e: Word, x: Word, user: bool)
    requires x < 0x1_0000_0000
    ensures (SetEntryWord(e, x << 12, user) >> 12) & 0xFFFF_FFFF == x
  {
  }

  lemma SetEntryHigh(e: Word, x: Word, user: bool)
    requires x < 0x1_0000_0000
    ensures (SetEntryWord(e, x << 12, user) >> 44) & 0xFF == (e >> 44) & 0xFF
  {
  }

  lemma DecodeUpdate(e: Word, n: Word, x: Word, user: bool)
    requires n & 1 != 0 && n & 2 != 0 && RestWord(n) == RestWord(e)
    requires (n & 4 != 0) == (e & 4 != 0 || user)
    requires n & 0x4000_0000_0000_0000 == e & 0x4000_0000_0000_0000
    requires (n >> 12) & 0xFFFF_FFFF == x && (n >> 44) & 0xFF == (e >> 44) & 0xFF
    ensures Decode(n) == SetEntry(Decode(e), x as nat, user)
  {
  }

  /** Storing a page address below 2^44 in an entry word is the record update SetEntry. */
  lemma SetEntryDecodes(e: Word, x: Word, user: bool)
    requires x < 0x1_0000_0000
    ensures Decode(SetEntryWord(e, x << 12, user)) == SetEntry(Decode(e), x as nat, user)
  {
    SetEntryFlags(e, x, user);
    SetEntryUser(e, x, user);
    SetEntryCow(e, x, user);
    SetEntryFrame(e, x, user);
    SetEntryHigh(e, x, user);
    DecodeUpdate(e, SetEntryWord(e, x << 12, user), x, user);
  }

  lemma AttributesCommute(e: Word, addr: Word)
    ensures ((e & !0x0000_0FFF_FFFF_F000) | addr) | 1 | 2 == ((e | 1 | 2) & !0x0000_0FFF_FFFF_F000) | addr
  {
  }

  /** vmmgr_map_page and set_page_entry (with is_user false) leave the same leaf. */
  lemma LeafUpdateOrder(e: Word, addr: Word)
    ensures SetLeafWord(e, addr) == SetEntryWord(e, addr, false)
  {
    AttributesCommute(e, addr);
  }

  lemma ShareFrame(e: Word)
    ensures (ShareWord(e) >> 12) & 0xFFFF_FFFF == (e >> 12) & 0xFFFF_FFFF
    ensures (ShareWord(e) >> 44) & 0xFF == (e >> 44) & 0xFF
  {
  }

  lemma ShareRest(e: Word)
    ensures RestWord(ShareWord(e)) == RestWord(e)
  {
  }

  lemma ShareFlags(e: Word)
    ensures var n := ShareWord(e);
            n & 1 == e & 1 && n & 4 == e & 4 && n & 2 == 0 && n & 0x4000_0000_0000_0000 != 0
  {
  }

  lemma ShareDecodes(e: Word)
    ensures Decode(ShareWord(e)) == Share(Decode(e))
  {
    ShareFrame(e);
    ShareRest(e);
    ShareFlags(e);
  }

  /** The entry word with the given fields. */
  function JoinWord(flags: Word, frame: Word, high: Word, rest: Word): Word {
    flags | (frame << 12) | (high << 44) | rest
  }

  lemma JoinFields(e: Word)
    ensures e == JoinWord(e & 0x4000_0000_0000_0007, (e >> 12) & 0xFFFF_FFFF, (e >> 44) & 0xFF, RestWord(e))
  {
  }

  lemma FlagWords(a: Word, b: Word)
    requires (a & 1 != 0) == (b & 1 != 0) && (a & 2 != 0) == (b & 2 != 0) && (a & 4 != 0) == (b & 4 != 0)
    requires (a & 0x4000_0000_0000_0000 != 0) == (b & 0x4000_0000_0000_0000 != 0)
    ensures a & 0x4000_0000_0000_0007 == b & 0x4000_0000_0000_0007
  {
  }

  lemma NumberRoundTrip(x: Word)
    ensures (x as nat) as Word == x
  {
  }

  lemma SameNumber(x: Word, y: Word)
    requires x as nat == y as nat
    ensures x == y
  {
    NumberRoundTrip(x);
    NumberRoundTrip(y);
  }

  /** No information is lost: two words with the same record are the same word. */
  lemma DecodeInjective(a: Word, b: Word)
    requires Decode(a) == Decode(b)
    ensures a == b
  {
    SameNumber((a >> 12) & 0xFFFF_FFFF, (b >> 12) & 0xFFFF_FFFF);
    SameNumber((a >> 44) & 0xFF, (b >> 44) & 0xFF);
    FlagWords(a, b);
    JoinFields(a);
    JoinFields(b);
  }

  /** The zero test of the copy and clear loops. */
  lemma EmptyIsZero(e: Word)
    ensures Decode(e) == EMPTY <==> e == 0
  {
    assert Decode(0) == EMPTY;
    if Decode(e) == EMPTY {
      DecodeInjective(e, 0);
    }
  }

  lemma FrameWordSplits(e: Word)
    ensures FrameWord(e) == (((e >> 44) & 0xFF) << 32) + ((e >> 12) & 0xFFFF_FFFF)
  {
  }

  lemma NumberOfPair(h: Word, f: Word)
    requires h < 0x100 && f < 0x1_0000_0000
    ensures ((h << 32) + f) as nat == h as nat * 0x1_0000_0000 + f as nat
  {
  }

  lemma PageOfPair(e: Entry, h: Word, f: Word, w: Word)
    requires h < 0x100 && f < 0x1_0000_0000 && w == (h << 32) + f
    requires e.high == h as nat && e.frame == f as nat
    ensures e.Page() == w as nat
  {
    NumberOfPair(h, f);
  }

  /** PAGE_PHYSICAL_ADDRESS is the record's page number. */
  lemma PageIsPhysicalAddress(e: Word)
    ensures Decode(e).Page() == FrameWord(e) as nat
  {
    FrameWordSplits(e);
    PageOfPair(Decode(e), (e >> 44) & 0xFF, (e >> 12) & 0xFFFF_FFFF, FrameWord(e));
  }

  /** PAGE_PHYSICAL_ADDRESS as page_fault_handler uses it, on the faulting address itself. */
  function FaultPageWord(v: Word): Word {
    v & !0xFFF0_0000_0000_0FFF
  }

  lemma FaultPageBits(v: Word)
    ensures var p := FaultPageWord(v);
            PmlBits(p) == PmlBits(v) && PdptBits(p) == PdptBits(v) && PdBits(p) == PdBits(v) && PtBits(p) == PtBits(v) && p & 0xFFF == 0
  {
  }

  lemma LowerHalfBits(v: Word)
    requires Canonical(v)
    ensures Canonical(FaultPageWord(v)) <==> PmlBits(v) < 256
  {
  }

  /** The address it copies the page from and back to is the base of the faulting page, but one the processor
      accepts only in the lower half. */
  lemma FaultPageBase(v: Word)
    ensures Split(FaultPageWord(v)) == Split(v).(offset := 0)
    ensures Canonical(v) ==> (Canonical(FaultPageWord(v)) <==> PmlIndex(v) < 256)
  {
    FaultPageBits(v);
    if Canonical(v) {
      LowerHalfBits(v);
    }
  }

  lemma IndexSuccessor(w: Word)
    requires w < 512
    ensures (w + 1) as nat == w as nat + 1
  {
  }

  lemma {:induction false} IndexWord(n: Index) returns (w: Word)
    ensures w < 512 && w as nat == n
  {
    if n == 0 {
      w := 0;
    } else {
      w := IndexWord(n - 1);
      IndexSuccessor(w);
      NumberBound(w + 1);
      w := w + 1;
    }
  }

  lemma NumberBound(w: Word)
    requires w <= 512 && w as nat < 512
    ensures w < 512
  {
  }

  lemma TwoBytes(h: Word, f: Word)
    requires h < 0x100 && f < 0x100
    ensures (h << 8) + f < 0x1_0000 && ((h << 8) + f) as nat == h as nat * 0x100 + f as nat
  {
  }

  lemma ThreeBytes(h: Word, f: Word)
    requires h < 0x100 && f < 0x1_0000
    ensures (h << 16) + f < 0x100_0000 && ((h << 16) + f) as nat == h as nat * 0x1_0000 + f as nat
  {
  }

  lemma FourBytes(h: Word, f: Word)
    requires h < 0x100 && f < 0x100_0000
    ensures (h << 24) + f < 0x1_0000_0000 && ((h << 24) + f) as nat == h as nat * 0x100_0000 + f as nat
  {
  }

  lemma ByteBound(w: Word)
    requires w < 512 && w as nat < 256
    ensures w < 0x100
  {
  }

  lemma ByteWord(n: nat) returns (w: Word)
    requires n < 0x100
    ensures w < 0x100 && w as nat == n
  {
    w := IndexWord(n);
    ByteBound(w);
  }

  lemma TwoByteWord(n: nat) returns (w: Word)
    requires n < 0x1_0000
    ensures w < 0x1_0000 && w as nat == n
  {
    var h := ByteWord(n / 0x100);
    var f := ByteWord(n % 0x100);
    TwoBytes(h, f);
    w := (h << 8) + f;
  }

  lemma ThreeByteWord(n: nat) returns (w: Word)
    requires n < 0x100_0000
    ensures w < 0x100_0000 && w as nat == n
  {
    var h := ByteWord(n / 0x1_0000);
    var f := TwoByteWord(n % 0x1_0000);
    ThreeBytes(h, f);
    w := (h << 16) + f;
  }

  /** Every page number is the number of some word. */
  lemma NumberWord(n: nat) returns (w: Word)
    requires n < PAGE_LIMIT
    ensures w < 0x1_0000_0000 && w as nat == n
  {
    var h := ByteWord(n / 0x100_0000);
    var f := ThreeByteWord(n % 0x100_0000);
    FourBytes(h, f);
    w := (h << 24) + f;
  }

  /** Every combination of indices is the split of some word. */
  lemma AddressWord(a: Address) returns (v: Word)
    requires a.offset == 0
    ensures Split(v) == a
  {
    var i := IndexWord(a.pml);
    var j := IndexWord(a.pdpt);
    var k := IndexWord(a.pd);
    var l := IndexWord(a.pt);
    v := UpperHalf(i, j, k, l, 8 * 0);
    IndicesOfUpperHalf(i, j, k, l, 0);
  }
}

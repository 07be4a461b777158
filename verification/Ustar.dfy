/** The archive walk behind tarfs_read, against the ustar layout of pax (IEEE Std 1003.1). */
module Ustar {
  type Bytes = seq<nat>

  // ---------------------------------------------------------------- strings and numbers

  /** The C string at `off`. */
  function StrAt(mem: Bytes, off: nat): Bytes
    requires off <= |mem|
    decreases |mem| - off
  {
    if off == |mem| || mem[off] == 0 then [] else [mem[off]] + StrAt(mem, off + 1)
  }

  /** my_atool: octal digits accumulated in 32 bits. */
  function Atool(s: Bytes): (r: nat)
    ensures r < 0x1_0000_0000
  {
    if s == [] then 0 else (Atool(s[..|s| - 1]) * 8 + (s[|s| - 1] as int - 48)) % 0x1_0000_0000
  }

  /** `n` in `d` octal digits. */
  function Octal(n: nat, d: nat): (s: Bytes)
    ensures |s| == d && forall i :: 0 <= i < d ==> 48 <= s[i] < 56
  {
    if d == 0 then [] else Octal(n / 8, d - 1) + [48 + n % 8]
  }

  function Pow8(d: nat): nat {
    if d == 0 then 1 else 8 * Pow8(d - 1)
  }

  /** Reading back what was written. */
  lemma {:induction false} OctalReads(n: nat, d: nat)
    requires n < Pow8(d) && n < 0x1_0000_0000
    ensures Atool(Octal(n, d)) == n
  {
    if d > 0 {
      OctalReads(n / 8, d - 1);
      var s := Octal(n, d);
      assert s[..d - 1] == Octal(n / 8, d - 1) && s[d - 1] == 48 + n % 8;
      assert Atool(s) == (n / 8 * 8 + n % 8) % 0x1_0000_0000;
    }
  }

  lemma ElevenDigits()
    ensures Pow8(11) == 0x2_0000_0000
  {
    assert Pow8(4) == 4096;
    assert Pow8(7) == 0x20_0000;
    assert Pow8(9) == 0x800_0000;
  }

  /** A field that holds a string and its terminator. */
  lemma {:induction false} StrAtField(mem: Bytes, off: nat, s: Bytes)
    requires off + |s| < |mem| && mem[off..off + |s|] == s && mem[off + |s|] == 0
    requires forall i :: 0 <= i < |s| ==> s[i] != 0
    ensures StrAt(mem, off) == s
    decreases |s|
  {
    if s != [] {
      assert mem[off] == s[0];
      assert mem[off + 1..off + |s|] == s[1..];
      StrAtField(mem, off + 1, s[1..]);
    }
  }

  // ---------------------------------------------------------------- the walk

  /** `round`, in the range where its int arithmetic does not overflow. */
  function Round(n: nat): nat {
    (n / 512 + 1) * 512
  }

  const LIMIT: nat := 0x8000_0000 - 512

  /** How far the walk moves past a header with the given size. */
  function Advance(size: nat): nat {
    if size == 0 then 512 else 512 + Round(size)
  }

  /** The blocks a member takes in the archive. */
  function Blocks(size: nat): nat {
    512 + (size + 511) / 512 * 512
  }

  /** The walk moves to the next header exactly when the size is 0 or no multiple of the block size. */
  lemma AdvanceExact(size: nat)
    ensures Advance(size) == Blocks(size) <==> size == 0 || size % 512 != 0
  {
  }

  datatype Outcome = Found(address: nat) | Missing | Lost

  /** tarfs_read from the header at `off`: the address of the data, or nothing; lost when a size field is so large
      that the int arithmetic overflows. */
  function Read(mem: Bytes, end: nat, name: Bytes, off: nat): Outcome
    requires end + 512 <= |mem|
    decreases if off <= end then end - off + 1 else 0
  {
    if off > end then Missing
    else if StrAt(mem, off) == name then Found(off + 512)
    else
      var size := Atool(StrAt(mem, off + 124));
      if size >= LIMIT then Lost else Read(mem, end, name, off + Advance(size))
  }

  // ---------------------------------------------------------------- the layout

  function Zeros(n: nat): Bytes {
    seq(n, _ => 0)
  }

  /** A member: its name, its data, and the other header fields before and after the size. */
  datatype Member = Member(name: Bytes, data: Bytes, before: Bytes, after: Bytes)

  predicate GoodMember(m: Member) {
    && 0 < |m.name| < 100 && (forall i :: 0 <= i < |m.name| ==> m.name[i] != 0)
    && |m.before| == 24 && |m.after| == 376 && |m.data| < LIMIT
  }

  function Header(m: Member): (h: Bytes)
    requires GoodMember(m)
    ensures |h| == 512
  {
    m.name + Zeros(100 - |m.name|) + m.before + Octal(|m.data|, 11) + [0] + m.after
  }

  /** The header, the data, and zeros up to the next block. */
  function Entry(m: Member): (e: Bytes)
    requires GoodMember(m)
    ensures |e| == Blocks(|m.data|)
  {
    Header(m) + m.data + Zeros(Blocks(|m.data|) - 512 - |m.data|)
  }

  predicate GoodMembers(ms: seq<Member>) {
    forall i :: 0 <= i < |ms| ==> GoodMember(ms[i])
  }

  function Archive(ms: seq<Member>): Bytes
    requires GoodMembers(ms)
  {
    if ms == [] then [] else Entry(ms[0]) + Archive(ms[1..])
  }

  /** The data address of the first member with the name, for an archive that starts at `base`. */
  function Lookup(ms: seq<Member>, name: Bytes, base: nat): Outcome
    requires GoodMembers(ms)
  {
    if ms == [] then Missing
    else if ms[0].name == name then Found(base + 512)
    else Lookup(ms[1..], name, base + Blocks(|ms[0].data|))
  }

  /** No member's size is a positive multiple of the block size. */
  predicate Unaligned(ms: seq<Member>) {
    forall i :: 0 <= i < |ms| ==> |ms[i].data| == 0 || |ms[i].data| % 512 != 0
  }

  // ---------------------------------------------------------------- headers read back

  lemma HeaderFields(m: Member)
    requires GoodMember(m)
    ensures Header(m)[..|m.name|] == m.name && Header(m)[|m.name|] == 0
    ensures Header(m)[124..135] == Octal(|m.data|, 11) && Header(m)[135] == 0
  {
    var front := m.name + Zeros(100 - |m.name|) + m.before;
    assert |front| == 124;
    assert Header(m) == front + Octal(|m.data|, 11) + ([0] + m.after);
    assert (front + Octal(|m.data|, 11))[124..135] == Octal(|m.data|, 11);
  }

  lemma SliceInside(pre: Bytes, h: Bytes, post: Bytes, i: nat, j: nat)
    requires i <= j <= |h|
    ensures (pre + h + post)[|pre| + i..|pre| + j] == h[i..j]
  {
  }

  lemma FieldsRead(pre: Bytes, h: Bytes, post: Bytes, name: Bytes, digits: Bytes)
    requires |h| == 512 && |name| < 100 && h[..|name|] == name && h[|name|] == 0
    requires |digits| == 11 && h[124..135] == digits && h[135] == 0
    requires (forall i :: 0 <= i < |name| ==> name[i] != 0) && (forall i :: 0 <= i < |digits| ==> digits[i] != 0)
    ensures StrAt(pre + h + post, |pre|) == name && StrAt(pre + h + post, |pre| + 124) == digits
  {
    SliceInside(pre, h, post, 0, |name|);
    StrAtField(pre + h + post, |pre|, name);
    SliceInside(pre, h, post, 124, 135);
    StrAtField(pre + h + post, |pre| + 124, digits);
  }

  /** A header reads back, wherever it lies. */
  lemma HeaderReads(pre: Bytes, m: Member, post: Bytes)
    requires GoodMember(m)
    ensures var mem := pre + Header(m) + post;
            StrAt(mem, |pre|) == m.name && Atool(StrAt(mem, |pre| + 124)) == |m.data|
  {
    HeaderFields(m);
    FieldsRead(pre, Header(m), post, m.name, Octal(|m.data|, 11));
    ElevenDigits();
    OctalReads(|m.data|, 11);
  }

  lemma {:induction false} StrAtShift(pre: Bytes, tail: Bytes, off: nat)
    requires off <= |tail|
    ensures StrAt(pre + tail, |pre| + off) == StrAt(tail, off)
    decreases |tail| - off
  {
    if off < |tail| && tail[off] != 0 {
      StrAtShift(pre, tail, off + 1);
    }
  }

  // ---------------------------------------------------------------- where the headers are

  /** The header at `off` has the given name and size. */
  predicate HeaderAt(mem: Bytes, off: nat, name: Bytes, size: nat) {
    off + 512 <= |mem| && StrAt(mem, off) == name && Atool(StrAt(mem, off + 124)) == size
  }

  /** The headers of the members follow each other from `off` on. */
  predicate Chain(mem: Bytes, off: nat, ms: seq<Member>)
    decreases |ms|
  {
    ms == [] || (HeaderAt(mem, off, ms[0].name, |ms[0].data|) && Chain(mem, off + Blocks(|ms[0].data|), ms[1..]))
  }

  /** Zero blocks read as headers without name and size. */
  predicate ZeroChain(mem: Bytes, off: nat, blocks: nat)
    decreases blocks
  {
    blocks == 0 || (HeaderAt(mem, off, [], 0) && ZeroChain(mem, off + 512, blocks - 1))
  }

  function Size(ms: seq<Member>): nat {
    if ms == [] then 0 else Blocks(|ms[0].data|) + Size(ms[1..])
  }

  /** Memory with an archive in it: `pre`, the members one after the other, zero blocks, and what comes after. */
  function Image(pre: Bytes, ms: seq<Member>, blocks: nat, tail: Bytes): Bytes
    requires GoodMembers(ms)
    decreases |ms|
  {
    if ms == [] then pre + (Zeros(512 * blocks) + tail) else Image(pre + Entry(ms[0]), ms[1..], blocks, tail)
  }

  lemma {:induction false} ZerosChain(pre: Bytes, blocks: nat, tail: Bytes)
    ensures ZeroChain(pre + (Zeros(512 * blocks) + tail), |pre|, blocks)
    decreases blocks
  {
    if blocks > 0 {
      var rest := Zeros(512 * (blocks - 1)) + tail;
      assert Zeros(512 * blocks) + tail == Zeros(512) + rest;
      ZeroHeader(pre, rest);
      ZerosChain(pre + Zeros(512), blocks - 1, tail);
      assert (pre + Zeros(512)) + rest == pre + (Zeros(512) + rest);
    }
  }

  lemma ZeroHeader(pre: Bytes, rest: Bytes)
    ensures HeaderAt(pre + (Zeros(512) + rest), |pre|, [], 0)
  {
  }

  lemma EntryHeader(mem: Bytes, pre: Bytes, m: Member, rest: Bytes)
    requires GoodMember(m) && mem == (pre + Entry(m)) + rest
    ensures HeaderAt(mem, |pre|, m.name, |m.data|)
  {
    var body := m.data + Zeros(Blocks(|m.data|) - 512 - |m.data|);
    assert Entry(m) == Header(m) + body;
    assert mem == pre + Header(m) + (body + rest);
    HeaderReads(pre, m, body + rest);
  }

  lemma Regroup(a: Bytes, b: Bytes, c: Bytes)
    ensures (a + b) + c == a + (b + c)
  {
  }

  lemma {:induction false} ImagePrefix(pre: Bytes, ms: seq<Member>, blocks: nat, tail: Bytes) returns (rest: Bytes)
    requires GoodMembers(ms)
    ensures Image(pre, ms, blocks, tail) == pre + rest
    decreases |ms|
  {
    if ms == [] {
      rest := Zeros(512 * blocks) + tail;
    } else {
      var behind := ImagePrefix(pre + Entry(ms[0]), ms[1..], blocks, tail);
      rest := Entry(ms[0]) + behind;
      Regroup(pre, Entry(ms[0]), behind);
    }
  }

  lemma ImageHeader(pre: Bytes, ms: seq<Member>, blocks: nat, tail: Bytes)
    requires GoodMembers(ms) && ms != []
    ensures HeaderAt(Image(pre, ms, blocks, tail), |pre|, ms[0].name, |ms[0].data|)
  {
    var rest := ImagePrefix(pre + Entry(ms[0]), ms[1..], blocks, tail);
    EntryHeader(Image(pre, ms, blocks, tail), pre, ms[0], rest);
  }

  /** The layout puts the headers where the chain has them. */
  lemma {:induction false} ImageChain(pre: Bytes, ms: seq<Member>, blocks: nat, tail: Bytes)
    requires GoodMembers(ms)
    ensures Chain(Image(pre, ms, blocks, tail), |pre|, ms)
    decreases |ms|
  {
    if ms != [] {
      ImageHeader(pre, ms, blocks, tail);
      ImageChain(pre + Entry(ms[0]), ms[1..], blocks, tail);
    }
  }

  lemma {:induction false} ImageZeros(pre: Bytes, ms: seq<Member>, blocks: nat, tail: Bytes)
    requires GoodMembers(ms)
    ensures ZeroChain(Image(pre, ms, blocks, tail), |pre| + Size(ms), blocks)
    decreases |ms|
  {
    if ms == [] {
      ZerosChain(pre, blocks, tail);
    } else {
      ImageZeros(pre + Entry(ms[0]), ms[1..], blocks, tail);
    }
  }

  lemma {:induction false} ImageSplits(pre: Bytes, ms: seq<Member>, blocks: nat, tail: Bytes) returns (front: Bytes)
    requires GoodMembers(ms)
    ensures Image(pre, ms, blocks, tail) == front + tail && |front| == |pre| + Size(ms) + 512 * blocks
    decreases |ms|
  {
    if ms == [] {
      front := pre + Zeros(512 * blocks);
      assert pre + (Zeros(512 * blocks) + tail) == front + tail;
    } else {
      front := ImageSplits(pre + Entry(ms[0]), ms[1..], blocks, tail);
    }
  }

  /** Written out as one concatenation. */
  lemma {:induction false} ImageIs(pre: Bytes, ms: seq<Member>, blocks: nat, tail: Bytes)
    requires GoodMembers(ms)
    ensures Image(pre, ms, blocks, tail) == pre + Archive(ms) + Zeros(512 * blocks) + tail
    decreases |ms|
  {
    if ms == [] {
      Regroup(pre, Zeros(512 * blocks), tail);
      assert pre + Archive(ms) == pre;
    } else {
      ImageIs(pre + Entry(ms[0]), ms[1..], blocks, tail);
      Regroup(pre, Entry(ms[0]), Archive(ms[1..]));
    }
  }

  // ---------------------------------------------------------------- where the walk looks

  /** Where the loop goes from the header at `off` when the name does not match; past the end when it is lost. */
  function Next(mem: Bytes, end: nat, off: nat): (n: nat)
    requires off <= end && end + 512 <= |mem|
    ensures n > off
  {
    var size := Atool(StrAt(mem, off + 124));
    if size >= LIMIT then end + 1 else off + Advance(size)
  }

  /** The offsets that the loop takes for headers while no name matches. */
  function Offsets(mem: Bytes, end: nat, off: nat): seq<nat>
    requires end + 512 <= |mem|
    decreases if off <= end then end - off + 1 else 0
  {
    if off > end then [] else [off] + Offsets(mem, end, Next(mem, end, off))
  }

  /** The data behind the first of the offsets with the name. */
  function Scan(mem: Bytes, os: seq<nat>, name: Bytes): Outcome {
    if os == [] then Missing
    else if os[0] <= |mem| && StrAt(mem, os[0]) == name then Found(os[0] + 512)
    else Scan(mem, os[1..], name)
  }

  lemma ScanStep(mem: Bytes, off: nat, rest: seq<nat>, name: Bytes)
    requires off <= |mem|
    ensures Scan(mem, [off] + rest, name) == if StrAt(mem, off) == name then Found(off + 512) else Scan(mem, rest, name)
  {
    assert ([off] + rest)[1..] == rest;
  }

  ghost predicate Scans(mem: Bytes, end: nat, name: Bytes, off: nat)
    requires end + 512 <= |mem|
  {
    var s := Scan(mem, Offsets(mem, end, off), name);
    if s.Found? then Read(mem, end, name, off) == s else !Read(mem, end, name, off).Found?
  }

  lemma ReadStep(mem: Bytes, end: nat, name: Bytes, off: nat, next: nat)
    requires off <= end && end + 512 <= |mem| && next == Next(mem, end, off) && StrAt(mem, off) != name
    ensures Read(mem, end, name, off) == Read(mem, end, name, next) || (Read(mem, end, name, off) == Lost && next > end)
  {
  }

  lemma OffsetsStep(mem: Bytes, end: nat, off: nat, next: nat)
    requires off <= end && end + 512 <= |mem| && next == Next(mem, end, off)
    ensures Offsets(mem, end, off) == [off] + Offsets(mem, end, next)
  {
  }

  lemma ScansStep(mem: Bytes, end: nat, name: Bytes, off: nat, next: nat)
    requires off <= end && end + 512 <= |mem| && next == Next(mem, end, off) && Scans(mem, end, name, next)
    ensures Scans(mem, end, name, off)
  {
    OffsetsStep(mem, end, off, next);
    ScanStep(mem, off, Offsets(mem, end, next), name);
    if StrAt(mem, off) != name {
      ReadStep(mem, end, name, off, next);
    }
  }

  /** tarfs_read returns the data behind the first of these offsets that has the name, and nothing if none has. */
  lemma {:induction false} ReadScans(mem: Bytes, end: nat, name: Bytes, off: nat)
    requires end + 512 <= |mem|
    ensures Scans(mem, end, name, off)
    decreases if off <= end then end - off + 1 else 0
  {
    if off <= end {
      var next := Next(mem, end, off);
      ReadScans(mem, end, name, next);
      ScansStep(mem, end, name, off, next);
    }
  }

  /** Where the members start. */
  function Starts(off: nat, ms: seq<Member>): seq<nat>
    decreases |ms|
  {
    if ms == [] then [] else [off] + Starts(off + Blocks(|ms[0].data|), ms[1..])
  }

  /** Where blocks start. */
  function BlockStarts(off: nat, blocks: nat): seq<nat>
    decreases blocks
  {
    if blocks == 0 then [] else [off] + BlockStarts(off + 512, blocks - 1)
  }

  /** Where an archive has headers: its members, its zero blocks, and the block after it. */
  function Headers(off: nat, ms: seq<Member>, blocks: nat): seq<nat> {
    Starts(off, ms) + BlockStarts(off + Size(ms), blocks + 1)
  }

  lemma ZeroNext(mem: Bytes, end: nat, off: nat, next: nat)
    requires HeaderAt(mem, off, [], 0) && off <= end && end + 512 <= |mem| && next == off + 512
    ensures Next(mem, end, off) == next && Offsets(mem, end, off) == [off] + Offsets(mem, end, next)
  {
    assert Atool(StrAt(mem, off + 124)) == 0;
    OffsetsStep(mem, end, off, next);
  }

  lemma LastOffset(mem: Bytes, end: nat)
    requires end + 512 <= |mem|
    ensures Offsets(mem, end, end) == [end]
  {
    OffsetsStep(mem, end, end, Next(mem, end, end));
  }

  lemma StartsStep(off: nat, blocks: nat, next: nat)
    requires blocks > 0 && next == off + 512
    ensures BlockStarts(off, blocks) == [off] + BlockStarts(next, blocks - 1)
  {
  }

  /** The walk looks at every block from `off` on. */
  ghost predicate Blockwise(mem: Bytes, end: nat, off: nat, blocks: nat)
    requires end + 512 <= |mem|
  {
    Offsets(mem, end, off) == BlockStarts(off, blocks + 1)
  }

  lemma BlockwiseStep(mem: Bytes, end: nat, off: nat, blocks: nat, next: nat)
    requires HeaderAt(mem, off, [], 0) && off <= end && end + 512 <= |mem| && next == off + 512 && blocks > 0
    requires Blockwise(mem, end, next, blocks - 1)
    ensures Blockwise(mem, end, off, blocks)
  {
    ZeroNext(mem, end, off, next);
    StartsStep(off, blocks + 1, next);
  }

  lemma {:induction false} ZeroOffsets(mem: Bytes, end: nat, off: nat, blocks: nat)
    requires ZeroChain(mem, off, blocks) && end == off + 512 * blocks && end + 512 <= |mem|
    ensures Blockwise(mem, end, off, blocks)
    decreases blocks
  {
    if blocks > 0 {
      ZeroOffsets(mem, end, off + 512, blocks - 1);
      BlockwiseStep(mem, end, off, blocks, off + 512);
    } else {
      LastOffset(mem, end);
      StartsStep(off, 1, off + 512);
    }
  }

  lemma HeadersStep(off: nat, ms: seq<Member>, next: nat, blocks: nat)
    requires ms != [] && next == off + Blocks(|ms[0].data|)
    ensures Headers(off, ms, blocks) == [off] + Headers(next, ms[1..], blocks)
  {
    assert off + Size(ms) == next + Size(ms[1..]);
    assert Starts(off, ms) == [off] + Starts(next, ms[1..]);
    Regroup([off], Starts(next, ms[1..]), BlockStarts(next + Size(ms[1..]), blocks + 1));
  }

  lemma HeadersFirst(off: nat, ms: seq<Member>, blocks: nat)
    ensures ms == [] ==> Headers(off, ms, blocks) == BlockStarts(off, blocks + 1)
    ensures Headers(off, ms, blocks) != [] && Headers(off, ms, blocks)[0] == off
  {
  }

  lemma OffsetsFirst(mem: Bytes, end: nat, off: nat)
    requires end + 512 <= |mem|
    ensures Offsets(mem, end, off) != [] ==> Offsets(mem, end, off)[0] == off
  {
  }

  lemma SameTail(a: nat, s: seq<nat>, t: seq<nat>)
    ensures [a] + s == [a] + t <==> s == t
  {
    if [a] + s == [a] + t {
      assert s == ([a] + s)[1..];
      assert t == ([a] + t)[1..];
    }
  }

  lemma UnalignedStep(ms: seq<Member>)
    requires ms != []
    ensures Unaligned(ms) <==> (|ms[0].data| == 0 || |ms[0].data| % 512 != 0) && Unaligned(ms[1..])
  {
    assert forall i :: 0 < i < |ms| ==> ms[i] == ms[1..][i - 1];
  }

  /** The walk looks exactly at the headers from `off` on. */
  ghost predicate Follows(mem: Bytes, end: nat, off: nat, ms: seq<Member>, blocks: nat)
    requires end + 512 <= |mem|
  {
    Offsets(mem, end, off) == Headers(off, ms, blocks)
  }

  lemma PlainFollows(os: seq<nat>, rest: seq<nat>, off: nat, ms: seq<Member>, next: nat, blocks: nat)
    requires ms != [] && next == off + Blocks(|ms[0].data|) && os == [off] + rest
    ensures os == Headers(off, ms, blocks) <==> rest == Headers(next, ms[1..], blocks)
  {
    HeadersStep(off, ms, next, blocks);
    SameTail(off, rest, Headers(next, ms[1..], blocks));
  }

  /** Behind a member of aligned size the walk is one block off. */
  lemma AlignedStrays(os: seq<nat>, rest: seq<nat>, off: nat, ms: seq<Member>, next: nat, blocks: nat)
    requires ms != [] && next == off + Blocks(|ms[0].data|) && os == [off] + rest && (rest == [] || rest[0] != next)
    ensures os != Headers(off, ms, blocks)
  {
    PlainFollows(os, rest, off, ms, next, blocks);
    HeadersFirst(next, ms[1..], blocks);
  }

  /** The archive lies in memory from `off` to `end`. */
  ghost predicate Laid(mem: Bytes, end: nat, off: nat, ms: seq<Member>, blocks: nat) {
    && GoodMembers(ms) && Chain(mem, off, ms) && ZeroChain(mem, off + Size(ms), blocks)
    && end == off + Size(ms) + 512 * blocks && end + 512 <= |mem|
  }

  lemma LaidNext(mem: Bytes, end: nat, off: nat, ms: seq<Member>, next: nat, blocks: nat)
    requires Laid(mem, end, off, ms, blocks) && ms != [] && next == off + Blocks(|ms[0].data|)
    ensures Laid(mem, end, next, ms[1..], blocks)
    ensures off <= end && end + 512 <= |mem| && Atool(StrAt(mem, off + 124)) == |ms[0].data| < LIMIT
  {
  }

  lemma LaidStep(mem: Bytes, end: nat, off: nat, ms: seq<Member>, next: nat, blocks: nat)
    requires Laid(mem, end, off, ms, blocks) && ms != [] && next == off + Blocks(|ms[0].data|)
    ensures Laid(mem, end, next, ms[1..], blocks)
    ensures (Follows(mem, end, off, ms, blocks) <==> Unaligned(ms)) <==
            (Follows(mem, end, next, ms[1..], blocks) <==> Unaligned(ms[1..]))
  {
    var size := |ms[0].data|;
    LaidNext(mem, end, off, ms, next, blocks);
    FollowsStep(mem, end, off, ms, size, next, off + Advance(size), blocks);
    UnalignedStep(ms);
    AdvanceExact(size);
  }

  lemma FollowsStep(mem: Bytes, end: nat, off: nat, ms: seq<Member>, size: nat, next: nat, moved: nat, blocks: nat)
    requires off <= end && end + 512 <= |mem| && Atool(StrAt(mem, off + 124)) == size < LIMIT
    requires ms != [] && size == |ms[0].data| && next == off + Blocks(size) && moved == off + Advance(size)
    ensures Follows(mem, end, off, ms, blocks) <==> next == moved && Follows(mem, end, next, ms[1..], blocks)
  {
    OffsetsStep(mem, end, off, moved);
    OffsetsFirst(mem, end, moved);
    if next == moved {
      PlainFollows(Offsets(mem, end, off), Offsets(mem, end, moved), off, ms, next, blocks);
    } else {
      AlignedStrays(Offsets(mem, end, off), Offsets(mem, end, moved), off, ms, next, blocks);
    }
  }

  /** The walk looks exactly at the headers if and only if no member's size is a positive multiple of 512. */
  lemma {:induction false} OffsetsExact(mem: Bytes, end: nat, off: nat, ms: seq<Member>, blocks: nat)
    requires Laid(mem, end, off, ms, blocks)
    ensures Follows(mem, end, off, ms, blocks) <==> Unaligned(ms)
    decreases |ms|
  {
    if ms == [] {
      HeadersFirst(off, ms, blocks);
      ZeroOffsets(mem, end, off, blocks);
    } else {
      var next := off + Blocks(|ms[0].data|);
      LaidStep(mem, end, off, ms, next, blocks);
      OffsetsExact(mem, end, next, ms[1..], blocks);
    }
  }

  /** For an archive in memory. */
  lemma WalkExact(mem: Bytes, end: nat, ms: seq<Member>, blocks: nat, tail: Bytes)
    requires GoodMembers(ms) && |tail| >= 512
    requires mem == Image([], ms, blocks, tail) && end == Size(ms) + 512 * blocks
    ensures end + 512 <= |mem| && (Follows(mem, end, 0, ms, blocks) <==> Unaligned(ms))
  {
    var front := ImageSplits([], ms, blocks, tail);
    ImageChain([], ms, blocks, tail);
    ImageZeros([], ms, blocks, tail);
    OffsetsExact(mem, end, 0, ms, blocks);
  }

  // ---------------------------------------------------------------- the walk finds the members

  /** What the walk makes of the block after the archive, which it also looks at. */
  function LastOutcome(mem: Bytes, end: nat, name: Bytes): Outcome
    requires end + 512 <= |mem|
  {
    if StrAt(mem, end) == name then Found(end + 512)
    else if Atool(StrAt(mem, end + 124)) >= LIMIT then Lost
    else Missing
  }

  lemma {:induction false} WalkZeros(mem: Bytes, end: nat, off: nat, blocks: nat, name: Bytes)
    requires ZeroChain(mem, off, blocks) && end == off + 512 * blocks && end + 512 <= |mem| && name != []
    ensures Read(mem, end, name, off) == LastOutcome(mem, end, name)
    decreases blocks
  {
    if blocks > 0 {
      WalkZeros(mem, end, off + 512, blocks - 1, name);
    }
  }

  /** The walk of an unaligned archive finds the first member so named, or what the block after it gives. */
  lemma {:induction false} WalkChain(mem: Bytes, end: nat, off: nat, ms: seq<Member>, blocks: nat, name: Bytes)
    requires GoodMembers(ms) && Unaligned(ms) && name != []
    requires Chain(mem, off, ms) && ZeroChain(mem, off + Size(ms), blocks)
    requires end == off + Size(ms) + 512 * blocks && end + 512 <= |mem|
    ensures Read(mem, end, name, off) ==
            if Lookup(ms, name, off).Found? then Lookup(ms, name, off) else LastOutcome(mem, end, name)
    decreases |ms|
  {
    if ms == [] {
      WalkZeros(mem, end, off, blocks, name);
    } else {
      AdvanceExact(|ms[0].data|);
      WalkChain(mem, end, off + Blocks(|ms[0].data|), ms[1..], blocks, name);
    }
  }

  /** An archive in memory, up to `end`, followed by a block that is no header with the given name. */
  predicate Archived(mem: Bytes, end: nat, ms: seq<Member>, blocks: nat, tail: Bytes, name: Bytes) {
    && GoodMembers(ms) && |tail| >= 512 && name != [] && StrAt(tail, 0) != name && Atool(StrAt(tail, 124)) < LIMIT
    && mem == Image([], ms, blocks, tail) && end == Size(ms) + 512 * blocks
  }

  lemma LastOfTail(mem: Bytes, front: Bytes, tail: Bytes, name: Bytes)
    requires mem == front + tail && |tail| >= 512 && StrAt(tail, 0) != name && Atool(StrAt(tail, 124)) < LIMIT
    ensures LastOutcome(mem, |front|, name) == Missing
  {
    assert |front| + 512 <= |mem|;
    StrAtTail(mem, front, tail, 0);
    StrAtTail(mem, front, tail, 124);
  }

  lemma StrAtTail(mem: Bytes, front: Bytes, tail: Bytes, off: nat)
    requires mem == front + tail && off <= |tail|
    ensures StrAt(mem, |front| + off) == StrAt(tail, off)
  {
    StrAtShift(front, tail, off);
  }

  lemma ArchivedEnd(mem: Bytes, end: nat, ms: seq<Member>, blocks: nat, tail: Bytes, name: Bytes)
    requires Archived(mem, end, ms, blocks, tail, name)
    ensures end + 512 <= |mem| && LastOutcome(mem, end, name) == Missing
  {
    var front := ImageSplits([], ms, blocks, tail);
    LastOfTail(mem, front, tail, name);
  }

  /** tarfs_read of a nonempty name returns the data of the first member so named, or null. */
  lemma ReadFindsFirst(mem: Bytes, end: nat, ms: seq<Member>, blocks: nat, tail: Bytes, name: Bytes)
    requires Archived(mem, end, ms, blocks, tail, name) && Unaligned(ms)
    ensures end + 512 <= |mem| && Read(mem, end, name, 0) == Lookup(ms, name, 0)
  {
    ArchivedEnd(mem, end, ms, blocks, tail, name);
    ImageChain([], ms, blocks, tail);
    ImageZeros([], ms, blocks, tail);
    WalkChain(mem, end, 0, ms, blocks, name);
    LookupNeverLost(ms, name, 0);
  }

  lemma {:induction false} LookupNeverLost(ms: seq<Member>, name: Bytes, base: nat)
    requires GoodMembers(ms)
    ensures !Lookup(ms, name, base).Lost?
  {
    if ms != [] && ms[0].name != name {
      LookupNeverLost(ms[1..], name, base + Blocks(|ms[0].data|));
    }
  }

  // ---------------------------------------------------------------- the data behind the address

  /** The first member so named. */
  function FirstNamed(ms: seq<Member>, name: Bytes): nat {
    if ms == [] || ms[0].name == name then 0 else 1 + FirstNamed(ms[1..], name)
  }

  lemma {:induction false} LookupIsFirst(ms: seq<Member>, name: Bytes, base: nat)
    requires GoodMembers(ms)
    ensures var i := FirstNamed(ms, name);
            && i <= |ms| && (forall j :: 0 <= j < i ==> ms[j].name != name) && (i < |ms| ==> ms[i].name == name)
            && Lookup(ms, name, base) == if i < |ms| then Found(base + Size(ms[..i]) + 512) else Missing
    decreases |ms|
  {
    if ms != [] && ms[0].name != name {
      var rest, i := ms[1..], FirstNamed(ms[1..], name);
      LookupIsFirst(rest, name, base + Blocks(|ms[0].data|));
      if i < |rest| {
        assert ms[..i + 1][1..] == rest[..i] && ms[..i + 1][0] == ms[0];
      }
      forall j | 0 <= j < 1 + i ensures ms[j].name != name {
        assert j == 0 || ms[j] == rest[j - 1];
      }
    }
  }

  lemma DataInside(pre: Bytes, m: Member, rest: Bytes, mem: Bytes)
    requires GoodMember(m) && mem == (pre + Entry(m)) + rest
    ensures |pre| + 512 + |m.data| <= |mem| && mem[|pre| + 512..|pre| + 512 + |m.data|] == m.data
  {
    var pad := Zeros(Blocks(|m.data|) - 512 - |m.data|);
    assert Entry(m) == Header(m) + m.data + pad;
    assert mem == (pre + Header(m)) + m.data + (pad + rest);
    SliceInside(pre + Header(m), m.data, pad + rest, 0, |m.data|);
  }

  /** The bytes 512 behind the start of a member are its data. */
  lemma {:induction false} ImageData(pre: Bytes, ms: seq<Member>, blocks: nat, tail: Bytes, i: nat)
    requires GoodMembers(ms) && i < |ms|
    ensures var mem, at := Image(pre, ms, blocks, tail), |pre| + Size(ms[..i]) + 512;
            at + |ms[i].data| <= |mem| && mem[at..at + |ms[i].data|] == ms[i].data
    decreases |ms|
  {
    if i == 0 {
      var rest := ImagePrefix(pre + Entry(ms[0]), ms[1..], blocks, tail);
      DataInside(pre, ms[0], rest, Image(pre, ms, blocks, tail));
    } else {
      ImageData(pre + Entry(ms[0]), ms[1..], blocks, tail, i - 1);
      assert ms[..i][1..] == ms[1..][..i - 1] && ms[..i][0] == ms[0];
    }
  }

  /** What tarfs_read returns for an archive without aligned sizes is where the data of the first member so named is, and
      null exactly when there is none. */
  lemma ReadGivesData(mem: Bytes, end: nat, ms: seq<Member>, blocks: nat, tail: Bytes, name: Bytes)
    requires Archived(mem, end, ms, blocks, tail, name) && Unaligned(ms)
    ensures end + 512 <= |mem|
    ensures var i := FirstNamed(ms, name);
            match Read(mem, end, name, 0)
            case Found(at) => i < |ms| && ms[i].name == name && at + |ms[i].data| <= |mem| && mem[at..at + |ms[i].data|] == ms[i].data
            case Missing => i == |ms|
            case Lost => false
  {
    ReadFindsFirst(mem, end, ms, blocks, tail, name);
    LookupIsFirst(ms, name, 0);
    var i := FirstNamed(ms, name);
    if i < |ms| {
      ImageData([], ms, blocks, tail, i);
    }
  }

  // ---------------------------------------------------------------- a member that the walk jumps over

  lemma {:induction false} SizeAppend(a: seq<Member>, b: seq<Member>)
    ensures Size(a + b) == Size(a) + Size(b)
  {
    if a == [] {
      assert a + b == b;
    } else {
      SizeAppend(a[1..], b);
      assert (a + b)[1..] == a[1..] + b;
    }
  }

  lemma {:induction false} ChainAppend(mem: Bytes, off: nat, a: seq<Member>, b: seq<Member>)
    requires Chain(mem, off, a + b)
    ensures Chain(mem, off, a) && Chain(mem, off + Size(a), b)
    decreases |a|
  {
    if a == [] {
      assert a + b == b;
    } else {
      assert (a + b)[1..] == a[1..] + b;
      ChainAppend(mem, off + Blocks(|a[0].data|), a[1..], b);
    }
  }

  predicate Unnamed(ms: seq<Member>, name: Bytes) {
    forall i :: 0 <= i < |ms| ==> ms[i].name != name
  }

  lemma {:induction false} LookupAppend(a: seq<Member>, b: seq<Member>, name: Bytes, base: nat)
    requires GoodMembers(a + b) && GoodMembers(b) && Unnamed(a, name)
    ensures Lookup(a + b, name, base) == Lookup(b, name, base + Size(a))
    decreases |a|
  {
    if a == [] {
      assert a + b == b;
    } else {
      assert (a + b)[1..] == a[1..] + b && (a + b)[0] == a[0];
      LookupAppend(a[1..], b, name, base + Blocks(|a[0].data|));
    }
  }

  lemma HeaderStep(mem: Bytes, end: nat, off: nat, name: Bytes, m: Member, next: nat)
    requires off <= end && end + 512 <= |mem| && HeaderAt(mem, off, m.name, |m.data|) && m.name != name && |m.data| < LIMIT
    requires next == off + Advance(|m.data|)
    ensures Read(mem, end, name, off) == Read(mem, end, name, next)
  {
  }

  /** The walk passes members without aligned sizes one by one. */
  lemma {:induction false} WalkPast(mem: Bytes, end: nat, off: nat, ms: seq<Member>, name: Bytes)
    requires GoodMembers(ms) && Unaligned(ms) && Unnamed(ms, name) && Chain(mem, off, ms)
    requires off + Size(ms) <= end && end + 512 <= |mem|
    ensures Read(mem, end, name, off) == Read(mem, end, name, off + Size(ms))
    decreases |ms|
  {
    if ms != [] {
      var next := off + Blocks(|ms[0].data|);
      UnalignedStep(ms);
      PastOne(mem, end, off, ms[0], name, next);
      WalkPast(mem, end, next, ms[1..], name);
    }
  }

  lemma PastOne(mem: Bytes, end: nat, off: nat, m: Member, name: Bytes, next: nat)
    requires off <= end && end + 512 <= |mem| && HeaderAt(mem, off, m.name, |m.data|) && m.name != name && |m.data| < LIMIT
    requires (|m.data| == 0 || |m.data| % 512 != 0) && next == off + Blocks(|m.data|)
    ensures Read(mem, end, name, off) == Read(mem, end, name, next)
  {
    AdvanceExact(|m.data|);
    HeaderStep(mem, end, off, name, m, next);
  }

  lemma {:induction false} ReadBeyond(mem: Bytes, end: nat, name: Bytes, off: nat)
    requires end + 512 <= |mem|
    ensures Read(mem, end, name, off).Found? ==> Read(mem, end, name, off).address >= off + 512
    decreases if off <= end then end - off + 1 else 0
  {
    if off <= end && StrAt(mem, off) != name {
      ReadStep(mem, end, name, off, Next(mem, end, off));
      ReadBeyond(mem, end, name, Next(mem, end, off));
    }
  }

  lemma PairSize(m: Member, n: Member)
    requires |n.data| == 0
    ensures Size([m, n]) == Blocks(|m.data|) + 512
  {
    assert [m, n][1..] == [n] && [n][1..] == [];
    assert Size([n]) == 512;
  }

  lemma AlignedAdvance(size: nat)
    requires size > 0 && size % 512 == 0
    ensures Advance(size) == Blocks(size) + 512
  {
  }

  /** From a member of aligned size the walk goes to the second block behind it, past an empty member. */
  lemma JumpsOver(mem: Bytes, end: nat, off: nat, m: Member, rest: seq<Member>, name: Bytes, next: nat)
    requires Chain(mem, off, [m] + rest) && GoodMember(m) && m.name != name && off <= end && end + 512 <= |mem|
    requires |m.data| > 0 && |m.data| % 512 == 0 && next == off + Blocks(|m.data|) + 512
    ensures Read(mem, end, name, off) == Read(mem, end, name, next)
  {
    assert ([m] + rest)[0] == m;
    AlignedAdvance(|m.data|);
    HeaderStep(mem, end, off, name, m, next);
  }

  /** The members around the one that is jumped over. */
  ghost predicate Behind(ms: seq<Member>, pre: seq<Member>, m: Member, n: Member, post: seq<Member>) {
    && ms == pre + ([m, n] + post) && GoodMembers(ms) && Unaligned(pre) && Unnamed(pre, n.name) && m.name != n.name
    && |m.data| > 0 && |m.data| % 512 == 0 && |n.data| == 0
  }

  lemma BehindParts(ms: seq<Member>, pre: seq<Member>, m: Member, n: Member, post: seq<Member>)
    requires Behind(ms, pre, m, n, post)
    ensures GoodMembers(pre) && GoodMembers([m, n] + post) && GoodMembers(post) && GoodMember(m) && GoodMember(n)
    ensures Size(ms) == Size(pre) + Size([m, n]) + Size(post)
  {
    SizeAppend(pre, [m, n] + post);
    SizeAppend([m, n], post);
    forall i | 0 <= i < |pre| ensures GoodMember(pre[i]) {
      assert ms[i] == pre[i];
    }
    forall i | 0 <= i < |post| + 2 ensures GoodMember(([m, n] + post)[i]) {
      assert ms[|pre| + i] == ([m, n] + post)[i];
    }
    assert m == ([m, n] + post)[0] && n == ([m, n] + post)[1];
    forall i | 0 <= i < |post| ensures GoodMember(post[i]) {
      assert ([m, n] + post)[i + 2] == post[i];
    }
  }

  lemma ChainBehind(mem: Bytes, pre: seq<Member>, m: Member, n: Member, post: seq<Member>)
    requires Chain(mem, 0, pre + ([m, n] + post))
    ensures Chain(mem, 0, pre) && Chain(mem, Size(pre), [m] + ([n] + post)) && Chain(mem, Size(pre) + Size([m, n]), post)
  {
    ChainAppend(mem, 0, pre, [m, n] + post);
    ChainAppend(mem, Size(pre), [m, n], post);
    assert [m, n] + post == [m] + ([n] + post);
  }

  lemma WalkSkips(mem: Bytes, end: nat, pre: seq<Member>, m: Member, rest: seq<Member>, name: Bytes, at: nat, next: nat)
    requires GoodMembers(pre) && Unaligned(pre) && Unnamed(pre, name) && Chain(mem, 0, pre) && at == Size(pre) <= end && end + 512 <= |mem|
    requires Chain(mem, at, [m] + rest) && GoodMember(m) && m.name != name && |m.data| > 0 && |m.data| % 512 == 0
    requires next == at + Blocks(|m.data|) + 512
    ensures Read(mem, end, name, 0) == Read(mem, end, name, next)
  {
    WalkPast(mem, end, 0, pre, name);
    JumpsOver(mem, end, at, m, rest, name, next);
  }

  lemma LookupSecond(m: Member, n: Member, post: seq<Member>, base: nat)
    requires GoodMembers([m, n] + post) && m.name != n.name
    ensures Lookup([m, n] + post, n.name, base) == Found(base + Blocks(|m.data|) + 512)
  {
    var all := [m, n] + post;
    assert all[0] == m && all[1..][0] == n;
  }

  lemma LookupSkipped(ms: seq<Member>, pre: seq<Member>, m: Member, n: Member, post: seq<Member>, next: nat)
    requires Behind(ms, pre, m, n, post) && next == Size(pre) + Size([m, n])
    ensures Lookup(ms, n.name, 0) == Found(next)
  {
    BehindParts(ms, pre, m, n, post);
    PairSize(m, n);
    LookupAppend(pre, [m, n] + post, n.name, 0);
    LookupSecond(m, n, post, Size(pre));
  }

  lemma WalkOver(mem: Bytes, end: nat, pre: seq<Member>, m: Member, n: Member, post: seq<Member>, at: nat, next: nat)
    requires GoodMembers(pre) && Unaligned(pre) && Unnamed(pre, n.name) && GoodMember(m) && m.name != n.name
    requires |m.data| > 0 && |m.data| % 512 == 0 && |n.data| == 0 && Chain(mem, 0, pre + ([m, n] + post))
    requires at == Size(pre) <= end && end + 512 <= |mem| && next == at + Size([m, n])
    ensures Read(mem, end, n.name, 0) == Read(mem, end, n.name, next) && Chain(mem, next, post)
  {
    ChainBehind(mem, pre, m, n, post);
    PairSize(m, n);
    WalkSkips(mem, end, pre, m, [n] + post, n.name, at, next);
  }

  /** What the walk finds in members without aligned sizes, or else in the block after them. */
  ghost predicate FindsIn(mem: Bytes, end: nat, post: seq<Member>, name: Bytes, next: nat)
    requires end + 512 <= |mem| && GoodMembers(post)
  {
    var found := Lookup(post, name, next);
    Read(mem, end, name, next) == if found.Found? then found else LastOutcome(mem, end, name)
  }

  lemma WalkRest(mem: Bytes, end: nat, post: seq<Member>, blocks: nat, name: Bytes, next: nat)
    requires Laid(mem, end, next, post, blocks) && Unaligned(post) && name != []
    ensures FindsIn(mem, end, post, name, next)
  {
    WalkChain(mem, end, next, post, blocks, name);
  }

  lemma LaidBehind(mem: Bytes, end: nat, ms: seq<Member>, pre: seq<Member>, m: Member, n: Member, post: seq<Member>, blocks: nat, next: nat)
    requires Laid(mem, end, 0, ms, blocks) && Behind(ms, pre, m, n, post) && next == Size(pre) + Size([m, n])
    ensures Laid(mem, end, next, post, blocks) && Read(mem, end, n.name, 0) == Read(mem, end, n.name, next)
  {
    BehindParts(ms, pre, m, n, post);
    WalkOver(mem, end, pre, m, n, post, Size(pre), next);
  }

  lemma WalkBehind(mem: Bytes, end: nat, ms: seq<Member>, pre: seq<Member>, m: Member, n: Member, post: seq<Member>, blocks: nat, next: nat)
    requires Laid(mem, end, 0, ms, blocks) && Behind(ms, pre, m, n, post) && next == Size(pre) + Size([m, n]) && n.name != []
    ensures GoodMembers(post) && Read(mem, end, n.name, 0) == Read(mem, end, n.name, next)
    ensures Unaligned(post) ==> FindsIn(mem, end, post, n.name, next)
  {
    LaidBehind(mem, end, ms, pre, m, n, post, blocks, next);
    if Unaligned(post) {
      WalkRest(mem, end, post, blocks, n.name, next);
    }
  }

  lemma ArchivedLaid(mem: Bytes, end: nat, ms: seq<Member>, blocks: nat, tail: Bytes, name: Bytes)
    requires Archived(mem, end, ms, blocks, tail, name)
    ensures Laid(mem, end, 0, ms, blocks) && LastOutcome(mem, end, name) == Missing
  {
    ArchivedEnd(mem, end, ms, blocks, tail, name);
    ImageChain([], ms, blocks, tail);
    ImageZeros([], ms, blocks, tail);
  }

  /** An empty member behind one whose size is a positive multiple of 512, anywhere in an archive, is there but not
      found: the walk goes on behind it, and finds at most a later member of the same name. */
  lemma SkipsNext(mem: Bytes, end: nat, ms: seq<Member>, pre: seq<Member>, m: Member, n: Member, post: seq<Member>, blocks: nat,
                  tail: Bytes, next: nat)
    requires Archived(mem, end, ms, blocks, tail, n.name) && Behind(ms, pre, m, n, post) && next == Size(pre) + Size([m, n])
    ensures end + 512 <= |mem|
    ensures Lookup(ms, n.name, 0) == Found(next) && Read(mem, end, n.name, 0) != Found(next)
    ensures Unaligned(post) ==> GoodMembers(post) && Read(mem, end, n.name, 0) == Lookup(post, n.name, next)
  {
    ArchivedLaid(mem, end, ms, blocks, tail, n.name);
    WalkBehind(mem, end, ms, pre, m, n, post, blocks, next);
    LookupSkipped(ms, pre, m, n, post, next);
    ReadBeyond(mem, end, n.name, next);
    LookupNeverLost(post, n.name, next);
  }

  // ---------------------------------------------------------------- the code

  /** Memory whose strings all end: its last byte is zero. */
  predicate Terminated(mem: Bytes) {
    |mem| > 0 && mem[|mem| - 1] == 0
  }

  lemma {:induction false} StrAtBytes(mem: Bytes, off: nat, i: nat)
    requires Terminated(mem) && off < |mem| && i <= |StrAt(mem, off)|
    ensures off + i < |mem| && (i < |StrAt(mem, off)| <==> mem[off + i] != 0)
    ensures i < |StrAt(mem, off)| ==> mem[off + i] == StrAt(mem, off)[i]
    decreases i
  {
    if i > 0 {
      StrAtBytes(mem, off + 1, i - 1);
    }
  }

  /** strlen. */
  method Strlen(mem: Bytes, off: nat) returns (n: nat)
    requires Terminated(mem) && off < |mem|
    ensures n == |StrAt(mem, off)|
  {
    n := 0;
    StrAtBytes(mem, off, 0);
    while mem[off + n] != 0
      invariant n <= |StrAt(mem, off)| && off + n < |mem| && (n < |StrAt(mem, off)| <==> mem[off + n] != 0)
      decreases |mem| - n
    {
      n := n + 1;
      StrAtBytes(mem, off, n);
    }
  }

  /** strcmp of the string in memory with a name: 0 exactly when they are equal. */
  method StrCmp(mem: Bytes, off: nat, name: Bytes) returns (r: int)
    requires Terminated(mem) && off < |mem|
    ensures r == 0 <==> StrAt(mem, off) == name
  {
    var len := Strlen(mem, off);
    if len != |name| {
      return 1;
    }
    ghost var s := StrAt(mem, off);
    var i := 0;
    StrAtBytes(mem, off, 0);
    while mem[off + i] != 0
      invariant i <= |s| && off + i < |mem| && (i < |s| <==> mem[off + i] != 0) && s[..i] == name[..i]
      invariant i < |s| ==> mem[off + i] == s[i]
      decreases |mem| - i
    {
      if mem[off + i] != name[i] {
        return 1;
      }
      i := i + 1;
      StrAtBytes(mem, off, i);
    }
    r := 0;
  }

  /** my_atool. */
  method MyAtool(mem: Bytes, off: nat) returns (res: nat)
    requires Terminated(mem) && off < |mem|
    ensures res == Atool(StrAt(mem, off))
  {
    ghost var s := StrAt(mem, off);
    res := 0;
    var i := 0;
    StrAtBytes(mem, off, 0);
    while mem[off + i] != 0
      invariant i <= |s| && off + i < |mem| && (i < |s| <==> mem[off + i] != 0) && res == Atool(s[..i])
      invariant i < |s| ==> mem[off + i] == s[i]
      decreases |mem| - i
    {
      assert s[..i + 1][..i] == s[..i];
      res := (res * 8 + (mem[off + i] as int - 48)) % 0x1_0000_0000;
      i := i + 1;
      StrAtBytes(mem, off, i);
    }
    assert s[..i] == s;
  }

  /** tarfs_read: the address behind the first matching header, or null. */
  method TarfsRead(mem: Bytes, end: nat, name: Bytes) returns (found: bool, address: nat)
    requires Terminated(mem) && end + 512 <= |mem| && Read(mem, end, name, 0) != Lost
    ensures Read(mem, end, name, 0) == if found then Found(address) else Missing
  {
    var header := 0;
    while header <= end
      invariant Read(mem, end, name, header) == Read(mem, end, name, 0)
      decreases if header <= end then end - header + 1 else 0
    {
      var c := StrCmp(mem, header, name);
      if c == 0 {
        return true, header + 512;
      }
      var size := MyAtool(mem, header + 124);
      if size == 0 {
        header := header + 512;
      } else {
        header := header + 512 + Round(size);
      }
    }
    return false, 0;
  }
}

// LWL, LWR, SWL and SWR: each moves part of a word, and a pair of them moves
// exactly the four bytes at any address, in either byte order.
module Unaligned {
  import opened Wrappers
  import opened Machine
  import opened Coherence

  // -------------------------------------------------------- bytes of a word

  // Byte `i` of a word, counted from the least significant end.
  function LowByte(w: u32, i: nat): u8
    requires i < 4
  {
    w / Pow256(i) % 0x100
  }

  // Byte `j` of a word in address order.
  function WordByte(big: bool, w: u32, j: nat): u8
    requires j < 4
  {
    LowByte(w, if big then 3 - j else j)
  }

  function Word4(b3: u8, b2: u8, b1: u8, b0: u8): u32 { b3 * 0x100_0000 + b2 * 0x1_0000 + b1 * 0x100 + b0 }

  lemma SplitWord(b3: u8, b2: u8, b1: u8, b0: u8)
    ensures var w := Word4(b3, b2, b1, b0);
            && w % 0x100 == b0 && w / 0x100 == b3 * 0x1_0000 + b2 * 0x100 + b1
            && w % 0x1_0000 == b1 * 0x100 + b0 && w / 0x1_0000 == b3 * 0x100 + b2
            && w % 0x100_0000 == b2 * 0x1_0000 + b1 * 0x100 + b0 && w / 0x100_0000 == b3
  {}

  lemma BytesOfWord4(b3: u8, b2: u8, b1: u8, b0: u8)
    ensures var w := Word4(b3, b2, b1, b0);
            LowByte(w, 3) == b3 && LowByte(w, 2) == b2 && LowByte(w, 1) == b1 && LowByte(w, 0) == b0
  {
    hide Word4;
    SplitWord(b3, b2, b1, b0);
  }

  lemma Word4OfBytes(w: u32)
    ensures w == Word4(LowByte(w, 3), LowByte(w, 2), LowByte(w, 1), LowByte(w, 0))
  {
    var h := w / 0x1_0000;
    assert w == h * 0x1_0000 + w % 0x1_0000;
    assert w / 0x100_0000 == h / 0x100 && w / 0x100_0000 < 0x100;
    assert w / 0x100 % 0x100 == w % 0x1_0000 / 0x100;
  }

  lemma WordFromBytes(w: u32, x: u32)
    requires forall i: nat | i < 4 :: LowByte(w, i) == LowByte(x, i)
    ensures w == x
  {
    hide LowByte;
    assert LowByte(w, 0) == LowByte(x, 0) && LowByte(w, 1) == LowByte(x, 1);
    assert LowByte(w, 2) == LowByte(x, 2) && LowByte(w, 3) == LowByte(x, 3);
    Word4OfBytes(w);
    Word4OfBytes(x);
  }

  lemma MergeWord4(d3: u8, d2: u8, d1: u8, d0: u8, s3: u8, s2: u8, s1: u8, s0: u8)
    ensures var d, s := Word4(d3, d2, d1, d0), Word4(s3, s2, s1, s0);
            && MergeHigh(d, s, 1) == Word4(s0, d2, d1, d0) && MergeHigh(d, s, 2) == Word4(s1, s0, d1, d0)
            && MergeHigh(d, s, 3) == Word4(s2, s1, s0, d0) && MergeHigh(d, s, 4) == s
            && MergeLow(d, s, 1) == Word4(d3, d2, d1, s3) && MergeLow(d, s, 2) == Word4(d3, d2, s3, s2)
            && MergeLow(d, s, 3) == Word4(d3, s3, s2, s1) && MergeLow(d, s, 4) == s
  {
    SplitWord(d3, d2, d1, d0);
    SplitWord(s3, s2, s1, s0);
  }

  // The two merges, byte by byte.
  lemma MergeBytes(into: u32, from: u32, n: nat, i: nat)
    requires 1 <= n <= 4 && i < 4
    ensures LowByte(MergeHigh(into, from, n), i) == if i >= 4 - n then LowByte(from, i + n - 4) else LowByte(into, i)
    ensures LowByte(MergeLow(into, from, n), i) == if i < n then LowByte(from, i + 4 - n) else LowByte(into, i)
  {
    hide LowByte, Word4, MergeHigh, MergeLow;
    Word4OfBytes(into);
    Word4OfBytes(from);
    var d3, d2, d1, d0 := LowByte(into, 3), LowByte(into, 2), LowByte(into, 1), LowByte(into, 0);
    var s3, s2, s1, s0 := LowByte(from, 3), LowByte(from, 2), LowByte(from, 1), LowByte(from, 0);
    MergeWord4(d3, d2, d1, d0, s3, s2, s1, s0);
    if n == 1 {
      BytesOfWord4(s0, d2, d1, d0);
      BytesOfWord4(d3, d2, d1, s3);
    } else if n == 2 {
      BytesOfWord4(s1, s0, d1, d0);
      BytesOfWord4(d3, d2, s3, s2);
    } else if n == 3 {
      BytesOfWord4(s2, s1, s0, d0);
      BytesOfWord4(d3, s3, s2, s1);
    }
  }

  // ------------------------------------------------------------ memory words

  lemma ReadBytes(big: bool, m: Memory, p: HostPtr, j: nat)
    requires j < 4
    ensures WordByte(big, ReadMem(big, m, p, 4), j) == ByteAt(m, p, j)
  {
    hide LowByte, ByteAt;
    var b0, b1, b2, b3 := ByteAt(m, p, 0), ByteAt(m, p, 1), ByteAt(m, p, 2), ByteAt(m, p, 3);
    if big { BytesOfWord4(b0, b1, b2, b3); } else { BytesOfWord4(b3, b2, b1, b0); }
  }

  lemma WriteBytes(big: bool, m: Memory, p: HostPtr, w: u32, q: HostPtr)
    ensures ByteAt(WriteMem(big, m, p, 4, w), q, 0) ==
            if q.dev == p.dev && p.off <= q.off < p.off + 4 then WordByte(big, w, q.off - p.off) else ByteAt(m, q, 0)
  {
    assert w / 0x100_0000 % 0x100 == w / 0x100_0000;
  }

  // ------------------------------------------- one partial access, by bytes

  // SWL on a big-endian guest and SWR on a little-endian one start at their
  // address and run up to the end of the aligned word; the other two run from
  // its start up to their address.
  predicate Upward(big: bool, left: bool) { big == left }

  // Which bytes of the aligned word an access at offset `k` touches.
  predicate Touches(big: bool, left: bool, k: nat, j: nat) { if Upward(big, left) then k <= j else j <= k }

  // The register byte, in address order, that goes with byte `j` of the word.
  function Partner(big: bool, left: bool, k: nat, j: nat): int {
    if Upward(big, left) then j - k else j - k + 3
  }

  lemma StorePartBytes(big: bool, op: MemOp, v: u32, reg: u32, word: u32, j: nat)
    requires op == SWL || op == SWR
    requires j < 4
    ensures WordByte(big, StorePart(op, big, v, reg, word), j) ==
            if Touches(big, op == SWL, v % 4, j) then WordByte(big, reg, Partner(big, op == SWL, v % 4, j))
            else WordByte(big, word, j)
  {
    hide LowByte, MergeHigh, MergeLow;
    MergeBytes(word, reg, if op == SWL then LeftCount(big, v) else RightCount(big, v), if big then 3 - j else j);
  }

  // Loading moves the same bytes the other way.
  lemma LoadPartBytes(big: bool, op: MemOp, v: u32, reg: u32, word: u32, i: nat)
    requires op == LWL || op == LWR
    requires i < 4
    ensures var j := if Upward(big, op == LWL) then i + v % 4 else i + v % 4 - 3;
            WordByte(big, LoadPart(op, big, v, reg, word), i) ==
            if 0 <= j < 4 then WordByte(big, word, j) else WordByte(big, reg, i)
  {
    hide LowByte, MergeHigh, MergeLow;
    MergeBytes(reg, word, if op == LWL then LeftCount(big, v) else RightCount(big, v), if big then 3 - i else i);
  }

  // ------------------------------------------------------- through the MMU

  predicate UniqueIds(bus: seq<Device>) {
    forall d, e | d in bus && e in bus :: d.id == e.id ==> d == e
  }

  // The four bytes at `v` are in memory, at the given host addresses.
  predicate InMemory(env: Env, a: Arch, v: u32, write: bool, ps: seq<HostPtr>) {
    && v <= 0xffff_fffc && |ps| == 4
    && forall i | 0 <= i < 4 :: Locate(env, a.tlb, a.cp0.entryHi.asid, v + i, write) == InRam(ps[i])
  }

  lemma SamePage(env: Env, tlb: seq<TlbEntry>, asid: nat, v: u32, w: u32, write: bool, p: HostPtr)
    requires Locate(env, tlb, asid, v, write) == InRam(p) && v / 4 == w / 4
    ensures Locate(env, tlb, asid, w, write) == InRam(HostPtr(p.dev, p.off + w - v))
  {
    SameWordSamePage(v, w);
    SameTranslation(tlb, asid, v, w, write);
    hide Translate, DevLookup;
  }

  lemma SameWordSamePage(v: u32, w: u32)
    requires v / 4 == w / 4
    ensures v / 0x1000 == w / 0x1000 && v % 0x1000 - w % 0x1000 == v - w
  {
    assert v / 4 / 0x400 == v / 0x1000 && w / 4 / 0x400 == w / 0x1000;
  }

  lemma SameTranslation(tlb: seq<TlbEntry>, asid: nat, v: u32, w: u32, write: bool)
    requires v / 0x1000 == w / 0x1000
    ensures Translate(tlb, asid, v, write) == Translate(tlb, asid, w, write)
  {
    hide Lookup;
    assert Mapped(v) == Mapped(w) && Page(v) == Page(w);
  }

  lemma SameWord(env: Env, a: Arch, v: u32, write: bool, ps: seq<HostPtr>, i: nat, j: nat)
    requires InMemory(env, a, v, write, ps) && i < 4 && j < 4 && (v + i) / 4 == (v + j) / 4
    ensures ps[j] == HostPtr(ps[i].dev, ps[i].off + j - i)
  {
    hide Locate;
    SamePage(env, a.tlb, a.cp0.entryHi.asid, v + i, v + j, write, ps[i]);
  }

  lemma PlaceInPage(env: Env, tlb: seq<TlbEntry>, asid: nat, v: u32, write: bool, p: HostPtr)
    requires Locate(env, tlb, asid, v, write) == InRam(p)
    ensures exists d :: d in env.bus && d.id == p.dev && (p.off + d.base) % 0x1000 == v % 0x1000
  {
    hide Lookup, DevLookup;
    LookupAligned(tlb, v / 0x1000, asid);
    match Translate(tlb, asid, v, write)
    case Frame(f) =>
      assert f % 0x1000 == 0;
      var d := DevLookup(env.bus, f).value;
      assert d in env.bus && d.id == p.dev && p.off + d.base == f + v % 0x1000;
  }

  // Nearby bytes never share a host address, whatever pages they are on.
  lemma DistinctBytes(env: Env, a: Arch, v: u32, write: bool, ps: seq<HostPtr>, i: nat, j: nat)
    requires UniqueIds(env.bus) && InMemory(env, a, v, write, ps) && i < j < 4
    ensures ps[i] != ps[j]
  {
    hide Locate;
    PlaceInPage(env, a.tlb, a.cp0.entryHi.asid, v + i, write, ps[i]);
    PlaceInPage(env, a.tlb, a.cp0.entryHi.asid, v + j, write, ps[j]);
    assert (v + i) % 0x1000 != (v + j) % 0x1000;
  }

  function WordStart(p: HostPtr, v: u32): HostPtr { HostPtr(p.dev, p.off - v % 4) }

  lemma LoadPartReads(env: Env, a: Arch, op: MemOp, v: u32, rt: Reg, p: HostPtr)
    requires ArchOk(a) && (op == LWL || op == LWR)
    requires Locate(env, a.tlb, a.cp0.entryHi.asid, v, false) == InRam(p)
    ensures DoMem(env, a, op, v, rt) ==
            (SetGpr(a, rt, LoadPart(op, env.bigEndian, v, a.gpr[rt], ReadMem(env.bigEndian, a.mem, WordStart(p, v), 4))), false)
  {
    hide Locate, ReadMem, LoadPart;
    SamePage(env, a.tlb, a.cp0.entryHi.asid, v, v - v % 4, false, p);
  }

  lemma StorePartWrites(env: Env, a: Arch, op: MemOp, v: u32, rt: Reg, p: HostPtr)
    requires ArchOk(a) && (op == SWL || op == SWR)
    requires Locate(env, a.tlb, a.cp0.entryHi.asid, v, true) == InRam(p)
    ensures var big, start := env.bigEndian, WordStart(p, v);
            var word := StorePart(op, big, v, a.gpr[rt], ReadMem(big, a.mem, start, 4));
            DoMem(env, a, op, v, rt) == (BreakLink(a).(mem := WriteMem(big, a.mem, start, 4, word)), false)
  {
    hide Locate, ReadMem, WriteMem, StorePart;
    SamePage(env, a.tlb, a.cp0.entryHi.asid, v, v - v % 4, true, p);
  }

  // The address each half of a pair uses for the four bytes at `v`.
  function LeftAt(big: bool, v: u32): u32
    requires v <= 0xffff_fffc
  {
    if big then v else v + 3
  }

  function RightAt(big: bool, v: u32): u32
    requires v <= 0xffff_fffc
  {
    if big then v + 3 else v
  }

  // LWL then LWR loads exactly the four bytes at any address, with no other effect.
  lemma LoadPair(env: Env, a: Arch, v: u32, rt: Reg, ps: seq<HostPtr>)
    requires ArchOk(a) && InMemory(env, a, v, false, ps)
    ensures var (b, r) := DoMem(env, a, LWL, LeftAt(env.bigEndian, v), rt);
            var (c, s) := DoMem(env, b, LWR, RightAt(env.bigEndian, v), rt);
            && !r && !s && c == SetGpr(a, rt, c.gpr[rt])
            && forall i: nat | i < 4 :: WordByte(env.bigEndian, c.gpr[rt], i) == ByteAt(a.mem, ps[i], 0)
  {
    hide Locate, DoMem, ReadMem, LoadPart, LowByte;
    var big := env.bigEndian;
    var l, r := LeftAt(big, v), RightAt(big, v);
    var pl, pr := ps[if big then 0 else 3], ps[if big then 3 else 0];
    LoadPartReads(env, a, LWL, l, rt, pl);
    var b := DoMem(env, a, LWL, l, rt).0;
    LoadPartReads(env, b, LWR, r, rt, pr);
    var c := DoMem(env, b, LWR, r, rt).0;
    assert c.gpr == a.gpr[rt := c.gpr[rt]];
    var wl, wr := ReadMem(big, a.mem, WordStart(pl, l), 4), ReadMem(big, a.mem, WordStart(pr, r), 4);
    forall i: nat | i < 4
      ensures WordByte(big, c.gpr[rt], i) == ByteAt(a.mem, ps[i], 0)
    {
      LoadPartBytes(big, LWL, l, a.gpr[rt], wl, i);
      LoadPartBytes(big, LWR, r, b.gpr[rt], wr, i);
      var jl := if big then i + l % 4 else i + l % 4 - 3;
      var jr := if !big then i + r % 4 else i + r % 4 - 3;
      if 0 <= jr < 4 {
        ReadBytes(big, a.mem, WordStart(pr, r), jr);
        SameWord(env, a, v, false, ps, if big then 3 else 0, i);
      } else {
        ReadBytes(big, a.mem, WordStart(pl, l), jl);
        SameWord(env, a, v, false, ps, if big then 0 else 3, i);
      }
    }
  }

  // One partial store changes the touched bytes of its word and nothing else.
  lemma StorePartEffect(env: Env, a: Arch, op: MemOp, v: u32, rt: Reg, p: HostPtr, q: HostPtr)
    requires ArchOk(a) && (op == SWL || op == SWR)
    requires Locate(env, a.tlb, a.cp0.entryHi.asid, v, true) == InRam(p)
    ensures var big, j := env.bigEndian, q.off - WordStart(p, v).off;
            ByteAt(DoMem(env, a, op, v, rt).0.mem, q, 0) ==
            if q.dev == p.dev && 0 <= j < 4 && Touches(big, op == SWL, v % 4, j)
            then WordByte(big, a.gpr[rt], Partner(big, op == SWL, v % 4, j))
            else ByteAt(a.mem, q, 0)
  {
    hide Locate, DoMem, ReadMem, WriteMem, StorePart, ByteAt, LowByte;
    StorePartWrites(env, a, op, v, rt, p);
    var big, start := env.bigEndian, WordStart(p, v);
    var old_ := ReadMem(big, a.mem, start, 4);
    var word := StorePart(op, big, v, a.gpr[rt], old_);
    WriteBytes(big, a.mem, start, word, q);
    var j := q.off - start.off;
    if q.dev == p.dev && 0 <= j < 4 {
      StorePartBytes(big, op, v, a.gpr[rt], old_, j);
      ReadBytes(big, a.mem, start, j);
      SameByte(a.mem, start, j, q);
    }
  }

  lemma SameByte(m: Memory, p: HostPtr, j: int, q: HostPtr)
    requires q == HostPtr(p.dev, p.off + j)
    ensures ByteAt(m, p, j) == ByteAt(m, q, 0)
  {}

  // Index, among the four bytes at `v`, of the byte of one half of a pair.
  lemma TouchedBytes(env: Env, a: Arch, v: u32, ps: seq<HostPtr>, op: MemOp, q: HostPtr)
    requires InMemory(env, a, v, true, ps) && (op == SWL || op == SWR)
    ensures var big, left := env.bigEndian, op == SWL;
            var at := if left then LeftAt(big, v) else RightAt(big, v);
            var p := ps[at - v];
            var j := q.off - WordStart(p, at).off;
            && (q.dev == p.dev && 0 <= j < 4 && Touches(big, left, at % 4, j) ==>
                  0 <= Partner(big, left, at % 4, j) < 4 && q == ps[Partner(big, left, at % 4, j)])
            && (forall i: nat | i < 4 && (v + i) / 4 == at / 4 && q == ps[i] ::
                  q.dev == p.dev && 0 <= j < 4 && Touches(big, left, at % 4, j))
  {
    hide Locate;
    var big, left := env.bigEndian, op == SWL;
    var at := if left then LeftAt(big, v) else RightAt(big, v);
    forall i: nat | i < 4 && (v + i) / 4 == at / 4
      ensures ps[i] == HostPtr(ps[at - v].dev, ps[at - v].off + i - (at - v))
    {
      SameWord(env, a, v, true, ps, at - v, i);
    }
  }

  // SWL then SWR writes exactly the four bytes at any address and no others.
  lemma StorePair(env: Env, a: Arch, v: u32, rt: Reg, ps: seq<HostPtr>)
    requires ArchOk(a) && UniqueIds(env.bus) && InMemory(env, a, v, true, ps)
    ensures var (b, r) := DoMem(env, a, SWL, LeftAt(env.bigEndian, v), rt);
            var (c, s) := DoMem(env, b, SWR, RightAt(env.bigEndian, v), rt);
            && !r && !s && c == BreakLink(BreakLink(a)).(mem := c.mem)
            && (forall i: nat | i < 4 :: ByteAt(c.mem, ps[i], 0) == WordByte(env.bigEndian, a.gpr[rt], i))
            && forall q | q !in ps :: ByteAt(c.mem, q, 0) == ByteAt(a.mem, q, 0)
  {
    hide Locate, DoMem, ReadMem, WriteMem, StorePart, ByteAt, LowByte, Touches, Partner;
    var big := env.bigEndian;
    var l, r := LeftAt(big, v), RightAt(big, v);
    StorePartWrites(env, a, SWL, l, rt, ps[l - v]);
    var b := DoMem(env, a, SWL, l, rt).0;
    assert InMemory(env, b, v, true, ps);
    StorePartWrites(env, b, SWR, r, rt, ps[r - v]);
    var c := DoMem(env, b, SWR, r, rt).0;
    forall q
      ensures q !in ps ==> ByteAt(c.mem, q, 0) == ByteAt(a.mem, q, 0)
      ensures forall i: nat | i < 4 && q == ps[i] :: ByteAt(c.mem, q, 0) == WordByte(big, a.gpr[rt], i)
    {
      StorePartEffect(env, a, SWL, l, rt, ps[l - v], q);
      StorePartEffect(env, b, SWR, r, rt, ps[r - v], q);
      TouchedBytes(env, a, v, ps, SWL, q);
      TouchedBytes(env, a, v, ps, SWR, q);
      forall i: nat, j: nat | i < j < 4 ensures ps[i] != ps[j] { DistinctBytes(env, a, v, true, ps, i, j); }
    }
  }

  lemma WritableIsReadable(env: Env, tlb: seq<TlbEntry>, asid: nat, v: u32, p: HostPtr)
    requires Locate(env, tlb, asid, v, true) == InRam(p)
    ensures Locate(env, tlb, asid, v, false) == InRam(p)
  {
    hide Lookup, PlaceAt;
  }

  // Storing a register at any address and loading it back returns it.
  lemma StoreThenLoad(env: Env, a: Arch, v: u32, rt: Reg, rd: Reg, ps: seq<HostPtr>)
    requires ArchOk(a) && UniqueIds(env.bus) && InMemory(env, a, v, true, ps)
    ensures var big := env.bigEndian;
            var b := DoMem(env, DoMem(env, a, SWL, LeftAt(big, v), rt).0, SWR, RightAt(big, v), rt).0;
            var c := DoMem(env, DoMem(env, b, LWL, LeftAt(big, v), rd).0, LWR, RightAt(big, v), rd).0;
            c == SetGpr(b, rd, a.gpr[rt])
  {
    hide Locate, DoMem, ByteAt, LowByte;
    var big := env.bigEndian;
    StorePair(env, a, v, rt, ps);
    var b := DoMem(env, DoMem(env, a, SWL, LeftAt(big, v), rt).0, SWR, RightAt(big, v), rt).0;
    forall i | 0 <= i < 4
      ensures Locate(env, b.tlb, b.cp0.entryHi.asid, v + i, false) == InRam(ps[i])
    {
      WritableIsReadable(env, a.tlb, a.cp0.entryHi.asid, v + i, ps[i]);
    }
    LoadPair(env, b, v, rd, ps);
    var c := DoMem(env, DoMem(env, b, LWL, LeftAt(big, v), rd).0, LWR, RightAt(big, v), rd).0;
    forall i: nat | i < 4
      ensures LowByte(c.gpr[rd], i) == LowByte(a.gpr[rt], i)
    {
      var j: nat := if big then 3 - i else i;
      assert WordByte(big, c.gpr[rd], j) == WordByte(big, a.gpr[rt], j);
    }
    WordFromBytes(c.gpr[rd], a.gpr[rt]);
  }
}

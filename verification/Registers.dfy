// The system registers as words: what MTC0 writes is what the register then
// holds, bit by bit; what the TLB instructions move between registers and
// entries; and the interrupt lines.
module Registers {
  import opened Wrappers
  import opened Machine
  import opened Coherence
  import opened Translation
  import opened CpuModel
  import opened Handlers
  import opened Flow

  function Flag(b: bool, weight: nat): nat { if b then weight else 0 }

  function HiWord(hi: EntryHi): nat { hi.vpn2 * 0x2000 + Flag(hi.global, 0x1000) + hi.spare * 0x100 + hi.asid }

  function LoWord(lo: EntryLo): nat {
    lo.top * 0x400_0000 + lo.pfn * 0x40 + lo.cca * 8 + Flag(lo.dirty, 4) + Flag(lo.valid, 2) + Flag(lo.global, 1)
  }

  // IE, EXL and ERL are bits 0 to 2, the interrupt mask bits 8 to 15, BEV bit 22.
  function StatusWord(st: Status): nat {
    Flag(st.ie, 1) + Flag(st.exl, 2) + Flag(st.erl, 4) + st.rest.0 * 8 + st.im * 0x100 + st.rest.1 * 0x1_0000
    + Flag(st.bev, 0x40_0000) + st.rest.2 * 0x80_0000
  }

  // The code is bits 2 to 6, the pending lines bits 8 to 15, IV bit 23, CE bits
  // 28 and 29, BD bit 31.
  function CauseWord(ca: Cause): nat {
    ca.rest.0 + ca.code * 4 + ca.rest.1 * 0x80 + ca.ip * 0x100 + ca.rest.2 * 0x1_0000 + Flag(ca.iv, 0x80_0000)
    + ca.rest.3 % 0x10 * 0x100_0000 + ca.ce * 0x1000_0000 + ca.rest.3 / 0x10 * 0x4000_0000 + Flag(ca.bd, 0x8000_0000)
  }

  // Bits of a word, and the bits below.
  function Field(v: nat, m: nat, n: nat): (f: nat)
    requires m > 0 && n > 0
    ensures f < n
  {
    v / m % n
  }

  function Low(v: nat, m: nat): nat
    requires m > 0
  {
    v % m
  }

  lemma FieldStep(v: nat, m: nat, n: nat, p: nat)
    requires m > 0 && n > 0 && p == m * n
    ensures p > 0 && Low(v, p) == Field(v, m, n) * m + Low(v, m)
  {
    DivideTwice(v, m, n);
  }

  lemma Whole(v: u32, m: nat, n: nat)
    requires m > 0 && n > 0 && m * n == 0x1_0000_0000
    ensures v == Field(v, m, n) * m + Low(v, m) && v / m == Field(v, m, n)
  {
    FieldStep(v, m, n, 0x1_0000_0000);
    DivideTwice(v, m, n);
    assert v / m == n * (v / m / n) + v / m % n;
  }

  lemma LowestBit(v: nat)
    ensures Low(v, 2) == Field(v, 1, 2)
  {
    assert v / 1 == v;
  }

  lemma FlagIs(x: nat, weight: nat)
    requires x < 2
    ensures Flag(x == 1, weight) == x * weight
  {
    if x == 1 {
      assert x * weight == weight;
    } else {
      assert x * weight == 0;
    }
  }

  lemma HiFields(v: u32)
    ensures HiOf(v) == EntryHi(Field(v, 0x2000, 0x8_0000), Field(v, 0x1000, 2) == 1, Field(v, 0x100, 0x10), Low(v, 0x100))
  {
    Whole(v, 0x2000, 0x8_0000);
  }

  lemma HiIsWord(v: u32)
    ensures var hi := HiOf(v); HiWord(hi) == v && hi.vpn2 < 0x8_0000 && hi.spare < 0x10 && hi.asid < 0x100
  {
    HiFields(v);
    LowBound(v, 0x100);
    hide HiOf, Field, Low, Flag;
    Whole(v, 0x2000, 0x8_0000);
    FieldStep(v, 0x1000, 2, 0x2000);
    FieldStep(v, 0x100, 0x10, 0x1000);
    FlagIs(Field(v, 0x1000, 2), 0x1000);
  }

  lemma LowBound(v: nat, m: nat)
    requires m > 0
    ensures Low(v, m) < m
  {}

  lemma LoFields(v: u32)
    ensures LoOf(v) == EntryLo(Field(v, 0x400_0000, 0x40), Field(v, 0x40, 0x10_0000), Field(v, 8, 8),
                               Field(v, 4, 2) == 1, Field(v, 2, 2) == 1, Field(v, 1, 2) == 1)
  {
    Whole(v, 0x400_0000, 0x40);
    assert v / 1 == v;
  }

  lemma LoIsWord(v: u32)
    ensures var lo := LoOf(v); LoWord(lo) == v && lo.pfn < 0x10_0000 && lo.cca < 8 && lo.top < 0x40
  {
    LoFields(v);
    hide LoOf, Field, Low, Flag;
    LowestBit(v);
    FieldStep(v, 2, 2, 4);
    FieldStep(v, 4, 2, 8);
    FieldStep(v, 8, 8, 0x40);
    FieldStep(v, 0x40, 0x10_0000, 0x400_0000);
    Whole(v, 0x400_0000, 0x40);
    FlagIs(Field(v, 1, 2), 1);
    FlagIs(Field(v, 2, 2), 2);
    FlagIs(Field(v, 4, 2), 4);
  }

  lemma StatusFields(v: u32)
    ensures StatusOf(v) == Status(Field(v, 1, 2) == 1, Field(v, 2, 2) == 1, Field(v, 4, 2) == 1,
                                  Field(v, 0x40_0000, 2) == 1, Field(v, 0x100, 0x100),
                                  (Field(v, 8, 0x20), Field(v, 0x1_0000, 0x40), Field(v, 0x80_0000, 0x200)))
  {
    Whole(v, 0x80_0000, 0x200);
    assert v / 1 == v;
  }

  lemma StatusIsWord(v: u32)
    ensures var st := StatusOf(v); StatusWord(st) == v && st.rest.0 < 0x20 && st.rest.1 < 0x40 && st.rest.2 < 0x200
  {
    StatusFields(v);
    hide StatusOf, Field, Low, Flag;
    LowestBit(v);
    FieldStep(v, 2, 2, 4);
    FieldStep(v, 4, 2, 8);
    FieldStep(v, 8, 0x20, 0x100);
    FieldStep(v, 0x100, 0x100, 0x1_0000);
    FieldStep(v, 0x1_0000, 0x40, 0x40_0000);
    FieldStep(v, 0x40_0000, 2, 0x80_0000);
    Whole(v, 0x80_0000, 0x200);
    FlagIs(Field(v, 1, 2), 1);
    FlagIs(Field(v, 2, 2), 2);
    FlagIs(Field(v, 4, 2), 4);
    FlagIs(Field(v, 0x40_0000, 2), 0x40_0000);
  }

  lemma CauseFields(v: u32)
    ensures CauseOf(v) == Cause(Field(v, 0x8000_0000, 2) == 1, Field(v, 0x1000_0000, 4), Field(v, 0x80_0000, 2) == 1,
                                Field(v, 0x100, 0x100), Field(v, 4, 0x20),
                                (Low(v, 4), Field(v, 0x80, 2), Field(v, 0x1_0000, 0x80),
                                 Field(v, 0x100_0000, 0x10) + Field(v, 0x4000_0000, 2) * 0x10))
  {
    Whole(v, 0x8000_0000, 2);
  }

  lemma CauseIsWord(v: u32)
    ensures var ca := CauseOf(v);
            && CauseWord(ca) == v && ca.code < 0x20 && ca.ce < 4
            && ca.rest.0 < 4 && ca.rest.1 < 2 && ca.rest.2 < 0x80 && ca.rest.3 < 0x20
  {
    CauseFields(v);
    LowBound(v, 4);
    hide CauseOf, Field, Low, Flag;
    FieldStep(v, 4, 0x20, 0x80);
    FieldStep(v, 0x80, 2, 0x100);
    FieldStep(v, 0x100, 0x100, 0x1_0000);
    FieldStep(v, 0x1_0000, 0x80, 0x80_0000);
    FieldStep(v, 0x80_0000, 2, 0x100_0000);
    FieldStep(v, 0x100_0000, 0x10, 0x1000_0000);
    FieldStep(v, 0x1000_0000, 4, 0x4000_0000);
    FieldStep(v, 0x4000_0000, 2, 0x8000_0000);
    Whole(v, 0x8000_0000, 2);
    FlagIs(Field(v, 0x80_0000, 2), 0x80_0000);
    FlagIs(Field(v, 0x8000_0000, 2), 0x8000_0000);
    var low, high := Field(v, 0x100_0000, 0x10), Field(v, 0x4000_0000, 2);
    assert (low + high * 0x10) % 0x10 == low && (low + high * 0x10) / 0x10 == high;
  }

  // The word a register holds.
  function Word(cp: Cp0, reg: CpReg): nat {
    match reg
    case Index => cp.index
    case EntryLo0 => LoWord(cp.entryLo0)
    case EntryLo1 => LoWord(cp.entryLo1)
    case Context => cp.context
    case PageMask => cp.pageMask
    case BadVAddr => cp.badVAddr
    case EntryHiReg => HiWord(cp.entryHi)
    case StatusReg => StatusWord(cp.status)
    case CauseReg => CauseWord(cp.cause)
    case Epc => cp.epc
    case ErrEpc => cp.errEpc
    case Compare => if 11 in cp.other then cp.other[11] else 0
    case Config(sel) => if 32 + sel in cp.other then cp.other[32 + sel] else 0
    case OtherReg(n) => if n in cp.other then cp.other[n] else 0
    case ReadOnlyReg => 0
  }

  // A register file number of its own.
  predicate Proper(reg: CpReg) { reg.OtherReg? ==> reg.n < 32 && reg.n != 11 }

  lemma AssignedWord(cp: Cp0, reg: CpReg, v: u32)
    requires !reg.ReadOnlyReg? && !reg.Config?
    ensures Word(Assigned(cp, reg, v), reg) == v
  {
    HiIsWord(v);
    LoIsWord(v);
    StatusIsWord(v);
    CauseIsWord(v);
    hide HiOf, LoOf, StatusOf, CauseOf, HiWord, LoWord, StatusWord, CauseWord;
  }

  lemma AssignedElsewhere(cp: Cp0, reg: CpReg, v: u32, other: CpReg)
    requires Proper(reg) && Proper(other) && other != reg
    ensures Word(Assigned(cp, reg, v), other) == Word(cp, other)
  {
    hide HiOf, LoOf, StatusOf, CauseOf, HiWord, LoWord, StatusWord, CauseWord, ConfigOf;
  }

  // MTC0 leaves in its register the word it was given and every other register
  // as it was.
  lemma WriteReads(env: Env, a: Arch, src: Reg, reg: CpReg, random: nat)
    requires ArchOk(a) && Proper(reg) && !reg.ReadOnlyReg? && !reg.Config? && reg != Compare
    ensures var (b, res) := Execute(env, a, Mtc0(src, reg), random);
            && !res && b == a.(cp0 := b.cp0, log := a.log + [Wrote(reg)])
            && Word(b.cp0, reg) == a.gpr[src]
            && forall other | Proper(other) && other != reg :: Word(b.cp0, other) == Word(a.cp0, other)
  {
    AssignedWord(a.cp0, reg, a.gpr[src]);
    forall other | Proper(other) && other != reg
      ensures Word(Assigned(a.cp0, reg, a.gpr[src]), other) == Word(a.cp0, other)
    {
      AssignedElsewhere(a.cp0, reg, a.gpr[src], other);
    }
    hide Assigned, Word;
  }

  // Of Config only two registers can be written, of register 0 only two bits;
  // the others stop the emulator. PRId and its like ignore the write.
  lemma ConfigWrite(env: Env, a: Arch, src: Reg, sel: nat, random: nat)
    requires ArchOk(a)
    ensures var b := Execute(env, a, Mtc0(src, Config(sel)), random).0;
            && (b.stop == BadConfig <==> (sel != 0 && sel != 7) || a.stop == BadConfig)
            && (sel == 0 ==> Word(b.cp0, Config(0)) == Word(a.cp0, Config(0)) / 4 * 4 + a.gpr[src] % 4)
            && (sel == 7 ==> Word(b.cp0, Config(7)) == a.gpr[src])
            && forall other | Proper(other) && other != Config(sel) :: Word(b.cp0, other) == Word(a.cp0, other)
    ensures Execute(env, a, Mtc0(src, ReadOnlyReg), random).0.cp0 == a.cp0
  {
    forall other | Proper(other) && other != Config(sel)
      ensures Word(Assigned(a.cp0, Config(sel), a.gpr[src]), other) == Word(a.cp0, other)
    {
      AssignedElsewhere(a.cp0, Config(sel), a.gpr[src], other);
    }
    hide HiWord, LoWord, StatusWord, CauseWord;
  }

  // ------------------------------------------------------------------ the lines

  lemma DivisionIs(x: nat, w: nat, q: nat, r: nat)
    requires w > 0 && r < w && x == w * q + r
    ensures x / w == q && x % w == r
  {
    assert (x / w - q) * w == r - x % w;
    Multiples(x / w - q, w, r, x % w);
  }

  lemma {:induction false} BitSum(i: nat, j: nat)
    ensures Bit(i + j) == Bit(i) * Bit(j)
  {
    if i > 0 {
      BitSum(i - 1, j);
      assert Bit(i) * Bit(j) == 2 * (Bit(i - 1) * Bit(j));
    }
  }

  // Adding k times a weight adds k to the quotient by it.
  lemma AddWeights(b: nat, w: nat, k: nat)
    requires w > 0
    ensures (b + w * k) / w == b / w + k
  {
    assert b + w * k == w * (b / w + k) + b % w;
    DivisionIs(b + w * k, w, b / w + k, b % w);
  }

  // A bit below the one looked at does not carry into it.
  lemma NoCarry(b: nat, w: nat, k: nat, p: nat)
    requires w > 0 && k > 0 && k % 2 == 0 && b / w % 2 == 0 && p == w * k
    ensures p > 0 && (b + w) / p == b / p
  {
    DivideTwice(b, w, k);
    DivideTwice(b + w, w, k);
    AddWeights(b, w, 1);
    assert w * 1 == w;
    EvenHasRoom(b / w, k);
  }

  lemma EvenHasRoom(q: nat, k: nat)
    requires q % 2 == 0 && k > 0 && k % 2 == 0
    ensures (q + 1) / k == q / k
  {
    DivideTwice(q, 2, k / 2);
    assert 2 * (k / 2) == k;
    assert q % k < k - 1;
    assert q + 1 == k * (q / k) + (q % k + 1);
    DivisionIs(q + 1, k, q / k, q % k + 1);
  }

  // Putting a line up changes that bit and no other.
  lemma RaisedBit(b: nat, line: nat)
    ensures (b + Bit(line)) / Bit(line) == b / Bit(line) + 1
  {
    hide Bit;
    AddWeights(b, Bit(line), 1);
    assert Bit(line) * 1 == Bit(line);
  }

  lemma BitEven(i: nat)
    requires i > 0
    ensures Bit(i) % 2 == 0
  {}

  lemma EvenSteps(b: nat, w: nat, k: nat, p: nat)
    requires w > 0 && k % 2 == 0 && p == w * k
    ensures (b + p) / w % 2 == b / w % 2
  {
    AddWeights(b, w, k);
  }

  lemma BelowRaised(b: nat, line: nat, i: nat)
    requires i < line
    ensures (b + Bit(line)) / Bit(i) % 2 == b / Bit(i) % 2
  {
    hide Bit;
    BitSum(i, line - i);
    BitEven(line - i);
    EvenSteps(b, Bit(i), Bit(line - i), Bit(line));
  }

  lemma AboveRaised(b: nat, line: nat, i: nat)
    requires line < i && b / Bit(line) % 2 == 0
    ensures (b + Bit(line)) / Bit(i) == b / Bit(i)
  {
    hide Bit;
    BitSum(line, i - line);
    BitEven(i - line);
    NoCarry(b, Bit(line), Bit(i - line), Bit(i));
  }

  lemma RaisedBits(b: nat, line: nat, i: nat)
    requires b / Bit(line) % 2 == 0
    ensures (b + Bit(line)) / Bit(i) % 2 == if i == line then 1 else b / Bit(i) % 2
  {
    hide Bit;
    RaisedBit(b, line);
    if i < line { BelowRaised(b, line, i); }
    if i > line { AboveRaised(b, line, i); }
  }

  lemma RoomForBit(b: nat, line: nat)
    requires line < 8 && b < 0x100 && b / Bit(line) % 2 == 0
    ensures b + Bit(line) < 0x100
  {
    AboveRaised(b, line, 8);
    EightBits();
    assert b / 0x100 == 0;
  }

  lemma EightBits()
    ensures Bit(8) == 0x100
  {
    assert Bit(4) == 0x10;
  }

  lemma TakenDown(b: nat, line: nat)
    requires b / Bit(line) % 2 == 1
    ensures b >= Bit(line) && (b - Bit(line)) / Bit(line) % 2 == 0
  {
    hide Bit;
    var w := Bit(line);
    assert b == w * (b / w) + b % w;
    assert w * (b / w) == w * (b / w - 1) + w;
    RaisedBit(b - w, line);
  }

  lemma LineWeights(b: u8, line: nat, i: nat)
    requires line < 8 && i < 8
    ensures var raised := if IsUp(b, line) then b as int else b + Bit(line);
            0 <= raised < 0x100 && (IsUp(raised, i) <==> i == line || IsUp(b, i))
    ensures var lowered := if IsUp(b, line) then b - Bit(line) else b as int;
            0 <= lowered < 0x100 && (IsUp(lowered, i) <==> i != line && IsUp(b, i))
  {
    hide Bit;
    if IsUp(b, line) {
      TakenDown(b, line);
      RaisedBits(b - Bit(line), line, i);
    } else {
      RoomForBit(b, line);
      RaisedBits(b, line, i);
    }
  }

  // Raising a line puts it up, copies the lines to Cause, and sets the flag if an
  // interrupt is then wanted; lowering takes it down.
  lemma LinesMove(env: Env, a: Arch, line: nat)
    requires ArchOk(a) && line < 8
    ensures var b := React(env, a, RaiseLine(line));
            && (forall i | 0 <= i < 8 :: IsUp(b.irqCause, i) <==> i == line || IsUp(a.irqCause, i))
            && b.cp0.cause.ip == b.irqCause && (b.irqPending <==> Wanted(b))
    ensures var b := React(env, a, LowerLine(line));
            && (forall i | 0 <= i < 8 :: IsUp(b.irqCause, i) <==> i != line && IsUp(a.irqCause, i))
            && b.cp0 == a.cp0 && (b.irqPending <==> a.irqPending && b.irqCause != 0)
  {
    LineIsBit(a.irqCause, line);
    WeightIsBit(line);
    forall i | 0 <= i < 8
      ensures IsUp(SetIrq(a, line).irqCause, i) <==> i == line || IsUp(a.irqCause, i)
      ensures IsUp(ClearIrq(a, line).irqCause, i) <==> i != line && IsUp(a.irqCause, i)
    {
      LineWeights(a.irqCause, line, i);
    }
    MeetIsShare(SetIrq(a, line).irqCause, a.cp0.status.im);
    hide IsUp, Bit, HasLine, LineWeight, Meet, Share;
  }

  lemma WeightIsBit(line: nat)
    requires line < 8
    ensures LineWeight(line) == Bit(line)
  {
    assert Bit(1) == 2 && Bit(2) == 4 && Bit(3) == 8;
    assert Bit(4) == 0x10 && Bit(5) == 0x20 && Bit(6) == 0x40 && Bit(7) == 0x80;
  }

  // Writing Compare takes line 7, the timer's, down and looks at the lines again.
  lemma CompareWrite(env: Env, a: Arch, src: Reg, random: nat)
    requires ArchOk(a)
    ensures var (b, res) := Execute(env, a, Mtc0(src, Compare), random);
            && !res && Word(b.cp0, Compare) == a.gpr[src]
            && (forall i | 0 <= i < 8 :: IsUp(b.irqCause, i) <==> i != 7 && IsUp(a.irqCause, i))
            && b.cp0.cause == a.cp0.cause.(ip := b.irqCause) && (b.irqPending <==> Wanted(b))
            && b.cp0.status == a.cp0.status && b.pc == a.pc && b.gpr == a.gpr
  {
    LinesMove(env, a, 7);
    MeetIsShare(ClearIrq(a, 7).irqCause, a.cp0.status.im);
    hide IsUp, Bit, HasLine, LineWeight, Meet, Share;
  }

  // --------------------------------------------------------- TLB instructions

  // TLBP looks for the address in EntryHi.
  lemma ProbeFinds(env: Env, a: Arch, v: u32, random: nat)
    requires ArchOk(a) && LegalMasks(a.tlb) && |a.tlb| <= 0x8000_0000 && a.cp0.entryHi.vpn2 == v / 0x2000
    ensures var (b, res) := Execute(env, a, Tlbp, random);
            && !res && b == a.(cp0 := a.cp0.(index := b.cp0.index))
            && (forall k: nat | FirstEntry(a.tlb, k, v, a.cp0.entryHi.asid) :: b.cp0.index == k)
            && (NoEntry(a.tlb, v, a.cp0.entryHi.asid) ==> b.cp0.index == 0x8000_0000)
  {
    forall k: nat | FirstEntry(a.tlb, k, v, a.cp0.entryHi.asid)
      ensures Probe(a.tlb, v / 0x2000, a.cp0.entryHi.asid) == Some(k)
    {
      EntryProbed(a.tlb, k, v, a.cp0.entryHi.asid);
    }
    if NoEntry(a.tlb, v, a.cp0.entryHi.asid) { NoneProbed(a.tlb, v, a.cp0.entryHi.asid); }
    hide Probe, FirstEntry, NoEntry;
  }

  lemma EntryProbed(tlb: seq<TlbEntry>, k: nat, v: u32, asid: nat)
    requires LegalMasks(tlb) && FirstEntry(tlb, k, v, asid)
    ensures Probe(tlb, v / 0x2000, asid) == Some(k)
  {
    hide Contains;
    forall j | 0 <= j <= k ensures Matches(tlb[j], v / 0x2000, asid) <==> Contains(tlb[j], v, asid) {
      ContainsExact(tlb[j], v, asid);
    }
    FirstMatch(tlb, v / 0x2000, asid, k, 0);
  }

  lemma NoneProbed(tlb: seq<TlbEntry>, v: u32, asid: nat)
    requires LegalMasks(tlb) && NoEntry(tlb, v, asid)
    ensures Probe(tlb, v / 0x2000, asid) == None
  {
    hide Contains;
    forall j | 0 <= j < |tlb| ensures !Matches(tlb[j], v / 0x2000, asid) { ContainsExact(tlb[j], v, asid); }
  }

  // The entry that the registers describe; it is global if EntryHi says so or
  // both EntryLo do.
  predicate Describes(cp: Cp0, e: TlbEntry) {
    && e.mask == cp.pageMask && e.hi.vpn2 == cp.entryHi.vpn2 && e.hi.asid == cp.entryHi.asid
    && (e.hi.global <==> cp.entryHi.global || (cp.entryLo0.global && cp.entryLo1.global))
    && e.lo0 == cp.entryLo0.(global := false) && e.lo1 == cp.entryLo1.(global := false)
  }

  // TLBWI writes the entry at Index, or at the random index if the last probe
  // failed; TLBWR at the random index. Beyond the TLB nothing is written.
  lemma WritesEntry(env: Env, a: Arch, random: nat)
    requires ArchOk(a)
    ensures var (b, res) := Execute(env, a, Tlbwi, random);
            var i := if a.cp0.index < 0x8000_0000 then a.cp0.index else random;
            && !res && b == a.(tlb := b.tlb) && |b.tlb| == |a.tlb|
            && (forall j | 0 <= j < |a.tlb| && j != i :: b.tlb[j] == a.tlb[j])
            && (i < |a.tlb| ==> Describes(a.cp0, b.tlb[i]))
    ensures var (b, res) := Execute(env, a, Tlbwr, random);
            && !res && b == a.(tlb := b.tlb) && |b.tlb| == |a.tlb|
            && (forall j | 0 <= j < |a.tlb| && j != random :: b.tlb[j] == a.tlb[j])
            && (random < |a.tlb| ==> Describes(a.cp0, b.tlb[random]))
  {}

  // TLBR loads the registers from the entry at Index, the global flag into both
  // EntryLo.
  lemma ReadsEntry(env: Env, a: Arch, random: nat)
    requires ArchOk(a)
    ensures var (b, res) := Execute(env, a, Tlbr, random);
            var i := a.cp0.index;
            && !res && (i >= |a.tlb| ==> b == a)
            && (i < |a.tlb| ==>
                  var e := a.tlb[i];
                  && b == a.(cp0 := b.cp0) && b.cp0.index == i && b.cp0.status == a.cp0.status
                  && b.cp0.cause == a.cp0.cause && b.cp0.epc == a.cp0.epc && b.cp0.badVAddr == a.cp0.badVAddr
                  && b.cp0.context == a.cp0.context && b.cp0.errEpc == a.cp0.errEpc && b.cp0.other == a.cp0.other
                  && b.cp0.pageMask == e.mask && b.cp0.entryHi == e.hi.(global := false)
                  && b.cp0.entryLo0 == e.lo0.(global := e.lo0.global || e.hi.global)
                  && b.cp0.entryLo1 == e.lo1.(global := e.lo1.global || e.hi.global))
  {}

  // ---------------------------------------------------------------------- reset

  // After reset the machine starts at its entry point with nothing pending.
  lemma ResetIs(pc: u32, entries: nat, mem: Memory)
    ensures var a := ResetState(pc, entries, mem);
            && a.pc == pc && ArchOk(a) && (forall r | 0 <= r < 32 :: a.gpr[r] == 0) && |a.tlb| == entries
            && !a.irqPending && !a.llBit && a.stop == Running && a.mem == mem && a.io == [] && a.log == []
  {
    hide StatusOf, CauseOf, HiOf, LoOf;
  }

  // BEV is set, interrupts are off, and the board's identification is there.
  lemma ResetWords(pc: u32, entries: nat, mem: Memory)
    ensures var cp := ResetState(pc, entries, mem).cp0;
            && Word(cp, StatusReg) == 0x40_0000 && Word(cp, CauseReg) == 0
            && Word(cp, OtherReg(15)) == 0x0ad0_024f && Word(cp, Config(0)) == 0x8000_0082
            && Word(cp, Config(1)) == 0x3e61_3080 && Word(cp, Config(7)) == 0
  {
    hide StatusOf, CauseOf, StatusWord, CauseWord, HiOf, LoOf, HiWord, LoWord;
    StatusIsWord(0x40_0000);
    CauseIsWord(0);
  }

  // And no mapped address translates.
  lemma ResetMisses(env: Env, pc: u32, entries: nat, mem: Memory, v: u32, op: MemOp, write: bool)
    requires v % Width(op) == 0 && !Direct(v)
    ensures var a := ResetState(pc, entries, mem);
            var (b, acc) := AccessMem(env, a, v, op, write);
            acc == Fault && Reports(a, b, v, if write then 3 else 2)
  {
    var a := ResetState(pc, entries, mem);
    assert forall j | 0 <= j < entries :: a.tlb[j].mask == 0 && !a.tlb[j].lo0.valid && !a.tlb[j].lo1.valid;
    hide AccessMem, Reports, Contains, Width, Direct, ResetState;
    if k: nat :| FirstEntry(a.tlb, k, v, a.cp0.entryHi.asid) {
      FirstEntryDecides(env, a, v, op, write, k);
    } else {
      FirstOrNone(a.tlb, v, a.cp0.entryHi.asid, |a.tlb|);
      MissFaults(env, a, v, op, write);
    }
  }

  lemma {:induction false} FirstOrNone(tlb: seq<TlbEntry>, v: u32, asid: nat, n: nat)
    requires n <= |tlb| && forall k: nat :: !FirstEntry(tlb, k, v, asid)
    ensures forall j | 0 <= j < n :: !Contains(tlb[j], v, asid)
    decreases n
  {
    hide Contains;
    if n > 0 {
      FirstOrNone(tlb, v, asid, n - 1);
      assert !FirstEntry(tlb, n - 1, v, asid);
    }
  }
}

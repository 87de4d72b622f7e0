// What exceptions tell their handlers and where returns lead, instruction by
// instruction; a TLB refill that lets the access through; an atomic update.
module Handlers {
  import opened Wrappers
  import opened Machine
  import opened Coherence
  import opened Translation
  import opened Runs
  import opened Aligned
  import opened Flow

  // An exception without an address hit the instruction at pc of `a`.
  predicate Excepts(a: Arch, b: Arch, code: nat, slot: bool) {
    && b.pc == (if a.cp0.status.bev then 0xbfc0_0380 else 0x8000_0180)
    && b.cp0.cause.code == code && b.cp0.status == a.cp0.status.(exl := true, erl := false)
    && (!a.cp0.status.exl ==> b.cp0.epc == a.pc && b.cp0.cause.bd == slot)
    && (a.cp0.status.exl ==> b.cp0.epc == a.cp0.epc && b.cp0.cause.bd == a.cp0.cause.bd)
    && b.gpr == a.gpr && b.hi == a.hi && b.lo == a.lo && b.tlb == a.tlb && b.mem == a.mem && b.io == a.io
    && b.cp0.entryHi == a.cp0.entryHi && b.cp0.badVAddr == a.cp0.badVAddr && b.cp0.context == a.cp0.context
    && b.irqCause == a.irqCause && b.stop == a.stop && b.llBit == a.llBit && b.log == a.log && !b.irqPending
    && b.cp0.cause.ip == a.cp0.cause.ip && b.cp0.cause.iv == a.cp0.cause.iv
  }

  lemma RaiseExcepts(a: Arch, code: nat, slot: bool)
    requires code != INTERRUPT
    ensures Excepts(a, Raise(a, code, slot), code, slot)
  {}

  // Where control goes after each instruction that is neither a branch nor a
  // memory instruction, and with which cause.
  lemma WhereControlGoes(env: Env, a: Arch, insn: Insn, random: nat)
    requires ArchOk(a) && Turns(env, a, insn) && !insn.Br? && !insn.Mem?
    ensures var z, r := AtTurn(a), Step(env, a, random);
            match insn
            case Compute(_) => r.pc == On(a.pc, 4)
            case Mtc0(_, _) => r.pc == On(a.pc, 4)
            case Tlbp | Tlbr | Tlbwi | Tlbwr => r.pc == On(a.pc, 4)
            case Eret =>
              && r.pc == (if a.cp0.status.erl then a.cp0.errEpc else a.cp0.epc) && !r.llBit && r.gpr == z.gpr
              && r.cp0 == a.cp0.(status := if a.cp0.status.erl then a.cp0.status.(erl := false)
                                           else a.cp0.status.(exl := false))
            case Syscall => Excepts(z, r, 8, z.inSlot)
            case Break => Excepts(z, r, 9, false)
            case Fpu => Excepts(z, r, 11, z.inSlot) && r.cp0.cause.ce % 2 == 1 && r.cp0.cause.ce / 2 == a.cp0.cause.ce / 2
            case Trap(eq, rs, other) =>
              var same := z.gpr[rs] == match other case InReg(rt) => z.gpr[rt] case Immediate(value) => value;
              if eq == same then Excepts(z, r, 13, false) else r == z.(pc := On(a.pc, 4))
            case Unknown => r == z.(stop := UnknownOp)
  {
    hide Step, Turns, Excepts, Raise, Probe, NewEntry, Assigned, Meet, HasLine, PageOf;
    var z := AtTurn(a);
    TurnRuns(env, a, insn, random);
    RaiseExcepts(z, 8, z.inSlot);
    RaiseExcepts(z, 9, false);
    RaiseExcepts(z, 13, false);
    if insn.Fpu? { FpuExcepts(env, z); }
  }

  lemma FpuExcepts(env: Env, a: Arch)
    requires ArchOk(a)
    ensures var (b, res) := Execute(env, a, Fpu, 0);
            res && Excepts(a, b, 11, a.inSlot) && b.cp0.cause.ce % 2 == 1 && b.cp0.cause.ce / 2 == a.cp0.cause.ce / 2
  {}

  // ------------------------------------------------------------- memory faults

  predicate IsStore(op: MemOp) { op in {SB, SH, SW, SWL, SWR} }

  predicate Accesses(op: MemOp) { op !in {SC, CACHE} }

  // The address looked up: the partial accesses look up their whole word.
  function LookedUp(op: MemOp, v: u32): u32 { if op in {LWL, LWR, SWL, SWR} then v / 4 * 4 else v }

  // The machine when the access is tried.
  function Tried(a: Arch, op: MemOp): Arch { if IsStore(op) then a.(llBit := false) else a }

  // A load or store that faults leaves the report of the address looked up, and
  // nothing else but the note; a store breaks the link besides.
  lemma FaultTurn(env: Env, a: Arch, op: MemOp, base: Reg, rt: Reg, offset: int, random: nat)
    requires ArchOk(a) && Turns(env, a, Mem(op, base, rt, offset)) && Accesses(op)
    requires var w := LookedUp(op, On(AtTurn(a).gpr[base], offset));
             AccessMem(env, Tried(AtTurn(a), op), w, op, IsStore(op)).1 == Fault
    ensures var w := LookedUp(op, On(AtTurn(a).gpr[base], offset));
            var (b, _) := AccessMem(env, Tried(AtTurn(a), op), w, op, IsStore(op));
            Step(env, a, random) == b.(log := b.log + [Ran(op, false)])
  {
    hide Step, Turns, AccessMem, PageOf, DoMem, AtTurn;
    var z := AtTurn(a);
    var v := On(z.gpr[base], offset);
    TurnRuns(env, a, Mem(op, base, rt, offset), random);
    MemIgnoresRandom(env, z, op, base, rt, offset, random);
    MemRuns(env, z, op, base, rt, offset);
    hide Execute;
    if IsStore(op) { StoreFaults(env, z, op, v, rt); } else { LoadFaults(env, z, op, v, rt); }
  }

  lemma LoadFaults(env: Env, a: Arch, op: MemOp, v: u32, rt: Reg)
    requires ArchOk(a) && Accesses(op) && !IsStore(op) && AccessMem(env, a, LookedUp(op, v), op, false).1 == Fault
    ensures DoMem(env, a, op, v, rt) == (AccessMem(env, a, LookedUp(op, v), op, false).0, true)
  {
    WordOf(v);
    AccessFollows(env, a, LookedUp(op, v), op, false);
    hide AccessMem, Follows, SameLink, Extend, ReadMem, LoadPart;
  }

  lemma StoreFaults(env: Env, a: Arch, op: MemOp, v: u32, rt: Reg)
    requires ArchOk(a) && IsStore(op) && AccessMem(env, a.(llBit := false), LookedUp(op, v), op, true).1 == Fault
    ensures DoMem(env, a, op, v, rt) == (AccessMem(env, a.(llBit := false), LookedUp(op, v), op, true).0, true)
  {
    WordOf(v);
    AccessFollows(env, a.(llBit := false), LookedUp(op, v), op, true);
    hide AccessMem, Follows, SameLink, WriteMem, ReadMem, StorePart;
  }

  // --------------------------------------------------------------- interrupts

  function Bit(i: nat): (b: nat)
    ensures b > 0
  {
    if i == 0 then 1 else 2 * Bit(i - 1)
  }

  predicate IsUp(b: u8, i: nat) { b / Bit(i) % 2 == 1 }

  predicate Share(b: u8, c: u8) { exists i :: 0 <= i < 8 && IsUp(b, i) && IsUp(c, i) }

  // Enabled, at no level, with a line that is up and unmasked.
  predicate Wanted(a: Arch) {
    && a.cp0.status.ie && !a.cp0.status.exl && !a.cp0.status.erl
    && Share(a.irqCause, a.cp0.status.im)
  }

  lemma LineIsBit(b: u8, i: nat)
    requires i < 8
    ensures HasLine(b, i) <==> IsUp(b, i)
  {
    assert Bit(1) == 2 && Bit(2) == 4 && Bit(3) == 8;
    assert Bit(4) == 0x10 && Bit(5) == 0x20 && Bit(6) == 0x40 && Bit(7) == 0x80;
  }

  lemma MeetIsShare(b: u8, c: u8)
    ensures Meet(b, c) <==> Share(b, c)
  {
    hide IsUp, HasLine;
    forall i | 0 <= i < 8 ensures HasLine(b, i) == IsUp(b, i) && HasLine(c, i) == IsUp(c, i) {
      LineIsBit(b, i);
      LineIsBit(c, i);
    }
  }

  // A wanted interrupt takes its own vector if Cause.IV says so; it names the
  // next instruction and clears the lines. An unwanted one is forgotten.
  lemma InterruptTurn(env: Env, a: Arch, random: nat)
    requires ArchOk(a) && a.stop == Running && a.irqPending
    ensures var r := Step(env, a, random);
            && r.cp0.cause.ip == a.irqCause && !r.irqPending && r.gpr == a.gpr[0 := 0]
            && r.mem == a.mem && r.tlb == a.tlb && r.io == a.io && r.llBit == a.llBit
            && (Wanted(a) ==>
                  && r.pc == (if a.cp0.status.bev then (if a.cp0.cause.iv then 0xbfc0_0400 else 0xbfc0_0380)
                              else (if a.cp0.cause.iv then 0x8000_0200 else 0x8000_0180))
                  && r.cp0.cause.code == 0 && !r.cp0.cause.bd && r.cp0.epc == a.pc
                  && r.cp0.status == a.cp0.status.(exl := true) && r.irqCause == 0)
            && (!Wanted(a) ==>
                  && r.pc == a.pc && r.irqCause == a.irqCause
                  && r.cp0 == a.cp0.(cause := a.cp0.cause.(ip := a.irqCause)))
  {
    MeetIsShare(a.irqCause, a.cp0.status.im);
    hide Meet, Share;
  }

  // ----------------------------------------------------------------- TLB refill

  // A handler that leaves EntryHi alone and ends in TLBWR and ERET gives the
  // missed address an entry, under the same identifier. If no other entry holds
  // the address, that one decides: the repeated access goes where the EntryLo
  // that the handler wrote says.
  lemma Refill(env: Env, a: Arch, op: MemOp, base: Reg, rt: Reg, offset: int, r0: nat, events: seq<Event>, random: nat)
    requires ArchOk(a) && Turns(env, a, Mem(op, base, rt, offset)) && Accesses(op)
    requires var v := LookedUp(op, On(AtTurn(a).gpr[base], offset));
             v % Width(op) == 0 && !Direct(v) && NoEntry(a.tlb, v, a.cp0.entryHi.asid)
    requires var r := Step(env, a, r0);
             var h := Run(env, r, events);
             h.cp0.entryHi == r.cp0.entryHi && LegalMask(h.cp0.pageMask) && random < |h.tlb|
    ensures var v, asid := LookedUp(op, On(AtTurn(a).gpr[base], offset)), a.cp0.entryHi.asid;
            var r := Step(env, a, r0);
            var h := Run(env, r, events);
            var c := Execute(env, Execute(env, h, Tlbwr, random).0, Eret, 0).0;
            var size := h.cp0.pageMask / 2 + 0x1000;
            var lo := if v / size % 2 == 0 then h.cp0.entryLo0 else h.cp0.entryLo1;
            && r.cp0.cause.code == (if IsStore(op) then 3 else 2) && r.cp0.badVAddr == v
            && c.cp0.entryHi.asid == asid && |c.tlb| == |h.tlb| && Contains(c.tlb[random], v, asid)
            && (LegalMasks(h.tlb) && (forall j | 0 <= j < |h.tlb| && j != random :: !Contains(h.tlb[j], v, asid)) ==>
                  && FirstEntry(c.tlb, random, v, asid)
                  && (lo.valid && (IsStore(op) ==> lo.dirty) ==>
                        var (d, acc) := AccessMem(env, Tried(c, op), v, op, IsStore(op));
                        Reaches(env, Tried(c, op), d, acc, (lo.pfn * 0x1000 + v % size) % 0x1_0000_0000)))
  {
    hide Step, Run, Turns, AccessMem, Reports, LegalMasks, PageOf, Reaches, NoEntry;
    var v := LookedUp(op, On(AtTurn(a).gpr[base], offset));
    var t := Tried(AtTurn(a), op);
    TurnsLegal(env, a, Mem(op, base, rt, offset));
    MissFaults(env, t, v, op, IsStore(op));
    FaultTurn(env, a, op, base, rt, offset, r0);
    ReportedAddress(t, AccessMem(env, t, v, op, IsStore(op)).0, v, if IsStore(op) then 3 else 2);
    var r := Step(env, a, r0);
    var h := Run(env, r, events);
    RefillEntry(env, h, v, random);
    var c := Execute(env, Execute(env, h, Tlbwr, random).0, Eret, 0).0;
    if LegalMasks(h.tlb) && (forall j | 0 <= j < |h.tlb| && j != random :: !Contains(h.tlb[j], v, h.cp0.entryHi.asid)) {
      RefillDecides(env, h, v, op, random);
    }
  }

  lemma ReportedAddress(a: Arch, b: Arch, v: u32, code: nat)
    requires Reports(a, b, v, code)
    ensures b.cp0.badVAddr == v && b.cp0.cause.code == code && b.cp0.entryHi.vpn2 == v / 0x2000
    ensures b.cp0.entryHi.asid == a.cp0.entryHi.asid
  {}

  lemma TurnsLegal(env: Env, a: Arch, insn: Insn)
    requires ArchOk(a) && Turns(env, a, insn)
    ensures LegalMasks(a.tlb)
  {
    hide LegalMasks, CodeAt;
  }

  // What TLBWR and ERET leave of the TLB.
  lemma RefillShape(env: Env, h: Arch, random: nat)
    requires ArchOk(h) && random < |h.tlb|
    ensures var c := Execute(env, Execute(env, h, Tlbwr, random).0, Eret, 0).0;
            c.tlb == h.tlb[random := c.tlb[random]] && c.cp0.entryHi == h.cp0.entryHi && ArchOk(c)
            && c.tlb[random] == NewEntry(h.cp0)
  {
    hide NewEntry;
  }

  // The entry made of EntryHi, EntryLo and PageMask holds the address in EntryHi.
  lemma NewEntrySays(cp: Cp0, v: u32)
    requires cp.entryHi.vpn2 == v / 0x2000 && LegalMask(cp.pageMask)
    ensures var e := NewEntry(cp);
            var size := cp.pageMask / 2 + 0x1000;
            var lo := if v / size % 2 == 0 then cp.entryLo0 else cp.entryLo1;
            && e.mask == cp.pageMask && Contains(e, v, cp.entryHi.asid)
            && HalfFor(e, v).valid == lo.valid && HalfFor(e, v).dirty == lo.dirty
            && Physical(e, v) == (lo.pfn * 0x1000 + v % size) % 0x1_0000_0000
  {
    var span := Span(cp.pageMask);
    DivideTwice(v, 0x2000, span);
    DivideTwice(v / 0x2000 * 0x2000, 0x2000, span);
    assert 2 * PageSize(NewEntry(cp)) == 0x2000 * span;
  }

  lemma RefillEntry(env: Env, h: Arch, v: u32, random: nat)
    requires ArchOk(h) && h.cp0.entryHi.vpn2 == v / 0x2000 && LegalMask(h.cp0.pageMask) && random < |h.tlb|
    ensures var c := Execute(env, Execute(env, h, Tlbwr, random).0, Eret, 0).0;
            |c.tlb| == |h.tlb| && c.cp0.entryHi == h.cp0.entryHi && Contains(c.tlb[random], v, h.cp0.entryHi.asid)
  {
    RefillShape(env, h, random);
    NewEntrySays(h.cp0, v);
    hide Execute, Contains, NewEntry;
  }

  lemma RefillDecides(env: Env, h: Arch, v: u32, op: MemOp, random: nat)
    requires ArchOk(h) && h.cp0.entryHi.vpn2 == v / 0x2000 && LegalMask(h.cp0.pageMask) && random < |h.tlb|
    requires LegalMasks(h.tlb) && Accesses(op) && v % Width(op) == 0 && !Direct(v)
    requires forall j | 0 <= j < |h.tlb| && j != random :: !Contains(h.tlb[j], v, h.cp0.entryHi.asid)
    ensures var c := Execute(env, Execute(env, h, Tlbwr, random).0, Eret, 0).0;
            var size := h.cp0.pageMask / 2 + 0x1000;
            var lo := if v / size % 2 == 0 then h.cp0.entryLo0 else h.cp0.entryLo1;
            && FirstEntry(c.tlb, random, v, h.cp0.entryHi.asid)
            && (lo.valid && (IsStore(op) ==> lo.dirty) ==>
                  var (d, acc) := AccessMem(env, Tried(c, op), v, op, IsStore(op));
                  Reaches(env, Tried(c, op), d, acc, (lo.pfn * 0x1000 + v % size) % 0x1_0000_0000))
  {
    hide Execute, Contains, NewEntry, LegalMask, Direct, AccessMem, Reaches, Reports, Width, HalfFor, Physical;
    RefillShape(env, h, random);
    NewEntrySays(h.cp0, v);
    var c := Execute(env, Execute(env, h, Tlbwr, random).0, Eret, 0).0;
    forall j | 0 <= j < random ensures !Contains(c.tlb[j], v, h.cp0.entryHi.asid) { assert c.tlb[j] == h.tlb[j]; }
    FirstEntryDecides(env, Tried(c, op), v, op, IsStore(op), random);
  }

  // ----------------------------------------------------------- atomic updates

  // LL, any run that keeps the link, and SC of the loaded word plus k: the word
  // in memory has grown by k, no other byte has changed, and SC says so.
  lemma AtomicUpdate(env: Env, a: Arch, base: Reg, rd: Reg, offset: int, r1: nat, events: seq<Event>,
                     base': Reg, rt: Reg, offset': int, r2: nat, p: HostPtr, k: int)
    requires ArchOk(a) && LinkOk(a) && Turns(env, a, Mem(LL, base, rd, offset)) && rt != 0
    requires AccessMem(env, AtTurn(a), On(AtTurn(a).gpr[base], offset), LL, false) == (AtTurn(a), Ram(p))
    requires var r := Step(env, a, r1);
             var b := Run(env, r, events);
             && LinkLive(b.log) && NoLinkTaken(r, b) && Turns(env, b, Mem(SC, base', rt, offset'))
             && AccessMem(env, AtTurn(b), On(AtTurn(b).gpr[base'], offset'), SC, true) == (AtTurn(b), Ram(p))
             && b.gpr[rt] == On(r.gpr[rd], k)
    ensures var c := Step(env, Run(env, Step(env, a, r1), events), r2);
            && c.gpr[rt] == 1
            && Number(env.bigEndian, BytesAt(c.mem, p, 4)) ==
               (Number(env.bigEndian, BytesAt(a.mem, p, 4)) + k) % 0x1_0000_0000
            && forall q | !Within(p, 4, q) :: BytesAt(c.mem, q, 1) == BytesAt(a.mem, q, 1)
  {
    hide Step, Run, Turns, AccessMem, LinkLive, NoLinkTaken, Number, BytesAt, Within, AtTurn, On;
    var r := Step(env, a, r1);
    LinkedTurn(env, a, base, rd, offset, r1, p);
    var b := Run(env, r, events);
    LinkGuardsMemory(env, r, events);
    LinkBitIsHistory(env, r, events);
    ConditionalTurn(env, b, base', rt, offset', r2, p);
    OnIs(r.gpr[rd], k);
  }

  lemma OnIs(w: u32, k: int)
    ensures On(w, k) == (w + k) % 0x1_0000_0000
  {}

  lemma LinkedTurn(env: Env, a: Arch, base: Reg, rd: Reg, offset: int, random: nat, p: HostPtr)
    requires ArchOk(a) && LinkOk(a) && Turns(env, a, Mem(LL, base, rd, offset))
    requires AccessMem(env, AtTurn(a), On(AtTurn(a).gpr[base], offset), LL, false) == (AtTurn(a), Ram(p))
    ensures var r := Step(env, a, random);
            ArchOk(r) && LinkOk(r) && r.mem == a.mem && r.gpr[rd] == Number(env.bigEndian, BytesAt(a.mem, p, 4))
  {
    hide Step, Execute, Turns, AccessMem, Follows, LinkLive, LinkOk, Number, BytesAt, PageOf;
    TurnRuns(env, a, Mem(LL, base, rd, offset), random);
    MemIgnoresRandom(env, AtTurn(a), LL, base, rd, offset, random);
    LoadDelivers(env, AtTurn(a), LL, base, rd, offset, p);
    StepFollows(env, a, random);
    FollowsLink(a, Step(env, a, random));
  }

  lemma ConditionalTurn(env: Env, b: Arch, base: Reg, rt: Reg, offset: int, random: nat, p: HostPtr)
    requires ArchOk(b) && b.llBit && rt != 0 && Turns(env, b, Mem(SC, base, rt, offset))
    requires AccessMem(env, AtTurn(b), On(AtTurn(b).gpr[base], offset), SC, true) == (AtTurn(b), Ram(p))
    ensures var c := Step(env, b, random);
            && c.gpr[rt] == 1 && Number(env.bigEndian, BytesAt(c.mem, p, 4)) == b.gpr[rt]
            && forall q | !Within(p, 4, q) :: BytesAt(c.mem, q, 1) == BytesAt(b.mem, q, 1)
  {
    hide Step, Execute, Turns, AccessMem, Number, BytesAt, WriteMem, PageOf, Within;
    TurnRuns(env, b, Mem(SC, base, rt, offset), random);
    MemIgnoresRandom(env, AtTurn(b), SC, base, rt, offset, random);
    ConditionalStores(env, AtTurn(b), base, rt, offset);
    Written(env.bigEndian, b.mem, p, 4, b.gpr[rt]);
  }

  lemma MemIgnoresRandom(env: Env, a: Arch, op: MemOp, base: Reg, rt: Reg, offset: int, random: nat)
    requires ArchOk(a)
    ensures Execute(env, a, Mem(op, base, rt, offset), random) == Execute(env, a, Mem(op, base, rt, offset), 0)
  {
    hide DoMem;
  }

  lemma FollowsLink(a: Arch, b: Arch)
    requires Follows(a, b) && LinkOk(a)
    ensures LinkOk(b) && ArchOk(b)
  {
    hide LinkLive;
  }
}

// The guest machine without either of the emulator's lookup caches: every
// access scans the TLB, every instruction is fetched through the TLB. Registers
// with bit fields are records of those fields; addresses are 32-bit integers.
module Machine {
  import Words
  import opened Wrappers

  type u32 = Words.u32
  type u8 = Words.u8
  type Reg = r: nat | r < 32

  function Wrap(x: int): u32 { x % 0x1_0000_0000 }

  function Page(v: u32): u32 { v - v % 0x1000 }

  // ---------------------------------------------------------------- registers

  datatype EntryHi = EntryHi(vpn2: nat, global: bool, spare: nat, asid: nat)

  datatype EntryLo = EntryLo(top: nat, pfn: nat, cca: nat, dirty: bool, valid: bool, global: bool)

  // `im` and `ip` hold one bit for each enabled and each pending interrupt line.
  datatype Status = Status(ie: bool, exl: bool, erl: bool, bev: bool, im: u8, rest: (nat, nat, nat))

  datatype Cause = Cause(bd: bool, ce: nat, iv: bool, ip: u8, code: nat, rest: (nat, nat, nat, nat))

  function HiOf(v: u32): EntryHi {
    EntryHi(v / 0x2000, v / 0x1000 % 2 == 1, v / 0x100 % 0x10, v % 0x100)
  }

  function LoOf(v: u32): EntryLo {
    EntryLo(v / 0x400_0000, v / 0x40 % 0x10_0000, v / 8 % 8, v / 4 % 2 == 1, v / 2 % 2 == 1, v % 2 == 1)
  }

  function LineWeight(i: nat): nat
    requires i < 8
  {
    [1, 2, 4, 8, 0x10, 0x20, 0x40, 0x80][i]
  }

  predicate HasLine(b: u8, i: nat) { i < 8 && b / LineWeight(i) % 2 == 1 }

  predicate Meet(b: u8, c: u8) { exists i | 0 <= i < 8 :: HasLine(b, i) && HasLine(c, i) }

  function StatusOf(v: u32): Status {
    Status(v % 2 == 1, v / 2 % 2 == 1, v / 4 % 2 == 1, v / 0x40_0000 % 2 == 1, v / 0x100 % 0x100,
           (v / 8 % 0x20, v / 0x1_0000 % 0x40, v / 0x80_0000))
  }

  function CauseOf(v: u32): Cause {
    Cause(v / 0x8000_0000 == 1, v / 0x1000_0000 % 4, v / 0x80_0000 % 2 == 1, v / 0x100 % 0x100, v / 4 % 0x20,
          (v % 4, v / 0x80 % 2, v / 0x1_0000 % 0x80, v / 0x100_0000 % 0x10 + v / 0x4000_0000 % 2 * 0x10))
  }

  datatype TlbEntry = TlbEntry(mask: u32, hi: EntryHi, lo0: EntryLo, lo1: EntryLo)

  datatype Cp0 = Cp0(index: u32, entryLo0: EntryLo, entryLo1: EntryLo, context: u32, pageMask: u32, badVAddr: u32,
                     entryHi: EntryHi, status: Status, cause: Cause, epc: u32, errEpc: u32, other: map<nat, u32>)

  datatype CpReg = Index | EntryLo0 | EntryLo1 | Context | PageMask | BadVAddr | EntryHiReg | Compare
                 | StatusReg | CauseReg | Epc | ErrEpc | ReadOnlyReg | Config(sel: nat) | OtherReg(n: nat)

  // ------------------------------------------------------------- instructions

  datatype MemOp = LB | LBU | LH | LHU | LW | LWU | SB | SH | SW | LWL | LWR | SWL | SWR | LL | SC | CACHE

  datatype Test = Eq | Ne | Gez | Gtz | Lez | Ltz

  // How a branch treats its delay slot: always executed and its result obeyed;
  // executed only if taken and obeyed (beql); executed only if taken and its
  // result ignored (every other branch-likely).
  datatype Style = Plain | LikelyObeyed | LikelyIgnored

  datatype Branch =
    | J(index26: nat, link: bool)
    | Jr(rs: Reg, linkTo: Option<Reg>)
    | Cond(test: Test, rs: Reg, rt: Reg, disp: int, link: bool, style: Style)

  // Instructions that only write hi, lo and at most one general register are
  // `Compute`; what they write is a parameter of the environment.
  datatype Insn =
    | Compute(word: u32)
    | Br(b: Branch)
    | Mem(op: MemOp, base: Reg, rt: Reg, offset: int)
    | Mtc0(src: Reg, reg: CpReg)
    | Tlbp | Tlbr | Tlbwi | Tlbwr
    | Eret | Syscall | Break | Fpu
    | Trap(eq: bool, rs: Reg, other: Operand)
    | Unknown

  // What a trap compares with; the immediate is already sign-extended.
  datatype Operand = InReg(r: Reg) | Immediate(value: u32)

  function ValueOf(o: Operand, gpr: seq<u32>): u32
    requires |gpr| == 32
  {
    match o
    case InReg(r) => gpr[r]
    case Immediate(value) => value
  }

  datatype Computed = Computed(rd: Reg, value: u32, hi: u32, lo: u32)

  // -------------------------------------------------------------- environment

  // A device with host memory may be mapped straight into it; the others answer
  // through their handlers.
  datatype Device = Device(id: nat, base: nat, len: nat, direct: bool)

  // A host pointer is an offset into the memory of one device.
  datatype HostPtr = HostPtr(dev: nat, off: int)

  type Memory = map<HostPtr, u8>

  datatype IoEvent =
    | Handler(dev: nat, off: int, size: nat, write: bool, data: u32)
    | Poke(dev: nat, off: int, size: nat, data: u32)

  // A handler supplies the value itself, or returns a pointer to it, or neither.
  datatype Reply = Value(data: u32) | Window(data: u32) | NoReply

  datatype Env = Env(bus: seq<Device>, bigEndian: bool, decode: u32 -> Insn,
                     compute: (u32, seq<u32>, u32, u32, Cp0, nat) -> Computed, reply: seq<IoEvent> -> Reply)

  datatype Stop = Running | NoDevice | NoData | UnknownOp | NestedBranch | CodeInDevice | BadConfig

  // Instructions worth remembering: memory instructions with whether they
  // completed, returns from exceptions and writes of system registers.
  datatype Note = Ran(op: MemOp, completed: bool) | Returned | Wrote(reg: CpReg)

  datatype Arch = Arch(pc: u32, gpr: seq<u32>, hi: u32, lo: u32, cp0: Cp0, tlb: seq<TlbEntry>,
                       llBit: bool, inSlot: bool, irqPending: bool, irqCause: u8, codePage: u32,
                       mem: Memory, io: seq<IoEvent>, stop: Stop, log: seq<Note>)

  predicate ArchOk(a: Arch) { |a.gpr| == 32 }

  // ----------------------------------------------------------------- the TLB

  // Number of 4K page pairs an entry covers.
  function Span(mask: u32): nat { mask / 0x2000 + 1 }

  predicate Matches(e: TlbEntry, vpn2: nat, asid: nat) {
    && vpn2 / Span(e.mask) == e.hi.vpn2 / Span(e.mask)
    && (e.hi.global || e.hi.asid == asid)
  }

  // Index of the first entry at or after `i` that matches.
  function ProbeFrom(tlb: seq<TlbEntry>, vpn2: nat, asid: nat, i: nat): (r: Option<nat>)
    requires i <= |tlb|
    ensures r.Some? ==> i <= r.value < |tlb| && Matches(tlb[r.value], vpn2, asid)
    ensures r.Some? ==> forall j | i <= j < r.value :: !Matches(tlb[j], vpn2, asid)
    ensures r.None? ==> forall j | i <= j < |tlb| :: !Matches(tlb[j], vpn2, asid)
    decreases |tlb| - i
  {
    if i == |tlb| then None
    else if Matches(tlb[i], vpn2, asid) then Some(i)
    else ProbeFrom(tlb, vpn2, asid, i + 1)
  }

  function Probe(tlb: seq<TlbEntry>, vpn2: nat, asid: nat): Option<nat> { ProbeFrom(tlb, vpn2, asid, 0) }

  // What an entry says about the page numbered `vpn`.
  datatype Hit = Hit(frame: u32, dirty: bool, valid: bool)

  function HitOf(e: TlbEntry, vpn: nat): Hit {
    var span := Span(e.mask);
    var lo := if vpn / span % 2 == 0 then e.lo0 else e.lo1;
    Hit(Wrap((lo.pfn + vpn % span) * 0x1000), lo.dirty, lo.valid)
  }

  function Lookup(tlb: seq<TlbEntry>, vpn: nat, asid: nat): Option<Hit> {
    match Probe(tlb, vpn / 2, asid)
    case None => None
    case Some(i) => Some(HitOf(tlb[i], vpn))
  }

  // kseg0 and kseg1 bypass the TLB.
  predicate Mapped(v: u32) { v / 0x2000_0000 != 4 && v / 0x2000_0000 != 5 }

  datatype Translation = Miss | ReadOnly | Frame(frame: u32)

  function Translate(tlb: seq<TlbEntry>, asid: nat, v: u32, write: bool): Translation {
    if !Mapped(v) then Frame(Page(v) % 0x2000_0000)
    else match Lookup(tlb, v / 0x1000, asid)
      case None => Miss
      case Some(hit) =>
        if !hit.valid then Miss
        else if write && !hit.dirty then ReadOnly
        else Frame(hit.frame)
  }

  // ----------------------------------------------------------------- the bus

  predicate Covers(d: Device, pa: u32) { d.base <= pa < d.base + d.len }

  function DevLookup(bus: seq<Device>, pa: u32): (r: Option<Device>)
    ensures r.Some? ==> r.value in bus && Covers(r.value, pa)
    ensures r.None? ==> forall d | d in bus :: !Covers(d, pa)
  {
    if bus == [] then None
    else if Covers(bus[0], pa) then Some(bus[0])
    else DevLookup(bus[1..], pa)
  }

  datatype Place = NotMapped | WriteProtected | Nowhere | InRam(p: HostPtr) | InDevice(dev: nat, off: int)

  function PlaceAt(bus: seq<Device>, frame: u32, offset: nat): Place {
    match DevLookup(bus, frame)
    case None => Nowhere
    case Some(d) =>
      if d.direct then InRam(HostPtr(d.id, frame - d.base + offset))
      else InDevice(d.id, frame - d.base + offset)
  }

  function Locate(env: Env, tlb: seq<TlbEntry>, asid: nat, v: u32, write: bool): Place {
    match Translate(tlb, asid, v, write)
    case Miss => NotMapped
    case ReadOnly => WriteProtected
    case Frame(f) => PlaceAt(env.bus, f, v % 0x1000)
  }

  // -------------------------------------------------------------- exceptions

  const INTERRUPT: nat := 0
  const TLB_MOD: nat := 1
  const TLB_LOAD: nat := 2
  const TLB_SAVE: nat := 3
  const ADDR_LOAD: nat := 4
  const ADDR_SAVE: nat := 5
  const SYSCALL: nat := 8
  const BREAKPOINT: nat := 9
  const CP_UNUSABLE: nat := 11
  const TRAP: nat := 13

  // The exception level is already set when the vector is chosen, so TLB
  // refills share the general vector.
  function Vector(bev: bool, iv: bool, code: nat): u32 {
    (if bev then 0xbfc0_0200 else 0x8000_0000) + (if code == INTERRUPT && iv then 0x200 else 0x180)
  }

  function RaisedCp0(cp: Cp0, pc: u32, code: nat, slot: bool): Cp0 {
    cp.(epc := if cp.status.exl then cp.epc else pc,
        cause := cp.cause.(bd := if cp.status.exl then cp.cause.bd else slot, code := code),
        status := cp.status.(exl := true, erl := false))
  }

  function Raise(a: Arch, code: nat, slot: bool): Arch {
    a.(cp0 := RaisedCp0(a.cp0, a.pc, code, slot),
       irqCause := if code == INTERRUPT then 0 else a.irqCause,
       irqPending := false,
       pc := Vector(a.cp0.status.bev, a.cp0.cause.iv, code))
  }

  // An exception caused by an address: BadVAddr, EntryHi and Context name it.
  function RaiseAt(a: Arch, v: u32, code: nat): Arch {
    var cp := a.cp0;
    Raise(a.(cp0 := cp.(
               badVAddr := v,
               entryHi := cp.entryHi.(vpn2 := v / 0x2000),
               context := cp.context - cp.context / 0x10 % 0x8_0000 * 0x10 + v / 0x2000 * 0x10)),
          code, a.inSlot)
  }

  function ReturnFromException(a: Arch): Arch {
    var st := a.cp0.status;
    var b := a.(llBit := false, log := a.log + [Returned]);
    if st.erl then b.(cp0 := a.cp0.(status := st.(erl := false)), pc := a.cp0.errEpc)
    else b.(cp0 := a.cp0.(status := st.(exl := false)), pc := a.cp0.epc)
  }

  function UpdateIrqFlag(a: Arch): Arch {
    var st := a.cp0.status;
    a.(cp0 := a.cp0.(cause := a.cp0.cause.(ip := a.irqCause)),
       irqPending := st.ie && !st.exl && !st.erl && Meet(a.irqCause, st.im))
  }

  function TriggerIrq(a: Arch): Arch {
    var b := UpdateIrqFlag(a);
    if b.irqPending then Raise(b, INTERRUPT, false) else b
  }

  function SetIrq(a: Arch, line: nat): Arch {
    a.(irqCause := if line < 8 && !HasLine(a.irqCause, line) then a.irqCause + LineWeight(line) else a.irqCause)
  }

  function ClearIrq(a: Arch, line: nat): Arch {
    var left := if HasLine(a.irqCause, line) then a.irqCause - LineWeight(line) else a.irqCause;
    a.(irqCause := left, irqPending := a.irqPending && left != 0)
  }

  // ------------------------------------------------------------ guest memory

  function ByteAt(m: Memory, p: HostPtr, i: int): u8 {
    var q := HostPtr(p.dev, p.off + i);
    if q in m then m[q] else 0
  }

  function Size(op: MemOp): nat {
    match op
    case LB | LBU | SB => 1
    case LH | LHU | SH => 2
    case _ => 4
  }

  // The guest's view of the bytes at a host pointer, in the guest's byte order.
  function ReadMem(big: bool, m: Memory, p: HostPtr, size: nat): u32
    requires size in {1, 2, 4}
  {
    if size == 1 then ByteAt(m, p, 0)
    else if size == 2 then
      if big then ByteAt(m, p, 0) * 0x100 + ByteAt(m, p, 1) else ByteAt(m, p, 1) * 0x100 + ByteAt(m, p, 0)
    else if big then
      ByteAt(m, p, 0) * 0x100_0000 + ByteAt(m, p, 1) * 0x1_0000 + ByteAt(m, p, 2) * 0x100 + ByteAt(m, p, 3)
    else
      ByteAt(m, p, 3) * 0x100_0000 + ByteAt(m, p, 2) * 0x1_0000 + ByteAt(m, p, 1) * 0x100 + ByteAt(m, p, 0)
  }

  function WriteMem(big: bool, m: Memory, p: HostPtr, size: nat, data: u32): Memory
    requires size in {1, 2, 4}
  {
    var at := (i: int) => HostPtr(p.dev, p.off + i);
    var b0, b1, b2, b3 := data % 0x100, data / 0x100 % 0x100, data / 0x1_0000 % 0x100, data / 0x100_0000;
    if size == 1 then m[at(0) := b0]
    else if size == 2 then if big then m[at(0) := b1][at(1) := b0] else m[at(0) := b0][at(1) := b1]
    else if big then m[at(0) := b3][at(1) := b2][at(2) := b1][at(3) := b0]
    else m[at(0) := b0][at(1) := b1][at(2) := b2][at(3) := b3]
  }

  function Extend(op: MemOp, data: u32): u32 {
    match op
    case LB => if data % 0x100 >= 0x80 then data % 0x100 + 0xffff_ff00 else data % 0x100
    case LBU => data % 0x100
    case LH => if data % 0x1_0000 >= 0x8000 then data % 0x1_0000 + 0xffff_0000 else data % 0x1_0000
    case LHU => data % 0x1_0000
    case _ => data
  }

  // Number of bytes a left (towards the high end) or right partial access moves.
  function LeftCount(big: bool, v: u32): nat { if big then 4 - v % 4 else v % 4 + 1 }

  function RightCount(big: bool, v: u32): nat { if big then v % 4 + 1 else 4 - v % 4 }

  function Pow256(n: nat): nat
    requires n <= 4
  {
    [1, 0x100, 0x1_0000, 0x100_0000, 0x1_0000_0000][n]
  }

  // The low `n` bytes of `from` become the high bytes of `into`.
  function MergeHigh(into: u32, from: u32, n: nat): u32
    requires 1 <= n <= 4
  {
    from % Pow256(n) * Pow256(4 - n) + into % Pow256(4 - n)
  }

  // The high `n` bytes of `from` become the low bytes of `into`.
  function MergeLow(into: u32, from: u32, n: nat): u32
    requires 1 <= n <= 4
  {
    into / Pow256(n) * Pow256(n) + from / Pow256(4 - n)
  }

  // The register LWL and LWR leave, and the word SWL and SWR leave.
  function LoadPart(op: MemOp, big: bool, v: u32, reg: u32, word: u32): u32 {
    if op == LWL then MergeHigh(reg, word, LeftCount(big, v)) else MergeLow(reg, word, RightCount(big, v))
  }

  function StorePart(op: MemOp, big: bool, v: u32, reg: u32, word: u32): u32 {
    if op == SWL then MergeLow(word, reg, LeftCount(big, v)) else MergeHigh(word, reg, RightCount(big, v))
  }

  // --------------------------------------------------------- memory accesses

  datatype Access = Fault | Ram(p: HostPtr) | Io(dev: nat, off: int)

  predicate Misaligned(v: u32, op: MemOp) {
    || (Size(op) == 2 && v % 2 != 0)
    || (Size(op) == 4 && op !in {LWL, LWR, SWL, SWR} && v % 4 != 0)
  }

  function FaultCode(place: Place, write: bool): nat {
    if place == WriteProtected then TLB_MOD else if write then TLB_SAVE else TLB_LOAD
  }

  // Where an access goes, and the machine after the exception it may raise.
  function Resolve(env: Env, a: Arch, v: u32, write: bool): (Arch, Access) {
    var place := Locate(env, a.tlb, a.cp0.entryHi.asid, v, write);
    match place
    case InRam(p) => (a, Ram(p))
    case InDevice(d, off) => (a, Io(d, off))
    case Nowhere => (a.(stop := NoDevice), Fault)
    case _ => (RaiseAt(a, v, FaultCode(place, write)), Fault)
  }

  function AccessMem(env: Env, a: Arch, v: u32, op: MemOp, write: bool): (Arch, Access) {
    if Misaligned(v, op) then (RaiseAt(a, v, if write then ADDR_SAVE else ADDR_LOAD), Fault)
    else Resolve(env, a, v, write)
  }

  function CallHandler(env: Env, a: Arch, acc: Access, op: MemOp, write: bool, data: u32): (Arch, Reply)
    requires acc.Io?
  {
    var io := a.io + [Handler(acc.dev, acc.off, Size(op), write, data)];
    (a.(io := io), env.reply(io))
  }

  function SetGpr(a: Arch, r: Reg, value: u32): Arch
    requires ArchOk(a)
    ensures ArchOk(SetGpr(a, r, value))
  {
    a.(gpr := a.gpr[r := value])
  }

  // Each memory instruction yields the machine after it and whether the normal
  // flow (pc advancing by four) is off.
  function DoLoad(env: Env, a: Arch, op: MemOp, v: u32, rt: Reg): (r: (Arch, bool))
    requires ArchOk(a)
    ensures ArchOk(r.0)
  {
    var (b, acc) := AccessMem(env, a, v, op, false);
    match acc
    case Fault => (b, true)
    case Ram(p) => (SetGpr(b, rt, Extend(op, ReadMem(env.bigEndian, b.mem, p, Size(op)))), false)
    case Io(_, _) =>
      var (c, reply) := CallHandler(env, b, acc, op, false, 0);
      if reply.NoReply? then (c.(stop := NoData), true)
      else (SetGpr(c, rt, Extend(op, reply.data)), false)
  }

  function DoLoadLinked(env: Env, a: Arch, v: u32, rt: Reg): (r: (Arch, bool))
    requires ArchOk(a)
    ensures ArchOk(r.0)
  {
    var (b, res) := DoLoad(env, a, LL, v, rt);
    if res then (b, true) else (b.(llBit := true), false)
  }

  function DoLoadPart(env: Env, a: Arch, op: MemOp, v: u32, rt: Reg): (r: (Arch, bool))
    requires ArchOk(a)
    ensures ArchOk(r.0)
  {
    var (b, acc) := AccessMem(env, a, v - v % 4, op, false);
    CompleteLoadPart(env, b, acc, op, v, rt)
  }

  // LWL and LWR leave the register alone when the handler supplied the value.
  function CompleteLoadPart(env: Env, a: Arch, acc: Access, op: MemOp, v: u32, rt: Reg): (r: (Arch, bool))
    requires ArchOk(a)
    ensures ArchOk(r.0)
  {
    match acc
    case Fault => (a, true)
    case Ram(p) =>
      (SetGpr(a, rt, LoadPart(op, env.bigEndian, v, a.gpr[rt], ReadMem(env.bigEndian, a.mem, p, 4))), false)
    case Io(_, _) =>
      var (c, reply) := CallHandler(env, a, acc, op, false, 0);
      match reply
      case NoReply => (c.(stop := NoData), true)
      case Value(_) => (c, false)
      case Window(w) => (SetGpr(c, rt, LoadPart(op, env.bigEndian, v, c.gpr[rt], w)), false)
  }

  function BreakLink(a: Arch): Arch { a.(llBit := false) }

  function Deliver(env: Env, a: Arch, acc: Access, op: MemOp, data: u32): (r: (Arch, bool))
    requires ArchOk(a)
    ensures ArchOk(r.0)
  {
    match acc
    case Fault => (a, true)
    case Ram(p) => (a.(mem := WriteMem(env.bigEndian, a.mem, p, Size(op), data)), false)
    case Io(d, off) =>
      var (c, reply) := CallHandler(env, a, acc, op, true, data);
      match reply
      case NoReply => (c.(stop := NoData), true)
      case Value(_) => (c, false)
      case Window(_) => (c.(io := c.io + [Poke(d, off, Size(op), data)]), false)
  }

  function DoStore(env: Env, a: Arch, op: MemOp, v: u32, rt: Reg): (r: (Arch, bool))
    requires ArchOk(a)
    ensures ArchOk(r.0)
  {
    var data := a.gpr[rt] % Pow256(Size(op));
    var (b, acc) := AccessMem(env, BreakLink(a), v, op, true);
    Deliver(env, b, acc, op, data)
  }

  function DoStorePart(env: Env, a: Arch, op: MemOp, v: u32, rt: Reg): (r: (Arch, bool))
    requires ArchOk(a)
    ensures ArchOk(r.0)
  {
    var (b, acc) := AccessMem(env, BreakLink(a), v - v % 4, op, true);
    CompleteStorePart(env, b, acc, op, v, a.gpr[rt])
  }

  function CompleteStorePart(env: Env, a: Arch, acc: Access, op: MemOp, v: u32, value: u32): (r: (Arch, bool))
    requires ArchOk(a)
    ensures ArchOk(r.0)
  {
    match acc
    case Fault => (a, true)
    case Ram(p) =>
      var word := StorePart(op, env.bigEndian, v, value, ReadMem(env.bigEndian, a.mem, p, 4));
      (a.(mem := WriteMem(env.bigEndian, a.mem, p, 4, word)), false)
    case Io(d, off) =>
      var (c, reply) := CallHandler(env, a, acc, op, true, value);
      match reply
      case NoReply => (c.(stop := NoData), true)
      case Value(_) => (c, false)
      case Window(w) => (c.(io := c.io + [Poke(d, off, 4, StorePart(op, env.bigEndian, v, value, w))]), false)
  }

  function DoStoreConditional(env: Env, a: Arch, v: u32, rt: Reg): (r: (Arch, bool))
    requires ArchOk(a)
    ensures ArchOk(r.0)
  {
    if !a.llBit then (SetGpr(a, rt, 0), false)
    else
      var (b, acc) := AccessMem(env, a, v, SC, true);
      var (c, res) := Deliver(env, b, acc, SC, a.gpr[rt]);
      if res then (c, true) else (SetGpr(c, rt, 1), false)
  }

  function DoMem(env: Env, a: Arch, op: MemOp, v: u32, rt: Reg): (r: (Arch, bool))
    requires ArchOk(a)
    ensures ArchOk(r.0)
  {
    match op
    case LL => DoLoadLinked(env, a, v, rt)
    case SC => DoStoreConditional(env, a, v, rt)
    case CACHE => (BreakLink(a), false)
    case LWL | LWR => DoLoadPart(env, a, op, v, rt)
    case SWL | SWR => DoStorePart(env, a, op, v, rt)
    case SB | SH | SW => DoStore(env, a, op, v, rt)
    case _ => DoLoad(env, a, op, v, rt)
  }

  // -------------------------------------------------------- TLB instructions

  function TlbProbe(a: Arch): Arch {
    a.(cp0 := a.cp0.(index :=
      match Probe(a.tlb, a.cp0.entryHi.vpn2, a.cp0.entryHi.asid)
      case None => 0x8000_0000
      case Some(i) => Wrap(i)))
  }

  // The entry TLBWI and TLBWR store: global only if both halves say so.
  function NewEntry(cp: Cp0): TlbEntry {
    var g := cp.entryLo0.global && cp.entryLo1.global;
    TlbEntry(cp.pageMask, cp.entryHi.(global := cp.entryHi.global || g),
             cp.entryLo0.(global := false), cp.entryLo1.(global := false))
  }

  function TlbWriteAt(a: Arch, i: nat): Arch {
    if i < |a.tlb| then a.(tlb := a.tlb[i := NewEntry(a.cp0)]) else a
  }

  // TLBWI falls back to a random entry when the last probe failed.
  function WriteIndex(a: Arch, random: nat): nat {
    if a.cp0.index >= 0x8000_0000 then random else a.cp0.index
  }

  function TlbRead(a: Arch): Arch {
    var i := a.cp0.index;
    if i >= |a.tlb| then a
    else
      var e := a.tlb[i];
      a.(cp0 := a.cp0.(
           pageMask := e.mask,
           entryHi := e.hi.(global := false),
           entryLo0 := e.lo0.(global := e.hi.global || e.lo0.global),
           entryLo1 := e.lo1.(global := e.hi.global || e.lo1.global)))
  }

  // Config registers 0, 1 and 7 exist, and 1 is read-only; they are kept behind
  // the 32 numbered registers. Only the low two bits of register 0 can be written.
  const CONFIG: nat := 32
  const CONFIG_WRITABLE: set<nat> := {0, 7}

  function ConfigOf(other: map<nat, u32>, sel: nat, v: u32): u32 {
    var before := if CONFIG + sel in other then other[CONFIG + sel] else 0;
    if sel == 0 then before - before % 4 + v % 4 else v
  }

  function Assigned(cp: Cp0, reg: CpReg, v: u32): Cp0 {
    match reg
    case Index => cp.(index := v)
    case EntryLo0 => cp.(entryLo0 := LoOf(v))
    case EntryLo1 => cp.(entryLo1 := LoOf(v))
    case Context => cp.(context := v)
    case PageMask => cp.(pageMask := v)
    case BadVAddr => cp.(badVAddr := v)
    case EntryHiReg => cp.(entryHi := HiOf(v))
    case StatusReg => cp.(status := StatusOf(v))
    case CauseReg => cp.(cause := CauseOf(v))
    case Epc => cp.(epc := v)
    case ErrEpc => cp.(errEpc := v)
    case Compare => cp.(other := cp.other[11 := v])
    case Config(sel) => cp.(other := cp.other[CONFIG + sel := ConfigOf(cp.other, sel, v)])
    case OtherReg(n) => cp.(other := cp.other[n := v])
    case ReadOnlyReg => cp
  }

  // Writing Compare acknowledges the timer interrupt, line 7; writing a Config
  // register that cannot be written fails an assertion.
  function MoveToCp0(a: Arch, reg: CpReg, v: u32): Arch {
    var b := a.(log := a.log + [Wrote(reg)]);
    if reg == Compare then
      var c := UpdateIrqFlag(ClearIrq(b, 7));
      c.(cp0 := Assigned(c.cp0, reg, v))
    else if reg.Config? && reg.sel !in CONFIG_WRITABLE then b.(stop := BadConfig)
    else b.(cp0 := Assigned(b.cp0, reg, v))
  }

  // ------------------------------------------------------ instruction fetch

  function Fetch(env: Env, a: Arch, at: u32): (Arch, Option<u32>) {
    var (b, acc) := Resolve(env, a, Page(at), false);
    match acc
    case Fault => (b, None)
    case Io(_, _) => (b.(stop := CodeInDevice), None)
    case Ram(p) =>
      (b.(codePage := Page(at)),
       Some(ReadMem(env.bigEndian, b.mem, HostPtr(p.dev, p.off + at % 0x1000 / 4 * 4), 4)))
  }

  // ------------------------------------------------------------ instructions

  predicate Negative(x: u32) { x >= 0x8000_0000 }

  predicate Holds(test: Test, x: u32, y: u32) {
    match test
    case Eq => x == y
    case Ne => x != y
    case Gez => !Negative(x)
    case Gtz => !Negative(x) && x != 0
    case Lez => Negative(x) || x == 0
    case Ltz => Negative(x)
  }

  function LinkReg(b: Branch): Option<Reg> {
    match b
    case J(_, link) => if link then Some(31) else None
    case Jr(_, to) => to
    case Cond(_, _, _, _, link, _) => if link then Some(31) else None
  }

  // The link register is written before the branch reads its operands.
  function Link(a: Arch, b: Branch): (r: Arch)
    requires ArchOk(a)
    ensures ArchOk(r)
  {
    match LinkReg(b)
    case None => a
    case Some(r) => SetGpr(a, r, Wrap(a.pc + 8))
  }

  predicate Taken(b: Branch, gpr: seq<u32>)
    requires |gpr| == 32
  {
    b.Cond? ==> Holds(b.test, gpr[b.rs], gpr[b.rt])
  }

  function Target(b: Branch, gpr: seq<u32>, pc: u32): u32
    requires |gpr| == 32
  {
    match b
    case J(i, _) => Wrap(pc - pc % 0x1000_0000 + i * 4)
    case Jr(rs, _) => gpr[rs]
    case Cond(_, _, _, disp, _, _) => Wrap(pc + 4 + disp)
  }

  predicate Likely(b: Branch) { b.Cond? && b.style != Plain }

  // Everything but a branch; a branch here sits in a delay slot. Fetching its
  // own slot finds the branch again, without end, unless it is a branch-likely
  // that is not taken.
  function Execute(env: Env, a: Arch, insn: Insn, random: nat): (r: (Arch, bool))
    requires ArchOk(a)
    ensures ArchOk(r.0)
  {
    match insn
    case Compute(w) =>
      var c := env.compute(w, a.gpr, a.hi, a.lo, a.cp0, random);
      (SetGpr(a, c.rd, c.value).(hi := c.hi, lo := c.lo), false)
    case Br(b) =>
      var l := Link(a, b);
      if Likely(b) && !Taken(b, l.gpr) then (l.(pc := Wrap(a.pc + 8)), true)
      else (l.(stop := NestedBranch), true)
    case Mem(op, base, rt, offset) =>
      var (b, res) := DoMem(env, a, op, Wrap(a.gpr[base] + offset), rt);
      (b.(log := b.log + [Ran(op, !res)]), res)
    case Mtc0(src, reg) => (MoveToCp0(a, reg, a.gpr[src]), false)
    case Tlbp => (TlbProbe(a), false)
    case Tlbr => (TlbRead(a), false)
    case Tlbwi => (TlbWriteAt(a, WriteIndex(a, random)), false)
    case Tlbwr => (TlbWriteAt(a, random), false)
    case Eret => (ReturnFromException(a), true)
    case Syscall => (Raise(a, SYSCALL, a.inSlot), true)
    case Break => (Raise(a, BREAKPOINT, false), true)
    case Fpu =>
      var ca := a.cp0.cause;
      var marked := a.(cp0 := a.cp0.(cause := ca.(ce := if ca.ce % 2 == 0 then ca.ce + 1 else ca.ce)));
      (Raise(marked, CP_UNUSABLE, a.inSlot), true)
    case Trap(eq, rs, other) =>
      if eq == (a.gpr[rs] == ValueOf(other, a.gpr)) then (Raise(a, TRAP, false), true) else (a, false)
    case Unknown => (a.(stop := UnknownOp), true)
  }

  function ExecuteSlot(env: Env, a: Arch, random: nat): (r: (Arch, bool))
    requires ArchOk(a)
    ensures ArchOk(r.0)
  {
    var (b, word) := Fetch(env, a.(inSlot := true), Wrap(a.pc + 4));
    match word
    case None => (b.(inSlot := false), true)
    case Some(w) =>
      var (c, res) := Execute(env, b, env.decode(w), random);
      (c.(inSlot := false), res)
  }

  function ExecuteBranch(env: Env, a: Arch, b: Branch, random: nat): (r: Arch)
    requires ArchOk(a)
    ensures ArchOk(r)
  {
    var l := Link(a, b);
    var taken, target := Taken(b, l.gpr), Target(b, l.gpr, a.pc);
    if Likely(b) && !taken then l.(pc := Wrap(a.pc + 8))
    else
      var (c, res) := ExecuteSlot(env, l, random);
      if res && !(b.Cond? && b.style == LikelyIgnored) then c
      else c.(pc := if taken then target else Wrap(c.pc + 8))
  }

  // One turn of the main loop.
  function Step(env: Env, a: Arch, random: nat): (r: Arch)
    requires ArchOk(a)
    ensures ArchOk(r)
  {
    if a.stop != Running then a
    else
      var z := SetGpr(a, 0, 0);
      if z.irqPending then TriggerIrq(z)
      else
        var (b, word) := Fetch(env, z, z.pc);
        match word
        case None => b
        case Some(w) =>
          var insn := env.decode(w);
          if insn.Br? then ExecuteBranch(env, b, insn.b, random)
          else
            var (c, res) := Execute(env, b, insn, random);
            if res then c else c.(pc := Wrap(c.pc + 4))
  }

  // A tick carries the random index a TLB write might use.
  datatype Event = Tick(random: nat) | RaiseLine(line: nat) | LowerLine(line: nat) | Rebuild

  function React(env: Env, a: Arch, ev: Event): (r: Arch)
    requires ArchOk(a)
    ensures ArchOk(r)
  {
    match ev
    case Tick(random) => Step(env, a, random)
    case RaiseLine(n) => UpdateIrqFlag(SetIrq(a, n))
    case LowerLine(n) => ClearIrq(a, n)
    case Rebuild => a
  }

  function Run(env: Env, a: Arch, events: seq<Event>): (r: Arch)
    requires ArchOk(a)
    ensures ArchOk(r)
    decreases |events|
  {
    if events == [] then a else Run(env, React(env, a, events[0]), events[1..])
  }
}

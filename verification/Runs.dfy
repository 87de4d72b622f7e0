// What every run of the machine keeps: the saved exception state inside a
// handler, and the link bit as a function of the run so far.
module Runs {
  import opened Wrappers
  import opened Machine

  // Notes a handler must not leave if it wants its saved state untouched.
  predicate Harmless(n: Note) {
    !n.Returned? && n != Wrote(StatusReg) && n != Wrote(CauseReg) && n != Wrote(Epc)
  }

  // Nothing between the two states returned from an exception or wrote Status,
  // Cause or EPC.
  predicate Quiet(a: Arch, b: Arch) {
    forall i | |a.log| <= i < |b.log| :: Harmless(b.log[i])
  }

  // Stores, CACHE operations and returns from exceptions undo a load-linked,
  // whether or not they complete.
  predicate Breaks(n: Note) { n.Returned? || (n.Ran? && n.op in {SB, SH, SW, SWL, SWR, CACHE}) }

  // The independent reading of the link bit: some LL completed and nothing that
  // ran after it undoes it.
  predicate LinkLive(log: seq<Note>) {
    exists i :: 0 <= i < |log| && log[i] == Ran(LL, true) && forall j | i < j < |log| :: !Breaks(log[j])
  }

  // At this point of the history an LL completed, or an SC with the link alive.
  predicate TakesLink(log: seq<Note>, i: nat)
    requires i < |log|
  {
    log[i] == Ran(LL, true) || (log[i] == Ran(SC, true) && LinkLive(log[..i]))
  }

  // Neither an LL nor a successful SC completed in between.
  predicate NoLinkTaken(a: Arch, b: Arch) {
    forall i | |a.log| <= i < |b.log| :: !TakesLink(b.log, i)
  }

  predicate LinkOk(a: Arch) { a.llBit <==> LinkLive(a.log) }

  predicate HandlerKeeps(a: Arch, b: Arch) {
    a.cp0.status.exl && Quiet(a, b) ==>
      && b.cp0.status.exl && b.cp0.epc == a.cp0.epc && b.cp0.cause.bd == a.cp0.cause.bd
      && (!a.cp0.status.erl ==> b.cp0.status == a.cp0.status)
  }

  predicate LinkKeeps(a: Arch, b: Arch) {
    LinkOk(a) ==> LinkOk(b) && (b.llBit && NoLinkTaken(a, b) ==> a.llBit && b.mem == a.mem)
  }

  // Stored entries hold their global flag in EntryHi alone.
  predicate StoredOk(tlb: seq<TlbEntry>) {
    forall i | 0 <= i < |tlb| :: !tlb[i].lo0.global && !tlb[i].lo1.global
  }

  predicate TlbKeeps(a: Arch, b: Arch) {
    |b.tlb| == |a.tlb| && (StoredOk(a.tlb) ==> StoredOk(b.tlb))
  }

  predicate Follows(a: Arch, b: Arch): (r: bool)
    ensures r ==> ArchOk(b)
  {
    ArchOk(b) && a.log <= b.log && HandlerKeeps(a, b) && LinkKeeps(a, b) && TlbKeeps(a, b)
  }

  lemma FollowsTrans(a: Arch, b: Arch, c: Arch)
    requires Follows(a, b) && Follows(b, c)
    ensures Follows(a, c)
  {
    hide LinkLive, StoredOk;
    forall i | |a.log| <= i < |b.log| ensures b.log[i] == c.log[i] && TakesLink(b.log, i) == TakesLink(c.log, i) {
      assert b.log[..i] == c.log[..i];
    }
  }

  // A step that adds no note and leaves Status, EPC, BD, the link bit and
  // memory alone.
  predicate Silent(a: Arch, b: Arch) {
    && ArchOk(b) && TlbKeeps(a, b) && b.log == a.log && b.llBit == a.llBit && b.mem == a.mem
    && b.cp0.status == a.cp0.status && b.cp0.epc == a.cp0.epc && b.cp0.cause.bd == a.cp0.cause.bd
  }

  lemma SilentFollows(a: Arch, b: Arch)
    requires Silent(a, b)
    ensures Follows(a, b)
  {
    hide LinkLive;
  }

  lemma NothingFollows(a: Arch)
    requires ArchOk(a)
    ensures Follows(a, a)
  {
    SilentFollows(a, a);
  }

  lemma RaiseFollows(a: Arch, code: nat, slot: bool)
    requires ArchOk(a)
    ensures Follows(a, Raise(a, code, slot))
  {
    hide LinkLive, Vector;
  }

  // Looking an address up, or faulting on it, leaves link bit and memory alone.
  predicate SameLink(a: Arch, b: Arch) { b.log == a.log && b.llBit == a.llBit && b.mem == a.mem }

  lemma RaiseAtFollows(a: Arch, v: u32, code: nat)
    requires ArchOk(a)
    ensures Follows(a, RaiseAt(a, v, code)) && SameLink(a, RaiseAt(a, v, code))
  {
    hide LinkLive, Vector;
  }

  lemma AccessFollows(env: Env, a: Arch, v: u32, op: MemOp, write: bool)
    requires ArchOk(a)
    ensures Follows(a, Resolve(env, a, v, write).0) && SameLink(a, Resolve(env, a, v, write).0)
    ensures Follows(a, AccessMem(env, a, v, op, write).0) && SameLink(a, AccessMem(env, a, v, op, write).0)
  {
    hide Locate, Follows, RaiseAt, Misaligned, FaultCode;
    SilentFollows(a, a);
    SilentFollows(a, a.(stop := NoDevice));
    forall code: nat ensures Follows(a, RaiseAt(a, v, code)) && SameLink(a, RaiseAt(a, v, code)) {
      RaiseAtFollows(a, v, code);
    }
  }

  // What follows an access to complete it: no note, and memory as it was.
  lemma CompletionFollows(a: Arch, b: Arch, gpr: seq<u32>, io: seq<IoEvent>, stop: Stop)
    requires Follows(a, b) && SameLink(a, b) && |gpr| == 32
    ensures var c := b.(gpr := gpr, io := io, stop := stop);
            Follows(a, c) && SameLink(a, c)
  {
    hide LinkLive;
  }

  lemma LoadFollows(env: Env, a: Arch, op: MemOp, v: u32, rt: Reg)
    requires ArchOk(a)
    ensures Follows(a, DoLoad(env, a, op, v, rt).0) && SameLink(a, DoLoad(env, a, op, v, rt).0)
  {
    hide AccessMem, Follows, SameLink, DoLoad;
    AccessFollows(env, a, v, op, false);
    LoadShape(env, a, op, v, rt);
    var c := DoLoad(env, a, op, v, rt).0;
    CompletionFollows(a, AccessMem(env, a, v, op, false).0, c.gpr, c.io, c.stop);
  }

  lemma HandlerShape(env: Env, a: Arch, acc: Access, op: MemOp, write: bool, data: u32)
    requires acc.Io?
    ensures var c := CallHandler(env, a, acc, op, write, data).0; c == a.(io := c.io)
  {
  }

  lemma LoadShape(env: Env, a: Arch, op: MemOp, v: u32, rt: Reg)
    requires ArchOk(a)
    ensures var b := AccessMem(env, a, v, op, false).0;
            var c := DoLoad(env, a, op, v, rt).0;
            c == b.(gpr := c.gpr, io := c.io, stop := c.stop)
  {
    hide AccessMem, Extend, ReadMem, CallHandler;
    var (b, acc) := AccessMem(env, a, v, op, false);
    if acc.Io? {
      HandlerShape(env, b, acc, op, false, 0);
    }
  }

  lemma LoadPartFollows(env: Env, a: Arch, op: MemOp, v: u32, rt: Reg)
    requires ArchOk(a)
    ensures Follows(a, DoLoadPart(env, a, op, v, rt).0) && SameLink(a, DoLoadPart(env, a, op, v, rt).0)
  {
    hide AccessMem, Follows, SameLink, LoadPart, ReadMem;
    AccessFollows(env, a, v - v % 4, op, false);
    var (b, acc) := AccessMem(env, a, v - v % 4, op, false);
    var c := DoLoadPart(env, a, op, v, rt).0;
    match acc
    case Fault =>
    case Ram(p) => CompletionFollows(a, b, c.gpr, b.io, b.stop);
    case Io(_, _) =>
      var (d, reply) := CallHandler(env, b, acc, op, false, 0);
      match reply
      case NoReply => CompletionFollows(a, b, b.gpr, d.io, NoData);
      case Value(_) => CompletionFollows(a, b, b.gpr, d.io, b.stop);
      case Window(_) => CompletionFollows(a, b, c.gpr, d.io, b.stop);
  }

  // What a memory instruction leaves alone besides the link bit and memory.
  predicate Rest(a: Arch, b: Arch) {
    ArchOk(b) && b.log == a.log && HandlerKeeps(a, b) && TlbKeeps(a, b)
  }

  lemma RestOfStore(a: Arch, b: Arch, mem: Memory, io: seq<IoEvent>, stop: Stop)
    requires Follows(BreakLink(a), b) && SameLink(BreakLink(a), b)
    ensures Rest(a, b.(mem := mem, io := io, stop := stop)) && !b.llBit
  {
    hide LinkLive, StoredOk;
  }

  lemma DeliverShape(env: Env, a: Arch, acc: Access, op: MemOp, data: u32)
    requires ArchOk(a)
    ensures var (b, res) := Deliver(env, a, acc, op, data);
            b == a.(mem := b.mem, io := b.io, stop := b.stop) && (res ==> b.mem == a.mem)
  {
    hide WriteMem;
  }

  lemma StoreBreaks(env: Env, a: Arch, op: MemOp, v: u32, rt: Reg)
    requires ArchOk(a)
    ensures var b := DoStore(env, a, op, v, rt).0; Rest(a, b) && !b.llBit
  {
    assert ArchOk(BreakLink(a));
    hide AccessMem, Follows, Deliver, SameLink, BreakLink, Rest;
    AccessFollows(env, BreakLink(a), v, op, true);
    var (b, acc) := AccessMem(env, BreakLink(a), v, op, true);
    var data := a.gpr[rt] % Pow256(Size(op));
    DeliverShape(env, b, acc, op, data);
    var c := Deliver(env, b, acc, op, data).0;
    RestOfStore(a, b, c.mem, c.io, c.stop);
  }

  lemma StorePartBreaks(env: Env, a: Arch, op: MemOp, v: u32, rt: Reg)
    requires ArchOk(a)
    ensures var b := DoStorePart(env, a, op, v, rt).0; Rest(a, b) && !b.llBit
  {
    assert ArchOk(BreakLink(a));
    hide AccessMem, Follows, SameLink, BreakLink, DoStorePart, Rest;
    AccessFollows(env, BreakLink(a), v - v % 4, op, true);
    StorePartShape(env, a, op, v, rt);
    var b := AccessMem(env, BreakLink(a), v - v % 4, op, true).0;
    var c := DoStorePart(env, a, op, v, rt).0;
    RestOfStore(a, b, c.mem, c.io, c.stop);
  }

  lemma StorePartShape(env: Env, a: Arch, op: MemOp, v: u32, rt: Reg)
    requires ArchOk(a)
    ensures var b := AccessMem(env, BreakLink(a), v - v % 4, op, true).0;
            var c := DoStorePart(env, a, op, v, rt).0;
            c == b.(mem := c.mem, io := c.io, stop := c.stop)
  {
    hide AccessMem, CompleteStorePart, Follows;
    var w: u32 := v - v % 4;
    AccessFollows(env, BreakLink(a), w, op, true);
    var (b, acc) := AccessMem(env, BreakLink(a), w, op, true);
    CompleteShape(env, b, acc, op, v, a.gpr[rt]);
  }

  lemma CompleteShape(env: Env, a: Arch, acc: Access, op: MemOp, v: u32, value: u32)
    requires ArchOk(a)
    ensures var c := CompleteStorePart(env, a, acc, op, v, value).0;
            c == a.(mem := c.mem, io := c.io, stop := c.stop)
  {
    hide WriteMem, ReadMem, StorePart;
  }

  // One more note: a completed LL brings the link to life, a breaking note ends it.
  lemma LinkAfter(log: seq<Note>, n: Note)
    ensures LinkLive(log + [n]) <==> n == Ran(LL, true) || (!Breaks(n) && LinkLive(log))
  {
    var more := log + [n];
    if n == Ran(LL, true) {
      assert more[|log|] == n;
    } else if LinkLive(more) {
      var i :| 0 <= i < |more| && more[i] == Ran(LL, true) && forall j | i < j < |more| :: !Breaks(more[j]);
      assert log[i] == more[i] && more[|log|] == n;
      forall j | i < j < |log| ensures !Breaks(log[j]) { assert more[j] == log[j]; }
    } else if LinkLive(log) {
      var i :| 0 <= i < |log| && log[i] == Ran(LL, true) && forall j | i < j < |log| :: !Breaks(log[j]);
      assert more[i] == log[i];
    }
  }

  // What each memory instruction does to the link bit and to memory.
  lemma MemLink(env: Env, a: Arch, op: MemOp, v: u32, rt: Reg)
    requires ArchOk(a)
    ensures var (b, res) := DoMem(env, a, op, v, rt);
            && Rest(a, b)
            && (b.llBit <==> (op == LL && !res) || (a.llBit && !Breaks(Ran(op, !res))))
            && (b.llBit && !(op == SC && !res && a.llBit) ==> b.mem == a.mem)
  {
    hide Follows, AccessMem, DoLoad, DoLoadPart, DoStore, DoStorePart, Deliver;
    match op
    case LL => LoadFollows(env, a, LL, v, rt); FollowsRest(a, DoLoad(env, a, LL, v, rt).0);
    case SC => ConditionalLink(env, a, v, rt);
    case CACHE =>
    case LWL | LWR => LoadPartFollows(env, a, op, v, rt); FollowsRest(a, DoLoadPart(env, a, op, v, rt).0);
    case SWL | SWR => StorePartBreaks(env, a, op, v, rt);
    case SB | SH | SW => StoreBreaks(env, a, op, v, rt);
    case _ => LoadFollows(env, a, op, v, rt); FollowsRest(a, DoLoad(env, a, op, v, rt).0);
  }

  lemma FollowsRest(a: Arch, b: Arch)
    requires Follows(a, b) && SameLink(a, b)
    ensures Rest(a, b)
  {
    hide LinkLive;
  }

  lemma ConditionalLink(env: Env, a: Arch, v: u32, rt: Reg)
    requires ArchOk(a)
    ensures var (b, res) := DoStoreConditional(env, a, v, rt);
            && Rest(a, b) && b.llBit == a.llBit
            && (res || !a.llBit ==> b.mem == a.mem)
  {
    hide AccessMem, Follows, Deliver;
    if a.llBit {
      AccessFollows(env, a, v, SC, true);
      var (b, acc) := AccessMem(env, a, v, SC, true);
      FollowsRest(a, b);
      DeliverShape(env, b, acc, SC, a.gpr[rt]);
    }
  }

  // A step that leaves the rest alone and ends with one note for what ran.
  lemma NotedFollows(a: Arch, b: Arch, n: Note)
    requires Rest(a, b) && n.Ran?
    requires b.llBit <==> n == Ran(LL, true) || (a.llBit && !Breaks(n))
    requires b.llBit && !(n == Ran(SC, true) && a.llBit) ==> b.mem == a.mem
    ensures Follows(a, b.(log := b.log + [n]))
  {
    var c := b.(log := b.log + [n]);
    LinkAfter(a.log, n);
    assert c.log[|a.log|] == n && c.log[..|a.log|] == a.log;
    hide LinkLive, StoredOk;
    assert HandlerKeeps(a, c);
    if LinkOk(a) && c.llBit && NoLinkTaken(a, c) {
      assert !TakesLink(c.log, |a.log|);
    }
  }

  lemma MemFollows(env: Env, a: Arch, op: MemOp, v: u32, rt: Reg)
    requires ArchOk(a)
    ensures var (b, res) := DoMem(env, a, op, v, rt);
            Follows(a, b.(log := b.log + [Ran(op, !res)]))
  {
    hide DoMem, Follows, Rest, Breaks;
    MemLink(env, a, op, v, rt);
    var (b, res) := DoMem(env, a, op, v, rt);
    NotedFollows(a, b, Ran(op, !res));
  }

  lemma ReturnFollows(a: Arch)
    requires ArchOk(a)
    ensures Follows(a, ReturnFromException(a))
  {
    LinkAfter(a.log, Returned);
    hide LinkLive;
    assert ReturnFromException(a).log[|a.log|] == Returned;
  }

  // One more note, and no more than that if the note is harmless.
  lemma MoveShape(a: Arch, reg: CpReg, v: u32)
    requires ArchOk(a)
    ensures var b := MoveToCp0(a, reg, v);
            && b.log == a.log + [Wrote(reg)] && b.gpr == a.gpr && b.mem == a.mem
            && b.llBit == a.llBit && b.tlb == a.tlb
            && (Harmless(Wrote(reg)) ==>
                  && b.cp0.status == a.cp0.status && b.cp0.epc == a.cp0.epc && b.cp0.cause.bd == a.cp0.cause.bd)
  {
    AcknowledgeShape(a.(log := a.log + [Wrote(reg)]));
    HarmlessAssignment(a.cp0, reg, v);
    hide Assigned, UpdateIrqFlag, ClearIrq;
    HarmlessAssignment(UpdateIrqFlag(ClearIrq(a.(log := a.log + [Wrote(reg)]), 7)).cp0, reg, v);
  }

  lemma HarmlessAssignment(cp: Cp0, reg: CpReg, v: u32)
    ensures var after := Assigned(cp, reg, v);
            Harmless(Wrote(reg)) ==>
              after.status == cp.status && after.epc == cp.epc && after.cause.bd == cp.cause.bd
  {
    hide HiOf, LoOf, StatusOf, CauseOf, ConfigOf;
  }

  lemma AcknowledgeShape(a: Arch)
    ensures var b := UpdateIrqFlag(ClearIrq(a, 7));
            && b.log == a.log && b.gpr == a.gpr && b.mem == a.mem && b.llBit == a.llBit && b.tlb == a.tlb
            && b.cp0.status == a.cp0.status && b.cp0.epc == a.cp0.epc && b.cp0.cause.bd == a.cp0.cause.bd
  {
    hide HasLine, Meet;
  }

  lemma MoveFollows(a: Arch, reg: CpReg, v: u32)
    requires ArchOk(a)
    ensures Follows(a, MoveToCp0(a, reg, v))
  {
    LinkAfter(a.log, Wrote(reg));
    MoveShape(a, reg, v);
    hide LinkLive, MoveToCp0, StoredOk;
    assert (a.log + [Wrote(reg)])[|a.log|] == Wrote(reg);
  }

  lemma WriteFollows(a: Arch, i: nat)
    requires ArchOk(a)
    ensures Follows(a, TlbWriteAt(a, i))
  {
    SilentFollows(a, TlbWriteAt(a, i));
  }

  // Everything but memory instructions, MTC0 and ERET adds no note.
  lemma ExecuteFollows(env: Env, a: Arch, insn: Insn, random: nat)
    requires ArchOk(a)
    ensures Follows(a, Execute(env, a, insn, random).0)
  {
    hide Follows, DoMem, MoveToCp0, ReturnFromException, Raise, TlbWriteAt, TlbProbe, TlbRead, Link, Taken;
    match insn
    case Mem(op, base, rt, offset) => MemFollows(env, a, op, Wrap(a.gpr[base] + offset), rt);
    case Mtc0(src, reg) => MoveFollows(a, reg, a.gpr[src]);
    case Eret => ReturnFollows(a);
    case Syscall => RaiseFollows(a, SYSCALL, a.inSlot);
    case Break => RaiseFollows(a, BREAKPOINT, false);
    case Trap(_, _, _) => RaiseFollows(a, TRAP, false); NothingFollows(a);
    case Fpu => FpuFollows(env, a);
    case Tlbp => ProbeFollows(a);
    case Tlbr => ReadFollows(a);
    case Tlbwi => WriteFollows(a, WriteIndex(a, random));
    case Tlbwr => WriteFollows(a, random);
    case Compute(_) | Br(_) | Unknown => PlainFollows(env, a, insn, random);
  }

  lemma PlainFollows(env: Env, a: Arch, insn: Insn, random: nat)
    requires ArchOk(a) && (insn.Compute? || insn.Br? || insn.Unknown?)
    ensures Follows(a, Execute(env, a, insn, random).0)
  {
    PlainShape(env, a, insn, random);
    hide Follows, Execute, StoredOk;
    SilentFollows(a, Execute(env, a, insn, random).0);
  }

  lemma PlainShape(env: Env, a: Arch, insn: Insn, random: nat)
    requires ArchOk(a) && (insn.Compute? || insn.Br? || insn.Unknown?)
    ensures var b := Execute(env, a, insn, random).0;
            b == a.(gpr := b.gpr, hi := b.hi, lo := b.lo, pc := b.pc, stop := b.stop)
  {
    hide Taken;
    if insn.Br? { LinkShape(a, insn.b); }
  }

  lemma LinkShape(a: Arch, b: Branch)
    requires ArchOk(a)
    ensures Link(a, b) == a.(gpr := Link(a, b).gpr)
  {}

  lemma FpuFollows(env: Env, a: Arch)
    requires ArchOk(a)
    ensures Follows(a, Execute(env, a, Fpu, 0).0)
  {
    hide Follows, Raise;
    var ca := a.cp0.cause;
    var marked := a.(cp0 := a.cp0.(cause := ca.(ce := if ca.ce % 2 == 0 then ca.ce + 1 else ca.ce)));
    SilentFollows(a, marked);
    RaiseFollows(marked, CP_UNUSABLE, a.inSlot);
    FollowsTrans(a, marked, Execute(env, a, Fpu, 0).0);
  }

  lemma ProbeFollows(a: Arch)
    requires ArchOk(a)
    ensures Follows(a, TlbProbe(a))
  {
    hide Probe, Follows;
    SilentFollows(a, TlbProbe(a));
  }

  lemma ReadFollows(a: Arch)
    requires ArchOk(a)
    ensures Follows(a, TlbRead(a))
  {
    hide Follows;
    SilentFollows(a, TlbRead(a));
  }

  lemma FetchFollows(env: Env, a: Arch, at: u32)
    requires ArchOk(a)
    ensures Follows(a, Fetch(env, a, at).0)
  {
    hide Follows, Resolve, ReadMem, SameLink;
    AccessFollows(env, a, Page(at), LW, false);
    var b, c := Resolve(env, a, Page(at), false).0, Fetch(env, a, at).0;
    SilentFollows(b, c);
    FollowsTrans(a, b, c);
  }

  lemma SlotFollows(env: Env, a: Arch, random: nat)
    requires ArchOk(a)
    ensures Follows(a, ExecuteSlot(env, a, random).0)
  {
    hide Follows, Fetch, Execute;
    var s := a.(inSlot := true);
    SilentFollows(a, s);
    FetchFollows(env, s, Wrap(a.pc + 4));
    var (b, word) := Fetch(env, s, Wrap(a.pc + 4));
    FollowsTrans(a, s, b);
    var c := b;
    if word.Some? {
      ExecuteFollows(env, b, env.decode(word.value), random);
      c := Execute(env, b, env.decode(word.value), random).0;
      FollowsTrans(a, b, c);
    }
    SilentFollows(c, c.(inSlot := false));
    FollowsTrans(a, c, c.(inSlot := false));
  }

  lemma BranchFollows(env: Env, a: Arch, b: Branch, random: nat)
    requires ArchOk(a)
    ensures Follows(a, ExecuteBranch(env, a, b, random))
  {
    hide Follows, ExecuteSlot, Taken, Target;
    var l := Link(a, b);
    SilentFollows(a, l);
    SilentFollows(l, l.(pc := Wrap(a.pc + 8)));
    SlotFollows(env, l, random);
    var c := ExecuteSlot(env, l, random).0;
    var d := ExecuteBranch(env, a, b, random);
    FollowsTrans(a, l, l.(pc := Wrap(a.pc + 8)));
    FollowsTrans(a, l, c);
    SilentFollows(c, c.(pc := d.pc));
    FollowsTrans(a, c, c.(pc := d.pc));
  }

  lemma TriggerFollows(a: Arch)
    requires ArchOk(a)
    ensures Follows(a, TriggerIrq(a))
  {
    hide Follows, Raise, Meet;
    var b := UpdateIrqFlag(a);
    SilentFollows(a, b);
    if b.irqPending {
      RaiseFollows(b, INTERRUPT, false);
      FollowsTrans(a, b, TriggerIrq(a));
    }
  }

  lemma StepFollows(env: Env, a: Arch, random: nat)
    requires ArchOk(a)
    ensures Follows(a, Step(env, a, random))
  {
    hide Follows, Fetch, Execute, ExecuteBranch, TriggerIrq;
    var z := SetGpr(a, 0, 0);
    SilentFollows(a, a);
    SilentFollows(a, z);
    TriggerFollows(z);
    FetchFollows(env, z, z.pc);
    var (b, word) := Fetch(env, z, z.pc);
    FollowsTrans(a, z, b);
    FollowsTrans(a, z, TriggerIrq(z));
    if word.Some? {
      var insn := env.decode(word.value);
      if insn.Br? {
        BranchFollows(env, b, insn.b, random);
        FollowsTrans(a, b, ExecuteBranch(env, b, insn.b, random));
      } else {
        ExecuteFollows(env, b, insn, random);
        var c := Execute(env, b, insn, random).0;
        FollowsTrans(a, b, c);
        SilentFollows(c, c.(pc := Wrap(c.pc + 4)));
        FollowsTrans(a, c, c.(pc := Wrap(c.pc + 4)));
      }
    }
  }

  lemma ReactFollows(env: Env, a: Arch, ev: Event)
    requires ArchOk(a)
    ensures Follows(a, React(env, a, ev))
  {
    hide Follows, Step, Meet, HasLine;
    match ev
    case Tick(random) => StepFollows(env, a, random);
    case _ => SilentFollows(a, React(env, a, ev));
  }

  lemma {:induction false} RunFollows(env: Env, a: Arch, events: seq<Event>)
    requires ArchOk(a)
    ensures Follows(a, Run(env, a, events))
    decreases |events|
  {
    hide Follows, React;
    if events == [] {
      SilentFollows(a, a);
    } else {
      var b := React(env, a, events[0]);
      ReactFollows(env, a, events[0]);
      RunFollows(env, b, events[1..]);
      FollowsTrans(a, b, Run(env, a, events));
    }
  }

  // ------------------------------------------------------------ main results

  // Inside a handler that returns from nothing and leaves Status, Cause and EPC
  // alone, no event, nested exceptions included, changes EPC, BD or Status.
  lemma NestedExceptionsKeepState(env: Env, a: Arch, events: seq<Event>)
    requires ArchOk(a) && a.cp0.status.exl && Quiet(a, Run(env, a, events))
    ensures var b := Run(env, a, events);
            && b.cp0.epc == a.cp0.epc && b.cp0.cause.bd == a.cp0.cause.bd
            && b.cp0.status.exl && (!a.cp0.status.erl ==> b.cp0.status == a.cp0.status)
  {
    RunFollows(env, a, events);
  }

  // Any exception, then any such handler, then ERET: control is back where the
  // exception was taken and Status is what it was.
  lemma ReturnRestores(env: Env, a: Arch, code: nat, slot: bool, events: seq<Event>)
    requires ArchOk(a) && !a.cp0.status.exl && !a.cp0.status.erl
    requires Quiet(Raise(a, code, slot), Run(env, Raise(a, code, slot), events))
    ensures var b := ReturnFromException(Run(env, Raise(a, code, slot), events));
            b.pc == a.pc && b.cp0.status == a.cp0.status
  {
    NestedExceptionsKeepState(env, Raise(a, code, slot), events);
  }

  // Over every run the link bit is set if and only if some LL completed and no
  // store, CACHE operation or ERET ran after it.
  lemma LinkBitIsHistory(env: Env, a: Arch, events: seq<Event>)
    requires ArchOk(a) && LinkOk(a)
    ensures LinkOk(Run(env, a, events))
  {
    RunFollows(env, a, events);
  }

  // Hence, at the end of any run, an SC succeeds exactly then. With the link dead
  // it returns 0 and changes nothing else, whatever its address, and without an
  // exception. With the link alive it stores the register and returns 1 at an
  // address in memory, and elsewhere leaves memory alone.
  lemma StoreConditionalExact(env: Env, a: Arch, events: seq<Event>, base: Reg, rt: Reg, offset: int)
    requires ArchOk(a) && LinkOk(a) && rt != 0
    ensures var b := Run(env, a, events);
            var (c, res) := Execute(env, b, Mem(SC, base, rt, offset), 0);
            var (d, acc) := AccessMem(env, b, Wrap(b.gpr[base] + offset), SC, true);
            && (!LinkLive(b.log) ==>
                  !res && c == SetGpr(b, rt, 0).(log := b.log + [Ran(SC, true)]))
            && (LinkLive(b.log) && acc.Ram? ==>
                  && !res && c.gpr == b.gpr[rt := 1]
                  && c.mem == WriteMem(env.bigEndian, b.mem, acc.p, 4, b.gpr[rt]))
            && (LinkLive(b.log) && acc.Io? ==> c.mem == b.mem && (!res ==> c.gpr == b.gpr[rt := 1]))
            && (LinkLive(b.log) && acc.Fault? ==> res && c == d.(log := d.log + [Ran(SC, false)]))
  {
    hide Run, AccessMem, LinkLive;
    LinkBitIsHistory(env, a, events);
    ConditionalStores(env, Run(env, a, events), base, rt, offset);
  }

  lemma AccessStays(env: Env, a: Arch, v: u32, op: MemOp, write: bool)
    ensures var (b, acc) := AccessMem(env, a, v, op, write); !acc.Fault? ==> b == a
  {
    hide Locate, RaiseAt, Misaligned;
  }

  lemma ConditionalStores(env: Env, b: Arch, base: Reg, rt: Reg, offset: int)
    requires ArchOk(b) && rt != 0
    ensures var (c, res) := Execute(env, b, Mem(SC, base, rt, offset), 0);
            var (d, acc) := AccessMem(env, b, Wrap(b.gpr[base] + offset), SC, true);
            && (!b.llBit ==> !res && c == SetGpr(b, rt, 0).(log := b.log + [Ran(SC, true)]))
            && (b.llBit && acc.Ram? ==>
                  && !res && c.gpr == b.gpr[rt := 1]
                  && c.mem == WriteMem(env.bigEndian, b.mem, acc.p, 4, b.gpr[rt]))
            && (b.llBit && acc.Io? ==> c.mem == b.mem && (!res ==> c.gpr == b.gpr[rt := 1]))
            && (b.llBit && acc.Fault? ==> res && c == d.(log := d.log + [Ran(SC, false)]))
  {
    hide AccessMem, WriteMem, CallHandler;
    var v := Wrap(b.gpr[base] + offset);
    AccessStays(env, b, v, SC, true);
    var acc := AccessMem(env, b, v, SC, true).1;
    if acc.Io? { HandlerShape(env, b, acc, SC, true, b.gpr[rt]); }
  }

  // From an LL to the next successful SC, guest stores leave memory unchanged.
  lemma LinkGuardsMemory(env: Env, a: Arch, events: seq<Event>)
    requires ArchOk(a) && LinkOk(a) && NoLinkTaken(a, Run(env, a, events)) && LinkLive(Run(env, a, events).log)
    ensures Run(env, a, events).mem == a.mem
  {
    RunFollows(env, a, events);
  }

  // TLBR then TLBWI at the same index restores the entry, in every state that
  // any run reaches from one whose stored entries are in order, as at reset.
  lemma ReadThenWriteRestores(env: Env, a: Arch, events: seq<Event>, random: nat)
    requires ArchOk(a) && StoredOk(a.tlb) && |a.tlb| <= 0x8000_0000
    ensures var b := Run(env, a, events);
            b.cp0.index < |b.tlb| ==>
              var c := TlbRead(b);
              TlbWriteAt(c, WriteIndex(c, random)) == c
  {
    RunFollows(env, a, events);
    var b := Run(env, a, events);
    if b.cp0.index < |b.tlb| {
      RoundTrip(b, random);
    }
  }

  lemma RoundTrip(b: Arch, random: nat)
    requires StoredOk(b.tlb) && |b.tlb| <= 0x8000_0000 && b.cp0.index < |b.tlb|
    ensures var c := TlbRead(b); TlbWriteAt(c, WriteIndex(c, random)) == c
  {
    var c := TlbRead(b);
    assert NewEntry(c.cp0) == b.tlb[b.cp0.index];
    assert c.tlb[b.cp0.index := NewEntry(c.cp0)] == c.tlb;
  }

  // TLBP and address translation find the same entry for every address whose
  // page pair EntryHi names, and it is the first that matches; or both miss.
  lemma ProbeAgreesWithTranslation(a: Arch, v: u32)
    requires a.cp0.entryHi.vpn2 == v / 0x2000 && |a.tlb| <= 0x8000_0000
    ensures var i := TlbProbe(a).cp0.index;
            var hit := Lookup(a.tlb, v / 0x1000, a.cp0.entryHi.asid);
            && (i == 0x8000_0000 <==> hit.None?)
            && (hit.Some? ==> i < |a.tlb| && hit.value == HitOf(a.tlb[i], v / 0x1000))
            && (forall j | 0 <= j < |a.tlb| && j < i :: !Matches(a.tlb[j], v / 0x2000, a.cp0.entryHi.asid))
            && (hit.Some? ==> Matches(a.tlb[i], v / 0x2000, a.cp0.entryHi.asid))
  {
    assert v / 0x1000 / 2 == v / 0x2000;
  }
}

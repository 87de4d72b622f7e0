// Exceptions in delay slots can be restarted, interrupts are gated, and a
// faulting fetch wedges the one-page cache in exactly one situation.
module Restart {
  import opened Wrappers
  import opened Machine
  import opened Runs
  import opened CpuModel

  // The machine as the branch at pc runs: $zero cleared, the branch fetched.
  function AtBranch(env: Env, a: Arch): (r: Arch)
    requires ArchOk(a)
    ensures ArchOk(r)
  {
    var z := SetGpr(a, 0, 0);
    z.(codePage := Page(a.pc))
  }

  predicate FetchesBranch(env: Env, a: Arch, b: Branch)
    requires ArchOk(a)
  {
    && a.stop == Running && !a.irqPending
    && var (c, word) := Fetch(env, SetGpr(a, 0, 0), a.pc);
       word.Some? && env.decode(word.value) == Br(b)
  }

  lemma FetchKeepsState(env: Env, a: Arch, at: u32)
    requires Fetch(env, a, at).1.Some?
    ensures Fetch(env, a, at).0 == a.(codePage := Page(at))
  {
    hide Locate, ReadMem;
  }

  // The delay slot took an exception: the exception level, clear before, is
  // set, and the slot reports that normal flow is off.
  predicate SlotFaults(env: Env, l: Arch, random: nat)
    requires ArchOk(l)
  {
    var (c, res) := ExecuteSlot(env, l, random);
    !l.cp0.status.exl && res && c.stop == Running && c.cp0.status.exl
  }

  // BREAK and traps do not tell the exception that they sit in a slot.
  predicate SlotIsBreakOrTrap(env: Env, l: Arch)
    requires ArchOk(l)
  {
    var (b, word) := Fetch(env, l.(inSlot := true), Wrap(l.pc + 4));
    word.Some? && (var i := env.decode(word.value); i.Break? || i.Trap?)
  }

  // The vector of every exception but an interrupt.
  function GeneralVector(bev: bool): u32 { if bev then 0xbfc0_0380 else 0x8000_0180 }

  // The state an exception leaves behind when it hits code at `l`.
  predicate Interrupted(l: Arch, c: Arch, slot: bool) {
    && c.pc == GeneralVector(l.cp0.status.bev)
    && c.cp0.epc == l.pc && c.cp0.cause.bd == slot && c.cp0.status.exl
    && c.gpr == l.gpr && c.mem == l.mem
  }

  lemma RaiseInterrupts(l: Arch, code: nat, slot: bool)
    requires !l.cp0.status.exl && code != INTERRUPT
    ensures Interrupted(l, Raise(l, code, slot), slot)
  {}

  lemma RaiseAtInterrupts(l: Arch, v: u32, code: nat)
    requires !l.cp0.status.exl && code != INTERRUPT
    ensures Interrupted(l, RaiseAt(l, v, code), l.inSlot)
  {}

  lemma NotesDoNotMatter(l: Arch, c: Arch, slot: bool, log: seq<Note>)
    ensures Interrupted(l, c.(log := log), slot) == Interrupted(l, c, slot)
  {}

  // An instruction either completes with the exception state untouched, or
  // takes an exception cleanly, or stops the machine.
  predicate Clean(l: Arch, c: Arch, res: bool) {
    if res then c.stop != Running || Interrupted(l, c, l.inSlot) else c.cp0 == l.cp0 && c.pc == l.pc
  }

  lemma AccessClean(env: Env, l: Arch, v: u32, op: MemOp, write: bool)
    requires !l.cp0.status.exl
    ensures var (c, acc) := Resolve(env, l, v, write);
            if acc.Fault? then Clean(l, c, true) else c == l
    ensures var (c, acc) := AccessMem(env, l, v, op, write);
            if acc.Fault? then Clean(l, c, true) else c == l
  {
    hide Locate, Interrupted, RaiseAt, Misaligned;
    forall code: nat | code != INTERRUPT
      ensures Interrupted(l, RaiseAt(l, v, code), l.inSlot)
    {
      RaiseAtInterrupts(l, v, code);
    }
  }

  lemma DoneClean(l: Arch, c: Arch)
    requires c.cp0 == l.cp0 && c.pc == l.pc
    ensures Clean(l, c, false)
  {}

  lemma StoppedClean(l: Arch, c: Arch)
    requires c.stop != Running
    ensures Clean(l, c, true)
  {}

  lemma LoadClean(env: Env, l: Arch, op: MemOp, v: u32, rt: Reg)
    requires ArchOk(l) && !l.cp0.status.exl
    ensures var (c, res) := DoLoad(env, l, op, v, rt); Clean(l, c, res)
  {
    hide AccessMem, Resolve, Clean, ReadMem, Extend;
    AccessClean(env, l, v, op, false);
    var (b, acc) := AccessMem(env, l, v, op, false);
    var (c, res) := DoLoad(env, l, op, v, rt);
    match acc
    case Fault =>
    case Ram(_) => DoneClean(l, c);
    case Io(_, _) => if res { StoppedClean(l, c); } else { DoneClean(l, c); }
  }

  lemma LoadPartClean(env: Env, l: Arch, op: MemOp, v: u32, rt: Reg)
    requires ArchOk(l) && !l.cp0.status.exl
    ensures var (c, res) := DoLoadPart(env, l, op, v, rt); Clean(l, c, res)
  {
    hide AccessMem, Resolve, Clean, ReadMem, LoadPart;
    AccessClean(env, l, v - v % 4, op, false);
    var (b, acc) := AccessMem(env, l, v - v % 4, op, false);
    var c := DoLoadPart(env, l, op, v, rt).0;
    match acc
    case Fault =>
    case Ram(_) => DoneClean(l, c);
    case Io(_, _) =>
      var (d, reply) := CallHandler(env, b, acc, op, false, 0);
      match reply
      case NoReply => StoppedClean(l, d.(stop := NoData));
      case Value(_) => DoneClean(l, d);
      case Window(w) => DoneClean(l, SetGpr(d, rt, LoadPart(op, env.bigEndian, v, d.gpr[rt], w)));
  }

  lemma BreakLinkClean(l: Arch, c: Arch)
    requires Clean(BreakLink(l), c, true)
    ensures Clean(l, c, true)
  {}

  lemma StoreClean(env: Env, l: Arch, op: MemOp, v: u32, rt: Reg)
    requires ArchOk(l) && !l.cp0.status.exl
    ensures var (c, res) := DoStore(env, l, op, v, rt); Clean(l, c, res)
  {
    hide AccessMem, Resolve, WriteMem, Clean;
    AccessClean(env, BreakLink(l), v, op, true);
    var (c, res) := DoStore(env, l, op, v, rt);
    if AccessMem(env, BreakLink(l), v, op, true).1.Fault? {
      BreakLinkClean(l, c);
    } else {
      if res { StoppedClean(l, c); } else { DoneClean(l, c); }
    }
  }

  lemma StorePartClean(env: Env, l: Arch, op: MemOp, v: u32, rt: Reg)
    requires ArchOk(l) && !l.cp0.status.exl
    ensures var (c, res) := DoStorePart(env, l, op, v, rt); Clean(l, c, res)
  {
    hide AccessMem, Resolve, ReadMem, WriteMem, StorePart, Clean;
    AccessClean(env, BreakLink(l), v - v % 4, op, true);
    var (c, res) := DoStorePart(env, l, op, v, rt);
    if AccessMem(env, BreakLink(l), v - v % 4, op, true).1.Fault? {
      BreakLinkClean(l, c);
    } else {
      if res { StoppedClean(l, c); } else { DoneClean(l, c); }
    }
  }

  lemma ConditionalClean(env: Env, l: Arch, v: u32, rt: Reg)
    requires ArchOk(l) && !l.cp0.status.exl
    ensures var (c, res) := DoStoreConditional(env, l, v, rt); Clean(l, c, res)
  {
    hide AccessMem, Resolve, WriteMem, Clean;
    AccessClean(env, l, v, SC, true);
    var (c, res) := DoStoreConditional(env, l, v, rt);
    if !l.llBit || !AccessMem(env, l, v, SC, true).1.Fault? {
      if res { StoppedClean(l, c); } else { DoneClean(l, c); }
    }
  }

  lemma MemClean(env: Env, l: Arch, op: MemOp, v: u32, rt: Reg)
    requires ArchOk(l) && !l.cp0.status.exl
    ensures var (c, res) := DoMem(env, l, op, v, rt); Clean(l, c, res)
  {
    hide DoLoad, DoLoadPart, DoStore, DoStorePart, DoStoreConditional, Interrupted;
    DoneClean(l, BreakLink(l));
    LoadClean(env, l, op, v, rt);
    LoadPartClean(env, l, op, v, rt);
    StoreClean(env, l, op, v, rt);
    StorePartClean(env, l, op, v, rt);
    ConditionalClean(env, l, v, rt);
  }

  lemma FpuInterrupts(env: Env, l: Arch)
    requires ArchOk(l) && !l.cp0.status.exl
    ensures Interrupted(l, Execute(env, l, Fpu, 0).0, l.inSlot)
  {
    hide Raise;
    var ca := l.cp0.cause;
    RaiseInterrupts(l.(cp0 := l.cp0.(cause := ca.(ce := if ca.ce % 2 == 0 then ca.ce + 1 else ca.ce))), CP_UNUSABLE, l.inSlot);
  }

  // Whatever instruction turns normal flow off and leaves the exception level
  // set has been interrupted.
  lemma ExecuteInterrupts(env: Env, l: Arch, insn: Insn, random: nat)
    requires ArchOk(l) && !l.cp0.status.exl
    ensures var (c, res) := Execute(env, l, insn, random);
            res && c.stop == Running && c.cp0.status.exl ==>
              Interrupted(l, c, l.inSlot && !insn.Break? && !insn.Trap?)
  {
    hide DoMem, Raise, Interrupted, MoveToCp0, Probe, TlbRead, NewEntry, Taken;
    match insn
    case Mem(op, base, rt, offset) =>
      MemClean(env, l, op, Wrap(l.gpr[base] + offset), rt);
      var (c, res) := DoMem(env, l, op, Wrap(l.gpr[base] + offset), rt);
      NotesDoNotMatter(l, c, l.inSlot, c.log + [Ran(op, !res)]);
    case Syscall => RaiseInterrupts(l, SYSCALL, l.inSlot);
    case Break => RaiseInterrupts(l, BREAKPOINT, false);
    case Trap(_, _, _) => RaiseInterrupts(l, TRAP, false);
    case Fpu => FpuInterrupts(env, l);
    case _ =>
  }

  // In a slot, whatever sets the exception level by faulting names the branch.
  lemma SlotFaultNamesBranch(env: Env, l: Arch, random: nat)
    requires ArchOk(l) && SlotFaults(env, l, random)
    ensures Interrupted(l, ExecuteSlot(env, l, random).0, !SlotIsBreakOrTrap(env, l))
  {
    hide Resolve, AccessMem, ReadMem, Execute, GeneralVector;
    var s := l.(inSlot := true);
    var at := Wrap(l.pc + 4);
    AccessClean(env, s, Page(at), LW, false);
    var (b, word) := Fetch(env, s, at);
    if word.Some? {
      FetchKeepsState(env, s, at);
      ExecuteInterrupts(env, b, env.decode(word.value), random);
    }
  }

  // ------------------------------------------------------------- main results

  predicate Obeys(b: Branch) { !(b.Cond? && b.style == LikelyIgnored) }

  // A branch whose slot faults has only written its link register: EPC names
  // the branch, BD says so, and control is at the general vector. Only the
  // branch-likely forms that ignore the slot's result lose the exception and
  // go on at their target.
  lemma SlotFaultIsPrecise(env: Env, a: Arch, b: Branch, random: nat)
    requires ArchOk(a) && FetchesBranch(env, a, b)
    requires SlotRuns(AtBranch(env, a), b) && SlotFaults(env, Link(AtBranch(env, a), b), random)
    ensures var l := Link(AtBranch(env, a), b);
            var r := Step(env, a, random);
            && r.cp0.epc == a.pc && r.cp0.status.exl && r.gpr == l.gpr && r.mem == a.mem
            && (r.cp0.cause.bd <==> !SlotIsBreakOrTrap(env, l))
            && r.pc == (if Obeys(b) then GeneralVector(a.cp0.status.bev) else Target(b, l.gpr, a.pc))
  {
    hide Fetch, ExecuteSlot, SlotIsBreakOrTrap, Taken, Target, GeneralVector;
    FetchKeepsState(env, SetGpr(a, 0, 0), a.pc);
    SlotFaultNamesBranch(env, Link(AtBranch(env, a), b), random);
  }

  // Registers a branch reads.
  function Sources(b: Branch): set<Reg> {
    match b
    case J(_, _) => {}
    case Jr(rs, _) => {rs}
    case Cond(_, rs, rt, _, _, _) => {rs, rt}
  }

  lemma SameDecision(b: Branch, g: seq<u32>, h: seq<u32>, pc: u32)
    requires |g| == |h| == 32 && forall r | r in Sources(b) :: g[r] == h[r]
    ensures Taken(b, g) == Taken(b, h) && Target(b, g, pc) == Target(b, h, pc)
  {}

  // Delay-slot exceptions are restartable: after any handler that leaves EPC
  // and Status alone and restores the registers the branch reads, ERET goes
  // back to the branch, which then decides the same way and aims at the same
  // target. This holds even if the link register is a source, for the link is
  // written before the sources are read, both times.
  lemma SlotFaultRestarts(env: Env, a: Arch, b: Branch, random: nat, events: seq<Event>)
    requires ArchOk(a) && FetchesBranch(env, a, b) && Obeys(b) && !a.cp0.status.erl
    requires SlotRuns(AtBranch(env, a), b) && SlotFaults(env, Link(AtBranch(env, a), b), random)
    requires var r := Step(env, a, random);
             var h := Run(env, r, events);
             Quiet(r, h) && !h.cp0.status.erl && forall s | s in Sources(b) :: h.gpr[s] == r.gpr[s]
    ensures var back := ReturnFromException(Run(env, Step(env, a, random), events));
            var before, again := Link(AtBranch(env, a), b), Link(AtBranch(env, back), b);
            && back.pc == a.pc
            && Taken(b, again.gpr) == Taken(b, before.gpr)
            && Target(b, again.gpr, back.pc) == Target(b, before.gpr, a.pc)
  {
    hide Step, Run, React, Quiet, SlotFaults, FetchesBranch, Taken, Target, GeneralVector;
    SlotFaultIsPrecise(env, a, b, random);
    var r := Step(env, a, random);
    NestedExceptionsKeepState(env, r, events);
    var back := ReturnFromException(Run(env, r, events));
    SameDecision(b, Link(AtBranch(env, a), b).gpr, Link(AtBranch(env, back), b).gpr, a.pc);
  }

  // The branch in a slot enters a slot of its own, which again holds a branch,
  // and so on, at least `n` levels deep.
  predicate Deep(env: Env, a: Arch, b: Branch, n: nat)
    requires ArchOk(a)
    decreases n
  {
    n == 0 ||
    (SlotRuns(a, b) &&
     var l := Link(a, b).(inSlot := true);
     var (c, word) := Fetch(env, l, Wrap(l.pc + 4));
     && word.Some? && env.decode(word.value).Br?
     && ArchOk(c) && Deep(env, c, env.decode(word.value).b, n - 1))
  }

  // The slot is fetched from the same place whatever the registers hold.
  lemma SameWord(env: Env, a: Arch, g: seq<u32>, at: u32)
    requires Fetch(env, a, at).1.Some?
    ensures var c := a.(gpr := g, inSlot := true);
            Fetch(env, c, at) == (c.(codePage := Page(at)), Fetch(env, a, at).1)
  {
    hide Locate, ReadMem;
  }

  lemma LinkTwice(a: Arch, b: Branch)
    requires ArchOk(a)
    ensures Link(Link(a, b), b).gpr == Link(a, b).gpr
  {}

  // Each level finds the same branch, the same registers and the same decision.
  lemma {:induction false} EveryLevel(env: Env, a: Arch, b: Branch, n: nat)
    requires ArchOk(a) && SlotRuns(a, b)
    requires var word := Fetch(env, a, Wrap(a.pc + 4)).1; word.Some? && env.decode(word.value) == Br(b)
    ensures Deep(env, a, b, n)
    decreases n
  {
    hide Fetch, Taken, Page;
    if n > 0 {
      var at := Wrap(a.pc + 4);
      var l := Link(a, b);
      LinkTwice(a, b);
      LinkShape(a, b);
      SameWord(env, a, l.gpr, at);
      var c := l.(inSlot := true, codePage := Page(at));
      assert Fetch(env, l.(inSlot := true), at) == (c, Fetch(env, a, at).1);
      LinkShape(c, b);
      assert Link(c, b).gpr == Link(l, b).gpr;
      SameWord(env, a, c.gpr, at);
      FetchIgnoresPage(env, l.(inSlot := true), at);
      EveryLevel(env, c, b, n - 1);
    }
  }

  lemma FetchIgnoresPage(env: Env, a: Arch, at: u32)
    requires Fetch(env, a, at).1.Some?
    ensures Fetch(env, a.(codePage := Page(at)), at).1 == Fetch(env, a, at).1
  {
    hide Locate, ReadMem;
  }

  // A branch in a delay slot that is not skipped calls itself without end, and
  // one that is skipped not once; the machine stops exactly at the first.
  lemma NestedBranchNeverReturns(env: Env, a: Arch, b: Branch, random: nat)
    requires ArchOk(a) && a.stop == Running
    requires var word := Fetch(env, a.(inSlot := true), Wrap(a.pc + 4)).1;
             word.Some? && env.decode(word.value) == Br(b)
    ensures var c := a.(inSlot := true, codePage := Page(Wrap(a.pc + 4)));
            && (forall n: nat | n > 0 :: Deep(env, c, b, n) <==> SlotRuns(c, b))
            && (ExecuteSlot(env, a, random).0.stop == NestedBranch <==> forall n: nat :: Deep(env, c, b, n))
  {
    hide Fetch, Execute, Deep, SlotRuns, Page;
    var s, at := a.(inSlot := true), Wrap(a.pc + 4);
    FetchKeepsState(env, s, at);
    FetchIgnoresPage(env, s, at);
    NestedInSlot(env, s.(codePage := Page(at)), b, random);
  }

  lemma NestedInSlot(env: Env, a: Arch, b: Branch, random: nat)
    requires ArchOk(a) && a.stop == Running
    requires var word := Fetch(env, a, Wrap(a.pc + 4)).1; word.Some? && env.decode(word.value) == Br(b)
    ensures forall n: nat | n > 0 :: Deep(env, a, b, n) <==> SlotRuns(a, b)
    ensures Execute(env, a, Br(b), random).0.stop == NestedBranch <==> forall n: nat :: Deep(env, a, b, n)
  {
    hide Fetch, Execute, Deep, SlotRuns;
    NestedStops(env, a, b, random);
    if SlotRuns(a, b) {
      forall n: nat ensures Deep(env, a, b, n) { EveryLevel(env, a, b, n); }
    } else {
      forall n: nat | n > 0 ensures !Deep(env, a, b, n) { SkippedIsNotDeep(env, a, b, n); }
      assert !Deep(env, a, b, 1);
    }
  }

  lemma NestedStops(env: Env, a: Arch, b: Branch, random: nat)
    requires ArchOk(a) && a.stop == Running
    ensures Execute(env, a, Br(b), random).0.stop == NestedBranch <==> SlotRuns(a, b)
  {
    hide Taken;
    LinkTwice(a, b);
  }

  lemma SkippedIsNotDeep(env: Env, a: Arch, b: Branch, n: nat)
    requires ArchOk(a) && !SlotRuns(a, b) && n > 0
    ensures !Deep(env, a, b, n)
  {}

  // An interrupt is taken exactly when interrupts are enabled, no exception or
  // error level is set, and an unmasked line is pending; it names the next
  // instruction, outside any slot. Otherwise the turn changes nothing but $zero
  // and the copy of the pending lines in Cause.
  lemma InterruptsAreGated(env: Env, a: Arch, random: nat)
    requires ArchOk(a) && a.stop == Running && a.irqPending
    ensures var r := Step(env, a, random);
            var st := a.cp0.status;
            var open := st.ie && !st.exl && !st.erl && Meet(a.irqCause, st.im);
            && r.gpr == a.gpr[0 := 0] && r.mem == a.mem && !r.irqPending
            && r.cp0.cause.ip == a.irqCause
            && (open ==> r.cp0.epc == a.pc && !r.cp0.cause.bd && r.cp0.cause.code == INTERRUPT
                         && r.cp0.status == st.(exl := true) && r.irqCause == 0)
            && (!open ==> r.pc == a.pc && r.cp0.epc == a.cp0.epc && r.cp0.status == st && r.irqCause == a.irqCause)
  {
    hide Meet, Vector;
  }

  // A fetch that faults leaves control at the general vector and nothing fetched.
  lemma FaultingFetch(env: Env, a: Arch, at: u32)
    requires Fetch(env, a, at).1.None?
    ensures var b := Fetch(env, a, at).0;
            b.codePage == a.codePage && (b.stop != Running || b.pc == GeneralVector(a.cp0.status.bev))
  {
    hide Locate, Page;
  }

  // The page of the last instruction fetched before a fetch faults: the one
  // that held the previous instruction, or the branch whose slot faults.
  function LastFetched(env: Env, a: Arch): u32
    requires ArchOk(a)
  {
    if Fetch(env, SetGpr(a, 0, 0), a.pc).1.None? then a.codePage else Page(a.pc)
  }

  // Where control goes after the fault: to the general vector, but on to the
  // target of a branch that ignores its slot.
  function AfterFault(env: Env, a: Arch): u32
    requires ArchOk(a)
  {
    var word := Fetch(env, SetGpr(a, 0, 0), a.pc).1;
    if word.Some? && env.decode(word.value).Br? && !Obeys(env.decode(word.value).b) then
      var b := env.decode(word.value).b;
      Target(b, Link(AtBranch(env, a), b).gpr, a.pc)
    else GeneralVector(a.cp0.status.bev)
  }

  // A faulting fetch, of an instruction or of a delay slot, leaves the processor
  // able to go on exactly when control goes on in another page than the one
  // last fetched from.
  lemma FetchFaultWedges(env: Env, a: Arch, random: nat)
    requires ArchOk(a) && FetchFaults(env, a) && Step(env, a, random).stop == Running
    ensures LeavesPage(env, a, random) <==> Page(AfterFault(env, a)) != LastFetched(env, a)
  {
    hide Fetch, Page, Target, Taken, GeneralVector;
    var z := SetGpr(a, 0, 0);
    var (b, word) := Fetch(env, z, z.pc);
    if word.None? {
      FaultingFetch(env, z, z.pc);
    } else {
      FetchKeepsState(env, z, z.pc);
      SlotFetchFault(env, b, env.decode(word.value).b, random);
    }
  }

  lemma SlotFetchFault(env: Env, a: Arch, b: Branch, random: nat)
    requires ArchOk(a) && a.stop == Running && SlotRuns(a, b)
    requires Fetch(env, Link(a, b).(inSlot := true), Wrap(a.pc + 4)).1.None?
    ensures var r := ExecuteBranch(env, a, b, random);
            r.stop == Running ==>
              && r.codePage == a.codePage
              && r.pc == if Obeys(b) then GeneralVector(a.cp0.status.bev) else Target(b, Link(a, b).gpr, a.pc)
  {
    hide Fetch, Target, Taken, GeneralVector;
    FaultingFetch(env, Link(a, b).(inSlot := true), Wrap(a.pc + 4));
  }
}

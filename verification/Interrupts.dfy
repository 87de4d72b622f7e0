// When a raised interrupt line is noticed: the pending flag is recomputed when
// a line is raised or Compare is written, and at no other time.
module Interrupts {
  import opened Wrappers
  import opened Machine
  import opened Runs

  // The machine would take an interrupt if it looked.
  predicate Accepts(a: Arch) {
    a.cp0.status.ie && !a.cp0.status.exl && !a.cp0.status.erl && Meet(a.irqCause, a.cp0.status.im)
  }

  function WithLines(a: Arch, lines: u8): Arch { a.(irqCause := lines) }

  predicate NoRaise(events: seq<Event>) { forall ev | ev in events :: !ev.RaiseLine? }

  predicate NoCompare(a: Arch, b: Arch) {
    forall i | |a.log| <= i < |b.log| :: b.log[i] != Wrote(Compare)
  }

  // The lines left after lowering some.
  function Lowered(lines: u8, events: seq<Event>): u8 {
    if events == [] then lines
    else
      var ev := events[0];
      Lowered(if ev.LowerLine? && HasLine(lines, ev.line) then lines - LineWeight(ev.line) else lines, events[1..])
  }

  // ------------------------------------------- no instruction sees the lines

  // `r` is what the same operation makes of the same machine with other lines.
  predicate Blind(a: Arch, b: Arch, r: Arch, lines: u8) {
    r == WithLines(b, lines) && b.irqCause == a.irqCause && (!a.irqPending ==> !b.irqPending) && |b.gpr| == |a.gpr|
  }

  lemma RaiseBlind(a: Arch, lines: u8, code: nat, slot: bool)
    requires code != INTERRUPT
    ensures Blind(a, Raise(a, code, slot), Raise(WithLines(a, lines), code, slot), lines)
  {
    hide Vector;
  }

  lemma RaiseAtBlind(a: Arch, lines: u8, v: u32, code: nat)
    requires code != INTERRUPT
    ensures Blind(a, RaiseAt(a, v, code), RaiseAt(WithLines(a, lines), v, code), lines)
  {
    hide Vector;
  }

  lemma AccessBlind(env: Env, a: Arch, lines: u8, v: u32, op: MemOp, write: bool)
    ensures var (b, acc) := Resolve(env, a, v, write);
            var (c, same) := Resolve(env, WithLines(a, lines), v, write);
            same == acc && Blind(a, b, c, lines)
    ensures var (b, acc) := AccessMem(env, a, v, op, write);
            var (c, same) := AccessMem(env, WithLines(a, lines), v, op, write);
            same == acc && Blind(a, b, c, lines)
  {
    hide Locate, RaiseAt, Misaligned;
    forall code: nat | code != INTERRUPT
      ensures Blind(a, RaiseAt(a, v, code), RaiseAt(WithLines(a, lines), v, code), lines)
    {
      RaiseAtBlind(a, lines, v, code);
    }
  }

  lemma DeliverBlind(env: Env, a: Arch, lines: u8, acc: Access, op: MemOp, data: u32)
    requires ArchOk(a)
    ensures var (b, res) := Deliver(env, a, acc, op, data);
            var (c, same) := Deliver(env, WithLines(a, lines), acc, op, data);
            same == res && Blind(a, b, c, lines)
  {
    hide WriteMem;
  }

  lemma LoadBlind(env: Env, a: Arch, lines: u8, op: MemOp, v: u32, rt: Reg)
    requires ArchOk(a)
    ensures var (b, res) := DoLoad(env, a, op, v, rt);
            var (c, same) := DoLoad(env, WithLines(a, lines), op, v, rt);
            same == res && Blind(a, b, c, lines)
  {
    hide AccessMem, ReadMem, Extend;
    AccessBlind(env, a, lines, v, op, false);
  }

  lemma LoadPartBlind(env: Env, a: Arch, lines: u8, op: MemOp, v: u32, rt: Reg)
    requires ArchOk(a)
    ensures var (b, res) := DoLoadPart(env, a, op, v, rt);
            var (c, same) := DoLoadPart(env, WithLines(a, lines), op, v, rt);
            same == res && Blind(a, b, c, lines)
  {
    hide AccessMem, Blind, WithLines, CompleteLoadPart;
    var w: u32 := v - v % 4;
    AccessBlind(env, a, lines, w, op, false);
    var (b, acc) := AccessMem(env, a, w, op, false);
    CompleteLoadBlind(env, a, b, AccessMem(env, WithLines(a, lines), w, op, false).0, lines, acc, op, v, rt);
  }

  lemma CompleteLoadBlind(env: Env, a: Arch, b: Arch, c: Arch, lines: u8, acc: Access, op: MemOp, v: u32, rt: Reg)
    requires Blind(a, b, c, lines) && ArchOk(a)
    ensures var (d, res) := CompleteLoadPart(env, b, acc, op, v, rt);
            var (e, same) := CompleteLoadPart(env, c, acc, op, v, rt);
            same == res && Blind(a, d, e, lines)
  {
    hide LoadPart, ReadMem;
  }

  lemma StoreBlind(env: Env, a: Arch, lines: u8, op: MemOp, v: u32, rt: Reg)
    requires ArchOk(a)
    ensures var (b, res) := DoStore(env, a, op, v, rt);
            var (c, same) := DoStore(env, WithLines(a, lines), op, v, rt);
            same == res && Blind(a, b, c, lines)
  {
    hide AccessMem, Deliver;
    AccessBlind(env, BreakLink(a), lines, v, op, true);
    DeliverBlind(env, AccessMem(env, BreakLink(a), v, op, true).0, lines,
                 AccessMem(env, BreakLink(a), v, op, true).1, op, a.gpr[rt] % Pow256(Size(op)));
  }

  lemma StorePartBlind(env: Env, a: Arch, lines: u8, op: MemOp, v: u32, rt: Reg)
    requires ArchOk(a)
    ensures var (b, res) := DoStorePart(env, a, op, v, rt);
            var (c, same) := DoStorePart(env, WithLines(a, lines), op, v, rt);
            same == res && Blind(a, b, c, lines)
  {
    var w: u32 := v - v % 4;
    var s, value := BreakLink(a), a.gpr[rt];
    assert BreakLink(WithLines(a, lines)) == WithLines(s, lines) && WithLines(a, lines).gpr[rt] == value;
    StorePartAt(env, a, op, v, w, rt);
    StorePartAt(env, WithLines(a, lines), op, v, w, rt);
    hide AccessMem, Blind, WithLines, BreakLink, DoStorePart, CompleteStorePart;
    AccessBlind(env, s, lines, w, op, true);
    var (b, acc) := AccessMem(env, s, w, op, true);
    var c := AccessMem(env, WithLines(s, lines), w, op, true).0;
    UnbrokenBlind(a, b, c, lines);
    CompleteStoreBlind(env, a, b, c, lines, acc, op, v, value);
  }

  lemma StorePartAt(env: Env, a: Arch, op: MemOp, v: u32, w: u32, rt: Reg)
    requires ArchOk(a) && w == v - v % 4
    ensures var (b, acc) := AccessMem(env, BreakLink(a), w, op, true);
            ArchOk(b) && DoStorePart(env, a, op, v, rt) == CompleteStorePart(env, b, acc, op, v, a.gpr[rt])
  {
    hide AccessMem, CompleteStorePart, Follows;
    AccessFollows(env, BreakLink(a), w, op, true);
  }

  lemma CompleteStoreBlind(env: Env, a: Arch, b: Arch, c: Arch, lines: u8, acc: Access, op: MemOp, v: u32, value: u32)
    requires Blind(a, b, c, lines) && ArchOk(a)
    ensures var (d, res) := CompleteStorePart(env, b, acc, op, v, value);
            var (e, same) := CompleteStorePart(env, c, acc, op, v, value);
            same == res && Blind(a, d, e, lines)
  {
    hide WriteMem, StorePart, ReadMem;
  }

  lemma UnbrokenBlind(a: Arch, b: Arch, c: Arch, lines: u8)
    requires Blind(BreakLink(a), b, c, lines)
    ensures Blind(a, b, c, lines)
  {}

  lemma ConditionalBlind(env: Env, a: Arch, lines: u8, v: u32, rt: Reg)
    requires ArchOk(a)
    ensures var (b, res) := DoStoreConditional(env, a, v, rt);
            var (c, same) := DoStoreConditional(env, WithLines(a, lines), v, rt);
            same == res && Blind(a, b, c, lines)
  {
    hide AccessMem, Deliver;
    AccessBlind(env, a, lines, v, SC, true);
    var (b, acc) := AccessMem(env, a, v, SC, true);
    DeliverBlind(env, b, lines, acc, SC, a.gpr[rt]);
  }

  lemma MemBlind(env: Env, a: Arch, lines: u8, op: MemOp, v: u32, rt: Reg)
    requires ArchOk(a)
    ensures var (b, res) := DoMem(env, a, op, v, rt);
            var (c, same) := DoMem(env, WithLines(a, lines), op, v, rt);
            same == res && Blind(a, b, c, lines)
  {
    hide DoLoad, DoLoadLinked, DoLoadPart, DoStore, DoStorePart, DoStoreConditional, BreakLink, Blind, WithLines;
    match op
    case LL => LinkedBlind(env, a, lines, v, rt);
    case SC => ConditionalBlind(env, a, lines, v, rt);
    case CACHE => BreakBlind(a, lines);
    case LWL | LWR => LoadPartBlind(env, a, lines, op, v, rt);
    case SWL | SWR => StorePartBlind(env, a, lines, op, v, rt);
    case SB | SH | SW => StoreBlind(env, a, lines, op, v, rt);
    case _ => LoadBlind(env, a, lines, op, v, rt);
  }

  lemma LinkedBlind(env: Env, a: Arch, lines: u8, v: u32, rt: Reg)
    requires ArchOk(a)
    ensures var (b, res) := DoLoadLinked(env, a, v, rt);
            var (c, same) := DoLoadLinked(env, WithLines(a, lines), v, rt);
            same == res && Blind(a, b, c, lines)
  {
    hide DoLoad;
    LoadBlind(env, a, lines, LL, v, rt);
  }

  lemma BreakBlind(a: Arch, lines: u8)
    ensures Blind(a, BreakLink(a), BreakLink(WithLines(a, lines)), lines)
  {}

  lemma MoveBlind(a: Arch, lines: u8, reg: CpReg, v: u32)
    requires reg != Compare
    ensures Blind(a, MoveToCp0(a, reg, v), MoveToCp0(WithLines(a, lines), reg, v), lines)
  {
    hide Assigned;
  }

  lemma TlbBlind(a: Arch, lines: u8)
    ensures Blind(a, TlbProbe(a), TlbProbe(WithLines(a, lines)), lines)
    ensures Blind(a, TlbRead(a), TlbRead(WithLines(a, lines)), lines)
    ensures forall i: nat :: Blind(a, TlbWriteAt(a, i), TlbWriteAt(WithLines(a, lines), i), lines)
  {
    hide Probe, NewEntry;
  }

  lemma ReturnBlind(a: Arch, lines: u8)
    ensures Blind(a, ReturnFromException(a), ReturnFromException(WithLines(a, lines)), lines)
  {}

  lemma ComputeBlind(env: Env, a: Arch, lines: u8, w: u32, random: nat)
    requires ArchOk(a)
    ensures Blind(a, Execute(env, a, Compute(w), random).0,
                  Execute(env, WithLines(a, lines), Compute(w), random).0, lines)
  {}

  lemma StayBlind(a: Arch, lines: u8)
    ensures Blind(a, a, WithLines(a, lines), lines)
    ensures Blind(a, a.(stop := UnknownOp), WithLines(a, lines).(stop := UnknownOp), lines)
  {}

  lemma FpuBlind(env: Env, a: Arch, lines: u8)
    requires ArchOk(a)
    ensures Blind(a, Execute(env, a, Fpu, 0).0, Execute(env, WithLines(a, lines), Fpu, 0).0, lines)
  {
    hide Raise;
    var ca := a.cp0.cause;
    RaiseBlind(a.(cp0 := a.cp0.(cause := ca.(ce := if ca.ce % 2 == 0 then ca.ce + 1 else ca.ce))), lines,
               CP_UNUSABLE, a.inSlot);
  }

  lemma LinkBlind(a: Arch, lines: u8, b: Branch)
    requires ArchOk(a)
    ensures Link(WithLines(a, lines), b) == WithLines(Link(a, b), lines)
    ensures Link(a, b).irqCause == a.irqCause && Link(a, b).irqPending == a.irqPending && Link(a, b).pc == a.pc
    ensures Link(a, b).log == a.log && |Link(a, b).gpr| == |a.gpr|
  {}

  lemma NestedBlind(env: Env, a: Arch, lines: u8, b: Branch)
    requires ArchOk(a)
    ensures var (c, res) := Execute(env, a, Br(b), 0);
            var (d, same) := Execute(env, WithLines(a, lines), Br(b), 0);
            same == res && Blind(a, c, d, lines)
  {
    hide Taken, Link;
    LinkBlind(a, lines, b);
  }

  lemma NotedBlind(a: Arch, b: Arch, c: Arch, lines: u8, n: Note)
    requires Blind(a, b, c, lines)
    ensures Blind(a, b.(log := b.log + [n]), c.(log := c.log + [n]), lines)
  {}

  // Nothing but a write of Compare looks at the lines or raises the flag.
  lemma ExecuteBlind(env: Env, a: Arch, lines: u8, insn: Insn, random: nat)
    requires ArchOk(a) && !(insn.Mtc0? && insn.reg == Compare)
    ensures var (b, res) := Execute(env, a, insn, random);
            var (c, same) := Execute(env, WithLines(a, lines), insn, random);
            same == res && Blind(a, b, c, lines)
  {
    hide DoMem, MoveToCp0, Raise, TlbProbe, TlbRead, TlbWriteAt, ReturnFromException, Taken, Blind, Link;
    match insn
    case Compute(w) => ComputeBlind(env, a, lines, w, random);
    case Br(b) => NestedBlind(env, a, lines, b);
    case Mem(op, base, rt, offset) =>
      var v := Wrap(a.gpr[base] + offset);
      MemBlind(env, a, lines, op, v, rt);
      var (b, res) := DoMem(env, a, op, v, rt);
      NotedBlind(a, b, DoMem(env, WithLines(a, lines), op, v, rt).0, lines, Ran(op, !res));
    case Mtc0(src, reg) => MoveBlind(a, lines, reg, a.gpr[src]);
    case Tlbp | Tlbr | Tlbwi | Tlbwr => TlbBlind(a, lines);
    case Eret => ReturnBlind(a, lines);
    case Syscall => RaiseBlind(a, lines, SYSCALL, a.inSlot);
    case Break => RaiseBlind(a, lines, BREAKPOINT, false);
    case Fpu => FpuBlind(env, a, lines);
    case Trap(_, _, _) => RaiseBlind(a, lines, TRAP, false); StayBlind(a, lines);
    case Unknown => StayBlind(a, lines);
  }

  lemma FetchBlind(env: Env, a: Arch, lines: u8, at: u32)
    ensures var (b, word) := Fetch(env, a, at);
            var (c, same) := Fetch(env, WithLines(a, lines), at);
            same == word && Blind(a, b, c, lines)
  {
    hide Resolve, ReadMem;
    AccessBlind(env, a, lines, Page(at), LW, false);
  }

  // The slot's instruction does not write Compare.
  predicate SlotSparesCompare(env: Env, a: Arch)
    requires ArchOk(a)
  {
    var word := Fetch(env, a.(inSlot := true), Wrap(a.pc + 4)).1;
    word.Some? ==> var i := env.decode(word.value); !(i.Mtc0? && i.reg == Compare)
  }

  lemma SlotBlind(env: Env, a: Arch, lines: u8, random: nat)
    requires ArchOk(a) && SlotSparesCompare(env, a)
    ensures var (b, res) := ExecuteSlot(env, a, random);
            var (c, same) := ExecuteSlot(env, WithLines(a, lines), random);
            same == res && Blind(a, b, c, lines)
  {
    hide Fetch, Execute;
    var s := a.(inSlot := true);
    FetchBlind(env, s, lines, Wrap(a.pc + 4));
    var (b, word) := Fetch(env, s, Wrap(a.pc + 4));
    if word.Some? { ExecuteBlind(env, b, lines, env.decode(word.value), random); }
  }

  // The note a write of Compare leaves in the slot.
  lemma SlotNotesCompare(env: Env, a: Arch, random: nat)
    requires ArchOk(a) && !SlotSparesCompare(env, a)
    ensures !NoCompare(a, ExecuteSlot(env, a, random).0)
  {
    hide Locate, ReadMem, Meet, HasLine;
    assert ExecuteSlot(env, a, random).0.log[|a.log|] == Wrote(Compare);
  }

  lemma BranchBlind(env: Env, a: Arch, lines: u8, b: Branch, random: nat)
    requires ArchOk(a) && NoCompare(a, ExecuteBranch(env, a, b, random))
    ensures Blind(a, ExecuteBranch(env, a, b, random), ExecuteBranch(env, WithLines(a, lines), b, random), lines)
  {
    hide ExecuteSlot, Taken, Target, SlotSparesCompare, Link;
    LinkBlind(a, lines, b);
    var l := Link(a, b);
    if !(Likely(b) && !Taken(b, l.gpr)) {
      if !SlotSparesCompare(env, l) { SlotNotesCompare(env, l, random); }
      SlotBlind(env, l, lines, random);
    }
  }

  lemma StepBlind(env: Env, a: Arch, lines: u8, random: nat)
    requires ArchOk(a) && !a.irqPending && NoCompare(a, Step(env, a, random))
    ensures Blind(a, Step(env, a, random), Step(env, WithLines(a, lines), random), lines)
  {
    hide Fetch, Execute, ExecuteBranch;
    var z := SetGpr(a, 0, 0);
    FetchBlind(env, z, lines, z.pc);
    var (b, word) := Fetch(env, z, z.pc);
    if a.stop == Running && word.Some? {
      FetchKeepsLog(env, z, z.pc);
      var insn := env.decode(word.value);
      if insn.Br? {
        BranchBlind(env, b, lines, insn.b, random);
      } else {
        if insn.Mtc0? && insn.reg == Compare { CompareIsNoted(env, b, insn, random); }
        ExecuteBlind(env, b, lines, insn, random);
      }
    }
  }

  lemma FetchKeepsLog(env: Env, a: Arch, at: u32)
    requires Fetch(env, a, at).1.Some?
    ensures Fetch(env, a, at).0.log == a.log
  {
    hide Locate, ReadMem;
  }

  lemma CompareIsNoted(env: Env, a: Arch, insn: Insn, random: nat)
    requires ArchOk(a) && insn.Mtc0? && insn.reg == Compare
    ensures !NoCompare(a, Execute(env, a, insn, random).0)
  {
    hide Meet, HasLine;
    assert Execute(env, a, insn, random).0.log[|a.log|] == Wrote(Compare);
  }

  lemma ReactBlind(env: Env, a: Arch, lines: u8, ev: Event)
    requires ArchOk(a) && !a.irqPending && !ev.RaiseLine? && NoCompare(a, React(env, a, ev))
    ensures var b := React(env, a, ev);
            && !b.irqPending && b.irqCause == Lowered(a.irqCause, [ev])
            && React(env, WithLines(a, lines), ev) == WithLines(b, Lowered(lines, [ev]))
  {
    hide Step, NoCompare, HasLine;
    assert [ev][1..] == [];
    if ev.Tick? { StepBlind(env, a, lines, ev.random); }
  }

  lemma NoCompareSplits(a: Arch, b: Arch, c: Arch)
    requires a.log <= b.log <= c.log && NoCompare(a, c)
    ensures NoCompare(a, b) && NoCompare(b, c)
  {}

  // ------------------------------------------------------------- main results

  // Until the next line is raised or Compare is written, a clear flag stays
  // clear and no line that is up shows: whatever the lines, and whatever Status
  // becomes, the run is the same.
  lemma {:induction false} LinesAreInvisible(env: Env, a: Arch, lines: u8, events: seq<Event>)
    requires ArchOk(a) && !a.irqPending && NoRaise(events) && NoCompare(a, Run(env, a, events))
    ensures var b := Run(env, a, events);
            && !b.irqPending && b.irqCause == Lowered(a.irqCause, events)
            && Run(env, WithLines(a, lines), events) == WithLines(b, Lowered(lines, events))
    decreases |events|
  {
    hide React, NoCompare;
    if events != [] {
      var b := React(env, a, events[0]);
      ReactFollows(env, a, events[0]);
      RunFollows(env, b, events[1..]);
      NoCompareSplits(a, b, Run(env, a, events));
      assert events[0] in events;
      ReactBlind(env, a, lines, events[0]);
      LoweredOne(a.irqCause, events);
      LoweredOne(lines, events);
      LinesAreInvisible(env, b, Lowered(lines, [events[0]]), events[1..]);
    }
  }

  lemma LoweredOne(lines: u8, events: seq<Event>)
    requires events != []
    ensures Lowered(lines, events) == Lowered(Lowered(lines, [events[0]]), events[1..])
  {
    assert [events[0]][1..] == [];
  }

  // Raising a line is noticed exactly if the machine accepts interrupts at that
  // moment with the line up. Otherwise nothing shows but the copy in Cause:
  // the machine runs on as if no line were up, though Status be enabled, until a
  // line is raised again or Compare is written.
  lemma RaisedLineWaits(env: Env, a: Arch, line: nat, events: seq<Event>)
    requires ArchOk(a) && NoRaise(events)
    requires NoCompare(a, Run(env, a, [RaiseLine(line)] + events))
    ensures var r := React(env, a, RaiseLine(line));
            var b := Run(env, a, [RaiseLine(line)] + events);
            && (r.irqPending <==> Accepts(SetIrq(a, line)))
            && (!r.irqPending ==>
                  !b.irqPending && WithLines(b, 0) == Run(env, WithLines(r, 0), events))
  {
    hide NoCompare, Meet, HasLine;
    var r := React(env, a, RaiseLine(line));
    assert ([RaiseLine(line)] + events)[1..] == events;
    if !r.irqPending {
      SameLog(a, r, Run(env, r, events));
      LinesAreInvisible(env, r, 0, events);
      NothingLowered(events);
    }
  }

  lemma SameLog(a: Arch, b: Arch, c: Arch)
    requires b.log == a.log && NoCompare(a, c)
    ensures NoCompare(b, c)
  {}

  lemma {:induction false} NothingLowered(events: seq<Event>)
    ensures Lowered(0, events) == 0
  {
    if events != [] { NothingLowered(events[1..]); }
  }

  // Enabling interrupts, by writing Status or by ERET, is where that fails what
  // one expects: the machine then accepts a line that is up, and does not know.
  lemma EnablingIsNotNoticed(a: Arch, v: u32)
    requires !a.irqPending
    ensures !MoveToCp0(a, StatusReg, v).irqPending && !ReturnFromException(a).irqPending
    ensures var st := StatusOf(v);
            Accepts(MoveToCp0(a, StatusReg, v)) <==> st.ie && !st.exl && !st.erl && Meet(a.irqCause, st.im)
    ensures var st := a.cp0.status;
            Accepts(ReturnFromException(a)) <==> st.ie && !(st.exl && st.erl) && Meet(a.irqCause, st.im)
  {
    hide Meet, StatusOf;
  }
}

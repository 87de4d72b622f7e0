// Which instruction comes next: the straight line, the branches, the exceptions
// and the returns, from the words in memory and in plain arithmetic.
module Flow {
  import opened Wrappers
  import opened Machine
  import opened Coherence
  import opened Translation
  import opened Runs
  import opened Aligned

  // The address `n` bytes on.
  function On(pc: u32, n: int): u32 { (pc + n) % 0x1_0000_0000 }

  // The machine as the instruction at pc sees it: $zero is zero, and the page of
  // the code is noted.
  function AtTurn(a: Arch): (z: Arch)
    requires ArchOk(a)
    ensures ArchOk(z)
  {
    a.(gpr := a.gpr[0 := 0], codePage := PageOf(a.pc))
  }

  // A turn that is no interrupt, with its instruction in memory.
  ghost predicate Turns(env: Env, a: Arch, insn: Insn)
    requires ArchOk(a)
  {
    && a.stop == Running && !a.irqPending && LegalMasks(a.tlb)
    && exists w: u32 :: CodeAt(env, a, a.pc, w) && env.decode(w) == insn
  }

  lemma CodeStaysPut(env: Env, a: Arch, b: Arch, at: u32, w: u32)
    requires b.tlb == a.tlb && b.cp0.entryHi.asid == a.cp0.entryHi.asid && b.mem == a.mem
    ensures CodeAt(env, b, at, w) <==> CodeAt(env, a, at, w)
  {
    hide FirstEntry, Physical, HalfFor, Owner, Number, BytesAt;
    forall v: u32, pa: u32 ensures Names(b, v, false, pa) <==> Names(a, v, false, pa) {}
  }

  // Completing an access never moves pc, and an access that succeeds does not
  // either, so an instruction that completes leaves pc where it was.
  lemma LoadPartEnds(env: Env, a: Arch, acc: Access, op: MemOp, v: u32, rt: Reg)
    requires ArchOk(a)
    ensures CompleteLoadPart(env, a, acc, op, v, rt).0.pc == a.pc
  {
    hide ReadMem, LoadPart;
  }

  lemma StorePartEnds(env: Env, a: Arch, acc: Access, op: MemOp, v: u32, data: u32)
    requires ArchOk(a)
    ensures CompleteStorePart(env, a, acc, op, v, data).0.pc == a.pc
  {
    hide ReadMem, WriteMem, StorePart;
  }

  lemma StoreEnds(env: Env, a: Arch, acc: Access, op: MemOp, data: u32)
    requires ArchOk(a)
    ensures Deliver(env, a, acc, op, data).0.pc == a.pc
  {
    hide WriteMem;
  }

  lemma LoadStays(env: Env, a: Arch, op: MemOp, v: u32, rt: Reg)
    requires ArchOk(a)
    ensures !DoLoad(env, a, op, v, rt).1 ==> DoLoad(env, a, op, v, rt).0.pc == a.pc
  {
    hide AccessMem, ReadMem, Extend;
    AccessStays(env, a, v, op, false);
  }

  lemma LoadPartStays(env: Env, a: Arch, op: MemOp, v: u32, rt: Reg)
    requires ArchOk(a)
    ensures !DoLoadPart(env, a, op, v, rt).1 ==> DoLoadPart(env, a, op, v, rt).0.pc == a.pc
  {
    hide AccessMem, CompleteLoadPart, Follows, SameLink, Resolve;
    var w: u32 := v - v % 4;
    Started(env, a, w, op, false);
    var (b, acc) := AccessMem(env, a, w, op, false);
    LoadPartEnds(env, b, acc, op, v, rt);
    FaultEnds(env, b, op, v, 0, rt);
  }

  // What an access starts from if it does not fault.
  lemma Started(env: Env, a: Arch, v: u32, op: MemOp, write: bool)
    requires ArchOk(a)
    ensures var (b, acc) := AccessMem(env, a, v, op, write); ArchOk(b) && (acc != Fault ==> b.pc == a.pc)
  {
    hide AccessMem, Follows, SameLink, Resolve;
    AccessFollows(env, a, v, op, write);
    StartedArch(a, AccessMem(env, a, v, op, write).0);
    AccessStays(env, a, v, op, write);
  }

  lemma StartedArch(a: Arch, b: Arch)
    requires Follows(a, b)
    ensures ArchOk(b)
  {}

  lemma FaultEnds(env: Env, a: Arch, op: MemOp, v: u32, data: u32, rt: Reg)
    requires ArchOk(a)
    ensures CompleteLoadPart(env, a, Fault, op, v, rt).1 && CompleteStorePart(env, a, Fault, op, v, data).1
    ensures Deliver(env, a, Fault, op, data).1
  {}

  lemma StoreStays(env: Env, a: Arch, op: MemOp, v: u32, rt: Reg)
    requires ArchOk(a)
    ensures !DoStore(env, a, op, v, rt).1 ==> DoStore(env, a, op, v, rt).0.pc == a.pc
  {
    hide AccessMem, Deliver, Resolve;
    var b, data := BreakLink(a), a.gpr[rt] % Pow256(Size(op));
    Started(env, b, v, op, true);
    var (c, acc) := AccessMem(env, b, v, op, true);
    StoreEnds(env, c, acc, op, data);
    FaultEnds(env, c, op, v, data, rt);
  }

  lemma StorePartStays(env: Env, a: Arch, op: MemOp, v: u32, rt: Reg)
    requires ArchOk(a)
    ensures !DoStorePart(env, a, op, v, rt).1 ==> DoStorePart(env, a, op, v, rt).0.pc == a.pc
  {
    hide AccessMem, CompleteStorePart, Resolve;
    var w: u32, b := v - v % 4, BreakLink(a);
    Started(env, b, w, op, true);
    var (c, acc) := AccessMem(env, b, w, op, true);
    StorePartEnds(env, c, acc, op, v, a.gpr[rt]);
    FaultEnds(env, c, op, v, a.gpr[rt], rt);
  }

  lemma ConditionalStays(env: Env, a: Arch, v: u32, rt: Reg)
    requires ArchOk(a)
    ensures !DoStoreConditional(env, a, v, rt).1 ==> DoStoreConditional(env, a, v, rt).0.pc == a.pc
  {
    hide AccessMem, Deliver, Resolve;
    Started(env, a, v, SC, true);
    var (c, acc) := AccessMem(env, a, v, SC, true);
    StoreEnds(env, c, acc, SC, a.gpr[rt]);
    FaultEnds(env, c, SC, v, a.gpr[rt], rt);
  }

  lemma MemStays(env: Env, a: Arch, op: MemOp, v: u32, rt: Reg)
    requires ArchOk(a)
    ensures !DoMem(env, a, op, v, rt).1 ==> DoMem(env, a, op, v, rt).0.pc == a.pc
  {
    hide DoLoad, DoLoadPart, DoStore, DoStorePart, DoStoreConditional;
    LoadStays(env, a, op, v, rt);
    LoadPartStays(env, a, op, v, rt);
    StoreStays(env, a, op, v, rt);
    StorePartStays(env, a, op, v, rt);
    ConditionalStays(env, a, v, rt);
  }

  lemma CompletesInPlace(env: Env, a: Arch, insn: Insn, random: nat)
    requires ArchOk(a)
    ensures !Execute(env, a, insn, random).1 ==> Execute(env, a, insn, random).0.pc == a.pc
  {
    hide DoMem, Raise, Probe, NewEntry, Assigned, Taken, Meet, HasLine;
    match insn
    case Mem(op, base, rt, offset) => MemStays(env, a, op, Wrap(a.gpr[base] + offset), rt);
    case _ =>
  }

  // ------------------------------------------------------------- one instruction

  // What is not a branch runs, and the next instruction is four bytes on unless
  // it turned normal flow off.
  lemma TurnRuns(env: Env, a: Arch, insn: Insn, random: nat)
    requires ArchOk(a) && Turns(env, a, insn)
    ensures !insn.Br? ==>
              var (c, res) := Execute(env, AtTurn(a), insn, random);
              Step(env, a, random) == if res then c else c.(pc := On(a.pc, 4))
    ensures insn.Br? ==> Step(env, a, random) == ExecuteBranch(env, AtTurn(a), insn.b, random)
  {
    hide Fetch, Execute, ExecuteBranch, CodeAt, LegalMasks, PageOf;
    var w: u32 :| CodeAt(env, a, a.pc, w) && env.decode(w) == insn;
    CodeStaysPut(env, a, SetGpr(a, 0, 0), a.pc, w);
    FetchReads(env, SetGpr(a, 0, 0), a.pc, w);
    CompletesInPlace(env, AtTurn(a), insn, random);
  }

  // ----------------------------------------------------------- the straight line

  function Ticks(randoms: seq<nat>): seq<Event> {
    seq(|randoms|, i requires 0 <= i < |randoms| => Tick(randoms[i]))
  }

  // The instructions of a list run in order, the k-th at the address 4k bytes
  // behind the first.
  function Through(env: Env, a: Arch, insns: seq<Insn>, randoms: seq<nat>): (r: Arch)
    requires ArchOk(a) && |insns| == |randoms|
    ensures ArchOk(r)
    decreases |insns|
  {
    if insns == [] then a
    else
      var k := |insns| - 1;
      var s := Through(env, a, insns[..k], randoms[..k]);
      var at := On(a.pc, 4 * k);
      Execute(env, s.(gpr := s.gpr[0 := 0], codePage := PageOf(at), pc := at), insns[k], randoms[k]).0
        .(pc := On(a.pc, 4 * (k + 1)))
  }

  // Instruction k is in memory when its turn comes, is no branch, and completes.
  ghost predicate Straight(env: Env, a: Arch, insns: seq<Insn>, randoms: seq<nat>, k: nat)
    requires ArchOk(a) && k < |insns| == |randoms|
  {
    var s := Through(env, a, insns[..k], randoms[..k]);
    Turns(env, s, insns[k]) && !insns[k].Br? && !Execute(env, AtTurn(s), insns[k], randoms[k]).1
  }

  lemma {:induction false} RunSnoc(env: Env, a: Arch, events: seq<Event>, ev: Event)
    requires ArchOk(a)
    ensures Run(env, a, events + [ev]) == React(env, Run(env, a, events), ev)
    decreases |events|
  {
    hide React;
    if events == [] {
      assert [ev][1..] == [] && [] + [ev] == [ev];
    } else {
      assert (events + [ev])[1..] == events[1..] + [ev];
      RunSnoc(env, React(env, a, events[0]), events[1..], ev);
    }
  }

  lemma ThroughEndsAt(env: Env, a: Arch, insns: seq<Insn>, randoms: seq<nat>)
    requires ArchOk(a) && |insns| == |randoms|
    ensures Through(env, a, insns, randoms).pc == On(a.pc, 4 * |insns|)
  {
    hide Execute;
    assert On(a.pc, 0) == a.pc;
  }

  // Over n ticks the machine runs exactly the n instructions found from pc on, in
  // that order, and pc is 4n bytes on.
  lemma {:induction false} StraightLine(env: Env, a: Arch, insns: seq<Insn>, randoms: seq<nat>)
    requires ArchOk(a) && |insns| == |randoms|
    requires forall k | 0 <= k < |insns| :: Straight(env, a, insns, randoms, k)
    ensures Run(env, a, Ticks(randoms)) == Through(env, a, insns, randoms)
    ensures Run(env, a, Ticks(randoms)).pc == On(a.pc, 4 * |insns|)
    decreases |insns|
  {
    hide Execute, Step, Turns, PageOf;
    if insns == [] {
      assert Ticks(randoms) == [] && On(a.pc, 0) == a.pc;
    } else {
      hide Through, Straight, React;
      var k := |insns| - 1;
      forall j | 0 <= j < k ensures Straight(env, a, insns[..k], randoms[..k], j) {
        assert Straight(env, a, insns, randoms, j);
        StraightPrefix(env, a, insns, randoms, k, j);
      }
      StraightLine(env, a, insns[..k], randoms[..k]);
      assert Ticks(randoms) == Ticks(randoms[..k]) + [Tick(randoms[k])];
      RunSnoc(env, a, Ticks(randoms[..k]), Tick(randoms[k]));
      StraightStep(env, a, insns, randoms, k);
      ThroughEndsAt(env, a, insns, randoms);
    }
  }

  lemma StraightPrefix(env: Env, a: Arch, insns: seq<Insn>, randoms: seq<nat>, k: nat, j: nat)
    requires ArchOk(a) && j < k <= |insns| == |randoms|
    ensures Straight(env, a, insns[..k], randoms[..k], j) <==> Straight(env, a, insns, randoms, j)
  {
    hide Through, Execute, Turns;
    assert insns[..k][..j] == insns[..j] && randoms[..k][..j] == randoms[..j];
  }

  lemma StraightStep(env: Env, a: Arch, insns: seq<Insn>, randoms: seq<nat>, k: nat)
    requires ArchOk(a) && |insns| == |randoms| == k + 1 && Straight(env, a, insns, randoms, k)
    ensures React(env, Through(env, a, insns[..k], randoms[..k]), Tick(randoms[k])) == Through(env, a, insns, randoms)
  {
    hide Through, Execute, Step, Turns, PageOf, On, AtTurn;
    ThroughLast(env, a, insns, randoms, k);
    ThroughEndsAt(env, a, insns[..k], randoms[..k]);
    OnNext(a.pc, k);
    TurnRuns(env, Through(env, a, insns[..k], randoms[..k]), insns[k], randoms[k]);
  }

  lemma ThroughLast(env: Env, a: Arch, insns: seq<Insn>, randoms: seq<nat>, k: nat)
    requires ArchOk(a) && |insns| == |randoms| == k + 1
    ensures var s := Through(env, a, insns[..k], randoms[..k]);
            Through(env, a, insns, randoms) ==
            Execute(env, AtTurn(s), insns[k], randoms[k]).0.(pc := On(a.pc, 4 * (k + 1)))
  {
    hide Execute, PageOf;
    ThroughEndsAt(env, a, insns[..k], randoms[..k]);
  }

  lemma OnNext(pc: u32, k: nat)
    ensures On(On(pc, 4 * k), 4) == On(pc, 4 * (k + 1))
  {}

  // Instructions that only compute: whatever n of them lie in memory from pc on
  // are computed in order, and nothing but registers and pc has changed.
  function Computation(env: Env, a: Arch, words: seq<u32>, randoms: seq<nat>): (r: (seq<u32>, u32, u32))
    requires ArchOk(a) && |words| == |randoms|
    ensures |r.0| == 32
    decreases |words|
  {
    if words == [] then (a.gpr, a.hi, a.lo)
    else
      var k := |words| - 1;
      var (g, hi, lo) := Computation(env, a, words[..k], randoms[..k]);
      var c := env.compute(words[k], g[0 := 0], hi, lo, a.cp0, randoms[k]);
      (g[0 := 0][c.rd := c.value], c.hi, c.lo)
  }

  function Computes(words: seq<u32>): seq<Insn> {
    seq(|words|, i requires 0 <= i < |words| => Compute(words[i]))
  }

  // Instruction k is in memory from the start.
  ghost predicate Lies(env: Env, a: Arch, words: seq<u32>, k: nat)
    requires k < |words|
  {
    exists w: u32 :: CodeAt(env, a, On(a.pc, 4 * k), w) && env.decode(w) == Compute(words[k])
  }

  // The first k instructions lie in memory too.
  lemma LiesPrefix(env: Env, a: Arch, words: seq<u32>, k: nat)
    requires k <= |words| && forall j | 0 <= j < |words| :: Lies(env, a, words, j)
    ensures Computes(words)[..k] == Computes(words[..k]) && forall j | 0 <= j < k :: Lies(env, a, words[..k], j)
  {
    hide CodeAt;
    forall j | 0 <= j < k ensures Lies(env, a, words[..k], j) { assert Lies(env, a, words, j); }
  }

  lemma {:induction false} ComputesThrough(env: Env, a: Arch, words: seq<u32>, randoms: seq<nat>)
    requires ArchOk(a) && |words| == |randoms| && a.stop == Running && !a.irqPending && LegalMasks(a.tlb)
    requires forall k | 0 <= k < |words| :: Lies(env, a, words, k)
    ensures ThroughIs(env, a, words, randoms, |words|)
    decreases |words|
  {
    hide Execute, Lies;
    assert words[..|words|] == words && randoms[..|words|] == randoms;
    if words == [] {
      assert On(a.pc, 0) == a.pc;
    } else {
      var k := |words| - 1;
      LiesPrefix(env, a, words, k);
      ComputesThrough(env, a, words[..k], randoms[..k]);
      assert words[..k][..k] == words[..k] && randoms[..k][..k] == randoms[..k];
      hide Through, Computation;
      ComputesOne(env, a, words, randoms, k);
    }
  }

  // After the first k, registers and pc are those of the computation.
  predicate ThroughIs(env: Env, a: Arch, words: seq<u32>, randoms: seq<nat>, k: nat)
    requires ArchOk(a) && k <= |words| == |randoms|
  {
    var b := Through(env, a, Computes(words[..k]), randoms[..k]);
    var (g, hi, lo) := Computation(env, a, words[..k], randoms[..k]);
    b == a.(gpr := g, hi := hi, lo := lo, pc := On(a.pc, 4 * k), codePage := b.codePage)
  }

  lemma ComputesOne(env: Env, a: Arch, words: seq<u32>, randoms: seq<nat>, k: nat)
    requires ArchOk(a) && |words| == |randoms| && k < |words| && ThroughIs(env, a, words, randoms, k)
    ensures ThroughIs(env, a, words, randoms, k + 1)
  {
    LongerPrefix(words, k);
    LongerPrefix(randoms, k);
    LongerComputes(words, k);
    hide Computes, PageOf;
  }

  lemma LongerPrefix<T>(s: seq<T>, k: nat)
    requires k < |s|
    ensures s[..k + 1][..k] == s[..k] && s[..k + 1][k] == s[k] && |s[..k + 1]| == k + 1
  {}

  lemma LongerComputes(words: seq<u32>, k: nat)
    requires k < |words|
    ensures var c := Computes(words[..k + 1]);
            |c| == k + 1 && c[..k] == Computes(words[..k]) && c[k] == Compute(words[k])
    ensures |Computes(words[..k])| == k
  {}

  lemma ComputesStraight(env: Env, a: Arch, words: seq<u32>, randoms: seq<nat>, k: nat)
    requires ArchOk(a) && |words| == |randoms| && a.stop == Running && !a.irqPending && LegalMasks(a.tlb)
    requires k < |words| && Lies(env, a, words, k) && ThroughIs(env, a, words, randoms, k)
    ensures Straight(env, a, Computes(words), randoms, k)
  {
    hide PageOf, LegalMasks, CodeAt, Through;
    assert Computes(words)[..k] == Computes(words[..k]);
    var s := Through(env, a, Computes(words[..k]), randoms[..k]);
    var w: u32 :| CodeAt(env, a, On(a.pc, 4 * k), w) && env.decode(w) == Compute(words[k]);
    CodeStaysPut(env, a, s, On(a.pc, 4 * k), w);
  }

  lemma StraightComputation(env: Env, a: Arch, words: seq<u32>, randoms: seq<nat>)
    requires ArchOk(a) && |words| == |randoms| && a.stop == Running && !a.irqPending && LegalMasks(a.tlb)
    requires forall k | 0 <= k < |words| :: Lies(env, a, words, k)
    ensures var b := Run(env, a, Ticks(randoms));
            && (b.gpr, b.hi, b.lo) == Computation(env, a, words, randoms) && b.pc == On(a.pc, 4 * |words|)
            && b.cp0 == a.cp0 && b.tlb == a.tlb && b.mem == a.mem && b.io == a.io && b.stop == Running
  {
    hide Through, Straight, Lies, Computation;
    forall k | 0 <= k < |words| ensures Straight(env, a, Computes(words), randoms, k) {
      LiesPrefix(env, a, words, k);
      ComputesThrough(env, a, words[..k], randoms[..k]);
      assert words[..k][..k] == words[..k] && randoms[..k][..k] == randoms[..k];
      ComputesStraight(env, a, words, randoms, k);
    }
    ComputesThrough(env, a, words, randoms);
    assert words[..|words|] == words && randoms[..|words|] == randoms;
    StraightLine(env, a, Computes(words), randoms);
  }

  // ------------------------------------------------------------------- branches

  // The registers a branch decides on, its own link among them.
  function Linked(a: Arch, b: Branch): (g: seq<u32>)
    requires ArchOk(a)
    ensures |g| == 32
  {
    match b
    case J(_, true) => a.gpr[31 := On(a.pc, 8)]
    case Jr(_, Some(rd)) => a.gpr[rd := On(a.pc, 8)]
    case Cond(_, _, _, _, true, _) => a.gpr[31 := On(a.pc, 8)]
    case _ => a.gpr
  }

  // The tests compare registers, or one of them as a signed number with zero.
  predicate Decides(b: Branch, g: seq<u32>)
    requires |g| == 32 && b.Cond?
  {
    match b.test
    case Eq => g[b.rs] == g[b.rt]
    case Ne => g[b.rs] != g[b.rt]
    case Gez => Signed(g[b.rs], 4) >= 0
    case Gtz => Signed(g[b.rs], 4) > 0
    case Lez => Signed(g[b.rs], 4) <= 0
    case Ltz => Signed(g[b.rs], 4) < 0
  }

  // Where a branch goes on.
  function Destination(b: Branch, g: seq<u32>, pc: u32): u32
    requires |g| == 32
  {
    match b
    case J(index26, _) => On(pc / 0x1000_0000 * 0x1000_0000, 4 * index26)
    case Jr(rs, _) => g[rs]
    case Cond(_, _, _, disp, _, _) => if Decides(b, g) then On(pc, 4 + disp) else On(pc, 8)
  }

  // A branch-likely that is not taken skips its slot.
  predicate Skips(b: Branch, g: seq<u32>)
    requires |g| == 32
  {
    b.Cond? && b.style != Plain && !Decides(b, g)
  }

  lemma LinkIs(a: Arch, b: Branch)
    requires ArchOk(a)
    ensures Link(a, b) == a.(gpr := Linked(a, b))
  {}

  lemma DecisionIs(b: Branch, g: seq<u32>, pc: u32)
    requires |g| == 32
    ensures b.Cond? ==> (Taken(b, g) <==> Decides(b, g))
    ensures !b.Cond? ==> Taken(b, g)
    ensures Destination(b, g, pc) == if Taken(b, g) then Target(b, g, pc) else Wrap(pc + 8)
  {}

  lemma SlotStays(env: Env, a: Arch, random: nat)
    requires ArchOk(a)
    ensures !ExecuteSlot(env, a, random).1 ==> ExecuteSlot(env, a, random).0.pc == a.pc
  {
    hide Fetch, Execute;
    var s, at := a.(inSlot := true), Wrap(a.pc + 4);
    var (b, word) := Fetch(env, s, at);
    if word.Some? {
      FetchKeepsPc(env, s, at);
      CompletesInPlace(env, b, env.decode(word.value), random);
    }
  }

  lemma FetchKeepsPc(env: Env, a: Arch, at: u32)
    requires Fetch(env, a, at).1.Some?
    ensures Fetch(env, a, at).0 == a.(codePage := Page(at))
  {
    hide Locate, ReadMem;
  }

  // A branch writes its link, decides, runs its slot and goes on: to its
  // destination if the slot completed or the branch does not care, and otherwise
  // where the slot's exception leads.
  lemma BranchTurn(env: Env, a: Arch, b: Branch, random: nat)
    requires ArchOk(a) && Turns(env, a, Br(b))
    ensures var z := AtTurn(a);
            var g := Linked(z, b);
            var l := z.(gpr := g);
            var r := Step(env, a, random);
            if Skips(b, g) then r == l.(pc := On(a.pc, 8))
            else
              var (c, off) := ExecuteSlot(env, l, random);
              r == if off && !(b.Cond? && b.style == LikelyIgnored) then c else c.(pc := Destination(b, g, a.pc))
  {
    hide ExecuteSlot, Taken, Target, Step, Turns, Decides, Destination;
    var z := AtTurn(a);
    TurnRuns(env, a, Br(b), random);
    LinkIs(z, b);
    hide Linked, Link;
    DecisionIs(b, Linked(z, b), a.pc);
    SlotStays(env, z.(gpr := Linked(z, b)), random);
  }

  // A branch in a slot writes its link; if it is skipped it moves pc itself and
  // turns normal flow off, and otherwise the emulator never comes back.
  lemma NestedBranchTurn(env: Env, a: Arch, b: Branch, random: nat)
    requires ArchOk(a)
    ensures var g := Linked(a, b);
            Execute(env, a, Br(b), random) ==
            (if Skips(b, g) then a.(gpr := g, pc := On(a.pc, 8)) else a.(gpr := g, stop := NestedBranch), true)
  {
    LinkIs(a, b);
    DecisionIs(b, Linked(a, b), a.pc);
    hide Linked, Link, Taken, Decides;
  }

  // A stopped machine stays as it is.
  lemma {:induction false} StoppedStays(env: Env, a: Arch, randoms: seq<nat>)
    requires ArchOk(a) && a.stop != Running
    ensures Run(env, a, Ticks(randoms)) == a
    decreases |randoms|
  {
    if randoms != [] {
      assert Ticks(randoms)[1..] == Ticks(randoms[1..]);
      StoppedStays(env, a, randoms[1..]);
    }
  }

  // The slot is the instruction four bytes on, run at the branch's own pc.
  lemma SlotTurn(env: Env, a: Arch, insn: Insn, w: u32, random: nat)
    requires ArchOk(a) && LegalMasks(a.tlb) && CodeAt(env, a, On(a.pc, 4), w) && env.decode(w) == insn
    ensures var (c, off) := Execute(env, a.(inSlot := true, codePage := PageOf(On(a.pc, 4))), insn, random);
            ExecuteSlot(env, a, random) == (c.(inSlot := false), off)
  {
    hide Fetch, Execute, CodeAt, LegalMasks, PageOf;
    CodeStaysPut(env, a, a.(inSlot := true), On(a.pc, 4), w);
    FetchReads(env, a.(inSlot := true), On(a.pc, 4), w);
  }
}

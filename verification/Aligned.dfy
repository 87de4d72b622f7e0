// Whole bytes, halfwords and words, in memory and in device registers: what a
// load delivers, what a store leaves, and both together.
module Aligned {
  import opened Wrappers
  import opened Machine
  import opened Unaligned
  import opened Coherence
  import opened Translation
  import opened Runs

  // The number that the low `n` bytes of a word stand for in two's complement.
  function Signed(w: u32, n: nat): int
    requires 1 <= n <= 4
  {
    var low := w % Pow256(n);
    if 2 * low >= Pow256(n) then low - Pow256(n) else low
  }

  predicate Pair(st: MemOp, ld: MemOp) {
    (st == SB && ld in {LB, LBU}) || (st == SH && ld in {LH, LHU}) || (st == SW && ld in {LW, LWU, LL})
  }

  predicate IsLoad(op: MemOp) { op in {LB, LBU, LH, LHU, LW, LWU, LL} }

  predicate Within(p: HostPtr, n: nat, q: HostPtr) { q.dev == p.dev && p.off <= q.off < p.off + n }

  lemma BytesOf(data: u32)
    ensures var b0, b1, b2, b3 := data % 0x100, data / 0x100 % 0x100, data / 0x1_0000 % 0x100, data / 0x100_0000;
            && data % 0x1_0000 == b1 * 0x100 + b0 && b3 < 0x100
            && data == b3 * 0x100_0000 + b2 * 0x1_0000 + b1 * 0x100 + b0
  {
    DivideTwice(data, 0x100, 0x100);
    DivideTwice(data, 0x1_0000, 0x100);
  }

  lemma ReadBack(big: bool, m: Memory, p: HostPtr, n: nat, data: u32)
    requires n in {1, 2, 4} && data < Pow256(n)
    ensures ReadMem(big, WriteMem(big, m, p, n, data), p, n) == data
  {
    BytesOf(data);
    Reread(big, m, p, n, data);
    hide ReadMem, WriteMem;
  }

  lemma Reread(big: bool, m: Memory, p: HostPtr, n: nat, data: u32)
    requires n in {1, 2, 4}
    ensures var b0, b1, b2, b3 := data % 0x100, data / 0x100 % 0x100, data / 0x1_0000 % 0x100, data / 0x100_0000;
            ReadMem(big, WriteMem(big, m, p, n, data), p, n) ==
            if n == 1 then b0 else if n == 2 then b1 * 0x100 + b0
            else b3 * 0x100_0000 + b2 * 0x1_0000 + b1 * 0x100 + b0
  {}

  lemma WriteElsewhere(big: bool, m: Memory, p: HostPtr, n: nat, data: u32, q: HostPtr)
    requires n in {1, 2, 4} && !Within(p, n, q)
    ensures ByteAt(WriteMem(big, m, p, n, data), q, 0) == ByteAt(m, q, 0)
  {
  }

  lemma ExtendIsSigned(op: MemOp, data: u32)
    requires IsLoad(op) && data < Pow256(Size(op))
    ensures op in {LB, LH} ==> Signed(Extend(op, data), 4) == Signed(data, Size(op))
    ensures op in {LBU, LHU, LW, LWU, LL} ==> Extend(op, data) == data
  {
  }

  lemma SameAlignment(v: u32, st: MemOp, ld: MemOp)
    requires Pair(st, ld)
    ensures Size(ld) == Size(st) && (Misaligned(v, ld) <==> Misaligned(v, st))
  {}

  lemma StoreInRam(env: Env, a: Arch, st: MemOp, v: u32, rt: Reg, p: HostPtr)
    requires ArchOk(a) && st in {SB, SH, SW} && !Misaligned(v, st)
    requires Locate(env, a.tlb, a.cp0.entryHi.asid, v, true) == InRam(p)
    ensures DoMem(env, a, st, v, rt) ==
            (BreakLink(a).(mem := WriteMem(env.bigEndian, a.mem, p, Size(st), a.gpr[rt] % Pow256(Size(st)))), false)
  {
    hide Locate, WriteMem;
  }

  lemma LoadFromRam(env: Env, a: Arch, ld: MemOp, v: u32, rd: Reg, p: HostPtr)
    requires ArchOk(a) && IsLoad(ld) && !Misaligned(v, ld)
    ensures Locate(env, a.tlb, a.cp0.entryHi.asid, v, false) == InRam(p) ==>
              DoMem(env, a, ld, v, rd) ==
              (SetGpr(a, rd, Extend(ld, ReadMem(env.bigEndian, a.mem, p, Size(ld)))).(llBit := a.llBit || ld == LL), false)
  {
    hide Locate, ReadMem, Extend;
  }

  // What comes back is the low part of the register, sign-extended by LB and LH
  // and zero-extended by LBU and LHU; no other byte of memory changes. LL sets
  // the link bit besides.
  lemma StoreThenLoad(env: Env, a: Arch, st: MemOp, ld: MemOp, v: u32, rt: Reg, rd: Reg, p: HostPtr)
    requires ArchOk(a) && Pair(st, ld) && !Misaligned(v, st)
    requires Locate(env, a.tlb, a.cp0.entryHi.asid, v, true) == InRam(p)
    ensures var n := Size(st);
            var (b, r) := DoMem(env, a, st, v, rt);
            var (c, s) := DoMem(env, b, ld, v, rd);
            && !r && !s && b == a.(mem := b.mem, llBit := false)
            && c == b.(gpr := b.gpr[rd := c.gpr[rd]], llBit := ld == LL)
            && (ld in {LB, LH} ==> Signed(c.gpr[rd], 4) == Signed(a.gpr[rt], n))
            && (ld in {LBU, LHU} ==> c.gpr[rd] == a.gpr[rt] % Pow256(n))
            && (ld in {LW, LWU, LL} ==> c.gpr[rd] == a.gpr[rt])
            && forall q | !Within(p, n, q) :: ByteAt(c.mem, q, 0) == ByteAt(a.mem, q, 0)
  {
    hide Locate, ReadMem, WriteMem, Extend, Signed, ByteAt, DoMem, Misaligned;
    StoreInRam(env, a, st, v, rt, p);
    SameAlignment(v, st, ld);
    LoadFromRam(env, DoMem(env, a, st, v, rt).0, ld, v, rd, p);
    var big, n, data := env.bigEndian, Size(st), a.gpr[rt] % Pow256(Size(st));
    WritableIsReadable(env, a.tlb, a.cp0.entryHi.asid, v, p);
    ReadBack(big, a.mem, p, n, data);
    ExtendIsSigned(ld, data);
    SignedLow(a.gpr[rt], n);
    forall q | !Within(p, n, q) ensures ByteAt(WriteMem(big, a.mem, p, n, data), q, 0) == ByteAt(a.mem, q, 0) {
      WriteElsewhere(big, a.mem, p, n, data, q);
    }
  }

  lemma SignedLow(w: u32, n: nat)
    requires 1 <= n <= 4
    ensures w % Pow256(n) < Pow256(n) && Signed(w % Pow256(n), n) == Signed(w, n)
  {
  }

  // ------------------------------------------------- one load, one store

  // How many numbers `n` bytes stand for.
  function Range(n: nat): nat { if n == 1 then 0x100 else if n == 2 then 0x1_0000 else 0x1_0000_0000 }

  lemma MemRuns(env: Env, a: Arch, op: MemOp, base: Reg, rt: Reg, offset: int)
    requires ArchOk(a)
    ensures var (b, res) := DoMem(env, a, op, (a.gpr[base] + offset) % 0x1_0000_0000, rt);
            Execute(env, a, Mem(op, base, rt, offset), 0) == (b.(log := b.log + [Ran(op, !res)]), res)
  {
    hide DoMem;
  }

  // A value of `n` bytes as a register receives it.
  predicate Received(op: MemOp, register: u32, x: nat) {
    if op == LB then Signed(register, 4) == (if x < 0x80 then x else x - 0x100)
    else if op == LH then Signed(register, 4) == (if x < 0x8000 then x else x - 0x1_0000)
    else register == x
  }

  lemma ExtendDelivers(op: MemOp, x: u32)
    requires IsLoad(op) && x < Pow256(Width(op))
    ensures Received(op, Extend(op, x), x)
  {}

  lemma WidthIsSize(op: MemOp)
    requires op !in {LWL, LWR, SWL, SWR}
    ensures Width(op) == Size(op)
  {}

  lemma NumberFits(big: bool, m: Memory, p: HostPtr, n: nat)
    requires n in {1, 2, 4}
    ensures Number(big, BytesAt(m, p, n)) < Pow256(n)
  {
    ReadIsNumber(big, m, p, n);
    hide Number, BytesAt;
  }

  // A load from memory delivers the number that the bytes at the address stand
  // for, extended as the instruction says, and changes nothing else.
  lemma LoadDelivers(env: Env, a: Arch, op: MemOp, base: Reg, rt: Reg, offset: int, p: HostPtr)
    requires ArchOk(a) && IsLoad(op)
    requires AccessMem(env, a, (a.gpr[base] + offset) % 0x1_0000_0000, op, false) == (a, Ram(p))
    ensures var (c, res) := Execute(env, a, Mem(op, base, rt, offset), 0);
            && !res && |c.gpr| == 32 && Received(op, c.gpr[rt], Number(env.bigEndian, BytesAt(a.mem, p, Width(op))))
            && c == a.(gpr := a.gpr[rt := c.gpr[rt]], llBit := a.llBit || op == LL, log := a.log + [Ran(op, true)])
  {
    hide AccessMem, ReadMem, Extend, Number, BytesAt, Received, Execute, DoMem, Width, Size;
    DeliveredNumber(env.bigEndian, a.mem, p, op);
    MemRuns(env, a, op, base, rt, offset);
    LoadIs(env, a, op, (a.gpr[base] + offset) % 0x1_0000_0000, rt, p);
  }

  lemma DeliveredNumber(big: bool, m: Memory, p: HostPtr, op: MemOp)
    requires IsLoad(op)
    ensures Received(op, Extend(op, ReadMem(big, m, p, Size(op))), Number(big, BytesAt(m, p, Width(op))))
  {
    WidthIsSize(op);
    ReadIsNumber(big, m, p, Width(op));
    NumberFits(big, m, p, Width(op));
    hide ReadMem, Number, BytesAt, Extend, Received;
    ExtendDelivers(op, Number(big, BytesAt(m, p, Width(op))));
  }

  lemma LoadIs(env: Env, a: Arch, op: MemOp, v: u32, rt: Reg, p: HostPtr)
    requires ArchOk(a) && IsLoad(op) && AccessMem(env, a, v, op, false) == (a, Ram(p))
    ensures DoMem(env, a, op, v, rt) ==
            (a.(gpr := a.gpr[rt := Extend(op, ReadMem(env.bigEndian, a.mem, p, Size(op)))],
                llBit := a.llBit || op == LL), false)
  {
    hide AccessMem, ReadMem, Extend;
  }

  lemma AskIs(env: Env, a: Arch, op: MemOp, v: u32, rt: Reg, dev: nat, off: int)
    requires ArchOk(a) && IsLoad(op) && AccessMem(env, a, v, op, false) == (a, Io(dev, off))
    ensures var io := a.io + [Handler(dev, off, Size(op), false, 0)];
            var reply := env.reply(io);
            DoMem(env, a, op, v, rt) ==
            if reply.NoReply? then (a.(io := io, stop := NoData), true)
            else (a.(gpr := a.gpr[rt := Extend(op, reply.data)], io := io, llBit := a.llBit || op == LL), false)
  {
    hide AccessMem, Extend;
  }

  // A load from a device delivers its answer to one read of the register.
  lemma LoadAsksDevice(env: Env, a: Arch, op: MemOp, base: Reg, rt: Reg, offset: int, dev: nat, off: int)
    requires ArchOk(a) && IsLoad(op)
    requires AccessMem(env, a, (a.gpr[base] + offset) % 0x1_0000_0000, op, false) == (a, Io(dev, off))
    ensures var (c, res) := Execute(env, a, Mem(op, base, rt, offset), 0);
            var io := a.io + [Handler(dev, off, Width(op), false, 0)];
            var reply := env.reply(io);
            && res == reply.NoReply? && |c.gpr| == 32
            && (reply.NoReply? ==> c == a.(io := io, stop := NoData, log := a.log + [Ran(op, false)]))
            && (!reply.NoReply? ==>
                  && Received(op, c.gpr[rt], reply.data % Range(Width(op)))
                  && c == a.(gpr := a.gpr[rt := c.gpr[rt]], io := io, llBit := a.llBit || op == LL,
                             log := a.log + [Ran(op, true)]))
  {
    WidthIsSize(op);
    var reply := env.reply(a.io + [Handler(dev, off, Width(op), false, 0)]);
    if !reply.NoReply? {
      ExtendDelivers(op, reply.data % Pow256(Width(op)));
      ExtendIgnoresRest(op, reply.data);
    }
    MemRuns(env, a, op, base, rt, offset);
    hide AccessMem, Extend, Received, Pow256, Execute, DoMem;
    AskIs(env, a, op, (a.gpr[base] + offset) % 0x1_0000_0000, rt, dev, off);
  }

  lemma ExtendIgnoresRest(op: MemOp, x: u32)
    requires IsLoad(op)
    ensures Extend(op, x % Pow256(Width(op))) == Extend(op, x)
    ensures Pow256(Width(op)) == Range(Width(op))
  {}

  lemma PowIsRange(n: nat)
    requires n in {1, 2, 4}
    ensures Pow256(n) == Range(n)
  {}

  lemma StoreIs(env: Env, a: Arch, op: MemOp, v: u32, rt: Reg, b: Arch, acc: Access)
    requires ArchOk(a) && op in {SB, SH, SW} && AccessMem(env, a.(llBit := false), v, op, true) == (b, acc) && ArchOk(b)
    ensures DoMem(env, a, op, v, rt) == Deliver(env, b, acc, op, a.gpr[rt] % Pow256(Size(op)))
  {
    hide AccessMem, Deliver, Pow256;
  }

  // A store to memory leaves the low bytes of the register at the address, in the
  // guest's byte order, and every other byte alone; it breaks the link.
  lemma StoreLeaves(env: Env, a: Arch, op: MemOp, base: Reg, rt: Reg, offset: int, p: HostPtr)
    requires ArchOk(a) && op in {SB, SH, SW}
    requires AccessMem(env, a.(llBit := false), (a.gpr[base] + offset) % 0x1_0000_0000, op, true) ==
             (a.(llBit := false), Ram(p))
    ensures var (c, res) := Execute(env, a, Mem(op, base, rt, offset), 0);
            var n := Width(op);
            && !res && c == a.(mem := c.mem, llBit := false, log := a.log + [Ran(op, true)])
            && Number(env.bigEndian, BytesAt(c.mem, p, n)) == a.gpr[rt] % Range(n)
            && forall q | !Within(p, n, q) :: BytesAt(c.mem, q, 1) == BytesAt(a.mem, q, 1)
  {
    var n, data := Width(op), a.gpr[rt] % Pow256(Width(op));
    WidthIsSize(op);
    PowIsRange(n);
    Written(env.bigEndian, a.mem, p, n, data);
    MemRuns(env, a, op, base, rt, offset);
    hide AccessMem, WriteMem, BytesAt, Number, Within, Execute, DoMem, Pow256, Range;
    StoreIs(env, a, op, (a.gpr[base] + offset) % 0x1_0000_0000, rt, a.(llBit := false), Ram(p));
  }

  lemma Written(big: bool, m: Memory, p: HostPtr, n: nat, data: u32)
    requires n in {1, 2, 4} && data < Pow256(n)
    ensures var w := WriteMem(big, m, p, n, data);
            && Number(big, BytesAt(w, p, n)) == data
            && forall q | !Within(p, n, q) :: BytesAt(w, q, 1) == BytesAt(m, q, 1)
  {
    var w := WriteMem(big, m, p, n, data);
    ReadBack(big, m, p, n, data);
    ReadIsNumber(big, w, p, n);
    forall q | !Within(p, n, q) ensures BytesAt(w, q, 1) == BytesAt(m, q, 1) {
      WriteElsewhere(big, m, p, n, data, q);
      SameByteAt(w, m, q);
    }
  }

  lemma SameByteAt(w: Memory, m: Memory, q: HostPtr)
    requires ByteAt(w, q, 0) == ByteAt(m, q, 0)
    ensures BytesAt(w, q, 1) == BytesAt(m, q, 1)
  {
    assert HostPtr(q.dev, q.off + 0) == q;
  }

  // A store to a device hands it the low bytes of the register, and pokes them
  // into the window if the device opens one.
  lemma StoreTellsDevice(env: Env, a: Arch, op: MemOp, base: Reg, rt: Reg, offset: int, dev: nat, off: int)
    requires ArchOk(a) && op in {SB, SH, SW}
    requires AccessMem(env, a.(llBit := false), (a.gpr[base] + offset) % 0x1_0000_0000, op, true) ==
             (a.(llBit := false), Io(dev, off))
    ensures var (c, res) := Execute(env, a, Mem(op, base, rt, offset), 0);
            var n := Width(op);
            var data := a.gpr[rt] % Range(n);
            var io := a.io + [Handler(dev, off, n, true, data)];
            var reply := env.reply(io);
            && res == reply.NoReply?
            && c == a.(io := if reply.Window? then io + [Poke(dev, off, n, data)] else io, llBit := false,
                       stop := if res then NoData else a.stop, log := a.log + [Ran(op, !res)])
  {
    WidthIsSize(op);
    PowIsRange(Width(op));
    MemRuns(env, a, op, base, rt, offset);
    hide AccessMem, Execute, DoMem, Pow256, Range, Width, Size;
    StoreIs(env, a, op, (a.gpr[base] + offset) % 0x1_0000_0000, rt, a.(llBit := false), Io(dev, off));
  }

  // A partial access to a device is one access to the whole register. A handler
  // that supplies the value itself leaves the register as it was; one that opens
  // a window has it merged.
  lemma PartialAsksDevice(env: Env, a: Arch, op: MemOp, base: Reg, rt: Reg, offset: int, dev: nat, off: int)
    requires ArchOk(a) && op in {LWL, LWR}
    requires var v := (a.gpr[base] + offset) % 0x1_0000_0000;
             AccessMem(env, a, v / 4 * 4, op, false) == (a, Io(dev, off))
    ensures var v := (a.gpr[base] + offset) % 0x1_0000_0000;
            var (c, res) := Execute(env, a, Mem(op, base, rt, offset), 0);
            var io := a.io + [Handler(dev, off, 4, false, 0)];
            var log := a.log + [Ran(op, !res)];
            match env.reply(io)
            case NoReply => res && c == a.(io := io, stop := NoData, log := log)
            case Value(_) => !res && c == a.(io := io, log := log)
            case Window(w) =>
              !res && c == a.(gpr := a.gpr[rt := LoadPart(op, env.bigEndian, v, a.gpr[rt], w)], io := io, log := log)
  {
    hide AccessMem, Execute, DoMem, LoadPart, CompleteLoadPart;
    var v: u32 := (a.gpr[base] + offset) % 0x1_0000_0000;
    WordOf(v);
    PartialLoadIs(env, a, op, v, rt, dev, off);
    PartialLoadEnds(env, a, op, v, rt, dev, off);
    MemRuns(env, a, op, base, rt, offset);
  }

  lemma PartialLoadEnds(env: Env, a: Arch, op: MemOp, v: u32, rt: Reg, dev: nat, off: int)
    requires ArchOk(a) && op in {LWL, LWR}
    ensures var io := a.io + [Handler(dev, off, 4, false, 0)];
            CompleteLoadPart(env, a, Io(dev, off), op, v, rt) ==
            match env.reply(io)
            case NoReply => (a.(io := io, stop := NoData), true)
            case Value(_) => (a.(io := io), false)
            case Window(w) => (a.(gpr := a.gpr[rt := LoadPart(op, env.bigEndian, v, a.gpr[rt], w)], io := io), false)
  {
    hide LoadPart;
  }

  lemma WordOf(v: u32)
    ensures v / 4 * 4 == v - v % 4
  {}

  lemma PartialLoadIs(env: Env, a: Arch, op: MemOp, v: u32, rt: Reg, dev: nat, off: int)
    requires ArchOk(a) && op in {LWL, LWR} && AccessMem(env, a, v - v % 4, op, false) == (a, Io(dev, off))
    ensures DoMem(env, a, op, v, rt) == CompleteLoadPart(env, a, Io(dev, off), op, v, rt)
  {
    hide AccessMem, CompleteLoadPart;
  }

  lemma PartialTellsDevice(env: Env, a: Arch, op: MemOp, base: Reg, rt: Reg, offset: int, dev: nat, off: int)
    requires ArchOk(a) && op in {SWL, SWR}
    requires var v := (a.gpr[base] + offset) % 0x1_0000_0000;
             AccessMem(env, a.(llBit := false), v / 4 * 4, op, true) == (a.(llBit := false), Io(dev, off))
    ensures var v := (a.gpr[base] + offset) % 0x1_0000_0000;
            var (c, res) := Execute(env, a, Mem(op, base, rt, offset), 0);
            var io := a.io + [Handler(dev, off, 4, true, a.gpr[rt])];
            var b := a.(llBit := false, log := a.log + [Ran(op, !res)]);
            match env.reply(io)
            case NoReply => res && c == b.(io := io, stop := NoData)
            case Value(_) => !res && c == b.(io := io)
            case Window(w) => !res && c == b.(io := io + [Poke(dev, off, 4, StorePart(op, env.bigEndian, v, a.gpr[rt], w))])
  {
    hide AccessMem, Execute, DoMem, StorePart, CompleteStorePart;
    var v: u32 := (a.gpr[base] + offset) % 0x1_0000_0000;
    WordOf(v);
    PartialStoreIs(env, a, op, v, rt, dev, off);
    PartialStoreEnds(env, a.(llBit := false), op, v, a.gpr[rt], dev, off);
    MemRuns(env, a, op, base, rt, offset);
  }

  lemma PartialStoreEnds(env: Env, a: Arch, op: MemOp, v: u32, value: u32, dev: nat, off: int)
    requires ArchOk(a) && op in {SWL, SWR}
    ensures var io := a.io + [Handler(dev, off, 4, true, value)];
            CompleteStorePart(env, a, Io(dev, off), op, v, value) ==
            match env.reply(io)
            case NoReply => (a.(io := io, stop := NoData), true)
            case Value(_) => (a.(io := io), false)
            case Window(w) => (a.(io := io + [Poke(dev, off, 4, StorePart(op, env.bigEndian, v, value, w))]), false)
  {
    hide StorePart;
  }

  lemma PartialStoreIs(env: Env, a: Arch, op: MemOp, v: u32, rt: Reg, dev: nat, off: int)
    requires ArchOk(a) && op in {SWL, SWR}
    requires AccessMem(env, a.(llBit := false), v - v % 4, op, true) == (a.(llBit := false), Io(dev, off))
    ensures DoMem(env, a, op, v, rt) ==
            CompleteStorePart(env, a.(llBit := false), Io(dev, off), op, v, a.gpr[rt])
  {
    hide AccessMem, CompleteStorePart;
  }

  // CACHE touches nothing but the link.
  lemma CacheRuns(env: Env, a: Arch, base: Reg, rt: Reg, offset: int)
    requires ArchOk(a)
    ensures Execute(env, a, Mem(CACHE, base, rt, offset), 0) ==
            (a.(llBit := false, log := a.log + [Ran(CACHE, true)]), false)
  {}
}

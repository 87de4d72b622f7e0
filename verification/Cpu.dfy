// The emulated processor with both lookup caches, updated in place. Every
// method leaves the processor in the state that the uncached machine reaches.
module CpuModel {
  import opened Wrappers
  import opened Machine
  import opened Coherence

  // ------------------------------------------------- device entries, packed

  // A device entry carries a 6-bit slot number and a 26-bit offset in a word.
  function Pack(id: nat, offset: nat): u32 { Wrap(id * 0x400_0000 + offset) }

  function UnpackId(hpa: u32): nat { hpa / 0x400_0000 % 0x40 }

  function UnpackOffset(hpa: u32): nat { hpa % 0x400_0000 / 0x10 * 0x10 }

  // At most 64 devices; those that are not memory are page-aligned and span at
  // most 64 MB.
  predicate BusOk(bus: seq<Device>) {
    forall d | d in bus && !d.direct :: d.id < 0x40 && d.base % 0x1000 == 0 && d.len <= 0x400_0000
  }

  lemma SplitWord(h: nat, id: nat, offset: nat)
    requires h == id * 0x400_0000 + offset && offset < 0x400_0000
    ensures h / 0x400_0000 == id && h % 0x400_0000 == offset
  {
  }

  lemma UnpackPage(id: nat, page: nat)
    requires id < 0x40 && page < 0x4000
    ensures UnpackId(Pack(id, page * 0x1000)) == id && UnpackOffset(Pack(id, page * 0x1000)) == page * 0x1000
  {
    var h := Pack(id, page * 0x1000);
    assert h == id * 0x400_0000 + page * 0x1000;
    SplitWord(h, id, page * 0x1000);
    assert page * 0x1000 / 0x10 == page * 0x100;
  }

  // The packing is exact for every page of every such device.
  lemma UnpackUndoesPack(bus: seq<Device>, d: Device, page: u32)
    requires BusOk(bus) && d in bus && !d.direct && Covers(d, page) && page % 0x1000 == 0
    ensures UnpackId(Pack(d.id, page - d.base)) == d.id
    ensures UnpackOffset(Pack(d.id, page - d.base)) == page - d.base
  {
    hide Pack, UnpackId, UnpackOffset;
    var k := (page - d.base) / 0x1000;
    assert page - d.base == k * 0x1000;
    UnpackPage(d.id, k);
  }

  // -------------------------------------------------------- the discipline

  // The page of the code being executed translates as before.
  predicate CodeStays(env: Env, a: Arch, b: Arch) {
    Locate(env, b.tlb, b.cp0.entryHi.asid, a.codePage, false) ==
    Locate(env, a.tlb, a.cp0.entryHi.asid, a.codePage, false)
  }

  // Code in kseg0 and kseg1 always does.
  lemma UnmappedCodeStays(env: Env, a: Arch, b: Arch)
    requires !Mapped(a.codePage)
    ensures CodeStays(env, a, b)
  {
    DirectPlace(env, a.tlb, b.tlb, a.cp0.entryHi.asid, b.cp0.entryHi.asid, a.codePage);
  }

  // A TLB write with a legal page size that leaves alone every mapping the
  // cache may go on holding.
  ghost predicate WriteOk(env: Env, tlb: seq<TlbEntry>, i: nat, entry: TlbEntry) {
    i < |tlb| ==> LegalMask(entry.mask) && MappingsKept(env, tlb, i, entry)
  }

  // What one instruction may do: no more than the two caches can bear, which
  // notice neither TLB writes beyond two buckets nor changes to the code page.
  ghost predicate InsnSafe(env: Env, a: Arch, insn: Insn, random: nat)
    requires ArchOk(a)
  {
    match insn
    case Tlbwi =>
      WriteOk(env, a.tlb, WriteIndex(a, random), NewEntry(a.cp0))
      && CodeStays(env, a, TlbWriteAt(a, WriteIndex(a, random)))
    case Tlbwr => WriteOk(env, a.tlb, random, NewEntry(a.cp0)) && CodeStays(env, a, TlbWriteAt(a, random))
    case Tlbr => CodeStays(env, a, TlbRead(a))
    case Mtc0(src, EntryHiReg) => CodeStays(env, a, MoveToCp0(a, EntryHiReg, a.gpr[src]))
    case _ => true
  }

  // Code is fetched from memory, not from a device.
  predicate FetchSafe(env: Env, a: Arch, at: u32) { Fetch(env, a, at).0.stop != CodeInDevice }

  ghost predicate SlotSafe(env: Env, a: Arch, random: nat)
    requires ArchOk(a)
  {
    var s := a.(inSlot := true);
    var (b, word) := Fetch(env, s, Wrap(a.pc + 4));
    b.stop != CodeInDevice && (word.Some? ==> InsnSafe(env, b, env.decode(word.value), random))
  }

  predicate SlotRuns(a: Arch, b: Branch)
    requires ArchOk(a)
  {
    !(Likely(b) && !Taken(b, Link(a, b).gpr))
  }

  ghost predicate StepSafe(env: Env, a: Arch, random: nat)
    requires ArchOk(a)
  {
    var z := SetGpr(a, 0, 0);
    a.stop == Running && !a.irqPending ==>
      var (b, word) := Fetch(env, z, z.pc);
      && b.stop != CodeInDevice
      && (word.Some? ==>
            var insn := env.decode(word.value);
            if insn.Br? then SlotRuns(b, insn.b) ==> SlotSafe(env, Link(b, insn.b), random)
            else InsnSafe(env, b, insn, random))
  }

  // The step's last instruction fetch faulted.
  predicate FetchFaults(env: Env, a: Arch)
    requires ArchOk(a)
  {
    var z := SetGpr(a, 0, 0);
    a.stop == Running && !a.irqPending &&
    var (b, word) := Fetch(env, z, z.pc);
    || word.None?
    || (var insn := env.decode(word.value);
        && insn.Br? && SlotRuns(b, insn.b)
        && Fetch(env, Link(b, insn.b).(inSlot := true), Wrap(b.pc + 4)).1.None?)
  }

  // After a faulting fetch, execution continues outside the page of the last
  // instruction fetched.
  predicate LeavesPage(env: Env, a: Arch, random: nat)
    requires ArchOk(a)
  {
    var r := Step(env, a, random);
    FetchFaults(env, a) && r.stop == Running ==> Page(r.pc) != r.codePage
  }

  ghost predicate EventSafe(env: Env, a: Arch, ev: Event)
    requires ArchOk(a)
  {
    ev.Tick? ==> StepSafe(env, a, ev.random) && LeavesPage(env, a, ev.random)
  }

  ghost predicate RunSafe(env: Env, a: Arch, events: seq<Event>)
    requires ArchOk(a)
    decreases |events|
  {
    events != [] ==> EventSafe(env, a, events[0]) && RunSafe(env, React(env, a, events[0]), events[1..])
  }

  // ----------------------------------------------------------- power-on

  // PRId and the Config registers of the board.
  const RESET_OTHER: map<nat, u32> :=
    map[15 := 0x0ad0_024f, CONFIG := 0x8000_0082, CONFIG + 1 := 0x3e61_3080, CONFIG + 7 := 0]

  const ZERO_ENTRY: TlbEntry := TlbEntry(0, HiOf(0), LoOf(0), LoOf(0))

  function ResetState(pc: u32, entries: nat, mem: Memory): Arch {
    Arch(pc, seq(32, _ => 0), 0, 0,
         Cp0(0, LoOf(0), LoOf(0), 0, 0, 0, HiOf(0), StatusOf(0x40_0000), CauseOf(0), 0, 0, RESET_OTHER),
         seq(entries, _ => ZERO_ENTRY), false, false, false, 0, 0, mem, [], Running, [])
  }

  datatype Found = Failed | Cached(e: CacheEntry) | Packed(gvpa: u32, hpa: u32)

  // The outcome of a slow lookup names the given place.
  predicate FoundAt(r: Found, v: u32, place: Place) {
    match place
    case InRam(p) => r.Cached? && HostPtr(r.e.hpa.dev, r.e.hpa.off + v % 0x1000) == p
    case InDevice(d, off) =>
      r.Packed? && r.gvpa == Page(v) && UnpackId(r.hpa) == d && UnpackOffset(r.hpa) + v % 0x1000 == off
    case _ => r == Failed
  }

  class Cpu {
    const env: Env
    const tlb: array<TlbEntry>
    const mts: array<CacheEntry>
    var pc: u32
    var gpr: seq<u32>
    var hi: u32
    var lo: u32
    var cp0: Cp0
    var llBit: bool
    var inSlot: bool
    var irqPending: bool
    var irqCause: u8
    var execPage: u32
    var execPtr: Option<HostPtr>
    var mem: Memory
    var io: seq<IoEvent>
    var stop: Stop
    ghost var log: seq<Note>

    // The guest-visible state: everything but the two caches.
    ghost function State(): Arch
      reads this, tlb
    {
      Arch(pc, gpr, hi, lo, cp0, tlb[..], llBit, inSlot, irqPending, irqCause, execPage, mem, io, stop, log)
    }

    ghost predicate FetchOk()
      reads this, tlb
    {
      && execPage % 0x1000 == 0
      && (execPtr.Some? ==> Locate(env, tlb[..], cp0.entryHi.asid, execPage, false) == InRam(execPtr.value))
    }

    ghost predicate TablesOk()
      reads tlb, mts
    {
      && BusOk(env.bus)
      && LegalMasks(tlb[..])
      && CacheOk(env, tlb[..], mts[..])
    }

    ghost predicate Valid()
      reads this, tlb, mts
    {
      |gpr| == 32 && TablesOk() && FetchOk()
    }

    // A faulting fetch empties the page pointer but keeps the page number. If
    // execution then continues in that very page, no lookup is made again.
    predicate Wedged()
      reads this
    {
      execPtr.None? && Page(pc) == execPage
    }

    constructor (env: Env, pc: u32, entries: nat, mem: Memory)
      requires BusOk(env.bus) && Page(pc) != 0
      ensures Valid() && !Wedged() && State() == ResetState(pc, entries, mem)
      ensures this.env == env && fresh(tlb) && fresh(mts)
    {
      hide Locate, Lookup, PlaceAt, Mapped, StatusOf, LoOf, HiOf, CauseOf;
      this.env := env;
      this.tlb := new TlbEntry[entries](_ => ZERO_ENTRY);
      this.mts := new CacheEntry[BUCKETS](_ => INVALID);
      this.pc, gpr, hi, lo := pc, seq(32, _ => 0), 0, 0;
      cp0 := Cp0(0, LoOf(0), LoOf(0), 0, 0, 0, HiOf(0), StatusOf(0x40_0000), CauseOf(0), 0, 0, RESET_OTHER);
      llBit, inSlot, irqPending, irqCause := false, false, false, 0;
      execPage, execPtr, this.mem, io, stop, log := 0, None, mem, [], Running, [];
    }

    // ------------------------------------------------------------ exceptions

    // The exception level is set by now, so the refill vectors are out of reach.
    method ExceptionVector(code: nat) returns (v: u32)
      requires cp0.status.exl
      ensures v == Vector(cp0.status.bev, cp0.cause.iv, code)
    {
      var newPc: int;
      if cp0.status.bev {
        if code == TLB_LOAD || code == TLB_SAVE {
          if cp0.status.exl { newPc := 0xbfc0_0380; } else { newPc := 0xbfc0_0200; }
        } else if code == INTERRUPT {
          if cp0.cause.iv { newPc := 0xbfc0_0400; } else { newPc := 0xbfc0_0380; }
        } else {
          newPc := 0xbfc0_0380;
        }
      } else {
        if code == TLB_LOAD || code == TLB_SAVE {
          if cp0.status.exl { newPc := 0x8000_0180; } else { newPc := 0x8000_0000; }
        } else if code == INTERRUPT {
          if cp0.cause.iv { newPc := 0x8000_0200; } else { newPc := 0x8000_0180; }
        } else {
          newPc := 0x8000_0180;
        }
      }
      v := newPc;
    }

    method RecordException(code: nat, slot: bool)
      modifies this`cp0
      ensures cp0 == RaisedCp0(old(cp0), pc, code, slot)
      ensures cp0.status.exl && cp0.status.bev == old(cp0).status.bev && cp0.cause.iv == old(cp0).cause.iv
      ensures cp0.entryHi == old(cp0).entryHi
    {
      var cause := cp0.cause;
      if !cp0.status.exl {
        cp0 := cp0.(epc := pc);
        cause := cause.(bd := slot);
      }
      cp0 := cp0.(cause := cause.(code := code));
      cp0 := cp0.(status := cp0.status.(exl := true));
      cp0 := cp0.(status := cp0.status.(erl := false));
    }

    method TriggerException(code: nat, slot: bool)
      requires Valid()
      modifies this
      ensures Valid() && execPtr == old(execPtr)
      ensures State() == Raise(old(State()), code, slot)
    {
      hide Locate, RaisedCp0, Vector;
      RecordException(code, slot);
      if code == INTERRUPT {
        irqCause := 0;
      }
      pc := ExceptionVector(code);
      irqPending := false;
    }

    method AccessSpecial(v: u32, code: nat)
      requires Valid()
      modifies this
      ensures Valid() && execPtr == old(execPtr)
      ensures State() == RaiseAt(old(State()), v, code)
    {
      cp0 := cp0.(badVAddr := v);
      cp0 := cp0.(entryHi := cp0.entryHi.(vpn2 := v / 0x2000));
      cp0 := cp0.(context := cp0.context - cp0.context / 0x10 % 0x8_0000 * 0x10 + v / 0x2000 * 0x10);
      TriggerException(code, inSlot);
    }

    method ExecEret()
      requires Valid()
      modifies this
      ensures Valid() && execPtr == old(execPtr)
      ensures State() == ReturnFromException(old(State()))
    {
      hide Locate, CacheOk, LegalMasks, BusOk;
      if cp0.status.erl {
        cp0 := cp0.(status := cp0.status.(erl := false));
        pc := cp0.errEpc;
      } else {
        cp0 := cp0.(status := cp0.status.(exl := false));
        pc := cp0.epc;
      }
      llBit := false;
      log := log + [Returned];
    }

    method UpdateFlag() returns (taken: bool)
      requires Valid()
      modifies this
      ensures Valid() && execPtr == old(execPtr)
      ensures State() == UpdateIrqFlag(old(State())) && taken == irqPending
    {
      irqPending := false;
      cp0 := cp0.(cause := cp0.cause.(ip := irqCause));
      if cp0.status.ie && !cp0.status.exl && !cp0.status.erl {
        if Meet(cp0.cause.ip, cp0.status.im) {
          irqPending := true;
          return true;
        }
      }
      return false;
    }

    method ServiceIrq()
      requires Valid()
      modifies this
      ensures Valid() && execPtr == old(execPtr)
      ensures State() == TriggerIrq(old(State()))
    {
      var taken := UpdateFlag();
      if taken {
        TriggerException(INTERRUPT, false);
      }
    }

    method RaiseIrq(line: nat)
      requires Valid()
      modifies this
      ensures Valid() && execPtr == old(execPtr)
      ensures State() == SetIrq(old(State()), line)
    {
      if line < 8 && !HasLine(irqCause, line) {
        irqCause := irqCause + LineWeight(line);
      }
    }

    method LowerIrq(line: nat)
      requires Valid()
      modifies this
      ensures Valid() && execPtr == old(execPtr)
      ensures State() == ClearIrq(old(State()), line)
    {
      if HasLine(irqCause, line) {
        irqCause := irqCause - LineWeight(line);
      }
      if irqCause == 0 {
        irqPending := false;
      }
    }

    // ------------------------------------------------------------- the TLB

    method TlbLookup(v: u32) returns (r: Option<Hit>)
      ensures r == Lookup(tlb[..], v / 0x1000, cp0.entryHi.asid)
    {
      var vpn, asid := v / 0x1000, cp0.entryHi.asid;
      var i := 0;
      while i < tlb.Length
        invariant 0 <= i <= tlb.Length
        invariant Probe(tlb[..], vpn / 2, asid) == ProbeFrom(tlb[..], vpn / 2, asid, i)
      {
        if Matches(tlb[i], vpn / 2, asid) {
          return Some(HitOf(tlb[i], vpn));
        }
        i := i + 1;
      }
      return None;
    }

    method ExecTlbp()
      requires Valid()
      modifies this
      ensures Valid() && execPtr == old(execPtr)
      ensures State() == TlbProbe(old(State()))
    {
      var vpn2, asid := cp0.entryHi.vpn2, cp0.entryHi.asid;
      cp0 := cp0.(index := 0x8000_0000);
      var i := 0;
      while i < tlb.Length
        invariant 0 <= i <= tlb.Length && Valid()
        invariant State() == old(State()).(cp0 := old(cp0).(index := 0x8000_0000)) && execPtr == old(execPtr)
        invariant Probe(tlb[..], vpn2, asid) == ProbeFrom(tlb[..], vpn2, asid, i)
      {
        if Matches(tlb[i], vpn2, asid) {
          cp0 := cp0.(index := Wrap(i));
          return;
        }
        i := i + 1;
      }
    }

    method ExecTlbr()
      requires Valid()
      requires CodeStays(env, State(), TlbRead(State()))
      modifies this
      ensures Valid() && execPtr == old(execPtr)
      ensures State() == TlbRead(old(State()))
    {
      var index := cp0.index;
      if index < tlb.Length {
        var e := tlb[index];
        cp0 := cp0.(pageMask := e.mask, entryHi := e.hi, entryLo0 := e.lo0, entryLo1 := e.lo1);
        if e.hi.global {
          cp0 := cp0.(entryLo0 := cp0.entryLo0.(global := true), entryLo1 := cp0.entryLo1.(global := true));
          cp0 := cp0.(entryHi := cp0.entryHi.(global := false));
        }
      }
    }

    method InvalidateBucket(b: nat)
      requires b < mts.Length
      modifies mts
      ensures mts[..] == old(mts[..])[b := INVALID]
    {
      mts[b] := INVALID;
    }

    method UnmapTlbEntry(i: nat)
      requires i < tlb.Length && mts.Length == BUCKETS
      modifies mts
      ensures forall b | 0 <= b < BUCKETS ::
                mts[b] == if Invalidated(tlb[i], b) then INVALID else old(mts[b])
    {
      var e := tlb[i];
      if e.lo0.valid {
        InvalidateBucket(EvenBucket(e));
      }
      if e.lo1.valid {
        InvalidateBucket(OddBucket(e));
      }
    }

    method ExecTlbw(i: nat)
      requires Valid()
      requires WriteOk(env, tlb[..], i, NewEntry(cp0)) && CodeStays(env, State(), TlbWriteAt(State(), i))
      modifies this, tlb, mts
      ensures Valid() && execPtr == old(execPtr)
      ensures State() == TlbWriteAt(old(State()), i)
    {
      if i < tlb.Length {
        UnmapTlbEntry(i);
        ghost var entry := NewEntry(cp0);
        ghost var before := tlb[..];
        forall b | 0 <= b < BUCKETS
          ensures BucketOk(env, before[i := entry], b, mts[b])
        {
          if !Invalidated(before[i], b) {
            BucketAfterWrite(env, before, i, entry, b, old(mts[..])[b]);
          }
        }
        var e := TlbEntry(cp0.pageMask, cp0.entryHi, cp0.entryLo0, cp0.entryLo1);
        if e.lo0.global && e.lo1.global {
          e := e.(hi := e.hi.(global := true));
        }
        tlb[i] := e.(lo0 := e.lo0.(global := false), lo1 := e.lo1.(global := false));
        assert tlb[..] == before[i := entry];
      }
    }

    // Writing Compare acknowledges the timer interrupt.
    method WriteCompare(v: u32)
      requires Valid()
      modifies this
      ensures Valid() && execPtr == old(execPtr)
      ensures State() == MoveToCp0(old(State()), Compare, v)
    {
      hide Locate, ClearIrq, UpdateIrqFlag;
      log := log + [Wrote(Compare)];
      LowerIrq(7);
      var _ := UpdateFlag();
      cp0 := cp0.(other := cp0.other[11 := v]);
    }

    method WriteConfig(sel: nat, v: u32)
      requires Valid()
      modifies this
      ensures Valid() && execPtr == old(execPtr)
      ensures State() == MoveToCp0(old(State()), Config(sel), v)
    {
      hide Locate;
      log := log + [Wrote(Config(sel))];
      if sel in CONFIG_WRITABLE {
        cp0 := cp0.(other := cp0.other[CONFIG + sel := ConfigOf(cp0.other, sel, v)]);
      } else {
        stop := BadConfig;
      }
    }

    method SetReg(reg: CpReg, v: u32)
      requires Valid()
      requires reg == EntryHiReg ==> CodeStays(env, State(), MoveToCp0(State(), reg, v))
      modifies this
      ensures Valid() && execPtr == old(execPtr)
      ensures State() == MoveToCp0(old(State()), reg, v)
    {
      hide Locate, HiOf, LoOf, StatusOf, CauseOf, ConfigOf;
      match reg {
        case Compare =>
          WriteCompare(v);
          return;
        case Config(sel) =>
          WriteConfig(sel, v);
          return;
        case Index => cp0 := cp0.(index := v);
        case EntryLo0 => cp0 := cp0.(entryLo0 := LoOf(v));
        case EntryLo1 => cp0 := cp0.(entryLo1 := LoOf(v));
        case Context => cp0 := cp0.(context := v);
        case PageMask => cp0 := cp0.(pageMask := v);
        case BadVAddr => cp0 := cp0.(badVAddr := v);
        case EntryHiReg => cp0 := cp0.(entryHi := HiOf(v));
        case StatusReg => cp0 := cp0.(status := StatusOf(v));
        case CauseReg => cp0 := cp0.(cause := CauseOf(v));
        case Epc => cp0 := cp0.(epc := v);
        case ErrEpc => cp0 := cp0.(errEpc := v);
        case OtherReg(n) => cp0 := cp0.(other := cp0.other[n := v]);
        case ReadOnlyReg =>
      }
      log := log + [Wrote(reg)];
    }

    // -------------------------------------------------------- address lookup

    method DeviceAt(pa: u32) returns (r: Option<Device>)
      ensures r == DevLookup(env.bus, pa)
    {
      var i := 0;
      while i < |env.bus|
        invariant 0 <= i <= |env.bus|
        invariant DevLookup(env.bus, pa) == DevLookup(env.bus[i..], pa)
      {
        if Covers(env.bus[i], pa) {
          return Some(env.bus[i]);
        }
        i := i + 1;
      }
      return None;
    }

    // Fill the bucket of a page in memory; describe a device page in a word.
    method MapPage(v: u32, hit: Hit, mapped: bool, asid: nat) returns (r: Found)
      requires Valid() && PageFound(tlb[..], v, hit, mapped, asid)
      requires hit.frame % 0x1000 == 0
      modifies mts
      ensures Valid()
      ensures FoundAt(r, v, PlaceAt(env.bus, hit.frame, v % 0x1000))
    {
      hide Locate, Lookup, PageFound, LegalMasks, BusOk, Mapped, UnpackId, UnpackOffset, Pack;
      var dev := DeviceAt(hit.frame);
      if dev.None? {
        return Failed;
      }
      var d := dev.value;
      if !d.direct {
        UnpackUndoesPack(env.bus, d, hit.frame);
        return Packed(Page(v), Pack(d.id, hit.frame - d.base));
      }
      var e := CacheEntry(Page(v), hit.frame, HostPtr(d.id, hit.frame - d.base), asid, 0,
                          if hit.dirty then 1 else 0, if mapped then 1 else 0);
      FilledBucket(env, tlb[..], v, hit, mapped, asid, d);
      hide BucketOk;
      mts[Bucket(v)] := e;
      return Cached(e);
    }

    method SlowLookup(v: u32, write: bool) returns (r: Found)
      requires Valid()
      modifies this, mts
      ensures Valid() && execPtr == old(execPtr)
      ensures State() == Resolve(env, old(State()), v, write).0
      ensures FoundAt(r, v, Locate(env, tlb[..], old(cp0).entryHi.asid, v, write))
    {
      hide CacheOk, RaiseAt, LegalMasks, BusOk, Lookup, UnpackId, UnpackOffset;
      if Mapped(v) {
        var hit := TlbLookup(v);
        if hit.None? || !hit.value.valid {
          AccessSpecial(v, if write then TLB_SAVE else TLB_LOAD);
          return Failed;
        }
        if write && !hit.value.dirty {
          AccessSpecial(v, TLB_MOD);
          return Failed;
        }
        LookupAligned(tlb[..], v / 0x1000, cp0.entryHi.asid);
        r := MapPage(v, hit.value, true, cp0.entryHi.asid);
      } else {
        // The dirty bit and identifier of an unmapped page are never set.
        var dirty: bool, asid: nat := *, *;
        r := MapPage(v, Hit(Page(v) % 0x2000_0000, dirty, true), false, asid);
      }
      if r == Failed {
        stop := NoDevice;
      }
    }

    method AccessPage(v: u32, write: bool) returns (acc: Access)
      requires Valid()
      modifies this, mts
      ensures Valid() && execPtr == old(execPtr)
      ensures (State(), acc) == Resolve(env, old(State()), v, write)
    {
      var entry := mts[Bucket(v)];
      if CacheHit(entry, cp0.entryHi.asid, v, write) {
        HitIsTranslation(env, tlb[..], cp0.entryHi.asid, v, write, entry);
      } else {
        var found := SlowLookup(v, write);
        match found {
          case Failed => return Fault;
          case Packed(gvpa, hpa) => return Io(UnpackId(hpa), UnpackOffset(hpa) + (v - gvpa));
          case Cached(e) => entry := e;
        }
      }
      return Ram(HostPtr(entry.hpa.dev, entry.hpa.off + v % 0x1000));
    }

    method AccessFor(v: u32, op: MemOp, write: bool) returns (acc: Access)
      requires Valid()
      modifies this, mts
      ensures Valid() && execPtr == old(execPtr)
      ensures (State(), acc) == AccessMem(env, old(State()), v, op, write)
    {
      if Misaligned(v, op) {
        AccessSpecial(v, if write then ADDR_SAVE else ADDR_LOAD);
        return Fault;
      }
      acc := AccessPage(v, write);
    }

    // --------------------------------------------------- memory instructions

    method CallDevice(dev: nat, off: int, op: MemOp, write: bool, data: u32) returns (reply: Reply)
      requires Valid()
      modifies this
      ensures Valid() && execPtr == old(execPtr)
      ensures (State(), reply) == CallHandler(env, old(State()), Io(dev, off), op, write, data)
    {
      hide Locate;
      io := io + [Handler(dev, off, Size(op), write, data)];
      reply := env.reply(io);
    }

    method Load(op: MemOp, v: u32, rt: Reg) returns (res: bool)
      requires Valid()
      modifies this, mts
      ensures Valid() && execPtr == old(execPtr)
      ensures (State(), res) == DoLoad(env, old(State()), op, v, rt)
    {
      hide Locate, AccessMem, ReadMem, Extend, CallHandler;
      var acc := AccessFor(v, op, false);
      match acc
      case Fault => return true;
      case Ram(p) =>
        gpr := gpr[rt := Extend(op, ReadMem(env.bigEndian, mem, p, Size(op)))];
        return false;
      case Io(d, off) =>
        var reply := CallDevice(d, off, op, false, 0);
        if reply.NoReply? {
          stop := NoData;
          return true;
        }
        gpr := gpr[rt := Extend(op, reply.data)];
        return false;
    }

    method LoadLinked(v: u32, rt: Reg) returns (res: bool)
      requires Valid()
      modifies this, mts
      ensures Valid() && execPtr == old(execPtr)
      ensures (State(), res) == DoLoadLinked(env, old(State()), v, rt)
    {
      hide Locate, DoLoad;
      res := Load(LL, v, rt);
      if !res {
        llBit := true;
      }
    }

    method LoadPartial(op: MemOp, v: u32, rt: Reg) returns (res: bool)
      requires Valid()
      modifies this, mts
      ensures Valid() && execPtr == old(execPtr)
      ensures (State(), res) == DoLoadPart(env, old(State()), op, v, rt)
    {
      hide Locate, AccessMem, ReadMem, LoadPart, CallHandler;
      var acc := AccessFor(v - v % 4, op, false);
      match acc
      case Fault => return true;
      case Ram(p) =>
        gpr := gpr[rt := LoadPart(op, env.bigEndian, v, gpr[rt], ReadMem(env.bigEndian, mem, p, 4))];
        return false;
      case Io(d, off) =>
        var reply := CallDevice(d, off, op, false, 0);
        match reply
        case NoReply =>
          stop := NoData;
          return true;
        case Value(_) => return false;
        case Window(w) =>
          gpr := gpr[rt := LoadPart(op, env.bigEndian, v, gpr[rt], w)];
          return false;
    }

    method ClearLink()
      requires Valid()
      modifies this
      ensures Valid() && execPtr == old(execPtr)
      ensures State() == BreakLink(old(State()))
    {
      hide Locate;
      llBit := false;
    }

    method PutData(acc: Access, op: MemOp, data: u32) returns (res: bool)
      requires Valid()
      modifies this
      ensures Valid() && execPtr == old(execPtr)
      ensures (State(), res) == Deliver(env, old(State()), acc, op, data)
    {
      hide Locate, WriteMem, CallHandler;
      match acc
      case Fault => return true;
      case Ram(p) =>
        mem := WriteMem(env.bigEndian, mem, p, Size(op), data);
        return false;
      case Io(d, off) =>
        var reply := CallDevice(d, off, op, true, data);
        match reply
        case NoReply =>
          stop := NoData;
          return true;
        case Value(_) => return false;
        case Window(_) =>
          io := io + [Poke(d, off, Size(op), data)];
          return false;
    }

    method Store(op: MemOp, v: u32, rt: Reg) returns (res: bool)
      requires Valid()
      modifies this, mts
      ensures Valid() && execPtr == old(execPtr)
      ensures (State(), res) == DoStore(env, old(State()), op, v, rt)
    {
      hide Locate, AccessMem, Deliver, BreakLink;
      var data := gpr[rt] % Pow256(Size(op));
      ClearLink();
      var acc := AccessFor(v, op, true);
      res := PutData(acc, op, data);
    }

    method PutPart(acc: Access, op: MemOp, v: u32, reg: u32) returns (res: bool)
      requires Valid()
      modifies this
      ensures Valid() && execPtr == old(execPtr)
      ensures (State(), res) == CompleteStorePart(env, old(State()), acc, op, v, reg)
    {
      hide Locate, ReadMem, WriteMem, StorePart, CallHandler;
      match acc
      case Fault => return true;
      case Ram(p) =>
        var word := StorePart(op, env.bigEndian, v, reg, ReadMem(env.bigEndian, mem, p, 4));
        mem := WriteMem(env.bigEndian, mem, p, 4, word);
        return false;
      case Io(d, off) =>
        var reply := CallDevice(d, off, op, true, reg);
        match reply
        case NoReply =>
          stop := NoData;
          return true;
        case Value(_) => return false;
        case Window(w) =>
          io := io + [Poke(d, off, 4, StorePart(op, env.bigEndian, v, reg, w))];
          return false;
    }

    method StorePartial(op: MemOp, v: u32, rt: Reg) returns (res: bool)
      requires Valid()
      modifies this, mts
      ensures Valid() && execPtr == old(execPtr)
      ensures (State(), res) == DoStorePart(env, old(State()), op, v, rt)
    {
      hide Locate, AccessMem, CompleteStorePart, BreakLink;
      var reg := gpr[rt];
      ClearLink();
      var acc := AccessFor(v - v % 4, op, true);
      res := PutPart(acc, op, v, reg);
    }

    method StoreConditional(v: u32, rt: Reg) returns (res: bool)
      requires Valid()
      modifies this, mts
      ensures Valid() && execPtr == old(execPtr)
      ensures (State(), res) == DoStoreConditional(env, old(State()), v, rt)
    {
      hide Locate, AccessMem, Deliver;
      var stored := llBit;
      if stored {
        var data := gpr[rt];
        var acc := AccessFor(v, SC, true);
        res := PutData(acc, SC, data);
        if res {
          return;
        }
      }
      gpr := gpr[rt := if stored then 1 else 0];
      return false;
    }

    method ExecMem(op: MemOp, v: u32, rt: Reg) returns (res: bool)
      requires Valid()
      modifies this, mts
      ensures Valid() && execPtr == old(execPtr)
      ensures (State(), res) == DoMem(env, old(State()), op, v, rt)
    {
      hide Locate, DoLoad, DoLoadLinked, DoLoadPart, DoStore, DoStorePart, DoStoreConditional, BreakLink;
      match op
      case LL => res := LoadLinked(v, rt);
      case SC => res := StoreConditional(v, rt);
      case CACHE =>
        ClearLink();
        res := false;
      case LWL | LWR => res := LoadPartial(op, v, rt);
      case SWL | SWR => res := StorePartial(op, v, rt);
      case SB | SH | SW => res := Store(op, v, rt);
      case _ => res := Load(op, v, rt);
    }

    // ----------------------------------------------------- instruction fetch

    // Fetch through the one-page cache. Only a wedged processor differs from
    // the uncached fetch: it reports a fault and changes nothing.
    method FetchInstruction(at: u32) returns (word: Option<u32>)
      requires Valid()
      requires (execPtr.None? && Page(at) == execPage) || FetchSafe(env, State(), at)
      modifies this, mts
      ensures Valid()
      ensures old(execPtr.None? && Page(at) == execPage) ==>
                State() == old(State()) && word.None? && execPtr.None?
      ensures !old(execPtr.None? && Page(at) == execPage) ==>
                (State(), word) == Fetch(env, old(State()), at) && (execPtr.None? <==> word.None?)
    {
      hide ReadMem, RaiseAt, CacheOk, LegalMasks, BusOk, Translate;
      var page := Page(at);
      if page != execPage {
        var acc := AccessPage(page, false);
        execPtr := if acc.Ram? then Some(acc.p) else None;
      }
      if execPtr.None? {
        return None;
      }
      execPage := page;
      var p := execPtr.value;
      return Some(ReadMem(env.bigEndian, mem, HostPtr(p.dev, p.off + at % 0x1000 / 4 * 4), 4));
    }

    // ----------------------------------------------------------- execution

    method WriteLink(b: Branch)
      requires Valid()
      modifies this
      ensures Valid() && execPtr == old(execPtr)
      ensures State() == Link(old(State()), b)
    {
      hide Locate;
      match LinkReg(b)
      case None =>
      case Some(r) => gpr := gpr[r := Wrap(pc + 8)];
    }

    method SoftFpu()
      requires Valid()
      modifies this
      ensures Valid() && execPtr == old(execPtr)
      ensures State() == Execute(env, old(State()), Fpu, 0).0
    {
      hide Locate, Raise;
      if cp0.cause.ce % 2 == 0 {
        cp0 := cp0.(cause := cp0.cause.(ce := cp0.cause.ce + 1));
      }
      TriggerException(CP_UNUSABLE, inSlot);
    }

    // A branch in a delay slot, which calls itself unless it is skipped.
    method NestBranch(b: Branch, random: nat)
      requires Valid()
      modifies this
      ensures Valid() && execPtr == old(execPtr)
      ensures (State(), true) == Execute(env, old(State()), Br(b), random)
    {
      hide Locate, Taken;
      WriteLink(b);
      if Likely(b) && !Taken(b, gpr) {
        pc := Wrap(pc + 8);
      } else {
        stop := NestedBranch;
      }
    }

    method ExecTrap(eq: bool, rs: Reg, other: Operand, random: nat) returns (res: bool)
      requires Valid()
      modifies this
      ensures Valid() && execPtr == old(execPtr)
      ensures (State(), res) == Execute(env, old(State()), Trap(eq, rs, other), random)
    {
      hide Locate, Raise;
      res := eq == (gpr[rs] == ValueOf(other, gpr));
      if res {
        TriggerException(TRAP, false);
      }
    }

    method ExecInsn(insn: Insn, random: nat) returns (res: bool)
      requires Valid() && InsnSafe(env, State(), insn, random)
      modifies this, tlb, mts
      ensures Valid() && execPtr == old(execPtr)
      ensures (State(), res) == Execute(env, old(State()), insn, random)
    {
      hide Locate, DoMem, MoveToCp0, TlbProbe, TlbRead, Raise, ReturnFromException, WriteOk, CodeStays, Taken;
      match insn
      case Compute(w) =>
        var c := env.compute(w, gpr, hi, lo, cp0, random);
        gpr, hi, lo := gpr[c.rd := c.value], c.hi, c.lo;
        return false;
      case Br(b) =>
        hide Execute;
        NestBranch(b, random);
        return true;
      case Mem(op, base, rt, offset) =>
        res := ExecMem(op, Wrap(gpr[base] + offset), rt);
        log := log + [Ran(op, !res)];
      case Trap(eq, rs, other) =>
        hide Execute;
        res := ExecTrap(eq, rs, other, random);
      case Unknown =>
        stop := UnknownOp;
        return true;
      case _ =>
        hide Execute;
        res := ExecSystem(insn, random);
    }

    method ExecSystem(insn: Insn, random: nat) returns (res: bool)
      requires Valid() && InsnSafe(env, State(), insn, random)
      requires !insn.Compute? && !insn.Br? && !insn.Mem? && !insn.Trap? && !insn.Unknown?
      modifies this, tlb, mts
      ensures Valid() && execPtr == old(execPtr)
      ensures (State(), res) == Execute(env, old(State()), insn, random)
    {
      hide Locate, DoMem, MoveToCp0, TlbProbe, TlbRead, Raise, ReturnFromException, WriteOk, CodeStays, Taken;
      match insn
      case Mtc0(src, reg) =>
        SetReg(reg, gpr[src]);
        return false;
      case Tlbp =>
        ExecTlbp();
        return false;
      case Tlbr =>
        ExecTlbr();
        return false;
      case Tlbwi =>
        ExecTlbw(if cp0.index >= 0x8000_0000 then random else cp0.index);
        return false;
      case Tlbwr =>
        ExecTlbw(random);
        return false;
      case Eret =>
        ExecEret();
        return true;
      case Syscall =>
        TriggerException(SYSCALL, inSlot);
        return true;
      case Break =>
        TriggerException(BREAKPOINT, false);
        return true;
      case Fpu =>
        SoftFpu();
        return true;
    }

    method ExecSlot(random: nat) returns (res: bool)
      requires Valid() && execPtr.Some? && SlotSafe(env, State(), random)
      modifies this, tlb, mts
      ensures Valid()
      ensures (State(), res) == ExecuteSlot(env, old(State()), random)
      ensures execPtr.None? <==> Fetch(env, old(State()).(inSlot := true), Wrap(old(pc) + 4)).1.None?
    {
      hide Locate, Execute, Fetch, InsnSafe;
      inSlot := true;
      var word := FetchInstruction(Wrap(pc + 4));
      if word.None? {
        inSlot := false;
        return true;
      }
      res := ExecInsn(env.decode(word.value), random);
      inSlot := false;
    }

    method ExecBranch(b: Branch, random: nat)
      requires Valid() && execPtr.Some?
      requires SlotRuns(State(), b) ==> SlotSafe(env, Link(State(), b), random)
      modifies this, tlb, mts
      ensures Valid()
      ensures State() == ExecuteBranch(env, old(State()), b, random)
      ensures execPtr.None? <==>
                SlotRuns(old(State()), b)
                && Fetch(env, Link(old(State()), b).(inSlot := true), Wrap(old(pc) + 4)).1.None?
    {
      hide Locate, ExecuteSlot, Fetch, SlotSafe, Taken, Target;
      WriteLink(b);
      var taken, target := Taken(b, gpr), Target(b, gpr, pc);
      if Likely(b) && !taken {
        pc := Wrap(pc + 8);
        return;
      }
      var res := ExecSlot(random);
      if !res || (b.Cond? && b.style == LikelyIgnored) {
        pc := if taken then target else Wrap(pc + 8);
      }
    }

    // Any instruction but a branch, and on to the next if it completes.
    method ExecPlain(insn: Insn, random: nat)
      requires Valid() && InsnSafe(env, State(), insn, random)
      modifies this, tlb, mts
      ensures Valid() && execPtr == old(execPtr)
      ensures var (c, res) := Execute(env, old(State()), insn, random);
              State() == if res then c else c.(pc := Wrap(c.pc + 4))
    {
      hide Locate, Execute, InsnSafe;
      var res := ExecInsn(insn, random);
      if !res {
        pc := Wrap(pc + 4);
      }
    }

    // One turn of the main loop. Unless it is wedged, the processor reaches
    // exactly the state of the uncached machine; wedged, it makes no progress.
    method Step(random: nat)
      requires Valid()
      requires Wedged() || StepSafe(env, State(), random)
      modifies this, tlb, mts
      ensures Valid()
      ensures old(!Wedged() || stop != Running || irqPending) ==> State() == Machine.Step(env, old(State()), random)
      ensures old(!Wedged() && stop == Running && !irqPending) ==>
                (execPtr.None? <==> FetchFaults(env, old(State())))
      ensures old(stop != Running || irqPending) ==> execPtr == old(execPtr)
      ensures old(Wedged() && stop == Running && !irqPending) ==>
                State() == SetGpr(old(State()), 0, 0) && Wedged()
    {
      hide Locate, Execute, ExecuteBranch, Fetch, InsnSafe, SlotSafe, SlotRuns, TriggerIrq;
      if stop != Running {
        return;
      }
      gpr := gpr[0 := 0];
      if irqPending {
        ServiceIrq();
        return;
      }
      var word := FetchInstruction(pc);
      if word.None? {
        return;
      }
      var insn := env.decode(word.value);
      if insn.Br? {
        ExecBranch(insn.b, random);
      } else {
        ExecPlain(insn, random);
      }
    }

    method Invalidate()
      requires Valid()
      modifies mts
      ensures Valid()
    {
      hide Locate, Lookup, PlaceAt;
      var b := 0;
      while b < mts.Length
        invariant 0 <= b <= mts.Length && Valid()
      {
        mts[b] := INVALID;
        b := b + 1;
      }
    }

    method HandleEvent(ev: Event)
      requires Valid()
      requires ev.Tick? ==> Wedged() || StepSafe(env, State(), ev.random)
      modifies this, tlb, mts
      ensures Valid()
      ensures old(!Wedged() || stop != Running || irqPending || !ev.Tick?) ==> State() == React(env, old(State()), ev)
      ensures !ev.Tick? ==> execPtr == old(execPtr)
      ensures ev.Tick? && old(!Wedged() && stop == Running && !irqPending) ==>
                (execPtr.None? <==> FetchFaults(env, old(State())))
      ensures ev.Tick? && old(stop != Running || irqPending) ==> execPtr == old(execPtr)
      ensures ev.Tick? && old(Wedged() && stop == Running && !irqPending) ==>
                State() == SetGpr(old(State()), 0, 0) && Wedged()
    {
      hide Locate, Machine.Step, StepSafe, FetchFaults;
      match ev
      case Tick(random) => Step(random);
      case RaiseLine(n) =>
        RaiseIrq(n);
        var _ := UpdateFlag();
      case LowerLine(n) => LowerIrq(n);
      case Rebuild => Invalidate();
    }

    // An empty page pointer is harmless while execution is elsewhere and an
    // interrupt cannot bring it back.
    predicate Ready()
      reads this
    {
      || stop != Running
      || execPtr.Some?
      || (Page(pc) != execPage && (cp0.status.exl || execPage == 0))
    }

    // Over every safe run both caches are invisible.
    method Run(events: seq<Event>)
      requires Valid() && Ready() && RunSafe(env, State(), events)
      modifies this, tlb, mts
      ensures Valid() && Ready()
      ensures State() == Machine.Run(env, old(State()), events)
    {
      hide Locate, React, StepSafe, LeavesPage, FetchFaults;
      var i := 0;
      while i < |events|
        invariant 0 <= i <= |events| && Valid() && Ready()
        invariant RunSafe(env, State(), events[i..])
        invariant Machine.Run(env, State(), events[i..]) == Machine.Run(env, old(State()), events)
      {
        ghost var before := State();
        EventKeepsReady(env, before, events[i], execPtr.None?);
        HandleEvent(events[i]);
        assert events[i..][1..] == events[i + 1..];
        i := i + 1;
      }
    }

    // A wedged processor with the exception level set stays wedged: no event
    // moves the program counter or touches memory again.
    method RunWedged(events: seq<Event>)
      requires Valid() && Wedged() && cp0.status.exl && stop == Running
      modifies this, tlb, mts
      ensures Valid() && Wedged() && cp0.status.exl && stop == Running
      ensures pc == old(pc) && mem == old(mem) && io == old(io)
    {
      hide Locate, StepSafe, FetchFaults, Page, React, SetGpr;
      var i := 0;
      while i < |events|
        invariant 0 <= i <= |events| && Valid() && Wedged() && cp0.status.exl && stop == Running
        invariant pc == old(pc) && mem == old(mem) && io == old(io)
      {
        IdleEvent(env, State(), events[i]);
        HandleEvent(events[i]);
        i := i + 1;
      }
    }
  }

  // With the exception level set, an event other than an instruction leaves
  // control and memory where they are.
  lemma IdleEvent(env: Env, a: Arch, ev: Event)
    requires ArchOk(a) && a.cp0.status.exl && a.stop == Running
    ensures var r := if ev.Tick? && !a.irqPending then SetGpr(a, 0, 0) else React(env, a, ev);
            && r.pc == a.pc && r.codePage == a.codePage && r.mem == a.mem && r.io == a.io
            && r.cp0.status == a.cp0.status && r.stop == Running
  {
    hide Fetch, Execute, ExecuteBranch;
  }

  lemma FaultSetsLevel(env: Env, a: Arch, at: u32)
    requires ArchOk(a) && a.stop == Running
    ensures var (b, word) := Fetch(env, a, at);
            && ArchOk(b)
            && b.codePage == (if word.Some? then Page(at) else a.codePage)
            && (word.None? && b.stop == Running ==> b.cp0.status.exl)
            && (word.Some? ==> b.stop == Running)
  {
    hide Locate, ReadMem;
  }

  lemma StepFaultSetsLevel(env: Env, a: Arch, random: nat)
    requires ArchOk(a) && FetchFaults(env, a)
    ensures Machine.Step(env, a, random).stop == Running ==> Machine.Step(env, a, random).cp0.status.exl
  {
    hide Fetch, Taken, Target, Execute;
    var z := SetGpr(a, 0, 0);
    FaultSetsLevel(env, z, z.pc);
    var (b, word) := Fetch(env, z, z.pc);
    if word.Some? {
      var l := Link(b, env.decode(word.value).b);
      FaultSetsLevel(env, l.(inSlot := true), Wrap(b.pc + 4));
    }
  }

  lemma VectorPage(bev: bool, iv: bool, code: nat)
    ensures Page(Vector(bev, iv, code)) != 0
  {}

  // Whether the page pointer is empty after an event follows from the machine
  // alone; if it is, the processor is ready all the same.
  lemma EventKeepsReady(env: Env, a: Arch, ev: Event, empty: bool)
    requires ArchOk(a) && EventSafe(env, a, ev)
    requires a.stop != Running || !empty || (Page(a.pc) != a.codePage && (a.cp0.status.exl || a.codePage == 0))
    ensures var r := React(env, a, ev);
            var emptied := if ev.Tick? && a.stop == Running && !a.irqPending then FetchFaults(env, a) else empty;
            r.stop != Running || !emptied || (Page(r.pc) != r.codePage && (r.cp0.status.exl || r.codePage == 0))
  {
    hide FetchFaults, StepSafe, Page, Vector;
    if ev.Tick? {
      if a.stop == Running && !a.irqPending {
        hide Machine.Step;
        if FetchFaults(env, a) { StepFaultSetsLevel(env, a, ev.random); }
      } else if a.stop == Running {
        VectorPage(a.cp0.status.bev, a.cp0.cause.iv, INTERRUPT);
      }
    }
  }
}

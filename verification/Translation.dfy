// What an access does, read off the TLB entries, the devices and the address:
// where it goes, which exception it takes, and what the handler is told.
module Translation {
  import opened Wrappers
  import opened Machine
  import opened Coherence

  // How many bytes an access must be aligned to.
  function Width(op: MemOp): nat {
    match op
    case LB | LBU | SB | LWL | LWR | SWL | SWR => 1
    case LH | LHU | SH => 2
    case LW | LWU | SW | LL | SC | CACHE => 4
  }

  // kseg0 and kseg1.
  predicate Direct(v: u32) { 0x8000_0000 <= v < 0xc000_0000 }

  function PageSize(e: TlbEntry): nat { e.mask / 2 + 0x1000 }

  // The pair of pages holds the address, in an address space the entry is for.
  predicate Contains(e: TlbEntry, v: u32, asid: nat) {
    v / (2 * PageSize(e)) == e.hi.vpn2 * 0x2000 / (2 * PageSize(e)) && (e.hi.global || e.hi.asid == asid)
  }

  function HalfFor(e: TlbEntry, v: u32): EntryLo { if v / PageSize(e) % 2 == 0 then e.lo0 else e.lo1 }

  function Physical(e: TlbEntry, v: u32): u32 {
    (HalfFor(e, v).pfn * 0x1000 + v % PageSize(e)) % 0x1_0000_0000
  }

  predicate NoEntry(tlb: seq<TlbEntry>, v: u32, asid: nat) { forall j | 0 <= j < |tlb| :: !Contains(tlb[j], v, asid) }

  predicate FirstEntry(tlb: seq<TlbEntry>, k: nat, v: u32, asid: nat) {
    k < |tlb| && Contains(tlb[k], v, asid) && forall j | 0 <= j < k :: !Contains(tlb[j], v, asid)
  }

  // The 4 KB page of an address.
  function PageOf(v: u32): u32 { v / 0x1000 * 0x1000 }

  // The first device to own the 4 KB page of a physical address.
  predicate Owner(bus: seq<Device>, d: Device, pa: u32) {
    var page := PageOf(pa);
    exists i :: 0 <= i < |bus| && bus[i] == d && d.base <= page < d.base + d.len
                && forall j | 0 <= j < i :: !(bus[j].base <= page < bus[j].base + bus[j].len)
  }

  predicate Unowned(bus: seq<Device>, pa: u32) {
    var page := PageOf(pa);
    forall d | d in bus :: !(d.base <= page < d.base + d.len)
  }

  // The access reaches the byte of the device that owns the address, and
  // changes nothing; without an owner the emulator stops.
  ghost predicate Reaches(env: Env, a: Arch, b: Arch, acc: Access, pa: u32) {
    && (forall d | Owner(env.bus, d, pa) ::
          b == a && acc == if d.direct then Ram(HostPtr(d.id, pa - d.base)) else Io(d.id, pa - d.base))
    && (Unowned(env.bus, pa) ==> b == a.(stop := NoDevice) && acc == Fault)
  }

  // What the handler finds: the address in BadVAddr, its page in EntryHi and
  // Context, the rest of both kept, the cause, and control at the vector. The
  // registers, the TLB, memory and the devices are as they were.
  predicate Reports(a: Arch, b: Arch, v: u32, code: nat) {
    && b.cp0.badVAddr == v
    && b.cp0.entryHi == EntryHi(v / 0x2000, a.cp0.entryHi.global, a.cp0.entryHi.spare, a.cp0.entryHi.asid)
    && b.cp0.context / 0x10 % 0x8_0000 == v / 0x2000
    && b.cp0.context % 0x10 == a.cp0.context % 0x10 && b.cp0.context / 0x80_0000 == a.cp0.context / 0x80_0000
    && b.cp0.cause.code == code
    && b.pc == (if a.cp0.status.bev then 0xbfc0_0380 else 0x8000_0180)
    && b.cp0.status == a.cp0.status.(exl := true, erl := false)
    && (!a.cp0.status.exl ==> b.cp0.epc == a.pc && b.cp0.cause.bd == a.inSlot)
    && (a.cp0.status.exl ==> b.cp0.epc == a.cp0.epc && b.cp0.cause.bd == a.cp0.cause.bd)
    && b.gpr == a.gpr && b.hi == a.hi && b.lo == a.lo && b.tlb == a.tlb && b.mem == a.mem && b.io == a.io
    && b.cp0.entryLo0 == a.cp0.entryLo0 && b.cp0.entryLo1 == a.cp0.entryLo1 && b.cp0.pageMask == a.cp0.pageMask
    && b.cp0.index == a.cp0.index && b.cp0.errEpc == a.cp0.errEpc && b.cp0.other == a.cp0.other
    && b.cp0.cause == a.cp0.cause.(bd := b.cp0.cause.bd, code := code)
    && b.stop == a.stop && b.llBit == a.llBit && b.inSlot == a.inSlot && b.log == a.log
    && b.irqCause == a.irqCause && !b.irqPending && b.codePage == a.codePage
  }

  // The physical address that the TLB and the segments give an address.
  ghost predicate Names(a: Arch, v: u32, write: bool, pa: u32) {
    if Direct(v) then pa == v % 0x2000_0000
    else
      exists k: nat ::
        && FirstEntry(a.tlb, k, v, a.cp0.entryHi.asid) && pa == Physical(a.tlb[k], v)
        && HalfFor(a.tlb[k], v).valid && (write ==> HalfFor(a.tlb[k], v).dirty)
  }

  // The number that bytes stand for, the first one highest if `big`.
  function Number(big: bool, bytes: seq<u8>): nat {
    if bytes == [] then 0
    else if big then Number(big, bytes[..|bytes| - 1]) * 0x100 + bytes[|bytes| - 1]
    else bytes[0] + 0x100 * Number(big, bytes[1..])
  }

  function BytesAt(m: Memory, p: HostPtr, n: nat): seq<u8> {
    seq(n, k requires 0 <= k < n => var q := HostPtr(p.dev, p.off + k); if q in m then m[q] else 0)
  }

  // The instruction word in memory at an address.
  ghost predicate CodeAt(env: Env, a: Arch, at: u32, w: u32) {
    exists pa: u32, d: Device ::
      && Names(a, at, false, pa) && Owner(env.bus, d, pa) && d.direct
      && w == Number(env.bigEndian, BytesAt(a.mem, HostPtr(d.id, pa - pa % 4 - d.base), 4))
  }

  // ------------------------------------------------- the entries against the scan

  lemma ContainsExact(e: TlbEntry, v: u32, asid: nat)
    requires LegalMask(e.mask)
    ensures Matches(e, v / 0x2000, asid) <==> Contains(e, v, asid)
  {
    var span := Span(e.mask);
    assert 2 * PageSize(e) == 0x2000 * span;
    DivideTwice(v, 0x2000, span);
    DivideTwice(e.hi.vpn2 * 0x2000, 0x2000, span);
  }

  lemma NoEntryMisses(tlb: seq<TlbEntry>, v: u32, asid: nat)
    requires LegalMasks(tlb) && NoEntry(tlb, v, asid)
    ensures Lookup(tlb, v / 0x1000, asid) == None
  {
    hide Contains;
    assert v / 0x1000 / 2 == v / 0x2000;
    forall j | 0 <= j < |tlb| ensures !Matches(tlb[j], v / 0x2000, asid) { ContainsExact(tlb[j], v, asid); }
  }

  lemma FirstEntryFound(tlb: seq<TlbEntry>, k: nat, v: u32, asid: nat)
    requires LegalMasks(tlb) && FirstEntry(tlb, k, v, asid)
    ensures Lookup(tlb, v / 0x1000, asid) == Some(HitOf(tlb[k], v / 0x1000))
  {
    hide Contains, HitOf;
    assert v / 0x1000 / 2 == v / 0x2000;
    ContainsExact(tlb[k], v, asid);
    forall j | 0 <= j < k ensures !Matches(tlb[j], v / 0x2000, asid) { ContainsExact(tlb[j], v, asid); }
    FirstMatch(tlb, v / 0x2000, asid, k, 0);
  }

  // The frame and flags the scan delivers are those of the half.
  lemma HitIsHalf(e: TlbEntry, v: u32)
    requires LegalMask(e.mask)
    ensures var hit := HitOf(e, v / 0x1000);
            && hit.valid == HalfFor(e, v).valid && hit.dirty == HalfFor(e, v).dirty
            && Physical(e, v) % 0x1000 == v % 0x1000 && hit.frame == PageOf(Physical(e, v))
  {
    PageTranslation(e, v);
    FrameAligned(e, v / 0x1000);
    assert PageSize(e) == Span(e.mask) * 0x1000;
    hide HitOf, PageSize, Span;
    InFrame(HitOf(e, v / 0x1000).frame, v);
  }

  lemma InFrame(frame: u32, v: u32)
    requires frame % 0x1000 == 0
    ensures var pa := frame + v % 0x1000;
            pa < 0x1_0000_0000 && pa % 0x1000 == v % 0x1000 && frame == PageOf(pa)
  {}

  lemma SameWordOfPage(pa: u32, at: u32)
    requires pa % 0x1000 == at % 0x1000
    ensures PageOf(pa) + at % 0x1000 / 4 * 4 == pa - pa % 4
  {
    DivideTwice(pa, 4, 0x400);
    assert at % 0x1000 / 4 == pa % 0x1000 / 4;
    assert pa % 0x1000 / 4 * 4 + pa % 4 == pa % 0x1000;
  }

  lemma DirectIsUnmapped(v: u32)
    ensures Direct(v) <==> !Mapped(v)
  {}

  lemma {:induction false} OwnerFound(bus: seq<Device>, d: Device, page: u32, i: nat)
    requires i < |bus| && bus[i] == d && d.base <= page < d.base + d.len
    requires forall j | 0 <= j < i :: !(bus[j].base <= page < bus[j].base + bus[j].len)
    ensures DevLookup(bus, page) == Some(d)
  {
    if i > 0 {
      assert !(bus[0].base <= page < bus[0].base + bus[0].len);
      forall j | 0 <= j < i - 1 ensures !(bus[1..][j].base <= page < bus[1..][j].base + bus[1..][j].len) {
        assert bus[1..][j] == bus[j + 1];
      }
      OwnerFound(bus[1..], d, page, i - 1);
    }
  }

  // Where a translated address leads.
  lemma Reached(env: Env, a: Arch, v: u32, write: bool, frame: u32, pa: u32)
    requires frame % 0x1000 == 0 && pa == frame + v % 0x1000
    requires Translate(a.tlb, a.cp0.entryHi.asid, v, write) == Frame(frame)
    ensures var (b, acc) := Resolve(env, a, v, write); Reaches(env, a, b, acc, pa)
  {
    hide Translate;
    assert PageOf(pa) == frame;
    forall d | Owner(env.bus, d, pa) ensures DevLookup(env.bus, frame) == Some(d) {
      var i :| 0 <= i < |env.bus| && env.bus[i] == d && d.base <= frame < d.base + d.len
               && forall j | 0 <= j < i :: !(env.bus[j].base <= frame < env.bus[j].base + env.bus[j].len);
      OwnerFound(env.bus, d, frame, i);
    }
  }

  lemma RaiseReports(a: Arch, v: u32, code: nat)
    requires code != INTERRUPT
    ensures Reports(a, RaiseAt(a, v, code), v, code)
  {
    ContextOf(a.cp0.context, v / 0x2000);
  }

  lemma ContextOf(context: u32, vpn2: nat)
    requires vpn2 < 0x8_0000
    ensures var c := context - context / 0x10 % 0x8_0000 * 0x10 + vpn2 * 0x10;
            && 0 <= c < 0x1_0000_0000 && c / 0x10 % 0x8_0000 == vpn2
            && c % 0x10 == context % 0x10 && c / 0x80_0000 == context / 0x80_0000
  {}

  lemma FirstTranslates(tlb: seq<TlbEntry>, k: nat, v: u32, asid: nat, write: bool)
    requires !Direct(v) && LegalMasks(tlb) && FirstEntry(tlb, k, v, asid)
    ensures var lo, pa := HalfFor(tlb[k], v), Physical(tlb[k], v);
            && pa % 0x1000 == v % 0x1000
            && Translate(tlb, asid, v, write) ==
               if !lo.valid then Miss else if write && !lo.dirty then ReadOnly else Frame(PageOf(pa))
  {
    var e := tlb[k];
    DirectIsUnmapped(v);
    FirstEntryFound(tlb, k, v, asid);
    HitIsHalf(e, v);
    hide LegalMasks, Lookup, HitOf, HalfFor, Physical, Mapped, Direct, FirstEntry;
  }

  lemma Refused(env: Env, a: Arch, v: u32, write: bool)
    ensures var (b, acc) := Resolve(env, a, v, write);
            var t := Translate(a.tlb, a.cp0.entryHi.asid, v, write);
            && (t == Miss ==> acc == Fault && Reports(a, b, v, if write then 3 else 2))
            && (t == ReadOnly && write ==> acc == Fault && Reports(a, b, v, 1))
  {
    hide RaiseAt, Reports, Translate;
    RaiseReports(a, v, if write then 3 else 2);
    RaiseReports(a, v, 1);
  }

  lemma AlignedResolves(env: Env, a: Arch, v: u32, op: MemOp, write: bool)
    requires v % Width(op) == 0
    ensures AccessMem(env, a, v, op, write) == Resolve(env, a, v, write)
  {
    hide Resolve, RaiseAt;
  }

  // ------------------------------------------------------------ main results

  lemma MisalignedFaults(env: Env, a: Arch, v: u32, op: MemOp, write: bool)
    requires v % Width(op) != 0
    ensures var (b, acc) := AccessMem(env, a, v, op, write);
            acc == Fault && Reports(a, b, v, if write then 5 else 4)
  {
    hide RaiseAt, Reports;
    RaiseReports(a, v, if write then 5 else 4);
  }

  lemma MissFaults(env: Env, a: Arch, v: u32, op: MemOp, write: bool)
    requires v % Width(op) == 0 && !Direct(v) && LegalMasks(a.tlb) && NoEntry(a.tlb, v, a.cp0.entryHi.asid)
    ensures var (b, acc) := AccessMem(env, a, v, op, write);
            acc == Fault && Reports(a, b, v, if write then 3 else 2)
  {
    hide Resolve, AccessMem, Reports, Lookup, LegalMasks, NoEntry;
    DirectIsUnmapped(v);
    NoEntryMisses(a.tlb, v, a.cp0.entryHi.asid);
    AlignedResolves(env, a, v, op, write);
    Refused(env, a, v, write);
  }

  // The first entry that holds the address decides: its half is invalid, or
  // read-only for a store, or names the physical address.
  lemma FirstEntryDecides(env: Env, a: Arch, v: u32, op: MemOp, write: bool, k: nat)
    requires v % Width(op) == 0 && !Direct(v) && LegalMasks(a.tlb) && FirstEntry(a.tlb, k, v, a.cp0.entryHi.asid)
    ensures var (b, acc) := AccessMem(env, a, v, op, write);
            var lo := HalfFor(a.tlb[k], v);
            if !lo.valid then acc == Fault && Reports(a, b, v, if write then 3 else 2)
            else if write && !lo.dirty then acc == Fault && Reports(a, b, v, 1)
            else Reaches(env, a, b, acc, Physical(a.tlb[k], v))
  {
    var pa, lo := Physical(a.tlb[k], v), HalfFor(a.tlb[k], v);
    hide Resolve, AccessMem, Reports, Translate, LegalMasks, HalfFor, Physical, Reaches, FirstEntry, Width, Direct;
    FirstTranslates(a.tlb, k, v, a.cp0.entryHi.asid, write);
    AlignedResolves(env, a, v, op, write);
    Refused(env, a, v, write);
    if Translate(a.tlb, a.cp0.entryHi.asid, v, write).Frame? {
      PageParts(pa);
      Reached(env, a, v, write, PageOf(pa), pa);
    }
  }

  // kseg0 and kseg1 name physical addresses, whatever the TLB holds.
  lemma DirectAccess(env: Env, a: Arch, v: u32, op: MemOp, write: bool)
    requires v % Width(op) == 0 && Direct(v)
    ensures var (b, acc) := AccessMem(env, a, v, op, write); Reaches(env, a, b, acc, v % 0x2000_0000)
  {
    hide Reaches, PlaceAt;
    DirectIsUnmapped(v);
    InFrame(Page(v) % 0x2000_0000, v);
    Reached(env, a, v, write, Page(v) % 0x2000_0000, v % 0x2000_0000);
  }

  // ---------------------------------------------------------- words in memory

  lemma {:induction false} BigNumber(b0: u8, b1: u8, b2: u8, b3: u8)
    ensures Number(true, [b0]) == b0 && Number(true, [b0, b1]) == b0 * 0x100 + b1
    ensures Number(true, [b0, b1, b2, b3]) == b0 * 0x100_0000 + b1 * 0x1_0000 + b2 * 0x100 + b3
  {
    assert [b0, b1, b2, b3][..3] == [b0, b1, b2] && [b0, b1, b2][..2] == [b0, b1] && [b0, b1][..1] == [b0];
    assert [b0][..0] == [];
    assert Number(true, []) == 0 && Number(true, [b0]) == b0;
    assert Number(true, [b0, b1]) == b0 * 0x100 + b1;
    assert Number(true, [b0, b1, b2]) == (b0 * 0x100 + b1) * 0x100 + b2;
  }

  lemma {:induction false} LittleNumber(b0: u8, b1: u8, b2: u8, b3: u8)
    ensures Number(false, [b0]) == b0 && Number(false, [b0, b1]) == b1 * 0x100 + b0
    ensures Number(false, [b0, b1, b2, b3]) == b3 * 0x100_0000 + b2 * 0x1_0000 + b1 * 0x100 + b0
  {
    assert [b0, b1, b2, b3][1..] == [b1, b2, b3] && [b1, b2, b3][1..] == [b2, b3] && [b2, b3][1..] == [b3];
    assert [b3][1..] == [] && [b0, b1][1..] == [b1] && [b1][1..] == [] && [b0][1..] == [];
    assert Number(false, []) == 0 && Number(false, [b3]) == b3 && Number(false, [b1]) == b1;
    assert Number(false, [b2, b3]) == b2 + 0x100 * b3;
    assert Number(false, [b1, b2, b3]) == b1 + 0x100 * (b2 + 0x100 * b3);
  }

  lemma ReadIsNumber(big: bool, m: Memory, p: HostPtr, n: nat)
    requires n in {1, 2, 4}
    ensures ReadMem(big, m, p, n) == Number(big, BytesAt(m, p, n))
  {
    hide Number;
    var b := BytesAt(m, p, 4);
    BigNumber(b[0], b[1], b[2], b[3]);
    LittleNumber(b[0], b[1], b[2], b[3]);
    assert BytesAt(m, p, 1) == [b[0]] && BytesAt(m, p, 2) == [b[0], b[1]] && b == [b[0], b[1], b[2], b[3]];
  }

  // A named address translates to the page it lies in.
  lemma NamedFrame(env: Env, a: Arch, v: u32, write: bool, pa: u32)
    requires LegalMasks(a.tlb) && Names(a, v, write, pa)
    ensures pa % 0x1000 == v % 0x1000
    ensures Translate(a.tlb, a.cp0.entryHi.asid, v, write) == Frame(PageOf(pa))
  {
    DirectIsUnmapped(v);
    if !Direct(v) {
      var k: nat :| FirstEntry(a.tlb, k, v, a.cp0.entryHi.asid) && pa == Physical(a.tlb[k], v)
                    && HalfFor(a.tlb[k], v).valid && (write ==> HalfFor(a.tlb[k], v).dirty);
      hide LegalMasks, HalfFor, Physical, Translate;
      FirstTranslates(a.tlb, k, v, a.cp0.entryHi.asid, write);
    }
  }

  lemma WholePage(tlb: seq<TlbEntry>, asid: nat, v: u32)
    ensures Page(v) == PageOf(v) && Page(v) % 0x1000 == 0
    ensures Translate(tlb, asid, Page(v), false) == Translate(tlb, asid, v, false)
  {
    hide Lookup;
    DirectIsUnmapped(v);
    DirectIsUnmapped(Page(v));
    assert Page(v) / 0x1000 == v / 0x1000 && Page(Page(v)) == Page(v);
  }

  lemma PageParts(pa: u32)
    ensures PageOf(pa) % 0x1000 == 0 && pa == PageOf(pa) + pa % 0x1000 && PageOf(PageOf(pa)) == PageOf(pa)
  {}

  // The word fetched is the one in memory; nothing but the page of the code is
  // noted.
  lemma FetchReads(env: Env, a: Arch, at: u32, w: u32)
    requires LegalMasks(a.tlb) && CodeAt(env, a, at, w)
    ensures Fetch(env, a, at) == (a.(codePage := PageOf(at)), Some(w))
  {
    hide Fetch, Number, BytesAt, LegalMasks, Names, Owner, PageOf;
    var pa: u32, d: Device :| Names(a, at, false, pa) && Owner(env.bus, d, pa) && d.direct
      && w == Number(env.bigEndian, BytesAt(a.mem, HostPtr(d.id, pa - pa % 4 - d.base), 4));
    NamedFrame(env, a, at, false, pa);
    SameWordOfPage(pa, at);
    OwnedPage(env.bus, d, pa);
    FetchFrom(env, a, at, PageOf(pa), d);
    ReadIsNumber(env.bigEndian, a.mem, HostPtr(d.id, pa - pa % 4 - d.base), 4);
  }

  lemma FetchFrom(env: Env, a: Arch, at: u32, frame: u32, d: Device)
    requires Translate(a.tlb, a.cp0.entryHi.asid, at, false) == Frame(frame)
    requires frame % 0x1000 == 0 && Owner(env.bus, d, frame) && d.direct
    ensures Fetch(env, a, at) ==
            (a.(codePage := PageOf(at)),
             Some(ReadMem(env.bigEndian, a.mem, HostPtr(d.id, frame - d.base + at % 0x1000 / 4 * 4), 4)))
  {
    hide Translate, ReadMem, Owner, Resolve, Page, PageOf;
    WholePage(a.tlb, a.cp0.entryHi.asid, at);
    Reached(env, a, Page(at), false, frame, frame);
    FramePage(frame);
  }

  lemma FramePage(frame: u32)
    requires frame % 0x1000 == 0
    ensures PageOf(frame) == frame
  {}

  lemma OwnedPage(bus: seq<Device>, d: Device, pa: u32)
    requires Owner(bus, d, pa)
    ensures Owner(bus, d, PageOf(pa)) && PageOf(pa) % 0x1000 == 0
  {
    PageParts(pa);
  }

  lemma AnyByte(v: u32)
    ensures v % Width(LB) == 0
  {}

  // A fetch that finds no valid entry reports the page of the instruction, not
  // its address.
  lemma FetchFaultReports(env: Env, a: Arch, at: u32)
    requires var page := PageOf(at);
             && !Direct(at) && LegalMasks(a.tlb)
             && (NoEntry(a.tlb, page, a.cp0.entryHi.asid) ||
                 exists k: nat :: FirstEntry(a.tlb, k, page, a.cp0.entryHi.asid) && !HalfFor(a.tlb[k], page).valid)
    ensures var (b, word) := Fetch(env, a, at); word == None && Reports(a, b, PageOf(at), 2)
  {
    var page := PageOf(at);
    WholePage(a.tlb, a.cp0.entryHi.asid, at);
    AlignedResolves(env, a, page, LB, false);
    assert !Direct(page);
    hide LegalMasks, NoEntry, HalfFor, Reports, Reaches, Resolve, AccessMem, PageOf, Direct, Page, Width;
    assert page % Width(LB) == 0 by { AnyByte(page); }
    if NoEntry(a.tlb, page, a.cp0.entryHi.asid) {
      MissFaults(env, a, page, LB, false);
    } else {
      var k: nat :| FirstEntry(a.tlb, k, page, a.cp0.entryHi.asid) && !HalfFor(a.tlb[k], page).valid;
      FirstEntryDecides(env, a, page, LB, false, k);
    }
  }
}

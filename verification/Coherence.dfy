// What the two lookup caches must remember, and which guest behaviour keeps
// them right: the software TLB cache (one entry a bucket, filled lazily) and
// the single page of the instruction fetch.
module Coherence {
  import opened Wrappers
  import opened Machine

  const BUCKETS: nat := 0x4000

  function Bucket(v: u32): nat { v / 0x1000 % BUCKETS }

  // An entry of the software TLB cache; all ones when invalid, so that its
  // guest page is then no page address.
  datatype CacheEntry = CacheEntry(gvpa: u32, gppa: u32, hpa: HostPtr, asid: nat, global: nat, dirty: nat, mapped: nat)

  const INVALID: CacheEntry := CacheEntry(0xffff_ffff, 0xffff_ffff, HostPtr(0, -1), 0xffff_ffff, 0xff, 0xff, 0xff)

  predicate CacheHit(e: CacheEntry, asid: nat, v: u32, write: bool) {
    && Page(v) == e.gvpa
    && (e.mapped == 1 ==> !(write && e.dirty == 0) && (e.global != 0 || asid == e.asid))
  }

  // A bucket holds no page, or what translating its page would give under the
  // address space identifier it was filled for.
  ghost predicate BucketOk(env: Env, tlb: seq<TlbEntry>, b: nat, e: CacheEntry) {
    e.gvpa % 0x1000 == 0 ==>
      && Bucket(e.gvpa) == b
      && e.global == 0
      && PlaceAt(env.bus, e.gppa, 0) == InRam(e.hpa)
      && (e.mapped == 1 <==> Mapped(e.gvpa))
      && (e.mapped == 1 ==> Lookup(tlb, e.gvpa / 0x1000, e.asid) == Some(Hit(e.gppa, e.dirty != 0, true)))
      && (e.mapped != 1 ==> e.gppa == e.gvpa % 0x2000_0000)
  }

  ghost predicate CacheOk(env: Env, tlb: seq<TlbEntry>, mts: seq<CacheEntry>) {
    && |mts| == BUCKETS
    && forall b | 0 <= b < BUCKETS :: BucketOk(env, tlb, b, mts[b])
  }

  lemma HitIsTranslation(env: Env, tlb: seq<TlbEntry>, asid: nat, v: u32, write: bool, e: CacheEntry)
    requires BucketOk(env, tlb, Bucket(v), e)
    requires CacheHit(e, asid, v, write)
    ensures Locate(env, tlb, asid, v, write) == InRam(HostPtr(e.hpa.dev, e.hpa.off + v % 0x1000))
  {
    assert e.gvpa % 0x1000 == 0;
    assert Mapped(v) == Mapped(e.gvpa);
  }

  // What the cache records for a page found in memory. The global flag is a
  // byte assigned from bit 12 of EntryHi, so it is always zero.
  function Fill(v: u32, hit: Hit, mapped: bool, asid: nat, d: Device): CacheEntry {
    CacheEntry(Page(v), hit.frame, HostPtr(d.id, hit.frame - d.base), asid, 0,
               if hit.dirty then 1 else 0, if mapped then 1 else 0)
  }

  // The page of `v` translates to `hit`, under `asid` if it is mapped.
  predicate PageFound(tlb: seq<TlbEntry>, v: u32, hit: Hit, mapped: bool, asid: nat) {
    && mapped == Mapped(v)
    && (mapped ==> Lookup(tlb, v / 0x1000, asid) == Some(hit) && hit.valid)
    && (!mapped ==> hit.frame == Page(v) % 0x2000_0000)
  }

  lemma FilledBucket(env: Env, tlb: seq<TlbEntry>, v: u32, hit: Hit, mapped: bool, asid: nat, d: Device)
    requires PageFound(tlb, v, hit, mapped, asid)
    requires DevLookup(env.bus, hit.frame) == Some(d) && d.direct
    ensures BucketOk(env, tlb, Bucket(v), Fill(v, hit, mapped, asid, d))
  {
    hide Lookup;
    assert Page(v) / 0x1000 == v / 0x1000;
    assert Mapped(Page(v)) == Mapped(v);
  }

  lemma FrameAligned(e: TlbEntry, vpn: nat)
    ensures HitOf(e, vpn).frame % 0x1000 == 0
  {}

  lemma LookupAligned(tlb: seq<TlbEntry>, vpn: nat, asid: nat)
    ensures Lookup(tlb, vpn, asid).Some? ==> Lookup(tlb, vpn, asid).value.frame % 0x1000 == 0
  {
    hide HitOf;
    if Probe(tlb, vpn / 2, asid).Some? { FrameAligned(tlb[Probe(tlb, vpn / 2, asid).value], vpn); }
  }

  lemma {:induction false} AtLeast(d: nat, size: nat)
    requires d > 0
    ensures d * size >= size
  {
    if d > 1 {
      AtLeast(d - 1, size);
      assert d * size == (d - 1) * size + size;
    }
  }

  lemma Multiples(d: int, size: nat, m: nat, r: nat)
    requires d * size == m - r && m < size && r < size
    ensures d == 0
  {
    if d > 0 {
      AtLeast(d, size);
    } else if d < 0 {
      Negated(d, size);
      AtLeast(-d, size);
    }
  }

  lemma Negated(d: int, size: nat)
    ensures -d * size == -(d * size)
  {
  }

  lemma DivideTwice(v: nat, m: nat, n: nat)
    requires m > 0 && n > 0
    ensures m * n > 0 && v / m / n == v / (m * n)
    ensures v / m % n * m + v % m == v % (m * n)
  {
    AtLeast(m, n);
    var size := m * n;
    var a, r := v / m / n, v / m % n * m + v % m;
    var q, rest := v / size, v % size;
    assert v / m == a * n + v / m % n;
    assert v == a * size + r by {
      assert (a * n + v / m % n) * m == a * n * m + v / m % n * m;
      assert a * n * m == a * size;
    }
    assert r < size by {
      AtLeastSum(v / m % n, n, m);
    }
    assert (a - q) * size == rest - r by {
      assert v == q * size + rest;
      assert a * size - q * size == (a - q) * size;
    }
    Multiples(a - q, size, rest, r);
  }

  lemma AtLeastSum(k: nat, n: nat, m: nat)
    requires k < n
    ensures (k + 1) * m <= n * m && k * m + m == (k + 1) * m
  {
    assert n * m == (n - k - 1) * m + (k + 1) * m;
  }

  // The scan works on 4 KB units, but an entry translates as its page size says:
  // the half follows from the bit above the page offset, and the whole offset
  // within the page is added to the frame.
  lemma PageTranslation(e: TlbEntry, v: u32)
    requires LegalMask(e.mask)
    ensures var size := Span(e.mask) * 0x1000;
            var lo := if v / size % 2 == 0 then e.lo0 else e.lo1;
            var hit := HitOf(e, v / 0x1000);
            Wrap(hit.frame + v % 0x1000) == Wrap(lo.pfn * 0x1000 + v % size)
            && hit.valid == lo.valid && hit.dirty == lo.dirty
  {
    var span := Span(e.mask);
    var size := span * 0x1000;
    DivideTwice(v, 0x1000, span);
    hide Span;
    var lo := if v / 0x1000 / span % 2 == 0 then e.lo0 else e.lo1;
    var x := lo.pfn + v / 0x1000 % span;
    assert HitOf(e, v / 0x1000).frame == Wrap(x * 0x1000);
    WrapTwice(x * 0x1000, v % 0x1000);
    assert x * 0x1000 + v % 0x1000 == lo.pfn * 0x1000 + v % size;
  }

  lemma WrapTwice(x: nat, y: nat)
    ensures Wrap(Wrap(x) + y) == Wrap(x + y)
  {
  }

  // Unmapped addresses do not depend on the TLB or the address space.
  lemma DirectPlace(env: Env, tlb: seq<TlbEntry>, tlb': seq<TlbEntry>, asid: nat, asid': nat, v: u32)
    requires !Mapped(v) || (tlb == tlb' && asid == asid')
    ensures Locate(env, tlb, asid, v, false) == Locate(env, tlb', asid', v, false)
  {}

  // ------------------------------------------------------- writing the TLB

  // PageMask values of 4K, 16K, ..., 16M pages.
  predicate LegalMask(mask: u32) { mask in {0, 0x6000, 0x1e000, 0x7e000, 0x1f_e000, 0x7f_e000, 0x1ff_e000} }

  predicate LegalMasks(tlb: seq<TlbEntry>) { forall i | 0 <= i < |tlb| :: LegalMask(tlb[i].mask) }

  predicate Live(e: TlbEntry) { e.lo0.valid || e.lo1.valid }

  // Compare as coarsely as the larger of the two pages.
  predicate Overlap(d: TlbEntry, e: TlbEntry) {
    var span := if d.mask < e.mask then Span(e.mask) else Span(d.mask);
    && d.hi.vpn2 / span == e.hi.vpn2 / span
    && (d.hi.global || e.hi.global || d.hi.asid == e.hi.asid)
  }

  lemma CoarserByOne(x: nat, y: nat, mask: u32)
    requires LegalMask(mask) && mask < 0x1ff_e000
    requires x / Span(mask) == y / Span(mask)
    ensures LegalMask(4 * mask + 0x6000) && x / Span(4 * mask + 0x6000) == y / Span(4 * mask + 0x6000)
  {
    assert Span(4 * mask + 0x6000) == Span(mask) * 4;
    DivideTwice(x, Span(mask), 4);
    DivideTwice(y, Span(mask), 4);
  }

  lemma {:induction false} Coarser(x: nat, y: nat, fine: u32, coarse: u32)
    requires LegalMask(fine) && LegalMask(coarse) && fine <= coarse
    requires x / Span(fine) == y / Span(fine)
    ensures x / Span(coarse) == y / Span(coarse)
    decreases coarse - fine
  {
    if fine < coarse {
      CoarserByOne(x, y, fine);
      Coarser(x, y, 4 * fine + 0x6000, coarse);
    }
  }

  // The test is exact: it holds just when some page and address space
  // identifier match both entries.
  lemma OverlapExact(d: TlbEntry, e: TlbEntry)
    requires LegalMask(d.mask) && LegalMask(e.mask)
    ensures Overlap(d, e) <==> exists vpn2: nat, asid: nat :: Matches(d, vpn2, asid) && Matches(e, vpn2, asid)
  {
    if Overlap(d, e) {
      var vpn2 := if d.mask < e.mask then d.hi.vpn2 else e.hi.vpn2;
      var asid := if d.hi.global then e.hi.asid else d.hi.asid;
      assert Matches(d, vpn2, asid) && Matches(e, vpn2, asid);
    }
    forall vpn2: nat, asid: nat | Matches(d, vpn2, asid) && Matches(e, vpn2, asid)
      ensures Overlap(d, e)
    {
      if d.mask < e.mask {
        Coarser(vpn2, d.hi.vpn2, d.mask, e.mask);
      } else {
        Coarser(vpn2, e.hi.vpn2, e.mask, d.mask);
      }
    }
  }

  // Enough for the cache to stay right: the write overwrites no live entry of a
  // large page and shadows no live later entry with an overlapping one.
  predicate WriteSafe(tlb: seq<TlbEntry>, i: nat, entry: TlbEntry) {
    i < |tlb| ==>
      && LegalMask(entry.mask)
      && (tlb[i].mask == 0 || !Live(tlb[i]))
      && forall j | i < j < |tlb| :: Live(tlb[j]) ==> !Overlap(entry, tlb[j])
  }

  // The two buckets that overwriting an entry invalidates.
  function EvenBucket(e: TlbEntry): nat { 2 * e.hi.vpn2 % BUCKETS }

  function OddBucket(e: TlbEntry): nat { (2 * e.hi.vpn2 + Span(e.mask)) % BUCKETS }

  predicate Invalidated(e: TlbEntry, b: nat) {
    || (e.lo0.valid && b == EvenBucket(e))
    || (e.lo1.valid && b == OddBucket(e))
  }

  lemma SmallPageInvalidated(e: TlbEntry, vpn: nat, asid: nat)
    requires e.mask == 0 && Matches(e, vpn / 2, asid) && HitOf(e, vpn).valid
    ensures Invalidated(e, vpn % BUCKETS)
  {
    assert Span(e.mask) == 1;
    assert vpn / 2 / 1 == vpn / 2 && e.hi.vpn2 / 1 == e.hi.vpn2 && vpn / 1 == vpn;
  }

  lemma FirstMatch(tlb: seq<TlbEntry>, vpn2: nat, asid: nat, k: nat, i: nat)
    requires i <= k < |tlb| && Matches(tlb[k], vpn2, asid)
    requires forall j | i <= j < k :: !Matches(tlb[j], vpn2, asid)
    ensures ProbeFrom(tlb, vpn2, asid, i) == Some(k)
    decreases k - i
  {
    if i < k { FirstMatch(tlb, vpn2, asid, k, i + 1); }
  }

  // A live mapping that comes from another entry survives a safe write.
  lemma LookupAfterWrite(tlb: seq<TlbEntry>, i: nat, entry: TlbEntry, vpn: nat, asid: nat)
    requires i < |tlb| && LegalMasks(tlb) && WriteSafe(tlb, i, entry)
    requires Lookup(tlb, vpn, asid).Some? && Lookup(tlb, vpn, asid).value.valid
    requires !Invalidated(tlb[i], vpn % BUCKETS)
    ensures Lookup(tlb[i := entry], vpn, asid) == Lookup(tlb, vpn, asid)
  {
    var k := Probe(tlb, vpn / 2, asid).value;
    if k == i {
      SmallPageInvalidated(tlb[i], vpn, asid);
    }
    if i < k && Matches(entry, vpn / 2, asid) {
      OverlapExact(entry, tlb[k]);
    }
    FirstMatch(tlb[i := entry], vpn / 2, asid, k, 0);
  }

  // A mapping the cache may hold: a valid look-up of a mapped page into memory.
  predicate Cacheable(env: Env, tlb: seq<TlbEntry>, v: u32, asid: nat) {
    && Mapped(v) && v % 0x1000 == 0
    && var hit := Lookup(tlb, v / 0x1000, asid);
       hit.Some? && hit.value.valid
       && var d := DevLookup(env.bus, hit.value.frame);
          d.Some? && d.value.direct
  }

  // The write leaves every such mapping alone whose bucket it does not clear.
  ghost predicate MappingsKept(env: Env, tlb: seq<TlbEntry>, i: nat, entry: TlbEntry)
    requires i < |tlb|
  {
    forall v: u32, asid: nat | Cacheable(env, tlb, v, asid) && !Invalidated(tlb[i], Bucket(v)) ::
      Lookup(tlb[i := entry], v / 0x1000, asid) == Lookup(tlb, v / 0x1000, asid)
  }

  ghost predicate BucketsKept(env: Env, tlb: seq<TlbEntry>, i: nat, entry: TlbEntry)
    requires i < |tlb|
  {
    forall b: nat, e: CacheEntry | b < BUCKETS && BucketOk(env, tlb, b, e) && !Invalidated(tlb[i], b) ::
      BucketOk(env, tlb[i := entry], b, e)
  }

  // That is exactly when a TLB write keeps the cache right, whatever right
  // buckets it holds.
  lemma WriteKeepsCacheExactly(env: Env, tlb: seq<TlbEntry>, i: nat, entry: TlbEntry)
    requires i < |tlb|
    ensures BucketsKept(env, tlb, i, entry) <==> MappingsKept(env, tlb, i, entry)
  {
    if BucketsKept(env, tlb, i, entry) {
      forall v: u32, asid: nat | Cacheable(env, tlb, v, asid) && !Invalidated(tlb[i], Bucket(v))
        ensures Lookup(tlb[i := entry], v / 0x1000, asid) == Lookup(tlb, v / 0x1000, asid)
      {
        MappingKept(env, tlb, i, entry, v, asid);
      }
    }
    if MappingsKept(env, tlb, i, entry) {
      forall b: nat, e: CacheEntry | b < BUCKETS && BucketOk(env, tlb, b, e) && !Invalidated(tlb[i], b)
        ensures BucketOk(env, tlb[i := entry], b, e)
      {
        BucketAfterWrite(env, tlb, i, entry, b, e);
      }
    }
  }

  lemma MappingKept(env: Env, tlb: seq<TlbEntry>, i: nat, entry: TlbEntry, v: u32, asid: nat)
    requires i < |tlb| && BucketsKept(env, tlb, i, entry)
    requires Cacheable(env, tlb, v, asid) && !Invalidated(tlb[i], Bucket(v))
    ensures Lookup(tlb[i := entry], v / 0x1000, asid) == Lookup(tlb, v / 0x1000, asid)
  {
    hide Lookup, DevLookup, Invalidated;
    var hit := Lookup(tlb, v / 0x1000, asid).value;
    var d := DevLookup(env.bus, hit.frame).value;
    var e := Fill(v, hit, true, asid, d);
    FilledBucket(env, tlb, v, hit, true, asid, d);
    assert BucketOk(env, tlb[i := entry], Bucket(v), e);
  }

  lemma BucketAfterWrite(env: Env, tlb: seq<TlbEntry>, i: nat, entry: TlbEntry, b: nat, e: CacheEntry)
    requires i < |tlb| && MappingsKept(env, tlb, i, entry)
    requires BucketOk(env, tlb, b, e) && !Invalidated(tlb[i], b)
    ensures BucketOk(env, tlb[i := entry], b, e)
  {
    hide Lookup, Invalidated;
    if e.gvpa % 0x1000 == 0 && e.mapped == 1 {
      assert Cacheable(env, tlb, e.gvpa, e.asid);
    }
  }

  // A guard that software can check entry by entry.
  lemma SafeWriteKeepsMappings(env: Env, tlb: seq<TlbEntry>, i: nat, entry: TlbEntry)
    requires i < |tlb| && LegalMasks(tlb) && WriteSafe(tlb, i, entry)
    ensures MappingsKept(env, tlb, i, entry)
  {
    hide DevLookup, Invalidated, WriteSafe, LegalMasks, Lookup;
    forall v: u32, asid: nat | Cacheable(env, tlb, v, asid) && !Invalidated(tlb[i], Bucket(v))
      ensures Lookup(tlb[i := entry], v / 0x1000, asid) == Lookup(tlb, v / 0x1000, asid)
    {
      LookupAfterWrite(tlb, i, entry, v / 0x1000, asid);
    }
  }

  // ------------------------------------------------ 4 KB pages, entry by entry

  predicate SmallPages(tlb: seq<TlbEntry>) { forall j | 0 <= j < |tlb| :: tlb[j].mask == 0 }

  // No entry comes before a live one that it overlaps.
  predicate Unshadowed(tlb: seq<TlbEntry>) {
    forall j, k | 0 <= j < k < |tlb| && Live(tlb[k]) :: !Overlap(tlb[j], tlb[k])
  }

  function PageNumber(e: TlbEntry, half: nat): nat { 2 * e.hi.vpn2 + half }

  // The cache may hold this half of the entry.
  predicate CacheableHalf(env: Env, e: TlbEntry, half: nat) {
    && half < 2 && PageNumber(e, half) < 0x10_0000 && Mapped(PageNumber(e, half) * 0x1000)
    && var hit := HitOf(e, PageNumber(e, half));
       hit.valid && var d := DevLookup(env.bus, hit.frame); d.Some? && d.value.direct
  }

  // A later half that the new entry takes over either translates the same or
  // has its bucket cleared by the write.
  predicate HalfKept(env: Env, before: TlbEntry, entry: TlbEntry, e: TlbEntry, half: nat) {
    Overlap(entry, e) && CacheableHalf(env, e, half) && !Invalidated(before, PageNumber(e, half) % BUCKETS) ==>
      HitOf(entry, PageNumber(e, half)) == HitOf(e, PageNumber(e, half))
  }

  predicate HalvesKept(env: Env, tlb: seq<TlbEntry>, i: nat, entry: TlbEntry)
    requires i < |tlb|
  {
    forall k | i < k < |tlb| :: HalfKept(env, tlb[i], entry, tlb[k], 0) && HalfKept(env, tlb[i], entry, tlb[k], 1)
  }

  lemma SmallMatch(e: TlbEntry, vpn2: nat, asid: nat)
    requires e.mask == 0
    ensures Matches(e, vpn2, asid) <==> vpn2 == e.hi.vpn2 && (e.hi.global || e.hi.asid == asid)
  {
    assert vpn2 / 1 == vpn2 && e.hi.vpn2 / 1 == e.hi.vpn2;
  }

  lemma SmallOverlap(d: TlbEntry, e: TlbEntry)
    requires d.mask == 0 && e.mask == 0
    ensures Overlap(d, e) <==> d.hi.vpn2 == e.hi.vpn2 && (d.hi.global || e.hi.global || d.hi.asid == e.hi.asid)
  {
    assert d.hi.vpn2 / 1 == d.hi.vpn2 && e.hi.vpn2 / 1 == e.hi.vpn2;
  }

  // An identifier under which both entries match.
  function SharedAsid(d: TlbEntry, e: TlbEntry): nat { if d.hi.global then e.hi.asid else d.hi.asid }

  // In such a TLB a live entry is found wherever it matches.
  lemma LiveIsFound(tlb: seq<TlbEntry>, k: nat, asid: nat)
    requires SmallPages(tlb) && Unshadowed(tlb) && k < |tlb| && Live(tlb[k]) && Matches(tlb[k], tlb[k].hi.vpn2, asid)
    ensures Probe(tlb, tlb[k].hi.vpn2, asid) == Some(k)
  {
    hide Live;
    forall j | 0 <= j < k ensures !Matches(tlb[j], tlb[k].hi.vpn2, asid) {
      SmallMatch(tlb[j], tlb[k].hi.vpn2, asid);
      SmallMatch(tlb[k], tlb[k].hi.vpn2, asid);
      SmallOverlap(tlb[j], tlb[k]);
    }
    FirstMatch(tlb, tlb[k].hi.vpn2, asid, k, 0);
  }

  // A kept mapping keeps the half it comes from.
  lemma KeptHalf(env: Env, tlb: seq<TlbEntry>, i: nat, entry: TlbEntry, k: nat, half: nat)
    requires i < k < |tlb| && SmallPages(tlb) && Unshadowed(tlb) && entry.mask == 0 && half < 2
    requires MappingsKept(env, tlb, i, entry)
    ensures HalfKept(env, tlb[i], entry, tlb[k], half)
  {
    var e, vpn := tlb[k], PageNumber(tlb[k], half);
    if Overlap(entry, e) && CacheableHalf(env, e, half) && !Invalidated(tlb[i], vpn % BUCKETS) {
      var asid, v: u32 := SharedAsid(entry, e), vpn * 0x1000;
      SmallOverlap(entry, e);
      SmallMatch(e, e.hi.vpn2, asid);
      SmallMatch(entry, e.hi.vpn2, asid);
      LiveIsFound(tlb, k, asid);
      hide HitOf, Matches, Overlap, Invalidated, DevLookup, Mapped;
      assert v / 0x1000 == vpn && vpn / 2 == e.hi.vpn2 && v % 0x1000 == 0;
      assert Lookup(tlb, vpn, asid) == Some(HitOf(e, vpn));
      assert Cacheable(env, tlb, v, asid);
      var after := tlb[i := entry];
      FirstMatch(after, e.hi.vpn2, asid, i, 0);
      assert Lookup(after, vpn, asid) == Some(HitOf(entry, vpn));
    }
  }

  // And a mapping is kept if the halves are.
  lemma KeptMapping(env: Env, tlb: seq<TlbEntry>, i: nat, entry: TlbEntry, v: u32, asid: nat)
    requires i < |tlb| && SmallPages(tlb) && entry.mask == 0 && HalvesKept(env, tlb, i, entry)
    requires Cacheable(env, tlb, v, asid) && !Invalidated(tlb[i], Bucket(v))
    ensures Lookup(tlb[i := entry], v / 0x1000, asid) == Lookup(tlb, v / 0x1000, asid)
  {
    var vpn := v / 0x1000;
    var vpn2, half := vpn / 2, vpn % 2;
    var k := Probe(tlb, vpn2, asid).value;
    SmallMatch(tlb[k], vpn2, asid);
    assert PageNumber(tlb[k], half) == vpn;
    if k == i {
      SmallPageInvalidated(tlb[i], vpn, asid);
    } else if i < k && Matches(entry, vpn2, asid) {
      SmallMatch(entry, vpn2, asid);
      SmallOverlap(entry, tlb[k]);
      hide HitOf, Overlap, Invalidated, DevLookup, Mapped;
      assert v == vpn * 0x1000;
      assert HalfKept(env, tlb[i], entry, tlb[k], half);
      FirstMatch(tlb[i := entry], vpn2, asid, i, 0);
    } else {
      FirstMatch(tlb[i := entry], vpn2, asid, k, 0);
    }
  }

  // With 4 KB pages and no live entry shadowed, a write keeps the cache right
  // exactly when each later half that it takes over translates the same, or
  // happens to share a cleared bucket.
  lemma SmallWriteKeepsCacheExactly(env: Env, tlb: seq<TlbEntry>, i: nat, entry: TlbEntry)
    requires i < |tlb| && SmallPages(tlb) && Unshadowed(tlb) && entry.mask == 0
    ensures BucketsKept(env, tlb, i, entry) <==> HalvesKept(env, tlb, i, entry)
  {
    hide BucketsKept, SmallPages, Unshadowed, HalfKept, Lookup, Invalidated, Bucket, Cacheable;
    WriteKeepsCacheExactly(env, tlb, i, entry);
    if MappingsKept(env, tlb, i, entry) {
      forall k | i < k < |tlb|
        ensures HalfKept(env, tlb[i], entry, tlb[k], 0) && HalfKept(env, tlb[i], entry, tlb[k], 1)
      {
        KeptHalf(env, tlb, i, entry, k, 0);
        KeptHalf(env, tlb, i, entry, k, 1);
      }
    }
    if HalvesKept(env, tlb, i, entry) {
      forall v: u32, asid: nat | Cacheable(env, tlb, v, asid) && !Invalidated(tlb[i], Bucket(v))
        ensures Lookup(tlb[i := entry], v / 0x1000, asid) == Lookup(tlb, v / 0x1000, asid)
      {
        KeptMapping(env, tlb, i, entry, v, asid);
      }
    }
  }

  // ---------------------------------------------- two writes that break the cache

  lemma OddPagesSurvive(e: TlbEntry, v: u32)
    requires LegalMask(e.mask) && e.mask != 0 && v % 0x2000 == 0x1000
    ensures !Invalidated(e, Bucket(v))
  {
    assert v / 0x1000 % 2 == 1;
    assert Span(e.mask) % 2 == 0;
    assert Bucket(v) % 2 == 1 && EvenBucket(e) % 2 == 0 && OddBucket(e) % 2 == 0;
  }

  // Both buckets that overwriting a large page clears are even, so every odd
  // page of it stays cached; if the new TLB maps such a page differently, the
  // cache still answers with the old frame.
  lemma LargePageGoesStale(env: Env, tlb: seq<TlbEntry>, i: nat, entry: TlbEntry, v: u32, asid: nat, d: Device)
    requires i < |tlb| && LegalMask(tlb[i].mask) && tlb[i].mask != 0
    requires Mapped(v) && v % 0x2000 == 0x1000 && Probe(tlb, v / 0x2000, asid) == Some(i)
    requires HitOf(tlb[i], v / 0x1000).valid
    requires DevLookup(env.bus, HitOf(tlb[i], v / 0x1000).frame) == Some(d) && d.direct
    requires Lookup(tlb[i := entry], v / 0x1000, asid) != Lookup(tlb, v / 0x1000, asid)
    ensures Stale(env, tlb, i, entry, v, asid, Fill(v, HitOf(tlb[i], v / 0x1000), true, asid, d))
  {
    hide HitOf, Lookup, Probe, Invalidated, Stale, LegalMask, Bucket;
    OddPagesSurvive(tlb[i], v);
    StaleMapping(env, tlb, i, i, entry, v, asid, d);
  }

  // A right bucket that the write leaves alone, that still answers for its
  // page, and that is wrong afterwards.
  ghost predicate Stale(env: Env, tlb: seq<TlbEntry>, i: nat, entry: TlbEntry, v: u32, asid: nat, e: CacheEntry)
    requires i < |tlb|
  {
    && BucketOk(env, tlb, Bucket(v), e) && !Invalidated(tlb[i], Bucket(v))
    && CacheHit(e, asid, v, false) && !BucketOk(env, tlb[i := entry], Bucket(v), e)
  }

  lemma StaleMapping(env: Env, tlb: seq<TlbEntry>, i: nat, k: nat, entry: TlbEntry, v: u32, asid: nat, d: Device)
    requires i < |tlb| && k < |tlb| && Mapped(v) && v % 0x1000 == 0 && Probe(tlb, v / 0x2000, asid) == Some(k)
    requires HitOf(tlb[k], v / 0x1000).valid && !Invalidated(tlb[i], Bucket(v))
    requires DevLookup(env.bus, HitOf(tlb[k], v / 0x1000).frame) == Some(d) && d.direct
    requires Lookup(tlb[i := entry], v / 0x1000, asid) != Lookup(tlb, v / 0x1000, asid)
    ensures Stale(env, tlb, i, entry, v, asid, Fill(v, HitOf(tlb[k], v / 0x1000), true, asid, d))
  {
    hide HitOf, DevLookup, Invalidated, Probe;
    assert v / 0x1000 / 2 == v / 0x2000;
    FilledBucket(env, tlb, v, HitOf(tlb[k], v / 0x1000), true, asid, d);
  }

  // An entry written before a live one that it overlaps takes its pages over,
  // but their buckets are not cleared.
  lemma ShadowingGoesStale(env: Env, tlb: seq<TlbEntry>, i: nat, k: nat, entry: TlbEntry, v: u32, asid: nat, d: Device)
    requires i < k < |tlb| && !Live(tlb[i]) && Matches(entry, v / 0x2000, asid)
    requires Mapped(v) && v % 0x1000 == 0 && Probe(tlb, v / 0x2000, asid) == Some(k)
    requires HitOf(tlb[k], v / 0x1000).valid && HitOf(entry, v / 0x1000) != HitOf(tlb[k], v / 0x1000)
    requires DevLookup(env.bus, HitOf(tlb[k], v / 0x1000).frame) == Some(d) && d.direct
    ensures Stale(env, tlb, i, entry, v, asid, Fill(v, HitOf(tlb[k], v / 0x1000), true, asid, d))
  {
    hide HitOf;
    assert v / 0x1000 / 2 == v / 0x2000;
    FirstMatch(tlb[i := entry], v / 0x2000, asid, i, 0);
    StaleMapping(env, tlb, i, k, entry, v, asid, d);
  }
}

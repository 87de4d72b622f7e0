// DMA between physical addresses, cut into chunks that stay inside one page on
// both sides; each chunk finds its host memory through the device list.
module Dma {
  import opened Words
  import opened Wrappers
  import opened DeviceList
  import opened Devices

  const PAGE: nat := 0x1000

  predicate RamOk(ds: seq<Vdevice>) {
    && (forall d | d in ds && d.direct :: d.host.Length == d.len)
    && (forall d, e | d in ds && e in ds && d != e :: d.host != e.host)
  }

  // What the memory devices hold.
  type Contents = map<Vdevice, seq<u8>>

  ghost function Hosted(ds: seq<Vdevice>): Contents
    reads set d <- ds :: d.host
  {
    map d | d in ds :: d.host[..]
  }

  ghost predicate Fits(ds: seq<Vdevice>, c: Contents) {
    forall d | d in ds && d.direct :: d in c && |c[d]| == d.len
  }

  // The byte at a physical address, if there is memory.
  ghost function Byte(ds: seq<Vdevice>, c: Contents, pa: u32): Option<u8>
    requires Fits(ds, c)
  {
    var d := First(ds, pa);
    if d == null || !d.direct then None else Some(c[d][pa - d.base])
  }

  predicate Ram(ds: seq<Vdevice>, pa: u32) {
    var d := First(ds, pa);
    d != null && d.direct
  }

  predicate AllRam(ds: seq<Vdevice>, pa: u32, len: nat) {
    pa + len <= 0x1_0000_0000 && forall x: u32 | pa <= x < pa + len :: Ram(ds, x)
  }

  lemma {:induction false} SamePageSameDevice(ds: seq<Vdevice>, pa: u32, pb: u32)
    requires Aligned(ds) && pa / PAGE == pb / PAGE
    ensures First(ds, pa) == First(ds, pb)
  {
    if ds != [] {
      assert AlignedDevice(ds[0]);
      forall d | d in ds[1..] ensures AlignedDevice(d) { assert d in ds; }
      SamePageSameDevice(ds[1..], pa, pb);
    }
  }

  method GetHptr(vm: VirtualMachine, pa: u32) returns (host: array?<u8>, at: int)
    requires vm.ListOk()
    ensures host != null <==> Ram(vm.bound, pa)
    ensures host != null ==> host == First(vm.bound, pa).host && at == pa - First(vm.bound, pa).base
  {
    var d := vm.Lookup(pa);
    if d == null || !d.direct {
      host, at := null, 0;
    } else {
      host, at := d.host, pa - d.base;
    }
  }

  method Memcpy(dst: array<u8>, at: nat, src: array<u8>, from: nat, n: nat)
    requires at + n <= dst.Length && from + n <= src.Length
    requires dst == src ==> at + n <= from || from + n <= at
    modifies dst
    ensures dst[..] == old(dst[..at] + src[from..from + n] + dst[at + n..])
  {
    for i := 0 to n
      invariant forall k | 0 <= k < dst.Length ::
                  dst[k] == old(if at <= k < at + i then src[from + (k - at)] else dst[k])
      invariant dst != src ==> src[..] == old(src[..])
    {
      dst[at + i] := src[from + i];
    }
  }

  function Min(a: nat, b: nat): nat { if a < b then a else b }

  // The bytes of the next chunk: up to the end of a page on either side.
  function Chunk(src: u32, dst: u32, len: nat): (n: nat)
    requires len > 0
    ensures 0 < n <= len && src % PAGE + n <= PAGE && dst % PAGE + n <= PAGE
  {
    Min(Min(PAGE - src % PAGE, PAGE - dst % PAGE), len)
  }

  predicate Apart(src: u32, dst: u32, len: nat) { src + len <= dst || dst + len <= src }

  // From `c` to `c'` the `n` bytes at `src` were copied to `dst`, and nothing
  // else happened to memory.
  ghost predicate Moved(ds: seq<Vdevice>, c: Contents, c': Contents, src: u32, dst: u32, n: nat) {
    && Fits(ds, c) && Fits(ds, c') && src + n <= 0x1_0000_0000
    && forall pa: u32 :: Byte(ds, c', pa) == Byte(ds, c, Origin(src, dst, n, pa))
  }

  // Where the byte at an address comes from.
  function Origin(src: u32, dst: u32, n: nat, pa: u32): u32
    requires src + n <= 0x1_0000_0000
  {
    if dst <= pa < dst + n then src + (pa - dst) else pa
  }

  // A page of memory is memory throughout.
  lemma ChunkIsRam(ds: seq<Vdevice>, pa: u32, n: nat)
    requires Aligned(ds) && pa % PAGE + n <= PAGE && Ram(ds, pa) && pa + n <= 0x1_0000_0000
    ensures AllRam(ds, pa, n)
  {
    forall x: u32 | pa <= x < pa + n ensures Ram(ds, x) { SamePageSameDevice(ds, pa, x); }
  }

  lemma InChunk(ds: seq<Vdevice>, pa: u32, k: nat)
    requires Aligned(ds) && pa % PAGE + k < PAGE && pa + k < 0x1_0000_0000 && First(ds, pa) != null
    ensures First(ds, pa + k) == First(ds, pa) && pa + k - First(ds, pa).base < First(ds, pa).len
  {
    SamePageSameDevice(ds, pa, pa + k);
    assert Owns(First(ds, pa + k), pa + k);
  }

  // One chunk between pages of memory changes exactly its destination bytes.
  lemma ChunkMoves(ds: seq<Vdevice>, c: Contents, src: u32, dst: u32, n: nat, after: seq<u8>)
    requires ChunkOk(ds, c, src, dst, n) && after == Spliced(ds, c, src, dst, n)
    ensures Moved(ds, c, c[First(ds, dst) := after], src, dst, n)
  {
    SplicedFits(ds, c, src, dst, n);
    var d := First(ds, dst);
    EveryByte(ds, c, c[d := after], src, dst, n);
  }

  lemma EveryByte(ds: seq<Vdevice>, c: Contents, c': Contents, src: u32, dst: u32, n: nat)
    requires ChunkOk(ds, c, src, dst, n) && c' == c[First(ds, dst) := Spliced(ds, c, src, dst, n)]
    requires Fits(ds, c) && Fits(ds, c') && src + n <= 0x1_0000_0000
    ensures Moved(ds, c, c', src, dst, n)
  {
    hide First, ChunkOk, Byte, Spliced, Fits, Origin;
    forall pa: u32 ensures Byte(ds, c', pa) == Byte(ds, c, Origin(src, dst, n, pa)) {
      OneByte(ds, c, c', src, dst, n, pa);
    }
  }

  lemma OneByte(ds: seq<Vdevice>, c: Contents, c': Contents, src: u32, dst: u32, n: nat, pa: u32)
    requires ChunkOk(ds, c, src, dst, n) && c' == c[First(ds, dst) := Spliced(ds, c, src, dst, n)]
    requires Fits(ds, c) && Fits(ds, c') && src + n <= 0x1_0000_0000
    ensures Byte(ds, c', pa) == Byte(ds, c, Origin(src, dst, n, pa))
  {
    hide First, ChunkOk, Byte, Spliced, Fits;
    if dst <= pa < dst + n {
      ByteMoves(ds, c, src, dst, n, pa - dst);
    } else {
      ByteStays(ds, c, src, dst, n, pa);
    }
  }

  ghost predicate ChunkOk(ds: seq<Vdevice>, c: Contents, src: u32, dst: u32, n: nat) {
    && Aligned(ds) && Fits(ds, c) && Ram(ds, src) && Ram(ds, dst)
    && src + n <= 0x1_0000_0000 && src % PAGE + n <= PAGE
    && dst + n <= 0x1_0000_0000 && dst % PAGE + n <= PAGE
    && dst - First(ds, dst).base + n <= |c[First(ds, dst)]|
    && src - First(ds, src).base + n <= |c[First(ds, src)]|
  }

  ghost function Spliced(ds: seq<Vdevice>, c: Contents, src: u32, dst: u32, n: nat): seq<u8>
    requires ChunkOk(ds, c, src, dst, n)
  {
    var d, e := First(ds, dst), First(ds, src);
    var at, off := dst - d.base, src - e.base;
    c[d][..at] + c[e][off..off + n] + c[d][at + n..]
  }

  lemma SplicedFits(ds: seq<Vdevice>, c: Contents, src: u32, dst: u32, n: nat)
    requires ChunkOk(ds, c, src, dst, n)
    ensures Fits(ds, c) && Fits(ds, c[First(ds, dst) := Spliced(ds, c, src, dst, n)])
  {
    hide First, Aligned;
  }

  lemma ByteMoves(ds: seq<Vdevice>, c: Contents, src: u32, dst: u32, n: nat, k: nat)
    requires ChunkOk(ds, c, src, dst, n) && k < n
    ensures var c' := c[First(ds, dst) := Spliced(ds, c, src, dst, n)];
            Fits(ds, c') && Byte(ds, c', dst + k) == Byte(ds, c, src + k)
  {
    hide First, Aligned, Fits, Spliced;
    SplicedAt(ds, c, src, dst, n, k);
    SplicedFits(ds, c, src, dst, n);
    InChunk(ds, dst, k);
    InChunk(ds, src, k);
  }

  lemma SplicedAt(ds: seq<Vdevice>, c: Contents, src: u32, dst: u32, n: nat, k: nat)
    requires ChunkOk(ds, c, src, dst, n) && k < n
    ensures var at := dst - First(ds, dst).base + k;
            && First(ds, dst) != null && First(ds, dst).direct && First(ds, src) != null && First(ds, src).direct
            && at < |Spliced(ds, c, src, dst, n)|
            && Spliced(ds, c, src, dst, n)[at] == c[First(ds, src)][src - First(ds, src).base + k]
  {
    hide First, Aligned;
    var d, e := First(ds, dst), First(ds, src);
    SplicedByte(c[d], c[e], dst - d.base, src - e.base, n, k);
  }

  lemma SplicedByte(x: seq<u8>, y: seq<u8>, at: nat, off: nat, n: nat, k: nat)
    requires at + n <= |x| && off + n <= |y| && k < n
    ensures (x[..at] + y[off..off + n] + x[at + n..])[at + k] == y[off + k]
  {}

  lemma ByteStays(ds: seq<Vdevice>, c: Contents, src: u32, dst: u32, n: nat, pa: u32)
    requires ChunkOk(ds, c, src, dst, n) && !(dst <= pa < dst + n)
    ensures var c' := c[First(ds, dst) := Spliced(ds, c, src, dst, n)];
            Fits(ds, c') && Byte(ds, c', pa) == Byte(ds, c, pa)
  {
    hide First, Aligned;
  }

  method CopyChunk(ghost ds: seq<Vdevice>, src: u32, dst: u32, n: nat, host: array<u8>, at: nat, from: array<u8>,
                   off: nat)
    requires Aligned(ds) && RamOk(ds) && Apart(src, dst, n)
    requires src + n <= 0x1_0000_0000 && src % PAGE + n <= PAGE
    requires dst + n <= 0x1_0000_0000 && dst % PAGE + n <= PAGE
    requires Ram(ds, src) && from == First(ds, src).host && off == src - First(ds, src).base
    requires Ram(ds, dst) && host == First(ds, dst).host && at == dst - First(ds, dst).base
    modifies host
    ensures Moved(ds, old(Hosted(ds)), Hosted(ds), src, dst, n)
  {
    ghost var d, c := First(ds, dst), Hosted(ds);
    hide Moved, First, ChunkOk, Aligned, Fits;
    ChunkFits(ds, src, dst, n);
    Memcpy(host, at, from, off, n);
    assert Hosted(ds) == c[d := host[..]];
    assert host[..] == Spliced(ds, c, src, dst, n);
    ChunkMoves(ds, c, src, dst, n, host[..]);
  }

  lemma ChunkFits(ds: seq<Vdevice>, src: u32, dst: u32, n: nat)
    requires Aligned(ds) && RamOk(ds) && Ram(ds, src) && Ram(ds, dst)
    requires src + n <= 0x1_0000_0000 && src % PAGE + n <= PAGE
    requires dst + n <= 0x1_0000_0000 && dst % PAGE + n <= PAGE
    ensures ChunkOk(ds, Hosted(ds), src, dst, n)
    ensures dst - First(ds, dst).base + n <= First(ds, dst).host.Length
    ensures src - First(ds, src).base + n <= First(ds, src).host.Length
    ensures 0 <= dst - First(ds, dst).base && 0 <= src - First(ds, src).base
  {
    var d, e := First(ds, dst), First(ds, src);
    assert AlignedDevice(d) && AlignedDevice(e);
    assert Owns(d, dst) && Owns(e, src);
    RestOfPage(d.base, d.len, dst, n);
    RestOfPage(e.base, e.len, src, n);
    hide First, AlignedDevice, Owns;
  }

  lemma RestOfPage(base: nat, len: nat, pa: nat, n: nat)
    requires base % PAGE == 0 && len % PAGE == 0 && base <= pa < base + len && pa % PAGE + n <= PAGE
    ensures pa - base + n <= len
  {
    var b, l, p := base / PAGE, len / PAGE, pa / PAGE;
    assert base == b * PAGE && len == l * PAGE && pa == p * PAGE + pa % PAGE;
    assert p < b + l;
  }

  lemma NoRam(ds: seq<Vdevice>, pa: u32)
    ensures AllRam(ds, pa, 0)
  {}

  lemma MoreRam(ds: seq<Vdevice>, pa: u32, m: nat, n: nat)
    requires pa + m < 0x1_0000_0000 && AllRam(ds, pa, m) && AllRam(ds, pa + m, n)
    ensures AllRam(ds, pa, m + n)
  {
  }

  lemma StopsShort(ds: seq<Vdevice>, src: u32, dst: u32, m: nat, len: nat)
    requires m < len && src + len <= 0x1_0000_0000 && dst + len <= 0x1_0000_0000
    requires !Ram(ds, src + m) || !Ram(ds, dst + m)
    ensures !AllRam(ds, src, len) || !AllRam(ds, dst, len)
  {
  }

  lemma NothingMoved(ds: seq<Vdevice>, src: u32, dst: u32)
    requires RamOk(ds)
    ensures Moved(ds, Hosted(ds), Hosted(ds), src, dst, 0)
  {
  }

  lemma MovedTwice(ds: seq<Vdevice>, c: Contents, c': Contents, c'': Contents, src: u32, dst: u32, m: nat, n: nat)
    requires src + m + n <= 0x1_0000_0000 && dst + m + n <= 0x1_0000_0000 && Apart(src, dst, m + n) && n > 0
    requires Moved(ds, c, c', src, dst, m) && Moved(ds, c', c'', src + m, dst + m, n)
    ensures Moved(ds, c, c'', src, dst, m + n)
  {
    hide Byte, Fits;
  }

  // Copy the next chunk; zero stands for the source's failed assertion, an end of
  // the chunk that is not memory.
  method MoveChunk(vm: VirtualMachine, src: u32, dst: u32, left: nat) returns (n: nat)
    requires vm.ListOk() && Aligned(vm.bound) && RamOk(vm.bound) && left > 0
    requires src + left <= 0x1_0000_0000 && dst + left <= 0x1_0000_0000 && Apart(src, dst, left)
    modifies set d <- vm.bound :: d.host
    ensures n == if Ram(vm.bound, src) && Ram(vm.bound, dst) then Chunk(src, dst, left) else 0
    ensures n > 0 ==> Moved(vm.bound, old(Hosted(vm.bound)), Hosted(vm.bound), src, dst, n)
    ensures n > 0 ==> AllRam(vm.bound, src, n) && AllRam(vm.bound, dst, n)
  {
    hide vm.ListOk, Moved, AllRam;
    var from, off := GetHptr(vm, src);
    var host, at := GetHptr(vm, dst);
    if from == null || host == null {
      return 0;
    }
    n := Chunk(src, dst, left);
    ChunkIsRam(vm.bound, src, n);
    ChunkIsRam(vm.bound, dst, n);
    hide Aligned, RamOk;
    CopyChunk(vm.bound, src, dst, n, host, at, from, off);
  }

  // False stands for a failed assertion.
  method Transfer(vm: VirtualMachine, src: u32, dst: u32, len: nat) returns (ok: bool)
    requires vm.ListOk() && Aligned(vm.bound) && RamOk(vm.bound)
    requires src + len <= 0x1_0000_0000 && dst + len <= 0x1_0000_0000 && Apart(src, dst, len)
    modifies set d <- vm.bound :: d.host
    ensures ok <==> AllRam(vm.bound, src, len) && AllRam(vm.bound, dst, len)
    ensures ok ==> Moved(vm.bound, old(Hosted(vm.bound)), Hosted(vm.bound), src, dst, len)
  {
    hide vm.ListOk, Moved, Aligned, RamOk, Ram, AllRam, Chunk;
    ghost var ds, c := vm.bound, Hosted(vm.bound);
    var s: nat, d: nat, left := src, dst, len;
    NothingMoved(ds, src, dst);
    NoRam(ds, src);
    NoRam(ds, dst);
    while left > 0
      invariant 0 <= left <= len && s == src + (len - left) && d == dst + (len - left)
      invariant AllRam(ds, src, len - left) && AllRam(ds, dst, len - left)
      invariant Moved(ds, c, Hosted(ds), src, dst, len - left)
    {
      ghost var c' := Hosted(ds);
      var n := MoveChunk(vm, s, d, left);
      if n == 0 {
        StopsShort(ds, src, dst, len - left, len);
        return false;
      }
      MoreRam(ds, src, len - left, n);
      MoreRam(ds, dst, len - left, n);
      MovedTwice(ds, c, c', Hosted(ds), src, dst, len - left, n);
      s, d, left := s + n, d + n, left - n;
    }
    ok := true;
  }
}

// From an image file to the first instructions in RAM: tool/mknandflash.c lays
// the file out in blocks with spare areas, the emulator maps those blocks, and
// the boot loader copies the data areas of the first four pages.
module NandImage {
  import opened Words
  import opened Wrappers
  import opened Nand
  import Ops = NandOperations

  const PAGE_DATA: nat := 0x800
  const BLOCK_DATA: nat := 0x2_0000
  const BOOT_BYTES: nat := 0x2000

  // The first and last block of an image; the arithmetic is 32 bits wide.
  method CalBlockNo(start: u32, size: u32) returns (first: u32, last: u32)
    ensures first == start / BLOCK_DATA
    ensures 0 < size ==> last == first + (size - 1) / BLOCK_DATA
    ensures size == 0 ==> last == (first - 1) % 0x1_0000_0000
  {
    first := start / BLOCK_DATA;
    last := (first + size / BLOCK_DATA) % 0x1_0000_0000;
    if size % BLOCK_DATA == 0 {
      last := (last - 1) % 0x1_0000_0000;
    }
  }

  function Min(a: int, b: int): int { if a < b then a else b }

  // Read at most `n` bytes of the file into the front of `dest`; a negative `n`
  // is an enormous unsigned count.
  method Read(content: seq<u8>, at: nat, n: int, dest: array<u8>) returns (next: nat)
    requires at <= |content|
    requires (if n < 0 then |content| - at else Min(n, |content| - at)) <= dest.Length
    modifies dest
    ensures next == at + (if n < 0 then |content| - at else Min(n, |content| - at))
    ensures dest[..] == content[at..next] + old(dest[next - at..])
  {
    var count := if n < 0 then |content| - at else Min(n, |content| - at);
    for i := 0 to count
      invariant forall k :: 0 <= k < i ==> dest[k] == content[at + k]
      invariant forall k :: i <= k < dest.Length ==> dest[k] == old(dest[k])
    {
      dest[i] := content[at + i];
    }
    next := at + count;
  }

  // The same into blank memory.
  method ReadPadded(content: seq<u8>, at: nat, n: int, dest: array<u8>) returns (next: nat)
    requires at <= |content|
    requires (if n < 0 then |content| - at else Min(n, |content| - at)) <= dest.Length
    modifies dest
    ensures next == at + (if n < 0 then |content| - at else Min(n, |content| - at))
    ensures dest[..] == content[at..next] + Erased(dest.Length - (next - at))
  {
    Fill(dest);
    next := Read(content, at, n, dest);
  }

  predicate Marked(boot: bool, block: nat, page: nat, col: nat) {
    boot && block == 0 && page < 8 && PAGE_DATA + 2 <= col <= PAGE_DATA + 4
  }

  // The byte at one column of one page of the image's block number `q`, which
  // goes to block `first + q` of the chip.
  function Laid(content: seq<u8>, boot: bool, first: nat, q: nat, page: nat, col: nat): u8 {
    var k := q * BLOCK_DATA + page * PAGE_DATA + col;
    if col < PAGE_DATA && k < |content| then content[k]
    else if Marked(boot, first + q, page, col) then 0
    else 0xFF
  }

  ghost predicate PageLaid(bytes: seq<u8>, content: seq<u8>, boot: bool, first: nat, q: nat, page: nat) {
    && |bytes| == PAGE_SIZE
    && forall col :: 0 <= col < PAGE_SIZE ==> bytes[col] == Laid(content, boot, first, q, page, col)
  }

  ghost predicate BlockLaid(bytes: seq<u8>, content: seq<u8>, boot: bool, first: nat, q: nat) {
    && |bytes| == BLOCK_SIZE
    && forall page :: 0 <= page < PAGES_PER_BLOCK ==>
         PageLaid(bytes[page * PAGE_SIZE..page * PAGE_SIZE + PAGE_SIZE], content, boot, first, q, page)
  }

  function BlocksOf(size: nat): nat { (size + BLOCK_DATA - 1) / BLOCK_DATA }

  // The directory of block files.
  class ImageWriter {
    var files: map<nat, Block>

    constructor ()
      ensures files == map[]
    {
      files := map[];
    }

    method FillPage(content: seq<u8>, at: nat, boot: bool, first: nat, q: nat, j: nat, page: array<u8>)
      returns (next: nat)
      requires page.Length == PAGE_SIZE && j < PAGES_PER_BLOCK
      requires at == Min(|content|, q * BLOCK_DATA + j * PAGE_DATA)
      modifies page
      ensures next == Min(|content|, q * BLOCK_DATA + (j + 1) * PAGE_DATA)
      ensures PageLaid(page[..], content, boot, first, q, j)
    {
      var leave := |content| - q * BLOCK_DATA - j * PAGE_DATA;
      if leave >= 0 {
        next := ReadPadded(content, at, PAGE_DATA, page);
      } else {
        next := ReadPadded(content, at, leave + PAGE_DATA, page);
      }
      ghost var bytes := page[..];
      if boot && first + q == 0 && j < 8 {
        page[PAGE_DATA + 2] := 0;
        page[PAGE_DATA + 3] := 0;
        page[PAGE_DATA + 4] := 0;
      }
      PageBytes(content, boot, first, q, j, at, next, bytes, page[..]);
    }

    lemma PageBytes(content: seq<u8>, boot: bool, first: nat, q: nat, j: nat, at: nat, next: nat, bytes: seq<u8>,
                    page: seq<u8>)
      requires at == Min(|content|, q * BLOCK_DATA + j * PAGE_DATA)
      requires next == Min(|content|, q * BLOCK_DATA + (j + 1) * PAGE_DATA)
      requires bytes == content[at..next] + Erased(PAGE_SIZE - (next - at)) && |page| == PAGE_SIZE
      requires forall col | 0 <= col < PAGE_SIZE ::
                 page[col] == if Marked(boot, first + q, j, col) then 0 else bytes[col]
      ensures PageLaid(page, content, boot, first, q, j)
    {
      var start := q * BLOCK_DATA + j * PAGE_DATA;
      forall col | 0 <= col < PAGE_SIZE ensures page[col] == Laid(content, boot, first, q, j, col) {
        if col < PAGE_DATA && start + col < |content| { assert bytes[col] == content[at + col]; }
      }
    }

    method WriteBlock(content: seq<u8>, at: nat, boot: bool, first: nat, q: nat) returns (next: nat)
      requires at == Min(|content|, q * BLOCK_DATA)
      modifies this
      ensures next == Min(|content|, (q + 1) * BLOCK_DATA)
      ensures first + q in files && BlockLaid(files[first + q], content, boot, first, q)
      ensures files == old(files)[first + q := files[first + q]]
    {
      var page := new u8[PAGE_SIZE](i => 0xFF);
      var file: seq<u8> := [];
      next := at;
      for j := 0 to PAGES_PER_BLOCK
        invariant next == Min(|content|, q * BLOCK_DATA + j * PAGE_DATA)
        invariant |file| == j * PAGE_SIZE && files == old(files)
        invariant forall p :: 0 <= p < j ==>
                                PageLaid(file[p * PAGE_SIZE..p * PAGE_SIZE + PAGE_SIZE], content, boot, first, q, p)
      {
        next := FillPage(content, next, boot, first, q, j, page);
        ghost var before := file;
        file := file + page[..];
        assert file[j * PAGE_SIZE..j * PAGE_SIZE + PAGE_SIZE] == page[..];
        forall p | 0 <= p < j
          ensures PageLaid(file[p * PAGE_SIZE..p * PAGE_SIZE + PAGE_SIZE], content, boot, first, q, p)
        {
          assert p * PAGE_SIZE + PAGE_SIZE <= j * PAGE_SIZE;
          assert file[p * PAGE_SIZE..p * PAGE_SIZE + PAGE_SIZE] == before[p * PAGE_SIZE..p * PAGE_SIZE + PAGE_SIZE];
        }
      }
      files := files[first + q := file];
    }

    // An image without spare areas.
    method WriteImage(content: seq<u8>, start: u32, boot: bool)
      requires 0x4000 <= |content| < 0x8000_0000
      modifies this
      ensures forall q :: 0 <= q < BlocksOf(|content|) ==> Installed(files, content, boot, start / BLOCK_DATA, q)
      ensures OnlyChanged(old(files), files, start / BLOCK_DATA, BlocksOf(|content|))
    {
      var first, last := CalBlockNo(start, |content|);
      var at: nat := 0;
      var i := first;
      while i <= last
        invariant first <= i <= last + 1 && at == Min(|content|, (i - first) * BLOCK_DATA)
        invariant forall q :: 0 <= q < i - first ==> Installed(files, content, boot, first, q)
        invariant OnlyChanged(old(files), files, first, i - first)
      {
        ghost var before := files;
        at := WriteBlock(content, at, boot, first, i - first);
        forall q | 0 <= q <= i - first ensures Installed(files, content, boot, first, q) {
          assert q < i - first ==> Installed(before, content, boot, first, q);
        }
        i := i + 1;
      }
    }

    // An image that brings its own spare areas. It is cut into whole blocks, but
    // the number of blocks is computed from the size of their data areas.
    method WriteImageWithSpare(content: seq<u8>, start: u32)
      requires 0 < |content| < 0x8000_0000
      modifies this
      ensures forall q :: 0 <= q < BlocksOf(|content|) ==> InstalledWithSpare(files, content, start / BLOCK_DATA, q)
      ensures OnlyChanged(old(files), files, start / BLOCK_DATA, BlocksOf(|content|))
    {
      var first, last := CalBlockNo(start, |content|);
      var at: nat := 0;
      var i := first;
      while i <= last
        invariant first <= i <= last + 1 && at == Min(|content|, (i - first) * BLOCK_SIZE)
        invariant forall q :: 0 <= q < i - first ==> InstalledWithSpare(files, content, first, q)
        invariant OnlyChanged(old(files), files, first, i - first)
      {
        ghost var before := files;
        at := WriteSpareBlock(content, at, first, i - first);
        forall q | 0 <= q <= i - first ensures InstalledWithSpare(files, content, first, q) {
          assert q < i - first ==> InstalledWithSpare(before, content, first, q);
        }
        i := i + 1;
      }
    }

    method WriteSpareBlock(content: seq<u8>, at: nat, first: nat, q: nat) returns (next: nat)
      requires at == Min(|content|, q * BLOCK_SIZE)
      modifies this
      ensures next == Min(|content|, (q + 1) * BLOCK_SIZE)
      ensures InstalledWithSpare(files, content, first, q)
      ensures files == old(files)[first + q := files[first + q]]
    {
      var block := new u8[BLOCK_SIZE];
      var leave := |content| - q * BLOCK_SIZE;
      if leave >= 0 {
        next := ReadPadded(content, at, BLOCK_SIZE, block);
      } else {
        next := ReadPadded(content, at, leave + BLOCK_SIZE, block);
      }
      SpareBytes(content, q, at, next, block[..]);
      files := files[first + q := block[..]];
    }
  }

  lemma SpareBytes(content: seq<u8>, q: nat, at: nat, next: nat, block: Block)
    requires at == Min(|content|, q * BLOCK_SIZE) && next == Min(|content|, (q + 1) * BLOCK_SIZE)
    requires block == content[at..next] + Erased(BLOCK_SIZE - (next - at))
    ensures SpareLaid(block, content, q)
  {
    forall o | 0 <= o < BLOCK_SIZE
      ensures block[o] == if q * BLOCK_SIZE + o < |content| then content[q * BLOCK_SIZE + o] else 0xFF
    {
      if q * BLOCK_SIZE + o < |content| { assert content[at..next][o] == content[at + o]; }
    }
  }

  ghost predicate OnlyChanged(before: map<nat, Block>, after: map<nat, Block>, first: nat, count: nat) {
    && (forall b :: b in after <==> b in before || first <= b < first + count)
    && (forall b :: b in before && !(first <= b < first + count) ==> after[b] == before[b])
  }

  ghost predicate SpareLaid(bytes: seq<u8>, content: seq<u8>, q: nat) {
    && |bytes| == BLOCK_SIZE
    && forall o :: 0 <= o < BLOCK_SIZE ==>
         bytes[o] == if q * BLOCK_SIZE + o < |content| then content[q * BLOCK_SIZE + o] else 0xFF
  }

  ghost predicate Installed(files: map<nat, Block>, content: seq<u8>, boot: bool, first: nat, q: nat) {
    first + q in files && BlockLaid(files[first + q], content, boot, first, q)
  }

  ghost predicate InstalledWithSpare(files: map<nat, Block>, content: seq<u8>, first: nat, q: nat) {
    first + q in files && SpareLaid(files[first + q], content, q)
  }

  // ---------------------------------------------------------------- reading back

  function DataByte(block: Block, k: nat): u8 {
    var o := k / PAGE_DATA % PAGES_PER_BLOCK * PAGE_SIZE + k % PAGE_DATA;
    block[o]
  }

  // Every byte of the file comes back from the data area of its page.
  lemma FileByte(files: map<nat, Block>, content: seq<u8>, boot: bool, first: nat, k: nat)
    requires k < |content|
    requires Installed(files, content, boot, first, k / BLOCK_DATA)
    ensures DataByte(files[first + k / BLOCK_DATA], k) == content[k]
  {
    var q, page, col := k / BLOCK_DATA, k / PAGE_DATA % PAGES_PER_BLOCK, k % PAGE_DATA;
    var block := files[first + q];
    assert PageLaid(block[page * PAGE_SIZE..page * PAGE_SIZE + PAGE_SIZE], content, boot, first, q, page);
    assert block[page * PAGE_SIZE..page * PAGE_SIZE + PAGE_SIZE][col] == block[page * PAGE_SIZE + col];
    assert q * BLOCK_DATA + page * PAGE_DATA + col == k;
  }

  // Outside the file the data areas are blank, and the boot marks lie in spare areas.
  lemma PaddingIsBlank(bytes: Block, content: seq<u8>, boot: bool, first: nat, q: nat, page: nat, col: nat)
    requires BlockLaid(bytes, content, boot, first, q) && page < PAGES_PER_BLOCK && col < PAGE_SIZE
    requires col < PAGE_DATA ==> q * BLOCK_DATA + page * PAGE_DATA + col >= |content|
    ensures bytes[page * PAGE_SIZE + col] == 0xFF <==> !Marked(boot, first + q, page, col)
  {
    assert PageLaid(bytes[page * PAGE_SIZE..page * PAGE_SIZE + PAGE_SIZE], content, boot, first, q, page);
    assert bytes[page * PAGE_SIZE..page * PAGE_SIZE + PAGE_SIZE][col] == bytes[page * PAGE_SIZE + col];
  }

  // A marked byte is zero: columns 0x802 to 0x804 of the first eight pages of a
  // boot image's block zero.
  lemma MarksAreZero(bytes: Block, content: seq<u8>, boot: bool, first: nat, q: nat, page: nat, col: nat)
    requires BlockLaid(bytes, content, boot, first, q) && page < 64 && 0x800 <= col < 0x840
    ensures bytes[page * 0x840 + col] ==
            if boot && first + q == 0 && page < 8 && 0x802 <= col <= 0x804 then 0 else 0xFF
  {
    assert PageLaid(bytes[page * PAGE_SIZE..page * PAGE_SIZE + PAGE_SIZE], content, boot, first, q, page);
    assert bytes[page * PAGE_SIZE..page * PAGE_SIZE + PAGE_SIZE][col] == bytes[page * PAGE_SIZE + col];
  }

  // Through the controller: reading page p of the image's block q delivers the
  // file's bytes from 0x20000 q + 0x800 p on.
  lemma ImageReads(f: Flash, content: seq<u8>, boot: bool, first: nat, q: nat, page: nat, col: nat, count: nat)
    requires Ops.Ready(f) && first + q < 0x2000 && Installed(f.blocks, content, boot, first, q)
    requires page < 64 && col + count <= 0x800 && q * 0x2_0000 + page * 0x800 + col + count <= |content|
    ensures var r := Run(f, Ops.Encode(Ops.Read((first + q) * 64 + page, col, count, None)));
            var at := q * 0x2_0000 + page * 0x800 + col;
            r.Some? && r.value.1 == content[at..at + count]
  {
    var row := (first + q) * 64 + page;
    LaidBytes(f.blocks[first + q], content, boot, first, q, page, col, count);
    hide Run, Ops.Encode, BlockLaid, Ops.Stretch, Ops.Contents, Base;
    StretchIs(f, first + q, page, col, count);
    Ops.OperationRuns(f, Ops.Read(row, col, count, None));
    var out := Ops.Stretch(Ops.Contents(f), row, col, count);
    assert out + [] == out;
  }

  lemma StretchIs(f: Flash, b: nat, page: nat, col: nat, count: nat)
    requires b in f.blocks && b < 0x2000 && page < 64 && col + count <= 0x800
    ensures b * 64 + page < Ops.PAGES && Ops.Inside(b * 64 + page, col, count)
    ensures Ops.Stretch(Ops.Contents(f), b * 64 + page, col, count) ==
            f.blocks[b][page * 0x840 + col..page * 0x840 + col + count]
  {
    assert (b * 64 + page) / 64 == b && (b * 64 + page) % 64 == page;
  }

  lemma LaidBytes(bytes: Block, content: seq<u8>, boot: bool, first: nat, q: nat, page: nat, col: nat, count: nat)
    requires BlockLaid(bytes, content, boot, first, q)
    requires page < 64 && col + count <= 0x800 && q * 0x2_0000 + page * 0x800 + col + count <= |content|
    ensures var at := q * 0x2_0000 + page * 0x800 + col;
            bytes[page * 0x840 + col..page * 0x840 + col + count] == content[at..at + count]
  {
    var laid := bytes[page * PAGE_SIZE..page * PAGE_SIZE + PAGE_SIZE];
    assert PageLaid(laid, content, boot, first, q, page);
    var at, start := q * 0x2_0000 + page * 0x800 + col, page * 0x840 + col;
    var got, wanted := bytes[start..start + count], content[at..at + count];
    forall i | 0 <= i < count ensures got[i] == wanted[i] {
      assert laid[col + i] == bytes[start + i] && content[at + i] == wanted[i];
    }
  }

  // Block number `q` of an image with spare areas holds none of its bytes.
  predicate Behind(content: seq<u8>, q: nat) { q * BLOCK_SIZE >= |content| }

  predicate Blanked(files: map<nat, Block>, first: nat, q: nat) {
    first + q in files && files[first + q] == Erased(BLOCK_SIZE)
  }

  // Blocks written but not needed, exactly those from the second number up to
  // the first, are blanked; there are some if and only if the numbers differ.
  lemma SpareImageOverruns(files: map<nat, Block>, content: seq<u8>, first: nat)
    requires content != [] && forall q | 0 <= q < BlocksOf(|content|) :: InstalledWithSpare(files, content, first, q)
    ensures var written, needed := (|content| - 1) / BLOCK_DATA, (|content| - 1) / BLOCK_SIZE;
            && BlocksOf(|content|) == written + 1
            && (forall q: nat | needed < q <= written :: Behind(content, q) && Blanked(files, first, q))
            && (forall q: nat | q <= needed :: !Behind(content, q))
            && ((exists q: nat :: q <= written && Behind(content, q)) <==> written > needed)
  {
    var written, needed := (|content| - 1) / BLOCK_DATA, (|content| - 1) / BLOCK_SIZE;
    forall q: nat ensures Behind(content, q) <==> q > needed {}
    forall q: nat | needed < q <= written ensures Blanked(files, first, q) {
      assert InstalledWithSpare(files, content, first, q);
      assert Behind(content, q);
    }
    if written > needed { assert Behind(content, written); }
  }

  // So an image of n whole blocks blanks ceil(n / 32) blocks behind it, and one
  // of up to 62 pages none.
  lemma OverrunOfWholeBlocks(n: nat, pages: nat)
    requires 0 < n && 0 < pages <= 62
    ensures BlocksOf(n * BLOCK_SIZE) == n + (n + 31) / 32
    ensures BlocksOf(pages * PAGE_SIZE) == 1
  {
  }

  // ------------------------------------------------------------------- boot copy

  method CopyBootPages(chip: NandFlash, ram: array<u8>)
    requires chip.Valid() && chip.flashMap[0] != null && ram != chip.flashMap[0] && BOOT_BYTES <= ram.Length
    modifies ram
    ensures forall k :: 0 <= k < BOOT_BYTES ==> ram[k] == DataByte(chip.flashMap[0][..], k)
    ensures forall k :: BOOT_BYTES <= k < ram.Length ==> ram[k] == old(ram[k])
  {
    var block := chip.flashMap[0];
    ghost var bytes := block[..];
    for i := 0 to BOOT_BYTES / PAGE_DATA
      invariant block[..] == bytes
      invariant forall k :: 0 <= k < PAGE_DATA * i ==> ram[k] == DataByte(bytes, k)
      invariant forall k :: BOOT_BYTES <= k < ram.Length ==> ram[k] == old(ram[k])
    {
      for k := 0 to PAGE_DATA
        invariant block[..] == bytes
        invariant forall m :: 0 <= m < PAGE_DATA * i + k ==> ram[m] == DataByte(bytes, m)
        invariant forall m :: BOOT_BYTES <= m < ram.Length ==> ram[m] == old(ram[m])
      {
        ram[PAGE_DATA * i + k] := block[Base(i) + k];
        assert (PAGE_DATA * i + k) / PAGE_DATA == i;
      }
    }
  }

  // Installing a boot image on a blank chip and resetting the board puts the
  // image's first 8 KB at the start of RAM.
  method InstallAndBoot(image: seq<u8>, size: nat) returns (chip: NandFlash, ram: array<u8>)
    requires 0x4000 <= |image| <= BLOCKS * BLOCK_DATA && 0x2000 <= size
    ensures chip.Valid() && ram.Length == size
    ensures ram[..0x2000] == image[..0x2000]
  {
    var tool := new ImageWriter();
    tool.WriteImage(image, 0, true);
    ghost var files := tool.files;
    assert Installed(files, image, true, 0, 0);
    chip := new NandFlash(tool.files);
    ram := new u8[size](i => 0);
    CopyBootPages(chip, ram);
    forall k | 0 <= k < BOOT_BYTES ensures ram[k] == image[k] {
      FileByte(files, image, true, 0, k);
    }
  }
}

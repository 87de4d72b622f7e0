// The NAND flash controller of emulator/device/dev_nand_flash_1g.c: a command,
// address and data state machine over 8192 blocks whose files are created only
// when a block is first written. `Step` is one access to one of the three ports,
// `Run` a sequence of them.
module Nand {
  import opened Words
  import opened Wrappers

  const PAGE_SIZE: nat := 0x840
  const PAGES_PER_BLOCK: nat := 0x40
  const BLOCK_SIZE: nat := 0x21000
  const BLOCKS: nat := 0x2000
  const ID: seq<u8> := [0xEC, 0xD3, 0x51, 0x95, 0x58]
  const STATUS: u8 := 0xC0

  function Erased(n: nat): (s: seq<u8>)
    ensures |s| == n && forall i :: 0 <= i < n ==> s[i] == 0xFF
  {
    seq(n, i => 0xFF)
  }

  type Block = s: seq<u8> | |s| == BLOCK_SIZE witness Erased(BLOCK_SIZE)
  type Page = s: seq<u8> | |s| == PAGE_SIZE witness Erased(PAGE_SIZE)

  // ------------------------------------------------------------ pages in blocks

  function Base(row: nat): (b: nat)
    ensures b + PAGE_SIZE <= BLOCK_SIZE
  {
    row % PAGES_PER_BLOCK * PAGE_SIZE
  }

  function PageAt(block: Block, row: nat): Page { block[Base(row)..Base(row) + PAGE_SIZE] }

  function WithPage(block: Block, row: nat, page: Page): Block {
    block[..Base(row)] + page + block[Base(row) + PAGE_SIZE..]
  }

  // Programming leaves alone every byte for which the buffer holds 0xFF.
  function Merged(page: Page, buffer: Page): Page {
    seq(PAGE_SIZE, i requires 0 <= i < PAGE_SIZE => if buffer[i] == 0xFF then page[i] else buffer[i])
  }

  function Programmed(block: Block, row: nat, buffer: Page): Block {
    WithPage(block, row, Merged(PageAt(block, row), buffer))
  }

  // -------------------------------------------------------------- the controller

  datatype Mode = Init | ReadStart | RandomReadStart | WriteStart | RandomWriteStart
                | CopyRead | CopyStart | EraseStart

  // Where the data port reads: the identification bytes, the status byte, the
  // page of a block that exists, or the same page of the shared blank block.
  datatype Reader = Nowhere | OnId | OnStatus | OnBlock(row: nat) | OnFake(row: nat)

  datatype Flash = Flash(mode: Mode, blocks: map<nat, Block>, row: nat, col: nat, buffer: Page, reader: Reader,
                         readOffset: nat, writeOffset: nat, addrOffset: nat, issued: bool)

  datatype Access = Command(data: nat) | Address(data: nat) | Put(value: u8) | Get

  function BlockAt(blocks: map<nat, Block>, b: nat): Block {
    if b in blocks then blocks[b] else Erased(BLOCK_SIZE)
  }

  function Opened(f: Flash): Option<Flash> {
    if f.row / PAGES_PER_BLOCK >= BLOCKS then None
    else
      Some(f.(mode := Init, readOffset := f.col,
              reader := if f.row / PAGES_PER_BLOCK in f.blocks then OnBlock(f.row) else OnFake(f.row)))
  }

  function ProgramPage(f: Flash): Option<Flash> {
    var b := f.row / PAGES_PER_BLOCK;
    if b >= BLOCKS then None
    else
      Some(f.(mode := Init, writeOffset := 0,
              blocks := f.blocks[b := Programmed(BlockAt(f.blocks, b), f.row, f.buffer)]))
  }

  function EraseBlock(f: Flash): Option<Flash> {
    var b := f.row / PAGES_PER_BLOCK;
    if b >= BLOCKS then None
    else Some(f.(mode := Init, blocks := f.blocks[b := Erased(BLOCK_SIZE)]))
  }

  function RandomInput(f: Flash): Option<Flash> { Some(f.(mode := RandomWriteStart, writeOffset := 0)) }

  function Idle(f: Flash, c: nat): Option<Flash> {
    match c
    case 0x00 => Some(f.(mode := ReadStart))
    case 0x80 => Some(f.(mode := WriteStart, buffer := Erased(PAGE_SIZE)))
    case 0x05 => if f.issued then Some(f.(mode := RandomReadStart, issued := false)) else None
    case 0xFF => Some(f)
    case 0x90 => Some(f.(reader := OnId, readOffset := 0))
    case 0x60 => Some(f.(mode := EraseStart, addrOffset := 2))
    case 0x70 => Some(f.(reader := OnStatus, readOffset := 0))
    case _ => None
  }

  // None stands for a failed assertion of the source, here a command that the
  // present mode does not take or a block beyond the end of the chip.
  function OnCommand(f: Flash, c: nat): Option<Flash> {
    match f.mode
    case Init => Idle(f, c)
    case EraseStart => if c == 0xD0 then EraseBlock(f) else None
    case ReadStart =>
      if c == 0x30 then Opened(f.(issued := true))
      else if c == 0x35 then Some(f.(mode := CopyRead, buffer := Erased(PAGE_SIZE)))
      else if c == 0xFF then Some(f.(mode := Init))
      else None
    case RandomReadStart => if c == 0xE0 then Opened(f) else if c == 0x05 then Some(f) else None
    case WriteStart => if c == 0x10 then ProgramPage(f) else if c == 0x85 then RandomInput(f) else None
    case RandomWriteStart => if c == 0x10 then ProgramPage(f) else if c == 0x85 then RandomInput(f) else None
    case CopyRead => if c == 0x85 then Some(f.(mode := CopyStart, writeOffset := 0)) else None
    case CopyStart => if c == 0x10 then ProgramPage(f) else if c == 0x85 then RandomInput(f) else None
  }

  function OnAddress(f: Flash, d: nat): Option<Flash> {
    var g := f.(addrOffset := f.addrOffset + 1);
    match f.addrOffset
    case 0 => Some(g.(col := d))
    case 1 => Some(g.(col := f.col + d * 0x100))
    case 2 => Some(g.(row := d))
    case 3 => Some(g.(row := f.row + d * 0x100))
    case 4 => Some(g.(row := f.row + d * 0x1_0000))
    case _ => None
  }

  // The bytes between the read pointer and the end of the object it points into.
  function Window(f: Flash): seq<u8> {
    match f.reader
    case Nowhere => []
    case OnId => ID
    case OnStatus => [STATUS]
    case OnBlock(row) => BlockAt(f.blocks, row / PAGES_PER_BLOCK)[Base(row)..]
    case OnFake(row) => Erased(BLOCK_SIZE)[Base(row)..]
  }

  function Step(f: Flash, a: Access): Option<(Flash, seq<u8>)> {
    match a
    case Command(data) =>
      var g := OnCommand(f.(addrOffset := 0), data % 0x100);
      if g.Some? then Some((g.value, [])) else None
    case Address(data) =>
      var g := OnAddress(f, data % 0x100);
      if g.Some? then Some((g.value, [])) else None
    case Put(value) =>
      if f.col + f.writeOffset >= PAGE_SIZE then None
      else Some((f.(buffer := f.buffer[f.col + f.writeOffset := value], writeOffset := f.writeOffset + 1), []))
    case Get =>
      if f.readOffset >= |Window(f)| then None
      else Some((f.(readOffset := f.readOffset + 1), [Window(f)[f.readOffset]]))
  }

  function Run(f: Flash, accesses: seq<Access>): Option<(Flash, seq<u8>)>
    decreases |accesses|
  {
    if accesses == [] then Some((f, []))
    else
      var s := Step(f, accesses[0]);
      if s.None? then None
      else
        var rest := Run(s.value.0, accesses[1..]);
        if rest.None? then None else Some((rest.value.0, s.value.1 + rest.value.1))
  }

  // ----------------------------------------------- the chip with heap-held blocks

  method Fill(bytes: array<u8>)
    modifies bytes
    ensures bytes[..] == Erased(bytes.Length)
  {
    for i := 0 to bytes.Length
      invariant forall k :: 0 <= k < i ==> bytes[k] == 0xFF
    {
      bytes[i] := 0xFF;
    }
  }

  method WritePage(block: array<u8>, row: nat, data: array<u8>)
    requires block.Length == BLOCK_SIZE && data.Length == PAGE_SIZE && block != data
    modifies block
    ensures block[..] == Programmed(old(block[..]), row, data[..])
  {
    var start := Base(row);
    ghost var after := Programmed(block[..], row, data[..]);
    for i := 0 to PAGE_SIZE
      invariant block[..start + i] == after[..start + i]
      invariant forall k :: start + i <= k < BLOCK_SIZE ==> block[k] == old(block[k])
    {
      if data[i] != 0xFF && block[start + i] != data[i] {
        block[start + i] := data[i];
      }
      assert block[start + i] == after[start + i];
    }
    assert block[..] == after;
  }

  ghost predicate Separate(flashMap: seq<array?<u8>>) {
    forall b, c :: 0 <= b < c < |flashMap| && flashMap[b] != null ==> flashMap[b] != flashMap[c]
  }

  lemma OtherBlock(flashMap: seq<array?<u8>>, b: nat, c: nat)
    requires Separate(flashMap) && b < |flashMap| && c < |flashMap| && b != c && flashMap[b] != null
    ensures flashMap[b] != flashMap[c]
  {
  }

  class NandFlash {
    var mode: Mode
    var flashMap: seq<array?<u8>>
    const fakeBlock: array<u8>
    const writeBuffer: array<u8>
    var row: nat
    var col: nat
    var reader: Reader
    var readOffset: nat
    var writeOffset: nat
    var addrOffset: nat
    var issued: bool
    ghost var blocks: map<nat, Block>

    ghost predicate Valid()
      reads this, fakeBlock, set b <- flashMap
    {
      && |flashMap| == BLOCKS
      && fakeBlock.Length == BLOCK_SIZE
      && writeBuffer.Length == PAGE_SIZE
      && fakeBlock != writeBuffer
      && fakeBlock !in flashMap && writeBuffer !in flashMap
      && Separate(flashMap)
      && fakeBlock[..] == Erased(BLOCK_SIZE)
      && (forall b :: b in blocks <==> 0 <= b < BLOCKS && flashMap[b] != null)
      && (forall b :: b in blocks ==> flashMap[b].Length == BLOCK_SIZE && flashMap[b][..] == blocks[b])
      && (reader.OnBlock? ==> reader.row / PAGES_PER_BLOCK in blocks)
    }

    twostate predicate Grown()
      reads this
    {
      forall k :: 0 <= k < |flashMap| && flashMap[k] != null ==> flashMap[k] in old(flashMap) || fresh(flashMap[k])
    }

    ghost function State(): Flash
      reads this, writeBuffer
      requires writeBuffer.Length == PAGE_SIZE
    {
      Flash(mode, blocks, row, col, writeBuffer[..], reader, readOffset, writeOffset, addrOffset, issued)
    }

    // The blocks that have a file when the emulator starts.
    constructor (files: map<nat, Block>)
      requires forall b :: b in files ==> b < BLOCKS
      ensures Valid() && fresh(fakeBlock) && fresh(writeBuffer)
      ensures State() == Flash(Init, files, 0, 0, Erased(PAGE_SIZE), Nowhere, 0, 0, 0, false)
    {
      mode, row, col, reader, readOffset, writeOffset, addrOffset, issued := Init, 0, 0, Nowhere, 0, 0, 0, false;
      flashMap := seq(BLOCKS, i => null);
      fakeBlock := new u8[BLOCK_SIZE](i => 0xFF);
      writeBuffer := new u8[PAGE_SIZE](i => 0xFF);
      blocks := map[];
      new;
      assert Separate(flashMap);
      hide Separate;
      for b := 0 to BLOCKS
        invariant Valid() && fresh(fakeBlock) && fresh(writeBuffer)
        invariant State() == Flash(Init, blocks, 0, 0, Erased(PAGE_SIZE), Nowhere, 0, 0, 0, false)
        invariant forall c :: c in blocks <==> c < b && c in files
        invariant forall c :: c in blocks ==> blocks[c] == files[c]
      {
        if b in files {
          Attach(b, files[b]);
        }
      }
      assert blocks == files;
    }

    // Give block `b` memory of its own.
    method Attach(b: nat, content: Block)
      requires Valid() && b < BLOCKS && flashMap[b] == null
      modifies this`flashMap, this`blocks
      ensures Valid() && flashMap[b] != null && fresh(flashMap[b])
      ensures flashMap == old(flashMap)[b := flashMap[b]]
      ensures blocks == old(blocks)[b := content]
    {
      var block := new u8[BLOCK_SIZE](i requires 0 <= i < BLOCK_SIZE => content[i]);
      flashMap := flashMap[b := block];
      blocks := blocks[b := content];
      assert block[..] == content;
    }

    // Create the block that holds `row` when it does not exist yet.
    method Materialise() returns (block: array<u8>)
      requires Valid() && row / PAGES_PER_BLOCK < BLOCKS
      modifies this`flashMap, this`blocks
      ensures Valid() && block == flashMap[row / PAGES_PER_BLOCK]
      ensures blocks == old(blocks)[row / PAGES_PER_BLOCK := BlockAt(old(blocks), row / PAGES_PER_BLOCK)]
      ensures Grown() && (block in old(flashMap) || fresh(block))
    {
      var b := row / PAGES_PER_BLOCK;
      if flashMap[b] == null {
        Attach(b, Erased(BLOCK_SIZE));
      }
      block := flashMap[b];
    }

    method EraseFile()
      requires Valid() && row / PAGES_PER_BLOCK < BLOCKS
      modifies this`flashMap, this`blocks, flashMap
      ensures Valid() && Grown()
      ensures blocks == old(blocks)[row / PAGES_PER_BLOCK := Erased(BLOCK_SIZE)]
    {
      hide Separate;
      var block := Materialise();
      forall b | b in blocks && b != row / PAGES_PER_BLOCK ensures flashMap[b] != block {
        OtherBlock(flashMap, b, row / PAGES_PER_BLOCK);
      }
      Fill(block);
      blocks := blocks[row / PAGES_PER_BLOCK := Erased(BLOCK_SIZE)];
    }

    method WritePageFile()
      requires Valid() && row / PAGES_PER_BLOCK < BLOCKS
      modifies this`flashMap, this`blocks, flashMap
      ensures Valid() && Grown()
      ensures blocks == old(blocks)[row / PAGES_PER_BLOCK :=
                                    Programmed(BlockAt(old(blocks), row / PAGES_PER_BLOCK), row, writeBuffer[..])]
    {
      hide Programmed, Separate;
      var block := Materialise();
      forall b | b in blocks && b != row / PAGES_PER_BLOCK ensures flashMap[b] != block {
        OtherBlock(flashMap, b, row / PAGES_PER_BLOCK);
      }
      ghost var after := Programmed(block[..], row, writeBuffer[..]);
      WritePage(block, row, writeBuffer);
      blocks := blocks[row / PAGES_PER_BLOCK := after];
    }

    method OpenPage()
      requires Valid() && row / PAGES_PER_BLOCK < BLOCKS
      modifies this`mode, this`reader, this`readOffset
      ensures Valid() && Some(State()) == Opened(old(State()))
    {
      mode, readOffset := Init, col;
      reader := if flashMap[row / PAGES_PER_BLOCK] == null then OnFake(row) else OnBlock(row);
    }

    method ConfirmProgram()
      requires Valid() && row / PAGES_PER_BLOCK < BLOCKS
      modifies this, flashMap
      ensures Valid() && Grown() && Some(State()) == ProgramPage(old(State()))
    {
      WritePageFile();
      mode, writeOffset := Init, 0;
    }

    method TakeIdle(c: nat)
      requires Valid() && mode == Init && Idle(State(), c).Some?
      modifies this, writeBuffer
      ensures Valid() && flashMap == old(flashMap) && Some(State()) == Idle(old(State()), c)
    {
      if c == 0x00 {
        mode := ReadStart;
      } else if c == 0x80 {
        Fill(writeBuffer);
        mode := WriteStart;
      } else if c == 0x05 {
        mode, issued := RandomReadStart, false;
      } else if c == 0xFF {
        mode := Init;
      } else if c == 0x90 {
        reader, readOffset := OnId, 0;
      } else if c == 0x60 {
        mode, addrOffset := EraseStart, 2;
      } else {
        reader, readOffset := OnStatus, 0;
      }
    }

    method TakeRead(c: nat)
      requires Valid() && mode == ReadStart && OnCommand(State(), c).Some?
      modifies this, writeBuffer
      ensures Valid() && flashMap == old(flashMap) && Some(State()) == OnCommand(old(State()), c)
    {
      if c == 0x30 {
        issued := true;
        OpenPage();
      } else if c == 0x35 {
        mode := CopyRead;
        Fill(writeBuffer);
      } else {
        mode := Init;
      }
    }

    method TakeWrite(c: nat)
      requires Valid() && mode in {WriteStart, RandomWriteStart, CopyStart} && OnCommand(State(), c).Some?
      modifies this, flashMap
      ensures Valid() && Grown() && Some(State()) == OnCommand(old(State()), c)
    {
      if c == 0x10 {
        ConfirmProgram();
      } else {
        mode, writeOffset := RandomWriteStart, 0;
      }
    }

    // The command port.
    method TakeCommand(data: nat)
      requires Valid() && Step(State(), Command(data)).Some?
      modifies this, flashMap, writeBuffer
      ensures Valid() && Grown() && State() == Step(old(State()), Command(data)).value.0
    {
      hide Separate;
      addrOffset := 0;
      var c := data % 0x100;
      match mode {
        case Init =>
          TakeIdle(c);
        case EraseStart =>
          EraseFile();
          mode := Init;
        case ReadStart =>
          TakeRead(c);
        case RandomReadStart =>
          if c == 0xE0 {
            OpenPage();
          }
        case WriteStart =>
          TakeWrite(c);
        case RandomWriteStart =>
          TakeWrite(c);
        case CopyRead =>
          mode, writeOffset := CopyStart, 0;
        case CopyStart =>
          TakeWrite(c);
      }
    }

    // The address port: two column cycles, then three row cycles.
    method TakeAddress(data: nat)
      requires Valid() && Step(State(), Address(data)).Some?
      modifies this
      ensures Valid() && flashMap == old(flashMap) && State() == Step(old(State()), Address(data)).value.0
    {
      var d := data % 0x100;
      match addrOffset {
        case 0 => col := d;
        case 1 => col := col + d * 0x100;
        case 2 => row := d;
        case 3 => row := row + d * 0x100;
        case _ => row := row + d * 0x1_0000;
      }
      addrOffset := addrOffset + 1;
    }

    method PutByte(value: u8)
      requires Valid() && Step(State(), Put(value)).Some?
      modifies this`writeOffset, writeBuffer
      ensures Valid() && State() == Step(old(State()), Put(value)).value.0
    {
      writeBuffer[col + writeOffset] := value;
      writeOffset := writeOffset + 1;
    }

    method GetByte() returns (value: u8)
      requires Valid() && Step(State(), Get).Some?
      modifies this`readOffset
      ensures Valid() && (State(), [value]) == Step(old(State()), Get).value
    {
      match reader {
        case OnId => value := ID[readOffset];
        case OnStatus => value := STATUS;
        case OnBlock(at) => value := flashMap[at / PAGES_PER_BLOCK][Base(at) + readOffset];
        case OnFake(at) => value := fakeBlock[Base(at) + readOffset];
      }
      readOffset := readOffset + 1;
    }

    // One access; a read of the data port returns the byte it delivers.
    method Take(a: Access) returns (output: seq<u8>)
      requires Valid() && Step(State(), a).Some?
      modifies this, flashMap, writeBuffer
      ensures Valid() && Grown() && Some((State(), output)) == Step(old(State()), a)
    {
      output := [];
      match a {
        case Command(data) => TakeCommand(data);
        case Address(data) => TakeAddress(data);
        case Put(value) => PutByte(value);
        case Get =>
          var value := GetByte();
          output := [value];
      }
    }

    // A run of accesses; `Run` is Some exactly when no assertion of the source
    // fails and no pointer leaves its object.
    method Perform(accesses: seq<Access>) returns (output: seq<u8>)
      requires Valid() && Run(State(), accesses).Some?
      modifies this, flashMap, writeBuffer
      ensures Valid() && Some((State(), output)) == Run(old(State()), accesses)
    {
      hide Step;
      output := [];
      assert accesses[0..] == accesses;
      for i := 0 to |accesses|
        invariant Valid() && Grown()
        invariant Run(State(), accesses[i..]).Some?
        invariant Run(State(), accesses[i..]).value.0 == Run(old(State()), accesses).value.0
        invariant output + Run(State(), accesses[i..]).value.1 == Run(old(State()), accesses).value.1
      {
        ghost var rest := accesses[i..];
        assert rest[1..] == accesses[i + 1..] && rest[0] == accesses[i];
        var bytes := Take(accesses[i]);
        output := output + bytes;
      }
      assert Run(State(), accesses[|accesses|..]) == Some((State(), []));
      assert output + [] == output;
    }
  }
}

// Whole operations of the NAND chip, as a driver issues them over the three
// ports, against a plain store of 8192 blocks that all exist from the start.
module NandOperations {
  import opened Words
  import opened Wrappers
  import opened Nand

  const PAGES: nat := 0x8_0000

  // Bytes that a program operation lays down from one column on.
  datatype Part = Part(col: nat, data: seq<u8>)

  // `again` is a random output: a second column of the page and a second count.
  datatype Operation = Erase(row: nat) | Program(row: nat, first: Part, more: seq<Part>)
                     | Read(row: nat, col: nat, count: nat, again: Option<(nat, nat)>)
                     | ReadStatus | ReadId(count: nat) | Reset | CopyBack(from: nat, to: nat)

  predicate Fits(p: Part) { p.col + |p.data| <= PAGE_SIZE }

  predicate Inside(row: nat, col: nat, count: nat) { col < 0x1_0000 && Base(row) + col + count <= BLOCK_SIZE }

  predicate Legal(op: Operation) {
    match op
    case Erase(row) => row < PAGES
    case Program(row, first, more) => row < PAGES && Fits(first) && forall p :: p in more ==> Fits(p)
    case Read(row, col, count, again) =>
      row < PAGES && Inside(row, col, count) && (again.Some? ==> Inside(row, again.value.0, again.value.1))
    case ReadId(count) => count <= |ID|
    case CopyBack(from, to) => from < PAGES && to < PAGES
    case _ => true
  }

  // ------------------------------------------------------------ port accesses

  function Puts(data: seq<u8>): seq<Access> { seq(|data|, i requires 0 <= i < |data| => Put(data[i])) }

  function Gets(n: nat): seq<Access> { seq(n, i => Get) }

  function Column(col: nat): seq<Access> { [Address(col), Address(col / 0x100)] }

  function Row(row: nat): seq<Access> { [Address(row), Address(row / 0x100), Address(row / 0x1_0000)] }

  function Inputs(parts: seq<Part>): seq<Access> {
    if parts == [] then []
    else [Command(0x85)] + (Column(parts[0].col) + (Puts(parts[0].data) + Inputs(parts[1..])))
  }

  function Again(again: Option<(nat, nat)>): seq<Access> {
    match again
    case None => []
    case Some((col, count)) => [Command(0x05)] + (Column(col) + ([Command(0xE0)] + Gets(count)))
  }

  function Encode(op: Operation): seq<Access> {
    match op
    case Erase(row) => [Command(0x60)] + (Row(row) + [Command(0xD0)])
    case Program(row, first, more) =>
      [Command(0x80)] + (Column(first.col) + (Row(row) + (Puts(first.data) + (Inputs(more) + [Command(0x10)]))))
    case Read(row, col, count, again) =>
      [Command(0x00)] + (Column(col) + (Row(row) + ([Command(0x30)] + (Gets(count) + Again(again)))))
    case ReadStatus => [Command(0x70), Get]
    case ReadId(count) => [Command(0x90)] + Gets(count)
    case Reset => [Command(0xFF)]
    case CopyBack(from, to) =>
      [Command(0x00)] + (Column(0) + (Row(from) + ([Command(0x35)] +
      ([Command(0x85)] + (Column(0) + (Row(to) + [Command(0x10)]))))))
  }

  function EncodeAll(ops: seq<Operation>): seq<Access> {
    if ops == [] then [] else Encode(ops[0]) + EncodeAll(ops[1..])
  }

  // ------------------------------------------------------------ the plain store

  type Store = s: seq<seq<u8>> | |s| == BLOCKS && (forall b :: 0 <= b < BLOCKS ==> |s[b]| == BLOCK_SIZE)
    witness seq(BLOCKS, b => Erased(BLOCK_SIZE))

  function Overlay(page: Page, p: Part): Page
    requires Fits(p)
  {
    page[..p.col] + p.data + page[p.col + |p.data|..]
  }

  function Overlaid(page: Page, parts: seq<Part>): Page
    requires forall p :: p in parts ==> Fits(p)
    decreases |parts|
  {
    if parts == [] then page else Overlaid(Overlay(page, parts[0]), parts[1..])
  }

  function Stretch(store: Store, row: nat, col: nat, count: nat): seq<u8>
    requires row < PAGES && Inside(row, col, count)
  {
    store[row / PAGES_PER_BLOCK][Base(row) + col..Base(row) + col + count]
  }

  function Effect(store: Store, op: Operation): Store
    requires Legal(op)
  {
    match op
    case Erase(row) => store[row / PAGES_PER_BLOCK := Erased(BLOCK_SIZE)]
    case Program(row, first, more) =>
      var buffer := Overlaid(Overlay(Erased(PAGE_SIZE), first), more);
      store[row / PAGES_PER_BLOCK := Programmed(store[row / PAGES_PER_BLOCK], row, buffer)]
    case _ => store
  }

  function Output(store: Store, op: Operation): seq<u8>
    requires Legal(op)
  {
    match op
    case Read(row, col, count, again) =>
      Stretch(store, row, col, count) +
      (if again.None? then [] else Stretch(store, row, again.value.0, again.value.1))
    case ReadStatus => [STATUS]
    case ReadId(count) => ID[..count]
    case _ => []
  }

  predicate AllLegal(ops: seq<Operation>) { forall op :: op in ops ==> Legal(op) }

  function Effects(store: Store, ops: seq<Operation>): Store
    requires AllLegal(ops)
    decreases |ops|
  {
    if ops == [] then store else Effects(Effect(store, ops[0]), ops[1..])
  }

  function Outputs(store: Store, ops: seq<Operation>): seq<u8>
    requires AllLegal(ops)
    decreases |ops|
  {
    if ops == [] then [] else Output(store, ops[0]) + Outputs(Effect(store, ops[0]), ops[1..])
  }

  // What the lazily created blocks hold, a missing one being blank.
  function Contents(f: Flash): Store {
    seq(BLOCKS, b requires 0 <= b < BLOCKS => BlockAt(f.blocks, b))
  }

  predicate Ready(f: Flash) { f.mode == Init && f.writeOffset == 0 }

  // ---------------------------------------------------------------- runs in parts

  function Prepend(out: seq<u8>, r: Option<(Flash, seq<u8>)>): (joined: Option<(Flash, seq<u8>)>)
    ensures out == [] ==> joined == r
  {
    if r.None? then None
    else
      assert [] + r.value.1 == r.value.1;
      Some((r.value.0, out + r.value.1))
  }

  lemma {:induction false} Chain(f: Flash, a: seq<Access>, b: seq<Access>)
    requires Run(f, a).Some?
    ensures Run(f, a + b) == Prepend(Run(f, a).value.1, Run(Run(f, a).value.0, b))
    decreases |a|
  {
    hide Step;
    if a == [] {
      assert a + b == b;
    } else {
      assert (a + b)[1..] == a[1..] + b;
      var s := Step(f, a[0]).value;
      Chain(s.0, a[1..], b);
      var r := Run(Run(f, a).value.0, b);
      if r.Some? {
        assert s.1 + (Run(s.0, a[1..]).value.1 + r.value.1) == Run(f, a).value.1 + r.value.1;
      }
    }
  }

  lemma RunOne(f: Flash, a: Access)
    ensures Run(f, [a]) == Step(f, a)
  {
    hide Step;
    var s := Step(f, a);
    assert [a][1..] == [];
    if s.Some? {
      assert Run(s.value.0, []) == Some((s.value.0, []));
      assert s.value.1 + [] == s.value.1;
    }
  }

  lemma RunThen(f: Flash, a: Access, b: seq<Access>)
    requires Step(f, a).Some?
    ensures Run(f, [a] + b) == Prepend(Step(f, a).value.1, Run(Step(f, a).value.0, b))
  {
    hide Step;
    RunOne(f, a);
    Chain(f, [a], b);
  }

  lemma RunColumn(f: Flash, col: nat)
    requires f.addrOffset == 0 && col < 0x1_0000
    ensures Run(f, Column(col)) == Some((f.(col := col, addrOffset := 2), []))
  {
    var g := f.(col := col % 0x100, addrOffset := 1);
    assert Step(f, Address(col)) == Some((g, []));
    assert Step(g, Address(col / 0x100)) == Some((f.(col := col, addrOffset := 2), []));
    RunThen(f, Address(col), [Address(col / 0x100)]);
    RunOne(g, Address(col / 0x100));
  }

  lemma RunRow(f: Flash, row: nat)
    requires f.addrOffset == 2 && row < PAGES
    ensures Run(f, Row(row)) == Some((f.(row := row, addrOffset := 5), []))
  {
    var g := f.(row := row % 0x100, addrOffset := 3);
    var h := f.(row := row % 0x1_0000, addrOffset := 4);
    assert row % 0x100 + row / 0x100 % 0x100 * 0x100 == row % 0x1_0000;
    assert Step(f, Address(row)) == Some((g, []));
    assert Step(g, Address(row / 0x100)) == Some((h, []));
    assert Step(h, Address(row / 0x1_0000)) == Some((f.(row := row, addrOffset := 5), []));
    RunThen(f, Address(row), [Address(row / 0x100), Address(row / 0x1_0000)]);
    RunThen(g, Address(row / 0x100), [Address(row / 0x1_0000)]);
    RunOne(h, Address(row / 0x1_0000));
    assert Row(row) == [Address(row)] + ([Address(row / 0x100)] + [Address(row / 0x1_0000)]);
  }

  // What a command does in each mode it belongs to.
  lemma Commands(f: Flash)
    ensures var g := f.(addrOffset := 0);
            && (f.mode == Init ==>
                  && Step(f, Command(0x00)) == Some((g.(mode := ReadStart), []))
                  && Step(f, Command(0x80)) == Some((g.(mode := WriteStart, buffer := Erased(PAGE_SIZE)), []))
                  && Step(f, Command(0x70)) == Some((g.(reader := OnStatus, readOffset := 0), []))
                  && Step(f, Command(0x90)) == Some((g.(reader := OnId, readOffset := 0), []))
                  && Step(f, Command(0xFF)) == Some((g, []))
                  && (f.issued ==>
                        Step(f, Command(0x05)) == Some((g.(mode := RandomReadStart, issued := false), []))))
            && (f.mode == ReadStart ==>
                  && Step(f, Command(0x30)) == Silently(Opened(g.(issued := true)))
                  && Step(f, Command(0x35)) == Some((g.(mode := CopyRead, buffer := Erased(PAGE_SIZE)), [])))
            && (f.mode == RandomReadStart ==> Step(f, Command(0xE0)) == Silently(Opened(g)))
            && (f.mode == CopyRead ==> Step(f, Command(0x85)) == Some((g.(mode := CopyStart, writeOffset := 0), [])))
            && (f.mode in {WriteStart, RandomWriteStart, CopyStart} ==>
                  && Step(f, Command(0x85)) == Some((g.(mode := RandomWriteStart, writeOffset := 0), []))
                  && Step(f, Command(0x10)) == Silently(ProgramPage(g)))
  {
  }

  function Silently(o: Option<Flash>): Option<(Flash, seq<u8>)> { if o.None? then None else Some((o.value, [])) }

  lemma GetMoves(f: Flash)
    requires f.readOffset < |Window(f)|
    ensures var g := f.(readOffset := f.readOffset + 1);
            Window(g) == Window(f) && Step(f, Get) == Some((g, [Window(f)[f.readOffset]]))
  {
  }

  lemma SameBlocks(f: Flash, g: Flash)
    requires f.blocks == g.blocks
    ensures Contents(f) == Contents(g)
  {
  }

  // All five address cycles.
  lemma RunAddress(f: Flash, col: nat, row: nat, rest: seq<Access>)
    requires f.addrOffset == 0 && col < 0x1_0000 && row < PAGES
    ensures Run(f, Column(col) + (Row(row) + rest)) == Run(f.(col := col, row := row, addrOffset := 5), rest)
  {
    hide Run, Step, Row, Column;
    var g := f.(col := col, addrOffset := 2);
    RunColumn(f, col);
    Chain(f, Column(col), Row(row) + rest);
    RunRow(g, row);
    Chain(g, Row(row), rest);
  }

  lemma {:induction false} RunPuts(f: Flash, data: seq<u8>)
    requires f.col + f.writeOffset + |data| <= PAGE_SIZE
    ensures Run(f, Puts(data)) ==
            Some((f.(buffer := Overlay(f.buffer, Part(f.col + f.writeOffset, data)),
                     writeOffset := f.writeOffset + |data|), []))
    decreases |data|
  {
    var at := f.col + f.writeOffset;
    if data == [] {
      assert Overlay(f.buffer, Part(at, data)) == f.buffer;
    } else {
      var g := f.(buffer := f.buffer[at := data[0]], writeOffset := f.writeOffset + 1);
      assert Step(f, Put(data[0])) == Some((g, []));
      assert Puts(data) == [Put(data[0])] + Puts(data[1..]);
      RunThen(f, Put(data[0]), Puts(data[1..]));
      RunPuts(g, data[1..]);
      assert Overlay(g.buffer, Part(at + 1, data[1..])) == Overlay(f.buffer, Part(at, data));
    }
  }

  lemma {:induction false} RunGets(f: Flash, n: nat)
    requires f.readOffset + n <= |Window(f)|
    ensures Run(f, Gets(n)) == Some((f.(readOffset := f.readOffset + n), Window(f)[f.readOffset..f.readOffset + n]))
    decreases n
  {
    hide Window, Step;
    if n == 0 {
      assert Window(f)[f.readOffset..f.readOffset] == [];
    } else {
      var g := f.(readOffset := f.readOffset + 1);
      GetMoves(f);
      assert Gets(n) == [Get] + Gets(n - 1);
      RunThen(f, Get, Gets(n - 1));
      RunGets(g, n - 1);
      var k := f.readOffset;
      assert [Window(f)[k]] + Window(f)[k + 1..k + n] == Window(f)[k..k + n];
    }
  }

  // ------------------------------------------------------------- each operation

  lemma EraseRuns(f: Flash, row: nat)
    requires Ready(f) && row < PAGES
    ensures Run(f, Encode(Erase(row))).Some?
    ensures Done(f, Erase(row))
  {
    var g := f.(addrOffset := 2, mode := EraseStart);
    var h := g.(row := row, addrOffset := 5);
    assert Step(f, Command(0x60)) == Some((g, []));
    RunThen(f, Command(0x60), Row(row) + [Command(0xD0)]);
    RunRow(g, row);
    Chain(g, Row(row), [Command(0xD0)]);
    RunOne(h, Command(0xD0));
    var after := EraseBlock(h.(addrOffset := 0)).value;
    assert Run(f, Encode(Erase(row))) == Some((after, []));
    assert Contents(after) == Effect(Contents(f), Erase(row));
  }

  // The operation ends ready for the next one, having changed the store and
  // delivered the bytes that the plain store promises.
  ghost predicate Done(f: Flash, op: Operation)
    requires Legal(op)
  {
    var r := Run(f, Encode(op));
    && r.Some?
    && Ready(r.value.0)
    && Contents(r.value.0) == Effect(Contents(f), op)
    && r.value.1 == Output(Contents(f), op)
  }

  predicate Writing(f: Flash) { f.mode == WriteStart || f.mode == RandomWriteStart }

  lemma {:induction false} RunInputs(f: Flash, parts: seq<Part>)
    requires Writing(f) && forall p :: p in parts ==> Fits(p) && p.col < 0x1_0000
    ensures Run(f, Inputs(parts)).Some?
    ensures var r := Run(f, Inputs(parts)).value;
            && r.1 == [] && Writing(r.0) && r.0.row == f.row && r.0.blocks == f.blocks
            && r.0.buffer == Overlaid(f.buffer, parts)
    decreases |parts|
  {
    hide Step, OnCommand, OnAddress, Overlay;
    if parts != [] {
      var p := parts[0];
      var rest := Inputs(parts[1..]);
      var g := f.(addrOffset := 0, mode := RandomWriteStart, writeOffset := 0);
      Commands(f);
      RunThen(f, Command(0x85), Column(p.col) + (Puts(p.data) + rest));
      RunColumn(g, p.col);
      Chain(g, Column(p.col), Puts(p.data) + rest);
      var h := g.(col := p.col, addrOffset := 2);
      RunPuts(h, p.data);
      Chain(h, Puts(p.data), rest);
      RunInputs(h.(buffer := Overlay(h.buffer, Part(h.col, p.data)), writeOffset := |p.data|), parts[1..]);
    }
  }

  lemma ProgramRuns(f: Flash, row: nat, first: Part, more: seq<Part>)
    requires Ready(f) && Legal(Program(row, first, more))
    ensures Done(f, Program(row, first, more))
  {
    hide Step, OnCommand, OnAddress, Overlay, Programmed;
    var confirm := [Command(0x10)];
    var g := f.(addrOffset := 0, mode := WriteStart, buffer := Erased(PAGE_SIZE));
    Commands(f);
    RunThen(f, Command(0x80), Column(first.col) + (Row(row) + (Puts(first.data) + (Inputs(more) + confirm))));
    RunAddress(g, first.col, row, Puts(first.data) + (Inputs(more) + confirm));
    var i := g.(col := first.col, row := row, addrOffset := 5);
    RunPuts(i, first.data);
    Chain(i, Puts(first.data), Inputs(more) + confirm);
    var j := i.(buffer := Overlay(i.buffer, Part(i.col, first.data)), writeOffset := |first.data|);
    RunInputs(j, more);
    Chain(j, Inputs(more), confirm);
    var k := Run(j, Inputs(more)).value.0;
    RunOne(k, Command(0x10));
    var after := ProgramPage(k.(addrOffset := 0)).value;
    Commands(k);
    assert Run(f, Encode(Program(row, first, more))) == Some((after, []));
    assert Contents(after) == Effect(Contents(f), Program(row, first, more));
  }

  // Both kinds of page pointer show the plain store.
  lemma OpenShowsPage(f: Flash)
    requires f.row < PAGES
    ensures Opened(f).Some? && Contents(Opened(f).value) == Contents(f)
    ensures Window(Opened(f).value) == Contents(f)[f.row / PAGES_PER_BLOCK][Base(f.row)..]
  {
  }

  // Which of the two a page gets is settled when it is opened.
  function ReaderAt(blocks: map<nat, Block>, row: nat): Reader {
    if row / PAGES_PER_BLOCK in blocks then OnBlock(row) else OnFake(row)
  }

  function ReadOnce(row: nat, col: nat, count: nat): seq<Access> {
    [Command(0x00)] + (Column(col) + (Row(row) + ([Command(0x30)] + Gets(count))))
  }

  lemma ReadOnceRuns(f: Flash, row: nat, col: nat, count: nat)
    requires Ready(f) && row < PAGES && Inside(row, col, count)
    ensures var r := Run(f, ReadOnce(row, col, count));
            && r.Some? && Ready(r.value.0) && r.value.0.blocks == f.blocks
            && r.value.0.row == row && r.value.0.issued
            && r.value.0.reader == ReaderAt(f.blocks, row) && r.value.0.readOffset == col + count
            && r.value.1 == Stretch(Contents(f), row, col, count)
  {
    hide Step, OnCommand, OnAddress, Window, Opened, Base, BlockAt, Contents, Stretch, ReaderAt;
    var g := f.(addrOffset := 0, mode := ReadStart);
    Commands(f);
    RunThen(f, Command(0x00), Column(col) + (Row(row) + ([Command(0x30)] + Gets(count))));
    RunAddress(g, col, row, [Command(0x30)] + Gets(count));
    var i := g.(col := col, row := row, addrOffset := 5);
    Commands(i);
    OpenAndGet(i, Command(0x30), i.(addrOffset := 0, issued := true), count);
    SameBlocks(i, f);
  }

  lemma ReadRuns(f: Flash, row: nat, col: nat, count: nat, again: Option<(nat, nat)>)
    requires Ready(f) && Legal(Read(row, col, count, again))
    ensures Done(f, Read(row, col, count, again))
    ensures again.Some? ==> !Run(f, Encode(Read(row, col, count, again))).value.0.issued
  {
    hide Step, Run, Column, Row, Gets, Window, Base, Contents, Stretch;
    var first := ReadOnce(row, col, count);
    ReadOnceRuns(f, row, col, count);
    var g := Run(f, first).value.0;
    SameBlocks(g, f);
    if again.Some? {
      AgainRuns(g, again.value.0, again.value.1);
      assert Encode(Read(row, col, count, again)) == first + Again(again);
      Chain(f, first, Again(again));
    } else {
      assert Encode(Read(row, col, count, again)) == first by { assert Gets(count) + [] == Gets(count); }
      assert Stretch(Contents(f), row, col, count) + [] == Stretch(Contents(f), row, col, count);
    }
  }

  // Open the page at the present row and column and read `count` bytes of it.
  lemma OpenAndGet(f: Flash, c: Access, g: Flash, count: nat)
    requires Step(f, c) == Silently(Opened(g))
    requires g.row < PAGES && Inside(g.row, g.col, count) && f.blocks == g.blocks
    ensures var r := Run(f, [c] + Gets(count));
            && r.Some? && Contents(r.value.0) == Contents(f) && r.value.0.mode == Init
            && r.value.0.writeOffset == g.writeOffset && r.value.0.row == g.row && r.value.0.issued == g.issued
            && r.value.1 == Stretch(Contents(f), g.row, g.col, count)
            && r.value.0.blocks == g.blocks && r.value.0.reader == ReaderAt(g.blocks, g.row)
            && r.value.0.readOffset == g.col + count
  {
    hide Step, Run, Window, Contents;
    OpenShowsPage(g);
    var h := Opened(g).value;
    var block := Contents(g)[g.row / PAGES_PER_BLOCK];
    assert block[Base(g.row)..] == block[Base(g.row)..BLOCK_SIZE];
    SliceOfSlice(block, Base(g.row), BLOCK_SIZE, g.col, g.col + count);
    SameBlocks(f, g);
    RunThen(f, c, Gets(count));
    RunGets(h, count);
    SameBlocks(h.(readOffset := h.readOffset + count), f);
  }

  lemma AgainRuns(f: Flash, col: nat, count: nat)
    requires Ready(f) && f.issued && f.row < PAGES && Inside(f.row, col, count)
    ensures var r := Run(f, Again(Some((col, count))));
            && r.Some? && Ready(r.value.0) && Contents(r.value.0) == Contents(f)
            && r.value.1 == Stretch(Contents(f), f.row, col, count) && !r.value.0.issued
  {
    hide Step, OnCommand, OnAddress, Window, Opened, Base;
    var g := f.(addrOffset := 0, mode := RandomReadStart, issued := false);
    Commands(f);
    RunThen(f, Command(0x05), Column(col) + ([Command(0xE0)] + Gets(count)));
    RunColumn(g, col);
    Chain(g, Column(col), [Command(0xE0)] + Gets(count));
    var h := g.(col := col, addrOffset := 2);
    Commands(h);
    OpenAndGet(h, Command(0xE0), h.(addrOffset := 0), count);
    assert Contents(h) == Contents(f);
  }

  lemma BlankProgram(block: Block, row: nat)
    ensures Programmed(block, row, Erased(PAGE_SIZE)) == block
  {
    var page := PageAt(block, row);
    assert Merged(page, Erased(PAGE_SIZE)) == page;
    assert WithPage(block, row, page) == block;
  }

  // The copy command clears the page buffer instead of loading the source page.
  lemma CopyBackRuns(f: Flash, from: nat, to: nat)
    requires Ready(f) && from < PAGES && to < PAGES
    ensures Done(f, CopyBack(from, to))
  {
    hide Step, OnCommand, OnAddress, Programmed;
    var confirm := [Command(0x10)];
    var write := [Command(0x85)] + (Column(0) + (Row(to) + confirm));
    var g := f.(addrOffset := 0, mode := ReadStart);
    Commands(f);
    RunThen(f, Command(0x00), Column(0) + (Row(from) + ([Command(0x35)] + write)));
    RunAddress(g, 0, from, [Command(0x35)] + write);
    var i := g.(col := 0, row := from, addrOffset := 5);
    var j := i.(addrOffset := 0, mode := CopyRead, buffer := Erased(PAGE_SIZE));
    Commands(i);
    RunThen(i, Command(0x35), write);
    CopyWriteRuns(j, to);
  }

  // That is what copying the page would do exactly when every byte of it is
  // blank or already in its place.
  lemma CopyBackExact(store: Store, from: nat, to: nat)
    requires from < PAGES && to < PAGES
    ensures var source := PageAt(store[from / PAGES_PER_BLOCK], from);
            var block := store[to / PAGES_PER_BLOCK];
            Effect(store, CopyBack(from, to)) == store[to / PAGES_PER_BLOCK := Programmed(block, to, source)] <==>
              forall k | 0 <= k < PAGE_SIZE :: source[k] == 0xFF || source[k] == PageAt(block, to)[k]
  {
    var source, block := PageAt(store[from / PAGES_PER_BLOCK], from), store[to / PAGES_PER_BLOCK];
    var target := PageAt(block, to);
    var merged := Merged(target, source);
    ProgrammedPage(block, to, merged);
    if WithPage(block, to, merged) == block {
      forall k | 0 <= k < PAGE_SIZE ensures source[k] == 0xFF || source[k] == target[k] {
        assert merged[k] == target[k];
      }
    }
    if forall k | 0 <= k < PAGE_SIZE :: source[k] == 0xFF || source[k] == target[k] {
      assert merged == target;
    }
    SameStore(store, to / PAGES_PER_BLOCK, WithPage(block, to, merged));
  }

  lemma ProgrammedPage(block: Block, row: nat, page: Page)
    ensures PageAt(WithPage(block, row, page), row) == page
    ensures WithPage(block, row, page) == block <==> page == PageAt(block, row)
  {
    assert WithPage(block, row, PageAt(block, row)) == block;
  }

  lemma SameStore(store: Store, b: nat, block: Block)
    requires b < BLOCKS
    ensures store[b := block] == store <==> block == store[b]
  {
    assert store[b := block][b] == block;
  }

  lemma CopyWriteRuns(f: Flash, to: nat)
    requires f.mode == CopyRead && f.addrOffset == 0 && f.buffer == Erased(PAGE_SIZE) && to < PAGES
    ensures var r := Run(f, [Command(0x85)] + (Column(0) + (Row(to) + [Command(0x10)])));
            r.Some? && r.value.1 == [] && Ready(r.value.0) && Contents(r.value.0) == Contents(f)
  {
    hide Step, OnCommand, OnAddress, Programmed;
    var confirm := [Command(0x10)];
    var g := f.(mode := CopyStart, writeOffset := 0);
    Commands(f);
    RunThen(f, Command(0x85), Column(0) + (Row(to) + confirm));
    RunAddress(g, 0, to, confirm);
    var i := g.(col := 0, row := to, addrOffset := 5);
    RunOne(i, Command(0x10));
    var after := ProgramPage(i.(addrOffset := 0)).value;
    Commands(i);
    BlankProgram(BlockAt(f.blocks, to / PAGES_PER_BLOCK), to);
    assert Contents(after) == Contents(f);
  }

  lemma SmallRuns(f: Flash, op: Operation)
    requires Ready(f) && Legal(op) && (op.ReadStatus? || op.ReadId? || op.Reset?)
    ensures Done(f, op)
  {
    hide Step, Contents;
    var idle := f.(addrOffset := 0);
    var g := if op.Reset? then idle else idle.(reader := if op.ReadStatus? then OnStatus else OnId, readOffset := 0);
    var count := if op.ReadStatus? then 1 else if op.ReadId? then op.count else 0;
    var c := Encode(op)[0];
    Commands(f);
    assert Encode(op) == [c] + Gets(count);
    RunThen(f, c, Gets(count));
    if op.Reset? {
      assert Gets(0) == [];
    } else {
      RunGets(g, count);
    }
    SameBlocks(g, f);
    SameBlocks(g.(readOffset := g.readOffset + count), f);
  }

  // ---------------------------------------------------------------- the theorems

  lemma OperationRuns(f: Flash, op: Operation)
    requires Ready(f) && Legal(op)
    ensures Done(f, op)
  {
    hide Run, Step, Contents;
    match op
    case Erase(row) => EraseRuns(f, row);
    case Program(row, first, more) => ProgramRuns(f, row, first, more);
    case Read(row, col, count, again) => ReadRuns(f, row, col, count, again);
    case CopyBack(from, to) => CopyBackRuns(f, from, to);
    case _ => SmallRuns(f, op);
  }

  // Over every sequence of legal operations the controller, which creates its
  // blocks on first use, is the plain store: it never stops on an assertion,
  // delivers the store's bytes and leaves the store's contents.
  lemma {:induction false} ControllerIsPlainStore(f: Flash, ops: seq<Operation>)
    requires Ready(f) && AllLegal(ops)
    ensures Run(f, EncodeAll(ops)).Some?
    ensures var r := Run(f, EncodeAll(ops)).value;
            Ready(r.0) && Contents(r.0) == Effects(Contents(f), ops) && r.1 == Outputs(Contents(f), ops)
    decreases |ops|
  {
    hide Step, Contents, Encode, Effect, Output;
    if ops != [] {
      OperationRuns(f, ops[0]);
      Chain(f, Encode(ops[0]), EncodeAll(ops[1..]));
      ControllerIsPlainStore(Run(f, Encode(ops[0])).value.0, ops[1..]);
    } else {
      assert EncodeAll(ops) == [];
    }
  }

  method Drive(chip: NandFlash, ops: seq<Operation>) returns (output: seq<u8>)
    requires chip.Valid() && Ready(chip.State()) && AllLegal(ops)
    modifies chip, chip.flashMap, chip.writeBuffer
    ensures chip.Valid() && Ready(chip.State())
    ensures Contents(chip.State()) == Effects(Contents(old(chip.State())), ops)
    ensures output == Outputs(Contents(old(chip.State())), ops)
  {
    hide Run, Step, Contents, Effects, Outputs;
    ControllerIsPlainStore(chip.State(), ops);
    output := chip.Perform(EncodeAll(ops));
  }

  predicate Touches(op: Operation, row: nat) {
    match op
    case Erase(r) => r / PAGES_PER_BLOCK == row / PAGES_PER_BLOCK
    case Program(r, _, _) => r == row
    case _ => false
  }

  lemma {:induction false} PageKept(store: Store, ops: seq<Operation>, row: nat)
    requires AllLegal(ops) && row < PAGES && forall op :: op in ops ==> !Touches(op, row)
    ensures PageAt(Effects(store, ops)[row / PAGES_PER_BLOCK], row) == PageAt(store[row / PAGES_PER_BLOCK], row)
    decreases |ops|
  {
    if ops != [] {
      hide Effect, PageAt, Touches;
      PageKept(Effect(store, ops[0]), ops[1..], row);
      EffectKeepsPage(store, ops[0], row);
    }
  }

  lemma EffectKeepsPage(store: Store, op: Operation, row: nat)
    requires Legal(op) && row < PAGES && !Touches(op, row)
    ensures PageAt(Effect(store, op)[row / PAGES_PER_BLOCK], row) == PageAt(store[row / PAGES_PER_BLOCK], row)
  {
    if op.Program? && op.row / PAGES_PER_BLOCK == row / PAGES_PER_BLOCK {
      assert op.row % PAGES_PER_BLOCK != row % PAGES_PER_BLOCK;
      var block := store[row / PAGES_PER_BLOCK];
      var buffer := Overlaid(Overlay(Erased(PAGE_SIZE), op.first), op.more);
      ProgramElsewhere(block, op.row, row, Merged(PageAt(block, op.row), buffer));
    }
  }

  lemma ProgramElsewhere(block: Block, row: nat, other: nat, page: Page)
    requires row % PAGES_PER_BLOCK != other % PAGES_PER_BLOCK
    ensures PageAt(WithPage(block, row, page), other) == PageAt(block, other)
  {
    var after := WithPage(block, row, page);
    assert Base(other) + PAGE_SIZE <= Base(row) || Base(row) + PAGE_SIZE <= Base(other);
    forall k | Base(other) <= k < Base(other) + PAGE_SIZE ensures after[k] == block[k] {}
  }

  lemma {:induction false} InTwoParts(store: Store, a: seq<Operation>, b: seq<Operation>)
    requires AllLegal(a + b)
    ensures AllLegal(a) && AllLegal(b)
    ensures Effects(store, a + b) == Effects(Effects(store, a), b)
    ensures Outputs(store, a + b) == Outputs(store, a) + Outputs(Effects(store, a), b)
    decreases |a|
  {
    hide Effect, Output;
    assert forall op :: op in a ==> op in a + b;
    assert forall op :: op in b ==> op in a + b;
    if a == [] {
      assert a + b == b;
    } else {
      assert (a + b)[1..] == a[1..] + b;
      InTwoParts(Effect(store, a[0]), a[1..], b);
    }
  }

  lemma EffectsOne(store: Store, op: Operation)
    requires Legal(op)
    ensures AllLegal([op]) && Effects(store, [op]) == Effect(store, op)
  {
    hide Effect;
    assert [op][1..] == [];
  }

  // An erase blanks every page of its block.
  lemma EraseBlanks(store: Store, row: nat, other: nat, col: nat, count: nat)
    requires row < PAGES && other < PAGES && other / 64 == row / 64 && Inside(other, col, count)
    ensures Output(Effects(store, [Erase(row)]), Read(other, col, count, None)) == seq(count, _ => 0xFF)
  {
    EffectsOne(store, Erase(row));
    var stretch := Stretch(Effect(store, Erase(row)), other, col, count);
    assert stretch == seq(count, _ => 0xFF);
    assert stretch + [] == stretch;
  }

  // What the chip says of itself, and that it is always ready.
  lemma Identification(f: Flash)
    requires Ready(f)
    ensures Run(f, Encode(ReadId(5))).Some? && Run(f, Encode(ReadId(5))).value.1 == [0xEC, 0xD3, 0x51, 0x95, 0x58]
    ensures Run(f, Encode(ReadStatus)).Some? && Run(f, Encode(ReadStatus)).value.1 == [0xC0]
  {
    hide Run, Encode;
    SmallRuns(f, ReadId(5));
    SmallRuns(f, ReadStatus);
    assert ID[..5] == ID;
  }

  // A read that is given up before it is confirmed leaves no trace.
  lemma AbortedRead(f: Flash, row: nat, col: nat)
    requires Ready(f) && row < PAGES && col < 0x1_0000
    ensures var r := Run(f, [Command(0x00)] + (Column(col) + (Row(row) + [Command(0xFF)])));
            && r.Some? && Ready(r.value.0) && r.value.1 == [] && r.value.0.blocks == f.blocks
            && r.value.0.reader == f.reader && r.value.0.readOffset == f.readOffset
  {
    hide Run, Column, Row;
    var g := f.(addrOffset := 0, mode := ReadStart);
    assert Step(f, Command(0x00)) == Some((g, []));
    RunThen(f, Command(0x00), Column(col) + (Row(row) + [Command(0xFF)]));
    RunAddress(g, col, row, [Command(0xFF)]);
    RunOne(g.(col := col, row := row, addrOffset := 5), Command(0xFF));
  }

  // Programmed bytes stay readable until the block is erased or the page is
  // programmed again, whatever else happens in between.
  lemma EraseProgramRead(store: Store, row: nat, first: Part, more: seq<Part>, between: seq<Operation>, col: nat,
                         count: nat)
    requires row < PAGES && Legal(Program(row, first, more)) && AllLegal(between) && col + count <= PAGE_SIZE
    requires forall op :: op in between ==> !Touches(op, row)
    ensures var ops := [Erase(row), Program(row, first, more)] + between;
            AllLegal(ops) &&
            Output(Effects(store, ops), Read(row, col, count, None)) ==
            Overlaid(Overlay(Erased(PAGE_SIZE), first), more)[col..col + count]
  {
    hide Effect, PageAt, Touches;
    var start := [Erase(row), Program(row, first, more)];
    var mid := Effect(Effect(store, start[0]), start[1]);
    InTwoParts(store, start, between);
    assert Effects(store, start) == mid by {
      InTwoParts(store, [start[0]], [start[1]]);
      assert [start[0]] + [start[1]] == start;
      EffectsOne(store, start[0]);
      EffectsOne(Effect(store, start[0]), start[1]);
    }
    FreshPage(store, row, first, more);
    PageKept(mid, between, row);
    StretchOfPage(Effects(mid, between), row, col, count);
  }

  lemma FreshPage(store: Store, row: nat, first: Part, more: seq<Part>)
    requires Legal(Program(row, first, more))
    ensures PageAt(Effect(Effect(store, Erase(row)), Program(row, first, more))[row / PAGES_PER_BLOCK], row) ==
            Overlaid(Overlay(Erased(PAGE_SIZE), first), more)
  {
    var page := Overlaid(Overlay(Erased(PAGE_SIZE), first), more);
    assert Merged(PageAt(Erased(BLOCK_SIZE), row), page) == page;
    assert PageAt(WithPage(Erased(BLOCK_SIZE), row, page), row) == page;
  }

  lemma StretchOfPage(store: Store, row: nat, col: nat, count: nat)
    requires row < PAGES && col + count <= PAGE_SIZE
    ensures Inside(row, col, count)
    ensures Stretch(store, row, col, count) == PageAt(store[row / PAGES_PER_BLOCK], row)[col..col + count]
  {
    SliceOfSlice(store[row / PAGES_PER_BLOCK], Base(row), Base(row) + PAGE_SIZE, col, col + count);
  }

  lemma SliceOfSlice(s: seq<u8>, a: nat, b: nat, c: nat, d: nat)
    requires a <= b <= |s| && c <= d <= b - a
    ensures s[a..b][c..d] == s[a + c..a + d]
  {
    var whole := s[a..b];
    var part := whole[c..d];
    assert forall k :: 0 <= k < d - c ==> part[k] == s[a + c..a + d][k];
  }

  // ------------------------------------------------------ where the code falls short

  // Accesses that leave the read pointer where it is.
  predicate Leaves(a: Access) {
    match a
    case Command(c) => c % 0x100 !in {0x30, 0xE0, 0x70, 0x90}
    case Get => false
    case _ => true
  }

  predicate LeavesAll(accesses: seq<Access>) { forall a :: a in accesses ==> Leaves(a) }

  lemma {:induction false} RunLeaves(f: Flash, accesses: seq<Access>)
    requires LeavesAll(accesses) && Run(f, accesses).Some?
    ensures var g := Run(f, accesses).value.0; g.reader == f.reader && g.readOffset == f.readOffset
    decreases |accesses|
  {
    if accesses != [] {
      assert Leaves(accesses[0]);
      RunLeaves(Step(f, accesses[0]).value.0, accesses[1..]);
    }
  }

  // Operations that deliver no bytes.
  predicate Mute(op: Operation) { op.Erase? || op.Program? || op.CopyBack? || op.Reset? }

  predicate AllMute(ops: seq<Operation>) { forall op :: op in ops ==> Mute(op) }

  lemma {:induction false} InputsLeave(parts: seq<Part>)
    ensures LeavesAll(Inputs(parts))
  {
    if parts != [] { InputsLeave(parts[1..]); }
  }

  lemma BothLeave(a: seq<Access>, b: seq<Access>)
    requires LeavesAll(a) && LeavesAll(b)
    ensures LeavesAll(a + b)
  {}

  // An address, and what follows it.
  lemma AddressLeaves(col: nat, row: nat, rest: seq<Access>)
    requires LeavesAll(rest)
    ensures LeavesAll(Row(row) + rest) && LeavesAll(Column(col) + (Row(row) + rest))
  {
    BothLeave(Row(row), rest);
    BothLeave(Column(col), Row(row) + rest);
  }

  lemma MuteOperationLeaves(op: Operation)
    requires Mute(op)
    ensures LeavesAll(Encode(op))
  {
    hide Inputs, Column, Row, Puts;
    var confirm := [Command(0x10)];
    match op
    case Erase(row) => AddressLeaves(0, row, [Command(0xD0)]);
    case CopyBack(from, to) =>
      AddressLeaves(0, to, confirm);
      var rest := [Command(0x85)] + (Column(0) + (Row(to) + confirm));
      BothLeave([Command(0x35)], rest);
      AddressLeaves(0, from, [Command(0x35)] + rest);
    case Program(row, first, more) =>
      InputsLeave(more);
      PutsLeave(first.data);
      BothLeave(Inputs(more), confirm);
      BothLeave(Puts(first.data), Inputs(more) + confirm);
      AddressLeaves(first.col, row, Puts(first.data) + (Inputs(more) + confirm));
    case Reset =>
  }

  lemma PutsLeave(data: seq<u8>)
    ensures LeavesAll(Puts(data))
  {}

  lemma {:induction false} MuteOperationsLeave(ops: seq<Operation>)
    requires AllMute(ops)
    ensures LeavesAll(EncodeAll(ops))
  {
    hide Encode, Leaves, Mute;
    if ops != [] {
      MuteOperationLeaves(ops[0]);
      MuteOperationsLeave(ops[1..]);
    }
  }

  lemma OpenedWindow(f: Flash, blocks: map<nat, Block>, row: nat, col: nat, n: nat)
    requires f.reader == ReaderAt(blocks, row) && row < PAGES && Base(row) + col + n <= BLOCK_SIZE
    ensures |Window(f)| == BLOCK_SIZE - Base(row)
    ensures var now := Contents(f)[row / PAGES_PER_BLOCK][Base(row) + col..Base(row) + col + n];
            Window(f)[col..col + n] == now <==> row / PAGES_PER_BLOCK in blocks || now == Erased(n)
  {
    var block := if row / PAGES_PER_BLOCK in blocks then Contents(f)[row / PAGES_PER_BLOCK] else Erased(BLOCK_SIZE);
    assert Window(f) == block[Base(row)..BLOCK_SIZE];
    SliceOfSlice(block, Base(row), BLOCK_SIZE, col, col + n);
    assert Erased(BLOCK_SIZE)[Base(row) + col..Base(row) + col + n] == Erased(n);
  }

  // A driver that opens a page, erases and programs at will and reads on: every
  // byte shows the store as it now is, except that a page opened before its
  // block existed goes on showing blanks, which is right exactly if the bytes
  // are still blank.
  lemma StaleWindow(f: Flash, row: nat, col: nat, count: nat, ops: seq<Operation>, n: nat)
    requires Ready(f) && row < PAGES && Inside(row, col, count + n)
    requires AllLegal(ops) && AllMute(ops)
    ensures var start := Run(f, ReadOnce(row, col, count));
            && start.Some?
            && var mid := Run(start.value.0, EncodeAll(ops));
            && mid.Some? && Contents(mid.value.0) == Effects(Contents(f), ops)
            && var last := Run(mid.value.0, Gets(n));
            && last.Some?
            && var at := Base(row) + col + count;
               var now := Effects(Contents(f), ops)[row / PAGES_PER_BLOCK][at..at + n];
               (last.value.1 == now <==> row / PAGES_PER_BLOCK in f.blocks || now == Erased(n))
  {
    hide Step, Run, Encode, EncodeAll, Effects, Outputs, Window, Contents, ReaderAt, Base, Erased;
    ReadOnceRuns(f, row, col, count);
    var g := Run(f, ReadOnce(row, col, count)).value.0;
    SameBlocks(g, f);
    ControllerIsPlainStore(g, ops);
    MuteOperationsLeave(ops);
    RunLeaves(g, EncodeAll(ops));
    var h := Run(g, EncodeAll(ops)).value.0;
    OpenedWindow(h, f.blocks, row, col + count, n);
    RunGets(h, n);
  }

  // The bitwise AND of the low `n` bits, and when `y` has a one only where `x` has.
  function AndBits(x: nat, y: nat, n: nat): nat
    decreases n
  {
    if n == 0 then 0 else 2 * AndBits(x / 2, y / 2, n - 1) + (if x % 2 == 1 && y % 2 == 1 then 1 else 0)
  }

  predicate OnlyClears(x: nat, y: nat, n: nat)
    decreases n
  {
    n == 0 || ((y % 2 == 1 ==> x % 2 == 1) && OnlyClears(x / 2, y / 2, n - 1))
  }

  function Pow2(n: nat): nat { if n == 0 then 1 else 2 * Pow2(n - 1) }

  lemma {:induction false} AndKeeps(x: nat, y: nat, n: nat)
    requires y < Pow2(n)
    ensures AndBits(x, y, n) == y <==> OnlyClears(x, y, n)
    ensures AndBits(x, y, n) <= y
    decreases n
  {
    if n > 0 { AndKeeps(x / 2, y / 2, n - 1); }
  }

  lemma {:induction false} AndOnes(x: nat, n: nat)
    requires x < Pow2(n)
    ensures AndBits(x, Pow2(n) - 1, n) == x
    decreases n
  {
    if n > 0 {
      assert (Pow2(n) - 1) / 2 == Pow2(n - 1) - 1;
      AndOnes(x / 2, n - 1);
    }
  }

  lemma ByteWide()
    ensures Pow2(8) == 0x100
  {
    assert Pow2(4) == 16;
  }

  // What the cells of a chip would hold, which programming can only clear.
  function Cleared(page: Page, buffer: Page): seq<nat> {
    seq(PAGE_SIZE, k requires 0 <= k < PAGE_SIZE => AndBits(page[k], buffer[k], 8))
  }

  lemma ProgrammedByte(x: u8, y: u8)
    ensures var m := if y == 0xFF then x else y;
            && (m == AndBits(x, y, 8) <==> (y != 0xFF ==> OnlyClears(x, y, 8)))
            && (x == 0xFF ==> m == AndBits(x, y, 8) == y)
  {
    hide AndBits, OnlyClears;
    ByteWide();
    AndKeeps(x, y, 8);
    AndOnes(x, 8);
    AndOnes(y, 8);
    AndCommutes(x, y, 8);
  }

  // Programming gives what a chip gives exactly when no byte written, 0xFF
  // apart, has a one where the page has a zero; so it does on an erased page.
  lemma ProgrammingOnlyClears(page: Page, buffer: Page)
    ensures Merged(page, buffer) == Cleared(page, buffer) <==>
            forall k | 0 <= k < PAGE_SIZE :: buffer[k] != 0xFF ==> OnlyClears(page[k], buffer[k], 8)
    ensures page == Erased(PAGE_SIZE) ==> Merged(page, buffer) == Cleared(page, buffer) == buffer
  {
    hide AndBits, OnlyClears;
    forall k | 0 <= k < PAGE_SIZE
      ensures Merged(page, buffer)[k] == Cleared(page, buffer)[k] <==>
              (buffer[k] != 0xFF ==> OnlyClears(page[k], buffer[k], 8))
      ensures page[k] == 0xFF ==> Merged(page, buffer)[k] == Cleared(page, buffer)[k] == buffer[k]
    {
      ProgrammedByte(page[k], buffer[k]);
    }
  }

  lemma {:induction false} AndCommutes(x: nat, y: nat, n: nat)
    ensures AndBits(x, y, n) == AndBits(y, x, n)
    decreases n
  {
    if n > 0 { AndCommutes(x / 2, y / 2, n - 1); }
  }

  // One page read allows one random output; a second one stops the emulator.
  lemma SecondRandomOutputStops(f: Flash, row: nat, col: nat, count: nat, again: (nat, nat))
    requires Ready(f) && Legal(Read(row, col, count, Some(again)))
    ensures Run(f, Encode(Read(row, col, count, Some(again))) + [Command(0x05)]) == None
  {
    hide Contents, Output, Effect, Encode, Legal, Run;
    var read := Encode(Read(row, col, count, Some(again)));
    ReadRuns(f, row, col, count, Some(again));
    Chain(f, read, [Command(0x05)]);
    RunOne(Run(f, read).value.0, Command(0x05));
  }

  // After a status command the status byte can be read once, and no more before
  // the next one.
  lemma PollingTwiceLeavesTheStatusByte(f: Flash, n: nat)
    requires Ready(f)
    ensures Run(f, [Command(0x70)] + Gets(n)).Some? <==> n <= 1
    ensures Run(f, Encode(ReadStatus) + Encode(ReadStatus)).Some?
  {
    hide OnCommand, Contents;
    var g := f.(addrOffset := 0, reader := OnStatus, readOffset := 0);
    Commands(f);
    RunThen(f, Command(0x70), Gets(n));
    if n <= 1 {
      RunGets(g, n);
    } else {
      RunGets(g, 1);
      BeyondTheEnd(g.(readOffset := 1), n - 1);
      assert Gets(n) == Gets(1) + Gets(n - 1);
      Chain(g, Gets(1), Gets(n - 1));
    }
    assert Encode(ReadStatus) == [Command(0x70)] + Gets(1);
    RunThen(f, Command(0x70), Gets(1));
    RunGets(g, 1);
    var h := g.(readOffset := 1);
    Chain(f, Encode(ReadStatus), Encode(ReadStatus));
    SmallRuns(h, ReadStatus);
  }

  lemma BeyondTheEnd(f: Flash, n: nat)
    requires f.readOffset >= |Window(f)| && n > 0
    ensures Run(f, Gets(n)) == None
  {
    assert Gets(n)[0] == Get;
    assert Step(f, Get) == None;
  }
}

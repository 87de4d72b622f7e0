// The virtual terminal: a state machine that takes Telnet commands and escape
// sequences out of the input, and a ring buffer that hands the rest to the guest.
module Vtty {
  import opened Words
  import opened Wrappers

  const BUFFER_SIZE: nat := 4096
  const CAPACITY: nat := 4095

  const SE: u8 := 240
  const SB: u8 := 250
  const WILL: u8 := 251
  const WONT: u8 := 252
  const DO: u8 := 253
  const DONT: u8 := 254
  const IAC: u8 := 255
  const TTYPE: u8 := 24
  const TTYPE_IS: u8 := 0
  const TTYPE_SEND: u8 := 1
  const ESC: u8 := 0x1B

  // ---------------------------------------------------------------- the decoder

  datatype Mode = Text | Vt1 | Vt2 | Remote | Telnet | TelnetIYou | TelnetSb1 | TelnetSb2 | TelnetSbTtype | TelnetNext

  datatype Decoder = Decoder(mode: Mode, cmd: u8, opt: u8)

  // What one input byte stores for the guest and sends back to the client.
  datatype Effect = Effect(next: Decoder, stored: seq<u8>, sent: seq<u8>)

  const ASK_TTYPE: seq<u8> := [IAC, SB, TTYPE, TTYPE_SEND, IAC, SE]

  function Next(d: Decoder, c: u8): Effect {
    var text := d.(mode := Text);
    match d.mode
    case Text =>
      if c == ESC then Effect(d.(mode := Vt1), [], [])
      else if c == 0x1D || c == 0xB3 then Effect(d.(mode := Remote), [], [])
      else if c == IAC then Effect(d.(mode := Telnet), [], [])
      else if c == 0 || c == 10 then Effect(d, [], [])
      else Effect(d, [c], [])
    case Vt1 => if c == 0x5B then Effect(d.(mode := Vt2), [], []) else Effect(text, [ESC, c], [])
    case Vt2 =>
      Effect(text,
             match c
             case 0x41 => [16]
             case 0x42 => [14]
             case 0x43 => [6]
             case 0x44 => [2]
             case _ => [0x5B, ESC, c],
             [])
    case Remote => Effect(text, [], [])
    case Telnet =>
      var e := d.(cmd := c);
      if c == WILL || c == WONT || c == DO || c == DONT then Effect(e.(mode := TelnetIYou), [], [])
      else if c == SB then Effect(e.(mode := TelnetSb1), [], [])
      else Effect(e.(mode := Text), if c == IAC then [IAC] else [], [])
    case TelnetIYou =>
      Effect(text.(opt := c), [], if d.cmd == WILL && c == TTYPE then ASK_TTYPE else [])
    case TelnetSb1 => Effect(d.(mode := TelnetSb2, opt := c), [], [])
    case TelnetSb2 =>
      Effect(d.(mode := if d.opt == TTYPE && c == TTYPE_IS then TelnetSbTtype else TelnetNext), [], [])
    case TelnetSbTtype => Effect(d.(mode := TelnetNext), [], [])
    case TelnetNext => Effect(if c == IAC then d.(mode := Telnet) else d, [], [])
  }

  function Decode(d: Decoder, input: seq<u8>): Effect
    decreases |input|
  {
    if input == [] then Effect(d, [], [])
    else
      var e := Next(d, input[0]);
      var rest := Decode(e.next, input[1..]);
      Effect(rest.next, e.stored + rest.stored, e.sent + rest.sent)
  }

  // -------------------------------------------------------------- the ring buffer

  // The characters waiting for the guest; a full buffer drops what arrives.
  function Push(queue: seq<u8>, c: u8): seq<u8> { if |queue| < CAPACITY then queue + [c] else queue }

  function PushAll(queue: seq<u8>, cs: seq<u8>): seq<u8>
    decreases |cs|
  {
    if cs == [] then queue else PushAll(Push(queue, cs[0]), cs[1..])
  }

  lemma PushOne(q: seq<u8>, c: u8)
    ensures PushAll(q, [c]) == Push(q, c)
  {
    assert [c][1..] == [];
  }

  lemma PushThree(q: seq<u8>, a: u8, b: u8, c: u8)
    ensures PushAll(q, [a, b]) == Push(Push(q, a), b)
    ensures PushAll(q, [a, b, c]) == Push(Push(Push(q, a), b), c)
  {
    assert [a, b, c][1..] == [b, c] && [b, c][1..] == [c] && [a, b][1..] == [b];
    assert PushAll(q, [a, b, c]) == PushAll(Push(q, a), [b, c]);
    assert PushAll(Push(q, a), [b, c]) == PushAll(Push(Push(q, a), b), [c]);
    PushOne(Push(Push(q, a), b), c);
    assert PushAll(q, [a, b]) == PushAll(Push(q, a), [b]);
    PushOne(Push(q, a), b);
  }

  class Terminal {
    const buffer: array<u8>
    const terminalSupport: bool
    var readPtr: nat
    var writePtr: nat
    var mode: Mode
    var cmd: u8
    var opt: u8
    var output: seq<u8>

    ghost predicate Valid()
      reads this
    {
      buffer.Length == BUFFER_SIZE && readPtr < BUFFER_SIZE && writePtr < BUFFER_SIZE
    }

    ghost function Queue(): (q: seq<u8>)
      requires Valid()
      reads this, buffer
      ensures |q| <= CAPACITY
    {
      if readPtr <= writePtr then buffer[readPtr..writePtr] else buffer[readPtr..] + buffer[..writePtr]
    }

    function State(): Decoder
      reads this
    {
      Decoder(mode, cmd, opt)
    }

    constructor (terminalSupport: bool, mode: Mode)
      ensures Valid() && Queue() == [] && output == [] && State() == Decoder(mode, 0, 0)
      ensures this.terminalSupport == terminalSupport && fresh(buffer)
    {
      buffer := new u8[BUFFER_SIZE](_ => 0);
      this.terminalSupport := terminalSupport;
      readPtr, writePtr, this.mode, cmd, opt, output := 0, 0, mode, 0, 0, [];
    }

    method Store(c: u8) returns (ok: bool)
      requires Valid()
      modifies this`writePtr, buffer
      ensures Valid() && Queue() == Push(old(Queue()), c) && (ok <==> |old(Queue())| < CAPACITY)
    {
      var next := writePtr + 1;
      if next == BUFFER_SIZE {
        next := 0;
      }
      if next == readPtr {
        return false;
      }
      buffer[writePtr] := c;
      writePtr := next;
      ok := true;
    }

    method GetChar() returns (c: int)
      requires Valid()
      modifies this`readPtr
      ensures Valid() && (old(Queue()) == [] ==> c == -1 && Queue() == [])
      ensures old(Queue()) != [] ==> c == old(Queue()[0]) && Queue() == old(Queue())[1..]
    {
      if readPtr == writePtr {
        return -1;
      }
      c := buffer[readPtr];
      readPtr := readPtr + 1;
      if readPtr == BUFFER_SIZE {
        readPtr := 0;
      }
    }

    // Right except for the empty buffer, which counts as 4096 bytes.
    method Bytes() returns (n: int)
      requires Valid()
      ensures n == if Queue() == [] then BUFFER_SIZE else |Queue()|
    {
      if readPtr < writePtr {
        n := writePtr - readPtr;
      } else if readPtr == writePtr {
        n := BUFFER_SIZE;
      } else {
        n := BUFFER_SIZE - (readPtr - writePtr);
      }
    }

    // True exactly when the buffer is empty.
    method IsFull() returns (r: bool)
      requires Valid()
      ensures r <==> Queue() == []
    {
      r := readPtr == writePtr;
    }

    // One byte from the client; a negative one is a read error.
    method ReadAndStore(c: int)
      requires Valid() && c < 0x100
      modifies this, buffer
      ensures Valid() && (State(), Queue(), output) ==
                         if c < 0 then old((State(), Queue(), output))
                         else Received(terminalSupport, old(State()), old(Queue()), old(output), c)
    {
      if c < 0 {
        return;
      }
      assert output + [] == output;
      var ok;
      if !terminalSupport {
        ok := Store(c);
        return;
      }
      match mode {
        case Text =>
          if c == ESC {
            mode := Vt1;
          } else if c == 0x1D || c == 0xB3 {
            mode := Remote;
          } else if c == IAC {
            mode := Telnet;
          } else if c != 0 && c != 10 {
            PushOne(Queue(), c);
            ok := Store(c);
          }
        case Vt1 =>
          if c == 0x5B {
            mode := Vt2;
          } else {
            PushThree(Queue(), ESC, c, c);
            ok := Store(ESC);
            ok := Store(c);
            mode := Text;
          }
        case Vt2 =>
          StoreArrow(c);
          mode := Text;
        case Remote =>
          mode := Text;
        case Telnet =>
          TakeCommand(c);
        case TelnetIYou =>
          opt := c;
          if cmd == WILL && opt == TTYPE {
            output := output + ASK_TTYPE;
          }
          mode := Text;
        case TelnetSb1 =>
          opt := c;
          mode := TelnetSb2;
        case TelnetSb2 =>
          mode := if opt == TTYPE && c == TTYPE_IS then TelnetSbTtype else TelnetNext;
        case TelnetSbTtype =>
          mode := TelnetNext;
        case TelnetNext =>
          if c == IAC {
            mode := Telnet;
          }
      }
    }

    method TakeCommand(c: u8)
      requires Valid() && mode == Telnet
      modifies this, buffer
      ensures Valid() && output == old(output) && State() == Next(old(State()), c).next
      ensures Queue() == PushAll(old(Queue()), Next(old(State()), c).stored)
    {
      cmd := c;
      if c == WILL || c == WONT || c == DO || c == DONT {
        mode := TelnetIYou;
      } else if c == SB {
        mode := TelnetSb1;
      } else {
        if c == IAC {
          PushOne(Queue(), IAC);
          var ok := Store(IAC);
        }
        mode := Text;
      }
    }

    method StoreArrow(c: u8)
      requires Valid() && mode == Vt2
      modifies this`writePtr, buffer
      ensures Valid() && Queue() == PushAll(old(Queue()), Next(State(), c).stored)
    {
      var ok;
      match c {
        case 0x41 => ok := Store(16);
        case 0x42 => ok := Store(14);
        case 0x43 => ok := Store(6);
        case 0x44 => ok := Store(2);
        case _ =>
          PushThree(Queue(), 0x5B, ESC, c);
          ok := Store(0x5B);
          ok := Store(ESC);
          ok := Store(c);
      }
    }

    method Handle(e: Event, delivered: seq<u8>) returns (more: seq<u8>)
      requires Valid()
      modifies this, buffer
      ensures Valid()
      ensures Served(State(), Queue(), output, more) ==
              React(terminalSupport, Served(old(State()), old(Queue()), old(output), delivered), e)
    {
      hide Received;
      more := delivered;
      match e {
        case Input(c) =>
          ReadAndStore(c);
        case Take =>
          var c := GetChar();
          if c >= 0 {
            more := more + [c];
          }
      }
    }

    // Input from the client and reads by the guest, in any order.
    method Serve(events: seq<Event>) returns (delivered: seq<u8>)
      requires Valid()
      modifies this, buffer
      ensures Valid()
      ensures Served(State(), Queue(), output, delivered) ==
              Run(terminalSupport, Served(old(State()), old(Queue()), old(output), []), events)
    {
      hide React;
      delivered := [];
      for i := 0 to |events|
        invariant Valid()
        invariant Run(terminalSupport, Served(State(), Queue(), output, delivered), events[i..]) ==
                  Run(terminalSupport, Served(old(State()), old(Queue()), old(output), []), events)
      {
        assert events[i..][1..] == events[i + 1..];
        delivered := Handle(events[i], delivered);
      }
    }
  }

  function Received(support: bool, d: Decoder, queue: seq<u8>, output: seq<u8>, c: u8): (Decoder, seq<u8>, seq<u8>) {
    if !support then (d, Push(queue, c), output)
    else
      var e := Next(d, c);
      (e.next, PushAll(queue, e.stored), output + e.sent)
  }

  datatype Event = Input(c: u8) | Take

  datatype Served = Served(decoder: Decoder, queue: seq<u8>, output: seq<u8>, delivered: seq<u8>)

  function React(support: bool, s: Served, e: Event): Served {
    match e
    case Input(c) =>
      var r := Received(support, s.decoder, s.queue, s.output, c);
      Served(r.0, r.1, r.2, s.delivered)
    case Take =>
      if s.queue == [] then s else s.(queue := s.queue[1..], delivered := s.delivered + [s.queue[0]])
  }

  function Run(support: bool, s: Served, events: seq<Event>): Served
    decreases |events|
  {
    if events == [] then s else Run(support, React(support, s, events[0]), events[1..])
  }

  // -------------------------------------------------------- streams of commands

  // What a Telnet client may send: ordinary characters, a doubled IAC for the
  // character 255, option negotiations and subnegotiations, and arrow keys.
  datatype Item = Char(c: u8) | DoubledIac | Negotiation(cmd: u8, opt: u8) | Subnegotiation(opt: u8, params: seq<u8>)
                | Arrow(key: u8)

  predicate Ordinary(c: u8) { c !in {0, 10, ESC, 0x1D, 0xB3, IAC} }

  // The parameters hold no IAC, and at least the bytes that the decoder takes
  // for granted: one, or two for the answer to a terminal-type request.
  predicate Framed(opt: u8, params: seq<u8>) {
    params != [] && (opt == TTYPE && params[0] == TTYPE_IS ==> |params| > 1)
  }

  predicate WellFormed(item: Item) {
    match item
    case Char(c) => Ordinary(c)
    case DoubledIac => true
    case Negotiation(cmd, _) => WILL <= cmd <= DONT
    case Subnegotiation(opt, params) => IAC !in params && Framed(opt, params)
    case Arrow(key) => 0x41 <= key <= 0x44
  }

  function Wire(item: Item): seq<u8> {
    match item
    case Char(c) => [c]
    case DoubledIac => [IAC, IAC]
    case Negotiation(cmd, opt) => [IAC, cmd, opt]
    case Subnegotiation(opt, params) => [IAC, SB, opt] + params + [IAC, SE]
    case Arrow(key) => [ESC, 0x5B, key]
  }

  function Data(item: Item): seq<u8>
    requires WellFormed(item)
  {
    match item
    case Char(c) => [c]
    case DoubledIac => [IAC]
    case Arrow(key) => [[16, 14, 6, 2][key - 0x41]]
    case _ => []
  }

  function Reply(item: Item): seq<u8> { if item == Negotiation(WILL, TTYPE) then ASK_TTYPE else [] }

  function WireAll(items: seq<Item>): seq<u8> { if items == [] then [] else Wire(items[0]) + WireAll(items[1..]) }

  function DataAll(items: seq<Item>): seq<u8>
    requires forall item | item in items :: WellFormed(item)
  {
    if items == [] then [] else Data(items[0]) + DataAll(items[1..])
  }

  function ReplyAll(items: seq<Item>): seq<u8> { if items == [] then [] else Reply(items[0]) + ReplyAll(items[1..]) }

  lemma {:induction false} DecodeConcat(d: Decoder, a: seq<u8>, b: seq<u8>)
    ensures var e, f := Decode(d, a), Decode(Decode(d, a).next, b);
            Decode(d, a + b) == Effect(f.next, e.stored + f.stored, e.sent + f.sent)
    decreases |a|
  {
    hide Next;
    if a == [] {
      assert a + b == b;
      var f := Decode(d, b);
      assert [] + f.stored == f.stored && [] + f.sent == f.sent;
    } else {
      assert (a + b)[1..] == a[1..] + b;
      var n := Next(d, a[0]);
      DecodeConcat(n.next, a[1..], b);
      var e := Decode(n.next, a[1..]);
      var f := Decode(e.next, b);
      assert n.stored + (e.stored + f.stored) == n.stored + e.stored + f.stored;
      assert n.sent + (e.sent + f.sent) == n.sent + e.sent + f.sent;
    }
  }

  lemma DecodeOne(d: Decoder, c: u8)
    ensures Decode(d, [c]) == Next(d, c)
  {
    hide Next;
    var n := Next(d, c);
    assert [c][1..] == [];
    assert n.stored + [] == n.stored && n.sent + [] == n.sent;
  }

  lemma DecodeThree(d: Decoder, a: u8, b: u8, c: u8)
    ensures var e := Next(d, a);
            var f := Next(e.next, b);
            var g := Next(f.next, c);
            && Decode(d, [a, b]) == Effect(f.next, e.stored + f.stored, e.sent + f.sent)
            && Decode(d, [a, b, c]) == Effect(g.next, e.stored + f.stored + g.stored, e.sent + f.sent + g.sent)
  {
    hide Next;
    var e := Next(d, a);
    assert [a] + [b] == [a, b] && [a, b] + [c] == [a, b, c];
    DecodeOne(d, a);
    DecodeOne(e.next, b);
    DecodeConcat(d, [a], [b]);
    DecodeOne(Next(e.next, b).next, c);
    DecodeConcat(d, [a, b], [c]);
  }

  // Parameters are skipped up to the next IAC.
  lemma {:induction false} SkipParams(d: Decoder, params: seq<u8>)
    requires d.mode == TelnetNext && IAC !in params
    ensures Decode(d, params) == Effect(d, [], [])
    decreases |params|
  {
    if params != [] { SkipParams(d, params[1..]); }
  }

  // The mode in which the parameters of a subnegotiation leave the decoder.
  function AfterParams(opt: u8, params: seq<u8>): Mode {
    if params == [] then TelnetSb2 else if Framed(opt, params) then TelnetNext else TelnetSbTtype
  }

  lemma ParamsTaken(e: Decoder, params: seq<u8>)
    requires e.mode == TelnetSb2 && IAC !in params
    ensures Decode(e, params) == Effect(e.(mode := AfterParams(e.opt, params)), [], [])
  {
    if params != [] {
      var f := Next(e, params[0]).next;
      if f.mode == TelnetNext {
        SkipParams(f, params[1..]);
      } else if params[1..] != [] {
        SkipParams(f.(mode := TelnetNext), params[1..][1..]);
      }
    }
  }

  // The start of a subnegotiation and its parameters store nothing.
  lemma HeadTaken(d: Decoder, opt: u8, params: seq<u8>)
    requires d.mode == Text && IAC !in params
    ensures Decode(d, [IAC, SB, opt] + params) == Effect(Decoder(AfterParams(opt, params), SB, opt), [], [])
  {
    hide Decode;
    DecodeThree(d, IAC, SB, opt);
    DecodeConcat(d, [IAC, SB, opt], params);
    ParamsTaken(Decoder(TelnetSb2, SB, opt), params);
  }

  // A subnegotiation leaves the decoder in its text mode with nothing stored
  // exactly when its parameters are long enough.
  lemma SubnegotiationIsSkipped(d: Decoder, opt: u8, params: seq<u8>)
    requires d.mode == Text && IAC !in params
    ensures var e := Decode(d, Wire(Subnegotiation(opt, params)));
            e.stored == [] && e.sent == [] && (e.next.mode == Text <==> Framed(opt, params))
  {
    hide Decode;
    HeadTaken(d, opt, params);
    DecodeConcat(d, [IAC, SB, opt] + params, [IAC, SE]);
    DecodeThree(Decoder(AfterParams(opt, params), SB, opt), IAC, SE, SE);
  }

  lemma ItemDecodes(d: Decoder, item: Item)
    requires d.mode == Text && WellFormed(item)
    ensures var e := Decode(d, Wire(item));
            e.next.mode == Text && e.stored == Data(item) && e.sent == Reply(item)
  {
    hide Decode;
    match item
    case Char(c) => DecodeOne(d, c);
    case DoubledIac => DecodeThree(d, IAC, IAC, IAC);
    case Negotiation(cmd, opt) => DecodeThree(d, IAC, cmd, opt);
    case Subnegotiation(opt, params) => SubnegotiationIsSkipped(d, opt, params);
    case Arrow(key) => DecodeThree(d, ESC, 0x5B, key);
  }

  // A well-formed stream decodes to exactly its data, answers exactly its offers
  // of a terminal type, and ends where it started.
  lemma {:induction false} StreamDecodes(d: Decoder, items: seq<Item>)
    requires d.mode == Text && forall item | item in items :: WellFormed(item)
    ensures var e := Decode(d, WireAll(items));
            e.next.mode == Text && e.stored == DataAll(items) && e.sent == ReplyAll(items)
    decreases |items|
  {
    if items != [] {
      hide Next, Wire, Data, Reply, WellFormed;
      ItemDecodes(d, items[0]);
      DecodeConcat(d, Wire(items[0]), WireAll(items[1..]));
      StreamDecodes(Decode(d, Wire(items[0])).next, items[1..]);
    } else {
      assert WireAll(items) == [];
    }
  }

  // What the decoder makes of everything else a client may send in text mode: a
  // zero and a line feed are dropped; ESC and what follows it are data unless
  // they begin an arrow key; of an unknown key the bracket comes first; the
  // remote-control characters swallow the next byte; other commands vanish.
  lemma OtherInput(d: Decoder, c: u8)
    requires d.mode == Text
    ensures var e := Decode(d, [c]);
            c !in {ESC, 0x1D, 0xB3, IAC} ==>
              e.next == d && e.sent == [] && e.stored == if c == 0 || c == 10 then [] else [c]
    ensures var e := Decode(d, [0x1B, c]);
            c != 0x5B ==> e.next == d && e.sent == [] && e.stored == [0x1B, c]
    ensures var e := Decode(d, [0x1B, 0x5B, c]);
            && e.next == d && e.sent == []
            && e.stored == if c == 0x41 then [16] else if c == 0x42 then [14] else if c == 0x43 then [6]
                           else if c == 0x44 then [2] else [0x5B, 0x1B, c]
    ensures forall control | control in {0x1D, 0xB3} :: Decode(d, [control, c]) == Effect(d, [], [])
    ensures var e := Decode(d, [0xFF, c]);
            c !in {0xFF, 0xFE, 0xFD, 0xFC, 0xFB, 0xFA} ==> e == Effect(d.(cmd := c), [], [])
  {
    hide Decode;
    DecodeOne(d, c);
    DecodeThree(d, 0x1B, 0x5B, c);
    DecodeThree(d, 0x1B, c, c);
    DecodeThree(d, 0x1D, c, c);
    DecodeThree(d, 0xB3, c, c);
    DecodeThree(d, 0xFF, c, c);
  }

  // A client that offers its terminal type is asked for it. Its answer, a zero
  // and a name, must hold a name; other parameters of this option need not.
  lemma TerminalType(d: Decoder, c: u8)
    requires d.mode == Text && c != 0xFF
    ensures Decode(d, [0xFF, 0xFB, 0x18]).sent == [0xFF, 0xFA, 0x18, 0x01, 0xFF, 0xF0]
    ensures Decode(d, [0xFF, 0xFA, 0x18, 0x00, 0xFF, 0xF0]).next.mode != Text
    ensures Decode(d, [0xFF, 0xFA, 0x18, 0x00, c, 0xFF, 0xF0]).next.mode == Text
    ensures c != 0 ==> Decode(d, [0xFF, 0xFA, 0x18, c, 0xFF, 0xF0]).next.mode == Text
  {
    hide Decode;
    DecodeThree(d, 0xFF, 0xFB, 0x18);
    SubnegotiationIsSkipped(d, 0x18, [0x00]);
    SubnegotiationIsSkipped(d, 0x18, [0x00, c]);
    SubnegotiationIsSkipped(d, 0x18, [c]);
    assert Wire(Subnegotiation(0x18, [0x00])) == [0xFF, 0xFA, 0x18, 0x00, 0xFF, 0xF0];
    assert Wire(Subnegotiation(0x18, [0x00, c])) == [0xFF, 0xFA, 0x18, 0x00, c, 0xFF, 0xF0];
    assert Wire(Subnegotiation(0x18, [c])) == [0xFF, 0xFA, 0x18, c, 0xFF, 0xF0];
  }

  // Without Telnet support every byte joins the queue of at most 4095.
  lemma PlainInput(d: Decoder, queue: seq<u8>, output: seq<u8>, c: u8)
    ensures Received(false, d, queue, output, c) == (d, if |queue| < 4095 then queue + [c] else queue, output)
  {}

  // The first doubled IAC among the parameters is taken for data, which also
  // ends the subnegotiation, exactly when the parameters before it are long
  // enough; otherwise it leaves the decoder waiting for a command.
  lemma DoubledIacEndsSubnegotiation(d: Decoder, opt: u8, params: seq<u8>)
    requires d.mode == Text && IAC !in params
    ensures var e := Decode(d, [IAC, SB, opt] + params + [IAC, IAC]);
            && e.stored == (if Framed(opt, params) then [IAC] else []) && e.sent == []
            && e.next.mode == (if Framed(opt, params) then Text else Telnet)
  {
    hide Decode;
    HeadTaken(d, opt, params);
    DecodeConcat(d, [IAC, SB, opt] + params, [IAC, IAC]);
    DecodeThree(Decoder(AfterParams(opt, params), SB, opt), IAC, IAC, IAC);
  }

  // A negotiation is taken out of the input exactly in text mode. In the middle
  // of a command, where a new connection starts, it reaches the guest as input
  // and is not answered; the option is stored if it is an ordinary character.
  lemma FirstNegotiationIsStored(d: Decoder, cmd: u8, opt: u8)
    requires d.mode in {Text, Telnet} && WILL <= cmd <= DONT
    ensures var e := Decode(d, Wire(Negotiation(cmd, opt)));
            && (e.stored == [] <==> d.mode == Text)
            && (d.mode == Telnet ==>
                  e.stored == [IAC, cmd] + (if Ordinary(opt) then [opt] else []) && e.sent == [])
  {
    hide Decode;
    DecodeThree(d, IAC, cmd, opt);
  }

  // What a new connection makes of the first item: an ordinary character is
  // swallowed, and may even be taken for a command; a doubled IAC is stored but
  // leaves the decoder where it was; an arrow key loses its escape.
  lemma FirstItem(d: Decoder, item: Item)
    requires d.mode == Telnet && WellFormed(item)
    ensures var e := Decode(d, Wire(item));
            match item
            case Char(c) =>
              && e.stored == []
              && e.next.mode == (if WILL <= c <= DONT then TelnetIYou else if c == SB then TelnetSb1 else Text)
            case DoubledIac => e.stored == [IAC] && e.next.mode == Telnet
            case Arrow(key) => e.stored == [0x5B, key] && e.next.mode == Text
            case Negotiation(cmd, opt) => e.stored == [IAC, cmd] + if Ordinary(opt) then [opt] else []
            case Subnegotiation(_, _) => e.stored != [] && e.stored[0] == IAC
  {
    hide Decode;
    match item
    case Char(c) => DecodeOne(d, c);
    case DoubledIac => DecodeThree(d, IAC, IAC, IAC);
    case Arrow(key) => DecodeThree(d, ESC, 0x5B, key);
    case Negotiation(cmd, opt) => FirstNegotiationIsStored(d, cmd, opt);
    case Subnegotiation(opt, params) =>
      var rest := [SB, opt] + params + [IAC, SE];
      assert Wire(item) == [IAC] + rest;
      DecodeOne(d, IAC);
      DecodeConcat(d, [IAC], rest);
  }

  predicate AllDoubled(items: seq<Item>) { forall item | item in items :: item.DoubledIac? }

  predicate AllWellFormed(items: seq<Item>) { forall item | item in items :: WellFormed(item) }

  // The guest has received exactly the data of the first `k` items.
  ghost predicate RightUpTo(d: Decoder, items: seq<Item>, k: nat)
    requires k <= |items| && AllWellFormed(items)
  {
    Decode(d, WireAll(items[..k])).stored == DataAll(items[..k])
  }

  lemma {:induction false} DoubledKeepsWaiting(d: Decoder, items: seq<Item>)
    requires d.mode == Telnet && AllDoubled(items)
    ensures Decode(d, WireAll(items)).stored == DataAll(items) && Decode(d, WireAll(items)).next.mode == Telnet
    decreases |items|
  {
    if items == [] {
      assert WireAll(items) == [];
    } else {
      hide Decode;
      FirstItem(d, items[0]);
      DecodeConcat(d, Wire(items[0]), WireAll(items[1..]));
      DoubledKeepsWaiting(Decode(d, Wire(items[0])).next, items[1..]);
    }
  }

  lemma {:induction false} WireOneMore(items: seq<Item>, k: nat)
    requires k < |items| && AllWellFormed(items)
    ensures WireAll(items[..k + 1]) == WireAll(items[..k]) + Wire(items[k])
    ensures DataAll(items[..k + 1]) == DataAll(items[..k]) + Data(items[k])
    decreases k
  {
    hide Wire, Data, WellFormed;
    assert items[..k + 1][0] == items[0] && items[..k + 1][1..] == items[1..][..k];
    if k > 0 {
      assert items[..k][1..] == items[1..][..k - 1];
      WireOneMore(items[1..], k - 1);
    } else {
      assert items[..0] == [] && items[1..][..0] == [];
    }
  }

  // A new connection delivers the right data at every point of a well-formed
  // stream exactly if the client sends nothing but doubled IACs: it goes wrong
  // at the first item that is anything else.
  lemma NewConnectionIsRight(d: Decoder, items: seq<Item>)
    requires d.mode == Telnet && AllWellFormed(items)
    ensures (forall k | 0 <= k <= |items| :: RightUpTo(d, items, k)) <==> AllDoubled(items)
  {
    hide Decode;
    if AllDoubled(items) {
      forall k | 0 <= k <= |items| ensures RightUpTo(d, items, k) {
        DoubledKeepsWaiting(d, items[..k]);
      }
    } else {
      var k := FirstOther(items);
      FirstOtherIsWrong(d, items, k);
    }
  }

  function FirstOther(items: seq<Item>): (k: nat)
    requires !AllDoubled(items)
    ensures k < |items| && !items[k].DoubledIac? && AllDoubled(items[..k])
  {
    if !items[0].DoubledIac? then 0
    else
      assert items == [items[0]] + items[1..];
      1 + FirstOther(items[1..])
  }

  lemma FirstOtherIsWrong(d: Decoder, items: seq<Item>, k: nat)
    requires d.mode == Telnet && AllWellFormed(items)
    requires k < |items| && !items[k].DoubledIac? && AllDoubled(items[..k])
    ensures !RightUpTo(d, items, k + 1)
  {
    hide Decode;
    DoubledKeepsWaiting(d, items[..k]);
    WireOneMore(items, k);
    DecodeConcat(d, WireAll(items[..k]), Wire(items[k]));
    FirstItem(Decode(d, WireAll(items[..k])).next, items[k]);
  }

  // ---------------------------------------------------------- delivery to the guest

  function Inputs(events: seq<Event>): seq<u8> {
    if events == [] then []
    else (match events[0] case Input(c) => [c] case Take => []) + Inputs(events[1..])
  }

  // Every stored character finds room when it arrives.
  predicate Roomy(s: Served, events: seq<Event>)
    decreases |events|
  {
    events == [] ||
    ((events[0].Input? ==> |s.queue| + |Next(s.decoder, events[0].c).stored| <= CAPACITY)
     && Roomy(React(true, s, events[0]), events[1..]))
  }

  lemma {:induction false} PushAllFits(q: seq<u8>, cs: seq<u8>)
    requires |q| <= CAPACITY
    ensures |PushAll(q, cs)| <= CAPACITY && |PushAll(q, cs)| <= |q| + |cs|
    ensures |q| + |cs| <= CAPACITY ==> PushAll(q, cs) == q + cs
    ensures |q| + |cs| > CAPACITY ==> |PushAll(q, cs)| < |q| + |cs|
    decreases |cs|
  {
    if cs != [] {
      PushAllFits(Push(q, cs[0]), cs[1..]);
      assert (q + [cs[0]]) + cs[1..] == q + cs;
    }
  }

  ghost predicate Delivers(s: Served, t: Served, e: Effect, roomy: bool) {
    && t.decoder == e.next && t.output == s.output + e.sent
    && (t.delivered + t.queue == s.delivered + s.queue + e.stored <==> roomy)
    && |t.delivered| + |t.queue| <= |s.delivered| + |s.queue| + |e.stored|
    && (!roomy ==> |t.delivered| + |t.queue| < |s.delivered| + |s.queue| + |e.stored|)
  }

  lemma InputDelivers(s: Served, c: u8, t: Served, e: Effect, roomy: bool)
    requires |s.queue| <= CAPACITY && Delivers(React(true, s, Input(c)), t, e, roomy)
    ensures var n := Next(s.decoder, c);
            Delivers(s, t, Effect(e.next, n.stored + e.stored, n.sent + e.sent),
                     |s.queue| + |n.stored| <= CAPACITY && roomy)
  {
    hide Next, PushAll;
    var n := Next(s.decoder, c);
    PushAllFits(s.queue, n.stored);
    assert (s.output + n.sent) + e.sent == s.output + (n.sent + e.sent);
    assert s.delivered + (s.queue + n.stored) + e.stored == s.delivered + s.queue + (n.stored + e.stored);
  }

  // Whatever the order of arrivals and reads, the guest receives the decoded
  // stream, in order and without loss, exactly when the buffer never overflows.
  lemma {:induction false} DeliversDecodedStream(s: Served, events: seq<Event>)
    requires |s.queue| <= CAPACITY
    ensures Delivers(s, Run(true, s, events), Decode(s.decoder, Inputs(events)), Roomy(s, events))
    decreases |events|
  {
    hide Next, PushAll;
    if events == [] {
      assert Run(true, s, events) == s && Inputs(events) == [];
      assert s.output + [] == s.output && s.delivered + s.queue + [] == s.delivered + s.queue;
    } else {
      hide Decode;
      var u, rest := React(true, s, events[0]), events[1..];
      match events[0]
      case Input(c) =>
        PushAllFits(s.queue, Next(s.decoder, c).stored);
        hide Delivers;
        DeliversDecodedStream(u, rest);
        InputDelivers(s, c, Run(true, u, rest), Decode(u.decoder, Inputs(rest)), Roomy(u, rest));
        DecodeOne(s.decoder, c);
        DecodeConcat(s.decoder, [c], Inputs(rest));
      case Take =>
        DeliversDecodedStream(u, rest);
        assert [] + Inputs(rest) == Inputs(rest);
        assert u.delivered + u.queue == s.delivered + s.queue;
    }
  }
}

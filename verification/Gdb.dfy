// Packets of the GDB remote protocol: a payload between a dollar and a hash
// sign, two checksum digits, and an acknowledgement for every frame received.
module Gdb {
  import opened Words
  import opened Wrappers

  const DOLLAR: u8 := 0x24
  const HASH: u8 := 0x23
  const PLUS: u8 := 0x2B
  const MINUS: u8 := 0x2D

  function FromHex(c: u8): (n: nat)
    ensures n < 16
  {
    if 0x30 <= c <= 0x39 then c - 0x30 else if 0x61 <= c <= 0x66 then c - 0x61 + 10 else 0
  }

  function ToHex(n: nat): (c: u8)
    requires n < 16
    ensures FromHex(c) == n && c < 0x80
  {
    if n < 10 then 0x30 + n else 0x61 + n - 10
  }

  // The digits are 0 to 9 and a to f; every other character reads as zero.
  lemma HexDigits(c: u8)
    ensures var digits := "0123456789abcdef";
            && (forall n | 0 <= n < 16 :: ToHex(n) == digits[n] as int)
            && (forall n | 0 <= n < 16 :: c == digits[n] as int ==> FromHex(c) == n)
            && ((forall n | 0 <= n < 16 :: c != digits[n] as int) ==> FromHex(c) == 0)
  {
    var digits := "0123456789abcdef";
    assert 'a' as int == 0x61 && '0' as int == 0x30;
    assert forall n | 0 <= n < 10 :: digits[n] as int == 0x30 + n;
    assert forall n | 10 <= n < 16 :: digits[n] as int == 0x61 + n - 10;
    if 0x30 <= c <= 0x39 {
      assert c == digits[c - 0x30] as int;
    } else if 0x61 <= c <= 0x66 {
      assert c == digits[c - 0x61 + 10] as int;
    }
  }

  // Only the low seven bits of a received character count.
  function Masked(s: seq<u8>): seq<u8> { seq(|s|, i requires 0 <= i < |s| => s[i] % 0x80) }

  function Sum(s: seq<u8>): (n: nat)
    ensures n < 0x100
  {
    if s == [] then 0 else (Sum(s[..|s| - 1]) + s[|s| - 1]) % 0x100
  }

  function Frame(payload: seq<u8>): seq<u8> {
    [DOLLAR] + payload + [HASH, ToHex(Sum(payload) / 0x10), ToHex(Sum(payload) % 0x10)]
  }

  function IndexOf(s: seq<u8>, c: u8): (i: nat)
    ensures i <= |s| && c !in s[..i] && (i < |s| ==> s[i] == c)
  {
    if s == [] || s[0] == c then 0 else 1 + IndexOf(s[1..], c)
  }

  lemma {:induction false} FirstIndex(s: seq<u8>, c: u8, k: nat)
    requires k < |s| && s[k] == c && c !in s[..k]
    ensures IndexOf(s, c) == k
  {
    if k > 0 {
      assert s[0] == s[..k][0];
      assert s[1..][..k - 1] == s[..k][1..];
      FirstIndex(s[1..], c, k - 1);
    }
  }

  lemma {:induction false} NoIndex(s: seq<u8>, c: u8)
    requires c !in s
    ensures IndexOf(s, c) == |s|
  {
    if s != [] { NoIndex(s[1..], c); }
  }

  lemma StringEnd(buf: seq<u8>, i: nat)
    requires i <= |buf| && 0 !in buf[..i] && (i < |buf| ==> buf[i] == 0)
    ensures CString(buf) == buf[..i]
  {
    if i < |buf| {
      FirstIndex(buf, 0, i);
    } else {
      assert buf[..i] == buf;
      NoIndex(buf, 0);
    }
  }

  // ------------------------------------------------------------- receiving packets

  // The acknowledgements sent, and the payload accepted with what was not read.
  datatype Outcome = Broken(acks: seq<u8>) | Packet(acks: seq<u8>, payload: seq<u8>, rest: seq<u8>)

  function After(ack: u8, o: Outcome): Outcome {
    match o
    case Broken(acks) => Broken([ack] + acks)
    case Packet(acks, payload, rest) => Packet([ack] + acks, payload, rest)
  }

  function Receive(input: seq<u8>): Outcome
    decreases |input|
  {
    var i := IndexOf(input, DOLLAR);
    if i == |input| then Broken([]) else Body(input[i + 1..])
  }

  function Body(input: seq<u8>): Outcome
    decreases |input|
  {
    var j := IndexOf(input, HASH);
    if j + 2 >= |input| then Broken([])
    else if Sum(input[..j]) == FromHex(input[j + 1]) * 0x10 + FromHex(input[j + 2]) then
      Packet([PLUS], input[..j], input[j + 3..])
    else After(MINUS, Receive(input[j + 3..]))
  }

  lemma IndexShift(s: seq<u8>, c: u8)
    requires s != [] && s[0] != c
    ensures IndexOf(s, c) == 1 + IndexOf(s[1..], c)
  {}

  lemma TailOfTail(s: seq<u8>, i: nat)
    requires i + 1 < |s|
    ensures s[1..][i + 1..] == s[i + 2..]
  {}

  lemma MaskedTail(s: seq<u8>)
    requires s != []
    ensures Masked(s) != [] && Masked(s)[0] == s[0] % 0x80 && Masked(s)[1..] == Masked(s[1..])
  {}

  lemma SkipJunk(input: seq<u8>)
    requires input != [] && input[0] != DOLLAR
    ensures Receive(input) == Receive(input[1..])
  {
    hide Body, IndexOf;
    IndexShift(input, DOLLAR);
    var i := IndexOf(input[1..], DOLLAR);
    if i + 1 < |input| { TailOfTail(input, i); }
  }

  lemma SumNone()
    ensures Sum([]) == 0
  {}

  lemma SumOne(s: seq<u8>, c: u8)
    ensures Sum(s + [c]) == (Sum(s) + c) % 0x100
  {
    assert (s + [c])[..|s|] == s;
  }

  lemma NextOf(done: seq<u8>, left: seq<u8>, whole: seq<u8>)
    requires done + left == whole && left != []
    ensures whole[..|done|] == done && whole[|done|] == left[0] && whole[|done| + 1..] == left[1..]
    ensures done + [left[0]] + left[1..] == whole
  {}

  const BUFSIZ: nat := 8192

  lemma SumOfOk()
    ensures Sum([0x4F, 0x4B]) == 0x9A
  {
    hide Sum;
    SumNone();
    SumOne([], 0x4F);
    SumOne([0x4F], 0x4B);
    assert [] + [0x4F] == [0x4F] && [0x4F] + [0x4B] == [0x4F, 0x4B];
  }

  // The answer OK as it goes over the wire, and how it is answered, intact and
  // with a wrong digit.
  lemma FrameOfOk()
    ensures Frame([0x4F, 0x4B]) == [0x24, 0x4F, 0x4B, 0x23, 0x39, 0x61]
    ensures Receive([0x24, 0x4F, 0x4B, 0x23, 0x39, 0x61]) == Packet([0x2B], [0x4F, 0x4B], [])
    ensures Receive([0x24, 0x4F, 0x4B, 0x23, 0x39, 0x62]) == Broken([0x2D])
  {
    SumOfOk();
    OkDigits();
    hide Sum, Receive, Body, IndexOf, FromHex, ToHex;
    ReceivedOk(0x61);
    ReceivedOk(0x62);
    NothingReceived();
  }

  lemma OkDigits()
    ensures FromHex(0x39) == 9 && FromHex(0x61) == 10 && FromHex(0x62) == 11 && ToHex(9) == 0x39 && ToHex(10) == 0x61
  {}

  lemma ReceivedOk(low: u8)
    ensures Receive([0x24, 0x4F, 0x4B, 0x23, 0x39, low]) ==
            if Sum([0x4F, 0x4B]) == FromHex(0x39) * 0x10 + FromHex(low) then Packet([PLUS], [0x4F, 0x4B], [])
            else After(MINUS, Receive([]))
  {
    hide Sum, Receive, Body, IndexOf, FromHex;
    var rest := [0x4F, 0x4B] + [HASH, 0x39, low] + [];
    assert [0x24, 0x4F, 0x4B, 0x23, 0x39, low] == [] + [DOLLAR] + rest;
    ReceiveAt([], rest);
    BodyAt([0x4F, 0x4B], 0x39, low, []);
  }

  lemma NothingReceived()
    ensures Receive([]) == Broken([])
  {}

  class Channel {
    // What the peer has sent: the characters read ahead, and those not yet read
    // from the socket.
    var ahead: seq<u8>
    var input: seq<u8>
    var output: seq<u8>

    constructor (input: seq<u8>)
      ensures this.input == input && output == [] && ahead == []
    {
      this.input, output, ahead := input, [], [];
    }

    function Pending(): seq<u8>
      reads this
    {
      ahead + input
    }

    // Read ahead what has arrived, at most a buffer full, and at least one
    // character unless the input has ended.
    method ReadAhead()
      requires ahead == []
      modifies this`ahead, this`input
      ensures Pending() == old(input) && (ahead == [] ==> input == []) && |input| <= |old(input)|
    {
      if input != [] {
        var n :| 1 <= n <= |input| && n <= BUFSIZ;
        ahead, input := input[..n], input[n..];
      }
      assert ahead + input == old(input);
    }

    method ReadChar() returns (c: int)
      modifies this`ahead, this`input
      ensures |input| <= |old(input)|
      ensures old(Pending()) == [] ==> c == -1 && Pending() == []
      ensures old(Pending()) != [] ==> c == old(Pending()[0]) % 0x80 && Pending() == old(Pending())[1..]
      ensures var before := Masked(old(Pending()));
              if before == [] then c == -1 && Masked(Pending()) == []
              else c == before[0] && Masked(Pending()) == before[1..]
    {
      if ahead == [] {
        ReadAhead();
      }
      if ahead == [] {
        return -1;
      }
      assert (ahead + input)[1..] == ahead[1..] + input;
      MaskedTail(Pending());
      c := ahead[0] % 0x80;
      ahead := ahead[1..];
    }

    // Send a packet again and again until the peer answers with a plus sign. The
    // answers are read from the socket, past whatever was read ahead.
    method PutPkt(buf: seq<u8>) returns (result: int)
      requires |Frame(CString(buf))| <= MAX_FRAME
      modifies this`input, this`output
      ensures var k := IndexOf(old(input), PLUS);
              && (result == if k < |old(input)| then 1 else -1)
              && output == old(output) + Repeated(Frame(CString(buf)), k + 1)
              && input == if k < |old(input)| then old(input)[k + 1..] else []
    {
      var csum: u8 := 0;
      var frame := [DOLLAR];
      var i := 0;
      while i < |buf| && buf[i] != 0
        invariant 0 <= i <= |buf| && 0 !in buf[..i]
        invariant csum == Sum(buf[..i]) && frame == [DOLLAR] + buf[..i]
      {
        assert buf[..i + 1][..i] == buf[..i];
        csum := (csum + buf[i]) % 0x100;
        frame := frame + [buf[i]];
        i := i + 1;
      }
      StringEnd(buf, i);
      frame := frame + [HASH];
      frame := frame + [ToHex(csum / 0x10)];
      frame := frame + [ToHex(csum % 0x10)];
      assert frame == Frame(CString(buf));
      result := Resend(frame);
    }

    method Resend(frame: seq<u8>) returns (result: int)
      modifies this`input, this`output
      ensures var k := IndexOf(old(input), PLUS);
              && (result == if k < |old(input)| then 1 else -1)
              && output == old(output) + Repeated(frame, k + 1)
              && input == if k < |old(input)| then old(input)[k + 1..] else []
    {
      ghost var n := 0;
      assert output == old(output) + Repeated(frame, 0);
      while true
        invariant n <= |old(input)| && input == old(input)[n..] && PLUS !in old(input)[..n]
        invariant output == old(output) + Repeated(frame, n)
        decreases |input|
      {
        output := output + frame;
        assert output == old(output) + Repeated(frame, n + 1);
        if input == [] {
          NoIndex(old(input), PLUS);
          return -1;
        }
        var reply := input[0];
        input := input[1..];
        if reply == PLUS {
          FirstIndex(old(input), PLUS, n);
          return 1;
        }
        n := n + 1;
      }
    }

    // Find the start of a frame; false at the end of the input.
    method SkipToDollar() returns (ok: bool)
      modifies this`ahead, this`input
      ensures |input| <= |old(input)|
      ensures |Pending()| <= |old(Pending())| && (ok ==> |Pending()| < |old(Pending())|)
      ensures Receive(Masked(old(Pending()))) == if ok then Body(Masked(Pending())) else Broken([])
    {
      hide Masked;
      while true
        invariant |input| <= |old(input)|
        invariant |Pending()| <= |old(Pending())| && Receive(Masked(Pending())) == Receive(Masked(old(Pending())))
        decreases |Pending()|
      {
        ghost var before := Masked(Pending());
        var c := ReadChar();
        if c == DOLLAR {
          return true;
        }
        if c < 0 {
          return false;
        }
        SkipJunk(before);
      }
    }

    // Take characters up to the hash sign and add them up.
    method TakePayload() returns (ok: bool, payload: seq<u8>, csum: u8)
      modifies this`ahead, this`input
      ensures |input| <= |old(input)|
      ensures var whole := Masked(old(Pending())); var j := IndexOf(whole, HASH);
              && (ok <==> j < |whole|) && |Pending()| <= |old(Pending())|
              && (ok ==> payload == whole[..j] && csum == Sum(payload) && Masked(Pending()) == whole[j + 1..])
    {
      hide IndexOf, Sum, Masked;
      ghost var whole := Masked(Pending());
      payload, csum := [], 0;
      SumNone();
      while true
        invariant |input| <= |old(input)|
        invariant |Pending()| <= |old(Pending())| && payload + Masked(Pending()) == whole
        invariant HASH !in payload && csum == Sum(payload)
        decreases |Pending()|
      {
        ghost var before := Masked(Pending());
        var c := ReadChar();
        if c < 0 {
          ok := false;
          assert payload == whole;
          NoIndex(whole, HASH);
          return;
        }
        NextOf(payload, before, whole);
        if c == HASH {
          ok := true;
          FirstIndex(whole, HASH, |payload|);
          return;
        }
        SumOne(payload, c);
        payload, csum := payload + [c], (csum + c) % 0x100;
      }
    }

    // The rest of a frame: a payload and two checksum digits.
    method TakeFrame() returns (verdict: Verdict, buf: seq<u8>)
      modifies this`ahead, this`input
      ensures |Pending()| <= |old(Pending())| && |input| <= |old(input)|
      ensures Body(Masked(old(Pending()))) ==
              match verdict
              case Cut => Broken([])
              case Good => Packet([PLUS], buf, Masked(Pending()))
              case Bad => After(MINUS, Receive(Masked(Pending())))
    {
      verdict := Cut;
      ghost var body := Masked(Pending());
      ghost var j := IndexOf(body, HASH);
      hide IndexOf, Sum, Receive;
      var ok, payload, csum := TakePayload();
      buf := payload;
      if !ok {
        return;
      }
      var c1 := ReadChar();
      if c1 < 0 {
        return;
      }
      var c2 := ReadChar();
      if c2 < 0 {
        return;
      }
      assert c1 == body[j + 1] && c2 == body[j + 2] && Masked(Pending()) == body[j + 3..];
      verdict := if csum == FromHex(c1) * 0x10 + FromHex(c2) then Good else Bad;
    }

    // The payload accepted, or -1 when the input ends first.
    method GetPkt() returns (length: int, buf: seq<u8>)
      modifies this
      ensures |input| <= |old(input)|
      ensures match Receive(Masked(old(Pending())))
              case Broken(acks) => length == -1 && output == old(output) + acks
              case Packet(acks, payload, rest) =>
                length == |payload| && buf == payload && Masked(Pending()) == rest && output == old(output) + acks
    {
      hide Receive, Body;
      ghost var sent := [];
      assert output + [] == output;
      AnswerNone(Receive(Masked(Pending())));
      while true
        invariant |input| <= |old(input)|
        invariant output == old(output) + sent && Answered(sent, Receive(Masked(Pending()))) == Receive(Masked(old(Pending())))
        decreases |Pending()|
      {
        length, buf := -1, [];
        assert sent + [] == sent;
        var ok := SkipToDollar();
        if !ok {
          return;
        }
        var verdict;
        verdict, buf := TakeFrame();
        match verdict {
          case Cut =>
            return;
          case Good =>
            output := output + [PLUS];
            length := |buf|;
            return;
          case Bad =>
            output := output + [MINUS];
            AnswerOne(sent, MINUS, Receive(Masked(Pending())));
            sent := sent + [MINUS];
        }
      }
    }
  }

  // A C string ends at its first zero byte.
  function CString(buf: seq<u8>): seq<u8> { buf[..IndexOf(buf, 0)] }

  function Repeated(s: seq<u8>, n: nat): seq<u8> { if n == 0 then [] else Repeated(s, n - 1) + s }

  const MAX_FRAME: nat := 2000

  datatype Verdict = Cut | Good | Bad

  lemma AnswerNone(o: Outcome)
    ensures Answered([], o) == o
  {
    var more := match o case Broken(m) => m case Packet(m, _, _) => m;
    assert [] + more == more;
  }

  function Answered(acks: seq<u8>, o: Outcome): Outcome {
    match o
    case Broken(more) => Broken(acks + more)
    case Packet(more, payload, rest) => Packet(acks + more, payload, rest)
  }

  lemma AnswerOne(acks: seq<u8>, ack: u8, o: Outcome)
    ensures Answered(acks, After(ack, o)) == Answered(acks + [ack], o)
  {
    var more := match o case Broken(m) => m case Packet(m, _, _) => m;
    assert acks + ([ack] + more) == acks + [ack] + more;
  }

  // -------------------------------------------------------------- noisy channels

  // Line noise, then a frame whose digits do not match its payload.
  datatype Damaged = Damaged(junk: seq<u8>, body: seq<u8>, high: u8, low: u8)

  function DamagedWire(d: Damaged): seq<u8> { d.junk + [DOLLAR] + d.body + [HASH, d.high, d.low] }

  predicate IsDamaged(d: Damaged) {
    DOLLAR !in d.junk && HASH !in d.body && Sum(d.body) != FromHex(d.high) * 0x10 + FromHex(d.low)
  }

  function NoiseWire(noise: seq<Damaged>): seq<u8> {
    if noise == [] then [] else DamagedWire(noise[0]) + NoiseWire(noise[1..])
  }

  lemma ReceiveAt(junk: seq<u8>, rest: seq<u8>)
    requires DOLLAR !in junk
    ensures Receive(junk + [DOLLAR] + rest) == Body(rest)
  {
    var input := junk + [DOLLAR] + rest;
    assert input[..|junk|] == junk;
    FirstIndex(input, DOLLAR, |junk|);
    assert input[|junk| + 1..] == rest;
  }

  lemma BodyAt(body: seq<u8>, high: u8, low: u8, rest: seq<u8>)
    requires HASH !in body
    ensures Body(body + [HASH, high, low] + rest) ==
            if Sum(body) == FromHex(high) * 0x10 + FromHex(low) then Packet([PLUS], body, rest)
            else After(MINUS, Receive(rest))
  {
    hide Sum, Receive;
    var input := body + [HASH, high, low] + rest;
    assert input[..|body|] == body;
    FirstIndex(input, HASH, |body|);
    assert input[|body| + 3..] == rest;
  }

  // After any noise and any number of damaged frames the next good frame is
  // accepted, every damaged one is refused, and nothing behind it is consumed.
  lemma {:induction false} ReceivesThroughNoise(noise: seq<Damaged>, junk: seq<u8>, payload: seq<u8>, tail: seq<u8>)
    requires (forall d | d in noise :: IsDamaged(d)) && DOLLAR !in junk && HASH !in payload
    ensures Receive(NoiseWire(noise) + (junk + Frame(payload) + tail)) ==
            Packet(Repeated([MINUS], |noise|) + [PLUS], payload, tail)
    decreases |noise|
  {
    hide Receive, Body, Sum;
    var last := junk + Frame(payload) + tail;
    if noise == [] {
      var high, low := ToHex(Sum(payload) / 0x10), ToHex(Sum(payload) % 0x10);
      assert NoiseWire(noise) + last == junk + [DOLLAR] + (payload + [HASH, high, low] + tail);
      ReceiveAt(junk, payload + [HASH, high, low] + tail);
      BodyAt(payload, high, low, tail);
      assert Repeated([MINUS], 0) + [PLUS] == [PLUS];
    } else {
      var d, rest := noise[0], NoiseWire(noise[1..]) + last;
      assert IsDamaged(d);
      assert NoiseWire(noise) + last == d.junk + [DOLLAR] + (d.body + [HASH, d.high, d.low] + rest);
      ReceiveAt(d.junk, d.body + [HASH, d.high, d.low] + rest);
      BodyAt(d.body, d.high, d.low, rest);
      ReceivesThroughNoise(noise[1..], junk, payload, tail);
      RepeatedFront(MINUS, |noise| - 1);
      assert [MINUS] + (Repeated([MINUS], |noise| - 1) + [PLUS]) == Repeated([MINUS], |noise|) + [PLUS];
    }
  }

  lemma {:induction false} RepeatedFront(c: u8, n: nat)
    ensures [c] + Repeated([c], n) == Repeated([c], n + 1)
  {
    if n > 0 {
      RepeatedFront(c, n - 1);
      assert [c] + (Repeated([c], n - 1) + [c]) == ([c] + Repeated([c], n - 1)) + [c];
    }
  }

  // The first frame of the input, when it is complete.
  lemma SplitFrame(input: seq<u8>) returns (junk: seq<u8>, body: seq<u8>, high: u8, low: u8, rest: seq<u8>)
    requires Receive(input).Packet?
    ensures input == junk + [DOLLAR] + body + [HASH, high, low] + rest && HASH !in body && |rest| < |input|
    ensures Receive(input) ==
            if Sum(body) == FromHex(high) * 0x10 + FromHex(low) then Packet([PLUS], body, rest)
            else After(MINUS, Receive(rest))
  {
    hide Sum, FromHex, IndexOf;
    var i := IndexOf(input, DOLLAR);
    var frame := input[i + 1..];
    var j := IndexOf(frame, HASH);
    junk, body, high, low, rest := input[..i], frame[..j], frame[j + 1], frame[j + 2], frame[j + 3..];
    assert Receive(input) == Body(frame);
    hide Receive, Body;
    assert frame == body + [HASH, high, low] + rest;
    assert input == junk + [DOLLAR] + frame;
  }

  // Conversely, whatever is accepted stood in a frame whose digits match, and
  // every frame before it was refused.
  lemma {:induction false} AcceptedWasFramed(input: seq<u8>) returns (before: seq<u8>, high: u8, low: u8)
    requires Receive(input).Packet?
    ensures var o := Receive(input);
            && input == before + [DOLLAR] + o.payload + [HASH, high, low] + o.rest
            && HASH !in o.payload && Sum(o.payload) == FromHex(high) * 0x10 + FromHex(low)
            && |o.acks| > 0 && o.acks == Repeated([MINUS], |o.acks| - 1) + [PLUS]
    decreases |input|
  {
    hide Receive, Sum, FromHex;
    var body, rest;
    before, body, high, low, rest := SplitFrame(input);
    var o := Receive(input);
    if Sum(body) == FromHex(high) * 0x10 + FromHex(low) {
      assert o.acks == Repeated([MINUS], 0) + [PLUS];
    } else {
      var first := before + [DOLLAR] + body + [HASH, high, low];
      var more;
      more, high, low := AcceptedWasFramed(rest);
      before := first + more;
      var p := Receive(rest);
      assert first + (more + [DOLLAR] + p.payload + [HASH, high, low] + p.rest) ==
             before + [DOLLAR] + p.payload + [HASH, high, low] + p.rest;
      RepeatedFront(MINUS, |p.acks| - 1);
      assert [MINUS] + (Repeated([MINUS], |p.acks| - 1) + [PLUS]) ==
             ([MINUS] + Repeated([MINUS], |p.acks| - 1)) + [PLUS];
    }
  }

  function Total(s: seq<u8>): nat { if s == [] then 0 else Total(s[..|s| - 1]) + s[|s| - 1] }

  lemma {:induction false} SumIsTotal(s: seq<u8>)
    ensures Sum(s) == Total(s) % 0x100
    decreases |s|
  {
    if s != [] { SumIsTotal(s[..|s| - 1]); }
  }

  lemma {:induction false} TotalOfParts(a: seq<u8>, b: seq<u8>)
    ensures Total(a + b) == Total(a) + Total(b)
    decreases |b|
  {
    if b == [] {
      assert a + b == a;
    } else {
      assert (a + b)[..|a + b| - 1] == a + b[..|b| - 1];
      TotalOfParts(a, b[..|b| - 1]);
    }
  }

  lemma TotalAround(a: seq<u8>, x: u8, b: seq<u8>)
    ensures Total(a + [x] + b) == Total(a) + x + Total(b)
  {
    TotalOfParts(a + [x], b);
    assert (a + [x])[..|a|] == a;
  }

  // One changed character is always noticed; two exchanged ones never are.
  lemma OneChangeIsNoticed(payload: seq<u8>, k: nat, c: u8)
    requires k < |payload|
    ensures Sum(payload[k := c]) == Sum(payload) <==> c == payload[k]
  {
    var a, b := payload[..k], payload[k + 1..];
    assert payload == a + [payload[k]] + b && payload[k := c] == a + [c] + b;
    TotalAround(a, payload[k], b);
    TotalAround(a, c, b);
    SumIsTotal(payload);
    SumIsTotal(payload[k := c]);
    hide Sum, Total;
    SameRest(Total(a) + Total(b), payload[k], c);
  }

  lemma SameRest(t: nat, x: u8, y: u8)
    ensures (t + x) % 0x100 == (t + y) % 0x100 <==> x == y
  {
    var a, b := (t + x) / 0x100, (t + y) / 0x100;
    assert t + x == a * 0x100 + (t + x) % 0x100 && t + y == b * 0x100 + (t + y) % 0x100;
    if (t + x) % 0x100 == (t + y) % 0x100 {
      assert x - y == (a - b) * 0x100;
    }
  }

  lemma ExchangeIsNotNoticed(payload: seq<u8>, k: nat)
    requires k + 1 < |payload|
    ensures Sum(payload[k := payload[k + 1]][k + 1 := payload[k]]) == Sum(payload)
  {
    var a, x, y, b := payload[..k], payload[k], payload[k + 1], payload[k + 2..];
    var swapped := payload[k := y][k + 1 := x];
    assert payload == (a + [x]) + [y] + b && swapped == (a + [y]) + [x] + b;
    TotalAround(a + [x], y, b);
    TotalAround(a + [y], x, b);
    TotalAround(a, x, []);
    TotalAround(a, y, []);
    assert a + [x] + [] == a + [x] && a + [y] + [] == a + [y];
    SumIsTotal(payload);
    SumIsTotal(swapped);
  }

  lemma MaskedPlain(s: seq<u8>)
    requires forall c | c in s :: c < 0x80
    ensures Masked(s) == s
  {
    forall i | 0 <= i < |s| ensures Masked(s)[i] == s[i] { assert s[i] in s; }
  }

  lemma PlainJoin(a: seq<u8>, b: seq<u8>)
    requires (forall c | c in a :: c < 0x80) && forall c | c in b :: c < 0x80
    ensures forall c | c in a + b :: c < 0x80
  {}

  lemma FrameIsPlain(payload: seq<u8>)
    requires forall c | c in payload :: c < 0x80
    ensures forall c | c in Frame(payload) :: c < 0x80
  {
    hide Sum, FromHex;
    var f := Frame(payload);
    forall i | 0 <= i < |f| ensures f[i] < 0x80 {
      if 0 < i <= |payload| { assert f[i] == payload[i - 1] && payload[i - 1] in payload; }
    }
  }

  lemma {:induction false} FirstPlus(n: nat)
    ensures var acks := Repeated([MINUS], n) + [PLUS]; |acks| == n + 1 && IndexOf(acks, PLUS) == n
  {
    if n == 0 {
      assert Repeated([MINUS], 0) + [PLUS] == [PLUS];
    } else {
      FirstPlus(n - 1);
      RepeatedFront(MINUS, n - 1);
      var acks := Repeated([MINUS], n) + [PLUS];
      assert acks == [MINUS] + (Repeated([MINUS], n - 1) + [PLUS]);
      assert acks[1..] == Repeated([MINUS], n - 1) + [PLUS];
    }
  }

  // A line that damages the first copies of a frame: the receiver refuses each
  // and gets the string, and on its answers the sender sends exactly one copy
  // more than were damaged.
  method Exchange(buf: seq<u8>, noise: seq<Damaged>) returns (length: int, got: seq<u8>, result: int, sent: seq<u8>)
    requires |Frame(CString(buf))| <= MAX_FRAME
    requires HASH !in CString(buf) && forall c | c in CString(buf) :: c < 0x80
    requires (forall d | d in noise :: IsDamaged(d)) && forall c | c in NoiseWire(noise) :: c < 0x80
    ensures length == |CString(buf)| && got == CString(buf)
    ensures result == 1 && sent == Repeated(Frame(CString(buf)), |noise| + 1)
  {
    ghost var payload := CString(buf);
    var first := NoiseWire(noise);
    var wire := first + Frame(CString(buf));
    FrameIsPlain(payload);
    PlainJoin(first, Frame(payload));
    MaskedPlain(wire);
    hide Frame, CString, Receive, NoiseWire, IndexOf, Repeated, Masked, IsDamaged;
    var receiver := new Channel(wire);
    assert receiver.Pending() == wire;
    assert wire == NoiseWire(noise) + ([] + Frame(payload) + []);
    ReceivesThroughNoise(noise, [], payload, []);
    length, got := receiver.GetPkt();
    FirstPlus(|noise|);
    var sender := new Channel(receiver.output);
    assert receiver.output == Repeated([MINUS], |noise|) + [PLUS];
    result := sender.PutPkt(buf);
    sent := sender.output;
  }

  // ------------------------------------------------------ answers read ahead

  lemma {:induction false} IndexInTwo(a: seq<u8>, b: seq<u8>, c: u8)
    ensures IndexOf(a + b, c) == if IndexOf(a, c) < |a| then IndexOf(a, c) else |a| + IndexOf(b, c)
  {
    if a == [] {
      assert a + b == b;
    } else if a[0] != c {
      assert (a + b)[1..] == a[1..] + b;
      IndexInTwo(a[1..], b, c);
    }
  }

  // With characters read ahead, the sender still sends as often, and succeeds as
  // well, as if it were given all the answers of its peer.
  predicate AnswersCount(ahead: seq<u8>, input: seq<u8>) {
    var all, seen := IndexOf(ahead + input, PLUS), IndexOf(input, PLUS);
    all == seen && (all < |ahead + input| <==> seen < |input|)
  }

  // That is so if nothing was read ahead, or by the coincidence that both parts
  // hold their first plus sign at the same place.
  lemma AnswersCountExactly(ahead: seq<u8>, input: seq<u8>)
    ensures AnswersCount(ahead, input) <==>
            ahead == [] || (IndexOf(ahead, PLUS) < |ahead| && IndexOf(ahead, PLUS) == IndexOf(input, PLUS) < |input|)
  {
    IndexInTwo(ahead, input, PLUS);
    if ahead == [] { assert ahead + input == input; }
  }

  // Hence the sender can rely on it exactly when nothing was read ahead.
  lemma AnswersAlwaysCount(ahead: seq<u8>)
    ensures (forall input :: AnswersCount(ahead, input)) <==> ahead == []
  {
    if ahead == [] {
      forall input ensures AnswersCount(ahead, input) { AnswersCountExactly(ahead, input); }
    } else {
      AnswersCountExactly(ahead, []);
    }
  }

  // When one read brings a packet together with the answer to the next, the
  // packet is received, and the next one fails though it was acknowledged.
  method LostAnswer(request: seq<u8>, reply: seq<u8>) returns (got: seq<u8>, result: int)
    requires |Frame(CString(reply))| <= MAX_FRAME
    requires HASH !in request && (forall c | c in request :: c < 0x80) && |Frame(request)| < BUFSIZ
    ensures got == request && result == -1
  {
    FrameIsPlain(request);
    var arrived := Frame(request) + [PLUS];
    MaskedPlain(arrived);
    assert arrived == NoiseWire([]) + ([] + Frame(request) + [PLUS]);
    ReceivesThroughNoise([], [], request, [PLUS]);
    hide Frame, CString, Receive;
    var c := new Channel([]);
    c.ahead := arrived;
    assert c.Pending() == arrived;
    var length;
    length, got := c.GetPkt();
    assert Masked(c.Pending()) == [PLUS];
    result := c.PutPkt(reply);
  }
}

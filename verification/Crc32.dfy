// CRC-32: the table, the table-driven loop, and what the check sequence detects.
module Crc32 {

  const POLY: bv32 := 0xedb8_8320

  function Xor(x: bv32, y: bv32): bv32 { x ^ y }

  // ------------------------------------------- the polynomial, bit at a time

  // One turn of the shift register on one message bit.
  function FeedBit(c: bv32, bit: bv32): bv32 { if (c ^ bit) & 1 == 1 then POLY ^ (c >> 1) else c >> 1 }

  // The low `n` bits of a word, least significant first.
  function FeedBits(c: bv32, w: bv32, n: nat): bv32
    decreases n
  {
    if n == 0 then c else FeedBits(FeedBit(c, w & 1), w >> 1, n - 1)
  }

  // A message, byte after byte.
  function Feed(c: bv32, data: seq<bv8>): bv32
    decreases |data|
  {
    if data == [] then c else Feed(FeedBits(c, data[0] as bv32, 8), data[1..])
  }

  // ---------------------------------- the register without message bits

  function Shift(c: bv32): bv32 { if c & 1 == 1 then POLY ^ (c >> 1) else c >> 1 }

  function ShiftBy(c: bv32, n: nat): bv32
    decreases n
  {
    if n == 0 then c else ShiftBy(Shift(c), n - 1)
  }

  lemma ShiftLinear(x: bv32, y: bv32)
    ensures Shift(Xor(x, y)) == Xor(Shift(x), Shift(y))
  {
    assert (x ^ y) >> 1 == (x >> 1) ^ (y >> 1) && (x ^ y) & 1 == (x & 1) ^ (y & 1);
    ShiftCases(x);
    ShiftCases(y);
    ShiftCases(x ^ y);
    XorPoly(x >> 1, y >> 1);
    hide Shift;
  }

  lemma ShiftCases(x: bv32)
    ensures x & 1 == 1 ==> Shift(x) == POLY ^ (x >> 1)
    ensures x & 1 == 0 ==> Shift(x) == x >> 1
    ensures x & 1 == 0 || x & 1 == 1
  {}

  lemma XorPoly(u: bv32, v: bv32)
    ensures (POLY ^ u) ^ (POLY ^ v) == u ^ v
    ensures (POLY ^ u) ^ v == POLY ^ (u ^ v) && u ^ (POLY ^ v) == POLY ^ (u ^ v)
  {}

  lemma {:induction false} ShiftByLinear(x: bv32, y: bv32, n: nat)
    ensures ShiftBy(Xor(x, y), n) == Xor(ShiftBy(x, n), ShiftBy(y, n))
    decreases n
  {
    hide Shift, Xor;
    if n > 0 {
      ShiftLinear(x, y);
      ShiftByLinear(Shift(x), Shift(y), n - 1);
    }
  }

  // The register can be run backwards: its top bit tells the bit shifted out.
  lemma ShiftInjective(x: bv32, y: bv32)
    requires Shift(x) == Shift(y)
    ensures x == y
  {}

  lemma {:induction false} ShiftByInjective(x: bv32, y: bv32, n: nat)
    requires ShiftBy(x, n) == ShiftBy(y, n)
    ensures x == y
    decreases n
  {
    hide Shift;
    if n > 0 {
      ShiftByInjective(Shift(x), Shift(y), n - 1);
      ShiftInjective(x, y);
    }
  }

  lemma {:induction false} ShiftBySum(x: bv32, m: nat, n: nat)
    ensures ShiftBy(x, m + n) == ShiftBy(ShiftBy(x, m), n)
    decreases m
  {
    hide Shift;
    if m > 0 { ShiftBySum(Shift(x), m - 1, n); }
  }

  function Half(w: bv32): bv32 { w >> 1 }

  function Lsb(w: bv32): bv32 { w & 1 }

  function Drop(w: bv32, n: nat): bv32
    decreases n
  {
    if n == 0 then w else Drop(Half(w), n - 1)
  }

  lemma FeedBitIsShift(c: bv32, w: bv32)
    ensures Shift(Xor(c, w)) == Xor(FeedBit(c, Lsb(w)), Half(w))
  {
    assert (c ^ w) >> 1 == (c >> 1) ^ (w >> 1) && (c ^ (w & 1)) & 1 == (c ^ w) & 1;
    ShiftCases(c ^ w);
    XorPoly(c >> 1, w >> 1);
    hide Shift;
  }

  // Feeding the bits of `w` one by one is xoring them in first, then shifting;
  // bits not yet fed stay visible in the register.
  lemma {:induction false} FeedBitsIsShift(c: bv32, w: bv32, n: nat)
    ensures ShiftBy(Xor(c, w), n) == Xor(FeedBits(c, w, n), Drop(w, n))
    decreases n
  {
    FeedBitsStep(c, w, n);
    hide Shift, FeedBit, FeedBits, Half, Lsb, Xor;
    if n > 0 {
      FeedBitIsShift(c, w);
      FeedBitsIsShift(FeedBit(c, Lsb(w)), Half(w), n - 1);
    }
  }

  lemma FeedBitsStep(c: bv32, w: bv32, n: nat)
    ensures FeedBits(c, w, n) == if n == 0 then c else FeedBits(FeedBit(c, Lsb(w)), Half(w), n - 1)
  {
    hide FeedBit;
  }

  lemma DropEight(w: bv32)
    ensures Drop(w, 8) == w >> 8
  {
    var x := Half(Half(Half(Half(w))));
    assert Drop(w, 8) == Drop(x, 4) by { hide Half; DropFour(w, 4); }
    assert Drop(x, 4) == Drop(Half(Half(Half(Half(x)))), 0) by { hide Half; DropFour(x, 0); }
  }

  lemma DropFour(w: bv32, n: nat)
    ensures Drop(w, n + 4) == Drop(Half(Half(Half(Half(w)))), n)
  {
    hide Half;
    assert Drop(w, n + 4) == Drop(Half(w), n + 3);
    assert Drop(Half(w), n + 3) == Drop(Half(Half(w)), n + 2);
    assert Drop(Half(Half(w)), n + 2) == Drop(Half(Half(Half(w))), n + 1);
  }

  lemma XorZero(x: bv32)
    ensures Xor(x, 0) == x
  {}

  lemma FeedByte(c: bv32, w: bv32)
    requires w <= 0xff
    ensures FeedBits(c, w, 8) == ShiftBy(Xor(c, w), 8)
  {
    DropEight(w);
    assert w >> 8 == 0;
    hide FeedBits, ShiftBy, Drop, Xor;
    FeedBitsIsShift(c, w, 8);
    XorZero(FeedBits(c, w, 8));
  }

  // ------------------------------------------------------------- the table

  function TableEntry(n: bv32): bv32 { ShiftBy(n, 8) }

  function Quarter(z: bv32): bv32 { z >> 2 }

  predicate Even2(z: bv32) { z & 3 == 0 }

  function Low(x: bv32): bv32 { x & 0xff }

  function High(x: bv32): bv32 { x & 0xffff_ff00 }

  function Rest(x: bv32): bv32 { x >> 8 }

  lemma ShiftTwo(z: bv32, n: nat)
    requires Even2(z)
    ensures ShiftBy(z, n + 2) == ShiftBy(Quarter(z), n)
  {
    ShiftCases(z);
    ShiftCases(z >> 1);
    assert z & 1 == 0 && (z >> 1) & 1 == 0 && z >> 1 >> 1 == z >> 2;
    assert Shift(Shift(z)) == Quarter(z);
    hide Shift, Quarter;
    assert ShiftBy(z, n + 2) == ShiftBy(Shift(z), n + 1) == ShiftBy(Shift(Shift(z)), n);
  }

  lemma Quarters(z: bv32)
    requires z & 0xff == 0
    ensures Even2(z) && Even2(Quarter(z)) && Even2(Quarter(Quarter(z))) && Even2(Quarter(Quarter(Quarter(z))))
    ensures Quarter(Quarter(Quarter(Quarter(z)))) == Rest(z)
  {}

  lemma ShiftHigh(z: bv32)
    requires z & 0xff == 0
    ensures ShiftBy(z, 8) == Rest(z)
  {
    Quarters(z);
    hide Quarter, Even2, Rest, Shift;
    ShiftTwo(z, 6);
    ShiftTwo(Quarter(z), 4);
    ShiftTwo(Quarter(Quarter(z)), 2);
    ShiftTwo(Quarter(Quarter(Quarter(z))), 0);
  }

  lemma SplitLow(x: bv32)
    ensures x == Xor(Low(x), High(x)) && High(x) & 0xff == 0 && Rest(High(x)) == Rest(x)
  {}

  lemma ByteStaysLow(c: bv32, w: bv32)
    requires w <= 0xff
    ensures Rest(Xor(c, w)) == Rest(c)
  {}

  // One table lookup does eight turns of the register.
  lemma TableStep(c: bv32, w: bv32)
    requires w <= 0xff
    ensures FeedBits(c, w, 8) == Xor(TableEntry(Low(Xor(c, w))), Rest(c))
  {
    var x := Xor(c, w);
    SplitLow(x);
    ByteStaysLow(c, w);
    ShiftHigh(High(x));
    hide FeedBits, ShiftBy, Xor, Low, High, Rest;
    FeedByte(c, w);
    ShiftByLinear(Low(x), High(x), 8);
  }

  lemma IndexRoundTrip(x: bv32)
    ensures 0 <= Low(x) as int < 256 && (Low(x) as int) as bv32 == Low(x)
  {}

  class CrcTable {
    const table: array<bv32>

    ghost predicate Valid()
      reads table
    {
      table.Length == 256 && forall n | 0 <= n < 256 :: table[n] == TableEntry(n as bv32)
    }

    constructor ()
      ensures Valid() && fresh(table)
    {
      table := new bv32[256];
      new;
      hide TableEntry;
      var n := 0;
      while n < 256
        invariant 0 <= n <= 256
        invariant forall m | 0 <= m < n :: table[m] == TableEntry(m as bv32)
      {
        var c := ShiftOut(n as bv32);
        table[n] := c;
        n := n + 1;
      }
    }

    static method ShiftOut(n: bv32) returns (c: bv32)
      ensures c == TableEntry(n)
    {
      c := n;
      var k := 0;
      while k < 8
        invariant 0 <= k <= 8 && ShiftBy(c, 8 - k) == TableEntry(n)
      {
        if c & 1 != 0 {
          c := POLY ^ (c >> 1);
        } else {
          c := c >> 1;
        }
        k := k + 1;
      }
    }

    // Table driven, yet the same as feeding the message bit by bit.
    method Compute(accum: bv32, data: seq<bv8>) returns (crc: bv32)
      requires Valid()
      ensures crc == !Feed(accum, data)
    {
      hide Xor, Low, Rest, TableEntry, FeedBits;
      var c := accum;
      var n := 0;
      while n < |data|
        invariant 0 <= n <= |data| && Feed(c, data[n..]) == Feed(accum, data)
      {
        var w := data[n] as bv32;
        TableStep(c, w);
        IndexRoundTrip(Xor(c, w));
        c := Xor(table[Low(Xor(c, w)) as int], Rest(c));
        n := n + 1;
      }
      crc := !c;
    }
  }

  // ------------------------------------------------- what the code detects

  lemma {:induction false} FeedConcat(c: bv32, d: seq<bv8>, e: seq<bv8>)
    ensures Feed(c, d + e) == Feed(Feed(c, d), e)
    decreases |d|
  {
    hide FeedBits;
    if d == [] {
      assert d + e == e;
    } else {
      assert (d + e)[1..] == d[1..] + e;
      FeedConcat(FeedBits(c, d[0] as bv32, 8), d[1..], e);
    }
  }

  lemma XorCancel(c: bv32, x: bv32, y: bv32)
    requires Xor(c, x) == Xor(c, y) || Xor(x, c) == Xor(y, c)
    ensures x == y
  {}

  // Different registers stay different whatever is fed next.
  lemma {:induction false} FeedInjective(c: bv32, d: bv32, data: seq<bv8>)
    requires Feed(c, data) == Feed(d, data)
    ensures c == d
    decreases |data|
  {
    hide FeedBits, ShiftBy, Xor;
    if data != [] {
      var w := data[0] as bv32;
      FeedInjective(FeedBits(c, w, 8), FeedBits(d, w, 8), data[1..]);
      FeedByte(c, w);
      FeedByte(d, w);
      ShiftByInjective(Xor(c, w), Xor(d, w), 8);
      XorCancel(w, c, d);
    }
  }

  function Up(x: bv32): bv32 { x << 8 }

  // Up to four bytes as a little-endian word.
  function Pack(w: seq<bv8>): bv32
    decreases |w|
  {
    if w == [] then 0 else Xor(w[0] as bv32, Up(Pack(w[1..])))
  }

  // The word fits in its bytes.
  predicate Fits(p: bv32, n: nat) {
    (n == 0 ==> p == 0) && (n == 1 ==> p <= 0xff) && (n == 2 ==> p <= 0xffff) && (n == 3 ==> p <= 0xff_ffff)
  }

  lemma FitsStep(w: bv32, p: bv32, n: nat)
    requires w <= 0xff && Fits(p, n)
    ensures Fits(Xor(w, Up(p)), n + 1)
  {}

  lemma {:induction false} PackFits(w: seq<bv8>)
    ensures Fits(Pack(w), |w|)
    decreases |w|
  {
    hide Xor, Up, Fits;
    if w == [] {
      FitsZero();
    } else {
      PackFits(w[1..]);
      FitsStep(w[0] as bv32, Pack(w[1..]), |w| - 1);
    }
  }

  lemma FitsZero()
    ensures Fits(0, 0)
  {}

  lemma UpIsHigh(p: bv32, n: nat)
    requires Fits(p, n) && n <= 3
    ensures Up(p) & 0xff == 0 && Rest(Up(p)) == p
  {}

  lemma XorAssoc(x: bv32, y: bv32, z: bv32)
    ensures Xor(Xor(x, y), z) == Xor(x, Xor(y, z))
  {}

  // Feeding up to four bytes is xoring them in as one word, then shifting.
  lemma {:induction false} FeedPacked(c: bv32, w: seq<bv8>)
    requires |w| <= 4
    ensures Feed(c, w) == ShiftBy(Xor(c, Pack(w)), 8 * |w|)
    decreases |w|
  {
    if w == [] {
      XorZero(c);
    } else {
      PackFits(w[1..]);
      UpIsHigh(Pack(w[1..]), |w| - 1);
      FeedPackedStep(c, w);
    }
  }

  lemma FeedPackedStep(c: bv32, w: seq<bv8>)
    requires 0 < |w| <= 4
    requires Up(Pack(w[1..])) & 0xff == 0 && Rest(Up(Pack(w[1..]))) == Pack(w[1..])
    ensures Feed(c, w) == ShiftBy(Xor(c, Pack(w)), 8 * |w|)
    decreases |w|, 0
  {
    var b, p := w[0] as bv32, Pack(w[1..]);
    assert Pack(w) == Xor(b, Up(p));
    ShiftHigh(Up(p));
    hide FeedBits, ShiftBy, Xor, Up, Rest, Pack;
    FeedByte(c, b);
    FeedPacked(FeedBits(c, b, 8), w[1..]);
    ShiftByLinear(Xor(c, b), Up(p), 8);
    XorAssoc(c, b, Up(p));
    ShiftBySum(Xor(c, Pack(w)), 8, 8 * (|w| - 1));
  }

  // One byte below a word that leaves room for it.
  function Under(b: bv8, p: bv32): bv32 { Xor(b as bv32, Up(p)) }

  predicate Fits24(p: bv32) { p <= 0xff_ffff }

  lemma UnderInjective(w: bv8, p: bv32, v: bv8, q: bv32)
    requires Under(w, p) == Under(v, q) && Fits24(p) && Fits24(q)
    ensures w == v && p == q
  {}

  lemma PackIs(w: seq<bv8>)
    requires 0 < |w| <= 4
    ensures Pack(w) == Under(w[0], Pack(w[1..])) && Fits24(Pack(w[1..]))
  {
    hide Xor, Up;
    PackFits(w[1..]);
  }

  lemma FirstOfPack(w: seq<bv8>, v: seq<bv8>)
    requires 0 < |w| == |v| <= 4 && Pack(w) == Pack(v)
    ensures w[0] == v[0] && Pack(w[1..]) == Pack(v[1..])
  {
    hide Under, Fits24, Pack;
    PackIs(w);
    PackIs(v);
    UnderInjective(w[0], Pack(w[1..]), v[0], Pack(v[1..]));
  }

  lemma {:induction false} PackInjective(w: seq<bv8>, v: seq<bv8>)
    requires |w| == |v| <= 4 && Pack(w) == Pack(v)
    ensures w == v
    decreases |w|
  {
    hide Pack;
    if w != [] {
      FirstOfPack(w, v);
      PackInjective(w[1..], v[1..]);
      assert w == [w[0]] + w[1..] && v == [v[0]] + v[1..];
    }
  }

  // Any change confined to at most four consecutive bytes, hence any changed
  // byte, always changes the check value.
  lemma BurstDetected(accum: bv32, before: seq<bv8>, w: seq<bv8>, v: seq<bv8>, after: seq<bv8>)
    requires |w| == |v| <= 4 && w != v
    ensures Feed(accum, before + w + after) != Feed(accum, before + v + after)
  {
    hide ShiftBy, Xor, Feed;
    FeedConcat(accum, before + w, after);
    FeedConcat(accum, before + v, after);
    FeedConcat(accum, before, w);
    FeedConcat(accum, before, v);
    var c := Feed(accum, before);
    if Feed(accum, before + w + after) == Feed(accum, before + v + after) {
      FeedInjective(Feed(c, w), Feed(c, v), after);
      FeedPacked(c, w);
      FeedPacked(c, v);
      ShiftByInjective(Xor(c, Pack(w)), Xor(c, Pack(v)), 8 * |w|);
      XorCancel(c, Pack(w), Pack(v));
      PackInjective(w, v);
    }
  }

  // ------------------------------------------------------------- the residue

  // The check value as it goes on the wire, low byte first.
  function Fcs(crc: bv32): seq<bv8> {
    [(crc & 0xff) as bv8, ((crc >> 8) & 0xff) as bv8, ((crc >> 16) & 0xff) as bv8, (crc >> 24) as bv8]
  }

  const RESIDUE: bv32 := 0xdebb_20e3

  lemma FcsPacks(crc: bv32)
    ensures Pack(Fcs(crc)) == crc
  {
    FcsWord(crc);
    var f := Fcs(crc);
    hide Xor, Up;
    PackFour(f[0], f[1], f[2], f[3]);
  }

  lemma PackFour(a: bv8, b: bv8, c: bv8, d: bv8)
    ensures Pack([a, b, c, d]) == Xor(a as bv32, Up(Xor(b as bv32, Up(Xor(c as bv32, Up(Xor(d as bv32, Up(0))))))))
  {
    hide Xor, Up;
    assert [a, b, c, d][1..] == [b, c, d] && [b, c, d][1..] == [c, d] && [c, d][1..] == [d] && [d][1..] == [];
    assert Pack([d]) == Xor(d as bv32, Up(0));
    assert Pack([c, d]) == Xor(c as bv32, Up(Pack([d])));
    assert Pack([b, c, d]) == Xor(b as bv32, Up(Pack([c, d])));
  }

  lemma FcsWord(crc: bv32)
    ensures var f := Fcs(crc);
            Xor(f[0] as bv32, Up(Xor(f[1] as bv32, Up(Xor(f[2] as bv32, Up(Xor(f[3] as bv32, Up(0)))))))) == crc
  {}

  lemma Complement(c: bv32)
    ensures Xor(c, !c) == 0xffff_ffff
  {}

  // A message followed by its check value always leaves the same register.
  lemma ResidueConstant(data: seq<bv8>)
    ensures Feed(0xffff_ffff, data + Fcs(!Feed(0xffff_ffff, data))) == RESIDUE
  {
    hide ShiftBy, Xor, Feed, Fcs;
    var c := Feed(0xffff_ffff, data);
    FcsLength(!c);
    FeedConcat(0xffff_ffff, data, Fcs(!c));
    FcsPacks(!c);
    FeedPacked(c, Fcs(!c));
    Complement(c);
    AllOnes();
  }

  lemma FcsLength(crc: bv32)
    ensures |Fcs(crc)| == 4
  {}

  lemma AllOnes()
    ensures ShiftBy(0xffff_ffff, 32) == RESIDUE
  {
    Turns8(0xffff_ffff, 0x9247_7cdf, 0xa49b_3d4f, 0xbff5_1d87, 0xb242_0de3, 0xb499_85d1, 0xb7f4_41c8, 0x5bfa_20e4, 0x2dfd_1072);
    Turns8(0x2dfd_1072, 0x16fe_8839, 0xe6c7_c73c, 0x7363_e39e, 0x39b1_f1cf, 0xf160_7bc7, 0x9508_bec3, 0xa73c_dc41, 0xbe26_ed00);
    Turns8(0xbe26_ed00, 0x5f13_7680, 0x2f89_bb40, 0x17c4_dda0, 0x0be2_6ed0, 0x05f1_3768, 0x02f8_9bb4, 0x017c_4dda, 0x00be_26ed);
    Turns8(0x00be_26ed, 0xede7_9056, 0x76f3_c82b, 0xd6c1_6735, 0x86d8_30ba, 0x436c_185d, 0xcc0e_8f0e, 0x6607_4787, 0xdebb_20e3);
    hide ShiftBy;
    ShiftBySum(0xffff_ffff, 8, 24);
    ShiftBySum(0x2dfd_1072, 8, 16);
    ShiftBySum(0xbe26_ed00, 8, 8);
  }

  lemma Turns8(a: bv32, b: bv32, c: bv32, d: bv32, e: bv32, f: bv32, g: bv32, h: bv32, i: bv32)
    requires Shift(a) == b && Shift(b) == c && Shift(c) == d && Shift(d) == e
    requires Shift(e) == f && Shift(f) == g && Shift(g) == h && Shift(h) == i
    ensures ShiftBy(a, 8) == i
  {
    hide Shift;
    assert ShiftBy(a, 8) == ShiftBy(b, 7) == ShiftBy(c, 6) == ShiftBy(d, 5) == ShiftBy(e, 4);
    assert ShiftBy(e, 4) == ShiftBy(f, 3) == ShiftBy(g, 2) == ShiftBy(h, 1) == ShiftBy(i, 0);
  }
}

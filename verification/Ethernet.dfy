// Short Ethernet frames: the controller pads them to the minimum size and
// appends the frame check sequence of clause 3.2.9 of IEEE 802.3-2008.
module Ethernet {
  import opened Wrappers
  import opened Crc32

  const MIN_DATA: nat := 60
  const MIN_FRAME: nat := 64
  const MAX_FRAME: nat := 1518
  const TX_AREA: nat := 0x600
  const RX_AREA: nat := 0x5fc

  function Zeros(n: nat): seq<bv8> { seq(n, _ => 0) }

  function Pad(d: seq<bv8>): seq<bv8>
    requires |d| <= MIN_DATA
  {
    d + Zeros(MIN_DATA - |d|)
  }

  // The check sequence of a frame's data, and the register a receiver is left with.
  function Check(d: seq<bv8>): seq<bv8> { Fcs(!Feed(0xffff_ffff, d)) }

  predicate Passes(w: seq<bv8>) { Feed(0xffff_ffff, w) == RESIDUE }

  function WithFcs(d: seq<bv8>): seq<bv8> { d + Check(d) }

  lemma CheckLength(d: seq<bv8>)
    ensures |Check(d)| == 4
  {}

  lemma CheckPasses(d: seq<bv8>)
    ensures Passes(WithFcs(d))
  {
    hide Feed, Fcs;
    ResidueConstant(d);
  }

  // What goes on the wire for a frame the guest hands over.
  function OnWire(d: seq<bv8>, padDisabled: bool, inhibitCrc: bool): seq<bv8> {
    if |d| > MIN_DATA || padDisabled then d
    else if inhibitCrc then Pad(d)
    else WithFcs(Pad(d))
  }

  // What the guest receives for a frame from the wire.
  function Received(d: seq<bv8>): seq<bv8> {
    if |d| >= MIN_FRAME then d
    else if |d| <= MIN_DATA then WithFcs(Pad(d))
    else WithFcs(d[..MIN_DATA])
  }

  // ------------------------------------------------------------ receive filter

  datatype Filter = Filter(promiscuous: bool, broadcast: bool, multicast: bool, individual: bool)

  const ADDRESS: nat := 6

  predicate Broadcast(w: seq<bv8>)
    requires |w| >= ADDRESS
  {
    forall i | 0 <= i < ADDRESS :: w[i] == 0xff
  }

  // Frames for one address pass unless the filter asks for the chip's own.
  predicate Accepts(f: Filter, own: seq<bv8>, w: seq<bv8>)
    requires |w| >= ADDRESS
  {
    if f.promiscuous then true
    else if Broadcast(w) then f.broadcast
    else if w[0] & 1 == 1 then f.multicast
    else f.individual ==> w[..ADDRESS] == own
  }

  // A frame is not for this chip, too long for the code, or handed to the guest.
  datatype Reception = Ignored | Stopped | Delivered

  function Verdict(f: Filter, own: seq<bv8>, w: seq<bv8>): Reception
    requires |w| >= ADDRESS
  {
    if !Accepts(f, own, w) then Ignored else if |w| > MAX_FRAME then Stopped else Delivered
  }

  method FrameCheck(table: CrcTable, d: seq<bv8>) returns (f: seq<bv8>)
    requires table.Valid()
    ensures f == Check(d) && |f| == 4
  {
    hide Feed;
    var crc := table.Compute(0xffff_ffff, d);
    f := Fcs(crc);
  }

  method AppendFcs(table: CrcTable, a: array<bv8>, n: nat)
    requires table.Valid() && n + 4 <= a.Length && table.table as object != a
    modifies a
    ensures a[..n + 4] == WithFcs(old(a[..n]))
  {
    hide Check;
    ghost var d := a[..n];
    var f := FrameCheck(table, a[..n]);
    a[n], a[n + 1], a[n + 2], a[n + 3] := f[0], f[1], f[2], f[3];
    forall k | 0 <= k < n + 4 ensures a[k] == (d + f)[k] {}
    assert a[..n + 4] == d + f;
  }

  method Clear(a: array<bv8>, from: nat, to: nat)
    requires from <= to <= a.Length
    modifies a
    ensures a[..to] == old(a[..from]) + Zeros(to - from)
  {
    var i := from;
    while i < to
      invariant from <= i <= to
      invariant forall k | 0 <= k < a.Length :: a[k] == if from <= k < i then 0 else old(a[k])
    {
      a[i] := 0;
      i := i + 1;
    }
  }

  class Controller {
    const crc: CrcTable
    const frame: array<bv8>
    var txLength: nat
    var txOn: bool
    var padDisabled: bool
    var inhibitCrc: bool
    const received: array<bv8>
    var rxLength: nat
    var rxOn: bool
    var filter: Filter
    var own: seq<bv8>

    ghost predicate Valid()
      reads this, crc, crc.table
    {
      && crc.Valid() && frame.Length == TX_AREA && crc.table as object != frame && txLength <= TX_AREA
      && received.Length == RX_AREA && crc.table as object != received && received != frame
      && rxLength <= RX_AREA && |own| == ADDRESS
    }

    constructor ()
      ensures Valid()
    {
      crc := new CrcTable();
      frame := new bv8[TX_AREA];
      txLength, txOn, padDisabled, inhibitCrc := 0, false, false, false;
      received := new bv8[RX_AREA];
      rxLength, rxOn, filter, own := 0, false, Filter(false, false, false, false), [0, 0, 0, 0, 0, 0];
    }

    method Transmit() returns (sent: Option<seq<bv8>>)
      requires Valid()
      modifies this, frame
      ensures Valid()
      ensures sent ==
              if old(txOn) then Some(OnWire(old(frame[..txLength]), old(padDisabled), old(inhibitCrc))) else None
      ensures sent.Some? ==> txLength == |sent.value|
    {
      if !txOn {
        return None;
      }
      hide Check;
      ghost var d := frame[..txLength];
      var length := txLength;
      if length <= MIN_DATA && !padDisabled {
        Clear(frame, length, MIN_DATA);
        assert frame[..MIN_DATA] == Pad(d);
        length := MIN_DATA;
        if !inhibitCrc {
          CheckLength(Pad(d));
          AppendFcs(crc, frame, length);
          length := length + 4;
          assert frame[..length] == WithFcs(Pad(d));
        }
      }
      txLength := length;
      sent := Some(frame[..length]);
    }

    // Make a short packet a minimum frame, in a buffer that has room for one.
    method Complete(pkt: array<bv8>, length: nat) returns (realLength: nat)
      requires Valid() && pkt != frame && pkt != received && pkt as object != crc.table
      requires MIN_FRAME <= pkt.Length && length <= pkt.Length
      modifies pkt
      ensures Valid() && realLength <= pkt.Length && pkt[..realLength] == Received(old(pkt[..length]))
      ensures |Received(old(pkt[..length]))| >= MIN_FRAME
    {
      hide Check;
      realLength := length;
      if length < MIN_FRAME {
        ghost var d := pkt[..length];
        if length < MIN_DATA {
          Clear(pkt, length, MIN_DATA);
        }
        assert pkt[..MIN_DATA] == if length <= MIN_DATA then Pad(d) else d[..MIN_DATA];
        ghost var p := pkt[..MIN_DATA];
        CheckLength(p);
        AppendFcs(crc, pkt, MIN_DATA);
        realLength := MIN_FRAME;
        assert pkt[..MIN_FRAME] == WithFcs(p);
      }
    }

    method ForUs(pkt: array<bv8>) returns (r: bool)
      requires Valid() && pkt.Length >= ADDRESS
      ensures forall w | w <= pkt[..] && |w| >= ADDRESS :: r <==> Accepts(filter, own, w)
    {
      if filter.promiscuous {
        return true;
      }
      var ones := true;
      for i := 0 to ADDRESS
        invariant ones <==> forall k | 0 <= k < i :: pkt[k] == 0xff
      {
        ones := ones && pkt[i] == 0xff;
      }
      if ones {
        return filter.broadcast;
      }
      if pkt[0] & 1 == 1 {
        return filter.multicast;
      }
      return filter.individual ==> pkt[..ADDRESS] == own;
    }

    // The frame is completed before the filters look at it, so only its upper
    // length limit is left to check.
    method Receive(pkt: array<bv8>, length: nat) returns (r: Reception)
      requires Valid() && pkt != frame && pkt != received && pkt as object != crc.table
      requires MIN_FRAME <= pkt.Length && length <= pkt.Length
      modifies pkt, received, this`rxLength
      ensures Valid()
      ensures var w := Received(old(pkt[..length]));
              && (rxOn ==> |w| >= MIN_FRAME && r == Verdict(filter, own, w))
              && (!rxOn ==> r == Ignored)
              && (r.Delivered? ==> rxLength == |w| && received[..rxLength] == w)
              && (!r.Delivered? ==> rxLength == old(rxLength) && received[..] == old(received[..]))
    {
      if !rxOn {
        return Ignored;
      }
      var realLength := Complete(pkt, length);
      ghost var w := pkt[..realLength];
      var forUs := ForUs(pkt);
      assert forUs <==> Accepts(filter, own, w);
      if !forUs {
        return Ignored;
      }
      if realLength > MAX_FRAME {
        return Stopped;
      }
      forall i | 0 <= i < realLength {
        received[i] := pkt[i];
      }
      rxLength := realLength;
      assert received[..rxLength] == w;
      return Delivered;
    }
  }

  // Every padded short frame is a minimum frame that begins with the guest's
  // data and passes the receiver's check.
  lemma ShortFramesPassTheCheck(d: seq<bv8>)
    requires |d| <= MIN_DATA
    ensures var w := OnWire(d, false, false);
            |w| == MIN_FRAME && d <= w && Passes(w)
  {
    hide Check, Passes;
    CheckLength(Pad(d));
    CheckPasses(Pad(d));
  }

  // Longer frames and frames whose padding is off go out as they are; without a
  // check sequence the padded frame ends after 60 bytes.
  lemma OtherForms(d: seq<bv8>, padDisabled: bool, inhibitCrc: bool)
    ensures var w := OnWire(d, padDisabled, inhibitCrc);
            && (|d| > 60 || padDisabled ==> w == d)
            && (|d| <= 60 && !padDisabled && inhibitCrc ==>
                  |w| == 60 && d <= w && forall i | |d| <= i < 60 :: w[i] == 0)
            && (|d| <= 60 && !padDisabled && !inhibitCrc ==>
                  |w| == 64 && d <= w && forall i | |d| <= i < 60 :: w[i] == 0)
  {
    hide Check;
    if |d| <= 60 { CheckLength(Pad(d)); }
  }

  // Who may receive a frame, by the kind of its destination.
  lemma FilterDecides(f: Filter, own: seq<bv8>, w: seq<bv8>)
    requires |w| >= 6 && |own| == 6
    ensures var all := w[..6] == [0xff, 0xff, 0xff, 0xff, 0xff, 0xff];
            var group := w[0] as int % 2 == 1;
            Accepts(f, own, w) <==>
              || f.promiscuous
              || (all && f.broadcast)
              || (group && !all && f.multicast)
              || (!group && (f.individual ==> w[..6] == own))
    ensures Verdict(f, own, w) ==
            if !Accepts(f, own, w) then Ignored else if |w| > 1518 then Stopped else Delivered
  {
    LowBit(w[0]);
    if Broadcast(w) {
      assert forall i | 0 <= i < 6 :: w[..6][i] == w[i];
      assert w[..6] == [0xff, 0xff, 0xff, 0xff, 0xff, 0xff];
    } else if w[..6] == [0xff, 0xff, 0xff, 0xff, 0xff, 0xff] {
      assert forall i | 0 <= i < 6 :: w[i] == w[..6][i];
    }
  }

  lemma LowBit(b: bv8)
    ensures b & 1 == 1 <==> b as int % 2 == 1
  {
    assert b & 1 == b % 2;
    assert (b % 2) as int == b as int % 2;
  }

  // No burst of up to four bytes in such a frame goes unnoticed.
  lemma DamageIsNoticed(d: seq<bv8>, before: seq<bv8>, w: seq<bv8>, v: seq<bv8>, after: seq<bv8>)
    requires |d| <= MIN_DATA && OnWire(d, false, false) == before + w + after
    requires |w| == |v| <= 4 && w != v
    ensures !Passes(before + v + after)
  {
    hide Feed, Check, OnWire;
    ShortFramesPassTheCheck(d);
    BurstDetected(0xffff_ffff, before, w, v, after);
  }

  // Reception keeps the bytes of a frame unless it is 61 to 63 bytes long: the
  // check sequence then overwrites the bytes from 60 on.
  lemma ReceptionKeepsFrame(d: seq<bv8>)
    ensures d <= Received(d) <==>
            |d| <= MIN_DATA || |d| >= MIN_FRAME || d[MIN_DATA..] <= Check(d[..MIN_DATA])
  {
    hide Check;
    if MIN_DATA < |d| < MIN_FRAME {
      var f := Check(d[..MIN_DATA]);
      CheckLength(d[..MIN_DATA]);
      assert Received(d)[MIN_DATA..] == f;
      if d <= Received(d) {
        assert d[MIN_DATA..] == Received(d)[..|d|][MIN_DATA..];
      }
      assert d == d[..MIN_DATA] + d[MIN_DATA..];
    }
  }

  // What one guest sends another receives in the same form whatever the padding
  // bits say, and intact unless the frame is 61 to 63 bytes long.
  lemma GuestToGuest(d: seq<bv8>, padDisabled: bool, inhibitCrc: bool)
    ensures var r := Received(OnWire(d, padDisabled, inhibitCrc));
            && (|d| <= MIN_DATA ==> r == WithFcs(Pad(d)) && Passes(r))
            && (|d| >= MIN_FRAME ==> r == d)
            && (d <= r <==> |d| <= MIN_DATA || |d| >= MIN_FRAME || d[MIN_DATA..] <= Check(d[..MIN_DATA]))
  {
    hide Check, Passes;
    if |d| <= MIN_DATA {
      CheckLength(Pad(d));
      CheckPasses(Pad(d));
      assert Pad(Pad(d)) == Pad(d);
    } else {
      ReceptionKeepsFrame(d);
    }
  }
}

// The devices of a virtual machine: an intrusive list ordered by address, whose
// nodes are unhooked through a pointer to whatever points at them, beside a
// table of 64 slots.
module DeviceList {
  import opened Words

  const SLOTS: nat := 0x40

  // What a node's back pointer points at: nothing, the head of the list, or the
  // link field of another node.
  datatype Link = Unbound | FromHead | FromNode(prev: Vdevice)

  class Vdevice {
    const base: u32
    const len: u32
    const direct: bool
    const host: array<u8>
    var id: nat
    var next: Vdevice?
    var pprev: Link

    // A device that is memory has host memory of its own.
    constructor (base: u32, len: u32, direct: bool)
      ensures this.base == base && this.len == len && this.direct == direct && pprev == Unbound
      ensures fresh(host) && (direct ==> host.Length == len)
    {
      this.base, this.len, this.direct, id, next, pprev := base, len, direct, 0, null, Unbound;
      host := new u8[if direct then len else 0](_ => 0);
    }
  }

  predicate InPlace(ds: seq<Vdevice>, i: nat, j: nat)
    requires i < |ds| && j < |ds|
  {
    ds[i] != ds[j] && ds[i].base <= ds[j].base
  }

  // Distinct and in the order of their addresses.
  predicate InOrder(ds: seq<Vdevice>) { forall i, j | 0 <= i < j < |ds| :: InPlace(ds, i, j) }

  // Behind every device that starts no later.
  function Insert(ds: seq<Vdevice>, d: Vdevice): seq<Vdevice> {
    if ds == [] || ds[0].base > d.base then [d] + ds else [ds[0]] + Insert(ds[1..], d)
  }

  function Without(ds: seq<Vdevice>, d: Vdevice): seq<Vdevice> {
    if ds == [] then [] else if ds[0] == d then ds[1..] else [ds[0]] + Without(ds[1..], d)
  }

  function With(ds: seq<Vdevice>, d: Vdevice, k: nat): seq<Vdevice>
    requires k <= |ds|
  {
    ds[..k] + [d] + ds[k..]
  }

  function Dropped(ds: seq<Vdevice>, k: nat): seq<Vdevice>
    requires k < |ds|
  {
    ds[..k] + ds[k + 1..]
  }

  lemma {:induction false} InsertAt(ds: seq<Vdevice>, d: Vdevice, k: nat)
    requires k <= |ds| && (forall i | 0 <= i < k :: ds[i].base <= d.base) && (k < |ds| ==> ds[k].base > d.base)
    ensures Insert(ds, d) == With(ds, d, k)
  {
    if k > 0 {
      InsertAt(ds[1..], d, k - 1);
      assert [ds[0]] + (ds[1..][..k - 1] + [d] + ds[1..][k - 1..]) == ds[..k] + [d] + ds[k..];
    } else {
      assert ds[..0] + [d] + ds[0..] == [d] + ds;
    }
  }

  lemma {:induction false} WithoutAt(ds: seq<Vdevice>, k: nat)
    requires k < |ds| && ds[k] !in ds[..k]
    ensures Without(ds, ds[k]) == Dropped(ds, k)
  {
    if k > 0 {
      assert ds[0] == ds[..k][0] && ds[1..][..k - 1] == ds[..k][1..];
      WithoutAt(ds[1..], k - 1);
      assert [ds[0]] + (ds[1..][..k - 1] + ds[1..][k..]) == ds[..k] + ds[k + 1..];
    }
  }

  lemma InsertionKeepsPair(ds: seq<Vdevice>, d: Vdevice, k: nat, i: nat, j: nat)
    requires k <= |ds| && InOrder(ds) && d !in ds && i < j <= |ds|
    requires (forall i | 0 <= i < k :: ds[i].base <= d.base) && (k < |ds| ==> ds[k].base > d.base)
    ensures InPlace(With(ds, d, k), i, j)
  {
    var m, n := if i <= k then i else i - 1, if j <= k then j else j - 1;
    if i == k {
      assert k < n ==> InPlace(ds, k, n);
    } else if j != k {
      assert InPlace(ds, m, n);
    }
  }

  lemma InsertionKeepsOrder(ds: seq<Vdevice>, d: Vdevice, k: nat)
    requires k <= |ds| && InOrder(ds) && d !in ds
    requires (forall i | 0 <= i < k :: ds[i].base <= d.base) && (k < |ds| ==> ds[k].base > d.base)
    ensures InOrder(With(ds, d, k))
  {
    hide InPlace;
    forall i, j | 0 <= i < j < |ds| + 1 ensures InPlace(With(ds, d, k), i, j) {
      InsertionKeepsPair(ds, d, k, i, j);
    }
  }

  lemma InsertionAddsOne(ds: seq<Vdevice>, d: Vdevice, k: nat)
    requires k <= |ds|
    ensures forall e :: e in With(ds, d, k) <==> e in ds || e == d
  {
    assert ds == ds[..k] + ds[k..];
  }

  lemma RemovalKeepsPair(ds: seq<Vdevice>, k: nat, i: nat, j: nat)
    requires k < |ds| && InOrder(ds) && i < j < |ds| - 1
    ensures InPlace(Dropped(ds, k), i, j)
  {
    assert InPlace(ds, if i < k then i else i + 1, if j < k then j else j + 1);
  }

  lemma RemovalKeepsOrder(ds: seq<Vdevice>, k: nat)
    requires k < |ds| && InOrder(ds)
    ensures InOrder(Dropped(ds, k))
  {
    hide InPlace;
    forall i, j | 0 <= i < j < |ds| - 1 ensures InPlace(Dropped(ds, k), i, j) {
      RemovalKeepsPair(ds, k, i, j);
    }
  }

  lemma RemovalDropsOne(ds: seq<Vdevice>, k: nat)
    requires k < |ds| && InOrder(ds)
    ensures ds[k] !in ds[..k]
    ensures forall e :: e in Dropped(ds, k) <==> e in ds && e != ds[k]
  {
    assert ds == ds[..k] + [ds[k]] + ds[k + 1..];
    forall i | 0 <= i < |ds| && i != k ensures ds[i] != ds[k] {
      assert if i < k then InPlace(ds, i, k) else InPlace(ds, k, i);
    }
  }

  lemma {:induction false} WithoutAbsent(ds: seq<Vdevice>, d: Vdevice)
    requires d !in ds
    ensures Without(ds, d) == ds
  {
    if ds != [] { WithoutAbsent(ds[1..], d); }
  }

  function NextIn(ds: seq<Vdevice>, i: nat): Vdevice? {
    if i + 1 < |ds| then ds[i + 1] else null
  }

  function PrevIn(ds: seq<Vdevice>, i: nat): Link
    requires i <= |ds|
  {
    if i == 0 then FromHead else FromNode(ds[i - 1])
  }

  lemma {:induction false} UnbindUndoesBind(ds: seq<Vdevice>, d: Vdevice)
    requires d !in ds
    ensures Without(Insert(ds, d), d) == ds
  {
    if ds != [] && ds[0].base <= d.base { UnbindUndoesBind(ds[1..], d); }
  }

  predicate Owns(d: Vdevice, pa: u32) { pa >= d.base && pa - d.base < d.len }

  function First(ds: seq<Vdevice>, pa: u32): (r: Vdevice?)
    ensures r != null ==> r in ds && Owns(r, pa)
    ensures r == null ==> forall d | d in ds :: !Owns(d, pa)
  {
    if ds == [] then null else if Owns(ds[0], pa) then ds[0] else First(ds[1..], pa)
  }

  // The links around each node of a list with one device more, or one fewer.
  lemma LinksAfterInsert(ds: seq<Vdevice>, d: Vdevice, k: nat, i: nat)
    requires k <= |ds| && i <= |ds|
    ensures var after := With(ds, d, k);
            if i < k then
              after[i] == ds[i] && PrevIn(after, i) == PrevIn(ds, i) &&
              NextIn(after, i) == if i + 1 == k then d else NextIn(ds, i)
            else if i == k then
              after[i] == d && PrevIn(after, i) == PrevIn(ds, i) && NextIn(after, i) == if k < |ds| then ds[k] else null
            else
              after[i] == ds[i - 1] && NextIn(after, i) == NextIn(ds, i - 1) &&
              PrevIn(after, i) == if i == k + 1 then FromNode(d) else PrevIn(ds, i - 1)
  {
  }

  lemma LinksAfterRemoval(ds: seq<Vdevice>, k: nat, i: nat)
    requires k < |ds| && i + 1 < |ds|
    ensures var after := Dropped(ds, k);
            if i < k then
              after[i] == ds[i] && PrevIn(after, i) == PrevIn(ds, i) &&
              NextIn(after, i) == if i + 1 == k then NextIn(ds, k) else NextIn(ds, i)
            else
              after[i] == ds[i + 1] && NextIn(after, i) == NextIn(ds, i + 1) &&
              PrevIn(after, i) == if i == k then PrevIn(ds, k) else PrevIn(ds, i + 1)
  {
  }

  lemma Apart(ds: seq<Vdevice>, i: nat, j: nat)
    requires InOrder(ds) && i < |ds| && j < |ds| && i != j
    ensures ds[i] != ds[j]
  {
    assert if i < j then InPlace(ds, i, j) else InPlace(ds, j, i);
  }

  ghost predicate LinksOk(ds: seq<Vdevice>, i: nat)
    requires i < |ds|
    reads ds[i]
  {
    ds[i].next == NextIn(ds, i) && ds[i].pprev == PrevIn(ds, i)
  }

  class VirtualMachine {
    var devList: Vdevice?
    const devArray: array<Vdevice?>
    ghost var bound: seq<Vdevice>

    ghost predicate ListOk()
      reads this, bound
    {
      && InOrder(bound)
      && devList == (if bound == [] then null else bound[0])
      && forall i | 0 <= i < |bound| :: LinksOk(bound, i)
    }

    ghost predicate TableOk()
      reads this, bound`id, devArray
    {
      && devArray.Length == SLOTS
      && (forall d | d in bound :: d.id < SLOTS && devArray[d.id] == d)
      && (forall s | 0 <= s < SLOTS && devArray[s] != null :: devArray[s] in bound && devArray[s].id == s)
    }

    ghost predicate Valid()
      reads this, bound, devArray
    {
      ListOk() && TableOk()
    }

    constructor ()
      ensures Valid() && bound == [] && fresh(devArray)
    {
      devList, bound := null, [];
      devArray := new Vdevice?[SLOTS](_ => null);
    }

    method Lookup(pa: u32) returns (dev: Vdevice?)
      requires ListOk()
      ensures dev == First(bound, pa)
    {
      dev := devList;
      ghost var k := 0;
      while dev != null && !(pa >= dev.base && pa - dev.base < dev.len)
        invariant k <= |bound| && dev == (if k < |bound| then bound[k] else null)
        invariant First(bound[k..], pa) == First(bound, pa)
        decreases |bound| - k
      {
        assert LinksOk(bound, k);
        assert bound[k..][1..] == bound[k + 1..];
        dev, k := dev.next, k + 1;
      }
    }

    method FreeSlot() returns (i: nat)
      requires devArray.Length == SLOTS
      ensures i <= SLOTS && (forall s | 0 <= s < i :: devArray[s] != null) && (i < SLOTS ==> devArray[i] == null)
    {
      i := 0;
      while i < SLOTS && devArray[i] != null
        invariant i <= SLOTS && forall s | 0 <= s < i :: devArray[s] != null
      {
        i := i + 1;
      }
    }

    method Bind(dev: Vdevice) returns (ok: bool)
      requires Valid() && dev !in bound
      modifies this, bound`next, bound`pprev, dev, devArray
      ensures Valid() && (ok <==> exists s :: 0 <= s < SLOTS && old(devArray[s]) == null)
      ensures !ok ==> bound == old(bound) && devArray[..] == old(devArray[..])
      ensures ok ==> dev.id < SLOTS && old(devArray[..])[dev.id] == null
      ensures ok ==> devArray[..] == old(devArray[..])[dev.id := dev]
      ensures ok ==> bound == Insert(old(bound), dev)
    {
      var slot := FreeSlot();
      if slot == SLOTS {
        return false;
      }
      ok := true;
      devArray[slot] := dev;
      dev.id := slot;
      Hook(dev);
    }

    // Put a device into the list, in front of the first one that starts later.
    method Hook(dev: Vdevice)
      requires ListOk() && dev !in bound
      modifies this, bound`next, bound`pprev, dev`next, dev`pprev
      ensures ListOk() && bound == Insert(old(bound), dev) && forall d :: d in bound <==> d in old(bound) || d == dev
    {
      var cur, node := FromHead, devList;
      ghost var k := 0;
      while node != null && node.base <= dev.base
        invariant k <= |bound| && node == (if k < |bound| then bound[k] else null)
        invariant cur == PrevIn(bound, k)
        invariant forall i | 0 <= i < k :: bound[i].base <= dev.base
        decreases |bound| - k
      {
        assert LinksOk(bound, k);
        cur, node, k := FromNode(node), node.next, k + 1;
      }
      Splice(dev, cur, node, k);
    }

    method Splice(dev: Vdevice, cur: Link, node: Vdevice?, ghost k: nat)
      requires ListOk() && dev !in bound && k <= |bound| && node == (if k < |bound| then bound[k] else null)
      requires cur == PrevIn(bound, k)
      requires (forall i | 0 <= i < k :: bound[i].base <= dev.base) && (k < |bound| ==> bound[k].base > dev.base)
      modifies this, bound`next, bound`pprev, dev`next, dev`pprev
      ensures ListOk() && bound == Insert(old(bound), dev) && forall d :: d in bound <==> d in old(bound) || d == dev
    {
      hide InOrder, Insert;
      ghost var ds := bound;
      InsertAt(ds, dev, k);
      InsertionKeepsOrder(ds, dev, k);
      InsertionAddsOne(ds, dev, k);
      dev.next := node;
      if node != null {
        node.pprev := FromNode(dev);
      }
      dev.pprev := cur;
      if cur.FromNode? {
        cur.prev.next := dev;
      } else {
        devList := dev;
      }
      bound := With(ds, dev, k);
      forall i | 0 <= i < |bound| ensures LinksOk(bound, i) {
        LinksAfterInsert(ds, dev, k, i);
        hide PrevIn, NextIn;
        if i != k {
          ghost var j := if i < k then i else i - 1;
          assert old(LinksOk(ds, j));
          if k > 0 && j != k - 1 { Apart(ds, j, k - 1); }
          if j != k && k < |ds| { Apart(ds, j, k); }
        }
      }
    }

    method Unbind(dev: Vdevice) returns (ok: bool)
      requires Valid() && (dev !in bound ==> dev.pprev == Unbound)
      modifies this, bound`next, bound`pprev, devArray
      ensures Valid() && (ok <==> dev in old(bound))
      ensures bound == Without(old(bound), dev)
      ensures ok ==> dev.pprev == Unbound && devArray[..] == old(devArray[..])[dev.id := null]
      ensures !ok ==> devArray[..] == old(devArray[..])
    {
      if dev.pprev == Unbound {
        forall i | 0 <= i < |bound| ensures bound[i] != dev { assert LinksOk(bound, i); }
        WithoutAbsent(bound, dev);
        return false;
      }
      ok := true;
      Unhook(dev);
      var i := 0;
      while i < SLOTS
        invariant i <= dev.id && devArray[..] == old(devArray[..])
      {
        if devArray[i] == dev {
          devArray[i] := null;
          break;
        }
        i := i + 1;
      }
    }

    method Unhook(dev: Vdevice)
      requires ListOk() && dev in bound
      modifies this, bound`next, bound`pprev
      ensures ListOk() && bound == Without(old(bound), dev) && dev.pprev == Unbound
      ensures forall d :: d in bound <==> d in old(bound) && d != dev
    {
      ghost var k :| 0 <= k < |bound| && bound[k] == dev;
      assert LinksOk(bound, k);
      assert dev.pprev == FromHead ==> k == 0;
      hide InOrder, Without, PrevIn;
      ghost var ds := bound;
      RemovalKeepsOrder(ds, k);
      RemovalDropsOne(ds, k);
      WithoutAt(ds, k);
      if dev.pprev == FromHead {
        devList := dev.next;
      }
      CutOut(dev, ds, k);
      bound := Dropped(ds, k);
    }

    // The pointer surgery among the nodes.
    method CutOut(dev: Vdevice, ghost ds: seq<Vdevice>, ghost k: nat)
      requires k < |ds| && ds[k] == dev && InOrder(ds) && forall i | 0 <= i < |ds| :: LinksOk(ds, i)
      modifies ds`next, ds`pprev
      ensures dev.pprev == Unbound
      ensures forall i | 0 <= i < |ds| - 1 :: LinksOk(Dropped(ds, k), i)
    {
      assert LinksOk(ds, k);
      if dev.next != null {
        dev.next.pprev := dev.pprev;
      }
      if dev.pprev != FromHead {
        dev.pprev.prev.next := dev.next;
      }
      dev.next := null;
      dev.pprev := Unbound;
      hide InOrder;
      forall i | 0 <= i < |ds| - 1 ensures LinksOk(Dropped(ds, k), i) {
        LinksAfterRemoval(ds, k, i);
        ghost var j := if i < k then i else i + 1;
        assert old(LinksOk(ds, j));
        Apart(ds, j, k);
        if k > 0 && j != k - 1 { Apart(ds, j, k - 1); }
        if j != k + 1 && k + 1 < |ds| { Apart(ds, j, k + 1); }
      }
    }
  }
}

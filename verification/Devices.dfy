// How an access to a physical page reaches the device that owns it: a scan of
// the device list, an address packed with the slot number, and a table look-up.
module Devices {
  import opened Words
  import opened Wrappers
  import opened Machine
  import opened CpuModel
  import opened DeviceList

  function Value(d: Vdevice): Device
    reads d`id
  {
    Device(d.id, d.base, d.len, d.direct)
  }

  function Values(ds: seq<Vdevice>): (bus: seq<Device>)
    reads ds`id
    ensures |bus| == |ds| && forall i | 0 <= i < |ds| :: bus[i] == Value(ds[i])
  {
    if ds == [] then [] else [Value(ds[0])] + Values(ds[1..])
  }

  predicate AlignedDevice(d: Vdevice) {
    d.base % 0x1000 == 0 && d.len % 0x1000 == 0 && (!d.direct ==> d.len <= 0x400_0000)
  }

  predicate Aligned(ds: seq<Vdevice>) { forall d | d in ds :: AlignedDevice(d) }

  predicate Apart(d: Vdevice, e: Vdevice) { d.base + d.len <= e.base || e.base + e.len <= d.base }

  predicate Disjoint(ds: seq<Vdevice>) { forall d, e | d in ds && e in ds && d != e :: Apart(d, e) }

  // The list is the bus of the machine model.
  lemma {:induction false} ScanIsLookup(ds: seq<Vdevice>, pa: u32)
    ensures First(ds, pa) == null ==> DevLookup(Values(ds), pa) == None
    ensures First(ds, pa) != null ==> DevLookup(Values(ds), pa) == Some(Value(First(ds, pa)))
  {
    if ds != [] { ScanIsLookup(ds[1..], pa); }
  }

  // Binding and unbinding keep the devices aligned and apart, in any order.
  lemma BindKeepsApart(ds: seq<Vdevice>, d: Vdevice)
    requires Aligned(ds) && Disjoint(ds) && AlignedDevice(d) && forall e | e in ds :: Apart(d, e)
    ensures Aligned(Insert(ds, d)) && Disjoint(Insert(ds, d))
  {
    forall x | x in Insert(ds, d) ensures AlignedDevice(x) { InsertAdds(ds, d, x); }
    forall x, y | x in Insert(ds, d) && y in Insert(ds, d) && x != y ensures Apart(x, y) {
      InsertAdds(ds, d, x);
      InsertAdds(ds, d, y);
      assert x in ds && y == d ==> Apart(d, x);
    }
  }

  lemma {:induction false} InsertAdds(ds: seq<Vdevice>, d: Vdevice, e: Vdevice)
    ensures e in Insert(ds, d) <==> e == d || e in ds
  {
    if ds != [] && ds[0].base <= d.base { InsertAdds(ds[1..], d, e); }
  }

  lemma UnbindKeepsApart(ds: seq<Vdevice>, d: Vdevice)
    requires Aligned(ds) && Disjoint(ds)
    ensures Aligned(Without(ds, d)) && Disjoint(Without(ds, d))
  {
    WithoutOnlyDrops(ds, d);
  }

  lemma {:induction false} WithoutOnlyDrops(ds: seq<Vdevice>, d: Vdevice)
    ensures forall e :: e in Without(ds, d) ==> e in ds
  {
    if ds != [] && ds[0] != d { WithoutOnlyDrops(ds[1..], d); }
  }

  // The first device of the list to cover an address's page is its only owner.
  lemma OwnerIsFirst(ds: seq<Vdevice>, d: Vdevice, pa: u32)
    requires Aligned(ds) && Disjoint(ds) && d in ds && Owns(d, pa)
    ensures First(ds, Page(pa)) == d
  {
    assert AlignedDevice(d);
    assert Owns(d, Page(pa));
    var e := First(ds, Page(pa));
    assert d != e ==> Apart(d, e);
  }

  // The place the machine model gives an access, in terms of the list.
  lemma PlaceIsFirst(ds: seq<Vdevice>, pa: u32)
    ensures var d := First(ds, Page(pa));
            PlaceAt(Values(ds), Page(pa), pa % 0x1000) ==
            if d == null then Nowhere
            else if d.direct then InRam(HostPtr(d.id, pa - d.base))
            else InDevice(d.id, pa - d.base)
  {
    ScanIsLookup(ds, Page(pa));
  }

  method Dispatch(vm: VirtualMachine, pa: u32) returns (dev: Vdevice?, offset: int)
    requires vm.Valid() && Aligned(vm.bound)
    ensures dev == First(vm.bound, Page(pa)) && (dev != null ==> offset == pa - dev.base)
    ensures Disjoint(vm.bound) ==> forall d | d in vm.bound && Owns(d, pa) :: dev == d
    ensures PlaceAt(Values(vm.bound), Page(pa), pa % 0x1000) ==
            if dev == null then Nowhere
            else if dev.direct then InRam(HostPtr(dev.id, offset))
            else InDevice(dev.id, offset)
  {
    hide First, DevLookup, Disjoint, PlaceAt;
    PlaceIsFirst(vm.bound, pa);
    if Disjoint(vm.bound) {
      forall d | d in vm.bound && Owns(d, pa) ensures First(vm.bound, Page(pa)) == d { OwnerIsFirst(vm.bound, d, pa); }
    }
    var page := Page(pa);
    var found := vm.Lookup(page);
    if found == null {
      dev, offset := null, 0;
    } else if found.direct {
      dev, offset := found, page - found.base + pa % 0x1000;
    } else {
      dev, offset := CallThroughSlot(vm, found, page);
      offset := offset + pa % 0x1000;
    }
  }

  // The packed address survives the trip through the slow look-up.
  method CallThroughSlot(vm: VirtualMachine, found: Vdevice, page: u32) returns (dev: Vdevice, offset: int)
    requires vm.Valid() && Aligned(vm.bound) && found in vm.bound && !found.direct
    requires Owns(found, page) && page % 0x1000 == 0
    ensures dev == found && offset == page - found.base
  {
    ghost var bus := Values(vm.bound);
    BusFits(vm);
    ghost var i :| 0 <= i < |vm.bound| && vm.bound[i] == found;
    assert bus[i] == Value(found);
    hide BusOk, Pack, UnpackId, UnpackOffset;
    UnpackUndoesPack(bus, Value(found), page);
    var hpa := Pack(found.id, page - found.base);
    dev, offset := vm.devArray[UnpackId(hpa)], UnpackOffset(hpa);
  }

  // What the packed addresses of the memory system need of the bus.
  lemma BusFits(vm: VirtualMachine)
    requires vm.Valid() && Aligned(vm.bound)
    ensures BusOk(Values(vm.bound))
    ensures forall i, j | 0 <= i < j < |vm.bound| :: Values(vm.bound)[i].id != Values(vm.bound)[j].id
  {
    var bus := Values(vm.bound);
    forall d | d in bus && !d.direct ensures d.id < 0x40 && d.base % 0x1000 == 0 && d.len <= 0x400_0000 {
      var i :| 0 <= i < |bus| && bus[i] == d;
      assert vm.bound[i] in vm.bound;
    }
    forall i, j | 0 <= i < j < |bus| ensures bus[i].id != bus[j].id {
      assert vm.bound[i] in vm.bound && vm.bound[j] in vm.bound && InPlace(vm.bound, i, j);
    }
  }
}

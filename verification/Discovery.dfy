/** The client's `usb_find_devices` (src/usbnet.c): the received tree is written into the virtual bus
    list in place, reusing nodes, appending new ones and unlinking those left over. */
module Discovery {
  import opened Bytes
  import opened Protobase
  import opened DeviceTree
  import opened CProtocol
  import opened TreeParser
  import opened TreeReader
  import opened Framing
  import opened Opcodes
  import C = Cursor

  class UsbDevice {
    var filename: seq<byte>
    var devnum: byte
    var descriptor: Descriptor
    var config: seq<Config>
    var next: UsbDevice?
    var prev: UsbDevice?
    var bus: UsbBus?

    /** `malloc` and `memset`. */
    constructor ()
      ensures next == null && prev == null && bus == null
    {
      filename, devnum, config := [], 0, [];
      descriptor := Descriptor(0, 0, 0, 0, 0, 0, 0, 0, 0, 0, 0, 0, 0, 0);
      next, prev, bus := null, null, null;
    }

    /** The device as a value. Children pointers are never set. */
    function View(): Device
      reads this`filename, this`devnum, this`descriptor, this`config
    {
      Device(filename, devnum, descriptor, config, [])
    }
  }

  class UsbBus {
    var dirname: seq<byte>
    var location: u32
    var devices: UsbDevice?
    var next: UsbBus?
    var prev: UsbBus?

    constructor ()
      ensures devices == null && next == null && prev == null
    {
      dirname, location, devices, next, prev := [], 0, null, null, null;
    }
  }

  // ---- device lists ---------------------------------------------------------------------------

  /** `p` is the first node of `s`, or NULL. */
  ghost predicate Starts(p: UsbDevice?, s: seq<UsbDevice>) {
    p == if s == [] then null else s[0]
  }

  /** `s` is a NULL-terminated list of distinct devices of `bus`, linked both ways. */
  ghost predicate DeviceList(bus: UsbBus, s: seq<UsbDevice>)
    reads s`next, s`prev, s`bus
  {
    && (forall i, j | 0 <= i < j < |s| :: s[i] != s[j])
    && (forall i | 0 <= i < |s| :: s[i].bus == bus)
    && (forall i | 0 <= i < |s| - 1 :: s[i].next == s[i + 1] && s[i + 1].prev == s[i])
    && (s != [] ==> s[0].prev == null && s[|s| - 1].next == null)
  }

  /** One device: enter its block and fill the node. */
  method ReadDevice(it: Iterator, m: Machine, dev: UsbDevice)
    requires Ready(it)
    modifies it, dev`filename, dev`devnum, dev`descriptor, dev`config
    ensures Ready(it)
    ensures Read(dev.View(), it.State()) == OneDevice(it.Payload(), C.Enter(it.Payload(), old(it.State())), m)
  {
    hide C.Enter, C.Loaded, DeviceHead, Configs;
    C.StepsAdvance(it.Payload(), it.State());
    it.Enter();
    dev.filename, dev.devnum, dev.descriptor := ReadHeader(it, m);
    dev.config := ReadConfigs(it, m, dev.descriptor.bNumConfigurations);
  }

  /** The node for the next device: the one already linked behind `dev`, or a new one. `all` is the
      list hanging off `vdev` and `k` the number of its nodes used so far. */
  method NextDevice(rbus: UsbBus, vdev: UsbDevice, dev: UsbDevice, ghost all: seq<UsbDevice>, ghost k: nat)
      returns (node: UsbDevice, ghost all': seq<UsbDevice>)
    requires DeviceList(rbus, all) && k <= |all| && vdev !in all
    requires Starts(rbus.devices, all) && Starts(vdev.next, all)
    requires dev == if k == 0 then vdev else all[k - 1]
    modifies rbus`devices, dev`next
    ensures DeviceList(rbus, all') && k < |all'| && vdev !in all' && node == all'[k]
    ensures Starts(rbus.devices, all') && Starts(vdev.next, all')
    ensures if k < |all| then all' == all else all' == all + [node] && fresh(node)
    ensures k < |all| ==> rbus.devices == old(rbus.devices)
  {
    all' := all;
    assert k > 0 ==> all[k - 1] == dev && dev in all;
    assert dev.next == if k < |all| then all[k] else null;
    if dev.next == null {
      var added := new UsbDevice();
      added.bus := rbus;
      if dev != vdev { added.prev := dev; }
      dev.next := added;
      if rbus.devices == null { rbus.devices := added; }
      assert added.prev == if k > 0 then all[k - 1] else null;
      all' := all + [added];
      assert forall i | 0 <= i < |all| :: all'[i] == all[i];
    }
    node := dev.next;
  }

  /** Unlink whatever follows the last node used. */
  method DropDevices(bus: UsbBus, vdev: UsbDevice, dev: UsbDevice, ghost all: seq<UsbDevice>, ghost k: nat)
    requires DeviceList(bus, all) && k <= |all| && vdev !in all && Starts(vdev.next, all)
    requires dev == if k == 0 then vdev else all[k - 1]
    modifies dev`next
    ensures dev.next == null && DeviceList(bus, all[..k])
  {
    ghost var j := k;
    assert k > 0 ==> all[k - 1] == dev;
    while dev.next != null
      invariant k <= j <= |all| && dev.next == if j < |all| then all[j] else null
      invariant forall i | k <= i < |all| - 1 :: all[i].next == all[i + 1]
      invariant all != [] && k < |all| ==> all[|all| - 1].next == null
      decreases |all| - j
    {
      var ddev := dev.next;
      assert ddev == all[j] && dev != all[j];
      dev.next := ddev.next;
      j := j + 1;
    }
    assert forall i | 0 <= i < k :: all[..k][i] == all[i];
  }

  /** The type at hand says whether another device follows. */
  lemma {:induction false} DevicesStep(p: seq<byte>, c: C.Cursor, m: Machine, ds: seq<Device>, k: nat, end: C.Cursor)
    requires C.Loaded(p, c) && k <= |ds| && Devices(p, c, m) == Read(ds[k..], end)
    ensures c.ty == SEQUENCE_TYPE <==> k < |ds|
    ensures k < |ds| ==> (
      var inner := C.Enter(p, c);
      && C.Loaded(p, inner) && OneDevice(p, inner, m).value == ds[k]
      && Devices(p, OneDevice(p, inner, m).c, m) == Read(ds[k + 1..], end))
    ensures k == |ds| ==> c == end
  {
    hide OneDevice;
    if c.ty == SEQUENCE_TYPE {
      C.StepsAdvance(p, c);
      hide C.Enter, C.Loaded;
      assert ds[k..][1..] == ds[k + 1..];
    }
  }

  /** `all` is the old list `old`, extended by new nodes when `k` exceeds its length. */
  ghost predicate Extends<T>(all: seq<T>, before: seq<T>, k: nat) {
    before <= all && |all| == if k <= |before| then |before| else k
  }

  /** The first `k` nodes of the list `all` behind `vdev` hold the first `k` of the devices `ds`. */
  ghost predicate Filled(rbus: UsbBus, vdev: UsbDevice, dev: UsbDevice, all: seq<UsbDevice>, ds: seq<Device>, k: nat)
    reads rbus`devices, vdev`next, all
  {
    && DeviceList(rbus, all) && k <= |all| && k <= |ds|
    && vdev !in all && Starts(vdev.next, all) && Starts(rbus.devices, all)
    && dev == (if k == 0 then vdev else all[k - 1])
    && forall i | 0 <= i < k :: all[i].View() == ds[i]
  }

  /** The node linked in for the next device takes what is read; the others stay as they are. */
  method FillNode(it: Iterator, m: Machine, rbus: UsbBus, vdev: UsbDevice, node: UsbDevice, ghost all: seq<UsbDevice>,
                  ghost ds: seq<Device>, ghost k: nat)
    requires Ready(it) && k < |all| && k < |ds| && node == all[k]
    requires DeviceList(rbus, all) && vdev !in all && Starts(vdev.next, all) && Starts(rbus.devices, all)
    requires forall i | 0 <= i < k :: all[i].View() == ds[i]
    requires C.Loaded(it.Payload(), C.Enter(it.Payload(), it.State()))
    requires OneDevice(it.Payload(), C.Enter(it.Payload(), it.State()), m).value == ds[k]
    modifies it, node`filename, node`devnum, node`descriptor, node`config
    ensures Ready(it) && it.State() == OneDevice(it.Payload(), C.Enter(it.Payload(), old(it.State())), m).c
    ensures Filled(rbus, vdev, node, all, ds, k + 1)
  {
    hide OneDevice, C.Enter, C.Loaded;
    assert forall i | 0 <= i < k :: all[i] != node;
    ReadDevice(it, m, node);
  }

  /** One round of the device loop. */
  method ReadNext(it: Iterator, m: Machine, rbus: UsbBus, vdev: UsbDevice, dev: UsbDevice, ghost all: seq<UsbDevice>,
                  ghost ds: seq<Device>, ghost k: nat, ghost end: C.Cursor)
      returns (node: UsbDevice, ghost all': seq<UsbDevice>)
    requires Ready(it) && it.ty == SEQUENCE_TYPE
    requires Filled(rbus, vdev, dev, all, ds, k) && Devices(it.Payload(), it.State(), m) == Read(ds[k..], end)
    modifies it, rbus`devices, vdev`next, all
    ensures Ready(it) && k < |ds| && Devices(it.Payload(), it.State(), m) == Read(ds[k + 1..], end)
    ensures Filled(rbus, vdev, node, all', ds, k + 1)
    ensures if k < |all| then all' == all else all' == all + [node] && fresh(node)
  {
    ghost var p, c := it.Payload(), it.State();
    assert k > 0 ==> dev in all;
    DevicesStep(p, c, m, ds, k, end);
    hide OneDevice, Devices, C.Enter, C.Loaded;
    node, all' := NextDevice(rbus, vdev, dev, all, k);
    FillNode(it, m, rbus, vdev, node, all', ds, k);
  }

  /** The device loop. */
  method ReadAll(it: Iterator, m: Machine, rbus: UsbBus, vdev: UsbDevice, ghost before: seq<UsbDevice>,
                 ghost ds: seq<Device>, ghost end: C.Cursor)
      returns (dev: UsbDevice, ghost all: seq<UsbDevice>)
    requires Ready(it) && Devices(it.Payload(), it.State(), m) == Read(ds, end)
    requires Filled(rbus, vdev, vdev, before, ds, 0)
    modifies it, rbus`devices, vdev`next, before
    ensures Ready(it) && it.State() == end
    ensures Filled(rbus, vdev, dev, all, ds, |ds|) && Extends(all, before, |ds|)
    ensures forall i | |before| <= i < |all| :: fresh(all[i])
  {
    hide Devices, Filled, C.Loaded;
    ghost var p, k := it.Payload(), 0;
    dev, all := vdev, before;
    assert ds[0..] == ds;
    while it.ty == SEQUENCE_TYPE
      invariant Ready(it) && k <= |ds| && Devices(p, it.State(), m) == Read(ds[k..], end)
      invariant Filled(rbus, vdev, dev, all, ds, k) && Extends(all, before, k)
      invariant forall i | |before| <= i < |all| :: fresh(all[i])
      decreases |ds| - k
    {
      assert forall d <- all :: d in before || fresh(d);
      dev, all := ReadNext(it, m, rbus, vdev, dev, all, ds, k, end);
      k := k + 1;
    }
    DevicesStep(p, it.State(), m, ds, k, end);
  }

  /** What follows the last node used is unlinked; the devices read stay as they are. */
  method KeepDevices(rbus: UsbBus, vdev: UsbDevice, dev: UsbDevice, ghost all: seq<UsbDevice>, ghost ds: seq<Device>)
      returns (ghost nodes: seq<UsbDevice>)
    requires Filled(rbus, vdev, dev, all, ds, |ds|)
    modifies dev`next
    ensures nodes == all[..|ds|] && DeviceList(rbus, nodes)
    ensures forall i | 0 <= i < |ds| :: nodes[i].View() == ds[i]
  {
    DropDevices(rbus, vdev, dev, all, |ds|);
    nodes := all[..|ds|];
  }

  /** All devices of one bus. The devices received end up in a well-formed list that begins with the
      old nodes; the bus keeps pointing at its old first device, if it had any. */
  method ReadDevices(it: Iterator, m: Machine, rbus: UsbBus, ghost before: seq<UsbDevice>)
      returns (ghost nodes: seq<UsbDevice>)
    requires Ready(it) && DeviceList(rbus, before) && Starts(rbus.devices, before)
    modifies it, rbus`devices, before
    ensures Ready(it)
    ensures var r := Devices(it.Payload(), old(it.State()), m);
      && it.State() == r.c && DeviceList(rbus, nodes) && |nodes| == |r.value|
      && forall i | 0 <= i < |r.value| :: nodes[i].View() == r.value[i]
    ensures Reuses(nodes, before) && forall i | |before| <= i < |nodes| :: fresh(nodes[i])
    ensures rbus.devices == Pointer(before, nodes)
  {
    hide C.Loaded, Devices;
    ghost var r := Devices(it.Payload(), it.State(), m);
    var vdev := new UsbDevice();
    vdev.next := rbus.devices;
    ghost var all;
    var dev;
    dev, all := ReadAll(it, m, rbus, vdev, before, r.value, r.c);
    nodes := KeepDevices(rbus, vdev, dev, all, r.value);
  }

  // ---- bus lists ------------------------------------------------------------------------------

  /** `s` is a NULL-terminated list of distinct buses, linked both ways. */
  ghost predicate BusList(s: seq<UsbBus>)
    reads s`next, s`prev
  {
    && (forall i, j | 0 <= i < j < |s| :: s[i] != s[j])
    && (forall i | 0 <= i < |s| - 1 :: s[i].next == s[i + 1] && s[i + 1].prev == s[i])
    && (s != [] ==> s[|s| - 1].next == null)
  }

  ghost predicate StartsBus(p: UsbBus?, s: seq<UsbBus>) {
    p == if s == [] then null else s[0]
  }

  /** A bus of the list before the call: its device pointer leads to the list of its devices. */
  ghost predicate WasBus(b: UsbBus, nodes: seq<UsbDevice>)
    reads b`devices, nodes`next, nodes`prev, nodes`bus
  {
    DeviceList(b, nodes) && Starts(b.devices, nodes)
  }

  /** The bus node carries the received bus, and `nodes` are its devices. */
  ghost predicate Holds(b: UsbBus, nodes: seq<UsbDevice>, data: Bus)
    reads b`dirname, b`location, nodes
  {
    && b.dirname == data.dirname && b.location == data.location
    && DeviceList(b, nodes) && |nodes| == |data.devices|
    && forall i | 0 <= i < |nodes| :: nodes[i].View() == data.devices[i]
  }

  /** What the device pointer of a bus is after the call: it is only ever set while it is NULL. */
  ghost function Pointer(before: seq<UsbDevice>, nodes: seq<UsbDevice>): UsbDevice? {
    if before != [] then before[0] else if nodes != [] then nodes[0] else null
  }

  /** Nodes of the old list are used first. */
  ghost predicate Reuses<T>(nodes: seq<T>, before: seq<T>) {
    forall i | 0 <= i < |nodes| && i < |before| :: nodes[i] == before[i]
  }

  /** What the call leaves in a bus that had the devices `before`. */
  ghost predicate Done(b: UsbBus, nodes: seq<UsbDevice>, before: seq<UsbDevice>, data: Bus)
    reads b`dirname, b`location, b`devices, nodes
  {
    Holds(b, nodes, data) && Reuses(nodes, before) && b.devices == Pointer(before, nodes)
  }

  /** The devices of the `i`-th old bus, none past the old end. */
  function Before(olds: seq<seq<UsbDevice>>, i: nat): seq<UsbDevice> {
    if i < |olds| then olds[i] else []
  }

  /** Devices of different buses are different nodes. */
  lemma {:induction false} Apart(a: UsbBus, xs: seq<UsbDevice>, b: UsbBus, ys: seq<UsbDevice>)
    requires DeviceList(a, xs) && DeviceList(b, ys) && a != b
    ensures forall d <- xs :: d !in ys
  {
  }

  /** One bus: enter its block, fill the node, read its devices. */
  method ReadBus(it: Iterator, m: Machine, rbus: UsbBus, ghost before: seq<UsbDevice>)
      returns (ghost nodes: seq<UsbDevice>)
    requires Ready(it) && WasBus(rbus, before)
    modifies it, rbus`dirname, rbus`location, rbus`devices, before
    ensures Ready(it)
    ensures var (data, c) := BusAt(it.Payload(), old(it.State()), m);
      it.State() == c && Done(rbus, nodes, before, data)
    ensures forall i | |before| <= i < |nodes| :: fresh(nodes[i])
  {
    hide C.Enter, C.Next, C.Loaded, C.Value, AsUInt, CString, Devices;
    C.StepsAdvance(it.Payload(), it.State());
    it.Enter();
    C.StepsAdvance(it.Payload(), it.State());
    rbus.dirname := it.GetStr();
    C.StepsAdvance(it.Payload(), it.State());
    rbus.location := it.GetUInt();
    nodes := ReadDevices(it, m, rbus, before);
  }

  /** The bus in the block at hand. */
  ghost function BusAt(p: seq<byte>, c: C.Cursor, m: Machine): (Bus, C.Cursor)
    requires C.Loaded(p, c)
  {
    C.StepsAdvance(p, c);
    (OneBus(p, C.Enter(p, c), m).value, OneBus(p, C.Enter(p, c), m).c)
  }

  ghost function Nodes(devs: seq<seq<UsbDevice>>): (s: set<UsbDevice>)
    ensures forall i, d | 0 <= i < |devs| && d in devs[i] :: d in s
  {
    set i, d | 0 <= i < |devs| && d in devs[i] :: d
  }

  /** The first `k` buses are done with the devices `devs`; the rest are as they were. */
  ghost predicate Contents(all: seq<UsbBus>, devs: seq<seq<UsbDevice>>, olds: seq<seq<UsbDevice>>, tree: seq<Bus>,
                           k: nat)
    reads all`dirname, all`location, all`devices, Nodes(devs)
  {
    && |devs| == |all| && k <= |all| && k <= |tree|
    && (forall i | 0 <= i < k :: all[i] in all && Done(all[i], devs[i], Before(olds, i), tree[i]))
    && (forall i | k <= i < |all| :: all[i] in all && WasBus(all[i], devs[i]) && devs[i] == Before(olds, i))
  }

  /** The list `all` hangs off `vbus`, and `rbus` is the last of the `k` nodes used. */
  ghost predicate Linked(vbus: UsbBus, rbus: UsbBus, all: seq<UsbBus>, k: nat)
    reads vbus`next, all`next, all`prev
  {
    && BusList(all) && k <= |all| && vbus !in all && StartsBus(vbus.next, all)
    && rbus == if k == 0 then vbus else all[k - 1]
  }

  /** The node for the next bus: the one already linked behind `rbus`, or a new one. */
  method NextBus(vbus: UsbBus, rbus: UsbBus, ghost all: seq<UsbBus>, ghost k: nat)
      returns (node: UsbBus, ghost all': seq<UsbBus>)
    requires Linked(vbus, rbus, all, k)
    modifies rbus`next
    ensures Linked(vbus, node, all', k + 1)
    ensures if k < |all| then all' == all else all' == all + [node] && fresh(node) && node.devices == null
  {
    all' := all;
    assert k > 0 ==> all[k - 1] == rbus && rbus in all;
    assert rbus.next == if k < |all| then all[k] else null;
    if rbus.next == null {
      var nbus := new UsbBus();
      rbus.next := nbus;
      nbus.prev := rbus;
      all' := all + [nbus];
      assert forall i | 0 <= i < |all| :: all'[i] == all[i];
    }
    node := rbus.next;
  }

  lemma {:induction false} OthersApart(all: seq<UsbBus>, devs: seq<seq<UsbDevice>>, olds: seq<seq<UsbDevice>>,
                                       tree: seq<Bus>, k: nat)
    requires BusList(all) && Contents(all, devs, olds, tree, k) && k < |all|
    ensures WasBus(all[k], Before(olds, k))
    ensures forall i | 0 <= i < |all| && i != k :: all[i] != all[k] && forall d <- devs[i] :: d !in Before(olds, k)
  {
    forall i | 0 <= i < |all| && i != k ensures all[i] != all[k] && forall d <- devs[i] :: d !in Before(olds, k) {
      Apart(all[i], devs[i], all[k], devs[k]);
    }
  }

  lemma {:induction false} ContentsNext(all: seq<UsbBus>, devs: seq<seq<UsbDevice>>, olds: seq<seq<UsbDevice>>,
                                        tree: seq<Bus>, k: nat)
    requires |devs| == |all| && k < |all| && k < |tree|
    requires forall i | 0 <= i < k :: Done(all[i], devs[i], Before(olds, i), tree[i])
    requires Done(all[k], devs[k], Before(olds, k), tree[k])
    requires forall i | k < i < |all| :: WasBus(all[i], devs[i]) && devs[i] == Before(olds, i)
    ensures Contents(all, devs, olds, tree, k + 1)
  {
    hide Done, WasBus;
  }

  /** The `k`-th bus is read; the other buses and their devices stay as they are. */
  method ReadKthBus(it: Iterator, m: Machine, node: UsbBus,
                    ghost all: seq<UsbBus>, ghost devs: seq<seq<UsbDevice>>, ghost olds: seq<seq<UsbDevice>>,
                    ghost before: seq<UsbDevice>, ghost tree: seq<Bus>, ghost k: nat)
      returns (ghost devs': seq<seq<UsbDevice>>)
    requires Ready(it) && k < |tree| && k < |all| && node == all[k] && before == Before(olds, k)
    requires BusList(all) && Contents(all, devs, olds, tree, k)
    requires BusAt(it.Payload(), it.State(), m).0 == tree[k]
    modifies it, node`dirname, node`location, node`devices, before
    ensures Ready(it) && it.State() == BusAt(it.Payload(), old(it.State()), m).1
    ensures Contents(all, devs', olds, tree, k + 1)
    ensures |devs'| == |devs| && forall i | 0 <= i < |devs| && i != k :: devs'[i] == devs[i]
    ensures forall j | |before| <= j < |devs'[k]| :: fresh(devs'[k][j])
  {
    hide BusAt, C.Loaded, BusList, Before;
    OthersApart(all, devs, olds, tree, k);
    label Start:
    ghost var nodes := ReadBus(it, m, node, before);
    devs' := devs[k := nodes];
    forall i | 0 <= i < k ensures Done(all[i], devs'[i], Before(olds, i), tree[i]) {
      assert devs'[i] == devs[i] && all[i] != node;
      assert Done(all[i], devs'[i], Before(olds, i), tree[i])
          == old@Start(Done(all[i], devs[i], Before(olds, i), tree[i]));
    }
    forall i | k < i < |all| ensures WasBus(all[i], devs'[i]) && devs'[i] == Before(olds, i) {
      assert devs'[i] == devs[i] && all[i] != node;
      assert WasBus(all[i], devs'[i]) == old@Start(WasBus(all[i], devs[i]));
    }
    hide Done, WasBus;
    ContentsNext(all, devs', olds, tree, k);
    hide Contents;
  }

  /** The next node is linked in; nothing any bus holds changes. */
  method AddBusNode(vbus: UsbBus, rbus: UsbBus, ghost all: seq<UsbBus>, ghost devs: seq<seq<UsbDevice>>,
                    ghost olds: seq<seq<UsbDevice>>, ghost tree: seq<Bus>, ghost k: nat)
      returns (node: UsbBus, ghost all': seq<UsbBus>, ghost devs': seq<seq<UsbDevice>>)
    requires Linked(vbus, rbus, all, k) && Contents(all, devs, olds, tree, k) && |olds| <= |all|
    modifies rbus`next
    ensures Linked(vbus, node, all', k + 1) && Contents(all', devs', olds, tree, k)
    ensures if k < |all| then all' == all else all' == all + [node] && fresh(node)
    ensures devs <= devs' && |devs'| == |all'|
  {
    hide Linked, BusList, Done, WasBus, Before;
    node, all' := NextBus(vbus, rbus, all, k);
    devs' := devs;
    assert Contents(all, devs, olds, tree, k) == old(Contents(all, devs, olds, tree, k));
    if k == |all| {
      hide Contents;
      FreshBus(node);
      ContentsAppend(all, devs, olds, tree, k, node);
      devs' := devs + [[]];
    }
    hide Contents;
  }

  lemma {:induction false} FreshBus(b: UsbBus)
    requires b.devices == null
    ensures WasBus(b, [])
  {
  }

  lemma {:induction false} ContentsAppend(all: seq<UsbBus>, devs: seq<seq<UsbDevice>>, olds: seq<seq<UsbDevice>>,
                                          tree: seq<Bus>, k: nat, node: UsbBus)
    requires Contents(all, devs, olds, tree, k) && WasBus(node, []) && |olds| <= |all|
    ensures Contents(all + [node], devs + [[]], olds, tree, k)
  {
    hide Done, WasBus;
  }

  /** The type at hand says what the next round of the bus loop does. */
  lemma {:induction false} BussesStep(p: seq<byte>, c: C.Cursor, m: Machine, tree: seq<Bus>, k: nat, end: C.Cursor)
    requires C.Loaded(p, c) && k <= |tree| && Busses(p, c, m) == Read(tree[k..], end)
    ensures c.cur >= |p| ==> k == |tree| && c == end
    ensures c.cur < |p| && c.ty == STRUCTURE_TYPE ==> (
      var (data, c') := BusAt(p, c, m);
      k < |tree| && data == tree[k] && C.Loaded(p, c') && Busses(p, c', m) == Read(tree[k + 1..], end))
    ensures c.cur < |p| && c.ty != STRUCTURE_TYPE ==>
      C.Loaded(p, C.Next(p, c)) && Busses(p, C.Next(p, c), m) == Read(tree[k..], end)
    ensures c.cur < |p| ==> c.cur < C.Next(p, c).cur && c.cur < BusAt(p, c, m).1.cur
  {
    hide OneBus;
    C.StepsAdvance(p, c);
    if c.cur < |p| && c.ty == STRUCTURE_TYPE {
      hide C.Enter, C.Next, C.Loaded;
      assert tree[k..][1..] == tree[k + 1..];
    }
  }

  /** One round of the bus loop that finds a bus. */
  method ReadNextBus(it: Iterator, m: Machine, vbus: UsbBus, rbus: UsbBus, ghost all: seq<UsbBus>,
                     ghost devs: seq<seq<UsbDevice>>, ghost olds: seq<seq<UsbDevice>>, ghost pool: set<UsbDevice>,
                     ghost tree: seq<Bus>, ghost k: nat)
      returns (node: UsbBus, ghost all': seq<UsbBus>, ghost devs': seq<seq<UsbDevice>>)
    requires Ready(it) && k < |tree| && |olds| <= |all| == |devs| && Nodes(olds) <= pool
    requires Linked(vbus, rbus, all, k) && Contents(all, devs, olds, tree, k)
    requires BusAt(it.Payload(), it.State(), m).0 == tree[k]
    modifies it, vbus`next, all, pool
    ensures Ready(it) && it.State() == BusAt(it.Payload(), old(it.State()), m).1
    ensures Linked(vbus, node, all', k + 1) && Contents(all', devs', olds, tree, k + 1)
    ensures if k < |all| then all' == all else all' == all + [node] && fresh(node)
    ensures |devs'| == |all'| && forall i | 0 <= i < k :: devs'[i] == devs[i]
    ensures forall j | |Before(olds, k)| <= j < |devs'[k]| :: fresh(devs'[k][j])
  {
    hide BusAt, C.Loaded, Before, Contents;
    BeforeInPool(olds, k);
    assert rbus == vbus || rbus in all;
    node, all', devs' := AddBusNode(vbus, rbus, all, devs, olds, tree, k);
    devs' := ReadKthBus(it, m, node, all', devs', olds, Before(olds, k), tree, k);
  }

  /** Unlink the buses behind the last one used. */
  method DropBusses(vbus: UsbBus, rbus: UsbBus, ghost all: seq<UsbBus>, ghost k: nat)
    requires Linked(vbus, rbus, all, k)
    modifies rbus`next
    ensures BusList(all[..k]) && StartsBus(vbus.next, all[..k])
  {
    ghost var j := k;
    assert k > 0 ==> all[k - 1] == rbus;
    while rbus.next != null
      invariant k <= j <= |all| && rbus.next == if j < |all| then all[j] else null
      invariant forall i | k <= i < |all| - 1 :: all[i].next == all[i + 1]
      invariant all != [] && k < |all| ==> all[|all| - 1].next == null
      decreases |all| - j
    {
      var bus := rbus.next;
      assert bus == all[j] && rbus != all[j];
      rbus.next := bus.next;
      j := j + 1;
    }
    assert forall i | 0 <= i < k :: all[..k][i] == all[i];
  }

  /** The device nodes beyond those of the old list are new. */
  twostate predicate NewBeyond(olds: seq<seq<UsbDevice>>, new devs: seq<seq<UsbDevice>>, k: nat)
    requires k <= |devs|
  {
    forall i, j | 0 <= i < k && |Before(olds, i)| <= j < |devs[i]| :: fresh(devs[i][j])
  }

  /** An item that is no bus; the lists stay as they are. */
  method SkipItem(it: Iterator, vbus: UsbBus, rbus: UsbBus, ghost all: seq<UsbBus>, ghost devs: seq<seq<UsbDevice>>,
                  ghost olds: seq<seq<UsbDevice>>, ghost tree: seq<Bus>, ghost k: nat)
    requires it.Valid() && Linked(vbus, rbus, all, k) && Contents(all, devs, olds, tree, k)
    modifies it
    ensures it.State() == C.Next(it.Payload(), old(it.State()))
    ensures Linked(vbus, rbus, all, k) && Contents(all, devs, olds, tree, k)
  {
    hide BusList, Done, WasBus, Before;
    it.Next();
    assert Contents(all, devs, olds, tree, k) == old(Contents(all, devs, olds, tree, k));
    assert Linked(vbus, rbus, all, k) == old(Linked(vbus, rbus, all, k));
  }

  /** The bus loop. Items other than buses are stepped over. */
  method ReadBusses(it: Iterator, m: Machine, vbus: UsbBus, ghost before: seq<UsbBus>, ghost olds: seq<seq<UsbDevice>>,
                    ghost pool: set<UsbDevice>, ghost tree: seq<Bus>)
      returns (rbus: UsbBus, ghost all: seq<UsbBus>, ghost devs: seq<seq<UsbDevice>>)
    requires Ready(it) && tree == Busses(it.Payload(), it.State(), m).value
    requires Linked(vbus, vbus, before, 0) && Contents(before, olds, olds, tree, 0) && |olds| == |before|
    requires Nodes(olds) <= pool
    modifies it, vbus`next, before, pool
    ensures Linked(vbus, rbus, all, |tree|) && Contents(all, devs, olds, tree, |tree|)
    ensures Extends(all, before, |tree|) && |devs| == |all|
    ensures forall i | |before| <= i < |all| :: fresh(all[i])
    ensures |tree| <= |devs| && NewBeyond(olds, devs, |tree|)
    ensures rbus == vbus || rbus in before || fresh(rbus)
    ensures it.End()
  {
    hide Busses, BusAt, C.Loaded, C.Next, Contents, Linked, Before;
    rbus, all, devs := vbus, before, olds;
    ghost var p, end, k := it.Payload(), Busses(it.Payload(), it.State(), m).c, 0;
    assert tree[0..] == tree;
    while !it.End()
      invariant Ready(it) && k <= |tree| && Busses(p, it.State(), m) == Read(tree[k..], end)
      invariant Linked(vbus, rbus, all, k) && Contents(all, devs, olds, tree, k)
      invariant Extends(all, before, k) && |devs| == |all|
      invariant forall i | |before| <= i < |all| :: fresh(all[i])
      invariant NewBeyond(olds, devs, k)
      decreases |p| - it.cur
    {
      BussesStep(p, it.State(), m, tree, k, end);
      if it.ty == STRUCTURE_TYPE {
        assert forall b <- all :: b in before || fresh(b);
        rbus, all, devs := ReadNextBus(it, m, vbus, rbus, all, devs, olds, pool, tree, k);
        k := k + 1;
      } else {
        SkipItem(it, vbus, rbus, all, devs, olds, tree, k);
      }
    }
    BussesStep(p, it.State(), m, tree, k, end);
    LastUsed(vbus, rbus, all, k);
    assert forall b <- all :: b in before || fresh(b);
  }

  lemma {:induction false} BeforeInPool(olds: seq<seq<UsbDevice>>, k: nat)
    ensures forall d <- Before(olds, k) :: d in Nodes(olds)
  {
  }

  /** The virtual bus list at `p`: buses `busses`, the `i`-th with the devices `devs[i]`. */
  ghost predicate VirtualBus(p: UsbBus?, busses: seq<UsbBus>, devs: seq<seq<UsbDevice>>)
    reads busses, Nodes(devs)
  {
    && BusList(busses) && StartsBus(p, busses) && |devs| == |busses|
    && forall i | 0 <= i < |busses| :: busses[i] in busses && WasBus(busses[i], devs[i])
  }

  lemma {:induction false} NothingDone(p: UsbBus?, before: seq<UsbBus>, olds: seq<seq<UsbDevice>>, tree: seq<Bus>)
    requires VirtualBus(p, before, olds)
    ensures Contents(before, olds, olds, tree, 0)
  {
    hide BusList, WasBus;
  }

  /** The list after the call: the received buses in order, each with nodes that hold its devices. */
  ghost predicate Reconciled(head: UsbBus?, busses: seq<UsbBus>, devs: seq<seq<UsbDevice>>,
                             before: seq<UsbBus>, olds: seq<seq<UsbDevice>>, tree: seq<Bus>)
    reads busses, Nodes(devs)
  {
    && BusList(busses) && StartsBus(head, busses) && |busses| == |devs| == |tree|
    && Reuses(busses, before)
    && forall i | 0 <= i < |tree| :: busses[i] in busses && Done(busses[i], devs[i], Before(olds, i), tree[i])
  }

  /** The buses of the reply, from the first item behind the number of changes on. */
  method Reconcile(it: Iterator, m: Machine, remoteBus: UsbBus?, ghost before: seq<UsbBus>,
                   ghost olds: seq<seq<UsbDevice>>,
                   ghost pool: set<UsbDevice>)
      returns (head: UsbBus?, ghost busses: seq<UsbBus>, ghost devs: seq<seq<UsbDevice>>)
    requires Ready(it) && VirtualBus(remoteBus, before, olds) && Nodes(olds) <= pool
    modifies it, before, pool
    ensures var tree := Busses(it.Payload(), old(it.State()), m).value;
      && Reconciled(head, busses, devs, before, olds, tree)
      && (forall i | |before| <= i < |tree| :: fresh(busses[i]))
      && NewBeyond(olds, devs, |tree|)
    ensures it.End()
  {
    hide C.Loaded, Busses, Done, WasBus, VirtualBus, Contents, Linked, BusList;
    ghost var tree := Busses(it.Payload(), it.State(), m).value;
    var vbus := Anchor(remoteBus, before, olds, tree);
    ghost var all;
    var rbus;
    rbus, all, devs := ReadBusses(it, m, vbus, before, olds, pool, tree);
    head := CutBusses(vbus, rbus, all, devs, olds, tree);
    busses := all[..|tree|];
    devs := devs[..|tree|];
  }

  /** The local bus in front of the list, so that every node has one before it. */
  method Anchor(remoteBus: UsbBus?, ghost before: seq<UsbBus>, ghost olds: seq<seq<UsbDevice>>, ghost tree: seq<Bus>)
      returns (vbus: UsbBus)
    requires VirtualBus(remoteBus, before, olds)
    ensures fresh(vbus) && |olds| == |before|
    ensures Linked(vbus, vbus, before, 0) && Contents(before, olds, olds, tree, 0)
  {
    hide WasBus, Done;
    vbus := new UsbBus();
    vbus.next := remoteBus;
    assert VirtualBus(remoteBus, before, olds) == old(VirtualBus(remoteBus, before, olds));
    NothingDone(remoteBus, before, olds, tree);
    hide Contents;
  }

  /** Unlink surplus buses; what the others hold is not touched. */
  method CutBusses(vbus: UsbBus, rbus: UsbBus, ghost all: seq<UsbBus>, ghost devs: seq<seq<UsbDevice>>,
                   ghost olds: seq<seq<UsbDevice>>, ghost tree: seq<Bus>)
      returns (head: UsbBus?)
    requires Linked(vbus, rbus, all, |tree|) && Contents(all, devs, olds, tree, |tree|)
    modifies rbus`next
    ensures BusList(all[..|tree|]) && StartsBus(head, all[..|tree|])
    ensures |devs| == |all| >= |tree|
    ensures forall i | 0 <= i < |tree| :: Done(all[i], devs[i], Before(olds, i), tree[i])
  {
    hide BusList, Linked;
    ContentsDone(all, devs, olds, tree);
    hide Contents;
    DropBusses(vbus, rbus, all, |tree|);
    head := vbus.next;
    forall i | 0 <= i < |tree| ensures Done(all[i], devs[i], Before(olds, i), tree[i]) {
      assert Done(all[i], devs[i], Before(olds, i), tree[i]) == old(Done(all[i], devs[i], Before(olds, i), tree[i]));
    }
    hide Done;
  }

  lemma {:induction false} ContentsDone(all: seq<UsbBus>, devs: seq<seq<UsbDevice>>, olds: seq<seq<UsbDevice>>,
                                        tree: seq<Bus>)
    requires Contents(all, devs, olds, tree, |tree|)
    ensures |devs| == |all| >= |tree|
    ensures forall i | 0 <= i < |tree| :: Done(all[i], devs[i], Before(olds, i), tree[i])
  {
    hide Done, WasBus;
  }

  lemma {:induction false} LastUsed(vbus: UsbBus, rbus: UsbBus, all: seq<UsbBus>, k: nat)
    requires Linked(vbus, rbus, all, k)
    ensures rbus == vbus || rbus in all
  {
  }

  /** A bus shows exactly its devices, unless it had some and has received none: then its pointer
      still leads to the first of the nodes that were unlinked. */
  lemma {:induction false} PointerIsRight(b: UsbBus, nodes: seq<UsbDevice>, before: seq<UsbDevice>, data: Bus)
    requires Done(b, nodes, before, data)
    ensures WasBus(b, nodes) <==> before == [] || data.devices != []
  {
  }

  /** The result is again a virtual bus list, fit for the next call, exactly when no bus that had
      devices has received none. */
  lemma {:induction false} ListStaysValid(head: UsbBus?, busses: seq<UsbBus>, devs: seq<seq<UsbDevice>>,
                                          before: seq<UsbBus>, olds: seq<seq<UsbDevice>>, tree: seq<Bus>)
    requires Reconciled(head, busses, devs, before, olds, tree)
    ensures VirtualBus(head, busses, devs) <==>
            forall i | 0 <= i < |tree| :: Before(olds, i) == [] || tree[i].devices != []
  {
    forall i | 0 <= i < |tree|
      ensures WasBus(busses[i], devs[i]) <==> Before(olds, i) == [] || tree[i].devices != []
    {
      PointerIsRight(busses[i], devs[i], Before(olds, i), tree[i]);
    }
    hide WasBus, Done, BusList, Before;
  }

  /** What `usb_find_devices` does with a reply once it has arrived, whatever it holds. */
  method ReadReply(pkt: CProtocol.Packet, m: Machine, remoteBus: UsbBus?, ghost before: seq<UsbBus>,
                   ghost olds: seq<seq<UsbDevice>>, ghost pool: set<UsbDevice>)
      returns (res: i32, head: UsbBus?, ghost busses: seq<UsbBus>, ghost devs: seq<seq<UsbDevice>>)
    requires pkt.Valid() && VirtualBus(remoteBus, before, olds) && Nodes(olds) <= pool
    modifies before, pool
    ensures var reply := ParseReply(pkt.Payload(), m);
      && res == reply.changes && Reconciled(head, busses, devs, before, olds, reply.busses)
      && (forall i | |before| <= i < |reply.busses| :: fresh(busses[i]))
      && NewBeyond(olds, devs, |reply.busses|)
  {
    hide Busses, Reconciled, AsInt, C.Value, C.Next, C.Loaded;
    var it := new Iterator.Begin(pkt);
    C.BeginLoaded(it.Payload());
    C.StepsAdvance(it.Payload(), it.State());
    res := it.GetInt();
    assert VirtualBus(remoteBus, before, olds) == old(VirtualBus(remoteBus, before, olds));
    hide VirtualBus;
    head, busses, devs := Reconcile(it, m, remoteBus, before, olds, pool);
  }

  /** `usb_find_devices`: request, reply, reconciliation. The reply is the next packet of the stream,
      whatever it holds and however it is cut; when there is none, or an empty one, the list stays. */
  method FindDevices(sock: Socket, pkt: CProtocol.Packet, m: Machine, remoteBus: UsbBus?, ghost before: seq<UsbBus>,
                     ghost olds: seq<seq<UsbDevice>>, ghost pool: set<UsbDevice>)
      returns (res: i32, head: UsbBus?, ghost busses: seq<UsbBus>, ghost devs: seq<seq<UsbDevice>>)
    requires pkt.Valid() && sock.Valid() && Receivable(sock.Incoming())
    requires DeclaredSize(sock.Incoming()) + CProtocol.BUF_FRAGLEN < 0x1_0000_0000
    requires VirtualBus(remoteBus, before, olds) && Nodes(olds) <= pool
    modifies sock, pkt, pkt.buf, before, pool
    ensures sock.Valid() && pkt.Valid() && (pkt.buf == old(pkt.buf) || fresh(pkt.buf))
    ensures sock.sent == old(sock.sent) + FrameBytes(Frame(USB_FIND_DEVICES, []))
    ensures match ParseFrame(old(sock.Incoming()))
      case None => NotFound(res, head, busses, devs, remoteBus, before, olds)
      case Some((f, rest)) =>
        && sock.Incoming() == rest
        && if f.payload == [] then NotFound(res, head, busses, devs, remoteBus, before, olds)
           else
             var reply := ParseReply(f.payload, m);
             && res == reply.changes && Reconciled(head, busses, devs, before, olds, reply.busses)
             && (forall i | |before| <= i < |reply.busses| :: fresh(busses[i]))
             && NewBeyond(olds, devs, |reply.busses|)
  {
    hide ParseReply, Reconciled, FrameBytes, ParseFrame, Receivable, DeclaredSize;
    pkt.Init(USB_FIND_DEVICES);
    pkt.Send(sock);
    var r := pkt.Recv(sock);
    assert VirtualBus(remoteBus, before, olds) == old(VirtualBus(remoteBus, before, olds));
    hide VirtualBus;
    res, head, busses, devs := 0, remoteBus, before, olds;
    if r > 0 {
      res, head, busses, devs := ReadReply(pkt, m, remoteBus, before, olds, pool);
    }
  }

  /** Nothing found, and the list is as it was. */
  ghost predicate NotFound(res: i32, head: UsbBus?, busses: seq<UsbBus>, devs: seq<seq<UsbDevice>>,
                           remoteBus: UsbBus?, before: seq<UsbBus>, olds: seq<seq<UsbDevice>>)
    reads busses, Nodes(devs)
  {
    res == 0 && head == remoteBus && busses == before && devs == olds && VirtualBus(head, busses, devs)
  }
}

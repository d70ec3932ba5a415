/** libusb as the server sees it, and the server's calls on it as functions: device selection, the list
    of open handles, and the reply to each call (src/server/usbservice.cpp). */
module Usb {
  import opened Bytes
  import opened Protobase
  import opened Tlv
  import opened DeviceTree
  import opened CppProtocol
  import opened Calls

  /** `usb_dev_handle`: its file descriptor, and which of all handles ever opened it is. */
  datatype UsbHandle = UsbHandle(fd: i32, serial: nat)

  /** What a libusb call does: the world afterwards, its result, the setting then kept in the handle, the
      transfer buffer, and the memory that happens to lie behind that buffer. */
  datatype Outcome<W> = Outcome(world: W, res: i32, setting: i32, data: seq<byte>, beyond: seq<byte>)

  /** libusb, whose inner workings are not part of this model. `W` is everything it depends on. */
  datatype Lib<!W> = Lib(
    init: W -> W,
    findBusses: W -> (W, i32),
    findDevices: W -> (W, i32),
    host: Host,
    busses: W -> seq<Bus>,
    open: (W, nat, nat) -> (W, Option<UsbHandle>),
    call: (W, UsbHandle, Call) -> Outcome<W>,
    live: W -> set<i32>)

  /** What is assumed of it: descriptors of open handles are distinct, only a close gives one back, no
      transfer moves more octets than its buffer holds, and memory and device tree are smaller than a
      packet can be. */
  ghost predicate Contract<W(!new)>(lib: Lib<W>) {
    && (forall w :: lib.live(lib.init(w)) == lib.live(w))
    && (forall w :: lib.live(lib.findBusses(w).0) == lib.live(w))
    && (forall w :: lib.live(lib.findDevices(w).0) == lib.live(w))
    && (forall w :: Serializable(lib, lib.busses(w)))
    && (forall w, i, j :: Opens(lib, w, lib.open(w, i, j)))
    && (forall w, h, c :: Performs(lib, w, h, c, lib.call(w, h, c)))
  }

  /** The device tree is consistent and fits a packet. */
  ghost predicate Serializable<W>(lib: Lib<W>, bs: seq<Bus>) {
    TreeOk(bs) && forall res: i32 :: |EncodeAll(ReplyItems(lib.host, res, bs))| < 0x8000_0000
  }

  ghost predicate Opens<W>(lib: Lib<W>, w: W, r: (W, Option<UsbHandle>)) {
    match r.1
    case None => lib.live(r.0) == lib.live(w)
    case Some(h) => h.fd !in lib.live(w) && lib.live(r.0) == lib.live(w) + {h.fd}
  }

  ghost predicate Performs<W>(lib: Lib<W>, w: W, h: UsbHandle, c: Call, o: Outcome<W>) {
    && lib.live(o.world) == lib.live(w) - (if c.Close? then {h.fd} else {})
    && (IsTransfer(c) ==> |o.data| == |Buffer(c)| && o.res <= |Buffer(c)|)
    && (c.GetDriver? ==> |o.data| == |c.name|)
    && (IsTransfer(c) && |Buffer(c)| < 0x8000_0000 ==> |o.data| + |o.beyond| < 0xF000_0000)
  }

  // ---- an example -----------------------------------------------------------------------------

  const EXAMPLE_DEVICE := Device([], 1, Descriptor(0, 0, 0, 0, 0, 0, 0, 0, 0, 0, 0, 0, 0, 0), [], [])
  const EXAMPLE_BUS := Bus([], 7, [EXAMPLE_DEVICE])

  /** A libusb with one bus and one device, which can be open once. Its world is the set of descriptors in
      use, and transfers echo the buffer. */
  function ExampleLib(): Lib<set<i32>> {
    Lib(w => w, w => (w, 0), w => (w, 0), LittleEndian, w => [EXAMPLE_BUS],
        (w: set<i32>, i, j) => if 0 in w then (w, None) else (w + {0}, Some(UsbHandle(0, 0))),
        (w: set<i32>, h: UsbHandle, c: Call) =>
          Outcome(if c.Close? then w - {h.fd} else w, 0, 0,
                  if IsTransfer(c) then Buffer(c) else if c.GetDriver? then c.name else [], []),
        w => w)
  }

  lemma {:induction false} ItemSize(t: Tree, ts: seq<Tree>)
    ensures |EncodeAll([t] + ts)| <= 6 + |if t.Leaf? then t.value else EncodeAll(t.kids)| + |EncodeAll(ts)|
  {
    assert ([t] + ts)[0] == t && ([t] + ts)[1..] == ts;
  }

  lemma {:induction false} ExampleReplySize(h: Host, res: i32)
    ensures |EncodeAll(ReplyItems(h, res, [EXAMPLE_BUS]))| < 0x100
  {
    var d, b := EXAMPLE_DEVICE, EXAMPLE_BUS;
    var number := Leaf(UNSIGNED_TYPE, Numeric(1, d.devnum));
    var image := Leaf(RAW_TYPE, DescriptorImage(h, SwapDescriptor(h, d.descriptor)));
    assert [d][1..] == [] && [b][1..] == [];
    assert DeviceBlocks(h, []) == [] && BusBlocks(h, []) == [];
    assert DeviceBlocks(h, [d]) == [DeviceBlock(h, d)] + [];
    assert BusBlocks(h, [b]) == [BusBlock(h, b)] + [];
    hide DescriptorImage, Numeric, SwapDescriptor;
    assert EncodeAll([]) == [];
    hide EncodeAll;
    ItemSize(image, ConfigItems(h, []));
    ItemSize(number, [image] + ConfigItems(h, []));
    ItemSize(Leaf(OCTET_TYPE, [0]), [number] + ([image] + ConfigItems(h, [])));
    ItemSize(DeviceBlock(h, d), []);
    ItemSize(Leaf(UNSIGNED_TYPE, Numeric(4, b.location)), DeviceBlocks(h, [d]));
    ItemSize(Leaf(OCTET_TYPE, [0]), [Leaf(UNSIGNED_TYPE, Numeric(4, b.location))] + DeviceBlocks(h, [d]));
    ItemSize(BusBlock(h, b), []);
    ItemSize(Leaf(INTEGER_TYPE, Numeric(4, res)), BusBlocks(h, [b]));
    assert [] + [0] == [0];
  }

  lemma {:induction false} EmptyBusReplySize(h: Host, res: i32, location: u32)
    ensures |EncodeAll(ReplyItems(h, res, [Bus([], location, [])]))| < 0x100
  {
    var b := Bus([], location, []);
    assert [b][1..] == [] && BusBlocks(h, []) == [];
    assert BusBlocks(h, [b]) == [BusBlock(h, b)] + [];
    assert DeviceBlocks(h, []) == [];
    hide Numeric;
    assert EncodeAll([]) == [];
    hide EncodeAll;
    ItemSize(Leaf(UNSIGNED_TYPE, Numeric(4, location)), []);
    ItemSize(Leaf(OCTET_TYPE, [0]), [Leaf(UNSIGNED_TYPE, Numeric(4, location))] + []);
    ItemSize(BusBlock(h, b), []);
    ItemSize(Leaf(INTEGER_TYPE, Numeric(4, res)), BusBlocks(h, [b]));
    assert [] + [0] == [0];
  }

  /** The assumptions can be met, by a libusb that does open and close a device. */
  lemma ContractCanBeMet()
    ensures Contract(ExampleLib())
    ensures ExampleLib().open({}, 0, 0) == ({0}, Some(UsbHandle(0, 0)))
    ensures Select(ExampleLib().busses({}), 7, 1) == Some((0, 0))
  {
    var lib := ExampleLib();
    assert TreeOk([EXAMPLE_BUS]);
    assert {} + {0} == {0 as i32};
    forall w, h, c ensures Performs(lib, w, h, c, lib.call(w, h, c)) {
    }
    forall w, i, j ensures Opens(lib, w, lib.open(w, i, j)) {
    }
    forall w ensures Serializable(lib, lib.busses(w)) {
      forall res: i32 ensures |EncodeAll(ReplyItems(lib.host, res, [EXAMPLE_BUS]))| < 0x8000_0000 {
        ExampleReplySize(lib.host, res);
      }
    }
  }

  // ---- selecting a device ---------------------------------------------------------------------

  /** The first bus at `location`; the number of buses when there is none. */
  function FirstBus(bs: seq<Bus>, location: u32): (i: nat)
    ensures i <= |bs| && (i < |bs| ==> bs[i].location == location)
    ensures forall k | 0 <= k < i :: bs[k].location != location
  {
    if bs == [] || bs[0].location == location then 0 else 1 + FirstBus(bs[1..], location)
  }

  function FirstDevice(ds: seq<Device>, devnum: byte): (j: nat)
    ensures j <= |ds| && (j < |ds| ==> ds[j].devnum == devnum)
    ensures forall k | 0 <= k < j :: ds[k].devnum != devnum
  {
    if ds == [] || ds[0].devnum == devnum then 0 else 1 + FirstDevice(ds[1..], devnum)
  }

  /** The search of `usb_open`: only the first bus at the location is looked at. */
  function Select(bs: seq<Bus>, location: u32, devnum: byte): (r: Option<(nat, nat)>)
    ensures r.Some? ==>
              && r.value.0 < |bs| && r.value.1 < |bs[r.value.0].devices|
              && bs[r.value.0].location == location && bs[r.value.0].devices[r.value.1].devnum == devnum
    ensures r.None? <==>
            forall i | 0 <= i < |bs| && bs[i].location == location
                       && (forall k | 0 <= k < i :: bs[k].location != location) ::
              forall d <- bs[i].devices :: d.devnum != devnum
  {
    var i := FirstBus(bs, location);
    if i == |bs| then None
    else
      var j := FirstDevice(bs[i].devices, devnum);
      if j == |bs[i].devices| then None else Some((i, j))
  }

  /** Opening a device by its location and number reaches that device exactly when no bus in front of
      its own has the same location and no device in front of it on the bus has the same number. */
  lemma {:induction false} SelectReachesShown(bs: seq<Bus>, i: nat, j: nat)
    requires i < |bs| && j < |bs[i].devices|
    ensures Select(bs, bs[i].location, bs[i].devices[j].devnum) == Some((i, j)) <==>
            (forall k | 0 <= k < i :: bs[k].location != bs[i].location) &&
            (forall k | 0 <= k < j :: bs[i].devices[k].devnum != bs[i].devices[j].devnum)
  {
  }

  /** Of two buses at the same location only the first is searched. */
  lemma {:induction false} SecondBusHidden(d: Device)
    ensures Select([Bus([], 7, []), Bus([], 7, [d])], 7, d.devnum) == None
  {
  }

  // ---- open handles ---------------------------------------------------------------------------

  /** The first handle with this descriptor; the length of the list when there is none. */
  function Position(open: seq<UsbHandle>, fd: i32): (i: nat)
    ensures i <= |open| && (i < |open| ==> open[i].fd == fd)
    ensures forall k | 0 <= k < i :: open[k].fd != fd
  {
    if open == [] || open[0].fd == fd then 0 else 1 + Position(open[1..], fd)
  }

  ghost predicate Distinct(open: seq<UsbHandle>) {
    forall i, j | 0 <= i < j < |open| :: open[i].fd != open[j].fd
  }

  // ---- the server -----------------------------------------------------------------------------

  /** libusb's world and `mOpenList`. */
  datatype Server<W> = Server(world: W, open: seq<UsbHandle>)

  /** Open handles have distinct descriptors, all of them live. */
  ghost predicate Valid<W>(lib: Lib<W>, s: Server<W>) {
    Distinct(s.open) && forall h <- s.open :: h.fd in lib.live(s.world)
  }

  function Int8Item(v: int): seq<byte> { TokBytes(LeafTok(INTEGER_TYPE, Numeric(1, v))) }

  function Int32Item(v: int): seq<byte> { TokBytes(LeafTok(INTEGER_TYPE, Numeric(4, v))) }

  /** `addData(data, (res < 0) ? 0 : res, OctetType)`, where `mem` is the memory that `data` points to. */
  function DataItem(mem: Option<seq<byte>>, res: i32): seq<byte>
    requires mem.Some? ==> res <= |mem.value|
    requires mem.None? ==> res <= 0
  {
    var n := if res < 0 then 0 else res;
    ItemBytes(OCTET_TYPE, n, Appended(mem, n))
  }

  /** `buf.at(namelen - 1) = 0`. */
  function Terminated(buf: seq<byte>): seq<byte> {
    if buf == [] then [] else buf[..|buf| - 1] + [0]
  }

  /** The driver's name, as far as it fits the buffer; empty when there is no such handle. */
  function NameItem(n: nat, mem: Option<seq<byte>>): seq<byte>
    requires mem.Some? ==> n <= |mem.value|
  {
    var buf := if mem.None? then Allocated(n) else mem.value[..n];
    TokBytes(LeafTok(OCTET_TYPE, CString(Terminated(buf)) + [0]))
  }

  /** The reply payload of a handler that looks up a handle. */
  function ReplyBytes(c: Call, res: i32, setting: i32, mem: Option<seq<byte>>): seq<byte>
    requires c.GetDriver? && mem.Some? ==> |c.name| <= |mem.value|
    requires IsTransfer(c) && mem.Some? ==> res <= |mem.value|
    requires IsTransfer(c) && mem.None? ==> res <= 0
  {
    if c.Close? then Int8Item(res)
    else if c.SetConfiguration? || c.SetAltInterface? then Int32Item(res) + Int32Item(setting)
    else if IsTransfer(c) then Int32Item(res) + DataItem(mem, res)
    else if c.GetDriver? then Int32Item(res) + NameItem(|c.name|, mem)
    else Int32Item(res)
  }

  /** Bulk and interrupt handlers call libusb only for a positive size. */
  predicate Attempted(c: Call) { IsRead(c) || IsWrite(c) ==> Buffer(c) != [] }

  /** The setting reported when there is no such handle: the one asked for. */
  function Asked(c: Call): i32 {
    if c.SetConfiguration? then c.configuration else if c.SetAltInterface? then c.alternate else 0
  }

  /** The handlers that look up a handle: the list and the world afterwards, and the reply. */
  function ServeHandle<W(!new)>(lib: Lib<W>, s: Server<W>, c: Call): (Server<W>, seq<byte>)
    requires Contract(lib) && OnHandle(c)
  {
    var i := Position(s.open, c.fd);
    if i == |s.open| || !Attempted(c) then (s, ReplyBytes(c, -1, Asked(c), None))
    else
      var o := lib.call(s.world, s.open[i], c);
      assert Performs(lib, s.world, s.open[i], c, o);
      var res := if c.ReleaseInterface? then 0 else o.res;
      (Server(o.world, if c.Close? then RemoveAt(s.open, i) else s.open),
       ReplyBytes(c, res, o.setting, Some(o.data + o.beyond)))
  }

  /** `UsbService::handle` for a decoded call: the state afterwards and the reply payload, if any. */
  function Serve<W(!new)>(lib: Lib<W>, s: Server<W>, c: Call): (Server<W>, Option<seq<byte>>)
    requires Contract(lib)
  {
    match c
    case Init => (s.(world := lib.init(s.world)), None)
    case FindBusses =>
      var (w, res) := lib.findBusses(s.world);
      (s.(world := w), Some(Int32Item(res)))
    case FindDevices =>
      var (w, res) := lib.findDevices(s.world);
      (s.(world := w), Some(EncodeAll(ReplyItems(lib.host, res, lib.busses(w)))))
    case Open(location, devnum) =>
      (match Select(lib.busses(s.world), location, devnum)
       case None => (s, Some(Int8Item(-1) + Int32Item(-1)))
       case Some((i, j)) =>
         var (w, h) := lib.open(s.world, i, j);
         match h
         case None => (s.(world := w), Some(Int8Item(-1) + Int32Item(-1)))
         case Some(h) => (Server(w, s.open + [h]), Some(Int8Item(0) + Int32Item(h.fd))))
    case _ =>
      var (s', reply) := ServeHandle(lib, s, c);
      (s', Some(reply))
  }

  /** libusb's world after closing each of `open`. */
  function AllClosed<W>(lib: Lib<W>, w: W, open: seq<UsbHandle>): W {
    if open == [] then w else AllClosed(lib, lib.call(w, open[0], Close(open[0].fd)).world, open[1..])
  }

  /** The server after its destructor. */
  function Destroyed<W>(lib: Lib<W>, s: Server<W>): Server<W> { Server(AllClosed(lib, s.world, s.open), []) }
}

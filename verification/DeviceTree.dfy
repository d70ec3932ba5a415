/** The device tree that the server keeps and the client rebuilds: buses, devices, configurations,
    interfaces, altsettings and endpoints, their images in memory, and the items that carry them. */
module DeviceTree {
  import opened Bytes
  import opened Protobase
  import opened Tlv

  // ---- the libusb structures ------------------------------------------------------------------
  // `tail` is the rest of the structure in memory: padding, pointers and `extralen`. It travels with
  // the image and means nothing to the receiver. usb.h is not part of this model.

  datatype Endpoint = Endpoint(
    bLength: byte, bDescriptorType: byte, bEndpointAddress: byte, bmAttributes: byte,
    wMaxPacketSize: u16, bInterval: byte, bRefresh: byte, bSynchAddress: byte,
    tail: seq<byte>, extra: seq<byte>)

  datatype Altsetting = Altsetting(
    bLength: byte, bDescriptorType: byte, bInterfaceNumber: byte, bAlternateSetting: byte,
    bNumEndpoints: byte, bInterfaceClass: byte, bInterfaceSubClass: byte, bInterfaceProtocol: byte,
    iInterface: byte, tail: seq<byte>, endpoints: seq<Endpoint>, extra: seq<byte>)

  /** `num_altsetting` is the number of altsettings. */
  datatype Interface = Interface(altsettings: seq<Altsetting>)

  datatype Config = Config(
    bLength: byte, bDescriptorType: byte, wTotalLength: u16, bNumInterfaces: byte,
    bConfigurationValue: byte, iConfiguration: byte, bmAttributes: byte, MaxPower: byte,
    tail: seq<byte>, interfaces: seq<Interface>, extra: seq<byte>)

  datatype Descriptor = Descriptor(
    bLength: byte, bDescriptorType: byte, bcdUSB: u16, bDeviceClass: byte, bDeviceSubClass: byte,
    bDeviceProtocol: byte, bMaxPacketSize0: byte, idVendor: u16, idProduct: u16, bcdDevice: u16,
    iManufacturer: byte, iProduct: byte, iSerialNumber: byte, bNumConfigurations: byte)

  /** `children` are the device numbers behind the children pointers of a hub. */
  datatype Device = Device(
    filename: seq<byte>, devnum: byte, descriptor: Descriptor, configs: seq<Config>, children: seq<byte>)

  datatype Bus = Bus(dirname: seq<byte>, location: u32, devices: seq<Device>)

  // ---- memory images --------------------------------------------------------------------------

  /** Byte order of a machine; client and server may differ. */
  datatype Host = LittleEndian | BigEndian

  /** A 16-bit integer in the memory of `h`, and back. */
  function Image16(h: Host, v: u16): (s: seq<byte>)
    ensures |s| == 2
  {
    if h.BigEndian? then [v / 0x100, v % 0x100] else [v % 0x100, v / 0x100]
  }

  function Load16(h: Host, s: seq<byte>): u16
    requires |s| >= 2
  {
    if h.BigEndian? then s[0] as int * 0x100 + s[1] as int else s[1] as int * 0x100 + s[0] as int
  }

  /** `htons` and `ntohs` on `h`. */
  function Swap(h: Host, v: u16): u16 {
    if h.BigEndian? then v else v % 0x100 * 0x100 + v / 0x100
  }

  /** Whatever the byte orders of the two machines, a swapped value in memory is network order. */
  lemma {:induction false} SwapCrosses(server: Host, client: Host, v: u16)
    ensures Image16(server, Swap(server, v)) == Be16(v)
    ensures Swap(client, Load16(client, Be16(v))) == v
  {
  }

  const DESCRIPTOR_SIZE: nat := 18
  const HEAD_SIZE: nat := 9

  function DescriptorImage(h: Host, d: Descriptor): (s: seq<byte>)
    ensures |s| == DESCRIPTOR_SIZE
  {
    [d.bLength, d.bDescriptorType] + Image16(h, d.bcdUSB)
    + [d.bDeviceClass, d.bDeviceSubClass, d.bDeviceProtocol, d.bMaxPacketSize0]
    + Image16(h, d.idVendor) + Image16(h, d.idProduct) + Image16(h, d.bcdDevice)
    + [d.iManufacturer, d.iProduct, d.iSerialNumber, d.bNumConfigurations]
  }

  function LoadDescriptor(h: Host, s: seq<byte>): Descriptor
    requires |s| >= DESCRIPTOR_SIZE
  {
    Descriptor(s[0], s[1], Load16(h, s[2..4]), s[4], s[5], s[6], s[7], Load16(h, s[8..10]),
               Load16(h, s[10..12]), Load16(h, s[12..14]), s[14], s[15], s[16], s[17])
  }

  function SwapDescriptor(h: Host, d: Descriptor): Descriptor {
    d.(bcdUSB := Swap(h, d.bcdUSB), idVendor := Swap(h, d.idVendor),
       idProduct := Swap(h, d.idProduct), bcdDevice := Swap(h, d.bcdDevice))
  }

  function ConfigImage(h: Host, c: Config): (s: seq<byte>)
    ensures |s| == HEAD_SIZE + |c.tail|
  {
    [c.bLength, c.bDescriptorType] + Image16(h, c.wTotalLength)
    + [c.bNumInterfaces, c.bConfigurationValue, c.iConfiguration, c.bmAttributes, c.MaxPower] + c.tail
  }

  /** The members of a configuration that a copied image sets, with no interfaces yet. */
  function LoadConfig(h: Host, s: seq<byte>): Config
    requires |s| >= HEAD_SIZE
  {
    Config(s[0], s[1], Load16(h, s[2..4]), s[4], s[5], s[6], s[7], s[8], [], [], [])
  }

  function AltsettingImage(a: Altsetting): (s: seq<byte>)
    ensures |s| == HEAD_SIZE + |a.tail|
  {
    [a.bLength, a.bDescriptorType, a.bInterfaceNumber, a.bAlternateSetting, a.bNumEndpoints,
     a.bInterfaceClass, a.bInterfaceSubClass, a.bInterfaceProtocol, a.iInterface] + a.tail
  }

  function LoadAltsetting(s: seq<byte>): Altsetting
    requires |s| >= HEAD_SIZE
  {
    Altsetting(s[0], s[1], s[2], s[3], s[4], s[5], s[6], s[7], s[8], [], [], [])
  }

  function EndpointImage(h: Host, e: Endpoint): (s: seq<byte>)
    ensures |s| == HEAD_SIZE + |e.tail|
  {
    [e.bLength, e.bDescriptorType, e.bEndpointAddress, e.bmAttributes] + Image16(h, e.wMaxPacketSize)
    + [e.bInterval, e.bRefresh, e.bSynchAddress] + e.tail
  }

  function LoadEndpoint(h: Host, s: seq<byte>): Endpoint
    requires |s| >= HEAD_SIZE
  {
    Endpoint(s[0], s[1], s[2], s[3], Load16(h, s[4..6]), s[6], s[7], s[8], [], [])
  }

  function SwapConfig(h: Host, c: Config): Config { c.(wTotalLength := Swap(h, c.wTotalLength)) }

  function SwapEndpoint(h: Host, e: Endpoint): Endpoint { e.(wMaxPacketSize := Swap(h, e.wMaxPacketSize)) }

  /** `memcpy` of the smaller of the item and the receiver's structure. */
  function Clipped(s: seq<byte>, structSize: nat): seq<byte> {
    if |s| < structSize then s else s[..structSize]
  }

  // ---- what survives --------------------------------------------------------------------------

  function EraseEndpoint(e: Endpoint): Endpoint { e.(tail := [], extra := []) }

  function EraseEndpoints(es: seq<Endpoint>): seq<Endpoint> {
    if es == [] then [] else [EraseEndpoint(es[0])] + EraseEndpoints(es[1..])
  }

  /** Interface extras are kept. */
  function EraseAltsetting(a: Altsetting): Altsetting {
    a.(tail := [], endpoints := EraseEndpoints(a.endpoints))
  }

  function EraseAltsettings(xs: seq<Altsetting>): seq<Altsetting> {
    if xs == [] then [] else [EraseAltsetting(xs[0])] + EraseAltsettings(xs[1..])
  }

  function EraseInterfaces(xs: seq<Interface>): seq<Interface> {
    if xs == [] then []
    else [Interface(EraseAltsettings(xs[0].altsettings))] + EraseInterfaces(xs[1..])
  }

  function EraseConfig(c: Config): Config {
    c.(tail := [], interfaces := EraseInterfaces(c.interfaces), extra := [])
  }

  function EraseConfigs(cs: seq<Config>): seq<Config> {
    if cs == [] then [] else [EraseConfig(cs[0])] + EraseConfigs(cs[1..])
  }

  function EraseDevice(d: Device): Device {
    d.(configs := EraseConfigs(d.configs), children := [])
  }

  function EraseDevices(ds: seq<Device>): seq<Device> {
    if ds == [] then [] else [EraseDevice(ds[0])] + EraseDevices(ds[1..])
  }

  function EraseBus(b: Bus): Bus { b.(devices := EraseDevices(b.devices)) }

  function EraseTree(bs: seq<Bus>): seq<Bus> {
    if bs == [] then [] else [EraseBus(bs[0])] + EraseTree(bs[1..])
  }

  lemma {:induction false} EraseDevicesAt(ds: seq<Device>)
    ensures |EraseDevices(ds)| == |ds| && forall i | 0 <= i < |ds| :: EraseDevices(ds)[i] == EraseDevice(ds[i])
  {
    if ds != [] {
      EraseDevicesAt(ds[1..]);
      hide EraseDevice;
    }
  }

  /** The tree that survives has the same buses, in order, with the same devices. */
  lemma {:induction false} EraseTreeAt(bs: seq<Bus>)
    ensures |EraseTree(bs)| == |bs| && forall i | 0 <= i < |bs| :: EraseTree(bs)[i] == EraseBus(bs[i])
    ensures forall i | 0 <= i < |bs| :: |EraseTree(bs)[i].devices| == |bs[i].devices|
    ensures forall i, j | 0 <= i < |bs| && 0 <= j < |bs[i].devices| ::
      EraseTree(bs)[i].devices[j] == EraseDevice(bs[i].devices[j])
  {
    if bs != [] {
      EraseTreeAt(bs[1..]);
      EraseDevicesAt(bs[0].devices);
      hide EraseDevice, EraseDevices;
    }
  }

  lemma {:induction false} EraseEndpointsAt(es: seq<Endpoint>)
    ensures |EraseEndpoints(es)| == |es|
    ensures forall i | 0 <= i < |es| :: EraseEndpoints(es)[i] == es[i].(tail := [], extra := [])
  {
    if es != [] { EraseEndpointsAt(es[1..]); }
  }

  lemma {:induction false} EraseAltsettingsAt(xs: seq<Altsetting>)
    ensures |EraseAltsettings(xs)| == |xs|
    ensures forall i | 0 <= i < |xs| ::
      EraseAltsettings(xs)[i] == xs[i].(tail := [], endpoints := EraseEndpoints(xs[i].endpoints))
  {
    if xs != [] {
      EraseAltsettingsAt(xs[1..]);
      hide EraseEndpoints;
    }
  }

  lemma {:induction false} EraseInterfacesAt(xs: seq<Interface>)
    ensures |EraseInterfaces(xs)| == |xs|
    ensures forall i | 0 <= i < |xs| :: EraseInterfaces(xs)[i].altsettings == EraseAltsettings(xs[i].altsettings)
  {
    if xs != [] {
      EraseInterfacesAt(xs[1..]);
      hide EraseAltsettings;
    }
  }

  lemma {:induction false} EraseConfigsAt(cs: seq<Config>)
    ensures |EraseConfigs(cs)| == |cs|
    ensures forall i | 0 <= i < |cs| ::
      EraseConfigs(cs)[i] == cs[i].(tail := [], extra := [], interfaces := EraseInterfaces(cs[i].interfaces))
  {
    if cs != [] {
      EraseConfigsAt(cs[1..]);
      hide EraseInterfaces;
    }
  }

  /** What survives, level by level: of a device all but its children, of a configuration all but the rest of
      its structure and its extras, of an altsetting all but the rest of its structure, its extras kept, and of
      an endpoint all but the rest of its structure and its extras; and no level gains or loses an entry. */
  lemma {:induction false} Survives(bs: seq<Bus>, i: nat, j: nat, c: nat, f: nat, a: nat, e: nat)
    requires i < |bs| && j < |bs[i].devices| && c < |bs[i].devices[j].configs|
    requires var cfg := bs[i].devices[j].configs[c];
      f < |cfg.interfaces| && a < |cfg.interfaces[f].altsettings| && e < |cfg.interfaces[f].altsettings[a].endpoints|
    ensures |EraseTree(bs)| == |bs|
    ensures var b, b' := bs[i], EraseTree(bs)[i];
      && b' == b.(devices := b'.devices) && |b'.devices| == |b.devices|
      && var d, d' := b.devices[j], b'.devices[j];
      && d' == d.(configs := d'.configs, children := []) && |d'.configs| == |d.configs|
      && var g, g' := d.configs[c], d'.configs[c];
      && g' == g.(tail := [], extra := [], interfaces := g'.interfaces) && |g'.interfaces| == |g.interfaces|
      && var x, x' := g.interfaces[f].altsettings, g'.interfaces[f].altsettings;
      && |x'| == |x| && x'[a] == x[a].(tail := [], endpoints := x'[a].endpoints)
      && |x'[a].endpoints| == |x[a].endpoints|
      && x'[a].endpoints[e] == x[a].endpoints[e].(tail := [], extra := [])
  {
    EraseTreeAt(bs);
    var d := bs[i].devices[j];
    var g := d.configs[c];
    EraseConfigsAt(d.configs);
    EraseInterfacesAt(g.interfaces);
    EraseAltsettingsAt(g.interfaces[f].altsettings);
    EraseEndpointsAt(g.interfaces[f].altsettings[a].endpoints);
    hide EraseTree, EraseDevices, EraseConfigs, EraseInterfaces, EraseAltsettings, EraseEndpoints;
  }

  lemma {:induction false} DescriptorCrosses(server: Host, client: Host, d: Descriptor)
    ensures SwapDescriptor(client, LoadDescriptor(client, DescriptorImage(server, SwapDescriptor(server, d)))) == d
  {
    SwapCrosses(server, client, d.bcdUSB);
    SwapCrosses(server, client, d.idVendor);
    SwapCrosses(server, client, d.idProduct);
    SwapCrosses(server, client, d.bcdDevice);
    var s := DescriptorImage(server, SwapDescriptor(server, d));
    hide Image16, Load16, Swap, Be16;
    assert s[2..4] == Be16(d.bcdUSB);
    assert s[8..10] == Be16(d.idVendor);
    assert s[10..12] == Be16(d.idProduct);
    assert s[12..14] == Be16(d.bcdDevice);
  }

  lemma {:induction false} ConfigCrosses(server: Host, client: Host, c: Config, structSize: nat)
    requires HEAD_SIZE <= structSize
    ensures var s := Clipped(ConfigImage(server, SwapConfig(server, c)), structSize);
      |s| >= HEAD_SIZE &&
      SwapConfig(client, LoadConfig(client, s)) == c.(tail := [], interfaces := [], extra := [])
  {
    SwapCrosses(server, client, c.wTotalLength);
    var s := Clipped(ConfigImage(server, SwapConfig(server, c)), structSize);
    hide Image16, Load16, Swap, Be16;
    assert s[2..4] == Be16(c.wTotalLength);
  }

  lemma {:induction false} AltsettingCrosses(a: Altsetting, structSize: nat)
    requires HEAD_SIZE <= structSize
    ensures var s := Clipped(AltsettingImage(a), structSize);
      |s| >= HEAD_SIZE && LoadAltsetting(s) == a.(tail := [], endpoints := [], extra := [])
  {
  }

  lemma {:induction false} EndpointCrosses(server: Host, client: Host, e: Endpoint, structSize: nat)
    requires HEAD_SIZE <= structSize
    ensures var s := Clipped(EndpointImage(server, SwapEndpoint(server, e)), structSize);
      |s| >= HEAD_SIZE && SwapEndpoint(client, LoadEndpoint(client, s)) == EraseEndpoint(e)
  {
    SwapCrosses(server, client, e.wMaxPacketSize);
    var s := Clipped(EndpointImage(server, SwapEndpoint(server, e)), structSize);
    hide Image16, Load16, Swap, Be16;
    assert s[4..6] == Be16(e.wMaxPacketSize);
  }

  // ---- the items ------------------------------------------------------------------------------

  function EndpointItems(h: Host, es: seq<Endpoint>): seq<Tree> {
    if es == [] then []
    else [Leaf(RAW_TYPE, EndpointImage(h, SwapEndpoint(h, es[0])))] + EndpointItems(h, es[1..])
  }

  /** The length of the interface extras, and the extras when there are any. */
  function ExtraItems(extra: seq<byte>): seq<Tree> {
    [Leaf(INTEGER_TYPE, Numeric(4, |extra|))] + if extra != [] then [Leaf(RAW_TYPE, extra)] else []
  }

  function AltsettingItems(h: Host, xs: seq<Altsetting>): seq<Tree> {
    if xs == [] then []
    else [Leaf(RAW_TYPE, AltsettingImage(xs[0]))]
         + (EndpointItems(h, xs[0].endpoints) + (ExtraItems(xs[0].extra) + AltsettingItems(h, xs[1..])))
  }

  function InterfaceItems(h: Host, xs: seq<Interface>): seq<Tree> {
    if xs == [] then []
    else [Leaf(INTEGER_TYPE, Numeric(4, |xs[0].altsettings|))]
         + (AltsettingItems(h, xs[0].altsettings) + InterfaceItems(h, xs[1..]))
  }

  function ConfigItems(h: Host, cs: seq<Config>): seq<Tree> {
    if cs == [] then []
    else [Leaf(RAW_TYPE, ConfigImage(h, SwapConfig(h, cs[0])))]
         + (InterfaceItems(h, cs[0].interfaces) + ConfigItems(h, cs[1..]))
  }

  function DeviceItems(h: Host, d: Device): seq<Tree> {
    [Leaf(OCTET_TYPE, d.filename + [0])]
    + ([Leaf(UNSIGNED_TYPE, Numeric(1, d.devnum))]
       + ([Leaf(RAW_TYPE, DescriptorImage(h, SwapDescriptor(h, d.descriptor)))] + ConfigItems(h, d.configs)))
  }

  function DeviceBlock(h: Host, d: Device): Tree { Node(SEQUENCE_TYPE, DeviceItems(h, d)) }

  function DeviceBlocks(h: Host, ds: seq<Device>): seq<Tree> {
    if ds == [] then [] else [DeviceBlock(h, ds[0])] + DeviceBlocks(h, ds[1..])
  }

  function BusItems(h: Host, b: Bus): seq<Tree> {
    [Leaf(OCTET_TYPE, b.dirname + [0])]
    + ([Leaf(UNSIGNED_TYPE, Numeric(4, b.location))] + DeviceBlocks(h, b.devices))
  }

  function BusBlock(h: Host, b: Bus): Tree { Node(STRUCTURE_TYPE, BusItems(h, b)) }

  function BusBlocks(h: Host, bs: seq<Bus>): seq<Tree> {
    if bs == [] then [] else [BusBlock(h, bs[0])] + BusBlocks(h, bs[1..])
  }

  /** The reply to UsbFindDevices: the number of changes, then every bus. */
  function ReplyItems(h: Host, res: i32, bs: seq<Bus>): seq<Tree> {
    [Leaf(INTEGER_TYPE, Numeric(4, res))] + BusBlocks(h, bs)
  }

  // ---- what the server relies on --------------------------------------------------------------

  /** Counts in descriptors are the numbers of entries behind the pointers, names are C strings. */
  predicate AltsettingOk(a: Altsetting) {
    |a.endpoints| == a.bNumEndpoints && |a.extra| < 0x8000_0000
  }

  predicate InterfaceOk(i: Interface) {
    |i.altsettings| < 0x8000_0000 && forall a <- i.altsettings :: AltsettingOk(a)
  }

  predicate ConfigOk(c: Config) {
    |c.interfaces| == c.bNumInterfaces && forall i <- c.interfaces :: InterfaceOk(i)
  }

  predicate DeviceOk(d: Device) {
    |d.configs| == d.descriptor.bNumConfigurations && 0 !in d.filename && forall c <- d.configs :: ConfigOk(c)
  }

  predicate BusOk(b: Bus) {
    0 !in b.dirname && forall d <- b.devices :: DeviceOk(d)
  }

  predicate TreeOk(bs: seq<Bus>) { forall b <- bs :: BusOk(b) }

  // ---- the items are well typed ---------------------------------------------------------------

  lemma {:induction false} WellTypedAppend(a: seq<Tree>, b: seq<Tree>)
    requires AllWellTyped(a) && AllWellTyped(b)
    ensures AllWellTyped(a + b)
  {
    if a == [] {
      assert a + b == b;
    } else {
      assert (a + b)[1..] == a[1..] + b;
      WellTypedAppend(a[1..], b);
    }
  }

  lemma {:induction false} WellTypedCons(t: Tree, ts: seq<Tree>)
    requires WellTyped(t) && AllWellTyped(ts)
    ensures AllWellTyped([t] + ts) && ([t] + ts)[1..] == ts
  {
  }

  lemma {:induction false} EndpointItemsTyped(h: Host, es: seq<Endpoint>)
    ensures AllWellTyped(EndpointItems(h, es))
  {
    if es != [] { EndpointItemsTyped(h, es[1..]); }
  }

  lemma {:induction false} ExtraItemsTyped(extra: seq<byte>)
    ensures AllWellTyped(ExtraItems(extra))
  {
    var count := Leaf(INTEGER_TYPE, Numeric(4, |extra|));
    assert AllWellTyped([]);
    if extra != [] {
      WellTypedCons(Leaf(RAW_TYPE, extra), []);
      assert [Leaf(RAW_TYPE, extra)] + [] == [Leaf(RAW_TYPE, extra)];
      WellTypedCons(count, [Leaf(RAW_TYPE, extra)]);
    } else {
      WellTypedCons(count, []);
    }
  }

  lemma {:induction false} AltsettingItemsTyped(h: Host, xs: seq<Altsetting>)
    ensures AllWellTyped(AltsettingItems(h, xs))
  {
    if xs != [] {
      EndpointItemsTyped(h, xs[0].endpoints);
      ExtraItemsTyped(xs[0].extra);
      AltsettingItemsTyped(h, xs[1..]);
      WellTypedAppend(ExtraItems(xs[0].extra), AltsettingItems(h, xs[1..]));
      WellTypedAppend(EndpointItems(h, xs[0].endpoints), ExtraItems(xs[0].extra) + AltsettingItems(h, xs[1..]));
    }
  }

  lemma {:induction false} InterfaceItemsTyped(h: Host, xs: seq<Interface>)
    ensures AllWellTyped(InterfaceItems(h, xs))
  {
    if xs != [] {
      AltsettingItemsTyped(h, xs[0].altsettings);
      InterfaceItemsTyped(h, xs[1..]);
      WellTypedAppend(AltsettingItems(h, xs[0].altsettings), InterfaceItems(h, xs[1..]));
    }
  }

  lemma {:induction false} ConfigItemsTyped(h: Host, cs: seq<Config>)
    ensures AllWellTyped(ConfigItems(h, cs))
  {
    if cs != [] {
      InterfaceItemsTyped(h, cs[0].interfaces);
      ConfigItemsTyped(h, cs[1..]);
      WellTypedAppend(InterfaceItems(h, cs[0].interfaces), ConfigItems(h, cs[1..]));
    }
  }

  lemma {:induction false} DeviceItemsTyped(h: Host, d: Device)
    ensures AllWellTyped(DeviceItems(h, d))
  {
    ConfigItemsTyped(h, d.configs);
    var descriptor := Leaf(RAW_TYPE, DescriptorImage(h, SwapDescriptor(h, d.descriptor)));
    WellTypedCons(descriptor, ConfigItems(h, d.configs));
    WellTypedCons(Leaf(UNSIGNED_TYPE, Numeric(1, d.devnum)), [descriptor] + ConfigItems(h, d.configs));
    WellTypedCons(Leaf(OCTET_TYPE, d.filename + [0]), DeviceItems(h, d)[1..]);
  }

  lemma {:induction false} DeviceBlocksTyped(h: Host, ds: seq<Device>)
    ensures AllWellTyped(DeviceBlocks(h, ds))
  {
    if ds != [] {
      DeviceBlocksTyped(h, ds[1..]);
      DeviceItemsTyped(h, ds[0]);
    }
  }

  lemma {:induction false} BusBlocksTyped(h: Host, bs: seq<Bus>)
    ensures AllWellTyped(BusBlocks(h, bs))
  {
    if bs != [] {
      BusBlocksTyped(h, bs[1..]);
      DeviceBlocksTyped(h, bs[0].devices);
      var b := bs[0];
      WellTypedCons(Leaf(UNSIGNED_TYPE, Numeric(4, b.location)), DeviceBlocks(h, b.devices));
      WellTypedCons(Leaf(OCTET_TYPE, b.dirname + [0]), BusItems(h, b)[1..]);
    }
  }

  /** The reply is a forest of well-typed items, so its bytes are its tokens in preorder. */
  lemma {:induction false} ReplyIsFlat(h: Host, res: i32, bs: seq<Bus>)
    requires |EncodeAll(ReplyItems(h, res, bs))| < 0x1_0000_0000
    ensures Flat(PreorderAll(ReplyItems(h, res, bs))) == EncodeAll(ReplyItems(h, res, bs))
    ensures ToksOk(PreorderAll(ReplyItems(h, res, bs)))
  {
    BusBlocksTyped(h, bs);
    assert AllWellTyped(ReplyItems(h, res, bs));
    EncodingIsFlat(ReplyItems(h, res, bs));
  }
}

/** What the client's `usb_find_devices` (src/usbnet.c) reads from a payload, as functions: nested loops
    over a flat item stream, guided only by item types and by counts read before. They are defined on
    every payload, a device tree or not, so the loops always end; on the server's reply they give back
    the server's tree. */
module TreeParser {
  import opened Bytes
  import opened Protobase
  import opened Tlv
  import opened DeviceTree
  import opened Cursor

  /** The client machine: its byte order and the sizes of its structures, which need not be those of
      the server. */
  datatype Machine = Machine(host: Host, configSize: nat, altsettingSize: nat, endpointSize: nat)

  predicate MachineOk(m: Machine) {
    HEAD_SIZE <= m.configSize && HEAD_SIZE <= m.altsettingSize && HEAD_SIZE <= m.endpointSize
  }

  /** A value and the cursor behind the items it was read from. */
  datatype Read<T> = Read(value: T, c: Cursor)

  /** The cursor is loaded and did not go back. */
  predicate Later(p: seq<byte>, from: Cursor, to: Cursor) {
    Loaded(p, to) && from.cur <= to.cur
  }

  /** An item copied into a zeroed structure of `size` octets, as far as its first `n` octets go. */
  function Copied(s: seq<byte>, size: nat, n: nat): (r: seq<byte>)
    ensures |r| >= n
    ensures |Clipped(s, size)| >= n ==> r == Clipped(s, size)
    ensures Clipped(s, size) <= r && forall k | |Clipped(s, size)| <= k < |r| :: r[k] == 0
  {
    var t := Clipped(s, size);
    if |t| >= n then t else t + seq(n - |t|, i => 0)
  }

  // ---- the loops ------------------------------------------------------------------------------

  function EndpointAt(p: seq<byte>, c: Cursor, m: Machine): Endpoint {
    SwapEndpoint(m.host, LoadEndpoint(m.host, Copied(Value(p, c), m.endpointSize, HEAD_SIZE)))
  }

  function Endpoints(p: seq<byte>, c: Cursor, m: Machine, n: nat): (r: Read<seq<Endpoint>>)
    requires Loaded(p, c)
    ensures Later(p, c, r.c)
    decreases n
  {
    if n == 0 then Read([], c)
    else
      var rest := Endpoints(p, Next(p, c), m, n - 1);
      Read([EndpointAt(p, c, m)] + rest.value, rest.c)
  }

  /** The length of the extras decides whether an item with them is taken. */
  function Extras(p: seq<byte>, c: Cursor): (r: Read<seq<byte>>)
    requires Loaded(p, c)
    ensures Later(p, c, r.c)
  {
    var extralen, c' := AsInt(Value(p, c)), Next(p, c);
    if extralen > 0 then Read(Clipped(Value(p, c'), extralen), Next(p, c')) else Read([], c')
  }

  function AltsettingHead(p: seq<byte>, c: Cursor, m: Machine): Altsetting {
    LoadAltsetting(Copied(Value(p, c), m.altsettingSize, HEAD_SIZE))
  }

  function OneAltsetting(p: seq<byte>, c: Cursor, m: Machine): (r: Read<Altsetting>)
    requires Loaded(p, c)
    ensures Later(p, c, r.c)
  {
    var head := AltsettingHead(p, c, m);
    var endpoints := Endpoints(p, Next(p, c), m, head.bNumEndpoints);
    var extras := Extras(p, endpoints.c);
    Read(head.(endpoints := endpoints.value, extra := extras.value), extras.c)
  }

  function Altsettings(p: seq<byte>, c: Cursor, m: Machine, n: nat): (r: Read<seq<Altsetting>>)
    requires Loaded(p, c)
    ensures Later(p, c, r.c)
    decreases n
  {
    if n == 0 then Read([], c)
    else
      var first := OneAltsetting(p, c, m);
      var rest := Altsettings(p, first.c, m, n - 1);
      Read([first.value] + rest.value, rest.c)
  }

  /** An `int` compared with an `unsigned` loop counter. */
  function Unsigned(v: i32): (r: u32)
    ensures (r - v) % 0x1_0000_0000 == 0
  {
    if v < 0 then v + 0x1_0000_0000 else v
  }

  function Interfaces(p: seq<byte>, c: Cursor, m: Machine, n: nat): (r: Read<seq<Interface>>)
    requires Loaded(p, c)
    ensures Later(p, c, r.c)
    decreases n
  {
    if n == 0 then Read([], c)
    else
      var first := Altsettings(p, Next(p, c), m, Unsigned(AsInt(Value(p, c))));
      var rest := Interfaces(p, first.c, m, n - 1);
      Read([Interface(first.value)] + rest.value, rest.c)
  }

  function ConfigHead(p: seq<byte>, c: Cursor, m: Machine): Config {
    SwapConfig(m.host, LoadConfig(m.host, Copied(Value(p, c), m.configSize, HEAD_SIZE)))
  }

  function OneConfig(p: seq<byte>, c: Cursor, m: Machine): (r: Read<Config>)
    requires Loaded(p, c)
    ensures Later(p, c, r.c)
  {
    var head := ConfigHead(p, c, m);
    var interfaces := Interfaces(p, Next(p, c), m, head.bNumInterfaces);
    Read(head.(interfaces := interfaces.value), interfaces.c)
  }

  /** Raw items are configurations as long as the descriptor announces more of them. */
  function Configs(p: seq<byte>, c: Cursor, m: Machine, n: nat): (r: Read<seq<Config>>)
    requires Loaded(p, c)
    ensures Later(p, c, r.c)
    decreases n
  {
    if c.ty != RAW_TYPE || n == 0 then Read([], c)
    else
      var first := OneConfig(p, c, m);
      var rest := Configs(p, first.c, m, n - 1);
      Read([first.value] + rest.value, rest.c)
  }

  function DescriptorAt(p: seq<byte>, c: Cursor, m: Machine): Descriptor {
    SwapDescriptor(m.host, LoadDescriptor(m.host, Copied(Value(p, c), c.len, DESCRIPTOR_SIZE)))
  }

  /** The fixed items of a device: file name, device number and descriptor. */
  function DeviceHead(p: seq<byte>, c: Cursor, m: Machine): (r: Read<Device>)
    requires Loaded(p, c)
    ensures Later(p, c, r.c) && r.value.configs == [] && r.value.children == []
  {
    var number := Next(p, c);
    var image := Next(p, number);
    var devnum := AsUInt(Value(p, number)) % 0x100;
    Read(Device(CString(Value(p, c)), devnum, DescriptorAt(p, image, m), [], []), Next(p, image))
  }

  function OneDevice(p: seq<byte>, c: Cursor, m: Machine): (r: Read<Device>)
    requires Loaded(p, c)
    ensures Later(p, c, r.c)
  {
    var head := DeviceHead(p, c, m);
    var configs := Configs(p, head.c, m, head.value.descriptor.bNumConfigurations);
    Read(head.value.(configs := configs.value), configs.c)
  }

  /** Sequences are devices; each is entered. */
  function Devices(p: seq<byte>, c: Cursor, m: Machine): (r: Read<seq<Device>>)
    requires Loaded(p, c)
    ensures Later(p, c, r.c)
    decreases |p| - c.cur
  {
    if c.ty != SEQUENCE_TYPE then Read([], c)
    else
      var first := OneDevice(p, Enter(p, c), m);
      var rest := Devices(p, first.c, m);
      Read([first.value] + rest.value, rest.c)
  }

  function OneBus(p: seq<byte>, c: Cursor, m: Machine): (r: Read<Bus>)
    requires Loaded(p, c)
    ensures Later(p, c, r.c)
  {
    var location := Next(p, c);
    var devices := Devices(p, Next(p, location), m);
    Read(Bus(CString(Value(p, c)), AsUInt(Value(p, location)), devices.value), devices.c)
  }

  /** Structures are buses; anything else is stepped over. The loop ends at the end of the packet. */
  function Busses(p: seq<byte>, c: Cursor, m: Machine): (r: Read<seq<Bus>>)
    requires Loaded(p, c)
    ensures Later(p, c, r.c) && r.c.cur >= |p|
    decreases |p| - c.cur
  {
    if c.cur >= |p| then Read([], c)
    else if c.ty == STRUCTURE_TYPE then
      var first := OneBus(p, Enter(p, c), m);
      var rest := Busses(p, first.c, m);
      Read([first.value] + rest.value, rest.c)
    else
      Busses(p, Next(p, c), m)
  }

  /** The whole reply: the number of changes and the buses. */
  datatype Reply = Reply(changes: i32, busses: seq<Bus>)

  function ParseReply(p: seq<byte>, m: Machine): Reply {
    BeginLoaded(p);
    StepsAdvance(p, Begin(p));
    var first := Begin(p);
    Reply(AsInt(Value(p, first)), Busses(p, Next(p, first), m).value)
  }

  // ---- on the server's reply ------------------------------------------------------------------

  lemma {:induction false} AtLoaded(p: seq<byte>, c: Cursor, ts: seq<Tok>)
    requires At(p, c, ts)
    ensures Loaded(p, c) && (ts == [] <==> c.cur == |p|)
    ensures ts != [] ==> c.ty == ts[0].ty
  {
  }

  lemma {:induction false} LeafAhead(p: seq<byte>, c: Cursor, t: Tree, ts: seq<Tree>, more: seq<Tok>)
    requires At(p, c, PreorderAll([t] + ts) + more) && t.Leaf? && !Structural(t.ty)
    ensures Loaded(p, c) && c.ty == t.ty && c.len == |t.value| && Value(p, c) == t.value
    ensures At(p, Next(p, c), PreorderAll(ts) + more) && Loaded(p, Next(p, c))
  {
    assert ([t] + ts)[1..] == ts;
    PreorderStep([t] + ts, more);
    assert [] + (PreorderAll(ts) + more) == PreorderAll(ts) + more;
    hide PreorderAll;
    AtLoaded(p, c, PreorderAll([t] + ts) + more);
    NextAt(p, c, PreorderAll([t] + ts) + more);
    AtLoaded(p, Next(p, c), PreorderAll(ts) + more);
  }

  lemma {:induction false} NodeAhead(p: seq<byte>, c: Cursor, t: Tree, ts: seq<Tree>, more: seq<Tok>)
    requires At(p, c, PreorderAll([t] + ts) + more) && t.Node? && Structural(t.ty)
    ensures Loaded(p, c) && c.ty == t.ty && c.cur < |p|
    ensures At(p, Enter(p, c), PreorderAll(t.kids) + (PreorderAll(ts) + more)) && Loaded(p, Enter(p, c))
  {
    assert ([t] + ts)[1..] == ts;
    PreorderStep([t] + ts, more);
    hide PreorderAll;
    AtLoaded(p, c, PreorderAll([t] + ts) + more);
    EnterAt(p, c, PreorderAll([t] + ts) + more);
    AtLoaded(p, Enter(p, c), PreorderAll(t.kids) + (PreorderAll(ts) + more));
  }

  lemma {:induction false} SplitAhead(xs: seq<Tree>, ys: seq<Tree>, more: seq<Tok>)
    ensures PreorderAll(xs + ys) + more == PreorderAll(xs) + (PreorderAll(ys) + more)
  {
    PreorderAllAppend(xs, ys);
    hide PreorderAll;
  }

  lemma {:induction false} NothingAhead(more: seq<Tok>)
    ensures PreorderAll([]) + more == more
  {
  }

  lemma {:induction false} EndpointReadsBack(p: seq<byte>, c: Cursor, m: Machine, h: Host, e: Endpoint)
    requires MachineOk(m) && Value(p, c) == EndpointImage(h, SwapEndpoint(h, e))
    ensures EndpointAt(p, c, m) == EraseEndpoint(e)
  {
    EndpointCrosses(h, m.host, e, m.endpointSize);
    hide EndpointImage, LoadEndpoint, EraseEndpoint, Clipped, Copied, SwapEndpoint, Value;
  }

  lemma {:induction false} EndpointsReadBack(p: seq<byte>, c: Cursor, m: Machine, h: Host, es: seq<Endpoint>,
                                             more: seq<Tok>)
    requires MachineOk(m) && At(p, c, PreorderAll(EndpointItems(h, es)) + more)
    ensures Loaded(p, c)
    ensures var r := Endpoints(p, c, m, |es|); r.value == EraseEndpoints(es) && At(p, r.c, more)
    decreases |es|
  {
    hide At, EndpointImage, EndpointAt, EraseEndpoint, SwapEndpoint, PreorderAll, Next, Value;
    if es == [] {
      NothingAhead(more);
      AtLoaded(p, c, more);
    } else {
      LeafAhead(p, c, Leaf(RAW_TYPE, EndpointImage(h, SwapEndpoint(h, es[0]))), EndpointItems(h, es[1..]), more);
      EndpointReadsBack(p, c, m, h, es[0]);
      EndpointsReadBack(p, Next(p, c), m, h, es[1..], more);
    }
  }

  lemma {:induction false} ExtrasReadBack(p: seq<byte>, c: Cursor, extra: seq<byte>, more: seq<Tok>)
    requires At(p, c, PreorderAll(ExtraItems(extra)) + more) && |extra| < 0x8000_0000
    ensures Loaded(p, c)
    ensures var r := Extras(p, c); r.value == extra && At(p, r.c, more)
  {
    hide At, Next, Value, PreorderAll, AsInt, Numeric;
    SignedRoundTripC(4, |extra|);
    var length, tail := Leaf(INTEGER_TYPE, Numeric(4, |extra|)), if extra != [] then [Leaf(RAW_TYPE, extra)] else [];
    LeafAhead(p, c, length, tail, more);
    NothingAhead(more);
    if extra != [] {
      assert [Leaf(RAW_TYPE, extra)] + [] == tail;
      LeafAhead(p, Next(p, c), Leaf(RAW_TYPE, extra), [], more);
    }
  }

  lemma {:induction false} AltsettingReadsBack(p: seq<byte>, c: Cursor, m: Machine, h: Host, a: Altsetting,
                                               ts: seq<Tree>, more: seq<Tok>)
    requires MachineOk(m) && AltsettingOk(a)
    requires At(p, c, PreorderAll([Leaf(RAW_TYPE, AltsettingImage(a))]
                                  + (EndpointItems(h, a.endpoints) + (ExtraItems(a.extra) + ts))) + more)
    ensures Loaded(p, c)
    ensures var r := OneAltsetting(p, c, m); r.value == EraseAltsetting(a) && At(p, r.c, PreorderAll(ts) + more)
  {
    var es, xs := EndpointItems(h, a.endpoints), ExtraItems(a.extra);
    AltsettingCrosses(a, m.altsettingSize);
    hide At, Next, Value, PreorderAll, AltsettingImage, LoadAltsetting, EndpointItems, ExtraItems, Clipped, Copied;
    LeafAhead(p, c, Leaf(RAW_TYPE, AltsettingImage(a)), es + (xs + ts), more);
    assert AltsettingHead(p, c, m) == a.(tail := [], endpoints := [], extra := []);
    SplitAhead(es, xs + ts, more);
    EndpointsReadBack(p, Next(p, c), m, h, a.endpoints, PreorderAll(xs + ts) + more);
    SplitAhead(xs, ts, more);
    hide Endpoints;
    ExtrasReadBack(p, Endpoints(p, Next(p, c), m, |a.endpoints|).c, a.extra, PreorderAll(ts) + more);
    hide Extras;
  }

  lemma {:induction false} AltsettingsReadBack(p: seq<byte>, c: Cursor, m: Machine, h: Host, xs: seq<Altsetting>,
                                               more: seq<Tok>)
    requires MachineOk(m) && At(p, c, PreorderAll(AltsettingItems(h, xs)) + more)
    requires forall a <- xs :: AltsettingOk(a)
    ensures Loaded(p, c)
    ensures var r := Altsettings(p, c, m, |xs|); r.value == EraseAltsettings(xs) && At(p, r.c, more)
    decreases |xs|
  {
    hide At, AltsettingOk, AltsettingImage, EraseAltsetting, OneAltsetting, PreorderAll;
    if xs == [] {
      NothingAhead(more);
      AtLoaded(p, c, more);
    } else {
      assert xs[0] in xs;
      AltsettingReadsBack(p, c, m, h, xs[0], AltsettingItems(h, xs[1..]), more);
      AltsettingsReadBack(p, OneAltsetting(p, c, m).c, m, h, xs[1..], more);
    }
  }

  lemma {:induction false} InterfacesReadBack(p: seq<byte>, c: Cursor, m: Machine, h: Host, xs: seq<Interface>,
                                              more: seq<Tok>)
    requires MachineOk(m) && At(p, c, PreorderAll(InterfaceItems(h, xs)) + more)
    requires forall i <- xs :: InterfaceOk(i)
    ensures Loaded(p, c)
    ensures var r := Interfaces(p, c, m, |xs|); r.value == EraseInterfaces(xs) && At(p, r.c, more)
    decreases |xs|
  {
    hide At, Next, Value, AsInt, Numeric, AltsettingItems, EraseAltsettings, Altsettings, PreorderAll;
    if xs == [] {
      NothingAhead(more);
      AtLoaded(p, c, more);
    } else {
      assert xs[0] in xs;
      var alts, rest := xs[0].altsettings, InterfaceItems(h, xs[1..]);
      SignedRoundTripC(4, |alts|);
      LeafAhead(p, c, Leaf(INTEGER_TYPE, Numeric(4, |alts|)), AltsettingItems(h, alts) + rest, more);
      SplitAhead(AltsettingItems(h, alts), rest, more);
      AltsettingsReadBack(p, Next(p, c), m, h, alts, PreorderAll(rest) + more);
      InterfacesReadBack(p, Altsettings(p, Next(p, c), m, |alts|).c, m, h, xs[1..], more);
    }
  }

  lemma {:induction false} ConfigReadsBack(p: seq<byte>, c: Cursor, m: Machine, h: Host, cfg: Config, ts: seq<Tree>,
                                           more: seq<Tok>)
    requires MachineOk(m) && ConfigOk(cfg)
    requires At(p, c, PreorderAll([Leaf(RAW_TYPE, ConfigImage(h, SwapConfig(h, cfg)))]
                                  + (InterfaceItems(h, cfg.interfaces) + ts)) + more)
    ensures Loaded(p, c) && c.ty == RAW_TYPE
    ensures var r := OneConfig(p, c, m); r.value == EraseConfig(cfg) && At(p, r.c, PreorderAll(ts) + more)
  {
    var ifaces := InterfaceItems(h, cfg.interfaces);
    ConfigCrosses(h, m.host, cfg, m.configSize);
    hide At, Next, Value, PreorderAll, ConfigImage, LoadConfig, SwapConfig, InterfaceItems, Clipped, Copied;
    LeafAhead(p, c, Leaf(RAW_TYPE, ConfigImage(h, SwapConfig(h, cfg))), ifaces + ts, more);
    assert ConfigHead(p, c, m) == cfg.(tail := [], interfaces := [], extra := []);
    SplitAhead(ifaces, ts, more);
    InterfacesReadBack(p, Next(p, c), m, h, cfg.interfaces, PreorderAll(ts) + more);
    hide Interfaces;
  }

  lemma {:induction false} ConfigsReadBack(p: seq<byte>, c: Cursor, m: Machine, h: Host, cs: seq<Config>,
                                           more: seq<Tok>)
    requires MachineOk(m) && At(p, c, PreorderAll(ConfigItems(h, cs)) + more)
    requires forall cfg <- cs :: ConfigOk(cfg)
    ensures Loaded(p, c)
    ensures var r := Configs(p, c, m, |cs|); r.value == EraseConfigs(cs) && At(p, r.c, more)
    decreases |cs|
  {
    hide At, ConfigOk, ConfigImage, EraseConfig, OneConfig, PreorderAll;
    if cs == [] {
      NothingAhead(more);
      AtLoaded(p, c, more);
    } else {
      assert cs[0] in cs;
      ConfigReadsBack(p, c, m, h, cs[0], ConfigItems(h, cs[1..]), more);
      ConfigsReadBack(p, OneConfig(p, c, m).c, m, h, cs[1..], more);
    }
  }

  lemma {:induction false} NameReadsBack(name: seq<byte>)
    requires 0 !in name
    ensures CString(name + [0]) == name
  {
    CStringOfTerminated(name, []);
    assert name + [0] + [] == name + [0];
  }

  lemma {:induction false} HeadReadsBack(p: seq<byte>, c: Cursor, m: Machine, h: Host, d: Device, more: seq<Tok>)
    requires DeviceOk(d) && At(p, c, PreorderAll(DeviceItems(h, d)) + more)
    ensures Loaded(p, c)
    ensures var r := DeviceHead(p, c, m);
      r.value == d.(configs := [], children := []) && At(p, r.c, PreorderAll(ConfigItems(h, d.configs)) + more)
  {
    var number := Leaf(UNSIGNED_TYPE, Numeric(1, d.devnum));
    var image := Leaf(RAW_TYPE, DescriptorImage(h, SwapDescriptor(h, d.descriptor)));
    var configs := ConfigItems(h, d.configs);
    NameReadsBack(d.filename);
    UnsignedRoundTrip(1, d.devnum);
    DescriptorCrosses(h, m.host, d.descriptor);
    assert Clipped(image.value, |image.value|) == image.value;
    hide At, Next, Value, AsUInt, Numeric, CString, DescriptorImage, LoadDescriptor, SwapDescriptor, ConfigItems,
      PreorderAll, Clipped, Copied, ConfigOk;
    LeafAhead(p, c, Leaf(OCTET_TYPE, d.filename + [0]), [number] + ([image] + configs), more);
    var c1 := Next(p, c);
    LeafAhead(p, c1, number, [image] + configs, more);
    LeafAhead(p, Next(p, c1), image, configs, more);
  }

  lemma {:induction false} DeviceReadsBack(p: seq<byte>, c: Cursor, m: Machine, h: Host, d: Device, more: seq<Tok>)
    requires MachineOk(m) && DeviceOk(d) && At(p, c, PreorderAll(DeviceItems(h, d)) + more)
    ensures Loaded(p, c)
    ensures var r := OneDevice(p, c, m); r.value == EraseDevice(d) && At(p, r.c, more)
  {
    hide At, DeviceHead, DeviceItems, ConfigItems, ConfigOk, PreorderAll, EraseConfigs;
    HeadReadsBack(p, c, m, h, d, more);
    ConfigsReadBack(p, DeviceHead(p, c, m).c, m, h, d.configs, more);
    hide Configs;
  }

  lemma {:induction false} DevicesReadBack(p: seq<byte>, c: Cursor, m: Machine, h: Host, ds: seq<Device>,
                                           more: seq<Tok>)
    requires MachineOk(m) && At(p, c, PreorderAll(DeviceBlocks(h, ds)) + more)
    requires more != [] ==> more[0].ty != SEQUENCE_TYPE
    requires forall d <- ds :: DeviceOk(d)
    ensures Loaded(p, c)
    ensures var r := Devices(p, c, m); r.value == EraseDevices(ds) && At(p, r.c, more)
    decreases |ds|
  {
    if ds == [] {
      NothingAhead(more);
      AtLoaded(p, c, more);
    } else {
      assert ds[0] in ds;
      var rest := DeviceBlocks(h, ds[1..]);
      assert DeviceBlocks(h, ds) == [DeviceBlock(h, ds[0])] + rest;
      hide At, DeviceItems, DeviceBlocks, DeviceOk, EraseDevice, OneDevice, PreorderAll, Enter;
      NodeAhead(p, c, DeviceBlock(h, ds[0]), rest, more);
      DeviceReadsBack(p, Enter(p, c), m, h, ds[0], PreorderAll(rest) + more);
      DevicesReadBack(p, OneDevice(p, Enter(p, c), m).c, m, h, ds[1..], more);
    }
  }

  lemma {:induction false} BusReadsBack(p: seq<byte>, c: Cursor, m: Machine, h: Host, b: Bus, more: seq<Tok>)
    requires MachineOk(m) && BusOk(b) && At(p, c, PreorderAll(BusItems(h, b)) + more)
    requires more != [] ==> more[0].ty != SEQUENCE_TYPE
    ensures Loaded(p, c)
    ensures var r := OneBus(p, c, m); r.value == EraseBus(b) && At(p, r.c, more)
  {
    var location, devices := Leaf(UNSIGNED_TYPE, Numeric(4, b.location)), DeviceBlocks(h, b.devices);
    NameReadsBack(b.dirname);
    UnsignedRoundTrip(4, b.location);
    hide At, Next, Value, AsUInt, Numeric, CString, DeviceBlocks, DeviceOk, PreorderAll, EraseDevices;
    LeafAhead(p, c, Leaf(OCTET_TYPE, b.dirname + [0]), [location] + devices, more);
    LeafAhead(p, Next(p, c), location, devices, more);
    DevicesReadBack(p, Next(p, Next(p, c)), m, h, b.devices, more);
    hide Devices;
  }

  /** Behind a bus comes another bus or nothing. */
  lemma {:induction false} BusFollows(h: Host, bs: seq<Bus>)
    ensures var toks := PreorderAll(BusBlocks(h, bs)) + []; toks != [] ==> toks[0].ty != SEQUENCE_TYPE
  {
    if bs != [] {
      assert BusBlocks(h, bs)[0] == BusBlock(h, bs[0]);
      PreorderStep(BusBlocks(h, bs), []);
    }
  }

  lemma {:induction false} BussesReadBack(p: seq<byte>, c: Cursor, m: Machine, h: Host, bs: seq<Bus>)
    requires MachineOk(m) && TreeOk(bs) && At(p, c, PreorderAll(BusBlocks(h, bs)) + [])
    ensures Loaded(p, c)
    ensures Busses(p, c, m).value == EraseTree(bs)
    decreases |bs|
  {
    if bs == [] {
      NothingAhead([]);
      AtLoaded(p, c, []);
    } else {
      assert bs[0] in bs;
      var rest := BusBlocks(h, bs[1..]);
      assert BusBlocks(h, bs) == [BusBlock(h, bs[0])] + rest;
      BusFollows(h, bs[1..]);
      hide At, BusItems, BusBlocks, BusOk, EraseBus, OneBus, PreorderAll, Enter;
      NodeAhead(p, c, BusBlock(h, bs[0]), rest, []);
      BusReadsBack(p, Enter(p, c), m, h, bs[0], PreorderAll(rest) + []);
      BussesReadBack(p, OneBus(p, Enter(p, c), m).c, m, h, bs[1..]);
    }
  }

  /** Buses with any other items in front of and between them. */
  datatype Entry = Found(bus: Bus) | Other(ty: byte, value: seq<byte>)

  function EntryItems(h: Host, es: seq<Entry>): seq<Tree> {
    if es == [] then []
    else [if es[0].Found? then BusBlock(h, es[0].bus) else Leaf(es[0].ty, es[0].value)] + EntryItems(h, es[1..])
  }

  function BussesOf(es: seq<Entry>): seq<Bus> {
    if es == [] then [] else (if es[0].Found? then [EraseBus(es[0].bus)] else []) + BussesOf(es[1..])
  }

  predicate EntriesOk(es: seq<Entry>) {
    forall e <- es :: if e.Found? then BusOk(e.bus) else !Structural(e.ty)
  }

  lemma {:induction false} EntryFollows(h: Host, es: seq<Entry>)
    requires EntriesOk(es)
    ensures var toks := PreorderAll(EntryItems(h, es)) + []; toks != [] ==> toks[0].ty != SEQUENCE_TYPE
  {
    if es != [] {
      assert es[0] in es;
      PreorderStep(EntryItems(h, es), []);
    }
  }

  /** Items that are no buses are stepped over: wherever they stand, the buses read are the same. */
  lemma {:induction false} OthersAreSkipped(p: seq<byte>, c: Cursor, m: Machine, h: Host, es: seq<Entry>)
    requires MachineOk(m) && EntriesOk(es) && At(p, c, PreorderAll(EntryItems(h, es)) + [])
    ensures Loaded(p, c)
    ensures Busses(p, c, m).value == BussesOf(es)
    decreases |es|
  {
    if es == [] {
      NothingAhead([]);
      AtLoaded(p, c, []);
    } else {
      var rest := EntryItems(h, es[1..]);
      assert es[0] in es && EntriesOk(es[1..]) by { assert forall e <- es[1..] :: e in es; }
      EntryFollows(h, es[1..]);
      AtLoaded(p, c, PreorderAll(EntryItems(h, es)) + []);
      hide At, BusItems, EntriesOk, BusOk, EraseBus, OneBus, PreorderAll, Enter, Next;
      if es[0].Found? {
        NodeAhead(p, c, BusBlock(h, es[0].bus), rest, []);
        BusReadsBack(p, Enter(p, c), m, h, es[0].bus, PreorderAll(rest) + []);
        OthersAreSkipped(p, OneBus(p, Enter(p, c), m).c, m, h, es[1..]);
      } else {
        LeafAhead(p, c, Leaf(es[0].ty, es[0].value), rest, []);
        SomethingAhead(p, c, Leaf(es[0].ty, es[0].value), rest);
        OthersAreSkipped(p, Next(p, c), m, h, es[1..]);
        assert [] + BussesOf(es[1..]) == BussesOf(es[1..]);
      }
    }
  }

  lemma {:induction false} SomethingAhead(p: seq<byte>, c: Cursor, t: Tree, ts: seq<Tree>)
    requires At(p, c, PreorderAll([t] + ts) + [])
    ensures c.cur < |p|
  {
    PreorderStep([t] + ts, []);
    hide PreorderAll;
    AtLoaded(p, c, PreorderAll([t] + ts) + []);
  }

  /** The client reads from the server's reply the server's tree, in order, whatever the byte orders and
      structure sizes of the two machines; only config extras, endpoint extras and children are lost. */
  lemma {:induction false} ReplyReadsBack(m: Machine, h: Host, changes: i32, tree: seq<Bus>)
    requires MachineOk(m) && TreeOk(tree)
    requires |EncodeAll(ReplyItems(h, changes, tree))| < 0x8000_0000
    ensures ParseReply(EncodeAll(ReplyItems(h, changes, tree)), m) == Reply(changes, EraseTree(tree))
  {
    var items := ReplyItems(h, changes, tree);
    var p := EncodeAll(items);
    ReplyIsFlat(h, changes, tree);
    BeginAt(PreorderAll(items));
    assert PreorderAll(items) + [] == PreorderAll(items);
    SignedRoundTripC(4, changes);
    hide At, Next, Value, AsInt, Numeric, BusBlocks, PreorderAll, EncodeAll, TreeOk, EraseTree, Begin;
    LeafAhead(p, Begin(p), Leaf(INTEGER_TYPE, Numeric(4, changes)), BusBlocks(h, tree), []);
    BussesReadBack(p, Next(p, Begin(p)), m, h, tree);
    hide Busses;
  }
}

/** The tree serializer: `UsbService::usb_find_devices` of src/server/usbservice.cpp. */
module Serializer {
  import opened Bytes
  import opened Protobase
  import opened Tlv
  import opened Framing
  import opened DeviceTree
  import opened CppProtocol
  import opened Opcodes
  import Builder

  /** The block is the innermost one and has no finished sub-blocks behind its cursor. */
  ghost predicate Writing(block: Struct)
    reads block, block.buf
  {
    block.pos <= block.cursor == |block.buf.bytes|
  }

  lemma {:induction false} AtEnd(b: seq<byte>, item: seq<byte>)
    ensures InsertAt(b, |b|, item) == b + item
  {
  }

  lemma {:induction false} EncodeAllCons(b: seq<byte>, t: Tree, ts: seq<Tree>)
    ensures (b + Encode(t)) + EncodeAll(ts) == b + EncodeAll([t] + ts)
  {
    assert ([t] + ts)[1..] == ts;
    hide Encode;
  }

  lemma {:induction false} EncodeAllPlus(b: seq<byte>, xs: seq<Tree>, ys: seq<Tree>)
    ensures (b + EncodeAll(xs)) + EncodeAll(ys) == b + EncodeAll(xs + ys)
  {
    EncodeAllAppend(xs, ys);
    hide EncodeAll;
  }

  /** `addData` of a structure or of non-empty extras. */
  method AddRaw(block: Struct, data: seq<byte>)
    requires Writing(block) && data != []
    modifies block, block.buf
    ensures Writing(block)
    ensures block.buf.bytes == old(block.buf.bytes) + Encode(Leaf(RAW_TYPE, data))
  {
    assert data[..|data|] == data;
    AtEnd(block.buf.bytes, ItemBytes(RAW_TYPE, |data|, data));
    block.AddData(Some(data), |data|, RAW_TYPE);
  }

  method AddNumber(block: Struct, ty: byte, width: nat, val: int)
    requires Writing(block) && (width == 1 || width == 2 || width == 4)
    modifies block, block.buf
    ensures Writing(block)
    ensures block.buf.bytes == old(block.buf.bytes) + Encode(Leaf(ty, Numeric(width, val)))
  {
    AtEnd(block.buf.bytes, TokBytes(LeafTok(ty, Numeric(width, val))));
    block.AddNumeric(ty, width, val);
  }

  method AddName(block: Struct, name: seq<byte>)
    requires Writing(block) && 0 !in name
    modifies block, block.buf
    ensures Writing(block)
    ensures block.buf.bytes == old(block.buf.bytes) + Encode(Leaf(OCTET_TYPE, name + [0]))
  {
    CStringOfTerminated(name, []);
    assert name + [0] + [] == name + [0];
    AtEnd(block.buf.bytes, TokBytes(LeafTok(OCTET_TYPE, name + [0])));
    block.AddString(Some(name + [0]), OCTET_TYPE);
  }

  method AddEndpoints(block: Struct, h: Host, a: Altsetting)
    requires Writing(block) && AltsettingOk(a)
    modifies block, block.buf
    ensures Writing(block)
    ensures block.buf.bytes == old(block.buf.bytes) + EncodeAll(EndpointItems(h, a.endpoints))
  {
    ghost var goal := block.buf.bytes + EncodeAll(EndpointItems(h, a.endpoints));
    var k := 0;
    assert a.endpoints[0..] == a.endpoints;
    while k < a.bNumEndpoints as int
      invariant 0 <= k <= |a.endpoints|
      invariant Writing(block)
      invariant block.buf.bytes + EncodeAll(EndpointItems(h, a.endpoints[k..])) == goal
    {
      var image := EndpointImage(h, SwapEndpoint(h, a.endpoints[k]));
      assert a.endpoints[k..][1..] == a.endpoints[k + 1..];
      EncodeAllCons(block.buf.bytes, Leaf(RAW_TYPE, image), EndpointItems(h, a.endpoints[k + 1..]));
      AddRaw(block, image);
      k := k + 1;
    }
  }

  method AddExtras(block: Struct, a: Altsetting)
    requires Writing(block) && AltsettingOk(a)
    modifies block, block.buf
    ensures Writing(block)
    ensures block.buf.bytes == old(block.buf.bytes) + EncodeAll(ExtraItems(a.extra))
  {
    ghost var b := block.buf.bytes;
    var extralen := |a.extra|;
    EncodeAllCons(b, Leaf(INTEGER_TYPE, Numeric(4, extralen)), if a.extra != [] then [Leaf(RAW_TYPE, a.extra)] else []);
    if extralen > 0 {
      AddNumber(block, INTEGER_TYPE, 4, extralen);
      AddRaw(block, a.extra);
      EncodeAllOne(Leaf(RAW_TYPE, a.extra));
    } else {
      AddNumber(block, INTEGER_TYPE, 4, 0);
    }
  }

  method AddAltsettings(block: Struct, h: Host, i: Interface)
    requires Writing(block) && InterfaceOk(i)
    modifies block, block.buf
    ensures Writing(block)
    ensures block.buf.bytes == old(block.buf.bytes) + EncodeAll(AltsettingItems(h, i.altsettings))
  {
    var xs := i.altsettings;
    ghost var goal := block.buf.bytes + EncodeAll(AltsettingItems(h, xs));
    var j := 0;
    assert xs[0..] == xs;
    while j < |xs|
      invariant 0 <= j <= |xs|
      invariant Writing(block)
      invariant block.buf.bytes + EncodeAll(AltsettingItems(h, xs[j..])) == goal
    {
      var a := xs[j];
      assert AltsettingOk(a) by { assert a in xs; }
      assert xs[j..][1..] == xs[j + 1..];
      ghost var b, more := block.buf.bytes, AltsettingItems(h, xs[j + 1..]);
      ghost var head := Leaf(RAW_TYPE, AltsettingImage(a));
      assert AltsettingItems(h, xs[j..]) ==
        [head] + (EndpointItems(h, a.endpoints) + (ExtraItems(a.extra) + more));
      AltsettingBytes(b, head, EndpointItems(h, a.endpoints), ExtraItems(a.extra), more);
      AddRaw(block, AltsettingImage(a));
      AddEndpoints(block, h, a);
      AddExtras(block, a);
      j := j + 1;
    }
  }

  lemma {:induction false} AltsettingBytes(b: seq<byte>, head: Tree, xs: seq<Tree>, ys: seq<Tree>, more: seq<Tree>)
    ensures (((b + Encode(head)) + EncodeAll(xs)) + EncodeAll(ys)) + EncodeAll(more)
         == b + EncodeAll([head] + (xs + (ys + more)))
  {
    EncodeAllCons(b, head, xs + (ys + more));
    EncodeAllPlus(b + Encode(head), xs, ys + more);
    EncodeAllPlus((b + Encode(head)) + EncodeAll(xs), ys, more);
  }

  lemma {:induction false} HeadBytes(b: seq<byte>, head: Tree, xs: seq<Tree>, more: seq<Tree>)
    ensures ((b + Encode(head)) + EncodeAll(xs)) + EncodeAll(more) == b + EncodeAll([head] + (xs + more))
  {
    EncodeAllCons(b, head, xs + more);
    EncodeAllPlus(b + Encode(head), xs, more);
  }

  method AddInterfaces(block: Struct, h: Host, c: Config)
    requires Writing(block) && ConfigOk(c)
    modifies block, block.buf
    ensures Writing(block)
    ensures block.buf.bytes == old(block.buf.bytes) + EncodeAll(InterfaceItems(h, c.interfaces))
  {
    ghost var goal := block.buf.bytes + EncodeAll(InterfaceItems(h, c.interfaces));
    var i := 0;
    assert c.interfaces[0..] == c.interfaces;
    while i < c.bNumInterfaces as int
      invariant 0 <= i <= |c.interfaces|
      invariant Writing(block)
      invariant block.buf.bytes + EncodeAll(InterfaceItems(h, c.interfaces[i..])) == goal
    {
      var iface := c.interfaces[i];
      assert InterfaceOk(iface) by { assert iface in c.interfaces; }
      assert c.interfaces[i..][1..] == c.interfaces[i + 1..];
      ghost var count := Leaf(INTEGER_TYPE, Numeric(4, |iface.altsettings|));
      HeadBytes(block.buf.bytes, count, AltsettingItems(h, iface.altsettings),
                InterfaceItems(h, c.interfaces[i + 1..]));
      AddNumber(block, INTEGER_TYPE, 4, |iface.altsettings|);
      AddAltsettings(block, h, iface);
      i := i + 1;
    }
  }

  method AddConfigs(block: Struct, h: Host, d: Device)
    requires Writing(block) && DeviceOk(d)
    modifies block, block.buf
    ensures Writing(block)
    ensures block.buf.bytes == old(block.buf.bytes) + EncodeAll(ConfigItems(h, d.configs))
  {
    ghost var goal := block.buf.bytes + EncodeAll(ConfigItems(h, d.configs));
    var c := 0;
    assert d.configs[0..] == d.configs;
    while c < d.descriptor.bNumConfigurations as int
      invariant 0 <= c <= |d.configs|
      invariant Writing(block)
      invariant block.buf.bytes + EncodeAll(ConfigItems(h, d.configs[c..])) == goal
    {
      var cfg := d.configs[c];
      assert ConfigOk(cfg) by { assert cfg in d.configs; }
      assert d.configs[c..][1..] == d.configs[c + 1..];
      var image := ConfigImage(h, SwapConfig(h, cfg));
      HeadBytes(block.buf.bytes, Leaf(RAW_TYPE, image), InterfaceItems(h, cfg.interfaces),
                ConfigItems(h, d.configs[c + 1..]));
      AddRaw(block, image);
      AddInterfaces(block, h, cfg);
      c := c + 1;
    }
  }

  /** One device: a block of its own at the end of the string, finalized when complete. */
  method AddDevice(block: Struct, h: Host, d: Device)
    requires block.Valid() && DeviceOk(d)
    modifies block.buf
    ensures block.buf.bytes == old(block.buf.bytes) + Encode(DeviceBlock(h, d))
  {
    hide DescriptorImage, SwapDescriptor, ConfigItems, PackSize;
    ghost var b := block.buf.bytes;
    var devBlock := block.WriteBlock(SEQUENCE_TYPE);
    ghost var start := devBlock.buf.bytes;
    AddName(devBlock, d.filename);
    AddNumber(devBlock, UNSIGNED_TYPE, 1, d.devnum);
    var image := DescriptorImage(h, SwapDescriptor(h, d.descriptor));
    AddRaw(devBlock, image);
    AddConfigs(devBlock, h, d);
    ThreeBytes(start, Leaf(OCTET_TYPE, d.filename + [0]), Leaf(UNSIGNED_TYPE, Numeric(1, d.devnum)),
               Leaf(RAW_TYPE, image), ConfigItems(h, d.configs));
    assert devBlock.buf.bytes == b + [SEQUENCE_TYPE] + EncodeAll(DeviceItems(h, d));
    Builder.FinalizeBody(b, SEQUENCE_TYPE, EncodeAll(DeviceItems(h, d)));
    devBlock.Finalize();
  }

  lemma {:induction false} ThreeBytes(b: seq<byte>, x: Tree, y: Tree, z: Tree, more: seq<Tree>)
    ensures (((b + Encode(x)) + Encode(y)) + Encode(z)) + EncodeAll(more) == b + EncodeAll([x] + ([y] + ([z] + more)))
  {
    EncodeAllCons(b, x, [y] + ([z] + more));
    EncodeAllCons(b + Encode(x), y, [z] + more);
    EncodeAllCons((b + Encode(x)) + Encode(y), z, more);
  }

  lemma {:induction false} TwoBytes(b: seq<byte>, x: Tree, y: Tree, more: seq<Tree>)
    ensures ((b + Encode(x)) + Encode(y)) + EncodeAll(more) == b + EncodeAll([x] + ([y] + more))
  {
    EncodeAllCons(b, x, [y] + more);
    EncodeAllCons(b + Encode(x), y, more);
  }

  method AddDevices(block: Struct, h: Host, b: Bus)
    requires block.Valid() && BusOk(b)
    modifies block.buf
    ensures block.buf.bytes == old(block.buf.bytes) + EncodeAll(DeviceBlocks(h, b.devices))
  {
    var ds := b.devices;
    ghost var goal := block.buf.bytes + EncodeAll(DeviceBlocks(h, ds));
    var n := 0;
    assert ds[0..] == ds;
    while n < |ds|
      invariant 0 <= n <= |ds|
      invariant block.Valid()
      invariant block.buf.bytes + EncodeAll(DeviceBlocks(h, ds[n..])) == goal
    {
      assert DeviceOk(ds[n]) by { assert ds[n] in ds; }
      assert ds[n..][1..] == ds[n + 1..];
      EncodeAllCons(block.buf.bytes, DeviceBlock(h, ds[n]), DeviceBlocks(h, ds[n + 1..]));
      AddDevice(block, h, ds[n]);
      n := n + 1;
    }
  }

  method AddBus(head: Struct, h: Host, bus: Bus)
    requires head.Valid() && BusOk(bus)
    modifies head.buf
    ensures head.buf.bytes == old(head.buf.bytes) + Encode(BusBlock(h, bus))
  {
    ghost var b := head.buf.bytes;
    var block := head.WriteBlock(STRUCTURE_TYPE);
    ghost var start := block.buf.bytes;
    AddName(block, bus.dirname);
    AddNumber(block, UNSIGNED_TYPE, 4, bus.location);
    AddDevices(block, h, bus);
    TwoBytes(start, Leaf(OCTET_TYPE, bus.dirname + [0]), Leaf(UNSIGNED_TYPE, Numeric(4, bus.location)),
             DeviceBlocks(h, bus.devices));
    assert block.buf.bytes == b + [STRUCTURE_TYPE] + EncodeAll(BusItems(h, bus));
    Builder.FinalizeBody(b, STRUCTURE_TYPE, EncodeAll(BusItems(h, bus)));
    block.Finalize();
  }

  method AddBusses(head: Struct, h: Host, busses: seq<Bus>)
    requires head.Valid() && TreeOk(busses)
    modifies head.buf
    ensures head.buf.bytes == old(head.buf.bytes) + EncodeAll(BusBlocks(h, busses))
  {
    hide Encode, BusItems, BusOk;
    ghost var goal := head.buf.bytes + EncodeAll(BusBlocks(h, busses));
    var n := 0;
    assert busses[0..] == busses;
    while n < |busses|
      invariant 0 <= n <= |busses|
      invariant head.Valid()
      invariant head.buf.bytes + EncodeAll(BusBlocks(h, busses[n..])) == goal
    {
      assert busses[n] in busses;
      assert busses[n..][1..] == busses[n + 1..];
      EncodeAllCons(head.buf.bytes, BusBlock(h, busses[n]), BusBlocks(h, busses[n + 1..]));
      AddBus(head, h, busses[n]);
      n := n + 1;
    }
  }

  /** `usb_find_devices`: the reply sent is exactly the encoding of the server's tree. */
  method FindDevices(sock: Socket, h: Host, res: i32, busses: seq<Bus>)
    requires TreeOk(busses)
    modifies sock`sent
    ensures sock.sent == old(sock.sent) +
      FrameBytes(Frame(USB_FIND_DEVICES, EncodeAll(ReplyItems(h, res, busses))))
  {
    var pkt := new Packet(USB_FIND_DEVICES);
    ghost var start := pkt.buf.bytes;
    AddNumber(pkt.head, INTEGER_TYPE, 4, res);
    AddBusses(pkt.head, h, busses);
    EncodeAllCons(start, Leaf(INTEGER_TYPE, Numeric(4, res)), BusBlocks(h, busses));
    ghost var payload := EncodeAll(ReplyItems(h, res, busses));
    assert pkt.buf.bytes == [USB_FIND_DEVICES] + payload;
    assert pkt.buf.bytes[1..] == payload;
    pkt.Send(sock);
  }
}

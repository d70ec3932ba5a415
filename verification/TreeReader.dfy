/** The reading half of the client's `usb_find_devices` (src/usbnet.c): the nested loops that fill one
    device from the iterator. On every payload they read what the functions of TreeParser say. */
module TreeReader {
  import opened Bytes
  import opened Protobase
  import opened DeviceTree
  import opened CProtocol
  import opened TreeParser
  import C = Cursor

  /** The iterator has loaded an item, or stands at the end. */
  ghost predicate Ready(it: Iterator)
    reads it, it.buf
  {
    it.Valid() && C.Loaded(it.Payload(), it.State())
  }

  method ReadEndpoint(it: Iterator, m: Machine) returns (e: Endpoint)
    requires Ready(it)
    modifies it
    ensures Ready(it)
    ensures e == EndpointAt(it.Payload(), old(it.State()), m) && it.State() == C.Next(it.Payload(), old(it.State()))
  {
    hide LoadEndpoint, SwapEndpoint, Copied, C.Next, C.Value;
    C.StepsAdvance(it.Payload(), it.State());
    e := SwapEndpoint(m.host, LoadEndpoint(m.host, Copied(it.Octets(), m.endpointSize, HEAD_SIZE)));
    it.Next();
  }

  method ReadEndpoints(it: Iterator, m: Machine, n: byte) returns (out: seq<Endpoint>)
    requires Ready(it)
    modifies it
    ensures Ready(it)
    ensures Read(out, it.State()) == Endpoints(it.Payload(), old(it.State()), m, n)
  {
    hide EndpointAt, C.Next, C.Loaded;
    ghost var p, goal := it.Payload(), Endpoints(it.Payload(), it.State(), m, n);
    out := [];
    assert [] + goal.value == goal.value;
    var k := 0;
    while k < n as int
      invariant 0 <= k <= n && Ready(it)
      invariant var rest := Endpoints(p, it.State(), m, n - k); out + rest.value == goal.value && rest.c == goal.c
    {
      var e := ReadEndpoint(it, m);
      out := out + [e];
      k := k + 1;
    }
    assert out + [] == out;
  }

  /** The length of the extras decides whether an item with them is taken. */
  method ReadExtras(it: Iterator) returns (out: seq<byte>)
    requires Ready(it)
    modifies it
    ensures Ready(it)
    ensures Read(out, it.State()) == Extras(it.Payload(), old(it.State()))
  {
    hide C.Next, C.Value, AsInt;
    C.StepsAdvance(it.Payload(), it.State());
    var extralen := it.GetInt();
    out := [];
    if extralen > 0 {
      C.StepsAdvance(it.Payload(), it.State());
      out := Clipped(it.Octets(), extralen);
      it.Next();
    }
  }

  method ReadAltsetting(it: Iterator, m: Machine) returns (out: Altsetting)
    requires Ready(it)
    modifies it
    ensures Ready(it)
    ensures Read(out, it.State()) == OneAltsetting(it.Payload(), old(it.State()), m)
  {
    hide LoadAltsetting, Copied, C.Next, C.Value, C.Loaded, Endpoints, Extras;
    C.StepsAdvance(it.Payload(), it.State());
    var head := LoadAltsetting(Copied(it.Octets(), m.altsettingSize, HEAD_SIZE));
    it.Next();
    var endpoints := ReadEndpoints(it, m, head.bNumEndpoints);
    var extra := ReadExtras(it);
    out := head.(endpoints := endpoints, extra := extra);
  }

  method ReadAltsettings(it: Iterator, m: Machine, n: u32) returns (out: seq<Altsetting>)
    requires Ready(it)
    modifies it
    ensures Ready(it)
    ensures Read(out, it.State()) == Altsettings(it.Payload(), old(it.State()), m, n)
  {
    hide C.Loaded, OneAltsetting;
    ghost var p, goal := it.Payload(), Altsettings(it.Payload(), it.State(), m, n);
    out := [];
    assert [] + goal.value == goal.value;
    var j := 0;
    while j < n
      invariant 0 <= j <= n && Ready(it)
      invariant var rest := Altsettings(p, it.State(), m, n - j); out + rest.value == goal.value && rest.c == goal.c
    {
      var a := ReadAltsetting(it, m);
      out := out + [a];
      j := j + 1;
    }
    assert out + [] == out;
  }

  method ReadInterfaces(it: Iterator, m: Machine, n: byte) returns (out: seq<Interface>)
    requires Ready(it)
    modifies it
    ensures Ready(it)
    ensures Read(out, it.State()) == Interfaces(it.Payload(), old(it.State()), m, n)
  {
    hide C.Loaded, C.Next, C.Value, AsInt, Altsettings;
    ghost var p, goal := it.Payload(), Interfaces(it.Payload(), it.State(), m, n);
    out := [];
    assert [] + goal.value == goal.value;
    var i := 0;
    while i < n as int
      invariant 0 <= i <= n && Ready(it)
      invariant var rest := Interfaces(p, it.State(), m, n - i); out + rest.value == goal.value && rest.c == goal.c
    {
      C.StepsAdvance(p, it.State());
      var count := it.GetInt();
      var altsettings := ReadAltsettings(it, m, Unsigned(count));
      out := out + [Interface(altsettings)];
      i := i + 1;
    }
    assert out + [] == out;
  }

  method ReadConfig(it: Iterator, m: Machine) returns (out: Config)
    requires Ready(it)
    modifies it
    ensures Ready(it)
    ensures Read(out, it.State()) == OneConfig(it.Payload(), old(it.State()), m)
  {
    hide LoadConfig, SwapConfig, Copied, C.Next, C.Value, C.Loaded, Interfaces;
    C.StepsAdvance(it.Payload(), it.State());
    var head := SwapConfig(m.host, LoadConfig(m.host, Copied(it.Octets(), m.configSize, HEAD_SIZE)));
    it.Next();
    var interfaces := ReadInterfaces(it, m, head.bNumInterfaces);
    out := head.(interfaces := interfaces);
  }

  /** Raw items are configurations as long as the descriptor announces more of them. */
  method ReadConfigs(it: Iterator, m: Machine, cfgnum: byte) returns (config: seq<Config>)
    requires Ready(it)
    modifies it
    ensures Ready(it)
    ensures Read(config, it.State()) == Configs(it.Payload(), old(it.State()), m, cfgnum)
  {
    hide C.Loaded, OneConfig;
    ghost var p, goal := it.Payload(), Configs(it.Payload(), it.State(), m, cfgnum);
    config := [];
    assert [] + goal.value == goal.value;
    var cfgid := 0;
    while it.ty == RAW_TYPE && cfgid < cfgnum as int
      invariant 0 <= cfgid <= cfgnum && Ready(it)
      invariant var rest := Configs(p, it.State(), m, cfgnum - cfgid);
        config + rest.value == goal.value && rest.c == goal.c
      decreases cfgnum as int - cfgid
    {
      var c := ReadConfig(it, m);
      config := config + [c];
      cfgid := cfgid + 1;
    }
    assert config + [] == config;
  }

  /** The fixed items of a device: file name, device number and descriptor. */
  method ReadHeader(it: Iterator, m: Machine) returns (filename: seq<byte>, devnum: byte, descriptor: Descriptor)
    requires Ready(it)
    modifies it
    ensures Ready(it)
    ensures Read(Device(filename, devnum, descriptor, [], []), it.State())
         == DeviceHead(it.Payload(), old(it.State()), m)
  {
    hide LoadDescriptor, SwapDescriptor, Copied, C.Next, C.Value, C.Loaded, CString, AsUInt;
    C.StepsAdvance(it.Payload(), it.State());
    filename := it.GetStr();
    C.StepsAdvance(it.Payload(), it.State());
    var n := it.GetUInt();
    devnum := n % 0x100;
    C.StepsAdvance(it.Payload(), it.State());
    descriptor := SwapDescriptor(m.host, LoadDescriptor(m.host, Copied(it.Octets(), it.len, DESCRIPTOR_SIZE)));
    it.Next();
  }
}

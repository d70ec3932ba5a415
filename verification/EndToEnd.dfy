/** One remote call through all the parts: stub, packet, stream, server, handler, reply, stub. */
module EndToEnd {
  import opened Bytes
  import opened Framing
  import opened Calls
  import opened Opcodes
  import opened Usb
  import opened Remote
  import opened UsbService
  import opened Tlv
  import opened DeviceTree
  import opened TreeParser
  import CProtocol
  import D = Discovery
  import Serializer
  import Stubs

  /** Any way of cutting a stream into chunks. */
  ghost predicate Cuts(cut: seq<byte> -> seq<seq<byte>>) {
    forall s :: Concat(cut(s)) == s && forall x <- cut(s) :: x != []
  }

  lemma {:induction false} FrameArrives(f: Frame)
    requires |f.payload| < 0xF100_0000
    ensures var s := FrameBytes(f);
      ParseFrame(s) == Some((f, [])) && Receivable(s) && DeclaredSize(s) + CProtocol.BUF_FRAGLEN < 0x1_0000_0000
  {
    ParseFrameAt(f, []);
    assert FrameBytes(f) + [] == FrameBytes(f);
    HeaderDecides(FrameBytes(f));
    hide FrameBytes;
  }

  lemma {:induction false} RequestFits(c: Call)
    requires InRange(c)
    ensures |Request(c)| < 0xF100_0000
  {
    RequestItemsOk(c);
    RequestSize(RequestItems(c));
  }

  /** The client's first half: the request is built and sent. */
  method Asking(pkt: CProtocol.Packet, c: Call) returns (request: seq<byte>)
    requires pkt.Valid() && InRange(c)
    modifies pkt, pkt.buf
    ensures pkt.Valid() && (pkt.buf == old(pkt.buf) || fresh(pkt.buf))
    ensures request == FrameBytes(Frame(Opcode(c), Request(c)))
  {
    hide Opcode, Request, FrameBytes, InRange;
    var up := new Socket([]);
    Stubs.SendRequest(pkt, c, up);
    request := up.sent;
    assert [] + FrameBytes(Frame(Opcode(c), Request(c))) == FrameBytes(Frame(Opcode(c), Request(c)));
  }

  /** The server's half: the request arrives in chunks, is decoded and served. */
  method Answering<W(!new)>(service: UsbService<W>, request: seq<byte>, c: Call, cut: seq<byte> -> seq<seq<byte>>)
      returns (sent: seq<byte>)
    requires Contract(service.lib) && InRange(c) && Cuts(cut)
    requires request == FrameBytes(Frame(Opcode(c), Request(c)))
    modifies service
    ensures service.State() == Serve(service.lib, old(service.State()), Sent(c)).0
    ensures sent == ReplyFrame(Sent(c), Serve(service.lib, old(service.State()), Sent(c)).1)
  {
    hide Decode, Sent, Opcode, Request, FrameBytes, ParseFrame, InRange, Serve, Contract, ReplyFrame, Handles, Concat;
    hide Receivable, DeclaredSize;
    DecodeRequest(c);
    RequestFits(c);
    FrameArrives(Frame(Opcode(c), Request(c)));
    ghost var s := service.State();
    var chunks := cut(request);
    assert Concat(chunks) == request && forall x <- chunks :: x != [];
    hide Cuts;
    var sock := new Socket(chunks);
    var _ := service.Read(sock);
    sent := sock.sent;
    assert request[..|request| - 0] == request;
    ghost var handled :| Handles(service.lib, request, s, service.State(), [], sent, handled);
    KnownCall(service.lib, request, Sent(c), s, service.State(), sent, handled);
  }

  lemma {:induction false} KnownCall<W(!new)>(lib: Lib<W>, request: seq<byte>, c: Call, s: Server<W>, s': Server<W>,
                                       sent: seq<byte>, handled: bool)
    requires Contract(lib) && request != [] && Decode(request) == Some(c)
    requires Handles(lib, request, s, s', [], sent, handled)
    ensures s' == Serve(lib, s, c).0 && sent == ReplyFrame(c, Serve(lib, s, c).1)
  {
    hide Decode, Serve, ReplyFrame, Contract;
    assert [] + ReplyFrame(c, Serve(lib, s, c).1) == ReplyFrame(c, Serve(lib, s, c).1);
  }

  /** The client's second half: the reply arrives in chunks and is read. */
  method Reading(pkt: CProtocol.Packet, bytes: seq<byte>, ghost reply: Frame, c: Call, cut: seq<byte> -> seq<seq<byte>>)
      returns (r: Result)
    requires !c.Init? && InRange(c)
    requires pkt.Valid() && Cuts(cut) && bytes == FrameBytes(reply) && |reply.payload| < 0xF100_0000
    modifies pkt, pkt.buf
    ensures pkt.Valid() && r == Answer(c, Some(reply))
  {
    FrameArrives(reply);
    hide FrameBytes, ParseFrame, Answer;
    var sock := new Socket(cut(bytes));
    r := Stubs.ReadAnswer(pkt, c, sock);
  }

  /** The call made through the wire leaves the server as the simple machine, and returns what the
      machine returns exactly when the result fits the reply, however the streams are cut. */
  method RemoteCall<W(!new)>(service: UsbService<W>, pkt: CProtocol.Packet, c: Call, cut: seq<byte> -> seq<seq<byte>>)
      returns (r: Result)
    requires Contract(service.lib) && Valid(service.lib, service.State()) && InRange(c)
    requires pkt.Valid() && Cuts(cut)
    modifies service, pkt, pkt.buf
    ensures Valid(service.lib, service.State()) && pkt.Valid()
    ensures Abs(service.State()) == LocalStep(service.lib, Abs(old(service.State())), c).0
    ensures r == LocalStep(service.lib, Abs(old(service.State())), c).1 <==> Exact(service.lib, old(service.State()), c)
  {
    hide Cuts, LocalStep, Exact, Abs, Valid, Contract, Serve, Decode, Answer, Sent, Opcode, Request, FrameBytes,
      InRange;
    RemoteStep(service.lib, service.State(), c);
    ghost var reply := Serve(service.lib, service.State(), Sent(c)).1;
    OpcodeSame(c);
    var request := Asking(pkt, c);
    var sent := Answering(service, request, c, cut);
    if c.Init? { return Nothing; }
    r := Reading(pkt, sent, Frame(Opcode(c), reply.value), c, cut);
  }

  /** The server's tree, serialized, sent, cut in any way and parsed into the virtual bus list, is rebuilt
      there in order, whatever the byte orders and structure sizes of the two machines; only config
      extras, endpoint extras and children are missing. Starting from an empty list, and from any other in
      which no bus loses all its devices, the list is a valid one again. */
  method TransferTree(pkt: CProtocol.Packet, m: Machine, h: Host, changes: i32, tree: seq<Bus>,
                      cut: seq<byte> -> seq<seq<byte>>, remoteBus: D.UsbBus?, ghost before: seq<D.UsbBus>,
                      ghost olds: seq<seq<D.UsbDevice>>, ghost pool: set<D.UsbDevice>)
      returns (res: i32, head: D.UsbBus?, ghost busses: seq<D.UsbBus>, ghost devs: seq<seq<D.UsbDevice>>)
    requires MachineOk(m) && TreeOk(tree) && pkt.Valid() && Cuts(cut)
    requires |EncodeAll(ReplyItems(h, changes, tree))| < 0x8000_0000
    requires D.VirtualBus(remoteBus, before, olds) && D.Nodes(olds) <= pool
    modifies pkt, pkt.buf, before, pool
    ensures pkt.Valid() && (pkt.buf == old(pkt.buf) || fresh(pkt.buf))
    ensures res == changes && D.Reconciled(head, busses, devs, before, olds, EraseTree(tree))
    ensures |busses| == |devs| == |tree|
    ensures D.VirtualBus(head, busses, devs) <==>
            forall i | 0 <= i < |tree| :: D.Before(olds, i) == [] || tree[i].devices != []
    ensures D.NewBeyond(olds, devs, |tree|)
    ensures forall i | |before| <= i < |tree| :: fresh(busses[i])
  {
    hide ReplyItems, EncodeAll, FrameBytes, TreeOk, ParseFrame, Receivable, DeclaredSize, ParseReply, EraseTree;
    hide D.BusList, D.WasBus, D.Done, D.Reconciled, D.Before;
    ghost var reply := Frame(USB_FIND_DEVICES, EncodeAll(ReplyItems(h, changes, tree)));
    ReplyReadsBack(m, h, changes, tree);
    FrameArrives(reply);
    var up := new Socket([]);
    Serializer.FindDevices(up, h, changes, tree);
    var chunks := cut(up.sent);
    assert Concat(chunks) == up.sent && forall x <- chunks :: x != [];
    assert [] + FrameBytes(reply) == FrameBytes(reply);
    hide Cuts, Concat;
    var down := new Socket(chunks);
    assert D.VirtualBus(remoteBus, before, olds) == old(D.VirtualBus(remoteBus, before, olds));
    hide D.VirtualBus;
    res, head, busses, devs := D.FindDevices(down, pkt, m, remoteBus, before, olds, pool);
    ReplyNotEmpty(h, changes, tree);
    D.ListStaysValid(head, busses, devs, before, olds, EraseTree(tree));
    EraseTreeAt(tree);
    SameShape(head, busses, devs, before, olds, tree);
  }

  lemma {:induction false} SameShape(head: D.UsbBus?, busses: seq<D.UsbBus>, devs: seq<seq<D.UsbDevice>>,
                                     before: seq<D.UsbBus>, olds: seq<seq<D.UsbDevice>>, tree: seq<Bus>)
    requires D.Reconciled(head, busses, devs, before, olds, EraseTree(tree))
    ensures |busses| == |devs| == |tree|
  {
    EraseTreeAt(tree);
  }

  lemma {:induction false} ReplyNotEmpty(h: Host, changes: i32, tree: seq<Bus>)
    ensures EncodeAll(ReplyItems(h, changes, tree)) != []
  {
  }

  /** A bus whose only device has gone still points at it: two transfers, of a bus with one device and of
      the same bus without. */
  method StaleDevice(pkt: CProtocol.Packet, m: Machine, h: Host, cut: seq<byte> -> seq<seq<byte>>)
      returns (head: D.UsbBus?, ghost busses: seq<D.UsbBus>, ghost devs: seq<seq<D.UsbDevice>>)
    requires MachineOk(m) && pkt.Valid() && Cuts(cut)
    modifies pkt, pkt.buf
    ensures devs == [[]] && head != null && head.devices != null && !D.VirtualBus(head, busses, devs)
  {
    var gone := Bus([], EXAMPLE_BUS.location, []);
    ExampleReplySize(h, 0);
    EmptyBusReplySize(h, 0, EXAMPLE_BUS.location);
    EmptyList();
    hide EncodeAll, ReplyItems;
    var res, full;
    ghost var busses1, devs1;
    res, full, busses1, devs1 := TransferTree(pkt, m, h, 0, [EXAMPLE_BUS], cut, null, [], [], {});
    res, head, busses, devs := TransferTree(pkt, m, h, 0, [gone], cut, full, busses1, devs1, D.Nodes(devs1));
  }

  /** A node of the list, and the bus it points to, hold what the server's device and bus hold. */
  lemma {:induction false} NodeHolds(tree: seq<Bus>, head: D.UsbBus?, busses: seq<D.UsbBus>,
                                     devs: seq<seq<D.UsbDevice>>,
                                     before: seq<D.UsbBus>, olds: seq<seq<D.UsbDevice>>, i: nat, j: nat)
    requires D.Reconciled(head, busses, devs, before, olds, EraseTree(tree))
    requires i < |devs| && j < |devs[i]|
    ensures i < |tree| && j < |tree[i].devices|
    ensures devs[i][j].bus != null && devs[i][j].bus.location == tree[i].location
    ensures devs[i][j].View() == EraseDevice(tree[i].devices[j])
  {
    EraseTreeAt(tree);
    hide EraseTree, D.BusList, EraseDevice, EraseDevices;
    assert D.Done(busses[i], devs[i], D.Before(olds, i), EraseBus(tree[i]));
    hide D.Reconciled;
  }

  /** Opening a device node of the virtual bus list, through the bus it points to: the request carries
      location and number through the 32-bit and 8-bit coding, and the server, its tree unchanged, selects
      the very device that the node was filled from exactly when its first-match search is not caught by an
      earlier bus or device. */
  lemma {:induction false} OpenReachesNode(tree: seq<Bus>, head: D.UsbBus?, busses: seq<D.UsbBus>,
                                           devs: seq<seq<D.UsbDevice>>,
                                           before: seq<D.UsbBus>, olds: seq<seq<D.UsbDevice>>, i: nat, j: nat)
    requires D.Reconciled(head, busses, devs, before, olds, EraseTree(tree))
    requires i < |devs| && j < |devs[i]|
    ensures i < |tree| && j < |tree[i].devices| && devs[i][j].bus != null
    ensures var c := Call.Open(devs[i][j].bus.location, devs[i][j].devnum);
      && Decode(FrameBytes(Frame(Opcode(c), Request(c)))) == Some(c)
      && (Select(tree, c.location, c.devnum) == Some((i, j)) <==>
            (forall k | 0 <= k < i :: tree[k].location != tree[i].location) &&
            (forall k | 0 <= k < j :: tree[i].devices[k].devnum != tree[i].devices[j].devnum))
  {
    NodeHolds(tree, head, busses, devs, before, olds, i, j);
    DecodeRequest(Call.Open(tree[i].location, tree[i].devices[j].devnum));
    SelectReachesShown(tree, i, j);
    hide Decode, Request, Select, FrameBytes, EraseConfigs, D.Reconciled, EraseTree;
  }

  lemma EmptyList()
    ensures D.VirtualBus(null, [], []) && D.Nodes([]) <= {}
  {
  }

  lemma {:induction false} OpcodeSame(c: Call)
    ensures Opcode(Sent(c)) == Opcode(c)
  {
  }
}

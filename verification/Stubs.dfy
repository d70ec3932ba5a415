/** src/usbnet.c: the two halves of every call stub, appending the request to the shared packet and
    reading the result from the reply that replaces it. */
module Stubs {
  import opened Bytes
  import opened Protobase
  import opened Tlv
  import opened Framing
  import opened CProtocol
  import opened Calls
  import C = Cursor

  /** The packet holds the items `items` and has room for more. */
  ghost predicate Holds(pkt: Packet, items: seq<Tree>)
    reads pkt, pkt.buf
  {
    && pkt.Valid() && Appendable(items) && |items| <= 7
    && pkt.Payload() == Flat(Items16(items)) && pkt.size <= |items| * 65535
  }

  /** One append. */
  method Put(pkt: Packet, ty: byte, value: seq<byte>, ghost items: seq<Tree>)
    requires Holds(pkt, items) && |items| < 7 && |value| <= 65531 && !Structural(ty)
    modifies pkt`bufsize, pkt`buf, pkt`size, pkt.buf
    ensures Holds(pkt, items + [Leaf(ty, value)]) && (pkt.buf == old(pkt.buf) || fresh(pkt.buf))
  {
    AppendedItem(items, Leaf(ty, value));
    hide Items16, Flat, Appendable;
    var _ := pkt.Append(ty, |value|, value);
  }

  /** `pkt_addint` of an int. */
  method PutInt(pkt: Packet, val: i32, ghost items: seq<Tree>)
    requires Holds(pkt, items) && |items| < 7
    modifies pkt`bufsize, pkt`buf, pkt`size, pkt.buf
    ensures Holds(pkt, items + [Int(val)]) && (pkt.buf == old(pkt.buf) || fresh(pkt.buf))
  {
    Put(pkt, INTEGER_TYPE, Numeric(4, val), items);
  }

  /** The items of a call on a handle behind the descriptor. */
  method PutArguments(pkt: Packet, c: Call)
    requires OnHandle(c) && InRange(c) && Holds(pkt, [Int(c.fd)])
    modifies pkt`bufsize, pkt`buf, pkt`size, pkt.buf
    ensures Holds(pkt, RequestItems(c)) && (pkt.buf == old(pkt.buf) || fresh(pkt.buf))
  {
    hide Holds, Numeric;
    ghost var items := [Int(c.fd)];
    match c
    case Close(_) =>
    case Reset(_) =>
    case SetConfiguration(_, configuration) =>
      PutInt(pkt, configuration, items);
      assert items + [Int(configuration)] == RequestItems(c);
    case SetAltInterface(_, alternate) =>
      PutInt(pkt, alternate, items);
      assert items + [Int(alternate)] == RequestItems(c);
    case ClaimInterface(_, index) => PutInt(pkt, index, items); assert items + [Int(index)] == RequestItems(c);
    case ReleaseInterface(_, index) => PutInt(pkt, index, items); assert items + [Int(index)] == RequestItems(c);
    case DetachKernelDriver(_, index) => PutInt(pkt, index, items); assert items + [Int(index)] == RequestItems(c);
    case GetDriver(_, index, name) =>
      PutInt(pkt, index, items);
      Put(pkt, UNSIGNED_TYPE, Numeric(4, |name|), items + [Int(index)]);
      assert items + [Int(index)] + [Leaf(UNSIGNED_TYPE, Numeric(4, |name|))] == RequestItems(c);
    case ResetEp(_, ep) =>
      Put(pkt, UNSIGNED_TYPE, Numeric(4, ep), items);
      assert items + [Leaf(UNSIGNED_TYPE, Numeric(4, ep))] == RequestItems(c);
    case ClearHalt(_, ep) =>
      Put(pkt, UNSIGNED_TYPE, Numeric(4, ep), items);
      assert items + [Leaf(UNSIGNED_TYPE, Numeric(4, ep))] == RequestItems(c);
    case ControlMsg(_, requesttype, request, value, index, bytes, timeout) =>
      PutInt(pkt, requesttype, items);
      PutInt(pkt, request, items + [Int(requesttype)]);
      PutInt(pkt, value, items + [Int(requesttype)] + [Int(request)]);
      PutInt(pkt, index, items + [Int(requesttype)] + [Int(request)] + [Int(value)]);
      ghost var five := [Int(c.fd), Int(requesttype), Int(request), Int(value), Int(index)];
      assert items + [Int(requesttype)] + [Int(request)] + [Int(value)] + [Int(index)] == five;
      Put(pkt, OCTET_TYPE, bytes, five);
      PutInt(pkt, timeout, five + [Leaf(OCTET_TYPE, bytes)]);
      assert five + [Leaf(OCTET_TYPE, bytes)] + [Int(timeout)] == RequestItems(c);
    case BulkRead(_, endpoint, buffer, timeout) => PutTransfer(pkt, c, endpoint, Int(|buffer|), timeout);
    case InterruptRead(_, endpoint, buffer, timeout) => PutTransfer(pkt, c, endpoint, Int(|buffer|), timeout);
    case BulkWrite(_, endpoint, bytes, timeout) => PutTransfer(pkt, c, endpoint, Leaf(OCTET_TYPE, bytes), timeout);
    case InterruptWrite(_, endpoint, bytes, timeout) => PutTransfer(pkt, c, endpoint, Leaf(OCTET_TYPE, bytes), timeout);
  }

  /** Endpoint, then size or data, then timeout. */
  method PutTransfer(pkt: Packet, c: Call, endpoint: i32, what: Tree, timeout: i32)
    requires IsRead(c) || IsWrite(c)
    requires Holds(pkt, [Int(c.fd)]) && what.Leaf? && |what.value| <= 65531 && !Structural(what.ty)
    requires RequestItems(c) == [Int(c.fd), Int(endpoint), what, Int(timeout)]
    modifies pkt`bufsize, pkt`buf, pkt`size, pkt.buf
    ensures Holds(pkt, RequestItems(c)) && (pkt.buf == old(pkt.buf) || fresh(pkt.buf))
  {
    hide Holds, Numeric, RequestItems;
    ghost var items := [Int(c.fd)];
    PutInt(pkt, endpoint, items);
    Put(pkt, what.ty, what.value, items + [Int(endpoint)]);
    PutInt(pkt, timeout, items + [Int(endpoint)] + [what]);
    assert items + [Int(endpoint)] + [what] + [Int(timeout)] == RequestItems(c);
  }

  /** Location and number of the device to open. */
  method PutDevice(pkt: Packet, location: u32, devnum: byte)
    requires Holds(pkt, [])
    modifies pkt`bufsize, pkt`buf, pkt`size, pkt.buf
    ensures Holds(pkt, RequestItems(Call.Open(location, devnum))) && (pkt.buf == old(pkt.buf) || fresh(pkt.buf))
  {
    hide Holds, Numeric;
    ghost var first := Leaf(UNSIGNED_TYPE, Numeric(4, location));
    Put(pkt, UNSIGNED_TYPE, Numeric(4, location), []);
    assert [] + [first] == [first];
    Put(pkt, UNSIGNED_TYPE, Numeric(1, devnum), [first]);
    assert [first] + [Leaf(UNSIGNED_TYPE, Numeric(1, devnum))] == RequestItems(Call.Open(location, devnum));
  }

  /** The first half of a stub: `pkt_init`, the appends, `pkt_send`. */
  method SendRequest(pkt: Packet, c: Call, sock: Socket)
    requires InRange(c) && pkt.Valid()
    modifies pkt, pkt.buf, sock`sent
    ensures pkt.Valid() && (pkt.buf == old(pkt.buf) || fresh(pkt.buf))
    ensures sock.sent == old(sock.sent) + FrameBytes(Frame(Opcode(c), Request(c)))
  {
    hide Opcode, Numeric, FrameBytes, InRange;
    pkt.Init(Opcode(c));
    assert Holds(pkt, []);
    if c.Open? {
      PutDevice(pkt, c.location, c.devnum);
    } else if OnHandle(c) {
      PutInt(pkt, c.fd, []);
      assert [] + [Int(c.fd)] == [Int(c.fd)];
      PutArguments(pkt, c);
    }
    assert Holds(pkt, RequestItems(c));
    hide RequestItems, Items16, Flat, Appendable;
    pkt.Send(sock);
  }

  /** The second half of a stub: `pkt_recv`, the check of the opcode, and the items of the reply. */
  method ReadAnswer(pkt: Packet, c: Call, sock: Socket) returns (result: Result)
    requires !c.Init? && (c.GetDriver? ==> c.name != [])
    requires pkt.Valid() && sock.Valid() && Receivable(sock.Incoming())
    requires DeclaredSize(sock.Incoming()) + BUF_FRAGLEN < 0x1_0000_0000
    modifies pkt, pkt.buf, sock`chunks
    ensures pkt.Valid() && sock.Valid() && (pkt.buf == old(pkt.buf) || fresh(pkt.buf))
    ensures match ParseFrame(old(sock.Incoming()))
      case None => result == Answer(c, None)
      case Some((f, rest)) => result == Answer(c, Some(f)) && sock.Incoming() == rest
    ensures var reply := ParseFrame(old(sock.Incoming()));
      reply.None? || reply.value.0.payload == [] || (reply.value.0.op != Opcode(c) && !c.FindDevices?) ==>
        && (c.FindBusses? || c.FindDevices? ==> result == Code(0))
        && (c.Open? ==> result == Result.Handle(None))
        && (c.SetConfiguration? ==> result == Setting(-1, c.configuration))
        && (c.SetAltInterface? ==> result == Setting(-1, c.alternate))
        && (c.ControlMsg? ==> result == Data(-1, c.bytes))
        && (c.BulkRead? || c.InterruptRead? ==> result == Data(-1, c.buffer))
        && (c.GetDriver? ==> result == Driver(-1, CString(c.name)))
        && (c.Close? || c.Reset? || c.ResetEp? || c.ClearHalt? || c.ClaimInterface? ==> result == Code(-1))
        && (c.ReleaseInterface? || c.DetachKernelDriver? || c.BulkWrite? || c.InterruptWrite? ==> result == Code(-1))
  {
    ghost var reply := match ParseFrame(sock.Incoming()) case None => None case Some((f, _)) => Some(f);
    if reply.None? || reply.value.payload == [] || (reply.value.op != Opcode(c) && !c.FindDevices?) {
      NoUsableReply(c, reply);
    }
    hide Answer, Opcode, ParseFrame;
    var received := pkt.Recv(sock);
    if received > 0 && (c.FindDevices? || pkt.op == Opcode(c)) {
      result := ReadResult(pkt, c);
    } else {
      result := NoAnswer(c);
    }
  }

  /** What a stub returns when nothing usable was received. */
  function NoAnswer(c: Call): (r: Result)
    ensures r == Answer(c, None)
  {
    match c
    case Init => Nothing
    case FindBusses => Code(0)
    case FindDevices => Code(0)
    case Open(_, _) => Result.Handle(None)
    case SetConfiguration(_, configuration) => Setting(-1, configuration)
    case SetAltInterface(_, alternate) => Setting(-1, alternate)
    case GetDriver(_, _, name) => Driver(-1, CString(name))
    case ControlMsg(_, _, _, _, _, bytes, _) => assert [] + bytes[0..] == bytes; Data(-1, bytes)
    case BulkRead(_, _, buffer, _) => assert [] + buffer[0..] == buffer; Data(-1, buffer)
    case InterruptRead(_, _, buffer, _) => assert [] + buffer[0..] == buffer; Data(-1, buffer)
    case _ => Code(-1)
  }

  /** The items of a reply, taken with the iterator one after the other. */
  method ReadResult(pkt: Packet, c: Call) returns (result: Result)
    requires pkt.Valid() && !c.Init? && (c.GetDriver? ==> c.name != [])
    requires pkt.Payload() != [] && (c.FindDevices? || pkt.op == Opcode(c))
    ensures result == Answer(c, Some(Frame(pkt.op, pkt.Payload())))
  {
    hide Opcode, C.Next, C.Value, AsInt;
    var it := new Iterator.Begin(pkt);
    var res := it.GetInt();
    if c.Open? {
      var devfd := it.GetInt();
      result := Result.Handle(if res >= 0 then Some(devfd) else None);
    } else if c.SetConfiguration? || c.SetAltInterface? {
      var setting := it.GetInt();
      result := Setting(res, setting);
    } else if IsTransfer(c) {
      var data := if it.val <= it.end then it.buf[it.val..it.end] else [];
      assert data == C.From(pkt.Payload(), it.val);
      result := Data(res, Filled(Buffer(c), res, data));
    } else if c.GetDriver? {
      var str := it.GetStr();
      var name := StringCopied(|c.name|, str);
      result := Driver(res, CString(name));
    } else if c.FindDevices? {
      result := Found(res, pkt.buf[..pkt.size]);
    } else {
      result := Code(res);
    }
  }
}

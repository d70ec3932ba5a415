/** src/server/usbservice.cpp: the handlers, which look up a handle in `mOpenList`, call libusb and append
    the reply to a packet step by step. */
module UsbService {
  import opened Bytes
  import opened Protobase
  import opened Tlv
  import opened Framing
  import opened DeviceTree
  import opened CppProtocol
  import opened Opcodes
  import opened Calls
  import opened Usb
  import Serializer

  /** The bytes a handler sends. */
  function ReplyFrame(c: Call, reply: Option<seq<byte>>): seq<byte> {
    if reply.None? then [] else FrameBytes(Frame(Opcode(c), reply.value))
  }

  /** `handle` knows the call and serves it, or changes nothing. */
  ghost predicate Handles<W(!new)>(lib: Lib<W>, request: seq<byte>, s: Server<W>, s': Server<W>,
                            sent: seq<byte>, sent': seq<byte>, ok: bool)
    requires Contract(lib) && request != []
  {
    match Decode(request)
    case None => !ok && s' == s && sent' == sent
    case Some(c) => ok && s' == Serve(lib, s, c).0 && sent' == sent + ReplyFrame(c, Serve(lib, s, c).1)
  }

  /** The values of seven items are what seven reads in a row find. */
  lemma {:induction false} SevenValues(b: seq<byte>, r: Reader)
    ensures var r1 := Advance(b, r); var r2 := Advance(b, r1); var r3 := Advance(b, r2);
      var r4 := Advance(b, r3); var r5 := Advance(b, r4); var r6 := Advance(b, r5);
      Values(b, r, 7) == [ValueOf(b, r), ValueOf(b, r1), ValueOf(b, r2), ValueOf(b, r3),
                          ValueOf(b, r4), ValueOf(b, r5), ValueOf(b, r6)]
  {
    hide ValueOf, Advance;
    var r1 := Advance(b, r);
    var r2 := Advance(b, r1);
    var r3 := Advance(b, r2);
    var r4 := Advance(b, r3);
    var r5 := Advance(b, r4);
    var r6 := Advance(b, r5);
    assert Values(b, r6, 1) == [ValueOf(b, r6)];
    assert Values(b, r5, 2) == [ValueOf(b, r5), ValueOf(b, r6)];
    assert Values(b, r4, 3) == [ValueOf(b, r4), ValueOf(b, r5), ValueOf(b, r6)];
    assert Values(b, r3, 4) == [ValueOf(b, r3)] + Values(b, r4, 3);
    assert Values(b, r2, 5) == [ValueOf(b, r2)] + Values(b, r3, 4);
    assert Values(b, r1, 6) == [ValueOf(b, r1)] + Values(b, r2, 5);
  }

  class UsbService<W(!new)> {
    const lib: Lib<W>
    var world: W
    var mOpenList: seq<UsbHandle>

    constructor (lib: Lib<W>, world: W)
      ensures this.lib == lib && State() == Server(world, [])
    {
      this.lib, this.world, this.mOpenList := lib, world, [];
    }

    ghost function State(): Server<W>
      reads this
    {
      Server(world, mOpenList)
    }

    /** The search through `mOpenList` that every handler makes. */
    method Find(devfd: i32) returns (i: nat)
      ensures i == Position(mOpenList, devfd)
    {
      i := 0;
      while i < |mOpenList|
        invariant i <= |mOpenList|
        invariant forall k | 0 <= k < i :: mOpenList[k].fd != devfd
      {
        if mOpenList[i].fd == devfd { break; }
        i := i + 1;
      }
    }

    /** The rest of a handler once its arguments are read: look up the handle, make the call, reply. */
    method OnDevice(c: Call, sock: Socket)
      requires Contract(lib) && OnHandle(c)
      modifies this`world, this`mOpenList, sock`sent
      ensures State() == ServeHandle(lib, old(State()), c).0
      ensures sock.sent == old(sock.sent) + FrameBytes(Frame(Opcode(c), ServeHandle(lib, old(State()), c).1))
    {
      var res, setting, data := -1, Asked(c), None;
      var i := Find(c.fd);
      if i < |mOpenList| && Attempted(c) {
        var h := mOpenList[i];
        if c.Close? { mOpenList := RemoveAt(mOpenList, i); }
        var o := lib.call(world, h, c);
        assert Performs(lib, world, h, c, o);
        world := o.world;
        res, setting, data := if c.ReleaseInterface? then 0 else o.res, o.setting, Some(o.data + o.beyond);
      }
      Reply(c, res, setting, data, sock);
    }

    /** The packet with the result of a call on a handle. */
    method Reply(c: Call, res: i32, setting: i32, data: Option<seq<byte>>, sock: Socket)
      requires c.GetDriver? && data.Some? ==> |c.name| <= |data.value|
      requires IsTransfer(c) && data.Some? ==> res <= |data.value|
      requires IsTransfer(c) && data.None? ==> res <= 0
      modifies sock`sent
      ensures sock.sent == old(sock.sent) + FrameBytes(Frame(Opcode(c), ReplyBytes(c, res, setting, data)))
    {
      var pkt := new Packet(Opcode(c));
      assert pkt.buf.bytes == [Opcode(c)];
      ghost var op, first := Opcode(c), if c.Close? then Int8Item(res) else Int32Item(res);
      hide DataItem, NameItem, Int8Item, Int32Item, Opcode, FrameBytes;
      if c.Close? { AddInt8(pkt, res); } else { AddInt32(pkt, res); }
      if c.SetConfiguration? || c.SetAltInterface? {
        AddInt32(pkt, setting);
        Associates([op], first, Int32Item(setting));
      } else if IsTransfer(c) {
        AddResultData(pkt, data, res);
        Associates([op], first, DataItem(data, res));
      } else if c.GetDriver? {
        AddDriverName(pkt, |c.name|, data);
        Associates([op], first, NameItem(|c.name|, data));
      }
      SendReply(pkt, Opcode(c), ReplyBytes(c, res, setting, data), sock);
    }

    /** `send` of a packet without blocks. */
    method SendReply(pkt: Packet, op: byte, ghost payload: seq<byte>, sock: Socket)
      requires pkt.Valid() && pkt.buf.bytes == [op] + payload
      modifies pkt.buf, sock`sent
      ensures sock.sent == old(sock.sent) + FrameBytes(Frame(op, payload))
    {
      assert pkt.buf.bytes[1..] == payload;
      pkt.Send(sock);
    }

    method AddInt8(pkt: Packet, val: i32)
      requires Serializer.Writing(pkt.head) && pkt.head.buf == pkt.buf
      modifies pkt.head, pkt.buf
      ensures Serializer.Writing(pkt.head)
      ensures pkt.buf.bytes == old(pkt.buf.bytes) + Int8Item(val)
    {
      Serializer.AddNumber(pkt.head, INTEGER_TYPE, 1, val);
      hide PackSize, Numeric;
    }

    method AddInt32(pkt: Packet, val: i32)
      requires Serializer.Writing(pkt.head) && pkt.head.buf == pkt.buf
      modifies pkt.head, pkt.buf
      ensures Serializer.Writing(pkt.head)
      ensures pkt.buf.bytes == old(pkt.buf.bytes) + Int32Item(val)
    {
      Serializer.AddNumber(pkt.head, INTEGER_TYPE, 4, val);
      hide PackSize, Numeric;
    }

    /** `addData(data, (res < 0) ? 0 : res, OctetType)`. */
    method AddResultData(pkt: Packet, data: Option<seq<byte>>, res: i32)
      requires Serializer.Writing(pkt.head) && pkt.head.buf == pkt.buf
      requires if data.Some? then res <= |data.value| else res <= 0
      modifies pkt.head, pkt.buf
      ensures Serializer.Writing(pkt.head)
      ensures pkt.buf.bytes == old(pkt.buf.bytes) + DataItem(data, res)
    {
      var n: nat := if res < 0 then 0 else res;
      Serializer.AtEnd(pkt.buf.bytes, ItemBytes(OCTET_TYPE, n, Appended(data, n)));
      pkt.head.AddData(data, n, OCTET_TYPE);
    }

    /** `addString` of the buffer, whose last octet is set to NUL first. */
    method AddDriverName(pkt: Packet, namelen: nat, mem: Option<seq<byte>>)
      requires Serializer.Writing(pkt.head) && pkt.head.buf == pkt.buf
      requires mem.Some? ==> namelen <= |mem.value|
      modifies pkt.head, pkt.buf
      ensures Serializer.Writing(pkt.head)
      ensures pkt.buf.bytes == old(pkt.buf.bytes) + NameItem(namelen, mem)
    {
      var buf := Terminated(if mem.None? then Allocated(namelen) else mem.value[..namelen]);
      Serializer.AtEnd(pkt.buf.bytes, TokBytes(LeafTok(OCTET_TYPE, CString(buf) + [0])));
      pkt.head.AddString(Some(buf), OCTET_TYPE);
    }

    /** The two nested loops of `usb_open`; the outer one stops at the first bus that matches. */
    method SelectDevice(busses: seq<Bus>, busid: u32, devid: byte) returns (rdev: Option<(nat, nat)>)
      ensures rdev == Select(busses, busid, devid)
    {
      rdev := None;
      var i := 0;
      while i < |busses|
        invariant i <= |busses| && rdev == None
        invariant forall k | 0 <= k < i :: busses[k].location != busid
      {
        if busses[i].location == busid {
          var devices := busses[i].devices;
          var j := 0;
          while j < |devices|
            invariant j <= |devices| && rdev == None
            invariant forall k | 0 <= k < j :: devices[k].devnum != devid
          {
            if devices[j].devnum == devid {
              rdev := Some((i, j));
              return;
            }
            j := j + 1;
          }
          return;
        }
        i := i + 1;
      }
    }

    method UsbOpen(busid: u32, devid: byte, sock: Socket)
      requires Contract(lib)
      modifies this`world, this`mOpenList, sock`sent
      ensures var c := Call.Open(busid, devid);
        var (s, reply) := Serve(lib, old(State()), c);
        State() == s && sock.sent == old(sock.sent) + ReplyFrame(c, reply)
    {
      var res, openfd: i32 := -1, -1;
      var rdev := SelectDevice(lib.busses(world), busid, devid);
      if rdev.Some? {
        var (w, udev) := lib.open(world, rdev.value.0, rdev.value.1);
        world := w;
        if udev.Some? {
          mOpenList := mOpenList + [udev.value];
          res, openfd := 0, udev.value.fd;
        }
      }
      ReplyOpen(res, openfd, sock);
    }

    method ReplyOpen(res: i32, openfd: i32, sock: Socket)
      modifies sock`sent
      ensures sock.sent == old(sock.sent) + FrameBytes(Frame(USB_OPEN, Int8Item(res) + Int32Item(openfd)))
    {
      hide Int8Item, Int32Item, FrameBytes;
      var pkt := new Packet(USB_OPEN);
      AddInt8(pkt, res);
      AddInt32(pkt, openfd);
      Associates([USB_OPEN], Int8Item(res), Int32Item(openfd));
      SendReply(pkt, USB_OPEN, Int8Item(res) + Int32Item(openfd), sock);
    }

    method UsbFindBusses(sock: Socket)
      requires Contract(lib)
      modifies this`world, sock`sent
      ensures var (s, reply) := Serve(lib, old(State()), FindBusses);
        State() == s && sock.sent == old(sock.sent) + ReplyFrame(FindBusses, reply)
    {
      var (w, res) := lib.findBusses(world);
      world := w;
      var pkt := new Packet(USB_FIND_BUSSES);
      AddInt32(pkt, res);
      SendReply(pkt, USB_FIND_BUSSES, Int32Item(res), sock);
    }

    // ---- dispatch -----------------------------------------------------------------------------

    /** Handlers with a descriptor and at most one more argument: an integer, or unsigned for endpoints. */
    method UsbOneArgument(op: byte, pkt: Packet, sock: Socket)
      requires Contract(lib) && pkt.buf.bytes != [] && pkt.buf.bytes[0] == op
      requires op == USB_CLOSE || op == USB_RESET || op == USB_SET_CONFIGURATION || op == USB_SET_ALTINTERFACE
        || op == USB_RESET_EP || op == USB_CLEAR_HALT || op == USB_CLAIM_INTERFACE || op == USB_RELEASE_INTERFACE
        || op == USB_DETACH_KERNEL_DRIVER
      modifies this`world, this`mOpenList, sock`sent
      ensures Handles(lib, old(pkt.buf.bytes), old(State()), State(), old(sock.sent), sock.sent, true)
    {
      ghost var b := pkt.buf.bytes;
      SevenValues(b, FirstItem(b));
      hide Values, ValueOf, Advance, ServeHandle;
      var it := new Iterator(pkt);
      var devfd := it.GetInt();
      var c: Call;
      if op == USB_CLOSE { c := Close(devfd); }
      else if op == USB_RESET { c := Reset(devfd); }
      else if op == USB_RESET_EP { var ep := it.GetUInt(); c := ResetEp(devfd, ep); }
      else if op == USB_CLEAR_HALT { var ep := it.GetUInt(); c := ClearHalt(devfd, ep); }
      else {
        var index := it.GetInt();
        if op == USB_SET_CONFIGURATION { c := SetConfiguration(devfd, index); }
        else if op == USB_SET_ALTINTERFACE { c := SetAltInterface(devfd, index); }
        else if op == USB_CLAIM_INTERFACE { c := ClaimInterface(devfd, index); }
        else if op == USB_RELEASE_INTERFACE { c := ReleaseInterface(devfd, index); }
        else { c := DetachKernelDriver(devfd, index); }
      }
      assert Decode(b) == Some(c);
      OnDevice(c, sock);
    }

    method UsbControlMsg(pkt: Packet, sock: Socket)
      requires Contract(lib) && pkt.buf.bytes != [] && pkt.buf.bytes[0] == USB_CONTROL_MSG
      modifies this`world, this`mOpenList, sock`sent
      ensures Handles(lib, old(pkt.buf.bytes), old(State()), State(), old(sock.sent), sock.sent, true)
    {
      ghost var b := pkt.buf.bytes;
      SevenValues(b, FirstItem(b));
      hide Values, ValueOf, Advance, ServeHandle;
      var it := new Iterator(pkt);
      var devfd := it.GetInt();
      var reqtype := it.GetInt();
      var request := it.GetInt();
      var value := it.GetInt();
      var index := it.GetInt();
      var data := it.GetVal();
      var timeout := it.GetInt();
      var c := ControlMsg(devfd, reqtype, request, value, index, data, timeout);
      assert Decode(b) == Some(c);
      OnDevice(c, sock);
    }

    method UsbGetKernelDriver(pkt: Packet, sock: Socket)
      requires Contract(lib) && pkt.buf.bytes != [] && pkt.buf.bytes[0] == USB_GET_KERNEL_DRIVER
      modifies this`world, this`mOpenList, sock`sent
      ensures Handles(lib, old(pkt.buf.bytes), old(State()), State(), old(sock.sent), sock.sent, true)
    {
      ghost var b := pkt.buf.bytes;
      SevenValues(b, FirstItem(b));
      hide Values, ValueOf, Advance, ServeHandle;
      var it := new Iterator(pkt);
      var devfd := it.GetInt();
      var index := it.GetInt();
      var namelen := it.GetUInt();
      var c := GetDriver(devfd, index, Allocated(namelen));
      assert Decode(b) == Some(c);
      OnDevice(c, sock);
    }

    /** Bulk and interrupt reads. */
    method UsbRead(op: byte, pkt: Packet, sock: Socket)
      requires Contract(lib) && pkt.buf.bytes != [] && pkt.buf.bytes[0] == op
      requires op == USB_BULK_READ || op == USB_INTERRUPT_READ
      modifies this`world, this`mOpenList, sock`sent
      ensures Handles(lib, old(pkt.buf.bytes), old(State()), State(), old(sock.sent), sock.sent, true)
    {
      ghost var b := pkt.buf.bytes;
      SevenValues(b, FirstItem(b));
      hide Values, ValueOf, Advance, ServeHandle;
      var it := new Iterator(pkt);
      var devfd := it.GetInt();
      var ep := it.GetInt();
      var size := it.GetInt();
      var timeout := it.GetInt();
      var c := if op == USB_BULK_READ then BulkRead(devfd, ep, Allocated(size), timeout)
               else InterruptRead(devfd, ep, Allocated(size), timeout);
      assert Decode(b) == Some(c);
      OnDevice(c, sock);
    }

    /** Bulk and interrupt writes. */
    method UsbWrite(op: byte, pkt: Packet, sock: Socket)
      requires Contract(lib) && pkt.buf.bytes != [] && pkt.buf.bytes[0] == op
      requires op == USB_BULK_WRITE || op == USB_INTERRUPT_WRITE
      modifies this`world, this`mOpenList, sock`sent
      ensures Handles(lib, old(pkt.buf.bytes), old(State()), State(), old(sock.sent), sock.sent, true)
    {
      ghost var b := pkt.buf.bytes;
      SevenValues(b, FirstItem(b));
      hide Values, ValueOf, Advance, ServeHandle;
      var it := new Iterator(pkt);
      var devfd := it.GetInt();
      var ep := it.GetInt();
      var data := it.GetVal();
      var timeout := it.GetInt();
      var c := if op == USB_BULK_WRITE then BulkWrite(devfd, ep, data, timeout)
               else InterruptWrite(devfd, ep, data, timeout);
      assert Decode(b) == Some(c);
      OnDevice(c, sock);
    }

    /** Calls without a handle: UsbInit, which is not acknowledged, the two searches, and UsbOpen. */
    method UsbCore(op: byte, pkt: Packet, sock: Socket)
      requires Contract(lib) && pkt.buf.bytes != [] && pkt.buf.bytes[0] == op
      requires op == USB_INIT || op == USB_FIND_BUSSES || op == USB_FIND_DEVICES || op == USB_OPEN
      modifies this`world, this`mOpenList, sock`sent
      ensures Handles(lib, old(pkt.buf.bytes), old(State()), State(), old(sock.sent), sock.sent, true)
    {
      ghost var b := pkt.buf.bytes;
      hide EncodeAll, ReplyItems;
      if op == USB_INIT {
        world := lib.init(world);
      } else if op == USB_FIND_BUSSES {
        UsbFindBusses(sock);
      } else if op == USB_FIND_DEVICES {
        var (w, res) := lib.findDevices(world);
        world := w;
        assert Serializable(lib, lib.busses(w));
        Serializer.FindDevices(sock, lib.host, res, lib.busses(w));
      } else {
        SevenValues(b, FirstItem(b));
        hide Values, ValueOf, Advance;
        var it := new Iterator(pkt);
        var busid := it.GetUInt();
        var devid := it.GetUInt();
        assert Decode(b) == Some(Call.Open(busid, devid % 0x100));
        UsbOpen(busid, devid % 0x100, sock);
      }
    }

    /** `handle`: false, with nothing changed, for an opcode it does not know. */
    method Handle(pkt: Packet, sock: Socket) returns (ok: bool)
      requires Contract(lib) && pkt.buf.bytes != []
      modifies this`world, this`mOpenList, sock`sent
      ensures Handles(lib, old(pkt.buf.bytes), old(State()), State(), old(sock.sent), sock.sent, ok)
    {
      hide Values, Serve;
      var op := pkt.buf.bytes[0];
      ok := true;
      if op == USB_INIT || op == USB_FIND_BUSSES || op == USB_FIND_DEVICES || op == USB_OPEN {
        UsbCore(op, pkt, sock);
      } else if op == USB_CONTROL_MSG {
        UsbControlMsg(pkt, sock);
      } else if op == USB_GET_KERNEL_DRIVER {
        UsbGetKernelDriver(pkt, sock);
      } else if op == USB_BULK_READ || op == USB_INTERRUPT_READ {
        UsbRead(op, pkt, sock);
      } else if op == USB_BULK_WRITE || op == USB_INTERRUPT_WRITE {
        UsbWrite(op, pkt, sock);
      } else if op == USB_CLOSE || op == USB_RESET || op == USB_SET_CONFIGURATION || op == USB_SET_ALTINTERFACE
        || op == USB_RESET_EP || op == USB_CLEAR_HALT || op == USB_CLAIM_INTERFACE || op == USB_RELEASE_INTERFACE
        || op == USB_DETACH_KERNEL_DRIVER {
        UsbOneArgument(op, pkt, sock);
      } else {
        ok := false;
      }
    }

    /** `ServerSocket::read`: false when no whole packet arrives, else the packet is handled. */
    method Read(sock: Socket) returns (ok: bool)
      requires Contract(lib) && sock.Valid() && Receivable(sock.Incoming())
      modifies this`world, this`mOpenList, sock
      ensures sock.Valid()
      ensures match ParseFrame(old(sock.Incoming()))
        case None => !ok && State() == old(State()) && sock.sent == old(sock.sent)
        case Some((f, rest)) =>
          var request := old(sock.Incoming())[..|old(sock.Incoming())| - |rest|];
          && ok && sock.Incoming() == rest && request != []
          && exists handled :: Handles(lib, request, old(State()), State(), old(sock.sent), sock.sent, handled)
    {
      hide Handles, Decode, Contract;
      var pkt := new Packet(INVALID_TYPE);
      var r := pkt.Recv(sock);
      if r < 0 { return false; }
      var handled := Handle(pkt, sock);
      ok := true;
    }

    /** The destructor: what is still open is closed, front to back. */
    method Destroy()
      modifies this`world, this`mOpenList
      ensures State() == Destroyed(lib, old(State()))
    {
      var i := 0;
      assert mOpenList[0..] == mOpenList;
      while i < |mOpenList|
        invariant i <= |mOpenList| && mOpenList == old(mOpenList)
        invariant AllClosed(lib, world, mOpenList[i..]) == AllClosed(lib, old(world), mOpenList)
      {
        assert mOpenList[i..][1..] == mOpenList[i + 1..];
        world := lib.call(world, mOpenList[i], Close(mOpenList[i].fd)).world;
        i := i + 1;
      }
      mOpenList := [];
    }
  }
}

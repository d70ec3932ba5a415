/** The remote calls: what a stub of src/usbnet.c sends for each, and what it makes of the reply. */
module Calls {
  import opened Bytes
  import opened Protobase
  import opened Tlv
  import opened Framing
  import opened Opcodes
  import opened CppProtocol
  import C = Cursor

  /** A call with its arguments; buffers stand for a pointer and its size. */
  datatype Call =
    | Init
    | FindBusses
    | FindDevices
    | Open(location: u32, devnum: byte)
    | Close(fd: i32)
    | SetConfiguration(fd: i32, configuration: i32)
    | SetAltInterface(fd: i32, alternate: i32)
    | ResetEp(fd: i32, ep: u32)
    | ClearHalt(fd: i32, ep: u32)
    | Reset(fd: i32)
    | ClaimInterface(fd: i32, index: i32)
    | ReleaseInterface(fd: i32, index: i32)
    | GetDriver(fd: i32, index: i32, name: seq<byte>)
    | DetachKernelDriver(fd: i32, index: i32)
    | ControlMsg(fd: i32, requesttype: i32, request: i32, value: i32, index: i32, bytes: seq<byte>, timeout: i32)
    | BulkRead(fd: i32, endpoint: i32, buffer: seq<byte>, timeout: i32)
    | BulkWrite(fd: i32, endpoint: i32, bytes: seq<byte>, timeout: i32)
    | InterruptRead(fd: i32, endpoint: i32, buffer: seq<byte>, timeout: i32)
    | InterruptWrite(fd: i32, endpoint: i32, bytes: seq<byte>, timeout: i32)

  function Opcode(c: Call): byte {
    match c
    case Init => USB_INIT
    case FindBusses => USB_FIND_BUSSES
    case FindDevices => USB_FIND_DEVICES
    case Open(_, _) => USB_OPEN
    case Close(_) => USB_CLOSE
    case SetConfiguration(_, _) => USB_SET_CONFIGURATION
    case SetAltInterface(_, _) => USB_SET_ALTINTERFACE
    case ResetEp(_, _) => USB_RESET_EP
    case ClearHalt(_, _) => USB_CLEAR_HALT
    case Reset(_) => USB_RESET
    case ClaimInterface(_, _) => USB_CLAIM_INTERFACE
    case ReleaseInterface(_, _) => USB_RELEASE_INTERFACE
    case GetDriver(_, _, _) => USB_GET_KERNEL_DRIVER
    case DetachKernelDriver(_, _) => USB_DETACH_KERNEL_DRIVER
    case ControlMsg(_, _, _, _, _, _, _) => USB_CONTROL_MSG
    case BulkRead(_, _, _, _) => USB_BULK_READ
    case BulkWrite(_, _, _, _) => USB_BULK_WRITE
    case InterruptRead(_, _, _, _) => USB_INTERRUPT_READ
    case InterruptWrite(_, _, _, _) => USB_INTERRUPT_WRITE
  }

  /** Calls on an open device. */
  predicate OnHandle(c: Call) { !c.Init? && !c.FindBusses? && !c.FindDevices? && !c.Open? }

  predicate IsRead(c: Call) { c.BulkRead? || c.InterruptRead? }

  predicate IsWrite(c: Call) { c.BulkWrite? || c.InterruptWrite? }

  /** Calls that return data in the caller's buffer. */
  predicate IsTransfer(c: Call) { c.ControlMsg? || IsRead(c) }

  /** The caller's buffer. */
  function Buffer(c: Call): seq<byte>
    requires IsTransfer(c) || IsWrite(c)
  {
    if c.ControlMsg? || IsWrite(c) then c.bytes else c.buffer
  }

  /** Payloads that one item carries, sizes that an `int` holds, and a name buffer with room for the
      terminating NUL. */
  predicate InRange(c: Call) {
    && (c.GetDriver? ==> 0 < |c.name| < 0x8000_0000)
    && (c.ControlMsg? ==> |c.bytes| <= 65531)
    && (IsWrite(c) ==> |c.bytes| <= 65531)
    && (IsRead(c) ==> |c.buffer| < 0x8000_0000)
  }

  function Int(v: int): Tree { Leaf(INTEGER_TYPE, Numeric(4, v)) }

  /** The items of the request, in the order in which the stub appends them. */
  function RequestItems(c: Call): seq<Tree> {
    match c
    case Init => []
    case FindBusses => []
    case FindDevices => []
    case Open(location, devnum) => [Leaf(UNSIGNED_TYPE, Numeric(4, location)), Leaf(UNSIGNED_TYPE, Numeric(1, devnum))]
    case Close(fd) => [Int(fd)]
    case SetConfiguration(fd, configuration) => [Int(fd), Int(configuration)]
    case SetAltInterface(fd, alternate) => [Int(fd), Int(alternate)]
    case ResetEp(fd, ep) => [Int(fd), Leaf(UNSIGNED_TYPE, Numeric(4, ep))]
    case ClearHalt(fd, ep) => [Int(fd), Leaf(UNSIGNED_TYPE, Numeric(4, ep))]
    case Reset(fd) => [Int(fd)]
    case ClaimInterface(fd, index) => [Int(fd), Int(index)]
    case ReleaseInterface(fd, index) => [Int(fd), Int(index)]
    case GetDriver(fd, index, name) => [Int(fd), Int(index), Leaf(UNSIGNED_TYPE, Numeric(4, |name|))]
    case DetachKernelDriver(fd, index) => [Int(fd), Int(index)]
    case ControlMsg(fd, requesttype, request, value, index, bytes, timeout) =>
      [Int(fd), Int(requesttype), Int(request), Int(value), Int(index), Leaf(OCTET_TYPE, bytes), Int(timeout)]
    case BulkRead(fd, endpoint, buffer, timeout) => [Int(fd), Int(endpoint), Int(|buffer|), Int(timeout)]
    case BulkWrite(fd, endpoint, bytes, timeout) => [Int(fd), Int(endpoint), Leaf(OCTET_TYPE, bytes), Int(timeout)]
    case InterruptRead(fd, endpoint, buffer, timeout) => [Int(fd), Int(endpoint), Int(|buffer|), Int(timeout)]
    case InterruptWrite(fd, endpoint, bytes, timeout) => [Int(fd), Int(endpoint), Leaf(OCTET_TYPE, bytes), Int(timeout)]
  }

  lemma {:induction false} RequestItemsSmall(c: Call)
    requires InRange(c)
    ensures |RequestItems(c)| <= 7
    ensures forall t <- RequestItems(c) :: t.Leaf? && |t.value| <= 65531 && !Structural(t.ty)
  {
    hide Numeric;
  }

  lemma {:induction false} RequestItemsOk(c: Call)
    requires InRange(c)
    ensures Appendable(RequestItems(c)) && |RequestItems(c)| <= 7
  {
    RequestItemsSmall(c);
    hide RequestItems, Appendable;
    AppendableTail(RequestItems(c), |RequestItems(c)|);
    assert RequestItems(c)[0..] == RequestItems(c);
  }

  lemma {:induction false} AppendableTail(items: seq<Tree>, n: nat)
    requires forall t <- items :: t.Leaf? && |t.value| <= 65531 && !Structural(t.ty)
    requires n <= |items|
    ensures Appendable(items[|items| - n..])
  {
    if n > 0 {
      var rest := items[|items| - n..];
      assert rest[0] in items && rest[1..] == items[|items| - (n - 1)..];
      AppendableTail(items, n - 1);
    }
  }

  /** The payload of the request. */
  function Request(c: Call): seq<byte>
    requires InRange(c)
  {
    RequestItemsOk(c);
    Flat(Items16(RequestItems(c)))
  }

  lemma {:induction false} RequestSize(items: seq<Tree>)
    requires Appendable(items)
    ensures |Flat(Items16(items))| <= |items| * 65535
  {
    if items != [] {
      RequestSize(items[1..]);
    }
  }

  // ---- the server's view of a request ---------------------------------------------------------

  /** The values of the next `n` items. */
  function Values(b: seq<byte>, r: Reader, n: nat): (vs: seq<seq<byte>>)
    ensures |vs| == n
    decreases n
  {
    if n == 0 then [] else [ValueOf(b, r)] + Values(b, Advance(b, r), n - 1)
  }

  /** How the handler for an opcode reads the packet `b`; None where `handle` knows no such call. A read
      handler allocates a buffer of the requested size. */
  function Decode(b: seq<byte>): Option<Call>
    requires b != []
  {
    DecodeValues(b[0], Values(b, FirstItem(b), 7))
  }

  function DecodeValues(op: byte, v: seq<seq<byte>>): Option<Call>
    requires |v| == 7
  {
    var fd := GetInt(v[0]);
    if op == USB_INIT then Some(Init)
    else if op == USB_FIND_BUSSES then Some(FindBusses)
    else if op == USB_FIND_DEVICES then Some(FindDevices)
    else if op == USB_OPEN then Some(Call.Open(GetUInt(v[0]), GetUInt(v[1]) % 0x100))
    else if op == USB_CLOSE then Some(Close(fd))
    else if op == USB_SET_CONFIGURATION then Some(SetConfiguration(fd, GetInt(v[1])))
    else if op == USB_SET_ALTINTERFACE then Some(SetAltInterface(fd, GetInt(v[1])))
    else if op == USB_RESET_EP then Some(ResetEp(fd, GetUInt(v[1])))
    else if op == USB_CLEAR_HALT then Some(ClearHalt(fd, GetUInt(v[1])))
    else if op == USB_RESET then Some(Reset(fd))
    else if op == USB_CLAIM_INTERFACE then Some(ClaimInterface(fd, GetInt(v[1])))
    else if op == USB_RELEASE_INTERFACE then Some(ReleaseInterface(fd, GetInt(v[1])))
    else if op == USB_GET_KERNEL_DRIVER then Some(GetDriver(fd, GetInt(v[1]), Allocated(GetUInt(v[2]))))
    else if op == USB_DETACH_KERNEL_DRIVER then Some(DetachKernelDriver(fd, GetInt(v[1])))
    else if op == USB_CONTROL_MSG then
      Some(ControlMsg(fd, GetInt(v[1]), GetInt(v[2]), GetInt(v[3]), GetInt(v[4]), v[5], GetInt(v[6])))
    else if op == USB_BULK_READ then Some(BulkRead(fd, GetInt(v[1]), Allocated(GetInt(v[2])), GetInt(v[3])))
    else if op == USB_BULK_WRITE then Some(BulkWrite(fd, GetInt(v[1]), v[2], GetInt(v[3])))
    else if op == USB_INTERRUPT_READ then Some(InterruptRead(fd, GetInt(v[1]), Allocated(GetInt(v[2])), GetInt(v[3])))
    else if op == USB_INTERRUPT_WRITE then Some(InterruptWrite(fd, GetInt(v[1]), v[2], GetInt(v[3])))
    else None
  }

  /** The opcode alone decides which call is made, and only opcodes of no call are refused. */
  lemma {:induction false} OpcodeDecides(b: seq<byte>)
    requires b != []
    ensures match Decode(b)
      case Some(c) => Opcode(c) == b[0]
      case None => forall c: Call :: Opcode(c) != b[0]
  {
    hide Values, FirstItem, GetInt, GetUInt, Allocated;
  }

  /** `new char[size]`, where only the size matters. */
  function Allocated(size: int): (s: seq<byte>)
    ensures |s| == (if size < 0 then 0 else size) && forall k | 0 <= k < |s| :: s[k] == 0
  {
    if size < 0 then [] else seq(size, i => 0)
  }

  /** A call without the contents of a buffer that is only written. */
  function Sent(c: Call): (r: Call)
    ensures !IsRead(c) && !c.GetDriver? ==> r == c
    ensures c.BulkRead? ==> r.BulkRead? && |r.buffer| == |c.buffer|
    ensures c.InterruptRead? ==> r.InterruptRead? && |r.buffer| == |c.buffer|
    ensures IsRead(c) ==> r.fd == c.fd && r.endpoint == c.endpoint && r.timeout == c.timeout
    ensures c.GetDriver? ==> r.GetDriver? && r.fd == c.fd && r.index == c.index && |r.name| == |c.name|
  {
    match c
    case GetDriver(fd, index, name) => GetDriver(fd, index, Allocated(|name|))
    case BulkRead(fd, endpoint, buffer, timeout) => BulkRead(fd, endpoint, Allocated(|buffer|), timeout)
    case InterruptRead(fd, endpoint, buffer, timeout) => InterruptRead(fd, endpoint, Allocated(|buffer|), timeout)
    case _ => c
  }

  lemma {:induction false} TakeAppended(b: seq<byte>, r: Reader, items: seq<Tree>)
    requires items != [] && Appendable(items) && Ahead(b, r, Items16(items))
    ensures items[0].Leaf? && ValueOf(b, r) == items[0].value
    ensures Appendable(items[1..]) && Ahead(b, Advance(b, r), Items16(items[1..]))
  {
    var ts := Items16(items);
    assert ts[0].body == items[0].value && ts[1..] == Items16(items[1..]);
    hide ValueOf, Advance, Items16, Ahead, Flat, TokOk, LeafTok16;
    TakeItem(b, r, ts);
  }

  lemma {:induction false} ValueAt(b: seq<byte>, r: Reader, items: seq<Tree>, n: nat, i: nat)
    requires Appendable(items) && Ahead(b, r, Items16(items)) && i < |items| <= n
    ensures items[i].Leaf? && Values(b, r, n)[i] == items[i].value
    decreases i
  {
    hide ValueOf, Advance, Items16, Ahead, Appendable;
    TakeAppended(b, r, items);
    if i > 0 {
      ValueAt(b, Advance(b, r), items[1..], n - 1, i - 1);
    }
  }

  /** The server understands exactly the call that the stub was given. */
  lemma {:induction false} DecodeRequest(c: Call)
    requires InRange(c)
    ensures Decode(FrameBytes(Frame(Opcode(c), Request(c)))) == Some(Sent(c))
  {
    hide RequestItems, Values, Appendable;
    var items := RequestItems(c);
    var b := FrameBytes(Frame(Opcode(c), Request(c)));
    RequestItemsOk(c);
    RequestSize(items);
    Items16Ok(items);
    OpenAhead(Opcode(c), Items16(items));
    forall i | 0 <= i < |items| ensures items[i].Leaf? && Values(b, FirstItem(b), 7)[i] == items[i].value {
      ValueAt(b, FirstItem(b), items, 7, i);
    }
    var v := Values(b, FirstItem(b), 7);
    assert b[0] == Opcode(c);
    hide ValueOf, FrameBytes, Items16, DecodeValues, FirstItem;
    ReadsBack(c, v);
  }

  lemma IntegersReadBack()
    ensures forall x: i32 :: GetInt(Numeric(4, x)) == x
    ensures forall x: u32 :: GetUInt(Numeric(4, x)) == x
    ensures forall x: byte :: GetUInt(Numeric(1, x)) == x
  {
    forall x: i32 ensures GetInt(Numeric(4, x)) == x { SignedRoundTripCpp(4, x); }
    forall x: u32 ensures GetUInt(Numeric(4, x)) == x { UnsignedRoundTrip(4, x); }
    forall x: byte ensures GetUInt(Numeric(1, x)) == x { UnsignedRoundTrip(1, x); }
  }

  /** The typed getters undo the numeric coding, argument by argument. */
  lemma {:induction false} ReadsBack(c: Call, v: seq<seq<byte>>)
    requires InRange(c)
    requires |v| == 7 && |RequestItems(c)| <= 7
    requires forall i | 0 <= i < |RequestItems(c)| :: RequestItems(c)[i].Leaf? && v[i] == RequestItems(c)[i].value
    ensures DecodeValues(Opcode(c), v) == Some(Sent(c))
  {
    IntegersReadBack();
    hide GetInt, GetUInt, Numeric;
  }

  // ---- the stub's view of a reply -------------------------------------------------------------

  /** What a stub returns: an error code, a code and the tree to put into the virtual bus list, a handle
      or NULL, a code with the setting kept in the handle, a code with the caller's buffer, or a code with
      the C string in the caller's buffer. */
  datatype Result =
    | Nothing
    | Code(res: i32)
    | Found(res: i32, tree: seq<byte>)
    | Handle(fd: Option<i32>)
    | Setting(res: i32, setting: i32)
    | Data(res: i32, buffer: seq<byte>)
    | Driver(res: i32, name: seq<byte>)

  /** The caller's buffer after `res` octets of `data` were copied into it, but no more than it holds. */
  function Filled(buffer: seq<byte>, res: i32, data: seq<byte>): (r: seq<byte>)
    ensures res <= 0 ==> r == buffer
    ensures 0 <= res <= |buffer| && res <= |data| ==>
              |r| == |buffer| && r[..res] == data[..res] && r[res..] == buffer[res..]
    ensures res > |buffer| && |buffer| <= |data| ==> r == data[..|buffer|]
  {
    var n := if res < 0 then 0 else if res > |buffer| then |buffer| else res;
    (if n <= |data| then data[..n] else data) + buffer[n..]
  }

  /** A buffer of `n` octets after `strncpy` of at most `n - 1` octets and a NUL at the end. */
  function StringCopied(n: nat, str: seq<byte>): (buffer: seq<byte>)
    requires n > 0
    ensures |buffer| == n && buffer[n - 1] == 0
    ensures |str| < n ==> str <= buffer
    ensures |str| >= n ==> buffer[..n - 1] == str[..n - 1]
  {
    if |str| < n then str + Allocated(n - |str|) else str[..n - 1] + [0]
  }

  /** What the stub for `c` makes of the packet received; None when receiving failed. Every stub but
      `usb_find_devices` checks the opcode. */
  function Answer(c: Call, reply: Option<Frame>): Result {
    var good := reply.Some? && reply.value.payload != [] && (c.FindDevices? || reply.value.op == Opcode(c));
    var p := if good then reply.value.payload else [];
    var first := C.Begin(p);
    var second := C.Next(p, first);
    var res: i32 := if good then AsInt(C.Value(p, first)) else -1;
    match c
    case Init => Nothing
    case FindBusses => Code(if good then res else 0)
    case FindDevices => if good then Found(res, p) else Code(0)
    case Open(_, _) => Handle(if res >= 0 then Some(AsInt(C.Value(p, second))) else None)
    case SetConfiguration(_, configuration) => Setting(res, if good then AsInt(C.Value(p, second)) else configuration)
    case SetAltInterface(_, alternate) => Setting(res, if good then AsInt(C.Value(p, second)) else alternate)
    case GetDriver(_, _, name) =>
      var str := CString(C.Value(p, second));
      Driver(res, CString(if good && name != [] then StringCopied(|name|, str) else name))
    case ControlMsg(_, _, _, _, _, _, _) => Data(res, Filled(c.bytes, res, C.From(p, second.val)))
    case BulkRead(_, _, buffer, _) => Data(res, Filled(buffer, res, C.From(p, second.val)))
    case InterruptRead(_, _, buffer, _) => Data(res, Filled(buffer, res, C.From(p, second.val)))
    case _ => Code(res)
  }

  /** What a stub returns when the connection ends before the reply, when the reply is empty, and when it has
      another opcode: an error, the setting asked for, and the caller's buffer as it was. Only the search for
      devices takes a reply of any opcode, and the two searches report 0 changes. */
  lemma {:induction false} NoUsableReply(c: Call, reply: Option<Frame>)
    requires !c.Init?
    requires reply.None? || reply.value.payload == [] || (reply.value.op != Opcode(c) && !c.FindDevices?)
    ensures var r := Answer(c, reply);
      && (c.FindBusses? || c.FindDevices? ==> r == Code(0))
      && (c.Open? ==> r == Handle(None))
      && (c.SetConfiguration? ==> r == Setting(-1, c.configuration))
      && (c.SetAltInterface? ==> r == Setting(-1, c.alternate))
      && (c.ControlMsg? ==> r == Data(-1, c.bytes))
      && (c.BulkRead? || c.InterruptRead? ==> r == Data(-1, c.buffer))
      && (c.GetDriver? ==> r == Driver(-1, CString(c.name)))
      && (c.Close? || c.Reset? || c.ResetEp? || c.ClearHalt? || c.ClaimInterface? ==> r == Code(-1))
      && (c.ReleaseInterface? || c.DetachKernelDriver? || c.BulkWrite? || c.InterruptWrite? ==> r == Code(-1))
  {
    hide C.Begin, C.Next, C.Value, C.From, AsInt, Filled, StringCopied, CString;
  }

  /** A reply that starts with an integer item is read back whatever follows that item. */
  lemma {:induction false} FirstInteger(width: nat, v: int, rest: seq<byte>)
    requires width == 1 || width == 4
    requires SignedFits(width, v)
    ensures var p := TokBytes(LeafTok(INTEGER_TYPE, Numeric(width, v))) + rest;
      var first := C.Begin(p);
      && AsInt(C.Value(p, first)) == v
      && first.next <= |p| && p[first.next..] == rest
  {
    LeafTokOk(INTEGER_TYPE, Numeric(width, v));
    SignedRoundTripC(width, v);
    FirstToken(LeafTok(INTEGER_TYPE, Numeric(width, v)), [], rest);
  }

  lemma {:induction false} NextIs(p: seq<byte>, c: C.Cursor, t: Tok, more: seq<byte>)
    requires LengthField(t.hdr, t.len) && c.next <= |p| && p[c.next..] == [t.ty] + (t.hdr + more)
    ensures var val := c.next + 1 + |t.hdr|; C.Next(p, c) == C.Cursor(c.next, val + t.len, t.ty, t.len, val)
  {
    UnpackLengthField(t.hdr, t.len, more);
    hide LengthField, UnpackSize;
    C.Behind(p, c.next, [t.ty], t.hdr + more);
    assert p[c.next] == t.ty by { assert p[c.next] == p[c.next..][0]; }
  }

  lemma {:induction false} TokSplit(t: Tok, rest: seq<byte>)
    ensures TokBytes(t) + rest == [t.ty] + (t.hdr + (t.body + rest))
  {
    Associates([t.ty], t.hdr, t.body);
    Associates([t.ty], t.hdr + t.body, rest);
    Associates(t.hdr, t.body, rest);
  }

  lemma {:induction false} PartsBehind(p: seq<byte>, i: nat, t: Tok, more: seq<byte>)
    requires i <= |p| && p[i..] == [t.ty] + (t.hdr + more)
    ensures var val := i + 1 + |t.hdr|; val <= |p| && C.From(p, val) == p[val..] == more
  {
    hide C.Slice;
    C.Behind(p, i, [t.ty], t.hdr + more);
    C.Behind(p, i + 1, t.hdr, more);
  }

  lemma {:induction false} LoadsParts(p: seq<byte>, c: C.Cursor, t: Tok, rest: seq<byte>)
    requires LengthField(t.hdr, t.len) && |t.body| == t.len
    requires c.next <= |p| && p[c.next..] == [t.ty] + (t.hdr + (t.body + rest))
    ensures var d := C.Next(p, c);
      C.Value(p, d) == t.body && d.next <= |p| && p[d.next..] == rest && C.From(p, d.val) == t.body + rest
  {
    hide LengthField, C.Slice, C.Next, C.From;
    NextIs(p, c, t, t.body + rest);
    PartsBehind(p, c.next, t, t.body + rest);
    C.Behind(p, c.next + 1 + |t.hdr|, t.body, rest);
  }

  /** The item at hand is loaded by `iter_next`, whatever follows it. */
  lemma {:induction false} LoadsToken(p: seq<byte>, c: C.Cursor, t: Tok, rest: seq<byte>)
    requires TokOk(t) && |t.body| == t.len
    requires c.next <= |p| && p[c.next..] == TokBytes(t) + rest
    ensures var d := C.Next(p, c);
      C.Value(p, d) == t.body && d.next <= |p| && p[d.next..] == rest && C.From(p, d.val) == t.body + rest
  {
    hide LengthField, TokBytes, C.Slice, C.Next, C.From, C.Value;
    TokSplit(t, rest);
    LoadsParts(p, c, t, rest);
  }

  /** The item behind `before` is loaded by `iter_next`, whatever follows it. */
  lemma {:induction false} FirstToken(t: Tok, before: seq<byte>, rest: seq<byte>)
    requires TokOk(t) && |t.body| == t.len
    ensures var p := before + (TokBytes(t) + rest);
      forall c: C.Cursor | c.next == |before| ::
        var d := C.Next(p, c);
        C.Value(p, d) == t.body && d.next <= |p| && p[d.next..] == rest && C.From(p, d.val) == t.body + rest
    ensures before == [] ==> before + (TokBytes(t) + rest) == TokBytes(t) + rest
  {
    hide TokBytes, TokOk, C.Next, C.Value, C.From;
    var p := before + (TokBytes(t) + rest);
    assert p[|before|..] == TokBytes(t) + rest;
    forall c: C.Cursor | c.next == |before|
      ensures var d := C.Next(p, c);
        C.Value(p, d) == t.body && d.next <= |p| && p[d.next..] == rest && C.From(p, d.val) == t.body + rest
    {
      LoadsToken(p, c, t, rest);
    }
  }

  /** A reply of a 32-bit integer and another item is read back, whatever follows that item. */
  lemma {:induction false} TwoItems(v: i32, t: Tok, rest: seq<byte>)
    requires TokOk(t) && |t.body| == t.len
    ensures var p := TokBytes(LeafTok(INTEGER_TYPE, Numeric(4, v))) + (TokBytes(t) + rest);
      var second := C.Next(p, C.Begin(p));
      && AsInt(C.Value(p, C.Begin(p))) == v
      && C.Value(p, second) == t.body && C.From(p, second.val) == t.body + rest
  {
    var first := TokBytes(LeafTok(INTEGER_TYPE, Numeric(4, v)));
    var p := first + (TokBytes(t) + rest);
    FirstInteger(4, v, TokBytes(t) + rest);
    FirstToken(t, first, rest);
    hide C.Next, C.Value, C.From, C.Begin;
    var c := C.Begin(p);
    assert |p[c.next..]| == |TokBytes(t) + rest|;
  }
}

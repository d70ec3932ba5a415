/** Remote calls against local ones: stub, wire and handler together do what a simple machine does that
    applies libusb to a table of open handles. */
module Remote {
  import opened Bytes
  import opened Protobase
  import opened Tlv
  import opened Framing
  import opened DeviceTree
  import opened Calls
  import opened Usb
  import C = Cursor

  /** The simple machine: libusb's world and the open handles by descriptor. */
  datatype Local<W> = Local(world: W, handles: map<i32, UsbHandle>)

  /** What a call on a descriptor that is not open returns, and an empty bulk or interrupt transfer, which
      the server does not attempt. */
  function NotOpen(c: Call): Result
    requires OnHandle(c)
  {
    if c.SetConfiguration? then Setting(-1, c.configuration)
    else if c.SetAltInterface? then Setting(-1, c.alternate)
    else if IsTransfer(c) then Data(-1, Buffer(c))
    else if c.GetDriver? then Driver(-1, [])
    else Code(-1)
  }

  /** What libusb itself returns to a caller: its own result, and its data in the caller's buffer. */
  function Returned<W>(c: Call, o: Outcome<W>): Result
    requires OnHandle(c)
  {
    if c.SetConfiguration? || c.SetAltInterface? then Setting(o.res, o.setting)
    else if IsTransfer(c) then Data(o.res, Filled(Buffer(c), o.res, o.data))
    else if c.GetDriver? then Driver(o.res, CString(o.data))
    else Code(o.res)
  }

  function LocalStep<W>(lib: Lib<W>, l: Local<W>, c: Call): (Local<W>, Result) {
    match c
    case Init => (l.(world := lib.init(l.world)), Nothing)
    case FindBusses => var (w, res) := lib.findBusses(l.world); (l.(world := w), Code(res))
    case FindDevices =>
      var (w, res) := lib.findDevices(l.world);
      (l.(world := w), Found(res, EncodeAll(ReplyItems(lib.host, res, lib.busses(w)))))
    case Open(location, devnum) =>
      (match Select(lib.busses(l.world), location, devnum)
       case None => (l, Handle(None))
       case Some((i, j)) =>
         var (w, h) := lib.open(l.world, i, j);
         match h
         case None => (l.(world := w), Handle(None))
         case Some(h) => (Local(w, l.handles[h.fd := h]), Handle(Some(h.fd))))
    case _ =>
      if c.fd !in l.handles || !Attempted(c) then (l, NotOpen(c))
      else
        var o := lib.call(l.world, l.handles[c.fd], Sent(c));
        (Local(o.world, if c.Close? then l.handles - {c.fd} else l.handles), Returned(c, o))
  }

  // ---- the abstraction ------------------------------------------------------------------------

  /** `mOpenList` as a table. */
  function Table(open: seq<UsbHandle>): map<i32, UsbHandle> {
    map fd: i32 | fd in (set h | h in open :: h.fd) ::
      assert Position(open, fd) < |open| by { PositionFinds(open, fd); } open[Position(open, fd)]
  }

  lemma {:induction false} PositionFinds(open: seq<UsbHandle>, fd: i32)
    ensures Position(open, fd) < |open| <==> exists h <- open :: h.fd == fd
  {
  }

  lemma {:induction false} PositionOf(open: seq<UsbHandle>, i: nat)
    requires Distinct(open) && i < |open|
    ensures Position(open, open[i].fd) == i
  {
    PositionFinds(open, open[i].fd);
  }

  function Abs<W>(s: Server<W>): Local<W> { Local(s.world, Table(s.open)) }

  function Fds(open: seq<UsbHandle>): set<i32> { set h | h in open :: h.fd }

  /** The table of distinct handles is the only map from their descriptors to them. */
  lemma {:induction false} TableIs(open: seq<UsbHandle>, m: map<i32, UsbHandle>)
    requires Distinct(open) && m.Keys == Fds(open)
    requires forall h <- open :: h.fd in m && m[h.fd] == h
    ensures m == Table(open)
  {
    forall fd | fd in m ensures fd in Table(open) && m[fd] == Table(open)[fd] {
      PositionFinds(open, fd);
    }
  }

  lemma {:induction false} TableHas(open: seq<UsbHandle>)
    requires Distinct(open)
    ensures Table(open).Keys == Fds(open)
    ensures forall h <- open :: h.fd in Table(open) && Table(open)[h.fd] == h
  {
    forall h | h in open ensures h.fd in Table(open) && Table(open)[h.fd] == h {
      var i :| 0 <= i < |open| && open[i] == h;
      PositionOf(open, i);
    }
  }

  lemma {:induction false} TableOfPush(open: seq<UsbHandle>, h: UsbHandle)
    requires Distinct(open) && forall g <- open :: g.fd != h.fd
    ensures Distinct(open + [h]) && Table(open + [h]) == Table(open)[h.fd := h]
  {
    TableHas(open);
    hide Table;
    assert forall g :: g in open + [h] <==> g in open || g == h;
    TableIs(open + [h], Table(open)[h.fd := h]);
  }

  lemma {:induction false} RemovedMembers(open: seq<UsbHandle>, i: nat)
    requires Distinct(open) && i < |open|
    ensures Distinct(RemoveAt(open, i))
    ensures forall g :: g in RemoveAt(open, i) <==> g in open && g != open[i]
    ensures forall g <- RemoveAt(open, i) :: g.fd != open[i].fd
  {
    var less := RemoveAt(open, i);
    assert forall k | 0 <= k < |less| :: less[k] == if k < i then open[k] else open[k + 1];
    forall g | g in open && g != open[i] ensures g in less {
      var k :| 0 <= k < |open| && open[k] == g;
      assert g == less[if k < i then k else k - 1];
    }
  }

  lemma {:induction false} TableOfRemove(open: seq<UsbHandle>, i: nat)
    requires Distinct(open) && i < |open|
    ensures Distinct(RemoveAt(open, i)) && Table(RemoveAt(open, i)) == Table(open) - {open[i].fd}
  {
    TableHas(open);
    RemovedMembers(open, i);
    hide Table, RemoveAt, Distinct;
    TableIs(RemoveAt(open, i), Table(open) - {open[i].fd});
  }

  // ---- one call -------------------------------------------------------------------------------

  /** The result that the server computes for a call on an open handle fits the item that carries it:
      close results are sent in one octet, a release of an open handle always reports 0, and a name that
      fills its buffer without a NUL is cut. */
  predicate Fits<W>(c: Call, o: Outcome<W>) {
    (c.Close? ==> SignedFits(1, o.res)) && (c.ReleaseInterface? ==> o.res == 0) && (c.GetDriver? ==> 0 in o.data)
  }

  /** What the stub returns for a driver's name. */
  lemma {:induction false} DriverIsReturned<W>(c: Call, o: Outcome<W>)
    requires c.GetDriver? && InRange(c) && |o.data| == |c.name|
    ensures var reply := ReplyBytes(c, o.res, o.setting, Some(o.data + o.beyond));
      |reply| > 0 && (Answer(c, Some(Frame(Opcode(c), reply))) == Returned(c, o) <==> Fits(c, o))
  {
    hide Answer, Int32Item, Opcode, CString;
    assert (o.data + o.beyond)[..|c.name|] == o.data == o.data[..|c.name|];
    NameAnswer(c, o.res, o.data);
  }

  /** The stub returns what the handler computed, for every reply of a handler with a handle, even with
      the stray octets that a failed transfer leaves behind its empty data item. */
  lemma {:induction false} AnswerIsReturned<W>(c: Call, o: Outcome<W>)
    requires OnHandle(c) && InRange(c)
    requires IsTransfer(c) ==> |o.data| == |Buffer(c)| && o.res <= |Buffer(c)|
    requires c.GetDriver? ==> |o.data| == |c.name|
    ensures var res := if c.ReleaseInterface? then 0 else o.res;
      var reply := ReplyBytes(c, res, o.setting, Some(o.data + o.beyond));
      |reply| > 0 && (Answer(c, Some(Frame(Opcode(c), reply))) == Returned(c, o) <==> Fits(c, o))
  {
    var res := if c.ReleaseInterface? then 0 else o.res;
    if c.Close? {
      CodeAnswer(c, 1, o.res);
    } else if c.SetConfiguration? || c.SetAltInterface? {
      SettingAnswer(c, o.res, o.setting);
    } else if IsTransfer(c) {
      TransferAnswer(c, o.res, o.data, o.beyond);
    } else if c.GetDriver? {
      DriverIsReturned(c, o);
    } else {
      CodeAnswer(c, 4, res);
    }
  }

  /** A close result of 200 comes back as -56. */
  lemma {:induction false} CloseResultLost(fd: i32)
    ensures Answer(Close(fd), Some(Frame(Opcode(Close(fd)), ReplyBytes(Close(fd), 200, 0, None)))) == Code(-56)
  {
    var p := Int8Item(200);
    assert p == Int8Item(-56);
    CodeAnswer(Close(fd), 1, -56);
  }

  /** Which items of a reply the stubs read. */
  lemma {:induction false} AnswerReads(c: Call, p: seq<byte>)
    requires p != []
    ensures var r, first := Answer(c, Some(Frame(Opcode(c), p))), C.Begin(p);
      var res, second := AsInt(C.Value(p, first)), C.Next(p, first);
      && (c.SetConfiguration? || c.SetAltInterface? ==> r == Setting(res, AsInt(C.Value(p, second))))
      && (IsTransfer(c) ==> r == Data(res, Filled(Buffer(c), res, C.From(p, second.val))))
      && (OnHandle(c) && !c.SetConfiguration? && !c.SetAltInterface? && !IsTransfer(c) && !c.GetDriver? ==>
            r == Code(res))
      && (c.GetDriver? && c.name != [] ==>
            r == Driver(res, CString(StringCopied(|c.name|, CString(C.Value(p, second))))))
  {
    hide CString, StringCopied, C.Begin, C.Next, C.Value, C.From, AsInt, Filled, Opcode;
  }

  lemma {:induction false} CodeAnswer(c: Call, width: nat, v: i32)
    requires OnHandle(c) && !IsTransfer(c) && !c.SetConfiguration? && !c.SetAltInterface? && !c.GetDriver?
    requires width == 1 || width == 4
    ensures var p := if width == 1 then Int8Item(v) else Int32Item(v);
      |p| > 0 && (Answer(c, Some(Frame(Opcode(c), p))) == Code(v) <==> SignedFits(width, v))
  {
    var t := LeafTok(INTEGER_TYPE, Numeric(width, v));
    LeafTokOk(INTEGER_TYPE, Numeric(width, v));
    SignedRoundTripC(width, v);
    hide SignedFits, AsInt, Numeric;
    FirstToken(t, [], []);
    assert TokBytes(t) + [] == TokBytes(t);
    AnswerReads(c, TokBytes(t));
    hide Answer, Opcode, C.Next, C.Value, TokOk, LengthField;
  }

  lemma {:induction false} SettingAnswer(c: Call, res: i32, setting: i32)
    requires c.SetConfiguration? || c.SetAltInterface?
    ensures var p := Int32Item(res) + Int32Item(setting);
      |p| > 0 && Answer(c, Some(Frame(Opcode(c), p))) == Setting(res, setting)
  {
    var t := LeafTok(INTEGER_TYPE, Numeric(4, setting));
    LeafTokOk(INTEGER_TYPE, Numeric(4, setting));
    SignedRoundTripC(4, setting);
    TwoItems(res, t, []);
    assert Int32Item(setting) + [] == Int32Item(setting);
    AnswerReads(c, Int32Item(res) + Int32Item(setting));
    hide C.Begin, C.Next, C.Value, C.From, Numeric, LeafTok, AsInt, Answer, Opcode;
  }

  lemma {:induction false} DataAnswer(c: Call, res: i32, t: Tok, rest: seq<byte>)
    requires IsTransfer(c) && TokOk(t) && |t.body| == t.len
    ensures var p := Int32Item(res) + (TokBytes(t) + rest);
      |p| > 0 && Answer(c, Some(Frame(Opcode(c), p))) == Data(res, Filled(Buffer(c), res, t.body + rest))
  {
    TwoItems(res, t, rest);
    AnswerReads(c, Int32Item(res) + (TokBytes(t) + rest));
    hide C.Begin, C.Next, C.Value, C.From, Numeric, LeafTok, AsInt, Filled, Answer, Opcode;
  }

  lemma {:induction false} CStringStops(s: seq<byte>, rest: seq<byte>)
    requires 0 !in s && (rest == [] || rest[0] == 0)
    ensures CString(s + rest) == s
  {
    var t := s + rest;
    if s == [] {
      assert t == rest;
    } else {
      assert t[0] == s[0] && t[1..] == s[1..] + rest;
      CStringStops(s[1..], rest);
    }
  }

  lemma {:induction false} CStringPush(s: seq<byte>, x: byte)
    ensures CString(s + [x]) == if 0 in s then CString(s) else if x == 0 then s else s + [x]
    ensures |CString(s)| <= |s|
  {
    var t := s + [x];
    if s == [] {
      assert t == [x] && t[1..] == [];
    } else {
      assert t[0] == s[0] && t[1..] == s[1..] + [x];
      CStringPush(s[1..], x);
    }
  }

  /** A name comes back whole exactly when its buffer holds a NUL. */
  lemma {:induction false} TerminatedName(buf: seq<byte>)
    requires buf != []
    ensures var str := CString(Terminated(buf));
      && 0 !in str && |str| < |buf| && (str == CString(buf) <==> 0 in buf)
      && (0 !in buf ==> str == buf[..|buf| - 1])
  {
    var front, last := buf[..|buf| - 1], buf[|buf| - 1];
    assert buf == front + [last] && Terminated(buf) == front + [0];
    hide CString, Terminated;
    CStringPush(front, 0);
    CStringPush(front, last);
    assert 0 in buf <==> 0 in front || last == 0;
  }

  lemma {:induction false} CopiedName(n: nat, str: seq<byte>)
    requires 0 !in str && |str| < n
    ensures CString(StringCopied(n, str)) == str
  {
    CStringStops(str, Allocated(n - |str|));
    hide CString;
  }

  lemma {:induction false} NameAnswer(c: Call, res: i32, data: seq<byte>)
    requires c.GetDriver? && InRange(c) && |data| == |c.name|
    ensures var p := Int32Item(res) + NameItem(|c.name|, Some(data));
      |p| > 0 && (Answer(c, Some(Frame(Opcode(c), p))) == Driver(res, CString(data)) <==> 0 in data)
  {
    TerminatedName(data);
    NameReply(c, res, Some(data), data);
    assert data[..|data|] == data;
  }

  /** The stub finds the name of the reply in its buffer. */
  lemma {:induction false} NameReply(c: Call, res: i32, mem: Option<seq<byte>>, buf: seq<byte>)
    requires c.GetDriver? && InRange(c) && |buf| == |c.name|
    requires if mem.None? then buf == Allocated(|c.name|) else |c.name| <= |mem.value| && buf == mem.value[..|c.name|]
    ensures var p := Int32Item(res) + NameItem(|c.name|, mem);
      |p| > 0 && Answer(c, Some(Frame(Opcode(c), p))) == Driver(res, CString(Terminated(buf)))
  {
    var str := CString(Terminated(buf));
    TerminatedName(buf);
    CopiedName(|buf|, str);
    CStringStops(str, [0]);
    hide CString, StringCopied, Terminated, Allocated;
    var t := LeafTok(OCTET_TYPE, str + [0]);
    LeafTokOk(OCTET_TYPE, str + [0]);
    TwoItems(res, t, []);
    assert TokBytes(t) + [] == TokBytes(t);
    AnswerReads(c, Int32Item(res) + TokBytes(t));
    hide C.Begin, C.Next, C.Value, C.From, Numeric, LeafTok, AsInt, Answer, Opcode;
  }

  /** A one-letter name in a buffer of one octet comes back empty. */
  lemma {:induction false} NameCut(fd: i32, index: i32)
    ensures var c := GetDriver(fd, index, [0]);
      Answer(c, Some(Frame(Opcode(c), ReplyBytes(c, 0, 0, Some([65]))))) == Driver(0, [])
  {
    NameReply(GetDriver(fd, index, [0]), 0, Some([65]), [65]);
    assert [65][..1] == [65] && Terminated([65]) == [0];
    hide Answer, Opcode;
  }

  lemma {:induction false} DataItemOfSuccess(data: seq<byte>, beyond: seq<byte>, res: i32)
    requires 0 < res <= |data|
    ensures DataItem(Some(data + beyond), res) == TokBytes(LeafTok(OCTET_TYPE, data[..res])) + []
  {
    hide PackSize, CString;
    assert (data + beyond)[..res] == data[..res];
  }

  /** A failed transfer leaves a C string behind its empty data item. */
  lemma {:induction false} DataItemOfFailure(mem: seq<byte>, res: i32)
    requires res <= 0
    ensures DataItem(Some(mem), res) == TokBytes(LeafTok(OCTET_TYPE, [])) + CString(mem)
  {
    hide PackSize, CString;
  }

  lemma {:induction false} TransferAnswer(c: Call, res: i32, data: seq<byte>, beyond: seq<byte>)
    requires IsTransfer(c)
    requires |data| == |Buffer(c)| && res <= |data| < 0x1_0000_0000
    ensures var p := Int32Item(res) + DataItem(Some(data + beyond), res);
      |p| > 0 && Answer(c, Some(Frame(Opcode(c), p))) == Data(res, Filled(Buffer(c), res, data))
  {
    hide Answer, Int32Item, Opcode, DataItem, CString, TokBytes, TokOk;
    if res > 0 {
      LeafTokOk(OCTET_TYPE, data[..res]);
      DataItemOfSuccess(data, beyond, res);
      DataAnswer(c, res, LeafTok(OCTET_TYPE, data[..res]), []);
      assert (data[..res] + [])[..res] == data[..res];
    } else {
      LeafTokOk(OCTET_TYPE, []);
      DataItemOfFailure(data + beyond, res);
      DataAnswer(c, res, LeafTok(OCTET_TYPE, []), CString(data + beyond));
    }
  }

  /** A buffer of zeros holds the empty string. */
  lemma {:induction false} NoName(n: nat)
    requires n > 0
    ensures CString(Terminated(Allocated(n))) == []
  {
    assert Terminated(Allocated(n))[0] == 0;
  }

  /** A reply about a descriptor that is not open gives the result that says so. */
  lemma {:induction false} AnswerIsNotOpen(c: Call)
    requires OnHandle(c) && (c.GetDriver? ==> InRange(c))
    ensures var reply := ReplyBytes(c, -1, Asked(c), None);
      |reply| > 0 && Answer(c, Some(Frame(Opcode(c), reply))) == NotOpen(c)
  {
    hide Answer, Int32Item, Int8Item, Opcode;
    if c.Close? {
      CodeAnswer(c, 1, -1);
    } else if c.SetConfiguration? || c.SetAltInterface? {
      SettingAnswer(c, -1, Asked(c));
    } else if IsTransfer(c) {
      LeafTokOk(OCTET_TYPE, []);
      DataAnswer(c, -1, LeafTok(OCTET_TYPE, []), []);
      assert TokBytes(LeafTok(OCTET_TYPE, [])) + [] == DataItem(None, -1);
      assert Buffer(c)[0..] == Buffer(c);
    } else if c.GetDriver? {
      NoName(|c.name|);
      NameReply(c, -1, None, Allocated(|c.name|));
    } else {
      CodeAnswer(c, 4, -1);
    }
  }

  /** If the call finds an open handle and is attempted, its result fits the reply. */
  predicate Exact<W>(lib: Lib<W>, s: Server<W>, c: Call) {
    OnHandle(c) ==>
      var i := Position(s.open, c.fd);
      i < |s.open| && Attempted(c) ==> Fits(c, lib.call(s.world, s.open[i], Sent(c)))
  }

  /** What the stub returns for the reply payload of the server, if there is one. */
  function Received(c: Call, reply: Option<seq<byte>>): Result {
    if reply.None? then Nothing else Answer(c, Some(Frame(Opcode(c), reply.value)))
  }

  /** A release of an open handle comes back as 0 whatever libusb returned. */
  lemma {:induction false} ReleaseResultLost<W(!new)>(lib: Lib<W>, s: Server<W>, fd: i32, index: i32)
    requires Contract(lib) && Position(s.open, fd) < |s.open|
    ensures Received(ReleaseInterface(fd, index), Some(ServeHandle(lib, s, ReleaseInterface(fd, index)).1)) == Code(0)
  {
    hide Answer, Int32Item, Contract, Opcode;
    CodeAnswer(ReleaseInterface(fd, index), 4, 0);
  }

  /** What the handler needs of its buffer for the reply. */
  predicate Fillable(c: Call, res: i32, mem: Option<seq<byte>>) {
    && (IsTransfer(c) ==> if mem.Some? then res <= |mem.value| < 0xF000_0000 else res <= 0)
    && (c.GetDriver? && mem.Some? ==> |c.name| <= |mem.value|)
  }

  lemma {:induction false} SentSame(c: Call, res: i32, setting: i32, mem: Option<seq<byte>>)
    requires OnHandle(c) && InRange(c) && Fillable(c, res, mem)
    ensures OnHandle(Sent(c)) && Attempted(Sent(c)) == Attempted(c) && Sent(c).fd == c.fd && Asked(Sent(c)) == Asked(c)
    ensures IsTransfer(Sent(c)) == IsTransfer(c) && Sent(c).Close? == c.Close?
    ensures Sent(c).ReleaseInterface? == c.ReleaseInterface?
    ensures Sent(c).GetDriver? == c.GetDriver? && (c.GetDriver? ==> |Sent(c).name| == |c.name|)
    ensures IsTransfer(c) ==> |Buffer(Sent(c))| == |Buffer(c)|
    ensures ReplyBytes(Sent(c), res, setting, mem) == ReplyBytes(c, res, setting, mem)
  {
  }

  lemma {:induction false} ItemSizes(v: int, res: i32, n: nat, mem: Option<seq<byte>>)
    ensures |Int8Item(v)| <= 7 && |Int32Item(v)| <= 10
    ensures (if mem.Some? then res <= |mem.value| < 0xF000_0000 else res <= 0) ==>
              |DataItem(mem, res)| < 0xF000_0010
    ensures 0 < n < 0x8000_0000 && (mem.Some? ==> n <= |mem.value|) ==> |NameItem(n, mem)| < 0x8000_0010
  {
    if 0 < n < 0x8000_0000 && (mem.Some? ==> n <= |mem.value|) {
      TerminatedName(if mem.None? then Allocated(n) else mem.value[..n]);
    }
    hide CString, Terminated, Numeric;
  }

  lemma {:induction false} ReplySize(c: Call, res: i32, setting: i32, mem: Option<seq<byte>>)
    requires InRange(c) && Fillable(c, res, mem)
    ensures |ReplyBytes(c, res, setting, mem)| < 0xF100_0000
  {
    hide Int8Item, Int32Item, DataItem, NameItem;
    ItemSizes(setting, res, 0, mem);
    ItemSizes(res, res, if c.GetDriver? then |c.name| else 0, mem);
  }

  /** What one handler does, against one step of the table of handles. */
  ghost predicate HandleRefines<W(!new)>(lib: Lib<W>, s: Server<W>, c: Call)
    requires Contract(lib) && OnHandle(c) && OnHandle(Sent(c))
  {
    var (s', reply) := ServeHandle(lib, s, Sent(c));
    var (l', r) := LocalStep(lib, Abs(s), c);
    && Valid(lib, s') && Abs(s') == l' && 0 < |reply| < 0xF100_0000
    && (Received(c, Some(reply)) == r <==> Exact(lib, s, c))
  }

  lemma {:induction false} RefusedStep<W(!new)>(lib: Lib<W>, s: Server<W>, c: Call)
    requires Contract(lib) && Valid(lib, s) && InRange(c) && OnHandle(c)
    requires Position(s.open, c.fd) == |s.open| || !Attempted(c)
    ensures OnHandle(Sent(c)) && HandleRefines(lib, s, c)
  {
    hide Answer, ReplyBytes, Table, NotOpen, Sent, Buffer, Contract, InRange;
    SentSame(c, -1, Asked(c), None);
    TableHas(s.open);
    PositionFinds(s.open, c.fd);
    AnswerIsNotOpen(c);
    ReplySize(c, -1, Asked(c), None);
  }

  /** libusb's call behind a call on an open handle. */
  function Behind<W>(lib: Lib<W>, s: Server<W>, c: Call): Outcome<W>
    requires OnHandle(c) && Position(s.open, c.fd) < |s.open|
  {
    lib.call(s.world, s.open[Position(s.open, c.fd)], Sent(c))
  }

  lemma {:induction false} ServesOpen<W(!new)>(lib: Lib<W>, s: Server<W>, c: Call)
    requires Contract(lib) && InRange(c) && OnHandle(c) && Attempted(c)
    requires Position(s.open, c.fd) < |s.open|
    ensures var o, i := Behind(lib, s, c), Position(s.open, c.fd);
      var res, mem := if c.ReleaseInterface? then 0 else o.res, Some(o.data + o.beyond);
      && OnHandle(Sent(c)) && Fillable(c, res, mem) && |ReplyBytes(c, res, o.setting, mem)| < 0xF100_0000
      && (IsTransfer(c) ==> |o.data| == |Buffer(c)| && o.res <= |Buffer(c)|)
      && (c.GetDriver? ==> |o.data| == |c.name|)
      && lib.live(o.world) == lib.live(s.world) - (if c.Close? then {c.fd} else {})
      && ServeHandle(lib, s, Sent(c)) ==
         (Server(o.world, if c.Close? then RemoveAt(s.open, i) else s.open), ReplyBytes(c, res, o.setting, mem))
  {
    hide ReplyBytes, InRange;
    var o := Behind(lib, s, c);
    SentSame(c, -1, Asked(c), None);
    assert Performs(lib, s.world, s.open[Position(s.open, c.fd)], Sent(c), o);
    var res, mem := if c.ReleaseInterface? then 0 else o.res, Some(o.data + o.beyond);
    SmallBuffer(c);
    hide Contract, Sent, Buffer;
    SentSame(c, res, o.setting, mem);
    ReplySize(c, res, o.setting, mem);
    hide RemoveAt;
  }

  lemma {:induction false} SmallBuffer(c: Call)
    requires InRange(c)
    ensures IsTransfer(c) ==> |Buffer(c)| < 0x8000_0000
  {
  }

  lemma {:induction false} LocalOpen<W>(lib: Lib<W>, s: Server<W>, c: Call)
    requires Distinct(s.open) && OnHandle(c) && Attempted(c) && Position(s.open, c.fd) < |s.open|
    ensures var o := Behind(lib, s, c);
      LocalStep(lib, Abs(s), c) ==
        (Local(o.world, if c.Close? then Table(s.open) - {c.fd} else Table(s.open)), Returned(c, o))
  {
    hide Table, Returned, Sent, Distinct;
    var h := s.open[Position(s.open, c.fd)];
    assert h in s.open;
    TableHas(s.open);
  }

  lemma {:induction false} OpenHandleStep<W(!new)>(lib: Lib<W>, s: Server<W>, c: Call)
    requires Contract(lib) && Valid(lib, s) && InRange(c) && OnHandle(c) && Attempted(c)
    requires Position(s.open, c.fd) < |s.open|
    ensures OnHandle(Sent(c)) && HandleRefines(lib, s, c)
  {
    hide Contract, InRange, Sent, ReplyBytes, Answer, Returned, Fits, Table, RemoveAt, Fillable, ServeHandle,
      LocalStep, Buffer;
    ServesOpen(lib, s, c);
    LocalOpen(lib, s, c);
    AnswerIsReturned(c, Behind(lib, s, c));
    TableOfRemove(s.open, Position(s.open, c.fd));
    RemovedMembers(s.open, Position(s.open, c.fd));
  }

  /** One call on an open list: the handlers that look up a handle. */
  lemma {:induction false} HandleStep<W(!new)>(lib: Lib<W>, s: Server<W>, c: Call)
    requires Contract(lib) && Valid(lib, s) && InRange(c) && OnHandle(c)
    ensures OnHandle(Sent(c)) && HandleRefines(lib, s, c)
  {
    hide HandleRefines, Contract, InRange, Valid, Sent;
    if Position(s.open, c.fd) == |s.open| || !Attempted(c) {
      RefusedStep(lib, s, c);
    } else {
      OpenHandleStep(lib, s, c);
    }
  }

  lemma {:induction false} OpenAnswer(c: Call, res: int, fd: i32)
    requires c.Open? && (res == 0 || res == -1)
    ensures var p := Int8Item(res) + Int32Item(fd);
      0 < |p| < 100 && Answer(c, Some(Frame(Opcode(c), p))) == Handle(if res == 0 then Some(fd) else None)
  {
    var first, t := Int8Item(res), LeafTok(INTEGER_TYPE, Numeric(4, fd));
    LeafTokOk(INTEGER_TYPE, Numeric(4, fd));
    SignedRoundTripC(4, fd);
    FirstInteger(1, res, Int32Item(fd));
    FirstToken(t, first, []);
    var p := first + Int32Item(fd);
    assert first + (TokBytes(t) + []) == p;
    assert |p[C.Begin(p).next..]| == |Int32Item(fd)|;
    hide C.Begin, C.Next, C.Value, Numeric, LeafTok, AsInt, TokBytes;
  }

  lemma {:induction false} BussesAnswer(res: i32)
    ensures var p := Int32Item(res);
      0 < |p| < 100 && Answer(FindBusses, Some(Frame(Opcode(FindBusses), p))) == Code(res)
  {
    FirstInteger(4, res, []);
    assert Int32Item(res) + [] == Int32Item(res);
  }

  lemma {:induction false} DevicesAnswer(h: Host, res: i32, bs: seq<Bus>)
    ensures var p := EncodeAll(ReplyItems(h, res, bs));
      0 < |p| && Answer(FindDevices, Some(Frame(Opcode(FindDevices), p))) == Found(res, p)
  {
    var p := EncodeAll(ReplyItems(h, res, bs));
    assert ReplyItems(h, res, bs)[1..] == BusBlocks(h, bs);
    assert Encode(ReplyItems(h, res, bs)[0]) == TokBytes(LeafTok(INTEGER_TYPE, Numeric(4, res)));
    FirstInteger(4, res, EncodeAll(BusBlocks(h, bs)));
    hide EncodeAll, ReplyItems, C.Value, C.Next, AsInt, Numeric;
  }

  lemma {:induction false} OpenStep<W(!new)>(lib: Lib<W>, s: Server<W>, c: Call)
    requires Contract(lib) && Valid(lib, s) && c.Open?
    ensures var (s', reply) := Serve(lib, s, c);
      var (l', r) := LocalStep(lib, Abs(s), c);
      && Valid(lib, s') && Abs(s') == l' && reply.Some? && 0 < |reply.value| < 100
      && Received(c, reply) == r
  {
    hide Answer, Table, Int8Item, Int32Item;
    OpenAnswer(c, -1, -1);
    match Select(lib.busses(s.world), c.location, c.devnum)
    case None =>
    case Some((i, j)) =>
      assert Opens(lib, s.world, lib.open(s.world, i, j));
      match lib.open(s.world, i, j).1
      case None =>
      case Some(h) =>
        OpenAnswer(c, 0, h.fd);
        assert forall g <- s.open :: g.fd != h.fd;
        TableOfPush(s.open, h);
  }

  /** A transfer on an open handle: the stub returns libusb's result, the caller's buffer begins with the
      octets that libusb transferred, and the rest of it is as it was, all of it when the transfer failed. */
  lemma {:induction false} TransferDelivers<W(!new)>(lib: Lib<W>, s: Server<W>, c: Call)
    requires Contract(lib) && InRange(c) && IsTransfer(c) && Position(s.open, c.fd) < |s.open|
    requires IsRead(c) ==> c.buffer != []
    ensures OnHandle(Sent(c))
    ensures var o := lib.call(s.world, s.open[Position(s.open, c.fd)], Sent(c));
      var r := Received(c, Some(ServeHandle(lib, s, Sent(c)).1));
      && o.res <= |Buffer(c)| == |o.data|
      && r.Data? && r.res == o.res && |r.buffer| == |Buffer(c)|
      && (0 <= o.res ==> r.buffer[..o.res] == o.data[..o.res] && r.buffer[o.res..] == Buffer(c)[o.res..])
      && (o.res < 0 ==> r.buffer == Buffer(c))
  {
    hide Contract, InRange, Sent, Answer, Fillable, ServeHandle, DataItem, Int32Item;
    ServesOpen(lib, s, c);
    SmallBuffer(c);
    var o := Behind(lib, s, c);
    TransferAnswer(c, o.res, o.data, o.beyond);
  }

  /** A call on a descriptor that is not open, and an empty bulk or interrupt transfer, change nothing on the
      server and return -1; setting and buffer stay as they were, and a driver's name is empty. */
  lemma {:induction false} RefusedCall<W(!new)>(lib: Lib<W>, s: Server<W>, c: Call)
    requires Contract(lib) && InRange(c) && OnHandle(c)
    requires (forall h <- s.open :: h.fd != c.fd) || (IsRead(c) && c.buffer == []) || (IsWrite(c) && c.bytes == [])
    ensures OnHandle(Sent(c)) && ServeHandle(lib, s, Sent(c)).0 == s
    ensures var r := Received(c, Some(ServeHandle(lib, s, Sent(c)).1));
      && (c.SetConfiguration? ==> r == Setting(-1, c.configuration))
      && (c.SetAltInterface? ==> r == Setting(-1, c.alternate))
      && (c.ControlMsg? ==> r == Data(-1, c.bytes))
      && (c.BulkRead? || c.InterruptRead? ==> r == Data(-1, c.buffer))
      && (c.GetDriver? ==> r == Driver(-1, []))
      && (c.Close? || c.Reset? || c.ResetEp? || c.ClearHalt? || c.ClaimInterface? ==> r == Code(-1))
      && (c.ReleaseInterface? || c.DetachKernelDriver? || c.BulkWrite? || c.InterruptWrite? ==> r == Code(-1))
  {
    hide Contract, InRange, Answer, ReplyBytes, Sent, Asked;
    SentSame(c, -1, Asked(c), None);
    AnswerIsNotOpen(c);
    if Position(s.open, c.fd) < |s.open| { assert s.open[Position(s.open, c.fd)] in s.open; }
  }

  /** Opening a device whose number the first bus at the location does not have, or at a location without a
      bus, opens nothing and returns NULL. */
  lemma {:induction false} OpenAbsent<W(!new)>(lib: Lib<W>, s: Server<W>, location: u32, devnum: byte)
    requires Contract(lib)
    requires forall i | 0 <= i < |lib.busses(s.world)| && lib.busses(s.world)[i].location == location ::
      (exists k | 0 <= k < i :: lib.busses(s.world)[k].location == location)
      || forall d <- lib.busses(s.world)[i].devices :: d.devnum != devnum
    ensures var c := Call.Open(location, devnum);
      Serve(lib, s, c).0 == s && Received(c, Serve(lib, s, c).1) == Handle(None)
  {
    var c := Call.Open(location, devnum);
    hide Contract, Answer, Int8Item, Int32Item;
    assert Select(lib.busses(s.world), location, devnum) == None;
    OpenAnswer(c, -1, -1);
  }

  /** One remote call. The server decodes exactly the call that the stub was given; serving it keeps the
      handle table; world and table afterwards are those of the simple machine; every call but UsbInit is
      answered; and the stub returns what the machine returns exactly when the result fits the reply. */
  lemma {:induction false} RemoteStep<W(!new)>(lib: Lib<W>, s: Server<W>, c: Call)
    requires Contract(lib) && Valid(lib, s) && InRange(c)
    ensures Decode(FrameBytes(Frame(Opcode(c), Request(c)))) == Some(Sent(c))
    ensures var (s', reply) := Serve(lib, s, Sent(c));
      var (l', r) := LocalStep(lib, Abs(s), c);
      && Valid(lib, s') && Abs(s') == l'
      && (reply.None? <==> c.Init?)
      && (reply.Some? ==> 0 < |reply.value| < 0xF100_0000)
      && (Received(c, reply) == r <==> Exact(lib, s, c))
  {
    DecodeRequest(c);
    hide Decode, Request, Table, Answer;
    if OnHandle(c) {
      hide ReplyBytes, Fits, Returned, Sent;
      HandleStep(lib, s, c);
      assert OnHandle(Sent(c));
    } else if c.Open? {
      OpenStep(lib, s, c);
    } else if c.FindBusses? {
      BussesAnswer(lib.findBusses(s.world).1);
    } else if c.FindDevices? {
      hide EncodeAll;
      var (w, res) := lib.findDevices(s.world);
      assert Serializable(lib, lib.busses(w));
      DevicesAnswer(lib.host, res, lib.busses(w));
    }
  }

  // ---- runs -----------------------------------------------------------------------------------

  /** The results of a run of remote calls, each served before the next is made. */
  function RemoteRun<W(!new)>(lib: Lib<W>, s: Server<W>, cs: seq<Call>): (Server<W>, seq<Result>)
    requires Contract(lib)
    decreases |cs|
  {
    if cs == [] then (s, [])
    else
      var (s', reply) := Serve(lib, s, Sent(cs[0]));
      var (last, rs) := RemoteRun(lib, s', cs[1..]);
      (last, [Received(cs[0], reply)] + rs)
  }

  function LocalRun<W>(lib: Lib<W>, l: Local<W>, cs: seq<Call>): (Local<W>, seq<Result>)
    decreases |cs|
  {
    if cs == [] then (l, [])
    else
      var (l', r) := LocalStep(lib, l, cs[0]);
      var (last, rs) := LocalRun(lib, l', cs[1..]);
      (last, [r] + rs)
  }

  /** Every result of the run fits its reply. */
  predicate ExactRun<W(!new)>(lib: Lib<W>, s: Server<W>, cs: seq<Call>)
    requires Contract(lib)
    decreases |cs|
  {
    cs == [] || (Exact(lib, s, cs[0]) && ExactRun(lib, Serve(lib, s, Sent(cs[0])).0, cs[1..]))
  }

  /** A run of remote calls on any list of open handles returns what the simple machine returns, exactly
      when every result fits its reply; world and table agree in any case. */
  lemma {:induction false} RemoteRefinesLocal<W(!new)>(lib: Lib<W>, s: Server<W>, cs: seq<Call>)
    requires Contract(lib) && Valid(lib, s) && forall c <- cs :: InRange(c)
    ensures var (last, results) := RemoteRun(lib, s, cs);
      var (l, expected) := LocalRun(lib, Abs(s), cs);
      Valid(lib, last) && Abs(last) == l && |results| == |expected| == |cs| &&
      (results == expected <==> ExactRun(lib, s, cs))
    decreases |cs|
  {
    if cs != [] {
      assert cs[0] in cs;
      RemoteStep(lib, s, cs[0]);
      var s' := Serve(lib, s, Sent(cs[0])).0;
      hide Serve, LocalStep, Received, Exact, Abs, InRange, Contract, Valid, Sent;
      RemoteRefinesLocal(lib, s', cs[1..]);
      var a, b := RemoteRun(lib, s', cs[1..]).1, LocalRun(lib, Abs(s'), cs[1..]).1;
      SameLists(Received(cs[0], Serve(lib, s, Sent(cs[0])).1), a, LocalStep(lib, Abs(s), cs[0]).1, b);
    }
  }

  /** A run of remote calls, seen from its first call. */
  lemma {:induction false} RemoteRunFirst<W(!new)>(lib: Lib<W>, s: Server<W>, cs: seq<Call>, k: nat)
    requires Contract(lib) && k < |cs|
    ensures var (s', reply) := Serve(lib, s, Sent(cs[0]));
      var rs := RemoteRun(lib, s, cs).1;
      && |rs| == 1 + |RemoteRun(lib, s', cs[1..]).1| && rs[0] == Received(cs[0], reply)
      && rs[1..] == RemoteRun(lib, s', cs[1..]).1
      && RemoteRun(lib, s, cs[..k]).0 == if k == 0 then s else RemoteRun(lib, s', cs[1..][..k - 1]).0
  {
    hide Serve, Received, Sent, Contract;
    if k > 0 { assert cs[..k][0] == cs[0] && cs[..k][1..] == cs[1..][..k - 1]; }
  }

  /** A run of local calls, seen from its first call. */
  lemma {:induction false} LocalRunFirst<W>(lib: Lib<W>, l: Local<W>, cs: seq<Call>)
    requires cs != []
    ensures var (l', r) := LocalStep(lib, l, cs[0]);
      var rs := LocalRun(lib, l, cs).1;
      |rs| == 1 + |LocalRun(lib, l', cs[1..]).1| && rs[0] == r && rs[1..] == LocalRun(lib, l', cs[1..]).1
  {
    hide LocalStep;
  }

  /** Result by result: the `k`-th is that of the simple machine exactly when it fits its reply. */
  lemma {:induction false} ResultAt<W(!new)>(lib: Lib<W>, s: Server<W>, cs: seq<Call>, k: nat)
    requires Contract(lib) && Valid(lib, s) && (forall c <- cs :: InRange(c)) && k < |cs|
    ensures |RemoteRun(lib, s, cs).1| == |LocalRun(lib, Abs(s), cs).1| == |cs|
    ensures RemoteRun(lib, s, cs).1[k] == LocalRun(lib, Abs(s), cs).1[k]
       <==> Exact(lib, RemoteRun(lib, s, cs[..k]).0, cs[k])
    decreases k
  {
    RemoteRefinesLocal(lib, s, cs);
    assert cs[0] in cs;
    RemoteStep(lib, s, cs[0]);
    RemoteRunFirst(lib, s, cs, k);
    LocalRunFirst(lib, Abs(s), cs);
    hide Serve, LocalStep, Received, Exact, ExactRun, Abs, InRange, Contract, Valid, Sent, Decode, Request,
      RemoteRun, LocalRun;
    if k > 0 {
      ResultAt(lib, Serve(lib, s, Sent(cs[0])).0, cs[1..], k - 1);
      assert RemoteRun(lib, s, cs).1[k] == RemoteRun(lib, s, cs).1[1..][k - 1];
      assert LocalRun(lib, Abs(s), cs).1[k] == LocalRun(lib, Abs(s), cs).1[1..][k - 1];
    }
  }

  /** One more call at the end of a run. */
  lemma {:induction false} RemoteRunPush<W(!new)>(lib: Lib<W>, s: Server<W>, cs: seq<Call>, c: Call)
    requires Contract(lib)
    ensures var (last, rs) := RemoteRun(lib, s, cs);
      var (s', reply) := Serve(lib, last, Sent(c));
      |rs| == |cs| && RemoteRun(lib, s, cs + [c]) == (s', rs + [Received(c, reply)])
    decreases |cs|
  {
    hide Serve, Received, Sent, Contract;
    if cs == [] {
      RemoteRunOne(lib, s, c);
      assert [] + [c] == [c];
    } else {
      var all := cs + [c];
      assert all[0] == cs[0] && all[1..] == cs[1..] + [c];
      var next, q := Serve(lib, s, Sent(cs[0])).0, Received(cs[0], Serve(lib, s, Sent(cs[0])).1);
      assert RemoteRun(lib, s, cs) == (RemoteRun(lib, next, cs[1..]).0, [q] + RemoteRun(lib, next, cs[1..]).1);
      assert RemoteRun(lib, s, all) == (RemoteRun(lib, next, all[1..]).0, [q] + RemoteRun(lib, next, all[1..]).1);
      hide RemoteRun;
      RemoteRunPush(lib, next, cs[1..], c);
      var (last, rs) := RemoteRun(lib, next, cs[1..]);
      Associates([q], rs, [Received(c, Serve(lib, last, Sent(c)).1)]);
    }
  }

  lemma {:induction false} RemoteRunOne<W(!new)>(lib: Lib<W>, s: Server<W>, c: Call)
    requires Contract(lib)
    ensures RemoteRun(lib, s, []) == (s, [])
    ensures var (s', reply) := Serve(lib, s, Sent(c)); RemoteRun(lib, s, [c]) == (s', [] + [Received(c, reply)])
  {
    hide Serve, Received, Sent, Contract;
    assert [c][0] == c && [c][1..] == [];
    var s', r := Serve(lib, s, Sent(c)).0, Received(c, Serve(lib, s, Sent(c)).1);
    assert RemoteRun(lib, s', []) == (s', []);
    assert RemoteRun(lib, s, [c]) == (RemoteRun(lib, s', [c][1..]).0, [r] + RemoteRun(lib, s', [c][1..]).1);
    assert [] + [r] == [r] == [r] + [];
  }

  lemma {:induction false} SameLists<T>(r: T, a: seq<T>, q: T, b: seq<T>)
    ensures [r] + a == [q] + b <==> r == q && a == b
  {
    assert ([r] + a)[0] == r && ([q] + b)[0] == q && ([r] + a)[1..] == a && ([q] + b)[1..] == b;
  }
}

/** src/proto/protocol.hpp and protocol.cpp: blocks written into one shared string, the C++ item
    reader, and packets that consist of one outer block. */
module CppProtocol {
  import opened Bytes
  import opened Protobase
  import opened Tlv
  import opened Framing

  // ---- writing --------------------------------------------------------------------------------

  /** The string that all blocks of a packet share. */
  class ByteBuffer {
    var bytes: seq<byte>

    constructor ()
      ensures bytes == []
    {
      bytes := [];
    }
  }

  /** What `Struct::append` inserts: nothing for NULL, a C string for size 0, else `size` octets. */
  function Appended(mem: Option<seq<byte>>, size: nat): seq<byte>
    requires mem.Some? ==> size <= |mem.value|
  {
    if mem.None? then [] else if size == 0 then CString(mem.value) else mem.value[..size]
  }

  /** The octets of an item whose length field says `size`, with whatever `append` put behind it. */
  function ItemBytes(ty: byte, size: nat, data: seq<byte>): seq<byte> {
    [ty] + PackSize(size) + data
  }

  /** What the length field of a finished block covers: everything behind its type octet. */
  function BlockSize(bytes: seq<byte>, pos: nat): nat
    requires pos < |bytes|
  {
    |bytes| - pos - 1
  }

  /** A block: where it starts in the shared string and where its next item goes. */
  class Struct {
    const buf: ByteBuffer
    const pos: nat
    var cursor: nat
    var size: nat

    ghost predicate Valid()
      reads this, buf
    {
      pos <= cursor <= |buf.bytes|
    }

    /** A negative position means the end of the shared string. */
    constructor (buf: ByteBuffer, pos: int)
      requires pos <= |buf.bytes|
      ensures Valid() && this.buf == buf && cursor == this.pos && size == 0
      ensures this.pos == if pos < 0 then |buf.bytes| else pos
    {
      var start: nat := if pos < 0 then |buf.bytes| else pos;
      this.buf, this.pos, this.cursor, this.size := buf, start, start, 0;
    }

    /** `mBuf.insert(mCursor, …)` together with the update of cursor and size. */
    method Insert(x: seq<byte>)
      requires Valid()
      modifies this, buf
      ensures Valid() && cursor == old(cursor) + |x| && size == old(size) + |x|
      ensures buf.bytes == InsertAt(old(buf.bytes), old(cursor), x)
    {
      buf.bytes := buf.bytes[..cursor] + x + buf.bytes[cursor..];
      size, cursor := size + |x|, cursor + |x|;
    }

    method Push(ch: byte)
      requires Valid()
      modifies this, buf
      ensures Valid() && cursor == old(cursor) + 1 && size == old(size) + 1
      ensures buf.bytes == InsertAt(old(buf.bytes), old(cursor), [ch])
    {
      Insert([ch]);
    }

    method Append(mem: Option<seq<byte>>, n: nat)
      requires Valid() && (mem.Some? ==> n <= |mem.value|)
      modifies this, buf
      ensures Valid() && cursor == old(cursor) + |Appended(mem, n)| && size == old(size) + |Appended(mem, n)|
      ensures buf.bytes == InsertAt(old(buf.bytes), old(cursor), Appended(mem, n))
    {
      if mem.Some? {
        Insert(if n == 0 then CString(mem.value) else mem.value[..n]);
      }
    }

    method PushPacked(val: nat)
      requires Valid()
      modifies this, buf
      ensures Valid() && cursor == old(cursor) + |PackSize(val)| && size == old(size) + |PackSize(val)|
      ensures buf.bytes == InsertAt(old(buf.bytes), old(cursor), PackSize(val))
    {
      var packed := PackSize(val);
      assert packed[..|packed|] == packed;
      Append(Some(packed), |packed|);
    }

    /** `addNumeric`: nothing for a width it does not know. */
    method AddNumeric(ty: byte, width: nat, val: int)
      requires Valid()
      modifies this, buf
      ensures Valid()
      ensures var item := if width == 1 || width == 2 || width == 4
                          then TokBytes(LeafTok(ty, Numeric(width, val))) else [];
        && cursor == old(cursor) + |item| && size == old(size) + |item|
        && buf.bytes == InsertAt(old(buf.bytes), old(cursor), item)
    {
      if width != 1 && width != 2 && width != 4 {
        return;
      }
      var data := Numeric(width, val);
      assert data[..width] == data;
      AddData(Some(data), width, ty);
      assert ItemBytes(ty, width, data) == TokBytes(LeafTok(ty, data));
    }

    method AddData(data: Option<seq<byte>>, n: nat, ty: byte)
      requires Valid() && (data.Some? ==> n <= |data.value|)
      modifies this, buf
      ensures Valid()
      ensures var item := ItemBytes(ty, n, Appended(data, n));
        && cursor == old(cursor) + |item| && size == old(size) + |item|
        && buf.bytes == InsertAt(old(buf.bytes), old(cursor), item)
    {
      ghost var b, c := buf.bytes, cursor;
      Push(ty);
      PushPacked(n);
      Append(data, n);
      InsertThrice(b, c, [ty], PackSize(n), Appended(data, n));
    }

    /** `addString`: the string with its terminating NUL, or nothing for NULL. */
    method AddString(mem: Option<seq<byte>>, ty: byte)
      requires Valid()
      modifies this, buf
      ensures Valid()
      ensures var item := if mem.None? then [] else TokBytes(LeafTok(ty, CString(mem.value) + [0]));
        && cursor == old(cursor) + |item| && size == old(size) + |item|
        && buf.bytes == InsertAt(old(buf.bytes), old(cursor), item)
    {
      if mem.None? { return; }
      var str := CString(mem.value) + [0];
      assert str[..|str|] == str;
      AddData(Some(str), |str|, ty);
      assert ItemBytes(ty, |str|, str) == TokBytes(LeafTok(ty, str));
    }

    /** `addInt32`. */
    method AddInt32(val: int)
      requires Valid()
      modifies this, buf
      ensures Valid()
      ensures var item := TokBytes(LeafTok(INTEGER_TYPE, Numeric(4, val)));
        && cursor == old(cursor) + |item| && size == old(size) + |item|
        && buf.bytes == InsertAt(old(buf.bytes), old(cursor), item)
    {
      AddNumeric(INTEGER_TYPE, 4, val);
    }

    /** `finalize`: the length goes right behind the type octet; cursors are left as they were. */
    method Finalize()
      requires pos < |buf.bytes|
      modifies buf
      ensures buf.bytes == InsertAt(old(buf.bytes), pos + 1, PackSize(BlockSize(old(buf.bytes), pos)))
    {
      buf.bytes := InsertAt(buf.bytes, pos + 1, PackSize(|buf.bytes| - pos - 1));
    }

    /** `writeBlock`: a new block always starts at the end of the shared string. */
    method WriteBlock(ty: byte) returns (block: Struct)
      modifies buf
      ensures fresh(block) && block.Valid() && block.buf == buf && block.pos == |old(buf.bytes)|
      ensures block.cursor == |buf.bytes| && block.size == block.cursor - block.pos
      ensures buf.bytes == old(buf.bytes) + if ty != INVALID_TYPE then [ty] else []
    {
      block := new Struct(buf, |buf.bytes|);
      if ty != INVALID_TYPE { block.Push(ty); }
    }
  }

  lemma {:induction false} InsertTwice(b: seq<byte>, c: nat, x: seq<byte>, y: seq<byte>)
    requires c <= |b|
    ensures InsertAt(InsertAt(b, c, x), c + |x|, y) == InsertAt(b, c, x + y)
  {
    var s := InsertAt(b, c, x);
    assert s[..c + |x|] == b[..c] + x;
    assert s[c + |x|..] == b[c..];
  }

  lemma {:induction false} InsertThrice(b: seq<byte>, c: nat, x: seq<byte>, y: seq<byte>, z: seq<byte>)
    requires c <= |b|
    ensures InsertAt(InsertAt(InsertAt(b, c, x), c + |x|, y), c + |x| + |y|, z) == InsertAt(b, c, x + y + z)
  {
    InsertTwice(b, c, x, y);
    InsertTwice(b, c, x + y, z);
  }

  /** `addData` writes an item that reads back as `data` for every non-empty `data`, and an empty item
      for NULL. A non-NULL pointer with size 0 leaves the bytes of a C string behind an empty item. */
  lemma {:induction false} AddDataExact(mem: Option<seq<byte>>, size: nat, ty: byte)
    requires mem.Some? ==> size <= |mem.value|
    requires size > 0 ==> mem.Some?
    ensures var meant := if mem.None? then [] else mem.value[..size];
      ItemBytes(ty, size, Appended(mem, size)) == TokBytes(LeafTok(ty, meant)) <==>
      (size > 0 || mem.None? || mem.value == [] || mem.value[0] == 0)
  {
    var meant := if mem.None? then [] else mem.value[..size];
    var got := Appended(mem, size);
    assert |meant| == size;
    assert ItemBytes(ty, size, got)[1 + |PackSize(size)|..] == got;
    assert TokBytes(LeafTok(ty, meant))[1 + |PackSize(size)|..] == meant;
  }

  /** With size 0 the whole C string is inserted, without its NUL. */
  lemma {:induction false} WholeString(str: seq<byte>, rest: seq<byte>)
    requires 0 !in str
    ensures Appended(Some(str + [0] + rest), 0) == str
  {
    CStringOfTerminated(str, rest);
  }

  /** An empty buffer that begins with an octet other than NUL leaves that octet behind its item. */
  lemma {:induction false} StrayOctet(ty: byte)
    ensures ItemBytes(ty, 0, Appended(Some([65, 0]), 0)) == [ty, 0, 65]
  {
    assert CString([65, 0]) == [65] + CString([65, 0][1..]);
    assert [65, 0][1..] == [0];
  }

  // ---- reading --------------------------------------------------------------------------------

  /** The fields of the C++ `Iterator`; the value is an offset into the packet. */
  datatype Reader = Reader(pos: nat, ty: byte, len: nat, val: nat)

  /** `Iterator::next`: at the end every field keeps its old value. */
  function Advance(b: seq<byte>, r: Reader): Reader {
    if r.pos >= |b| then r
    else
      match UnpackSize(b[r.pos + 1..])
      case Unpacked(octets, size) =>
        Reader(r.pos + 1 + octets + size, b[r.pos], size, r.pos + 1 + octets)
      case Unrecognised =>
        Reader(r.pos + 1, b[r.pos], 0, r.pos + 1)
  }

  /** The constructor: enter the packet and load its first item. */
  function FirstItem(b: seq<byte>): Reader {
    var octets := if b == [] then 0
                  else match UnpackSize(b[1..]) case Unpacked(n, _) => n case Unrecognised => 0;
    Advance(b, Reader(1 + octets, INVALID_TYPE, 0, 0))
  }

  function ValueOf(b: seq<byte>, r: Reader): seq<byte> {
    if r.val + r.len <= |b| then b[r.val..r.val + r.len] else []
  }

  /** The reader stands at the first of the flat items `ts`, the last ones of the packet. Nothing is
      known about its fields once all have been taken. */
  predicate Ahead(b: seq<byte>, r: Reader, ts: seq<Tok>) {
    && (forall t <- ts :: TokOk(t) && !Structural(t.ty))
    && r.pos <= |b|
    && if ts == [] then r.pos == |b|
       else
         && r.ty == ts[0].ty && r.len == ts[0].len && r.pos == r.val + r.len
         && b[r.val..] == ts[0].body + Flat(ts[1..])
  }

  lemma {:induction false} AdvanceTo(b: seq<byte>, r: Reader, ts: seq<Tok>)
    requires r.pos <= |b| && b[r.pos..] == Flat(ts)
    requires forall t <- ts :: TokOk(t) && !Structural(t.ty)
    ensures Ahead(b, Advance(b, r), ts)
  {
    if ts != [] {
      var t, rest := ts[0], Flat(ts[1..]);
      assert t in ts;
      assert b[r.pos..] == [t.ty] + (t.hdr + (t.body + rest));
      assert b[r.pos] == b[r.pos..][0];
      assert b[r.pos + 1..] == b[r.pos..][1..] == t.hdr + (t.body + rest);
      UnpackLengthField(t.hdr, t.len, t.body + rest);
      var v := r.pos + 1 + |t.hdr|;
      assert b[v..] == b[r.pos + 1..][|t.hdr|..] == t.body + rest;
    }
  }

  /** `getVal`: the value of the current item; the reader moves to the next one. */
  lemma {:induction false} TakeItem(b: seq<byte>, r: Reader, ts: seq<Tok>)
    requires ts != [] && Ahead(b, r, ts)
    ensures ValueOf(b, r) == ts[0].body && r.len == |ts[0].body|
    ensures Ahead(b, Advance(b, r), ts[1..])
  {
    assert ts[0] in ts;
    assert |b[r.val..]| == |ts[0].body| + |Flat(ts[1..])|;
    assert b[r.val..r.pos] == b[r.val..][..r.len];
    assert b[r.pos..] == b[r.val..][r.len..];
    AdvanceTo(b, r, ts[1..]);
  }

  lemma {:induction false} OpenAhead(op: byte, ts: seq<Tok>)
    requires |Flat(ts)| < 0x1_0000_0000
    requires forall t <- ts :: TokOk(t) && !Structural(t.ty)
    ensures Ahead(FrameBytes(Frame(op, Flat(ts))), FirstItem(FrameBytes(Frame(op, Flat(ts)))), ts)
  {
    var n := |Flat(ts)|;
    var b := FrameBytes(Frame(op, Flat(ts)));
    assert b[1..] == PackSize(n) + Flat(ts);
    LengthCodec(n, Flat(ts));
    AdvanceTo(b, Reader(1 + |PackSize(n)|, INVALID_TYPE, 0, 0), ts);
  }

  /** Read items until `next` fails. */
  function Drain(b: seq<byte>, r: Reader): seq<Tree>
    decreases |b| - r.pos
  {
    [Leaf(r.ty, ValueOf(b, r))] + if r.pos >= |b| then [] else Drain(b, Advance(b, r))
  }

  lemma {:induction false} DrainItems(b: seq<byte>, r: Reader, items: seq<Tree>)
    requires items != []
    requires Appendable(items) && Ahead(b, r, Items16(items))
    ensures Drain(b, r) == items
    decreases |items|
  {
    var ts := Items16(items);
    assert ts[1..] == Items16(items[1..]);
    TakeItem(b, r, ts);
    assert Leaf(r.ty, ValueOf(b, r)) == items[0];
    assert Drain(b, r) == [items[0]] + if r.pos >= |b| then [] else Drain(b, Advance(b, r));
    hide Drain, ValueOf, Advance, Items16;
    if |items| > 1 {
      MoreAhead(b, r, ts);
      DrainItems(b, Advance(b, r), items[1..]);
      assert items == [items[0]] + items[1..];
    } else {
      assert |b[r.val..]| == |ts[0].body| by { assert Flat(ts[1..]) == []; }
      assert items == [items[0]];
    }
  }

  /** While items follow, the reader has not reached the end of the packet. */
  lemma {:induction false} MoreAhead(b: seq<byte>, r: Reader, ts: seq<Tok>)
    requires |ts| > 1 && Ahead(b, r, ts)
    ensures r.pos < |b|
  {
    assert |b[r.val..]| == |ts[0].body| + |Flat(ts[1..])|;
    assert ts[0] in ts && ts[1..][0] == ts[1];
  }

  /** All items of a packet. A value that is still NULL after the constructor means that there is none. */
  function Items(b: seq<byte>): seq<Tree> {
    if FirstItem(b).val == 0 then [] else Drain(b, FirstItem(b))
  }

  /** Whatever items the C side appends, the C++ reader of the packet finds the same ones. */
  lemma {:induction false} CppReadsC(op: byte, items: seq<Tree>)
    requires Appendable(items) && |Flat(Items16(items))| < 0x1_0000_0000
    ensures Items(FrameBytes(Frame(op, Flat(Items16(items))))) == items
  {
    var ts := Items16(items);
    var b := FrameBytes(Frame(op, Flat(ts)));
    if items == [] {
      assert Flat(ts) == [] && b == [op] + PackSize(0) + [] == [op, 0];
      assert b[1..] == [0];
    } else {
      Items16Ok(items);
      OpenAhead(op, ts);
      DrainItems(b, FirstItem(b), items);
      FirstLoaded(b, ts);
      hide Drain, FirstItem;
    }
  }

  /** The first item's value lies behind the packet's header. */
  lemma {:induction false} FirstLoaded(b: seq<byte>, ts: seq<Tok>)
    requires b != [] && ts != [] && Ahead(b, FirstItem(b), ts)
    ensures FirstItem(b).val > 0
  {
  }

  /** The C++ `Iterator` over a received packet. */
  class Iterator {
    const block: seq<byte>
    var pos: nat
    var ty: byte
    var length: nat
    var value: nat

    ghost function State(): Reader
      reads this
    {
      Reader(pos, ty, length, value)
    }

    constructor (pkt: Packet)
      ensures block == pkt.buf.bytes && State() == FirstItem(block)
    {
      block := pkt.buf.bytes;
      pos, ty, length, value := 0, INVALID_TYPE, 0, 0;
      new;
      Enter();
    }

    method Next()
      modifies this
      ensures State() == Advance(block, old(State()))
    {
      if pos >= |block| { return; }
      ty := block[pos];
      pos := pos + 1;
      match UnpackSize(block[pos..]) {
        case Unpacked(octets, size) =>
          value, length := pos + octets, size;
        case Unrecognised =>
          value, length := pos, 0;
      }
      pos := value + length;
    }

    /** `enter`, as the constructor calls it. */
    method Enter()
      requires State() == Reader(0, INVALID_TYPE, 0, 0)
      modifies this
      ensures State() == FirstItem(block)
    {
      pos := pos + 1;
      if pos <= |block| {
        match UnpackSize(block[pos..]) {
          case Unpacked(octets, _) => pos := pos + octets;
          case Unrecognised =>
        }
      }
      Next();
    }

    /** `getByteArray`, with `length()` octets of it. */
    method GetVal() returns (data: seq<byte>)
      modifies this
      ensures data == ValueOf(block, old(State())) && State() == Advance(block, old(State()))
    {
      data := if value + length <= |block| then block[value..value + length] else [];
      Next();
    }

    method GetInt() returns (v: i32)
      modifies this
      ensures v == Protobase.GetInt(ValueOf(block, old(State())))
      ensures State() == Advance(block, old(State()))
    {
      var data := GetVal();
      v := Protobase.GetInt(data);
    }

    method GetUInt() returns (v: u32)
      modifies this
      ensures v == Protobase.GetUInt(ValueOf(block, old(State())))
      ensures State() == Advance(block, old(State()))
    {
      var data := GetVal();
      v := Protobase.GetUInt(data);
    }
  }

  // ---- packets --------------------------------------------------------------------------------

  /** A packet is the block at position 0 of its own string. */
  class Packet {
    const buf: ByteBuffer
    const head: Struct

    ghost predicate Valid()
      reads this, head, buf
    {
      head.buf == buf && head.pos == 0 && head.Valid()
    }

    constructor (op: byte)
      ensures Valid() && fresh(buf) && fresh(head)
      ensures head.cursor == |buf.bytes| && buf.bytes == if op != INVALID_TYPE then [op] else []
    {
      var b := new ByteBuffer();
      var s := new Struct(b, 0);
      buf, head := b, s;
      new;
      if op != INVALID_TYPE { head.Push(op); }
    }

    /** `Packet::send`: finalize, then send everything. */
    method Send(sock: Socket)
      requires Valid() && buf.bytes != []
      modifies buf, sock`sent
      ensures var f := Frame(old(buf.bytes)[0], old(buf.bytes)[1..]);
        buf.bytes == FrameBytes(f) && sock.sent == old(sock.sent) + FrameBytes(f)
    {
      head.Finalize();
      sock.Send(buf.bytes);
    }

    /** `Packet::recv`: the packet keeps its header; -1 when the stream ends first. */
    method Recv(sock: Socket) returns (r: int)
      requires sock.Valid() && Receivable(sock.Incoming())
      modifies buf, sock`chunks
      ensures sock.Valid()
      ensures match ParseFrame(old(sock.Incoming()))
        case None => r == -1
        case Some((f, rest)) =>
          && r == |buf.bytes| && sock.Incoming() == rest && r + |rest| == |old(sock.Incoming())|
          && buf.bytes == old(sock.Incoming())[..r]
    {
      ghost var s := sock.Incoming();
      HeaderDecides(s);
      var data := new byte[PACKET_MINSIZE];
      var hsize := RecvHeader(sock, data);
      if hsize == 0 { return -1; }
      assert s[..hsize][1..] == s[1..hsize];
      var pending: u32 := 0;
      match UnpackSize(data[..hsize][1..]) {
        case Unpacked(_, n) => pending := n;
        case Unrecognised =>
      }
      r := RecvPayload(sock, data[..hsize], pending);
    }

    /** The second half of `recv`: the string grows to header and payload, and the payload follows the
        header in it. */
    method RecvPayload(sock: Socket, header: seq<byte>, pending: nat) returns (r: int)
      requires sock.Valid()
      modifies buf, sock`chunks
      ensures sock.Valid()
      ensures var s := old(sock.Incoming());
        if pending <= |s|
        then buf.bytes == header + s[..pending] && sock.Incoming() == s[pending..] && r == |buf.bytes|
        else r == -1
    {
      var hsize := |header|;
      var storage := new byte[hsize + pending];
      forall i | 0 <= i < hsize { storage[i] := header[i]; }
      assert storage[..hsize] == header;
      if pending > 0 {
        var read := RecvFull(sock, storage, hsize, pending);
        if read == 0 { return -1; }
      }
      buf.bytes := storage[..];
      r := |buf.bytes|;
    }
  }

  /** Packets received one after the other: from a stream of packets cut in any way, exactly the octets of
      these packets in order, with every later byte left. */
  method ReceiveAll(sock: Socket, n: nat, ghost fs: seq<Frame>, ghost rest: seq<byte>) returns (got: seq<seq<byte>>)
    requires sock.Valid() && n == |fs| && Sendable(fs) && sock.Incoming() == Stream(fs) + rest
    modifies sock`chunks
    ensures |got| == |fs| && forall i | 0 <= i < |fs| :: got[i] == FrameBytes(fs[i])
    ensures sock.Valid() && sock.Incoming() == rest
  {
    hide FrameBytes, ParseFrame, Receivable, DeclaredSize;
    got := [];
    var i := 0;
    assert fs[0..] == fs;
    while i < n
      invariant i <= n && |got| == i && forall k | 0 <= k < i :: got[k] == FrameBytes(fs[k])
      invariant sock.Valid() && sock.Incoming() == Stream(fs[i..]) + rest
    {
      assert fs[i] in fs;
      StreamFront(fs, i, rest);
      ghost var later := Stream(fs[i + 1..]) + rest;
      assert (FrameBytes(fs[i]) + later)[..|FrameBytes(fs[i])|] == FrameBytes(fs[i]);
      var pkt := new Packet(INVALID_TYPE);
      var r := pkt.Recv(sock);
      got := got + [pkt.buf.bytes];
      i := i + 1;
    }
    assert Stream([]) + rest == rest;
  }
}

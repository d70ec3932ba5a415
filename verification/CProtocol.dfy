/** src/proto/protocol.c and protocol.h: the growing packet buffer of the client and its iterator. */
module CProtocol {
  import opened Bytes
  import opened Protobase
  import opened Tlv
  import opened Framing
  import C = Cursor

  const BUF_FRAGLEN: u32 := 32

  /** `pkt_reserve` computes the new buffer size in 32 bits. */
  function GrownSize(size: u32): u32 { (size + BUF_FRAGLEN) % 0x1_0000_0000 }

  /** `pkt_append` computes the item size in 16 bits. */
  function ItemSize(len: u16): u16 { (4 + len) % 0x1_0000 }

  /** The two truncations are harmless exactly below these bounds. */
  lemma {:induction false} SizesDoNotWrap(size: u32, len: u16)
    ensures GrownSize(size) >= size <==> size + BUF_FRAGLEN < 0x1_0000_0000
    ensures ItemSize(len) == 4 + len <==> len <= 65531
  {
  }

  /** The first values past them. */
  lemma SizesWrap()
    ensures GrownSize(0xFFFF_FFE0) == 0 && ItemSize(65532) == 0
  {
  }

  /** The item itself: type, length form, length and value. */
  method WriteItem(buf: array<byte>, dst: nat, ty: byte, val: seq<byte>)
    requires |val| < 0x1_0000 && dst + 4 + |val| <= buf.Length
    modifies buf
    ensures buf[..dst + 4 + |val|] == old(buf[..dst]) + TokBytes(LeafTok16(ty, val))
  {
    ghost var before, hdr := buf[..dst], [ty, 0x82] + Be16(|val|);
    assert hdr + val == TokBytes(LeafTok16(ty, val));
    hide TokBytes, LeafTok16, Be16;
    CopyIn(buf, dst, [ty, 0x82] + Be16(|val|));
    assert buf[..dst + 4] == before + hdr;
    if |val| > 0 { CopyIn(buf, dst + 4, val); }
    assert buf[..dst + 4 + |val|] == (before + hdr) + val;
  }

  class Packet {
    var bufsize: u32
    var size: u32
    var op: byte
    var buf: array<byte>

    ghost predicate Valid()
      reads this
    {
      size <= bufsize == buf.Length
    }

    ghost function Payload(): seq<byte>
      reads this, buf
      requires Valid()
    {
      buf[..size]
    }

    /** `pkt_new`. */
    constructor (size: u32, op: byte)
      requires size > 0
      ensures Valid() && fresh(buf) && bufsize == size && this.op == op && Payload() == []
    {
      this.buf := new byte[size];
      this.bufsize, this.size, this.op := size, 0, op;
    }

    /** `pkt_init`: the buffer is kept. */
    method Init(op: byte)
      requires Valid()
      modifies this`op, this`size
      ensures Valid() && this.op == op && Payload() == []
    {
      this.op := op;
      size := 0;
    }

    /** `pkt_reserve`, with an allocator that succeeds. */
    method Reserve(n: u32)
      requires Valid() && n + BUF_FRAGLEN < 0x1_0000_0000
      modifies this`bufsize, this`buf
      ensures Valid() && bufsize >= n && bufsize >= old(bufsize)
      ensures buf == old(buf) || fresh(buf)
      ensures Payload() == old(Payload())
    {
      if bufsize < n {
        bufsize := GrownSize(n);
        var grown := new byte[bufsize];
        forall i | 0 <= i < buf.Length { grown[i] := buf[i]; }
        buf := grown;
      }
    }

    /** `pkt_append`: an item with the 0x82 length form, for lengths the item size can hold. */
    method Append(ty: byte, len: u16, val: seq<byte>) returns (isize: u16)
      requires Valid() && |val| == len <= 65531
      requires size + 4 + len + BUF_FRAGLEN < 0x1_0000_0000
      modifies this`bufsize, this`buf, this`size, buf
      ensures Valid() && (buf == old(buf) || fresh(buf))
      ensures isize == 4 + len && size == old(size) + isize
      ensures Payload() == old(Payload()) + TokBytes(LeafTok16(ty, val))
    {
      isize := ItemSize(len);
      Reserve(size + isize);
      hide TokBytes, LeafTok16;
      WriteItem(buf, size, ty, val);
      size := size + isize;
    }

    /** `pkt_addnumeric`: nothing for a width it does not know. */
    method AddNumeric(ty: byte, width: u16, val: int) returns (r: u16)
      requires Valid() && size + 8 + BUF_FRAGLEN < 0x1_0000_0000
      modifies this`bufsize, this`buf, this`size, buf
      ensures Valid() && (buf == old(buf) || fresh(buf))
      ensures size <= old(size) + 8
      ensures width == 1 || width == 2 || width == 4 ==>
                r == width && Payload() == old(Payload()) + TokBytes(LeafTok16(ty, Numeric(width, val)))
      ensures width != 1 && width != 2 && width != 4 ==> r == 0 && Payload() == old(Payload())
    {
      if width == 1 || width == 2 || width == 4 {
        var _ := Append(ty, width, Numeric(width, val));
        r := width;
      } else {
        r := 0;
      }
    }

    /** `pkt_addint`/`pkt_addint32`: a signed value of four octets. */
    method AddInt32(val: i32)
      requires Valid() && size + 8 + BUF_FRAGLEN < 0x1_0000_0000
      modifies this`bufsize, this`buf, this`size, buf
      ensures Valid() && (buf == old(buf) || fresh(buf)) && size <= old(size) + 8
      ensures Payload() == old(Payload()) + TokBytes(LeafTok16(INTEGER_TYPE, Numeric(4, val)))
    {
      var _ := AddNumeric(INTEGER_TYPE, 4, val);
    }

    /** `pkt_send`: opcode, length and payload in three sends. */
    method Send(sock: Socket)
      requires Valid()
      modifies sock`sent
      ensures sock.sent == old(sock.sent) + FrameBytes(Frame(op, Payload()))
    {
      sock.Send([op]);
      sock.Send(PackSize(size));
      if size > 0 { sock.Send(buf[..size]); }
      assert sock.sent == old(sock.sent) + ([op] + PackSize(size) + buf[..size]);
    }

    /** `pkt_recv`. A complete packet is taken off the stream however it is cut; one without payload
        also gives 0. Otherwise the result is 0. */
    method Recv(sock: Socket) returns (r: u32)
      requires Valid() && sock.Valid() && Receivable(sock.Incoming())
      requires DeclaredSize(sock.Incoming()) + BUF_FRAGLEN < 0x1_0000_0000
      modifies this, buf, sock`chunks
      ensures Valid() && sock.Valid() && (buf == old(buf) || fresh(buf))
      ensures match ParseFrame(old(sock.Incoming()))
        case None => r == 0
        case Some((f, rest)) =>
          op == f.op && Payload() == f.payload && r == |f.payload| && sock.Incoming() == rest
    {
      ghost var s := sock.Incoming();
      HeaderDecides(s);
      size := 0;
      Reserve(PACKET_MINSIZE);
      var hdr := RecvHeader(sock, buf);
      if hdr == 0 { return 0; }
      op := buf[0];
      assert s[..hdr][1..] == s[1..hdr];
      var pending: u32 := 0;
      match UnpackSize(buf[..hdr][1..]) {
        case Unpacked(_, n) => pending := n;
        case Unrecognised =>
      }
      if pending > 0 { RecvPayload(sock, pending); }
      r := size;
    }

    /** The second half of `pkt_recv`: the payload replaces the header in the buffer. */
    method RecvPayload(sock: Socket, pending: u32)
      requires Valid() && sock.Valid() && 0 < pending < 0x1_0000_0000 - BUF_FRAGLEN
      modifies this`bufsize, this`buf, this`size, buf, sock`chunks
      ensures Valid() && sock.Valid() && (buf == old(buf) || fresh(buf))
      ensures var s := old(sock.Incoming());
        if pending <= |s| then Payload() == s[..pending] && sock.Incoming() == s[pending..] else size == 0
    {
      Reserve(pending);
      size := RecvFull(sock, buf, 0, pending);
    }
  }

  /** Packets received one after the other: from a stream of packets cut in any way, exactly these packets
      in order, with every later byte left. */
  method ReceiveAll(pkt: Packet, sock: Socket, n: nat, ghost fs: seq<Frame>,
                    ghost rest: seq<byte>) returns (got: seq<Frame>)
    requires pkt.Valid() && sock.Valid() && n == |fs| && sock.Incoming() == Stream(fs) + rest
    requires forall f <- fs :: |f.payload| + BUF_FRAGLEN < 0x1_0000_0000
    modifies pkt, pkt.buf, sock`chunks
    ensures got == fs && pkt.Valid() && sock.Valid() && sock.Incoming() == rest
  {
    hide FrameBytes, ParseFrame, Receivable, DeclaredSize;
    got := [];
    var i := 0;
    assert fs[0..] == fs;
    while i < n
      invariant i <= n && got == fs[..i] && (pkt.buf == old(pkt.buf) || fresh(pkt.buf))
      invariant pkt.Valid() && sock.Valid() && sock.Incoming() == Stream(fs[i..]) + rest
    {
      assert fs[i] in fs;
      StreamFront(fs, i, rest);
      var _ := pkt.Recv(sock);
      got := got + [Frame(pkt.op, pkt.buf[..pkt.size])];
      i := i + 1;
    }
    assert Stream([]) + rest == rest;
  }

  /** The C `Iterator`; offsets into `buf` stand for its pointers. */
  class Iterator {
    const buf: array<byte>
    const end: nat
    var cur: nat
    var next: nat
    var ty: byte
    var len: nat
    var val: nat

    ghost predicate Valid() { end <= buf.Length }

    ghost function Payload(): seq<byte>
      requires Valid()
      reads buf
    {
      buf[..end]
    }

    /** The fields that the functions of module Cursor work on. */
    ghost function State(): C.Cursor
      reads this
    {
      C.Cursor(cur, next, ty, len, val)
    }

    /** `pkt_begin`. */
    constructor Begin(pkt: Packet)
      requires pkt.Valid()
      ensures Valid() && buf == pkt.buf && Payload() == pkt.Payload()
      ensures State() == C.Begin(Payload())
    {
      buf, end := pkt.buf, pkt.size;
      cur, next, ty, len, val := 0, 0, INVALID_TYPE, 0, 0;
      new;
      Next();
    }

    /** `iter_end`. */
    predicate End()
      reads this
    {
      cur >= end
    }

    /** `iter_next`. */
    method Next()
      requires Valid()
      modifies this
      ensures State() == C.Next(Payload(), old(State()))
    {
      ty, len := INVALID_TYPE, 0;
      if next >= end {
        cur := next;
        return;
      }
      cur := next;
      ty := buf[cur];
      assert Payload()[cur + 1..] == buf[cur + 1..end];
      var p := cur + 1;
      match UnpackSize(buf[p..end]) {
        case Unpacked(octets, size) => p, len := p + octets, size;
        case Unrecognised =>
      }
      val := p;
      next := p + len;
    }

    /** `iter_enter`. */
    method Enter()
      requires Valid()
      modifies this
      ensures State() == C.Enter(Payload(), old(State()))
    {
      var octets := 0;
      if cur + 1 <= end {
        assert C.From(Payload(), cur + 1) == buf[cur + 1..end];
        match UnpackSize(buf[cur + 1..end]) {
          case Unpacked(n, _) => octets := n;
          case Unrecognised =>
        }
      }
      next := cur + 1 + octets;
      Next();
    }

    /** The octets of the current item, as a copy of `len` bytes from `val` takes them. */
    function Octets(): (data: seq<byte>)
      requires Valid()
      reads this, buf
      ensures data == C.Value(Payload(), State())
    {
      assert C.From(buf[..end], val) == if val <= end then buf[val..end] else [];
      if val + len <= end then buf[val..val + len] else if val <= end then buf[val..end] else []
    }

    /** `iter_getint`; the length used is that of the item returned. */
    method GetInt() returns (v: i32)
      requires Valid()
      modifies this
      ensures v == AsInt(C.Value(Payload(), old(State())))
      ensures State() == C.Next(Payload(), old(State()))
    {
      v := AsInt(Octets());
      Next();
    }

    /** `iter_getuint`. */
    method GetUInt() returns (v: u32)
      requires Valid()
      modifies this
      ensures v == AsUInt(C.Value(Payload(), old(State())))
      ensures State() == C.Next(Payload(), old(State()))
    {
      v := AsUInt(Octets());
      Next();
    }

    /** `iter_getstr` and the `strcpy` from it. */
    method GetStr() returns (s: seq<byte>)
      requires Valid()
      modifies this
      ensures s == CString(C.Value(Payload(), old(State())))
      ensures State() == C.Next(Payload(), old(State()))
    {
      s := CString(Octets());
      Next();
    }
  }
}

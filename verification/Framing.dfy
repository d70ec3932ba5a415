/** Packets on a byte stream: the socket as a queue of arriving chunks, `recv_full` and
    `pkt_recv_header` of src/proto/protobase.c, and what a packet looks like on the wire. */
module Framing {
  import opened Bytes
  import opened Protobase

  /** `memcpy` into a buffer. */
  method CopyIn(buf: array<byte>, at: nat, data: seq<byte>)
    requires at + |data| <= buf.Length
    modifies buf
    ensures buf[..] == old(buf[..at]) + data + old(buf[at + |data|..])
  {
    forall i | 0 <= i < |data| { buf[at + i] := data[i]; }
  }

  lemma {:induction false} FrontOf(x: seq<byte>, y: seq<byte>, z: seq<byte>)
    ensures (x + y + z)[..|x| + |y|] == x + y
  {
  }

  /** The bytes left when `n` bytes of the first chunk have been taken. */
  lemma {:induction false} ChunkTaken(chunks: seq<seq<byte>>, n: nat)
    requires chunks != [] && n <= |chunks[0]|
    ensures var first, rest := chunks[0], chunks[1..];
      && first[..n] == Concat(chunks)[..n] && n <= |Concat(chunks)|
      && Concat(if n == |first| then rest else [first[n..]] + rest) == Concat(chunks)[n..]
  {
    var first, rest := chunks[0], chunks[1..];
    if n < |first| {
      var left := [first[n..]] + rest;
      assert left[0] == first[n..] && left[1..] == rest;
    }
  }

  /** One end of a connection. Bytes arrive cut into chunks in any way at all; what is sent is
      queued in order. */
  class Socket {
    var chunks: seq<seq<byte>>
    var sent: seq<byte>

    ghost predicate Valid()
      reads this
    {
      forall c <- chunks :: c != []
    }

    ghost function Incoming(): seq<byte>
      reads this
    {
      Concat(chunks)
    }

    constructor (chunks: seq<seq<byte>>)
      requires forall c <- chunks :: c != []
      ensures Valid() && Incoming() == Concat(chunks) && sent == []
    {
      this.chunks, this.sent := chunks, [];
    }

    /** `recv`: some bytes of the next chunk, or 0 when the stream has ended. */
    method Recv(buf: array<byte>, at: nat, max: nat) returns (n: nat)
      requires Valid() && 0 < max && at + max <= buf.Length
      modifies this`chunks, buf
      ensures Valid()
      ensures n <= max && (n == 0 <==> old(Incoming()) == [])
      ensures n <= |old(Incoming())| && Incoming() == old(Incoming())[n..]
      ensures buf[..] == old(buf[..at]) + old(Incoming())[..n] + old(buf[at + n..])
    {
      if chunks == [] { return 0; }
      var first, rest := chunks[0], chunks[1..];
      n := if max < |first| then max else |first|;
      ChunkTaken(chunks, n);
      assert first in chunks && n > 0 && forall c <- rest :: c in chunks;
      hide Concat;
      CopyIn(buf, at, first[..n]);
      chunks := if n == |first| then rest else [first[n..]] + rest;
    }

    /** `send`, all or nothing. */
    method Send(data: seq<byte>)
      modifies this`sent
      ensures sent == old(sent) + data
    {
      sent := sent + data;
    }
  }

  /** A buffer that held `before` once the first `n` bytes of `all` have arrived at position `at`. */
  function Landed(before: seq<byte>, at: nat, all: seq<byte>, n: nat): seq<byte>
    requires at + n <= |before| && n <= |all|
  {
    before[..at] + all[..n] + before[at + n..]
  }

  /** `rcvd` more bytes behind those that already arrived. */
  lemma {:induction false} LandedMore(before: seq<byte>, at: nat, all: seq<byte>, read: nat, rcvd: nat)
    requires at + read + rcvd <= |before| && read + rcvd <= |all|
    ensures all[read..][rcvd..] == all[read + rcvd..]
    ensures var mid := Landed(before, at, all, read);
      && |mid| == |before|
      && mid[..at + read] + all[read..][..rcvd] + mid[at + read + rcvd..] == Landed(before, at, all, read + rcvd)
  {
    var mid := Landed(before, at, all, read);
    assert mid[..at + read] == before[..at] + all[..read];
    assert mid[at + read + rcvd..] == before[at + read + rcvd..];
    assert all[..read] + all[read..][..rcvd] == all[..read + rcvd];
  }

  /** `recv_full`: however the stream is cut, the next `pending` bytes arrive in `buf` and nothing
      behind them is taken; 0 when the stream ends before. */
  method RecvFull(sock: Socket, buf: array<byte>, at: nat, pending: nat) returns (read: nat)
    requires sock.Valid() && at + pending <= buf.Length
    modifies sock`chunks, buf
    ensures sock.Valid()
    ensures pending <= |old(sock.Incoming())| ==>
              && read == pending && sock.Incoming() == old(sock.Incoming())[pending..]
              && buf[..] == old(buf[..at]) + old(sock.Incoming())[..pending] + old(buf[at + pending..])
    ensures pending > |old(sock.Incoming())| ==> read == 0 && sock.Incoming() == []
  {
    ghost var all, before := sock.Incoming(), buf[..];
    var left: nat := pending;
    read := 0;
    assert before == Landed(before, at, all, 0);
    while left != 0
      invariant sock.Valid() && left + read == pending && read <= |all|
      invariant |before| == buf.Length
      invariant sock.Incoming() == all[read..]
      invariant buf[..] == Landed(before, at, all, read)
    {
      hide Landed;
      var rcvd := sock.Recv(buf, at + read, left);
      if rcvd == 0 { return 0; }
      LandedMore(before, at, all, read, rcvd);
      left := left - rcvd;
      read := read + rcvd;
    }
  }

  // ---- packets --------------------------------------------------------------------------------

  datatype Frame = Frame(op: byte, payload: seq<byte>)

  /** A packet on the wire: opcode, packed length, payload. */
  function FrameBytes(f: Frame): seq<byte> {
    [f.op] + PackSize(|f.payload|) + f.payload
  }

  /** The packet at the front of a stream and what follows it, once all of it has arrived. */
  function ParseFrame(s: seq<byte>): Option<(Frame, seq<byte>)> {
    if s == [] then None
    else
      match UnpackSize(s[1..])
      case Unrecognised => None
      case Unpacked(octets, size) =>
        var start := 1 + octets;
        if start + size <= |s| then Some((Frame(s[0], s[start..start + size]), s[start + size..])) else None
  }

  /** The stream starts with an opcode and one of the length forms in use, as far as it goes. */
  predicate Receivable(s: seq<byte>) {
    |s| >= 2 ==> s[1] <= 0x80 || s[1] == 0x82 || s[1] == 0x84
  }

  /** Number of octets in the header at the front of `s`. */
  function HeaderSize(s: seq<byte>): nat
    requires |s| >= 2
  {
    if s[1] <= 0x80 then 2 else 2 + (s[1] - 0x80)
  }

  /** The payload length that the header at the front of `s` announces, 0 while it is incomplete. */
  function DeclaredSize(s: seq<byte>): u32 {
    if s == [] then 0
    else match UnpackSize(s[1..]) case Unpacked(_, size) => size case Unrecognised => 0
  }

  /** A packet has arrived exactly when its header and the announced octets have. */
  lemma {:induction false} HeaderDecides(s: seq<byte>)
    requires Receivable(s)
    ensures |s| < 2 || HeaderSize(s) > |s| ==> ParseFrame(s) == None
    ensures |s| >= 2 && HeaderSize(s) <= |s| ==>
      var h, n := HeaderSize(s), DeclaredSize(s);
      && UnpackSize(s[1..h]) == Unpacked(h - 1, n)
      && ParseFrame(s) == if h + n <= |s| then Some((Frame(s[0], s[h..][..n]), s[h..][n..])) else None
  {
    if |s| >= 2 && HeaderSize(s) <= |s| {
      assert s[1..][1..] == s[2..];
      assert s[1..HeaderSize(s)][1..] == s[2..HeaderSize(s)];
      var h, n := HeaderSize(s), DeclaredSize(s);
      assert h + n <= |s| ==> s[h..][..n] == s[h..h + n] && s[h..][n..] == s[h + n..];
    }
  }

  lemma {:induction false} ParseFrameAt(f: Frame, rest: seq<byte>)
    requires |f.payload| < 0x1_0000_0000
    ensures var s := FrameBytes(f) + rest;
      ParseFrame(s) == Some((f, rest)) && Receivable(s) && |s| >= 2 && HeaderSize(s) == 1 + |PackSize(|f.payload|)|
  {
    var hdr, s := PackSize(|f.payload|), FrameBytes(f) + rest;
    assert s[1..] == hdr + (f.payload + rest);
    LengthCodec(|f.payload|, f.payload + rest);
    PackSizeIsLengthField(|f.payload|);
    assert s[1] == hdr[0];
    hide PackSize, LengthField, UnpackSize;
    var start := 1 + |hdr|;
    assert s == ([f.op] + hdr) + f.payload + rest;
    assert s[start..start + |f.payload|] == f.payload;
    assert s[start + |f.payload|..] == rest;
  }

  predicate Sendable(fs: seq<Frame>) { forall f <- fs :: |f.payload| < 0x1_0000_0000 }

  /** Packets sent one after the other. */
  function Stream(fs: seq<Frame>): seq<byte> {
    if fs == [] then [] else FrameBytes(fs[0]) + Stream(fs[1..])
  }

  /** The first `n` packets of a stream, taken one by one, and the bytes left. */
  function ParseFrames(s: seq<byte>, n: nat): Option<(seq<Frame>, seq<byte>)> {
    if n == 0 then Some(([], s))
    else
      match ParseFrame(s)
      case None => None
      case Some((f, rest)) =>
        match ParseFrames(rest, n - 1)
        case None => None
        case Some((fs, last)) => Some(([f] + fs, last))
  }

  lemma {:induction false} StreamAppend(a: seq<Frame>, b: seq<Frame>)
    ensures Stream(a + b) == Stream(a) + Stream(b)
  {
    if a == [] {
      assert a + b == b;
    } else {
      assert (a + b)[1..] == a[1..] + b;
      StreamAppend(a[1..], b);
    }
  }

  /** Any list of packets comes back from the stream it was sent on, with later bytes untouched. */
  lemma {:induction false} StreamRoundTrip(fs: seq<Frame>, rest: seq<byte>)
    requires Sendable(fs)
    ensures ParseFrames(Stream(fs) + rest, |fs|) == Some((fs, rest))
  {
    hide FrameBytes, ParseFrame;
    if fs == [] {
      assert Stream(fs) + rest == rest;
    } else {
      assert fs[0] in fs;
      Associates(FrameBytes(fs[0]), Stream(fs[1..]), rest);
      ParseFrameAt(fs[0], Stream(fs[1..]) + rest);
      StreamRoundTrip(fs[1..], rest);
      assert [fs[0]] + fs[1..] == fs;
    }
  }

  /** The packet at the front of a stream of packets. */
  lemma {:induction false} StreamFront(fs: seq<Frame>, i: nat, rest: seq<byte>)
    requires i < |fs| && |fs[i].payload| < 0x1_0000_0000
    ensures var s, later := Stream(fs[i..]) + rest, Stream(fs[i + 1..]) + rest;
      && s == FrameBytes(fs[i]) + later && ParseFrame(s) == Some((fs[i], later)) && Receivable(s)
      && DeclaredSize(s) == |fs[i].payload|
  {
    var f, later := fs[i], Stream(fs[i + 1..]) + rest;
    assert fs[i..][1..] == fs[i + 1..];
    assert Stream(fs[i..]) + rest == FrameBytes(f) + later;
    ParseFrameAt(f, later);
    hide FrameBytes, Stream;
    HeaderDecides(FrameBytes(f) + later);
  }

  lemma {:induction false} StreamNonEmpty(fs: seq<Frame>)
    ensures Stream(fs) == [] <==> fs == []
  {
  }

  /** Different lists of packets never produce the same bytes. */
  lemma {:induction false} StreamInjective(a: seq<Frame>, b: seq<Frame>)
    requires Sendable(a) && Sendable(b) && Stream(a) == Stream(b)
    ensures a == b
  {
    if a == [] || b == [] {
      StreamNonEmpty(a);
      StreamNonEmpty(b);
    } else {
      assert a[0] in a && b[0] in b;
      ParseFrameAt(a[0], Stream(a[1..]));
      ParseFrameAt(b[0], Stream(b[1..]));
      StreamInjective(a[1..], b[1..]);
      assert a == [a[0]] + a[1..] && b == [b[0]] + b[1..];
    }
  }

  /** `pkt_recv_header`: reads exactly the opcode, the first length octet and as many octets as that
      announces, for every header that fits the buffer. */
  method RecvHeader(sock: Socket, buf: array<byte>) returns (rcvd: nat)
    requires sock.Valid() && buf.Length >= PACKET_MINSIZE
    requires |sock.Incoming()| >= 2 ==> HeaderSize(sock.Incoming()) <= PACKET_MINSIZE
    modifies sock`chunks, buf
    ensures sock.Valid()
    ensures var s := old(sock.Incoming());
      if |s| >= 2 && HeaderSize(s) <= |s| then
        rcvd == HeaderSize(s) && sock.Incoming() == s[rcvd..] && buf[..rcvd] == s[..rcvd]
      else rcvd == 0
  {
    ghost var s := sock.Incoming();
    rcvd := RecvFull(sock, buf, 0, 2);
    if rcvd == 0 { return; }
    assert buf[..2] == s[..2];
    assert buf[1] == s[1];
    ghost var front := buf[..2];
    var c := buf[1];
    if c > 0x80 {
      ghost var before := buf[..];
      rcvd := RecvFull(sock, buf, 2, c - 0x80);
      if rcvd == 0 { return; }
      FrontOf(front, s[2..][..rcvd], before[2 + rcvd..]);
      assert s[..2] + s[2..][..rcvd] == s[..2 + rcvd];
      rcvd := rcvd + 2;
    }
  }
}

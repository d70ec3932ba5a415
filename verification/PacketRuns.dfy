/** Runs of the client's growing packet buffer (src/proto/protocol.c): any sequence of `pkt_init`,
    `pkt_reserve` and `pkt_append`. */
module PacketRuns {
  import opened Bytes
  import opened Tlv
  import opened CProtocol

  datatype Op = Init(op: byte) | Reserve(size: u32) | Append(ty: byte, val: seq<byte>)

  predicate Appends(ops: seq<Op>) { forall o <- ops :: o.Append? ==> |o.val| <= 65531 }

  /** The items appended since the last `pkt_init`. */
  function Since(ops: seq<Op>): seq<Tok>
    requires Appends(ops)
  {
    if ops == [] then []
    else
      var front, last := ops[..|ops| - 1], ops[|ops| - 1];
      assert last in ops;
      match last
      case Init(_) => []
      case Reserve(_) => Since(front)
      case Append(ty, val) => Since(front) + [LeafTok16(ty, val)]
  }

  predicate AnyInit(ops: seq<Op>) { exists o <- ops :: o.Init? }

  /** The payload after a run that began with the payload `start`: what was appended since the last
      `pkt_init`, behind `start` as long as there was none. */
  function After(start: seq<byte>, ops: seq<Op>): seq<byte>
    requires Appends(ops)
  {
    (if AnyInit(ops) then [] else start) + Flat(Since(ops))
  }

  /** No size of the run reaches the point where 32 bits wrap. */
  predicate Bounded(start: seq<byte>, ops: seq<Op>)
    requires Appends(ops)
  {
    && (forall o <- ops :: o.Reserve? ==> o.size + BUF_FRAGLEN < 0x1_0000_0000)
    && forall k | 0 <= k <= |ops| :: |After(start, ops[..k])| + BUF_FRAGLEN < 0x1_0000_0000
  }

  lemma {:induction false} FlatPush(ts: seq<Tok>, t: Tok)
    ensures Flat(ts + [t]) == Flat(ts) + TokBytes(t)
  {
    FlatAppend(ts, [t]);
    assert [t][1..] == [] && Flat([t]) == TokBytes(t) + Flat([]);
    hide TokBytes;
  }

  lemma {:induction false} AnyInitPush(ops: seq<Op>, o: Op)
    ensures AnyInit(ops + [o]) <==> AnyInit(ops) || o.Init?
  {
    assert forall x :: x in ops + [o] <==> x in ops || x == o;
  }

  /** One operation more. */
  lemma {:induction false} AfterPush(start: seq<byte>, ops: seq<Op>, o: Op)
    requires Appends(ops + [o]) && Appends(ops)
    ensures o in ops + [o]
    ensures After(start, ops + [o]) ==
      match o
      case Init(_) => []
      case Reserve(_) => After(start, ops)
      case Append(ty, val) => After(start, ops) + TokBytes(LeafTok16(ty, val))
  {
    var all := ops + [o];
    assert all[|all| - 1] == o && all[..|all| - 1] == ops;
    AnyInitPush(ops, o);
    hide AnyInit, TokBytes, LeafTok16;
    if o.Append? {
      FlatPush(Since(ops), LeafTok16(o.ty, o.val));
      hide Flat;
    }
  }

  /** One operation on the packet. */
  method Do(pkt: Packet, o: Op)
    requires pkt.Valid() && (o.Append? ==> |o.val| <= 65531)
    requires o.Reserve? ==> o.size + BUF_FRAGLEN < 0x1_0000_0000
    requires o.Append? ==> |pkt.Payload()| + 4 + |o.val| + BUF_FRAGLEN < 0x1_0000_0000
    modifies pkt, pkt.buf
    ensures pkt.Valid() && (pkt.buf == old(pkt.buf) || fresh(pkt.buf))
    ensures pkt.Payload() ==
      match o
      case Init(_) => []
      case Reserve(_) => old(pkt.Payload())
      case Append(ty, val) => old(pkt.Payload()) + TokBytes(LeafTok16(ty, val))
  {
    hide TokBytes, LeafTok16;
    match o {
      case Init(op) => pkt.Init(op);
      case Reserve(size) => pkt.Reserve(size);
      case Append(ty, val) => var _ := pkt.Append(ty, |val|, val);
    }
  }

  lemma {:induction false} ItemSize(ty: byte, val: seq<byte>)
    requires |val| <= 65531
    ensures |TokBytes(LeafTok16(ty, val))| == 4 + |val|
  {
  }

  /** The next operation of the run keeps within the bounds. */
  lemma {:induction false} NextFits(start: seq<byte>, ops: seq<Op>, k: nat)
    requires Appends(ops) && Bounded(start, ops) && k < |ops|
    ensures ops[k] in ops && ops[..k + 1] == ops[..k] + [ops[k]] && Appends(ops[..k]) && Appends(ops[..k + 1])
    ensures ops[k].Append? ==> |ops[k].val| <= 65531
    ensures ops[k].Reserve? ==> ops[k].size + BUF_FRAGLEN < 0x1_0000_0000
    ensures var o := ops[k];
      && (o.Append? ==> |After(start, ops[..k])| + 4 + |o.val| + BUF_FRAGLEN < 0x1_0000_0000)
      && After(start, ops[..k + 1]) ==
        match o
        case Init(_) => []
        case Reserve(_) => After(start, ops[..k])
        case Append(ty, val) => After(start, ops[..k]) + TokBytes(LeafTok16(ty, val))
  {
    var o := ops[k];
    assert o in ops && ops[..k + 1] == ops[..k] + [o];
    AfterPush(start, ops[..k], o);
    assert |After(start, ops[..k + 1])| + BUF_FRAGLEN < 0x1_0000_0000;
    if o.Append? { ItemSize(o.ty, o.val); }
    hide After, Bounded, TokBytes, LeafTok16;
  }

  lemma {:induction false} AfterNothing(start: seq<byte>, ops: seq<Op>)
    ensures Appends(ops[..0]) && After(start, ops[..0]) == start
  {
    assert ops[..0] == [] && start + [] == start;
  }

  /** Over any run the size stays within the buffer and the payload is exactly what was appended since the
      last `pkt_init`, however often the buffer was replaced by a larger one. */
  method Perform(pkt: Packet, ops: seq<Op>)
    requires pkt.Valid() && Appends(ops) && Bounded(pkt.Payload(), ops)
    modifies pkt, pkt.buf
    ensures pkt.Valid() && pkt.Payload() == After(old(pkt.Payload()), ops)
  {
    hide After, Bounded, Appends, TokBytes, LeafTok16;
    ghost var start := pkt.Payload();
    var i := 0;
    AfterNothing(start, ops);
    while i < |ops|
      invariant i <= |ops| && Appends(ops[..i])
      invariant pkt.Valid() && pkt.Payload() == After(start, ops[..i])
      invariant pkt.buf == old(pkt.buf) || fresh(pkt.buf)
    {
      NextFits(start, ops, i);
      Do(pkt, ops[i]);
      i := i + 1;
    }
    assert ops[..|ops|] == ops;
  }
}

/** Runs of the block writer: blocks opened, filled and finalized in any properly nested order, all of
    them in one string, each with a cursor that goes stale while blocks behind it are written. */
module Builder {
  import opened Bytes
  import opened Protobase
  import opened Tlv
  import opened CppProtocol

  /** What a program does to a packet under construction. Items go to the innermost open block. */
  datatype Op = Open(ty: byte) | Add(ty: byte, value: seq<byte>) | Close

  /** The open blocks: the packet itself, then one block inside the other. */
  datatype Stack<T> = Packet(top: T) | Inside(outer: Stack<T>, top: T)

  /** Start and cursor of an open block, as its Struct holds them. */
  datatype Block = Block(pos: nat, cursor: nat)

  datatype State = State(bytes: seq<byte>, blocks: Stack<Block>)

  predicate InBounds(s: State) {
    s.blocks.top.pos < s.blocks.top.cursor <= |s.bytes|
  }

  /** One call: `writeBlock`, an add on the innermost block, or its `finalize`. */
  function Step(s: State, op: Op): State
    requires InBounds(s)
    requires op.Close? ==> s.blocks.Inside?
  {
    var b := s.blocks.top;
    match op
    case Open(ty) => State(s.bytes + [ty], Inside(s.blocks, Block(|s.bytes|, |s.bytes| + 1)))
    case Add(ty, value) =>
      var item := TokBytes(LeafTok(ty, value));
      State(InsertAt(s.bytes, b.cursor, item), s.blocks.(top := Block(b.pos, b.cursor + |item|)))
    case Close => State(Finalized(s.bytes, b.pos), s.blocks.outer)
  }

  /** What `finalize` does to the string. */
  function Finalized(bytes: seq<byte>, pos: nat): seq<byte>
    requires pos < |bytes|
  {
    InsertAt(bytes, pos + 1, PackSize(BlockSize(bytes, pos)))
  }

  // ---- the reference --------------------------------------------------------------------------

  /** What an open block will hold: the items added to it and the blocks finished in it. */
  datatype Part = Part(ty: byte, leaves: seq<Tree>, kids: seq<Tree>)

  /** A finished block: its own items in call order, then its sub-blocks in call order. */
  function Finished(p: Part): Tree { Node(p.ty, p.leaves + p.kids) }

  function AddLeaf(p: Part, ty: byte, value: seq<byte>): Part {
    p.(leaves := p.leaves + [Leaf(ty, value)])
  }

  function AddBlock(p: Part, done: Part): Part {
    p.(kids := p.kids + [Finished(done)])
  }

  function StepParts(ps: Stack<Part>, op: Op): Stack<Part>
    requires op.Close? ==> ps.Inside?
  {
    match op
    case Open(ty) => Inside(ps, Part(ty, [], []))
    case Add(ty, value) => ps.(top := AddLeaf(ps.top, ty, value))
    case Close => ps.outer.(top := AddBlock(ps.outer.top, ps.top))
  }

  /** `ops` only finalizes blocks that are open, and never the packet. */
  predicate Nested(ps: Stack<Part>, ops: seq<Op>)
    decreases |ops|
  {
    ops == [] || ((ops[0].Close? ==> ps.Inside?) && Nested(StepParts(ps, ops[0]), ops[1..]))
  }

  function RunParts(ps: Stack<Part>, ops: seq<Op>): Stack<Part>
    requires Nested(ps, ops)
    decreases |ops|
  {
    if ops == [] then ps else RunParts(StepParts(ps, ops[0]), ops[1..])
  }

  // ---- the invariant --------------------------------------------------------------------------

  /** The part of an open block in front of its cursor: its type and its items, no length yet. */
  function Front(p: Part): seq<byte> { [p.ty] + EncodeAll(p.leaves) }

  function Layout(ps: Stack<Part>): seq<byte> {
    (if ps.Inside? then Layout(ps.outer) else []) + (Front(ps.top) + EncodeAll(ps.top.kids))
  }

  /** Where the innermost block starts. */
  function Start(ps: Stack<Part>): nat {
    if ps.Inside? then |Layout(ps.outer)| else 0
  }

  function Blocks(ps: Stack<Part>): Stack<Block> {
    var b := Block(Start(ps), Start(ps) + |Front(ps.top)|);
    if ps.Inside? then Inside(Blocks(ps.outer), b) else Packet(b)
  }

  /** The string is the layout of the open blocks, and every cursor, however old, is where its block
      expects it. */
  function Represent(ps: Stack<Part>): State {
    State(Layout(ps), Blocks(ps))
  }

  lemma {:induction false} InsertBetween(a: seq<byte>, x: seq<byte>, b: seq<byte>)
    ensures InsertAt(a + b, |a|, x) == a + x + b
  {
    assert (a + b)[..|a|] == a && (a + b)[|a|..] == b;
  }

  lemma {:induction false} FrontOfAdd(p: Part, ty: byte, value: seq<byte>)
    ensures Front(AddLeaf(p, ty, value)) == Front(p) + TokBytes(LeafTok(ty, value))
  {
    EncodeAllAppend(p.leaves, [Leaf(ty, value)]);
    EncodeAllOne(Leaf(ty, value));
    var item := TokBytes(LeafTok(ty, value));
    assert item == Encode(Leaf(ty, value));
    hide Encode, EncodeAll, TokBytes, LeafTok;
    assert ([p.ty] + EncodeAll(p.leaves)) + item == [p.ty] + (EncodeAll(p.leaves) + item);
  }

  /** The bytes of the blocks around the innermost one. */
  function Below(ps: Stack<Part>): seq<byte> {
    if ps.Inside? then Layout(ps.outer) else []
  }

  lemma {:induction false} TypeFirst(a: seq<byte>, ty: byte, b: seq<byte>, c: seq<byte>)
    ensures a + (([ty] + b) + c) == a + [ty] + (b + c)
  {
  }

  lemma {:induction false} InsertItem(below: seq<byte>, front: seq<byte>, item: seq<byte>, kids: seq<byte>)
    ensures InsertAt(below + (front + kids), |below| + |front|, item) == below + ((front + item) + kids)
  {
    assert below + (front + kids) == (below + front) + kids;
    InsertBetween(below + front, item, kids);
    assert (below + front) + item + kids == below + ((front + item) + kids);
  }

  /** An item lands behind the block's earlier items and in front of its finished blocks. */
  lemma {:induction false} AddToLayout(ps: Stack<Part>, ty: byte, value: seq<byte>)
    ensures Start(ps) + |Front(ps.top)| <= |Layout(ps)|
    ensures InsertAt(Layout(ps), Start(ps) + |Front(ps.top)|, TokBytes(LeafTok(ty, value))) ==
            Layout(ps.(top := AddLeaf(ps.top, ty, value)))
  {
    FrontOfAdd(ps.top, ty, value);
    hide EncodeAll, LeafTok, TokBytes, Front;
    InsertItem(Below(ps), Front(ps.top), TokBytes(LeafTok(ty, value)), EncodeAll(ps.top.kids));
  }

  lemma {:induction false} AddStep(ps: Stack<Part>, ty: byte, value: seq<byte>)
    ensures InBounds(Represent(ps))
    ensures Step(Represent(ps), Add(ty, value)) == Represent(StepParts(ps, Add(ty, value)))
  {
    AddToLayout(ps, ty, value);
    FrontOfAdd(ps.top, ty, value);
    hide Layout, EncodeAll, LeafTok, TokBytes;
  }

  lemma {:induction false} FinalizeBody(below: seq<byte>, ty: byte, body: seq<byte>)
    ensures Finalized(below + [ty] + body, |below|) == below + ([ty] + PackSize(|body|) + body)
  {
    hide PackSize;
    InsertBetween(below + [ty], PackSize(|body|), body);
  }

  lemma {:induction false} LayoutOfBody(ps: Stack<Part>)
    ensures InBounds(Represent(ps)) && Start(ps) == |Below(ps)|
    ensures Layout(ps) == Below(ps) + [ps.top.ty] + (EncodeAll(ps.top.leaves) + EncodeAll(ps.top.kids))
  {
    TypeFirst(Below(ps), ps.top.ty, EncodeAll(ps.top.leaves), EncodeAll(ps.top.kids));
    hide EncodeAll;
  }

  /** Inserting the length turns the innermost block into a finished one. */
  lemma {:induction false} FinalizeTop(ps: Stack<Part>)
    ensures InBounds(Represent(ps))
    ensures Finalized(Layout(ps), Start(ps)) == Below(ps) + Encode(Finished(ps.top))
  {
    var p := ps.top;
    LayoutOfBody(ps);
    EncodeAllAppend(p.leaves, p.kids);
    hide Layout, Below, Start, PackSize, EncodeAll, Finalized;
    FinalizeBody(Below(ps), p.ty, EncodeAll(p.leaves) + EncodeAll(p.kids));
  }

  lemma {:induction false} BlockLast(below: seq<byte>, front: seq<byte>, kids: seq<byte>, done: seq<byte>)
    ensures below + (front + (kids + done)) == (below + (front + kids)) + done
  {
    Associates(front, kids, done);
    Associates(below, front + kids, done);
  }

  lemma {:induction false} LayoutOfBlock(ps: Stack<Part>, done: Part)
    ensures Layout(ps.(top := AddBlock(ps.top, done))) == Layout(ps) + Encode(Finished(done))
    ensures Blocks(ps.(top := AddBlock(ps.top, done))) == Blocks(ps)
  {
    var kids := ps.top.kids;
    EncodeAllAppend(kids, [Finished(done)]);
    EncodeAllOne(Finished(done));
    hide EncodeAll, Encode;
    BlockLast(if ps.Inside? then Layout(ps.outer) else [], Front(ps.top), EncodeAll(kids), Encode(Finished(done)));
    hide Finished;
  }

  /** Every call keeps the invariant. */
  lemma {:induction false} StepRepresents(ps: Stack<Part>, op: Op)
    requires op.Close? ==> ps.Inside?
    ensures InBounds(Represent(ps))
    ensures Step(Represent(ps), op) == Represent(StepParts(ps, op))
  {
    FinalizeTop(ps);
    match op
    case Open(ty) =>
      assert EncodeAll([]) == [];
      assert Front(Part(ty, [], [])) + [] == [ty];
    case Add(ty, value) =>
      AddStep(ps, ty, value);
    case Close =>
      hide Finalized, Layout;
      LayoutOfBlock(ps.outer, ps.top);
  }

  /** Each call of the run finds an open block with room where its cursor says. */
  predicate Legal(s: State, ops: seq<Op>)
    decreases |ops|
  {
    ops == [] ||
    (InBounds(s) && (ops[0].Close? ==> s.blocks.Inside?) && Legal(Step(s, ops[0]), ops[1..]))
  }

  /** The state after a run. */
  function Run(s: State, ops: seq<Op>): State
    requires Legal(s, ops)
    decreases |ops|
  {
    if ops == [] then s else Run(Step(s, ops[0]), ops[1..])
  }

  /** Every run of properly nested calls keeps the invariant. */
  lemma {:induction false} RunRepresents(ps: Stack<Part>, ops: seq<Op>)
    requires Nested(ps, ops)
    ensures Legal(Represent(ps), ops)
    ensures Run(Represent(ps), ops) == Represent(RunParts(ps, ops))
    decreases |ops|
  {
    if ops != [] {
      StepRepresents(ps, ops[0]);
      assert Represent(ps).blocks.Inside? == ps.Inside?;
      hide Represent, Step, StepParts, InBounds;
      RunRepresents(StepParts(ps, ops[0]), ops[1..]);
    }
  }

  /** A new packet: one open block at position 0 that holds the opcode. */
  function Fresh(op: byte): State { State([op], Packet(Block(0, 1))) }

  function NewPacket(op: byte): Stack<Part> { Packet(Part(op, [], [])) }

  /** Any properly nested run on a new packet that closes what it opened, followed by the packet's own
      `finalize`, leaves the recursive encoding of the tree it describes: each block's items in call
      order, followed by its blocks in call order, however adds and blocks alternated. */
  lemma {:induction false} BuildsEncoding(op: byte, ops: seq<Op>)
    requires Nested(NewPacket(op), ops) && RunParts(NewPacket(op), ops).Packet?
    ensures Legal(Fresh(op), ops)
    ensures var s := Run(Fresh(op), ops);
      InBounds(s) && s.blocks == Packet(Block(0, s.blocks.top.cursor)) &&
      Finalized(s.bytes, 0) == Encode(Finished(RunParts(NewPacket(op), ops).top))
  {
    assert EncodeAll([]) == [];
    assert Represent(NewPacket(op)) == Fresh(op);
    RunRepresents(NewPacket(op), ops);
    FinalizeTop(RunParts(NewPacket(op), ops));
  }

  // ---- on the objects themselves --------------------------------------------------------------

  /** The positions and cursors of the open blocks. */
  ghost function Cursors(open: seq<Struct>): Stack<Block>
    requires open != []
    reads open
  {
    var n := |open| - 1;
    var b := Block(open[n].pos, open[n].cursor);
    if n == 0 then Packet(b) else Inside(Cursors(open[..n]), b)
  }

  /** The objects are in the state `s`. */
  ghost predicate InState(buf: ByteBuffer, open: seq<Struct>, s: State)
    reads buf, open
  {
    && open != [] && (forall b <- open :: b.buf == buf)
    && (forall i, j | 0 <= i < j < |open| :: open[i] != open[j])
    && State(buf.bytes, Cursors(open)) == s
  }

  lemma {:induction false} CursorsPush(open: seq<Struct>, b: Struct)
    requires open != []
    ensures Cursors(open + [b]) == Inside(Cursors(open), Block(b.pos, b.cursor))
  {
    assert (open + [b])[..|open|] == open;
  }

  /** `writeBlock`. */
  method OpenBlock(buf: ByteBuffer, open: seq<Struct>, ty: byte, ghost s: State) returns (open': seq<Struct>)
    requires InState(buf, open, s) && InBounds(s) && ty != INVALID_TYPE
    modifies buf
    ensures InState(buf, open', Step(s, Open(ty)))
    ensures |open'| == |open| + 1 && open <= open' && fresh(open'[|open|])
  {
    var block := open[|open| - 1].WriteBlock(ty);
    open' := open + [block];
    CursorsPush(open, block);
  }

  /** An add on the innermost block. */
  method AddItem(buf: ByteBuffer, open: seq<Struct>, ty: byte, value: seq<byte>, ghost s: State)
    requires InState(buf, open, s) && InBounds(s)
    modifies buf, open
    ensures InState(buf, open, Step(s, Add(ty, value)))
  {
    var n := |open| - 1;
    var top, below := open[n], open[..n];
    assert value[..|value|] == value;
    assert ItemBytes(ty, |value|, value) == TokBytes(LeafTok(ty, value));
    hide PackSize, ItemBytes, LeafTok, TokBytes;
    if value == [] { top.AddData(None, 0, ty); } else { top.AddData(Some(value), |value|, ty); }
  }

  /** `finalize` of the innermost block. */
  method CloseBlock(buf: ByteBuffer, open: seq<Struct>, ghost s: State) returns (open': seq<Struct>)
    requires InState(buf, open, s) && InBounds(s) && s.blocks.Inside?
    modifies buf
    ensures InState(buf, open', Step(s, Close)) && open' <= open
  {
    var n := |open| - 1;
    open[n].Finalize();
    open' := open[..n];
  }

  /** One call on the innermost block. */
  method Perform(buf: ByteBuffer, open: seq<Struct>, o: Op, ghost ps: Stack<Part>) returns (open': seq<Struct>)
    requires InState(buf, open, Represent(ps)) && (o.Close? ==> ps.Inside?) && (o.Open? ==> o.ty != INVALID_TYPE)
    modifies buf, open
    ensures InState(buf, open', Represent(StepParts(ps, o)))
    ensures forall k | 0 <= k < |open'| :: open'[k] in open || fresh(open'[k])
  {
    StepRepresents(ps, o);
    assert Represent(ps).blocks.Inside? == ps.Inside?;
    hide Represent, Step, InBounds, StepParts;
    match o {
      case Open(ty) => open' := OpenBlock(buf, open, ty, Represent(ps));
      case Add(ty, value) =>
        AddItem(buf, open, ty, value, Represent(ps));
        open' := open;
      case Close => open' := CloseBlock(buf, open, Represent(ps));
    }
  }

  /** A new packet is its own first open block. */
  method Begin(op: byte) returns (pkt: CppProtocol.Packet, open: seq<Struct>)
    requires op != INVALID_TYPE
    ensures fresh(pkt.buf) && forall k | 0 <= k < |open| :: fresh(open[k])
    ensures InState(pkt.buf, open, Represent(NewPacket(op)))
  {
    pkt := new CppProtocol.Packet(op);
    open := [pkt.head];
    assert EncodeAll([]) == [];
    assert Represent(NewPacket(op)) == Fresh(op);
    hide Represent;
  }

  /** The packet's own `finalize`. */
  method Finish(buf: ByteBuffer, open: seq<Struct>, ghost ps: Stack<Part>)
    requires InState(buf, open, Represent(ps)) && ps.Packet?
    modifies buf
    ensures buf.bytes == Encode(Finished(ps.top))
  {
    FinalizeTop(ps);
    hide Encode, Layout, PackSize;
    open[0].Finalize();
  }

  lemma {:induction false} NestedStep(ps: Stack<Part>, ops: seq<Op>, i: nat)
    requires i < |ops| && Nested(ps, ops[i..])
    ensures (ops[i].Close? ==> ps.Inside?) && Nested(StepParts(ps, ops[i]), ops[i + 1..])
    ensures RunParts(ps, ops[i..]) == RunParts(StepParts(ps, ops[i]), ops[i + 1..])
  {
    assert ops[i..][0] == ops[i] && ops[i..][1..] == ops[i + 1..];
  }

  /** A program that makes the calls `ops` on a new packet and finalizes it obtains the encoding. */
  method Build(op: byte, ops: seq<Op>) returns (pkt: CppProtocol.Packet)
    requires op != INVALID_TYPE && Nested(NewPacket(op), ops) && RunParts(NewPacket(op), ops).Packet?
    requires forall o <- ops :: o.Open? ==> o.ty != INVALID_TYPE
    ensures pkt.buf.bytes == Encode(Finished(RunParts(NewPacket(op), ops).top))
  {
    hide Represent, InState, StepParts, NewPacket, Encode, Finished;
    var open;
    pkt, open := Begin(op);
    ghost var ps := NewPacket(op);
    var i := 0;
    assert ops[0..] == ops;
    while i < |ops|
      invariant i <= |ops| && fresh(pkt.buf) && forall k | 0 <= k < |open| :: fresh(open[k])
      invariant InState(pkt.buf, open, Represent(ps))
      invariant Nested(ps, ops[i..]) && RunParts(ps, ops[i..]) == RunParts(NewPacket(op), ops)
    {
      NestedStep(ps, ops, i);
      assert ops[i] in ops;
      hide Nested, RunParts;
      open := Perform(pkt.buf, open, ops[i], ps);
      ps := StepParts(ps, ops[i]);
      i := i + 1;
    }
    Finish(pkt.buf, open, ps);
  }
}

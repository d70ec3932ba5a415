/** Type-length-value items: trees of them, their encoding, and the flat token stream that a reader
    without a stack sees. */
module Tlv {
  import opened Bytes
  import opened Protobase

  /** A value, or a structural item holding items. */
  datatype Tree = Leaf(ty: byte, value: seq<byte>) | Node(ty: byte, kids: seq<Tree>)

  /** The encoding with packed lengths, as the C++ side writes it. */
  function Encode(t: Tree): seq<byte>
    decreases t, 1
  {
    var payload := if t.Leaf? then t.value else EncodeAll(t.kids);
    [t.ty] + PackSize(|payload|) + payload
  }

  function EncodeAll(ts: seq<Tree>): seq<byte>
    decreases ts, 0
  {
    if ts == [] then [] else Encode(ts[0]) + EncodeAll(ts[1..])
  }

  lemma {:induction false} EncodeAllAppend(a: seq<Tree>, b: seq<Tree>)
    ensures EncodeAll(a + b) == EncodeAll(a) + EncodeAll(b)
  {
    if a == [] {
      assert a + b == b;
    } else {
      assert (a + b)[1..] == a[1..] + b;
      EncodeAllAppend(a[1..], b);
    }
  }

  lemma {:induction false} EncodeAllOne(t: Tree)
    ensures EncodeAll([t]) == Encode(t)
  {
    assert [t][1..] == [];
  }

  // ---- tokens ---------------------------------------------------------------------------------

  /** One header with the octets of its length field, and the value when it is not structural. */
  datatype Tok = Tok(ty: byte, hdr: seq<byte>, len: nat, body: seq<byte>)

  predicate Structural(ty: byte) { ty == STRUCTURE_TYPE || ty == SEQUENCE_TYPE }

  /** The length field is understood and the value has that length. */
  predicate TokOk(t: Tok) {
    && LengthField(t.hdr, t.len)
    && if Structural(t.ty) then t.body == [] else |t.body| == t.len
  }

  predicate ToksOk(ts: seq<Tok>) { forall t <- ts :: TokOk(t) }

  function TokBytes(t: Tok): seq<byte> { [t.ty] + t.hdr + t.body }

  function Flat(ts: seq<Tok>): seq<byte> {
    if ts == [] then [] else TokBytes(ts[0]) + Flat(ts[1..])
  }

  lemma {:induction false} FlatAppend(a: seq<Tok>, b: seq<Tok>)
    ensures Flat(a + b) == Flat(a) + Flat(b)
  {
    if a == [] {
      assert a + b == b;
    } else {
      assert (a + b)[1..] == a[1..] + b;
      FlatAppend(a[1..], b);
    }
  }

  /** A leaf as the C++ side writes it, with a packed length. */
  function LeafTok(ty: byte, value: seq<byte>): Tok {
    Tok(ty, PackSize(|value|), |value|, value)
  }

  lemma {:induction false} LeafTokOk(ty: byte, value: seq<byte>)
    requires !Structural(ty) && |value| < 0x1_0000_0000
    ensures TokOk(LeafTok(ty, value))
  {
    PackSizeIsLengthField(|value|);
  }

  /** A leaf as the C side writes it, always with a two-octet length. */
  function LeafTok16(ty: byte, value: seq<byte>): Tok
    requires |value| < 0x1_0000
  {
    Tok(ty, [0x82] + Be16(|value|), |value|, value)
  }

  lemma {:induction false} LeafTok16Ok(ty: byte, value: seq<byte>)
    requires !Structural(ty) && |value| < 0x1_0000
    ensures TokOk(LeafTok16(ty, value))
  {
    BeRoundTrip(|value|, 0);
    assert ([0x82] + Be16(|value|))[1..] == Be16(|value|);
  }

  /** Leaf items that one C append can write. */
  predicate Appendable(items: seq<Tree>) {
    items == [] ||
    (items[0].Leaf? && |items[0].value| <= 65531 && !Structural(items[0].ty) && Appendable(items[1..]))
  }

  /** The items as the C side appends them. */
  function Items16(items: seq<Tree>): seq<Tok>
    requires Appendable(items)
  {
    if items == [] then [] else [LeafTok16(items[0].ty, items[0].value)] + Items16(items[1..])
  }

  lemma {:induction false} AppendedItem(items: seq<Tree>, t: Tree)
    requires Appendable(items) && t.Leaf? && |t.value| <= 65531 && !Structural(t.ty)
    ensures Appendable(items + [t])
    ensures Flat(Items16(items + [t])) == Flat(Items16(items)) + TokBytes(LeafTok16(t.ty, t.value))
  {
    if items == [] {
      assert [] + [t] == [t] && [t][1..] == [];
      assert Items16([t]) == [LeafTok16(t.ty, t.value)];
    } else {
      assert (items + [t])[1..] == items[1..] + [t];
      AppendedItem(items[1..], t);
    }
  }

  lemma {:induction false} Items16Ok(items: seq<Tree>)
    requires Appendable(items)
    ensures forall t <- Items16(items) :: TokOk(t) && !Structural(t.ty)
  {
    if items != [] {
      LeafTok16Ok(items[0].ty, items[0].value);
      Items16Ok(items[1..]);
    }
  }

  // ---- preorder -------------------------------------------------------------------------------

  /** The header of a tree, with the value of a leaf. */
  function HeadTok(t: Tree): Tok {
    if t.Leaf? then LeafTok(t.ty, t.value)
    else var n := |EncodeAll(t.kids)|; Tok(t.ty, PackSize(n), n, [])
  }

  function Preorder(t: Tree): seq<Tok>
    decreases t, 1
  {
    [HeadTok(t)] + if t.Leaf? then [] else PreorderAll(t.kids)
  }

  function PreorderAll(ts: seq<Tree>): seq<Tok>
    decreases ts, 0
  {
    if ts == [] then [] else Preorder(ts[0]) + PreorderAll(ts[1..])
  }

  lemma {:induction false} PreorderAllAppend(a: seq<Tree>, b: seq<Tree>)
    ensures PreorderAll(a + b) == PreorderAll(a) + PreorderAll(b)
  {
    if a == [] {
      assert a + b == b;
    } else {
      assert (a + b)[1..] == a[1..] + b;
      PreorderAllAppend(a[1..], b);
    }
  }

  /** The tokens of a forest after its first header. */
  lemma {:induction false} PreorderStep(ts: seq<Tree>, rest: seq<Tok>)
    requires ts != []
    ensures var toks := PreorderAll(ts) + rest;
      && toks == Preorder(ts[0]) + (PreorderAll(ts[1..]) + rest)
      && |toks| > 0 && toks[0] == HeadTok(ts[0])
      && toks[1..] == (if ts[0].Leaf? then [] else PreorderAll(ts[0].kids)) + (PreorderAll(ts[1..]) + rest)
  {
    var inner, more := if ts[0].Leaf? then [] else PreorderAll(ts[0].kids), PreorderAll(ts[1..]);
    assert PreorderAll(ts) == [HeadTok(ts[0])] + inner + more;
    hide PreorderAll, EncodeAll, PackSize;
    ConsConcat(HeadTok(ts[0]), inner, more, rest);
  }

  /** A forest is longer than its first tree's payload and than the rest of it. */
  lemma {:induction false} SizeStep(ts: seq<Tree>)
    requires ts != []
    ensures |EncodeAll(ts[1..])| < |EncodeAll(ts)|
    ensures ts[0].Leaf? ==> |ts[0].value| < |EncodeAll(ts)|
    ensures ts[0].Node? ==> |EncodeAll(ts[0].kids)| < |EncodeAll(ts)|
  {
  }

  /** Structural items have structural types and leaves have not. */
  predicate WellTyped(t: Tree)
    decreases t, 1
  {
    if t.Leaf? then !Structural(t.ty) else Structural(t.ty) && AllWellTyped(t.kids)
  }

  predicate AllWellTyped(ts: seq<Tree>)
    decreases ts, 0
  {
    ts == [] || (WellTyped(ts[0]) && AllWellTyped(ts[1..]))
  }

  lemma {:induction false} HeadTokOk(t: Tree)
    requires WellTyped(t)
    requires if t.Leaf? then |t.value| < 0x1_0000_0000 else |EncodeAll(t.kids)| < 0x1_0000_0000
    ensures TokOk(HeadTok(t))
    ensures Encode(t) == TokBytes(HeadTok(t)) + if t.Leaf? then [] else EncodeAll(t.kids)
  {
    if t.Leaf? { LeafTokOk(t.ty, t.value); } else { PackSizeIsLengthField(|EncodeAll(t.kids)|); }
  }

  /** An encoded forest is the flat concatenation of its tokens in preorder. */
  lemma {:induction false} EncodingIsFlat(ts: seq<Tree>)
    requires |EncodeAll(ts)| < 0x1_0000_0000
    requires AllWellTyped(ts)
    ensures Flat(PreorderAll(ts)) == EncodeAll(ts)
    ensures ToksOk(PreorderAll(ts))
    decreases ts
  {
    if ts != [] {
      var t := ts[0];
      assert WellTyped(t);
      SizeStep(ts);
      EncodingIsFlat(ts[1..]);
      HeadTokOk(t);
      if t.Node? { EncodingIsFlat(t.kids); }
      var inner, more := if t.Leaf? then [] else PreorderAll(t.kids), PreorderAll(ts[1..]);
      assert PreorderAll(ts) == [HeadTok(t)] + inner + more;
      assert EncodeAll(ts) == Encode(t) + EncodeAll(ts[1..]);
      hide PreorderAll, EncodeAll, PackSize, Encode, TokOk;
      FlatAppend([HeadTok(t)] + inner, more);
      FlatAppend([HeadTok(t)], inner);
      assert [HeadTok(t)][1..] == [];
    }
  }
}

/** The C reader of src/proto/protocol.c as functions on a payload: `pkt_begin`, `iter_next` and
    `iter_enter`, which keep no stack. Offsets stand for its pointers. */
module Cursor {
  import opened Bytes
  import opened Protobase
  import opened Tlv

  /** The `Iterator` fields; `end` is the payload length. */
  datatype Cursor = Cursor(cur: nat, next: nat, ty: byte, len: nat, val: nat)

  /** The bytes of `p` from `i` on, as far as there are any. */
  function From(p: seq<byte>, i: nat): seq<byte> { if i <= |p| then p[i..] else [] }

  function Slice(p: seq<byte>, i: nat, n: nat): seq<byte> {
    var s := From(p, i);
    if n <= |s| then s[..n] else s
  }

  /** `iter_next`: at the end only the type, the length and `cur` change. */
  function Next(p: seq<byte>, c: Cursor): Cursor {
    if c.next >= |p| then Cursor(c.next, c.next, INVALID_TYPE, 0, c.val)
    else
      match UnpackSize(p[c.next + 1..])
      case Unpacked(octets, size) =>
        Cursor(c.next, c.next + 1 + octets + size, p[c.next], size, c.next + 1 + octets)
      case Unrecognised =>
        Cursor(c.next, c.next + 1, p[c.next], 0, c.next + 1)
  }

  /** `iter_enter`: continue right behind the header of the current item. */
  function Enter(p: seq<byte>, c: Cursor): Cursor {
    var octets := match UnpackSize(From(p, c.cur + 1)) case Unpacked(n, _) => n case Unrecognised => 0;
    Next(p, c.(next := c.cur + 1 + octets))
  }

  /** `pkt_begin`. */
  function Begin(p: seq<byte>): Cursor {
    Next(p, Cursor(0, 0, INVALID_TYPE, 0, 0))
  }

  /** The value of the current item. */
  function Value(p: seq<byte>, c: Cursor): seq<byte> { Slice(p, c.val, c.len) }

  // ---- termination ----------------------------------------------------------------------------

  /** `Next` and `Enter` leave the cursor where the following step moves on, or at the end with no
      type. */
  predicate Loaded(p: seq<byte>, c: Cursor) {
    if c.cur < |p| then c.cur < c.next else c.ty == INVALID_TYPE && c.len == 0 && c.next == c.cur
  }

  /** On every payload at all, no step goes back, and each step before the end strictly advances. */
  lemma {:induction false} StepsAdvance(p: seq<byte>, c: Cursor)
    requires Loaded(p, c)
    ensures Loaded(p, Next(p, c)) && Loaded(p, Enter(p, c))
    ensures c.cur <= Next(p, c).cur && c.cur < Enter(p, c).cur
    ensures c.cur < |p| ==> c.cur < Next(p, c).cur
  {
  }

  lemma {:induction false} BeginLoaded(p: seq<byte>)
    ensures Loaded(p, Begin(p))
  {
  }

  // ---- tokens ahead ---------------------------------------------------------------------------

  /** The cursor has loaded the first of the tokens `ts`, which are all that is left of `p`. */
  predicate At(p: seq<byte>, c: Cursor, ts: seq<Tok>) {
    && ToksOk(ts)
    && c.cur <= |p| && p[c.cur..] == Flat(ts)
    && if ts == [] then c.ty == INVALID_TYPE && c.len == 0 && c.next == c.cur
       else
         && c.ty == ts[0].ty && c.len == ts[0].len
         && c.val == c.cur + 1 + |ts[0].hdr| && c.next == c.val + c.len
  }

  lemma {:induction false} LoadAt(p: seq<byte>, c: Cursor, ts: seq<Tok>)
    requires c.next <= |p| && p[c.next..] == Flat(ts) && ToksOk(ts)
    ensures At(p, Next(p, c), ts)
  {
    if ts != [] {
      var t := ts[0];
      var s := p[c.next..];
      assert t in ts;
      assert s[0] == p[c.next] == t.ty;
      assert p[c.next + 1..] == s[1..] == t.hdr + (t.body + Flat(ts[1..]));
      UnpackLengthField(t.hdr, t.len, t.body + Flat(ts[1..]));
    }
  }

  lemma {:induction false} BeginAt(ts: seq<Tok>)
    requires ToksOk(ts)
    ensures At(Flat(ts), Begin(Flat(ts)), ts)
  {
    LoadAt(Flat(ts), Cursor(0, 0, INVALID_TYPE, 0, 0), ts);
  }

  lemma {:induction false} Behind(p: seq<byte>, i: nat, a: seq<byte>, b: seq<byte>)
    requires i <= |p| && p[i..] == a + b
    ensures i + |a| <= |p| && p[i + |a|..] == b && Slice(p, i, |a|) == a
  {
    assert p[i..][|a|..] == b;
    assert p[i..][..|a|] == a;
  }

  /** A leaf is left by `iter_next`; its value is what the token holds. */
  lemma {:induction false} NextAt(p: seq<byte>, c: Cursor, ts: seq<Tok>)
    requires At(p, c, ts) && ts != [] && !Structural(ts[0].ty)
    ensures At(p, Next(p, c), ts[1..])
    ensures Value(p, c) == ts[0].body
  {
    var t, rest := ts[0], Flat(ts[1..]);
    assert t in ts && TokOk(t);
    assert p[c.cur..] == ([t.ty] + t.hdr) + (t.body + rest);
    Behind(p, c.cur, [t.ty] + t.hdr, t.body + rest);
    Behind(p, c.val, t.body, rest);
    LoadAt(p, c, ts[1..]);
  }

  /** `iter_enter` finds the header of the current item again, however it is followed. */
  lemma {:induction false} EnterSkipsHeader(p: seq<byte>, c: Cursor, t: Tok, rest: seq<byte>)
    requires LengthField(t.hdr, t.len)
    requires c.cur <= |p| && p[c.cur..] == [t.ty] + (t.hdr + rest)
    ensures c.cur + 1 + |t.hdr| <= |p| && p[c.cur + 1 + |t.hdr|..] == rest
    ensures Enter(p, c) == Next(p, c.(next := c.cur + 1 + |t.hdr|))
  {
    hide Next;
    Behind(p, c.cur, [t.ty], t.hdr + rest);
    Behind(p, c.cur + 1, t.hdr, rest);
    UnpackLengthField(t.hdr, t.len, rest);
    hide LengthField, UnpackSize;
  }

  /** A structural item is entered: the walk goes on with its first item, or past it when empty. */
  lemma {:induction false} EnterAt(p: seq<byte>, c: Cursor, ts: seq<Tok>)
    requires At(p, c, ts) && ts != [] && Structural(ts[0].ty)
    ensures At(p, Enter(p, c), ts[1..])
  {
    hide LengthField, UnpackSize, Enter, Next;
    var t, rest := ts[0], Flat(ts[1..]);
    assert t in ts && TokOk(t);
    assert p[c.cur..] == [t.ty] + (t.hdr + rest);
    EnterSkipsHeader(p, c, t, rest);
    LoadAt(p, c.(next := c.cur + 1 + |t.hdr|), ts[1..]);
  }

  lemma {:induction false} SkipTokens(p: seq<byte>, c: Cursor, t: Tok, inner: seq<byte>, rest: seq<Tok>)
    requires LengthField(t.hdr, t.len) && t.len == |inner| && ToksOk(rest)
    requires c.cur <= |p| && p[c.cur..] == ([t.ty] + t.hdr) + (inner + Flat(rest))
    requires c.len == t.len && c.val == c.cur + 1 + |t.hdr| && c.next == c.val + c.len
    ensures At(p, Next(p, c), rest)
    ensures Value(p, c) == inner
  {
    Behind(p, c.cur, [t.ty] + t.hdr, inner + Flat(rest));
    Behind(p, c.val, inner, Flat(rest));
    LoadAt(p, c, rest);
  }

  /** `iter_next` on a structural item skips exactly its subtree. */
  lemma {:induction false} SkipAt(p: seq<byte>, c: Cursor, ts: seq<Tree>, rest: seq<Tok>)
    requires ts != [] && ts[0].Node? && At(p, c, PreorderAll(ts) + rest)
    requires |EncodeAll(ts)| < 0x1_0000_0000 && AllWellTyped(ts)
    ensures At(p, Next(p, c), PreorderAll(ts[1..]) + rest)
    ensures Value(p, c) == EncodeAll(ts[0].kids)
  {
    hide PreorderAll, EncodeAll, LengthField, PackSize;
    var n, toks := ts[0], PreorderAll(ts) + rest;
    assert WellTyped(n);
    PreorderStep(ts, rest);
    SizeStep(ts);
    EncodingIsFlat(n.kids);
    FlatAppend(PreorderAll(n.kids), PreorderAll(ts[1..]) + rest);
    assert toks[0] in toks && TokOk(toks[0]);
    forall x | x in PreorderAll(ts[1..]) + rest ensures TokOk(x) { assert x in toks[1..]; }
    SkipTokens(p, c, toks[0], EncodeAll(n.kids), PreorderAll(ts[1..]) + rest);
  }

  // ---- stackless preorder traversal -----------------------------------------------------------

  /** An item met on the way: its type and everything inside it. */
  datatype Visit = Visit(ty: byte, content: seq<byte>)

  /** The flat loop: enter what is structural, step over everything else, until `iter_end`. */
  function Walk(p: seq<byte>, c: Cursor): (seq<Visit>, Cursor)
    requires Loaded(p, c)
    decreases |p| - c.cur
  {
    if c.cur >= |p| then ([], c)
    else
      var (visits, last) := Walk(p, if Structural(c.ty) then Enter(p, c) else Next(p, c));
      ([Visit(c.ty, Value(p, c))] + visits, last)
  }

  /** Every item of the forest once, each before the items inside it. */
  function PreorderVisits(ts: seq<Tree>): seq<Visit>
    decreases ts
  {
    if ts == [] then []
    else
      var t := ts[0];
      (if t.Leaf? then [Visit(t.ty, t.value)]
       else [Visit(t.ty, EncodeAll(t.kids))] + PreorderVisits(t.kids)) + PreorderVisits(ts[1..])
  }

  lemma {:induction false} WalkStep(p: seq<byte>, c: Cursor)
    requires Loaded(p, c) && c.cur < |p|
    ensures var c' := if Structural(c.ty) then Enter(p, c) else Next(p, c);
      Loaded(p, c') && Walk(p, c) == ([Visit(c.ty, Value(p, c))] + Walk(p, c').0, Walk(p, c').1)
  {
    StepsAdvance(p, c);
  }

  function VisitOf(t: Tree): Visit {
    Visit(t.ty, if t.Leaf? then t.value else EncodeAll(t.kids))
  }

  /** One step of the walk at the head of a forest. */
  lemma {:induction false} StepTree(p: seq<byte>, c: Cursor, ts: seq<Tree>, rest: seq<Tok>) returns (c': Cursor)
    requires Loaded(p, c) && ts != [] && At(p, c, PreorderAll(ts) + rest)
    requires |EncodeAll(ts)| < 0x1_0000_0000 && AllWellTyped(ts)
    ensures c.cur < |p| && Loaded(p, c')
    ensures Walk(p, c) == ([VisitOf(ts[0])] + Walk(p, c').0, Walk(p, c').1)
    ensures At(p, c', (if ts[0].Leaf? then [] else PreorderAll(ts[0].kids)) + (PreorderAll(ts[1..]) + rest))
  {
    hide PreorderAll, EncodeAll, Walk, LengthField, PackSize;
    var t, toks := ts[0], PreorderAll(ts) + rest;
    assert WellTyped(t);
    PreorderStep(ts, rest);
    assert |p[c.cur..]| == |Flat(toks)| > 0;
    if t.Leaf? {
      NextAt(p, c, toks);
      c' := Next(p, c);
    } else {
      SkipAt(p, c, ts, rest);
      EnterAt(p, c, toks);
      c' := Enter(p, c);
    }
    WalkStep(p, c);
  }

  lemma {:induction false} VisitsStep(ts: seq<Tree>, tail: seq<Visit>)
    requires ts != []
    ensures PreorderVisits(ts) + tail
         == [VisitOf(ts[0])]
            + ((if ts[0].Leaf? then [] else PreorderVisits(ts[0].kids)) + (PreorderVisits(ts[1..]) + tail))
  {
  }

  lemma {:induction false} WalkForest(p: seq<byte>, c: Cursor, ts: seq<Tree>, rest: seq<Tok>)
      returns (c': Cursor)
    requires Loaded(p, c) && At(p, c, PreorderAll(ts) + rest)
    requires |EncodeAll(ts)| < 0x1_0000_0000 && AllWellTyped(ts)
    ensures Loaded(p, c') && At(p, c', rest)
    ensures Walk(p, c).0 == PreorderVisits(ts) + Walk(p, c').0
    ensures Walk(p, c).1 == Walk(p, c').1
    decreases ts
  {
    hide At, Walk, Loaded, EncodeAll, Preorder;
    if ts == [] {
      assert PreorderAll(ts) + rest == rest;
      c' := c;
    } else {
      var t, rest' := ts[0], PreorderAll(ts[1..]) + rest;
      assert WellTyped(t) && (t.Node? ==> AllWellTyped(t.kids));
      hide PreorderAll, WellTyped, PreorderVisits, VisitOf;
      SizeStep(ts);
      var d := StepTree(p, c, ts, rest);
      if t.Node? {
        d := WalkForest(p, d, t.kids, rest');
      } else {
        assert [] + rest' == rest';
      }
      c' := WalkForest(p, d, ts[1..], rest);
      VisitsStep(ts, Walk(p, c').0);
    }
  }

  /** The flat walk over an encoded forest is its preorder traversal, and it ends with `cur == end`. */
  lemma {:induction false} WalkIsPreorder(ts: seq<Tree>)
    requires |EncodeAll(ts)| < 0x1_0000_0000
    requires AllWellTyped(ts)
    ensures var p := EncodeAll(ts);
      Loaded(p, Begin(p)) &&
      Walk(p, Begin(p)).0 == PreorderVisits(ts) && Walk(p, Begin(p)).1.cur == |p|
  {
    var p := EncodeAll(ts);
    EncodingIsFlat(ts);
    BeginAt(PreorderAll(ts));
    assert PreorderAll(ts) + [] == PreorderAll(ts);
    BeginLoaded(p);
    var last := WalkForest(p, Begin(p), ts, []);
    assert Walk(p, last).0 == [];
    assert PreorderVisits(ts) + [] == PreorderVisits(ts);
  }

  /** Items without blocks, as the C++ side writes them, are read back by the C iterator one by one. */
  lemma {:induction false} CReadsCpp(items: seq<Tree>)
    requires |EncodeAll(items)| < 0x1_0000_0000
    requires AllWellTyped(items) && forall t <- items :: t.Leaf?
    ensures var p := EncodeAll(items);
      Loaded(p, Begin(p)) && Walk(p, Begin(p)).1.cur == |p| && |Walk(p, Begin(p)).0| == |items| &&
      forall i | 0 <= i < |items| :: Walk(p, Begin(p)).0[i] == Visit(items[i].ty, items[i].value)
  {
    WalkIsPreorder(items);
    VisitsOfLeaves(items);
  }

  lemma {:induction false} VisitsOfLeaves(items: seq<Tree>)
    requires forall t <- items :: t.Leaf?
    ensures |PreorderVisits(items)| == |items|
    ensures forall i | 0 <= i < |items| :: PreorderVisits(items)[i] == Visit(items[i].ty, items[i].value)
  {
    if items != [] {
      assert items[0] in items;
      VisitsOfLeaves(items[1..]);
    }
  }
}

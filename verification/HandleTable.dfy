/** What happens to device handles over whole runs of the server. */
module HandleTable {
  import opened Bytes
  import opened Tlv
  import opened DeviceTree
  import opened Calls
  import opened Usb

  /** The handle that the server adds to its list. */
  function Opened<W>(lib: Lib<W>, s: Server<W>, c: Call): seq<UsbHandle> {
    if !c.Open? then []
    else match Select(lib.busses(s.world), c.location, c.devnum)
      case None => []
      case Some((i, j)) => match lib.open(s.world, i, j).1 case None => [] case Some(h) => [h]
  }

  /** The place in the list of the handle on which the server calls libusb's close. */
  function ClosedAt<W>(s: Server<W>, c: Call): seq<nat> {
    if c.Close? && Position(s.open, c.fd) < |s.open| then [Position(s.open, c.fd)] else []
  }

  // ---- indices --------------------------------------------------------------------------------

  /** The numbers below `n` that are not in `closed`, in increasing order. */
  function Remaining(n: nat, closed: seq<nat>): (r: seq<nat>)
    ensures forall k | 0 <= k < |r| :: r[k] < n
  {
    if n == 0 then [] else Remaining(n - 1, closed) + if n - 1 in closed then [] else [n - 1]
  }

  lemma {:induction false} RemainingAre(n: nat, closed: seq<nat>)
    ensures forall i: nat :: i in Remaining(n, closed) <==> i < n && i !in closed
    ensures forall j, k | 0 <= j < k < |Remaining(n, closed)| :: Remaining(n, closed)[j] < Remaining(n, closed)[k]
  {
    if n > 0 {
      RemainingAre(n - 1, closed);
      var front := Remaining(n - 1, closed);
      assert forall k | 0 <= k < |front| :: front[k] in front;
    }
  }

  lemma {:induction false} RemainingBeyond(n: nat, closed: seq<nat>, x: nat)
    requires x >= n
    ensures Remaining(n, closed + [x]) == Remaining(n, closed)
  {
    if n > 0 { RemainingBeyond(n - 1, closed, x); }
  }

  lemma {:induction false} RemoveAtFront(front: seq<nat>, tail: seq<nat>, k: nat)
    requires k < |front|
    ensures RemoveAt(front + tail, k) == RemoveAt(front, k) + tail && (front + tail)[k] == front[k]
  {
  }

  /** Closing the `k`-th remaining one removes it and leaves the order. */
  lemma {:induction false} RemainingWithout(n: nat, closed: seq<nat>, k: nat)
    requires k < |Remaining(n, closed)|
    ensures Remaining(n, closed + [Remaining(n, closed)[k]]) == RemoveAt(Remaining(n, closed), k)
  {
    hide RemoveAt;
    var front, tail := Remaining(n - 1, closed), if n - 1 in closed then [] else [n - 1];
    if k < |front| {
      RemoveAtFront(front, tail, k);
      RemainingAre(n - 1, closed);
      assert front[k] in front;
      RemainingWithout(n - 1, closed, k);
    } else {
      assert tail == [n - 1] && k == |front| && (front + tail)[k] == n - 1;
      RemainingBeyond(n - 1, closed, n - 1);
      RemoveLast(front, n - 1);
    }
  }

  lemma {:induction false} RemoveLast(front: seq<nat>, x: nat)
    ensures RemoveAt(front + [x], |front|) == front
  {
  }

  function Picked(acquired: seq<UsbHandle>, indices: seq<nat>): (r: seq<UsbHandle>)
    requires forall k | 0 <= k < |indices| :: indices[k] < |acquired|
    ensures |r| == |indices| && forall k | 0 <= k < |r| :: r[k] == acquired[indices[k]]
  {
    seq(|indices|, k requires 0 <= k < |indices| => acquired[indices[k]])
  }

  // ---- histories ------------------------------------------------------------------------------

  /** A server together with every handle it ever opened, in order, and the indices of those that it
      closed, in the order of closing. Descriptors may be used again; the index tells handles apart. */
  datatype History<W> = History(server: Server<W>, acquired: seq<UsbHandle>, closed: seq<nat>)

  /** The indices of the handles not closed. */
  function Left<W>(t: History<W>): seq<nat> { Remaining(|t.acquired|, t.closed) }

  function Step<W(!new)>(lib: Lib<W>, t: History<W>, c: Call): History<W>
    requires Contract(lib)
  {
    var at := ClosedAt(t.server, c);
    History(Serve(lib, t.server, c).0, t.acquired + Opened(lib, t.server, c),
            t.closed + if at != [] && at[0] < |Left(t)| then [Left(t)[at[0]]] else [])
  }

  function Run<W(!new)>(lib: Lib<W>, t: History<W>, cs: seq<Call>): History<W>
    requires Contract(lib)
    decreases |cs|
  {
    if cs == [] then t else Run(lib, Step(lib, t, cs[0]), cs[1..])
  }

  predicate DistinctIndices(s: seq<nat>, n: nat) {
    (forall j, k | 0 <= j < k < |s| :: s[j] != s[k]) && forall i <- s :: i < n
  }

  /** No handle was closed twice, and the list holds exactly the handles opened and not closed, in the
      order in which they were opened. */
  predicate Conserved<W(==)>(t: History<W>) {
    DistinctIndices(t.closed, |t.acquired|) &&
    t.server.open == Picked(t.acquired, Left(t))
  }

  /** What one call does to the list: push at the end, remove one entry, or nothing. */
  lemma {:induction false} ListAfter<W(!new)>(lib: Lib<W>, s: Server<W>, c: Call)
    requires Contract(lib)
    ensures |Opened(lib, s, c)| <= 1
    ensures Serve(lib, s, c).0.open ==
      if ClosedAt(s, c) != [] then RemoveAt(s.open, ClosedAt(s, c)[0]) else s.open + Opened(lib, s, c)
    ensures ClosedAt(s, c) != [] ==> c.Close? && Opened(lib, s, c) == [] && ClosedAt(s, c)[0] < |s.open|
    ensures ClosedAt(s, c) != [] ==> Serve(lib, s, c).0.world == lib.call(s.world, s.open[ClosedAt(s, c)[0]], c).world
  {
    hide Contract;
  }

  lemma {:induction false} OpenConserves<W>(t: History<W>, server: Server<W>, h: UsbHandle)
    requires Conserved(t) && server.open == t.server.open + [h]
    ensures Conserved(History(server, t.acquired + [h], t.closed))
  {
    var n, more := |t.acquired|, t.acquired + [h];
    RemainingAre(n, t.closed);
    RemainingAre(n + 1, t.closed);
    assert n !in t.closed;
    assert Remaining(n + 1, t.closed) == Left(t) + [n];
    assert Picked(more, Left(t) + [n]) == Picked(t.acquired, Left(t)) + [h];
  }

  lemma {:induction false} PickedWithout(acquired: seq<UsbHandle>, left: seq<nat>, k: nat)
    requires k < |left| && forall j | 0 <= j < |left| :: left[j] < |acquired|
    ensures forall j | 0 <= j < |RemoveAt(left, k)| :: RemoveAt(left, k)[j] < |acquired|
    ensures Picked(acquired, RemoveAt(left, k)) == RemoveAt(Picked(acquired, left), k)
  {
  }

  lemma {:induction false} CloseConserves<W>(t: History<W>, server: Server<W>, k: nat)
    requires Conserved(t) && k < |t.server.open| && server.open == RemoveAt(t.server.open, k)
    ensures k < |Left(t)| && Conserved(History(server, t.acquired, t.closed + [Left(t)[k]]))
  {
    var n, left := |t.acquired|, Left(t);
    RemainingAre(n, t.closed);
    assert left[k] in left;
    RemainingWithout(n, t.closed, k);
    PickedWithout(t.acquired, left, k);
    hide Remaining, Picked, RemoveAt;
  }

  /** Each call keeps the list exact; and a handle counted as closed is the one that libusb closed. */
  lemma {:induction false} StepConserves<W(!new)>(lib: Lib<W>, t: History<W>, c: Call)
    requires Contract(lib) && Conserved(t)
    ensures Conserved(Step(lib, t, c))
    ensures var t' := Step(lib, t, c);
      && t.acquired <= t'.acquired && t.closed <= t'.closed && |t'.closed| <= |t.closed| + 1
      && (|t'.closed| > |t.closed| ==>
            var i := t'.closed[|t.closed|];
            i < |t.acquired| && t'.server.world == lib.call(t.server.world, t.acquired[i], c).world)
  {
    ListAfter(lib, t.server, c);
    var open, acquired, at := t.server.open, Opened(lib, t.server, c), ClosedAt(t.server, c);
    assert |Left(t)| == |open|;
    hide Serve, Opened, ClosedAt, Contract, Conserved, RemoveAt;
    assert t.acquired + [] == t.acquired && t.closed + [] == t.closed && open + [] == open;
    if at != [] {
      CloseConserves(t, Serve(lib, t.server, c).0, at[0]);
      PickedAt(t, at[0]);
    } else if acquired != [] {
      OpenConserves(t, Serve(lib, t.server, c).0, acquired[0]);
      assert acquired == [acquired[0]];
    } else {
      SameList(t, Serve(lib, t.server, c).0);
    }
  }

  lemma {:induction false} PickedAt<W>(t: History<W>, k: nat)
    requires Conserved(t) && k < |t.server.open|
    ensures k < |Left(t)| && Left(t)[k] < |t.acquired| && t.acquired[Left(t)[k]] == t.server.open[k]
  {
    RemainingAre(|t.acquired|, t.closed);
    assert Left(t)[k] in Left(t);
  }

  lemma {:induction false} SameList<W>(t: History<W>, server: Server<W>)
    requires Conserved(t) && server.open == t.server.open
    ensures Conserved(History(server, t.acquired, t.closed))
  {
  }

  /** Over every run of calls by any clients, no handle is closed twice and `mOpenList` is exactly the
      handles opened and not yet closed, in open order, even when descriptors are used again. */
  lemma {:induction false} HandlesConserved<W(!new)>(lib: Lib<W>, t: History<W>, cs: seq<Call>)
    requires Contract(lib) && Conserved(t)
    ensures Conserved(Run(lib, t, cs))
    decreases |cs|
  {
    if cs != [] {
      StepConserves(lib, t, cs[0]);
      hide Step, Conserved, Contract;
      HandlesConserved(lib, Step(lib, t, cs[0]), cs[1..]);
    }
  }

  /** Closing a descriptor that is not open changes nothing and is answered with -1. */
  lemma {:induction false} CloseUnknown<W(!new)>(lib: Lib<W>, s: Server<W>, fd: i32)
    requires Contract(lib)
    ensures (forall h <- s.open :: h.fd != fd) <==> ClosedAt(s, Close(fd)) == []
    ensures ClosedAt(s, Close(fd)) == [] ==> Serve(lib, s, Close(fd)) == (s, Some(Int8Item(-1)))
  {
    if Position(s.open, fd) < |s.open| { assert s.open[Position(s.open, fd)] in s.open; }
  }

  // ---- the destructor -------------------------------------------------------------------------

  /** The destructor as a step: what it closes are the handles that are left, front to back. */
  function Shutdown<W>(lib: Lib<W>, t: History<W>): History<W> {
    History(Destroyed(lib, t.server), t.acquired, t.closed + Left(t))
  }

  /** Every index below `n` occurs in `s` exactly once, and nothing else does. */
  predicate ExactlyOnce(s: seq<nat>, n: nat) {
    DistinctIndices(s, n) && forall i | 0 <= i < n :: i in s
  }

  /** After any run of a server started with no handles, and its destructor, every index of a handle it ever
      opened has been counted as closed exactly once: by the calls or else by the destructor. */
  lemma {:induction false} IndicesClosedOnce<W(!new)>(lib: Lib<W>, w: W, cs: seq<Call>)
    requires Contract(lib)
    ensures var t := Run(lib, History(Server(w, []), [], []), cs);
      Conserved(t) && ExactlyOnce(Shutdown(lib, t).closed, |t.acquired|)
  {
    var start := History(Server(w, []), [], []);
    HandlesConserved(lib, start, cs);
    var t := Run(lib, start, cs);
    OnceEach(|t.acquired|, t.closed);
    hide Run, Contract;
  }

  lemma {:induction false} OnceEach(n: nat, closed: seq<nat>)
    requires DistinctIndices(closed, n)
    ensures ExactlyOnce(closed + Remaining(n, closed), n)
  {
    RemainingAre(n, closed);
    var rest := Remaining(n, closed);
    assert forall k | 0 <= k < |rest| :: rest[k] in rest;
    assert forall i | 0 <= i < n :: i in closed || i in rest;
    hide Remaining;
  }

  /** The destructor frees the descriptors of all open handles and no others. */
  lemma {:induction false} DestructorFrees<W(!new)>(lib: Lib<W>, w: W, open: seq<UsbHandle>)
    requires Contract(lib)
    ensures lib.live(AllClosed(lib, w, open)) == lib.live(w) - set h <- open :: h.fd
  {
    if open != [] {
      var o := lib.call(w, open[0], Close(open[0].fd));
      assert Performs(lib, w, open[0], Close(open[0].fd), o);
      DestructorFrees(lib, o.world, open[1..]);
      assert forall h :: h in open <==> h == open[0] || h in open[1..];
    }
  }

  // ---- what libusb is asked to do -------------------------------------------------------------

  /** libusb's world, with every handle that it returned from an open and every one on which its close was
      called, in order. */
  datatype Record<W> = Record(world: W, opens: seq<UsbHandle>, closes: seq<UsbHandle>)

  /** The same libusb, keeping a record of what it is asked to do. */
  function Recording<W>(lib: Lib<W>): Lib<Record<W>> {
    Lib((r: Record<W>) => r.(world := lib.init(r.world)),
        (r: Record<W>) => (r.(world := lib.findBusses(r.world).0), lib.findBusses(r.world).1),
        (r: Record<W>) => (r.(world := lib.findDevices(r.world).0), lib.findDevices(r.world).1),
        lib.host,
        (r: Record<W>) => lib.busses(r.world),
        (r: Record<W>, i, j) =>
          var (w, h) := lib.open(r.world, i, j);
          (Record(w, r.opens + if h.Some? then [h.value] else [], r.closes), h),
        (r: Record<W>, h, c) =>
          var o := lib.call(r.world, h, c);
          var closes := r.closes + if c.Close? then [h] else [];
          Outcome(Record(o.world, r.opens, closes), o.res, o.setting, o.data, o.beyond),
        (r: Record<W>) => lib.live(r.world))
  }

  lemma {:induction false} RecordingContract<W(!new)>(lib: Lib<W>)
    requires Contract(lib)
    ensures Contract(Recording(lib))
  {
    var rl := Recording(lib);
    forall r: Record<W> ensures rl.live(rl.init(r)) == rl.live(r) {
      assert lib.live(lib.init(r.world)) == lib.live(r.world);
    }
    forall r: Record<W> ensures rl.live(rl.findBusses(r).0) == rl.live(r) {
      assert lib.live(lib.findBusses(r.world).0) == lib.live(r.world);
    }
    forall r: Record<W> ensures rl.live(rl.findDevices(r).0) == rl.live(r) {
      assert lib.live(lib.findDevices(r.world).0) == lib.live(r.world);
    }
    forall r ensures Serializable(rl, rl.busses(r)) { assert Serializable(lib, lib.busses(r.world)); }
    forall r, i, j ensures Opens(rl, r, rl.open(r, i, j)) { assert Opens(lib, r.world, lib.open(r.world, i, j)); }
    forall r, h, c ensures Performs(rl, r, h, c, rl.call(r, h, c)) {
      assert Performs(lib, r.world, h, c, lib.call(r.world, h, c));
    }
  }

  /** The server without the record. */
  function Plain<W>(s: Server<Record<W>>): Server<W> { Server(s.world.world, s.open) }

  /** Recording changes nothing that the server does. */
  lemma {:induction false} RecordingIsTransparent<W(!new)>(lib: Lib<W>, s: Server<Record<W>>, c: Call)
    requires Contract(lib) && Contract(Recording(lib))
    ensures var (s', reply) := Serve(Recording(lib), s, c);
      Serve(lib, Plain(s), c) == (Plain(s'), reply)
  {
    hide Contract, ReplyBytes, Position, RemoveAt, EncodeAll, ReplyItems, Int8Item, Int32Item, Select;
  }

  /** Nor what the history counts, over whole runs and the destructor. */
  lemma {:induction false} RunIsTransparent<W(!new)>(lib: Lib<W>, t: History<Record<W>>, cs: seq<Call>)
    requires Contract(lib) && Contract(Recording(lib))
    ensures var end := Run(Recording(lib), t, cs);
      Run(lib, History(Plain(t.server), t.acquired, t.closed), cs)
      == History(Plain(end.server), end.acquired, end.closed)
    decreases |cs|
  {
    if cs != [] {
      StepIsTransparent(lib, t, cs[0]);
      hide Step, Plain, Contract, Recording;
      RunIsTransparent(lib, Step(Recording(lib), t, cs[0]), cs[1..]);
    }
  }

  lemma {:induction false} StepIsTransparent<W(!new)>(lib: Lib<W>, t: History<Record<W>>, c: Call)
    requires Contract(lib) && Contract(Recording(lib))
    ensures var next := Step(Recording(lib), t, c);
      Step(lib, History(Plain(t.server), t.acquired, t.closed), c)
      == History(Plain(next.server), next.acquired, next.closed)
  {
    RecordingIsTransparent(lib, t.server, c);
    hide Serve, Contract, Select;
  }

  lemma {:induction false} DestructorIsTransparent<W>(lib: Lib<W>, r: Record<W>, open: seq<UsbHandle>)
    ensures AllClosed(Recording(lib), r, open).world == AllClosed(lib, r.world, open)
    decreases |open|
  {
    if open != [] {
      DestructorIsTransparent(lib, Recording(lib).call(r, open[0], Close(open[0].fd)).world, open[1..]);
    }
  }

  /** One call: libusb's open and close are called exactly where the history says so. */
  lemma {:induction false} ServeRecords<W(!new)>(lib: Lib<W>, s: Server<Record<W>>, c: Call)
    requires Contract(Recording(lib))
    ensures var r, r' := s.world, Serve(Recording(lib), s, c).0.world;
      && r'.opens == r.opens + Opened(Recording(lib), s, c)
      && r'.closes == r.closes + if ClosedAt(s, c) != [] then [s.open[ClosedAt(s, c)[0]]] else []
  {
    hide Contract, ReplyBytes, RemoveAt, EncodeAll, ReplyItems, Int8Item, Int32Item, Select;
    assert s.world.opens + [] == s.world.opens && s.world.closes + [] == s.world.closes;
  }

  /** The record agrees with the history. */
  predicate Recorded<W>(t: History<Record<W>>) {
    t.server.world.opens == t.acquired
    && (forall k | 0 <= k < |t.closed| :: t.closed[k] < |t.acquired|)
    && t.server.world.closes == Picked(t.acquired, t.closed)
  }

  lemma {:induction false} StepRecords<W(!new)>(lib: Lib<W>, t: History<Record<W>>, c: Call)
    requires Contract(Recording(lib)) && Conserved(t) && Recorded(t)
    ensures Recorded(Step(Recording(lib), t, c))
  {
    var rl, at := Recording(lib), ClosedAt(t.server, c);
    ServeRecords(lib, t.server, c);
    ListAfter(rl, t.server, c);
    assert t.closed + [] == t.closed && t.server.world.closes + [] == t.server.world.closes;
    if at != [] {
      PickedAt(t, at[0]);
      hide Serve, Opened, ClosedAt, Contract, Conserved, Recording;
      PickedPush(t.acquired, t.closed, Left(t)[at[0]]);
      assert t.acquired + [] == t.acquired;
    } else {
      hide Serve, Opened, ClosedAt, Contract, Conserved, Recording;
      PickedMore(t.acquired, Opened(rl, t.server, c), t.closed);
    }
  }

  lemma {:induction false} PickedPush(acquired: seq<UsbHandle>, indices: seq<nat>, i: nat)
    requires i < |acquired| && forall k | 0 <= k < |indices| :: indices[k] < |acquired|
    ensures forall k | 0 <= k < |indices + [i]| :: (indices + [i])[k] < |acquired|
    ensures Picked(acquired, indices + [i]) == Picked(acquired, indices) + [acquired[i]]
  {
  }

  lemma {:induction false} PickedMore(acquired: seq<UsbHandle>, more: seq<UsbHandle>, indices: seq<nat>)
    requires forall k | 0 <= k < |indices| :: indices[k] < |acquired|
    ensures Picked(acquired + more, indices) == Picked(acquired, indices)
  {
  }

  lemma {:induction false} RunRecords<W(!new)>(lib: Lib<W>, t: History<Record<W>>, cs: seq<Call>)
    requires Contract(Recording(lib)) && Conserved(t) && Recorded(t)
    ensures Recorded(Run(Recording(lib), t, cs))
    decreases |cs|
  {
    if cs != [] {
      StepConserves(Recording(lib), t, cs[0]);
      StepRecords(lib, t, cs[0]);
      hide Step, Conserved, Recorded, Contract, Recording;
      RunRecords(lib, Step(Recording(lib), t, cs[0]), cs[1..]);
    }
  }

  /** The destructor calls libusb's close once on each open handle, front to back, and opens nothing. */
  lemma {:induction false} DestructorCloses<W>(lib: Lib<W>, r: Record<W>, open: seq<UsbHandle>)
    ensures var end := AllClosed(Recording(lib), r, open);
      end.closes == r.closes + open && end.opens == r.opens
    decreases |open|
  {
    if open != [] {
      DestructorCloses(lib, Recording(lib).call(r, open[0], Close(open[0].fd)).world, open[1..]);
      assert (r.closes + [open[0]]) + open[1..] == r.closes + open;
    }
  }

  lemma {:induction false} PickedAppend(acquired: seq<UsbHandle>, a: seq<nat>, b: seq<nat>)
    requires forall k | 0 <= k < |a + b| :: (a + b)[k] < |acquired|
    requires (forall k | 0 <= k < |a| :: a[k] < |acquired|) && forall k | 0 <= k < |b| :: b[k] < |acquired|
    ensures Picked(acquired, a + b) == Picked(acquired, a) + Picked(acquired, b)
  {
  }

  /** Over any run of a server started with no handles, and its destructor: the handles that libusb opened are
      those of the history, and libusb's close was called on each of them exactly once, in the order in which
      the history counts them as closed. */
  lemma {:induction false} EveryHandleClosedOnce<W(!new)>(lib: Lib<W>, w: W, cs: seq<Call>)
    requires Contract(lib)
    ensures Contract(Recording(lib))
    ensures var t := Run(Recording(lib), History(Server(Record(w, [], []), []), [], []), cs);
      var end := Shutdown(Recording(lib), t);
      && ExactlyOnce(end.closed, |end.acquired|)
      && (forall k | 0 <= k < |end.closed| :: end.closed[k] < |end.acquired|)
      && end.server.open == [] && end.server.world.opens == end.acquired
      && end.server.world.closes == Picked(end.acquired, end.closed)
  {
    RecordingContract(lib);
    var rl, start := Recording(lib), History(Server(Record(w, [], []), []), [], []);
    IndicesClosedOnce(rl, Record(w, [], []), cs);
    assert Conserved(start) && Recorded(start);
    RunRecords(lib, start, cs);
    var t := Run(rl, start, cs);
    hide Run, Contract;
    DestructorCloses(lib, t.server.world, t.server.open);
    var end := Shutdown(rl, t);
    assert forall k | 0 <= k < |end.closed| :: end.closed[k] in end.closed;
    PickedAppend(t.acquired, t.closed, Left(t));
    hide Recording, Remaining, Picked, AllClosed;
  }
}

/** The protocol as steps: any number of connections, on each any number of client threads that share one
    packet and one socket under a mutex, and one server that handles packets one at a time. */
module Rpc {
  import opened Bytes
  import opened Tlv
  import opened Framing
  import opened Calls
  import opened Usb
  import opened Remote

  /** Where a thread is in a stub: it has claimed the packet, has appended some items of its request, waits
      for the reply, has received it into the packet, or has read its result. `since` and `at` are history:
      the length of the server's log when the request was sent, and the entry that the result belongs to. */
  datatype Phase =
    | Idle
    | Holding
    | Building(call: Call, items: nat)
    | Waiting(call: Call, since: nat)
    | Reading(call: Call, since: nat, at: nat)
    | Finished(call: Call, result: Result, since: nat, at: nat)

  /** One connection: who holds the mutex, its threads, the packet they share, and the bytes in flight in
      both directions. `asked` and `replied` are history: the calls whose requests are in flight, and the
      log entry of the reply in flight. */
  datatype Conn = Conn(holder: Option<nat>, threads: map<nat, Phase>, pkt: Frame, up: seq<byte>, down: seq<byte>,
                       asked: seq<Call>, replied: nat)

  datatype Entry = Entry(conn: nat, call: Call)

  /** `log` is history: the calls served so far, in order. */
  datatype State<W> = State(conns: map<nat, Conn>, server: Server<W>, log: seq<Entry>)

  function PhaseOf(n: Conn, t: nat): Phase {
    if t in n.threads then n.threads[t] else Idle
  }

  function Moved(n: Conn, t: nat, p: Phase): Conn { n.(threads := n.threads[t := p]) }

  /** `pkt_claim`; `pkt_init`; one append; `pkt_send`; one packet handled by the server; `pkt_recv`; the
      items of the reply read; `pkt_release`. */
  datatype Event =
    | Claim(conn: nat, thread: nat)
    | Begin(conn: nat, thread: nat, call: Call)
    | Append(conn: nat, thread: nat)
    | Send(conn: nat, thread: nat, call: Call)
    | Serve(conn: nat)
    | Receive(conn: nat, thread: nat)
    | Read(conn: nat, thread: nat)
    | Release(conn: nat, thread: nat)

  /** Everything but the server's step is done by the holder of the mutex. */
  predicate Enabled<W>(s: State<W>, e: Event) {
    e.conn in s.conns &&
    var n := s.conns[e.conn];
    match e
    case Claim(_, t) => n.holder == None && PhaseOf(n, t) == Idle
    case Begin(_, t, call) => n.holder == Some(t) && PhaseOf(n, t) == Holding && InRange(call)
    case Append(_, t) =>
      var p := PhaseOf(n, t);
      n.holder == Some(t) && p.Building? && InRange(p.call) && p.items < |RequestItems(p.call)|
    case Send(_, t, call) => n.holder == Some(t) && PhaseOf(n, t) == Building(call, |RequestItems(call)|)
    case Serve(_) => ParseFrame(n.up).Some?
    case Receive(_, t) => n.holder == Some(t) && PhaseOf(n, t).Waiting? && ParseFrame(n.down).Some?
    case Read(_, t) => n.holder == Some(t) && PhaseOf(n, t).Reading?
    case Release(_, t) => n.holder == Some(t) && PhaseOf(n, t).Finished?
  }

  function Appending(n: Conn, t: nat, call: Call, items: nat): Conn
    requires InRange(call) && items < |RequestItems(call)|
  {
    RequestItemsSmall(call);
    var item := RequestItems(call)[items];
    assert item in RequestItems(call);
    var more := n.pkt.payload + TokBytes(LeafTok16(item.ty, item.value));
    Moved(n, t, Building(call, items + 1)).(pkt := Frame(n.pkt.op, more))
  }

  /** The thread after sending: UsbInit is not acknowledged, everything else waits for its reply. */
  function AfterSend(call: Call, now: nat): Phase {
    if call.Init? then Finished(call, Nothing, now, now) else Waiting(call, now)
  }

  function Sending(n: Conn, t: nat, call: Call, now: nat): Conn {
    Moved(n, t, AfterSend(call, now)).(up := n.up + FrameBytes(n.pkt), asked := n.asked + [call])
  }

  /** The connection and the server after the packet at the front of the stream was handled. */
  function Serving<W(!new)>(lib: Lib<W>, n: Conn, s: Server<W>, now: nat): (Conn, Server<W>, Option<Call>)
    requires Contract(lib) && ParseFrame(n.up).Some?
  {
    var (f, rest) := ParseFrame(n.up).value;
    var raw := n.up[..|n.up| - |rest|];
    var n' := n.(up := rest, asked := if n.asked == [] then [] else n.asked[1..]);
    if raw == [] || Decode(raw).None? then (n', s, None)
    else
      var call := Decode(raw).value;
      var (s', reply) := Usb.Serve(lib, s, call);
      (if reply.None? then n'
       else n'.(down := n.down + FrameBytes(Frame(Opcode(call), reply.value)), replied := now),
       s', Some(if n.asked == [] then call else n.asked[0]))
  }

  function Receiving(n: Conn, t: nat): Conn
    requires PhaseOf(n, t).Waiting? && ParseFrame(n.down).Some?
  {
    var (f, rest) := ParseFrame(n.down).value;
    var p := PhaseOf(n, t);
    Moved(n, t, Reading(p.call, p.since, n.replied)).(pkt := f, down := rest)
  }

  function ReadingOut(n: Conn, t: nat): Conn
    requires PhaseOf(n, t).Reading?
  {
    var p := PhaseOf(n, t);
    Moved(n, t, Finished(p.call, Answer(p.call, Some(n.pkt)), p.since, p.at))
  }

  function After<W(!new)>(lib: Lib<W>, s: State<W>, e: Event): State<W>
    requires Contract(lib) && Enabled(s, e)
  {
    var n := s.conns[e.conn];
    match e
    case Claim(c, t) => s.(conns := s.conns[c := Moved(n, t, Holding).(holder := Some(t))])
    case Begin(c, t, call) =>
      s.(conns := s.conns[c := Moved(n, t, Building(call, 0)).(pkt := Frame(Opcode(call), []))])
    case Append(c, t) =>
      s.(conns := s.conns[c := Appending(n, t, PhaseOf(n, t).call, PhaseOf(n, t).items)])
    case Send(c, t, call) => s.(conns := s.conns[c := Sending(n, t, call, |s.log|)])
    case Serve(c) =>
      var (n', server, served) := Serving(lib, n, s.server, |s.log|);
      State(s.conns[c := n'], server, s.log + if served.None? then [] else [Entry(c, served.value)])
    case Receive(c, t) => s.(conns := s.conns[c := Receiving(n, t)])
    case Read(c, t) => s.(conns := s.conns[c := ReadingOut(n, t)])
    case Release(c, t) => s.(conns := s.conns[c := Moved(n, t, Idle).(holder := None)])
  }

  /** `es` is a possible interleaving from `s`. */
  predicate Possible<W(!new)>(lib: Lib<W>, s: State<W>, es: seq<Event>)
    requires Contract(lib)
    decreases |es|
  {
    es == [] || (Enabled(s, es[0]) && Possible(lib, After(lib, s, es[0]), es[1..]))
  }

  function Reached<W(!new)>(lib: Lib<W>, s: State<W>, es: seq<Event>): State<W>
    requires Contract(lib) && Possible(lib, s, es)
    decreases |es|
  {
    if es == [] then s else Reached(lib, After(lib, s, es[0]), es[1..])
  }

  // ---- the invariant --------------------------------------------------------------------------

  function CallsOf(log: seq<Entry>): seq<Call> {
    seq(|log|, i requires 0 <= i < |log| => log[i].call)
  }

  /** The results of the calls made one after the other, in the order in which they were served. */
  function Results<W(!new)>(lib: Lib<W>, s0: Server<W>, log: seq<Entry>): seq<Result>
    requires Contract(lib)
  {
    RemoteRun(lib, s0, CallsOf(log)).1
  }

  /** The request bytes of calls in flight. */
  function Requests(cs: seq<Call>): seq<byte>
    requires forall c <- cs :: InRange(c)
  {
    if cs == [] then []
    else assert cs[0] in cs; FrameBytes(Frame(Opcode(cs[0]), Request(cs[0]))) + Requests(cs[1..])
  }

  ghost predicate AllInits(cs: seq<Call>) { forall c <- cs :: c.Init? }

  /** Nothing is owed: only unacknowledged requests are in flight. */
  ghost predicate Quiet(n: Conn) { AllInits(n.asked) && n.down == [] }

  /** Nothing is in flight. */
  ghost predicate Silent(n: Conn) { n.asked == [] && n.down == [] }

  /** The packet holds the first `items` items of the request. */
  ghost predicate Built(n: Conn, call: Call, items: nat) {
    InRange(call) && items <= |RequestItems(call)| &&
    var front := RequestItems(call)[..items];
    Appendable(front) && n.pkt == Frame(Opcode(call), Flat(Items16(front)))
  }

  /** The request of `call` is the last in flight. */
  ghost predicate Asked(n: Conn, call: Call) {
    n.asked != [] && n.asked[|n.asked| - 1] == call && AllInits(n.asked[..|n.asked| - 1]) && n.down == []
  }

  /** The entry `at` of the log is this call, served since `since` and the last one served on the
      connection, and `r` is its result. */
  ghost predicate Served(c: nat, call: Call, since: nat, at: nat, r: Result, log: seq<Entry>, results: seq<Result>) {
    && since <= at < |log| == |results| && log[at] == Entry(c, call) && results[at] == r
    && forall k | at < k < |log| :: log[k].conn != c
  }

  /** The reply to `call`, and nothing else, is in flight. */
  ghost predicate Replied(n: Conn, c: nat, call: Call, since: nat, log: seq<Entry>, results: seq<Result>) {
    n.asked == [] &&
    exists f: Frame ::
      && n.down == FrameBytes(f) && f.op == Opcode(call) && |f.payload| < 0x1_0000_0000
      && Served(c, call, since, n.replied, Answer(call, Some(f)), log, results)
  }

  /** The thread that holds the mutex: the packet is its own, and it alone may be owed a reply. */
  ghost predicate HolderOk(n: Conn, p: Phase, c: nat, log: seq<Entry>, results: seq<Result>) {
    match p
    case Idle => false
    case Holding => Quiet(n)
    case Building(call, items) => Quiet(n) && Built(n, call, items)
    case Waiting(call, since) =>
      !call.Init? && since <= |log| && (Asked(n, call) || Replied(n, c, call, since, log, results))
    case Reading(call, since, at) =>
      !call.Init? && Silent(n) && n.pkt.op == Opcode(call)
      && Served(c, call, since, at, Answer(call, Some(n.pkt)), log, results)
    case Finished(call, r, since, at) =>
      if call.Init? then Quiet(n) else Silent(n) && Served(c, call, since, at, r, log, results)
  }

  /** The holder of the mutex is the only thread that is not idle. */
  ghost predicate ConnOk(n: Conn, c: nat, log: seq<Entry>, results: seq<Result>) {
    && (forall call <- n.asked :: InRange(call))
    && n.up == Requests(n.asked)
    && (forall t: nat :: n.holder != Some(t) ==> PhaseOf(n, t) == Idle)
    && if n.holder == None then Quiet(n) else HolderOk(n, PhaseOf(n, n.holder.value), c, log, results)
  }

  ghost predicate Inv<W(!new)>(lib: Lib<W>, s0: Server<W>, s: State<W>)
    requires Contract(lib)
  {
    && Valid(lib, s.server) && s.server == RemoteRun(lib, s0, CallsOf(s.log)).0
    && (forall e <- s.log :: InRange(e.call))
    && forall c | c in s.conns :: ConnOk(s.conns[c], c, s.log, Results(lib, s0, s.log))
  }

  // ---- the log only grows ---------------------------------------------------------------------

  lemma {:induction false} ResultsPush<W(!new)>(lib: Lib<W>, s0: Server<W>, log: seq<Entry>, e: Entry)
    requires Contract(lib)
    ensures var last := RemoteRun(lib, s0, CallsOf(log)).0;
      var (s', reply) := Usb.Serve(lib, last, Sent(e.call));
      && |Results(lib, s0, log)| == |log|
      && Results(lib, s0, log + [e]) == Results(lib, s0, log) + [Received(e.call, reply)]
      && RemoteRun(lib, s0, CallsOf(log + [e])).0 == s'
  {
    assert CallsOf(log + [e]) == CallsOf(log) + [e.call];
    hide RemoteRun, Usb.Serve, Received, Sent, Contract;
    RemoteRunPush(lib, s0, CallsOf(log), e.call);
  }

  /** No result has been claimed from the log yet. */
  ghost predicate Unclaimed(n: Conn) {
    n.holder.Some? ==>
      var p := PhaseOf(n, n.holder.value);
      p.Holding? || p.Building? || (p.Waiting? && Asked(n, p.call)) || (p.Finished? && p.call.Init?)
  }

  lemma {:induction false} ServedGrows(c: nat, call: Call, since: nat, at: nat, r: Result, log: seq<Entry>,
                                       results: seq<Result>, e: Entry, q: Result)
    requires e.conn != c && Served(c, call, since, at, r, log, results)
    ensures Served(c, call, since, at, r, log + [e], results + [q])
  {
  }

  /** What is known about a connection stays true when a call of another one is logged, or any call while
      it has no claim. */
  lemma {:induction false} ConnOkGrows(n: Conn, c: nat, log: seq<Entry>, results: seq<Result>, e: Entry, r: Result)
    requires ConnOk(n, c, log, results) && |results| == |log|
    requires e.conn != c || Unclaimed(n)
    ensures ConnOk(n, c, log + [e], results + [r])
  {
    hide Requests, Quiet, Silent, Asked, Answer, Built, Served, InRange, Opcode, FrameBytes;
    if n.holder.Some? && !Unclaimed(n) {
      var p := PhaseOf(n, n.holder.value);
      match p
      case Waiting(call, since) =>
        var f: Frame :| n.down == FrameBytes(f) && f.op == Opcode(call) && |f.payload| < 0x1_0000_0000
          && Served(c, call, since, n.replied, Answer(call, Some(f)), log, results);
        ServedGrows(c, call, since, n.replied, Answer(call, Some(f)), log, results, e, r);
      case Reading(call, since, at) => ServedGrows(c, call, since, at, Answer(call, Some(n.pkt)), log, results, e, r);
      case Finished(call, q, since, at) => ServedGrows(c, call, since, at, q, log, results, e, r);
      case _ =>
    }
  }

  // ---- requests in flight ---------------------------------------------------------------------

  lemma {:induction false} RequestsPush(cs: seq<Call>, c: Call)
    requires InRange(c) && forall x <- cs :: InRange(x)
    ensures forall x <- cs + [c] :: InRange(x)
    ensures Requests(cs + [c]) == Requests(cs) + FrameBytes(Frame(Opcode(c), Request(c)))
  {
    hide Request, InRange, FrameBytes, Opcode;
    if cs == [] {
      assert [] + [c] == [c] && [c][1..] == [];
      assert Requests([]) == [];
    } else {
      assert (cs + [c])[1..] == cs[1..] + [c];
      assert cs[0] in cs;
      RequestsPush(cs[1..], c);
    }
  }

  /** The next packet on the stream is the oldest request, whole and alone. */
  lemma {:induction false} RequestsFront(cs: seq<Call>)
    requires forall x <- cs :: InRange(x)
    ensures ParseFrame(Requests(cs)).Some? <==> cs != []
    ensures cs != [] ==>
      var up, f := Requests(cs), Frame(Opcode(cs[0]), Request(cs[0]));
      && ParseFrame(up) == Some((f, Requests(cs[1..])))
      && up[..|up| - |Requests(cs[1..])|] == FrameBytes(f)
  {
    if cs != [] {
      var c := cs[0];
      assert c in cs && InRange(c);
      RequestItemsOk(c);
      RequestSize(RequestItems(c));
      hide Request, RequestItems, InRange;
      ParseFrameAt(Frame(Opcode(c), Request(c)), Requests(cs[1..]));
      hide ParseFrame, FrameBytes;
    }
  }

  // ---- every step keeps the invariant ---------------------------------------------------------

  /** Steps of a client touch one connection and neither the server nor the log. */
  lemma {:induction false} ClientStep<W(!new)>(lib: Lib<W>, s0: Server<W>, s: State<W>, c: nat, n: Conn)
    requires Contract(lib) && Inv(lib, s0, s) && ConnOk(n, c, s.log, Results(lib, s0, s.log))
    ensures Inv(lib, s0, s.(conns := s.conns[c := n]))
  {
    hide ConnOk, Results, RemoteRun, Valid, Contract;
  }

  lemma {:induction false} ClaimOk(n: Conn, c: nat, t: nat, log: seq<Entry>, results: seq<Result>)
    requires ConnOk(n, c, log, results) && n.holder == None && PhaseOf(n, t) == Idle
    ensures ConnOk(Moved(n, t, Holding).(holder := Some(t)), c, log, results)
  {
    hide Requests;
  }

  lemma {:induction false} BeginOk(n: Conn, c: nat, t: nat, call: Call, log: seq<Entry>, results: seq<Result>)
    requires ConnOk(n, c, log, results) && n.holder == Some(t) && PhaseOf(n, t) == Holding && InRange(call)
    ensures ConnOk(Moved(n, t, Building(call, 0)).(pkt := Frame(Opcode(call), [])), c, log, results)
  {
    hide Requests, InRange, Opcode;
    assert RequestItems(call)[..0] == [] && Items16([]) == [] && Flat([]) == [];
  }

  /** One append by the holder: the packet holds one item more of its request. */
  lemma {:induction false} BuiltAppends(n: Conn, t: nat, call: Call, items: nat)
    requires Built(n, call, items) && items < |RequestItems(call)|
    ensures Built(Appending(n, t, call, items), call, items + 1)
  {
    hide RequestItems, Items16, Flat, Appendable, InRange, Opcode, TokBytes, LeafTok16;
    RequestItemsSmall(call);
    var all := RequestItems(call);
    assert all[items] in all && all[..items + 1] == all[..items] + [all[items]];
    AppendedItem(all[..items], all[items]);
  }

  lemma {:induction false} AppendOk(n: Conn, c: nat, t: nat, log: seq<Entry>, results: seq<Result>)
    requires ConnOk(n, c, log, results) && n.holder == Some(t) && PhaseOf(n, t).Building?
    requires var p := PhaseOf(n, t); InRange(p.call) && p.items < |RequestItems(p.call)|
    ensures var p := PhaseOf(n, t); ConnOk(Appending(n, t, p.call, p.items), c, log, results)
  {
    var p := PhaseOf(n, t);
    hide Requests, InRange, RequestItems;
    assert Built(n, p.call, p.items);
    BuiltAppends(n, t, p.call, p.items);
    hide Built;
  }

  lemma {:induction false} BuiltRequest(n: Conn, call: Call)
    requires Built(n, call, |RequestItems(call)|)
    ensures n.pkt == Frame(Opcode(call), Request(call))
  {
    assert RequestItems(call)[..|RequestItems(call)|] == RequestItems(call);
    hide RequestItems, Opcode;
  }

  lemma {:induction false} AskedLast(n: Conn, n': Conn, call: Call)
    requires Quiet(n) && n'.asked == n.asked + [call] && n'.down == n.down
    ensures if call.Init? then Quiet(n') else Asked(n', call)
  {
    assert n'.asked[..|n'.asked| - 1] == n.asked;
  }

  lemma {:induction false} SendOk(n: Conn, c: nat, t: nat, call: Call, log: seq<Entry>, results: seq<Result>)
    requires ConnOk(n, c, log, results) && n.holder == Some(t)
    requires PhaseOf(n, t) == Building(call, |RequestItems(call)|)
    ensures ConnOk(Sending(n, t, call, |log|), c, log, results)
  {
    hide RequestItems, FrameBytes, Request, InRange, Opcode, Answer, Served, Replied, Asked, Silent;
    assert Quiet(n) && Built(n, call, |RequestItems(call)|);
    BuiltRequest(n, call);
    RequestsPush(n.asked, call);
    AskedLast(n, Sending(n, t, call, |log|), call);
    hide Requests, Built, Quiet;
  }

  lemma {:induction false} ReceiveOk(n: Conn, c: nat, t: nat, log: seq<Entry>, results: seq<Result>)
    requires ConnOk(n, c, log, results) && n.holder == Some(t) && PhaseOf(n, t).Waiting? && ParseFrame(n.down).Some?
    ensures ConnOk(Receiving(n, t), c, log, results)
  {
    hide Requests, Answer, Opcode, FrameBytes, Built, Served, InRange;
    var p := PhaseOf(n, t);
    assert !Asked(n, p.call);
    var f: Frame :| n.down == FrameBytes(f) && f.op == Opcode(p.call) && |f.payload| < 0x1_0000_0000
      && Served(c, p.call, p.since, n.replied, Answer(p.call, Some(f)), log, results);
    ParseFrameAt(f, []);
    assert FrameBytes(f) + [] == FrameBytes(f);
    hide ParseFrame;
  }

  lemma {:induction false} ReadOk(n: Conn, c: nat, t: nat, log: seq<Entry>, results: seq<Result>)
    requires ConnOk(n, c, log, results) && n.holder == Some(t) && PhaseOf(n, t).Reading?
    ensures ConnOk(ReadingOut(n, t), c, log, results)
  {
    hide Requests, Answer, Opcode, Served, InRange;
  }

  lemma {:induction false} ReleaseOk(n: Conn, c: nat, t: nat, log: seq<Entry>, results: seq<Result>)
    requires ConnOk(n, c, log, results) && n.holder == Some(t) && PhaseOf(n, t).Finished?
    ensures ConnOk(Moved(n, t, Idle).(holder := None), c, log, results)
  {
    hide Requests, Served, InRange;
  }

  lemma {:induction false} InitsInFront(cs: seq<Call>)
    requires |cs| > 1 && AllInits(cs[..|cs| - 1])
    ensures cs[0].Init? && AllInits(cs[1..][..|cs| - 2])
  {
    var front := cs[..|cs| - 1];
    assert front[0] in front && front[1..] == cs[1..][..|cs| - 2];
    assert forall x <- front[1..] :: x in front;
  }

  lemma {:induction false} QuietRest(n: Conn, n': Conn)
    requires n.asked != [] && n'.asked == n.asked[1..] && n'.down == n.down
    ensures Quiet(n) ==> Quiet(n')
  {
    assert forall x <- n'.asked :: x in n.asked;
  }

  lemma {:induction false} AskedRest(n: Conn, n': Conn, call: Call)
    requires n.asked != [] && n.asked[0].Init? && n'.asked == n.asked[1..] && n'.down == n.down
    requires Asked(n, call) && !call.Init?
    ensures Asked(n', call)
  {
    assert |n.asked| > 1;
    InitsInFront(n.asked);
    hide AllInits;
  }

  /** A connection with requests in flight has claimed no result. */
  lemma {:induction false} AskedUnclaimed(n: Conn, c: nat, log: seq<Entry>, results: seq<Result>)
    requires ConnOk(n, c, log, results) && n.asked != []
    ensures Unclaimed(n)
  {
    hide Requests, InRange, Served, FrameBytes, Opcode, Answer, Built, Asked, Quiet;
  }

  /** The server takes a UsbInit off the stream. */
  lemma {:induction false} InitServed(n: Conn, c: nat, log: seq<Entry>, results: seq<Result>)
    requires ConnOk(n, c, log, results) && n.asked != [] && n.asked[0].Init?
    ensures var n' := n.(asked := n.asked[1..], up := Requests(n.asked[1..]));
      ConnOk(n', c, log, results) && Unclaimed(n')
  {
    var n' := n.(asked := n.asked[1..], up := Requests(n.asked[1..]));
    assert forall x <- n'.asked :: x in n.asked;
    hide Requests, InRange, Served, FrameBytes, Opcode, Answer;
    AskedUnclaimed(n, c, log, results);
    QuietRest(n, n');
    if n.holder.Some? {
      var p := PhaseOf(n, n.holder.value);
      assert PhaseOf(n', n.holder.value) == p;
      hide Asked, Quiet, Replied;
      if p.Waiting? { AskedRest(n, n', p.call); }
    }
    hide Asked, Quiet, Replied;
  }

  /** The server takes any other request off the stream and sends the only reply. */
  lemma {:induction false} CallServed(n: Conn, c: nat, log: seq<Entry>, results: seq<Result>, f: Frame)
    requires ConnOk(n, c, log, results) && |results| == |log| > 0 && n.asked != [] && !n.asked[0].Init?
    requires n.holder.Some? && PhaseOf(n, n.holder.value).Waiting? ==> PhaseOf(n, n.holder.value).since < |log|
    requires f.op == Opcode(n.asked[0]) && |f.payload| < 0x1_0000_0000
    requires log[|log| - 1] == Entry(c, n.asked[0]) && results[|log| - 1] == Answer(n.asked[0], Some(f))
    ensures n.asked == [n.asked[0]]
    ensures ConnOk(n.(asked := [], up := [], down := n.down + FrameBytes(f), replied := |log| - 1), c, log, results)
  {
    hide Opcode, Answer, FrameBytes, InRange, Built;
    AskedUnclaimed(n, c, log, results);
    var call := n.asked[0];
    assert call in n.asked && !AllInits(n.asked);
    var p := PhaseOf(n, n.holder.value);
    if |n.asked| > 1 { InitsInFront(n.asked); }
    var n' := n.(asked := [], up := [], down := n.down + FrameBytes(f), replied := |log| - 1);
    assert n'.down == FrameBytes(f);
    assert Served(c, call, p.since, n'.replied, Answer(call, Some(f)), log, results);
    assert Replied(n', c, call, p.since, log, results);
    assert Requests([]) == [];
    hide Served, Replied, Requests;
  }

  lemma {:induction false} OpcodeOfSent(c: Call)
    ensures Opcode(Sent(c)) == Opcode(c)
  {
  }

  /** The connection whose oldest request was answered with `reply`, or not at all. */
  function Answered(n: Conn, reply: Option<seq<byte>>, now: nat): (r: Conn)
    requires n.asked != [] && forall x <- n.asked :: InRange(x)
    ensures r.asked == n.asked[1..]
  {
    assert forall x <- n.asked[1..] :: x in n.asked;
    var n' := n.(up := Requests(n.asked[1..]), asked := n.asked[1..]);
    if reply.None? then n'
    else n'.(down := n.down + FrameBytes(Frame(Opcode(n.asked[0]), reply.value)), replied := now)
  }

  /** What the server does with the oldest request of a connection. */
  lemma {:induction false} ServingIs<W(!new)>(lib: Lib<W>, n: Conn, s: Server<W>, now: nat)
    requires Contract(lib) && Valid(lib, s)
    requires (forall x <- n.asked :: InRange(x)) && n.up == Requests(n.asked) && ParseFrame(n.up).Some?
    ensures n.asked != []
    ensures var call := n.asked[0];
      var (s', reply) := Usb.Serve(lib, s, Sent(call));
      && Valid(lib, s') && (reply.None? <==> call.Init?)
      && (reply.Some? ==> |reply.value| < 0x1_0000_0000)
      && Serving(lib, n, s, now) == (Answered(n, reply, now), s', Some(call))
  {
    RequestsFront(n.asked);
    var call := n.asked[0];
    assert call in n.asked && InRange(call);
    RemoteStep(lib, s, call);
    OpcodeOfSent(call);
    hide Usb.Serve, LocalStep, Decode, Answer, Requests, Request, InRange, Opcode, Sent, ParseFrame, Abs, Contract;
    assert FrameBytes(Frame(Opcode(call), Request(call))) != [];
    hide FrameBytes;
  }

  lemma {:induction false} AnsweredOk(n: Conn, c: nat, log: seq<Entry>, results: seq<Result>, reply: Option<seq<byte>>)
    requires ConnOk(n, c, log, results) && |results| == |log| && n.asked != []
    requires (reply.None? <==> n.asked[0].Init?) && (reply.Some? ==> |reply.value| < 0x1_0000_0000)
    ensures var call := n.asked[0];
      ConnOk(Answered(n, reply, |log|), c, log + [Entry(c, call)], results + [Received(call, reply)])
  {
    var call := n.asked[0];
    var e, r := Entry(c, call), Received(call, reply);
    if call.Init? {
      InitServed(n, c, log, results);
      hide ConnOk, Requests, Unclaimed, Answer;
      ConnOkGrows(Answered(n, reply, |log|), c, log, results, e, r);
    } else {
      hide Requests, Opcode, FrameBytes, InRange, HolderOk, Answer;
      AskedUnclaimed(n, c, log, results);
      hide Unclaimed;
      ConnOkGrows(n, c, log, results, e, r);
      CallServed(n, c, log + [e], results + [r], Frame(Opcode(call), reply.value));
      assert n.asked[1..] == [];
      RequestsNone();
      hide ConnOk;
    }
  }

  lemma RequestsNone()
    ensures Requests([]) == []
  {
  }

  lemma {:induction false} ServeTouches<W(!new)>(lib: Lib<W>, s: State<W>, c: nat)
    requires Contract(lib) && Enabled(s, Serve(c))
    ensures var (n', server, served) := Serving(lib, s.conns[c], s.server, |s.log|);
      After(lib, s, Serve(c)) ==
        State(s.conns[c := n'], server, s.log + if served.None? then [] else [Entry(c, served.value)])
  {
    hide Serving, Contract;
  }

  lemma {:induction false} ServeReady<W>(s: State<W>, c: nat)
    requires Enabled(s, Serve(c))
    ensures c in s.conns && ParseFrame(s.conns[c].up).Some?
  {
    hide ParseFrame;
  }

  lemma {:induction false} InvAt<W(!new)>(lib: Lib<W>, s0: Server<W>, s: State<W>, c: nat)
    requires Contract(lib) && Inv(lib, s0, s) && c in s.conns
    ensures Valid(lib, s.server) && s.server == RemoteRun(lib, s0, CallsOf(s.log)).0
    ensures var n := s.conns[c];
      ConnOk(n, c, s.log, Results(lib, s0, s.log)) && (forall x <- n.asked :: InRange(x)) && n.up == Requests(n.asked)
  {
    hide HolderOk, Results, RemoteRun, Valid, Contract, InRange, CallsOf, Requests;
    assert ConnOk(s.conns[c], c, s.log, Results(lib, s0, s.log));
  }

  /** A packet handled by the server: the oldest request of the connection is logged and answered. */
  lemma {:induction false} ServeConn<W(!new)>(lib: Lib<W>, s0: Server<W>, s: State<W>, c: nat)
    requires Contract(lib) && Inv(lib, s0, s) && c in s.conns && Enabled(s, Serve(c))
    ensures s.conns[c].asked != []
    ensures var s', call := After(lib, s, Serve(c)), s.conns[c].asked[0];
      && InRange(call) && s'.log == s.log + [Entry(c, call)] && s'.conns[c].asked == s.conns[c].asked[1..]
      && Valid(lib, s'.server) && s'.server == RemoteRun(lib, s0, CallsOf(s'.log)).0
      && ConnOk(s'.conns[c], c, s'.log, Results(lib, s0, s'.log))
  {
    hide *;
    var n, log, results := s.conns[c], s.log, Results(lib, s0, s.log);
    InvAt(lib, s0, s, c);
    ServeReady(s, c);
    ServeTouches(lib, s, c);
    ServingIs(lib, n, s.server, |log|);
    var call := n.asked[0];
    assert call in n.asked;
    var reply := Usb.Serve(lib, s.server, Sent(call)).1;
    ResultsPush(lib, s0, log, Entry(c, call));
    AnsweredOk(n, c, log, results, reply);
  }

  lemma {:induction false} ServeOk<W(!new)>(lib: Lib<W>, s0: Server<W>, s: State<W>, c: nat)
    requires Contract(lib) && Inv(lib, s0, s) && c in s.conns && Enabled(s, Serve(c))
    ensures Inv(lib, s0, After(lib, s, Serve(c)))
  {
    hide ConnOk, RemoteRun, Results, Serving, Valid, Enabled, After, Usb.Serve, Received, Sent, Contract, InRange,
      ParseFrame;
    ServeConn(lib, s0, s, c);
    ServeTouches(lib, s, c);
    var s' := After(lib, s, Serve(c));
    var e := Entry(c, s.conns[c].asked[0]);
    ResultsPush(lib, s0, s.log, e);
    var r := Received(e.call, Usb.Serve(lib, RemoteRun(lib, s0, CallsOf(s.log)).0, Sent(e.call)).1);
    forall d | d in s'.conns ensures ConnOk(s'.conns[d], d, s'.log, Results(lib, s0, s'.log)) {
      if d != c { ConnOkGrows(s.conns[d], d, s.log, Results(lib, s0, s.log), e, r); }
    }
  }

  /** Every step of any client or of the server keeps the invariant. */
  lemma {:induction false} StepKeeps<W(!new)>(lib: Lib<W>, s0: Server<W>, s: State<W>, e: Event)
    requires Contract(lib) && Inv(lib, s0, s) && Enabled(s, e)
    ensures Inv(lib, s0, After(lib, s, e))
  {
    var n, c, log, results := s.conns[e.conn], e.conn, s.log, Results(lib, s0, s.log);
    assert ConnOk(n, c, log, results);
    hide Inv, ConnOk, Results, Contract, Serving, Sending, Receiving, ReadingOut, Appending;
    match e
    case Claim(_, t) =>
      ClaimOk(n, c, t, log, results);
      ClientStep(lib, s0, s, c, Moved(n, t, Holding).(holder := Some(t)));
    case Begin(_, t, call) =>
      BeginOk(n, c, t, call, log, results);
      ClientStep(lib, s0, s, c, Moved(n, t, Building(call, 0)).(pkt := Frame(Opcode(call), [])));
    case Append(_, t) =>
      AppendOk(n, c, t, log, results);
      ClientStep(lib, s0, s, c, Appending(n, t, PhaseOf(n, t).call, PhaseOf(n, t).items));
    case Send(_, t, call) =>
      SendOk(n, c, t, call, log, results);
      ClientStep(lib, s0, s, c, Sending(n, t, call, |log|));
    case Serve(_) =>
      ServeOk(lib, s0, s, c);
    case Receive(_, t) =>
      ReceiveOk(n, c, t, log, results);
      ClientStep(lib, s0, s, c, Receiving(n, t));
    case Read(_, t) =>
      ReadOk(n, c, t, log, results);
      ClientStep(lib, s0, s, c, ReadingOut(n, t));
    case Release(_, t) =>
      ReleaseOk(n, c, t, log, results);
      ClientStep(lib, s0, s, c, Moved(n, t, Idle).(holder := None));
  }

  // ---- whole runs -----------------------------------------------------------------------------

  /** A server with any valid list of handles, and any number of idle connections. */
  ghost predicate Initial<W(!new)>(lib: Lib<W>, s0: Server<W>, s: State<W>) {
    && s.server == s0 && Valid(lib, s0) && s.log == []
    && forall c | c in s.conns :: Unused(s.conns[c])
  }

  /** No thread holds the packet and nothing is in flight. */
  predicate Unused(n: Conn) {
    n.holder == None && n.threads == map[] && n.up == [] && n.down == [] && n.asked == []
  }

  lemma {:induction false} InitialOk<W(!new)>(lib: Lib<W>, s0: Server<W>, s: State<W>)
    requires Contract(lib) && Initial(lib, s0, s)
    ensures Inv(lib, s0, s)
  {
    assert CallsOf([]) == [];
    forall c | c in s.conns ensures ConnOk(s.conns[c], c, s.log, Results(lib, s0, s.log)) {
      assert Unused(s.conns[c]);
      hide Contract, Results;
    }
  }

  lemma {:induction false} RunKeeps<W(!new)>(lib: Lib<W>, s0: Server<W>, s: State<W>, es: seq<Event>)
    requires Contract(lib) && Inv(lib, s0, s) && Possible(lib, s, es)
    ensures Inv(lib, s0, Reached(lib, s, es))
    decreases |es|
  {
    if es != [] {
      StepKeeps(lib, s0, s, es[0]);
      hide Inv, After, Enabled, Contract;
      RunKeeps(lib, s0, After(lib, s, es[0]), es[1..]);
    }
  }

  /** Requests in flight that will be answered. */
  function Unanswered(cs: seq<Call>): nat {
    if cs == [] then 0 else (if cs[0].Init? then 0 else 1) + Unanswered(cs[1..])
  }

  /** Replies owed to a connection: requests to be answered and a reply in flight. */
  function Owed(n: Conn): nat {
    Unanswered(n.asked) + if n.down == [] then 0 else 1
  }

  lemma {:induction false} UnansweredInits(cs: seq<Call>)
    requires AllInits(cs)
    ensures Unanswered(cs) == 0
  {
    if cs != [] {
      assert cs[0] in cs;
      UnansweredInits(cs[1..]);
    }
  }

  lemma {:induction false} UnansweredLast(cs: seq<Call>)
    requires cs != [] && AllInits(cs[..|cs| - 1]) && !cs[|cs| - 1].Init?
    ensures Unanswered(cs) == 1
  {
    if |cs| == 1 {
      assert cs[1..] == [];
    } else {
      InitsInFront(cs);
      assert cs[1..][..|cs[1..]| - 1] == cs[1..][..|cs| - 2];
      UnansweredLast(cs[1..]);
    }
  }

  lemma {:induction false} OwedToHolder(n: Conn, c: nat, log: seq<Entry>, results: seq<Result>)
    requires ConnOk(n, c, log, results)
    ensures Owed(n) <= 1
    ensures Owed(n) == 1 <==> n.holder.Some? && PhaseOf(n, n.holder.value).Waiting?
    ensures n.down != [] ==> (
      && ParseFrame(n.down).Some? && ParseFrame(n.down).value.1 == []
      && n.holder.Some? && PhaseOf(n, n.holder.value).Waiting?
      && ParseFrame(n.down).value.0.op == Opcode(PhaseOf(n, n.holder.value).call))
  {
    hide Requests, Answer, Opcode, FrameBytes, InRange, Served, Built;
    if n.holder.Some? && PhaseOf(n, n.holder.value).Waiting? {
      var p := PhaseOf(n, n.holder.value);
      if Asked(n, p.call) {
        UnansweredLast(n.asked);
      } else {
        var f: Frame :| n.down == FrameBytes(f) && f.op == Opcode(p.call) && |f.payload| < 0x1_0000_0000
          && Served(c, p.call, p.since, n.replied, Answer(p.call, Some(f)), log, results);
        ParseFrameAt(f, []);
        assert FrameBytes(f) + [] == FrameBytes(f);
      }
    } else {
      UnansweredInits(n.asked);
    }
  }

  /** In every interleaving, at most one reply is owed on a connection; it is owed exactly while the
      holder of the mutex waits; and a reply in flight is a single packet with the opcode of the
      holder's request, even with UsbInit requests queued in front of it. */
  lemma {:induction false} OneReplyOwed<W(!new)>(lib: Lib<W>, s0: Server<W>, s: State<W>, es: seq<Event>, c: nat)
    requires Contract(lib) && Initial(lib, s0, s) && Possible(lib, s, es)
    requires c in Reached(lib, s, es).conns
    ensures var n := Reached(lib, s, es).conns[c];
      && Owed(n) <= 1
      && (Owed(n) == 1 <==> n.holder.Some? && PhaseOf(n, n.holder.value).Waiting?)
      && (n.down != [] ==>
            && ParseFrame(n.down).Some? && ParseFrame(n.down).value.1 == []
            && n.holder.Some? && PhaseOf(n, n.holder.value).Waiting?
            && ParseFrame(n.down).value.0.op == Opcode(PhaseOf(n, n.holder.value).call))
      && forall t: nat :: PhaseOf(n, t) != Idle ==> n.holder == Some(t)
  {
    InitialOk(lib, s0, s);
    RunKeeps(lib, s0, s, es);
    hide Possible, Initial, Contract;
    var r := Reached(lib, s, es);
    assert ConnOk(r.conns[c], c, r.log, Results(lib, s0, r.log));
    OwedToHolder(r.conns[c], c, r.log, Results(lib, s0, r.log));
    hide Owed, ParseFrame, Results, RemoteRun, HolderOk;
  }

  /** Nothing gets stuck: while the packet is free every thread can claim it; its holder can always go on,
      except while it waits, and then the server can serve the connection or the reply can be received. */
  lemma {:induction false} NeverStuck<W(!new)>(lib: Lib<W>, s0: Server<W>, s: State<W>, es: seq<Event>, c: nat)
    requires Contract(lib) && Initial(lib, s0, s) && Possible(lib, s, es)
    requires c in Reached(lib, s, es).conns
    ensures var r := Reached(lib, s, es); var n := r.conns[c];
      if n.holder.None? then forall t: nat :: Enabled(r, Claim(c, t))
      else
        var t := n.holder.value;
        match PhaseOf(n, t)
        case Idle => false
        case Holding => forall call | InRange(call) :: Enabled(r, Begin(c, t, call))
        case Building(call, _) => Enabled(r, Append(c, t)) || Enabled(r, Send(c, t, call))
        case Waiting(_, _) => Enabled(r, Serve(c)) || Enabled(r, Receive(c, t))
        case Reading(_, _, _) => Enabled(r, Read(c, t))
        case Finished(_, _, _, _) => Enabled(r, Release(c, t))
  {
    InitialOk(lib, s0, s);
    RunKeeps(lib, s0, s, es);
    hide Possible, Initial, Contract, Reached;
    var r := Reached(lib, s, es);
    InvAt(lib, s0, r, c);
    GoesOn(r, c, Results(lib, s0, r.log));
  }

  lemma {:induction false} GoesOn<W>(r: State<W>, c: nat, results: seq<Result>)
    requires c in r.conns && ConnOk(r.conns[c], c, r.log, results)
    ensures var n := r.conns[c];
      if n.holder.None? then forall t: nat :: Enabled(r, Claim(c, t))
      else
        var t := n.holder.value;
        match PhaseOf(n, t)
        case Idle => false
        case Holding => forall call | InRange(call) :: Enabled(r, Begin(c, t, call))
        case Building(call, _) => Enabled(r, Append(c, t)) || Enabled(r, Send(c, t, call))
        case Waiting(_, _) => Enabled(r, Serve(c)) || Enabled(r, Receive(c, t))
        case Reading(_, _, _) => Enabled(r, Read(c, t))
        case Finished(_, _, _, _) => Enabled(r, Release(c, t))
  {
    hide Requests, Served, Answer, InRange, RequestItems, Opcode, FrameBytes, ParseFrame;
    var n := r.conns[c];
    if n.holder.Some? && PhaseOf(n, n.holder.value).Waiting? {
      var p := PhaseOf(n, n.holder.value);
      if Asked(n, p.call) {
        RequestsFront(n.asked);
      } else {
        var f: Frame :| n.down == FrameBytes(f) && f.op == Opcode(p.call) && |f.payload| < 0x1_0000_0000
          && Served(c, p.call, p.since, n.replied, Answer(p.call, Some(f)), r.log, results);
        ParseFrameAt(f, []);
        assert FrameBytes(f) + [] == FrameBytes(f);
      }
    }
  }

  // ---- served once ----------------------------------------------------------------------------

  /** The calls of connection `c` in a log, and those sent on it in a run. */
  function Logged(log: seq<Entry>, c: nat): seq<Call> {
    if log == [] then []
    else
      var last := log[|log| - 1];
      Logged(log[..|log| - 1], c) + if last.conn == c then [last.call] else []
  }

  function SentOn(es: seq<Event>, c: nat): seq<Call> {
    if es == [] then []
    else (if es[0].Send? && es[0].conn == c then [es[0].call] else []) + SentOn(es[1..], c)
  }

  lemma {:induction false} LoggedPush(log: seq<Entry>, e: Entry, c: nat)
    ensures Logged(log + [e], c) == Logged(log, c) + if e.conn == c then [e.call] else []
  {
    assert (log + [e])[..|log|] == log;
  }

  /** What a client's step does to the requests in flight. */
  lemma {:induction false} ClientAsked<W(!new)>(lib: Lib<W>, s: State<W>, e: Event)
    requires Contract(lib) && Enabled(s, e) && !e.Serve?
    ensures var s' := After(lib, s, e);
      && s'.log == s.log && s'.conns == s.conns[e.conn := s'.conns[e.conn]]
      && s'.conns[e.conn].asked == if e.Send? then s.conns[e.conn].asked + [e.call] else s.conns[e.conn].asked
  {
    hide Contract, FrameBytes, ParseFrame, TokBytes, LeafTok16, Answer, Opcode, RequestItems, InRange;
  }

  lemma {:induction false} SentNow(e: Event, c: nat)
    ensures SentOn([e], c) == if e.Send? && e.conn == c then [e.call] else []
  {
    assert [e][1..] == [] && SentOn([], c) == [];
  }

  /** What was logged for a connection and what is in flight on it. */
  function Accounted<W>(s: State<W>, c: nat): seq<Call>
    requires c in s.conns
  {
    Logged(s.log, c) + s.conns[c].asked
  }

  /** What the server's step does to the log and to the requests in flight. */
  lemma {:induction false} ServeAsked<W(!new)>(lib: Lib<W>, s0: Server<W>, s: State<W>, d: nat)
    requires Contract(lib) && Inv(lib, s0, s) && d in s.conns && Enabled(s, Serve(d))
    ensures var s', asked := After(lib, s, Serve(d)), s.conns[d].asked;
      && asked != [] && s'.log == s.log + [Entry(d, asked[0])]
      && s'.conns == s.conns[d := s'.conns[d]] && s'.conns[d].asked == asked[1..]
  {
    hide ConnOk, RemoteRun, Results, Valid, InRange, Serving;
    ServeConn(lib, s0, s, d);
    ServeTouches(lib, s, d);
    hide Inv, Contract, Enabled, After;
  }

  lemma {:induction false} FirstLogged(logged: seq<Call>, asked: seq<Call>)
    requires asked != []
    ensures (logged + [asked[0]]) + asked[1..] == logged + asked
  {
  }

  lemma {:induction false} ServeAccounts<W(!new)>(lib: Lib<W>, s0: Server<W>, s: State<W>, d: nat, c: nat)
    requires Contract(lib) && Inv(lib, s0, s) && d in s.conns && Enabled(s, Serve(d)) && c in s.conns
    ensures c in After(lib, s, Serve(d)).conns && Accounted(After(lib, s, Serve(d)), c) == Accounted(s, c)
  {
    hide Inv, Contract, Enabled, After;
    ServeAsked(lib, s0, s, d);
    var asked := s.conns[d].asked;
    LoggedPush(s.log, Entry(d, asked[0]), c);
    FirstLogged(Logged(s.log, d), asked);
    hide Logged;
  }

  lemma {:induction false} ClientAccounts<W(!new)>(lib: Lib<W>, s: State<W>, e: Event, c: nat)
    requires Contract(lib) && Enabled(s, e) && !e.Serve? && c in s.conns
    ensures c in After(lib, s, e).conns
    ensures Accounted(After(lib, s, e), c) == Accounted(s, c) + if e.Send? && e.conn == c then [e.call] else []
  {
    ClientAsked(lib, s, e);
    hide Contract, Enabled, After, Logged;
  }

  /** One step: what was logged and what is in flight grow together by what is sent. */
  lemma {:induction false} StepAccounts<W(!new)>(lib: Lib<W>, s0: Server<W>, s: State<W>, e: Event, c: nat)
    requires Contract(lib) && Inv(lib, s0, s) && Enabled(s, e) && c in s.conns
    ensures c in After(lib, s, e).conns && Accounted(After(lib, s, e), c) == Accounted(s, c) + SentOn([e], c)
  {
    SentNow(e, c);
    assert e.conn in s.conns;
    hide Inv, Contract, Enabled, After, SentOn, Accounted;
    if e.Serve? {
      ServeAccounts(lib, s0, s, e.conn, c);
    } else {
      ClientAccounts(lib, s, e, c);
    }
  }

  lemma {:induction false} SentLater(es: seq<Event>, c: nat)
    requires es != []
    ensures SentOn(es, c) == SentOn([es[0]], c) + SentOn(es[1..], c)
  {
    SentNow(es[0], c);
  }

  lemma {:induction false} RunFirst<W(!new)>(lib: Lib<W>, s: State<W>, es: seq<Event>)
    requires Contract(lib) && Possible(lib, s, es) && es != []
    ensures Enabled(s, es[0]) && Possible(lib, After(lib, s, es[0]), es[1..])
    ensures Reached(lib, s, es) == Reached(lib, After(lib, s, es[0]), es[1..])
  {
    hide After, Enabled, Contract;
  }

  lemma {:induction false} RunAccounts<W(!new)>(lib: Lib<W>, s0: Server<W>, s: State<W>, es: seq<Event>, c: nat)
    requires Contract(lib) && Inv(lib, s0, s) && Possible(lib, s, es) && c in s.conns
    ensures c in Reached(lib, s, es).conns && Accounted(Reached(lib, s, es), c) == Accounted(s, c) + SentOn(es, c)
    decreases |es|
  {
    if es == [] {
      assert Reached(lib, s, es) == s && SentOn(es, c) == [];
      hide *;
      assert Accounted(s, c) + [] == Accounted(s, c);
    } else {
      hide Inv, After, Enabled, Contract, SentOn, Possible, Reached, Accounted;
      RunFirst(lib, s, es);
      var s' := After(lib, s, es[0]);
      StepAccounts(lib, s0, s, es[0], c);
      StepKeeps(lib, s0, s, es[0]);
      SentLater(es, c);
      RunAccounts(lib, s0, s', es[1..], c);
      Associates(Accounted(s, c), SentOn([es[0]], c), SentOn(es[1..], c));
    }
  }

  /** The assumptions can be met. */
  lemma {:induction false} AssumptionsCanBeMet(fd: i32)
    ensures Contract(ExampleLib())
    ensures Valid(ExampleLib(), Server({}, [])) && Valid(ExampleLib(), Server({fd}, [UsbHandle(fd, 0)]))
  {
    ContractCanBeMet();
    hide Contract;
  }

  // ---- end to end -----------------------------------------------------------------------------

  /** Every request sent on a connection is served once, in the order of sending: the calls logged for the
      connection, and then those still in flight, are exactly the calls sent on it. */
  lemma {:induction false} ServedOnce<W(!new)>(lib: Lib<W>, s0: Server<W>, s: State<W>, es: seq<Event>, c: nat)
    requires Contract(lib) && Initial(lib, s0, s) && Possible(lib, s, es) && c in s.conns
    ensures var r := Reached(lib, s, es); c in r.conns && Logged(r.log, c) + r.conns[c].asked == SentOn(es, c)
  {
    hide Reached, Possible, Contract, Inv, SentOn;
    InitialOk(lib, s0, s);
    RunAccounts(lib, s0, s, es, c);
    assert Unused(s.conns[c]) && Logged([], c) == [] && Accounted(s, c) == [];
    hide Logged, Initial;
    assert [] + SentOn(es, c) == SentOn(es, c);
  }

  lemma {:induction false} FinishedOk(n: Conn, c: nat, t: nat, log: seq<Entry>, results: seq<Result>)
    requires ConnOk(n, c, log, results) && PhaseOf(n, t).Finished? && !PhaseOf(n, t).call.Init?
    ensures n.asked == []
    ensures var p := PhaseOf(n, t); Served(c, p.call, p.since, p.at, p.result, log, results)
  {
    hide Requests, Served, InRange, Quiet, Asked, Replied, Built, Answer, Opcode;
  }

  /** The result of a finished call stands in the log, between the sending of its request and its reply. */
  lemma {:induction false} FinishedIsLogged<W(!new)>(lib: Lib<W>, s0: Server<W>, s: State<W>, c: nat, t: nat)
    requires Contract(lib) && Inv(lib, s0, s) && c in s.conns
    requires PhaseOf(s.conns[c], t).Finished? && !PhaseOf(s.conns[c], t).call.Init?
    ensures s.conns[c].asked == []
    ensures var p := PhaseOf(s.conns[c], t);
      Served(c, p.call, p.since, p.at, p.result, s.log, Results(lib, s0, s.log))
  {
    hide ConnOk, Served, Results, Contract, Valid, RemoteRun;
    assert ConnOk(s.conns[c], c, s.log, Results(lib, s0, s.log));
    FinishedOk(s.conns[c], c, t, s.log, Results(lib, s0, s.log));
  }

  /** In every interleaving of any number of connections and threads, the calls take effect one at a time
      in the order of the log, and the server is where the same calls made one after the other would have
      left it: with the world and the handles of the simple machine. A finished call stands in the log at a
      point between its request and its reply, as the last call served on its connection, and returned what
      the run returns there; that is what the simple machine returns there exactly when the result fits its
      reply. All results of the log are those of the simple machine exactly when all fit. */
  lemma {:induction false} CallsAreAtomic<W(!new)>(lib: Lib<W>, s0: Server<W>, s: State<W>, es: seq<Event>)
    requires Contract(lib) && Initial(lib, s0, s) && Possible(lib, s, es)
    ensures var r := Reached(lib, s, es);
      var calls := CallsOf(r.log);
      var (server, results) := RemoteRun(lib, s0, calls);
      var (l, expected) := LocalRun(lib, Abs(s0), calls);
      && r.server == server && Abs(server) == l && |results| == |expected| == |calls| == |r.log|
      && (results == expected <==> ExactRun(lib, s0, calls))
      && forall c, t: nat | c in r.conns && PhaseOf(r.conns[c], t).Finished? ::
           var p := PhaseOf(r.conns[c], t);
           p.call.Init? || (
             && p.since <= p.at < |r.log| && r.log[p.at] == Entry(c, p.call)
             && (forall k | p.at < k < |r.log| :: r.log[k].conn != c)
             && p.result == results[p.at]
             && (p.result == expected[p.at] <==> Exact(lib, RemoteRun(lib, s0, calls[..p.at]).0, p.call)))
  {
    InitialOk(lib, s0, s);
    RunKeeps(lib, s0, s, es);
    var r := Reached(lib, s, es);
    var calls := CallsOf(r.log);
    assert forall call <- calls :: InRange(call);
    hide Possible, Initial, Reached, ConnOk;
    assert Valid(lib, s0);
    RemoteRefinesLocal(lib, s0, calls);
    forall c, t: nat | c in r.conns && PhaseOf(r.conns[c], t).Finished? && !PhaseOf(r.conns[c], t).call.Init?
      ensures var p := PhaseOf(r.conns[c], t);
        && Served(c, p.call, p.since, p.at, p.result, r.log, Results(lib, s0, r.log))
        && (p.result == LocalRun(lib, Abs(s0), calls).1[p.at] <==>
              Exact(lib, RemoteRun(lib, s0, calls[..p.at]).0, p.call))
    {
      FinishedIsLogged(lib, s0, r, c, t);
      ResultAt(lib, s0, calls, PhaseOf(r.conns[c], t).at);
    }
  }
}

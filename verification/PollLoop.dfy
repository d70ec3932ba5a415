/** src/server/serversocket.cpp: one pass of the event loop over the client vector, which is erased from
    while it is walked, with a restart after every erasure. */
module PollLoop {
  import opened Bytes

  /** `struct pollfd` after `poll`: the descriptor and the two events looked at. */
  datatype PollFd = PollFd(fd: int, pollIn: bool, pollHup: bool)

  /** One call of `read` and whether it succeeded. */
  datatype ReadCall = ReadCall(fd: int, ok: bool)

  ghost predicate DistinctFds(s: seq<PollFd>) {
    forall i, j | 0 <= i < j < |s| :: s[i].fd != s[j].fd
  }

  /** The entry is neither reported nor found disconnected. */
  predicate Survives(e: PollFd, log: seq<ReadCall>) {
    !e.pollHup && ReadCall(e.fd, false) !in log
  }

  /** The entries of `s` that survive, in order. */
  function Survivors(s: seq<PollFd>, log: seq<ReadCall>): seq<PollFd> {
    if s == [] then []
    else (if Survives(s[0], log) then [s[0]] else []) + Survivors(s[1..], log)
  }

  lemma {:induction false} SurvivorsAll(s: seq<PollFd>, log: seq<ReadCall>)
    requires forall e <- s :: Survives(e, log)
    ensures Survivors(s, log) == s
  {
    if s != [] {
      assert s[0] in s;
      SurvivorsAll(s[1..], log);
    }
  }

  lemma {:induction false} SurvivorsStep(s: seq<PollFd>, log: seq<ReadCall>)
    requires s != []
    ensures Survivors(s, log) == (if Survives(s[0], log) then [s[0]] else []) + Survivors(s[1..], log)
  {
  }

  lemma {:induction false} SurvivorsAppend(a: seq<PollFd>, b: seq<PollFd>, log: seq<ReadCall>)
    ensures Survivors(a + b, log) == Survivors(a, log) + Survivors(b, log)
  {
    hide Survives;
    if a == [] {
      assert a + b == b;
    } else {
      assert (a + b)[0] == a[0] && (a + b)[1..] == a[1..] + b;
      SurvivorsAppend(a[1..], b, log);
      SurvivorsStep(a, log);
      SurvivorsStep(a + b, log);
      hide Survivors;
    }
  }

  lemma {:induction false} SurvivorsAre(s: seq<PollFd>, log: seq<ReadCall>)
    ensures forall e :: e in Survivors(s, log) <==> e in s && !e.pollHup && ReadCall(e.fd, false) !in log
  {
    if s != [] {
      SurvivorsAre(s[1..], log);
      assert s == [s[0]] + s[1..];
    }
  }

  /** Erasing an entry that does not survive leaves the same survivors. */
  lemma {:induction false} SurvivorsErase(s: seq<PollFd>, i: nat, log: seq<ReadCall>)
    requires i < |s| && !Survives(s[i], log)
    ensures Survivors(RemoveAt(s, i), log) == Survivors(s, log)
  {
    assert s == s[..i] + ([s[i]] + s[i + 1..]);
    assert ([s[i]] + s[i + 1..])[1..] == s[i + 1..];
    SurvivorsAppend(s[..i], [s[i]] + s[i + 1..], log);
    SurvivorsAppend(s[..i], s[i + 1..], log);
  }

  /** A read that succeeds changes no one's fate. */
  lemma {:induction false} SurvivorsAfterRead(s: seq<PollFd>, log: seq<ReadCall>, fd: int)
    ensures Survivors(s, log + [ReadCall(fd, true)]) == Survivors(s, log)
  {
    if s != [] {
      SurvivorsAfterRead(s[1..], log, fd);
    }
  }

  function Without(s: seq<PollFd>, fd: int): seq<PollFd> {
    if s == [] then [] else (if s[0].fd == fd then [] else [s[0]]) + Without(s[1..], fd)
  }

  /** A read that fails removes its descriptor from the survivors. */
  lemma {:induction false} SurvivorsAfterFailure(s: seq<PollFd>, log: seq<ReadCall>, fd: int)
    ensures Survivors(s, log + [ReadCall(fd, false)]) == Without(Survivors(s, log), fd)
  {
    if s != [] {
      SurvivorsAfterFailure(s[1..], log, fd);
      var rest := Survivors(s[1..], log);
      if Survives(s[0], log) {
        assert ([s[0]] + rest)[1..] == rest;
      } else {
        assert [] + rest == rest;
      }
    }
  }

  /** An entry that the pass has left behind. */
  predicate Passed(e: PollFd, listener: PollFd, log: seq<ReadCall>) {
    !e.pollHup && (e.pollIn && e != listener ==> ReadCall(e.fd, true) in log)
  }

  lemma {:induction false} SurvivorsBoth(a: seq<PollFd>, b: seq<PollFd>, log: seq<ReadCall>, fd: int)
    requires Survivors(a, log) == Survivors(b, log)
    ensures Survivors(a, log + [ReadCall(fd, true)]) == Survivors(b, log + [ReadCall(fd, true)])
  {
    SurvivorsAfterRead(a, log, fd);
    SurvivorsAfterRead(b, log, fd);
  }

  lemma {:induction false} FailureBoth(a: seq<PollFd>, b: seq<PollFd>, log: seq<ReadCall>, fd: int)
    requires Survivors(a, log) == Survivors(b, log)
    ensures Survivors(a, log + [ReadCall(fd, false)]) == Survivors(b, log + [ReadCall(fd, false)])
  {
    SurvivorsAfterFailure(a, log, fd);
    SurvivorsAfterFailure(b, log, fd);
  }

  /** Some entry with this descriptor has data. */
  predicate Ready(s: seq<PollFd>, fd: int) { exists e <- s :: e.fd == fd && e.pollIn }

  lemma {:induction false} ReadyWith(s: seq<PollFd>, e: PollFd)
    requires e in s && e.pollIn
    ensures Ready(s, e.fd)
  {
  }

  /** The entry has been read, if it is a client and had data. */
  predicate Heard(e: PollFd, self: int, log: seq<ReadCall>) {
    e.pollIn && e.fd != self ==> exists r <- log :: r.fd == e.fd
  }

  lemma {:induction false} HeardMore(e: PollFd, self: int, log: seq<ReadCall>, r: ReadCall)
    ensures Heard(e, self, log) ==> Heard(e, self, log + [r])
    ensures r.fd == e.fd ==> Heard(e, self, log + [r])
  {
    assert r in log + [r] && forall x <- log :: x in log + [r];
  }

  lemma {:induction false} AllHeardMore(s: seq<PollFd>, left: seq<PollFd>, self: int, log: seq<ReadCall>, r: ReadCall)
    requires forall e <- s :: e in left || Heard(e, self, log)
    ensures forall e <- s :: e in left || Heard(e, self, log + [r])
  {
    forall e | e in s && e !in left ensures Heard(e, self, log + [r]) { HeardMore(e, self, log, r); }
  }

  lemma {:induction false} ErasedKeeps(s: seq<PollFd>, i: nat)
    requires 0 < i < |s| && DistinctFds(s)
    ensures |RemoveAt(s, i)| == |s| - 1 && RemoveAt(s, i)[0] == s[0] && DistinctFds(RemoveAt(s, i))
    ensures forall e <- RemoveAt(s, i) :: e in s && e.fd != s[i].fd
    ensures forall e <- s :: e == s[i] || e in RemoveAt(s, i)
  {
  }

  lemma {:induction false} ListenerFirst(s: seq<PollFd>, i: nat)
    requires i < |s| && DistinctFds(s)
    ensures s[i].fd == s[0].fd <==> i == 0
  {
  }

  lemma {:induction false} NothingToRead(e: PollFd, self: int, log: seq<ReadCall>)
    ensures !e.pollIn || e.fd == self ==> Heard(e, self, log)
  {
  }

  lemma {:induction false} HeardByRead(s: seq<PollFd>, k: nat, self: int, log: seq<ReadCall>, r: ReadCall)
    requires k < |s| && r.fd == s[k].fd && forall i | 0 <= i < k :: Heard(s[i], self, log)
    ensures forall i | 0 <= i <= k :: Heard(s[i], self, log + [r])
  {
    forall i | 0 <= i <= k ensures Heard(s[i], self, log + [r]) { HeardMore(s[i], self, log, r); }
  }

  /** What `poll` reports for each descriptor: data, and a hang-up. */
  function Polled(s: seq<PollFd>, events: int -> (bool, bool)): (r: seq<PollFd>)
    ensures |r| == |s|
    ensures forall i | 0 <= i < |s| :: r[i] == PollFd(s[i].fd, events(s[i].fd).0, events(s[i].fd).1)
  {
    seq(|s|, i requires 0 <= i < |s| => PollFd(s[i].fd, events(s[i].fd).0, events(s[i].fd).1))
  }

  lemma {:induction false} PolledHolds(s: seq<PollFd>, events: int -> (bool, bool))
    ensures forall e <- s :: PollFd(e.fd, events(e.fd).0, events(e.fd).1) in Polled(s, events)
  {
    forall e | e in s ensures PollFd(e.fd, events(e.fd).0, events(e.fd).1) in Polled(s, events) {
      var i :| 0 <= i < |s| && s[i] == e;
      assert Polled(s, events)[i] == PollFd(e.fd, events(e.fd).0, events(e.fd).1);
    }
  }

  lemma {:induction false} SurvivorsIn(s: seq<PollFd>, log: seq<ReadCall>)
    ensures forall e <- Survivors(s, log) :: e in s
  {
    hide Survives;
    if s != [] {
      SurvivorsIn(s[1..], log);
      assert forall e <- s[1..] :: e in s;
    }
  }

  lemma {:induction false} DistinctCons(e: PollFd, rest: seq<PollFd>)
    requires DistinctFds(rest) && forall x <- rest :: x.fd != e.fd
    ensures DistinctFds([e] + rest)
  {
  }

  lemma {:induction false} SurvivorsAreIn(s: seq<PollFd>, log: seq<ReadCall>)
    requires DistinctFds(s)
    ensures DistinctFds(Survivors(s, log)) && forall e <- Survivors(s, log) :: e in s
  {
    SurvivorsIn(s, log);
    if s != [] {
      assert forall i | 0 <= i < |s| - 1 :: s[1..][i] == s[i + 1];
      SurvivorsAreIn(s[1..], log);
      SurvivorsIn(s[1..], log);
      assert forall e <- s[1..] :: e.fd != s[0].fd;
      DistinctCons(s[0], Survivors(s[1..], log));
      assert [] + Survivors(s[1..], log) == Survivors(s[1..], log);
      hide DistinctFds, Survives;
    }
  }

  /** One round of the event loop: what `poll` reports, how the reads end, and what `accept` returns. */
  datatype Round = Round(events: int -> (bool, bool), readOk: nat -> bool, accepted: int)

  /** The pass over `all` stands at `it` of the entries `s` that are left: the survivors are the same, what
      was passed needs nothing more, and what was erased has been read if it had data. */
  ghost predicate Walking(all: seq<PollFd>, s: seq<PollFd>, log: seq<ReadCall>, it: nat, listener: PollFd) {
    && it <= |s| && s != [] && s[0] == listener && !listener.pollHup && DistinctFds(s)
    && Survivors(s, log) == Survivors(all, log)
    && (forall r <- log :: r.fd != listener.fd && Ready(all, r.fd))
    && (forall e <- s :: e in all && ReadCall(e.fd, false) !in log)
    && (forall e <- all :: e in s || Heard(e, listener.fd, log))
    && forall k | 0 <= k < it :: Passed(s[k], listener, log) && Heard(s[k], listener.fd, log)
  }

  lemma {:induction false} PassedOver(all: seq<PollFd>, s: seq<PollFd>, log: seq<ReadCall>, it: nat, listener: PollFd)
    requires Walking(all, s, log, it, listener) && it < |s| && !s[it].pollHup && (!s[it].pollIn || it == 0)
    ensures Walking(all, s, log, it + 1, listener)
  {
    hide Survivors, Ready, DistinctFds;
    NothingToRead(s[it], listener.fd, log);
    hide Heard;
  }

  /** A client is read: the log grows by its read, and nothing else is lost. */
  lemma {:induction false} ReadHere(all: seq<PollFd>, s: seq<PollFd>, log: seq<ReadCall>, it: nat, listener: PollFd,
                                    ok: bool)
    requires Walking(all, s, log, it, listener) && 0 < it < |s| && s[it].pollIn
    ensures var log' := log + [ReadCall(s[it].fd, ok)];
      && Survivors(s, log') == Survivors(all, log')
      && (forall r <- log' :: r.fd != listener.fd && Ready(all, r.fd))
      && (forall e <- s :: e in all && (e != s[it] || ok ==> ReadCall(e.fd, false) !in log'))
      && (forall e <- all :: e in s || Heard(e, listener.fd, log'))
      && (forall k | 0 <= k < it :: Passed(s[k], listener, log'))
      && (forall k | 0 <= k <= it :: Heard(s[k], listener.fd, log'))
  {
    var e := s[it];
    ListenerFirst(s, it);
    assert e in s;
    ReadyWith(all, e);
    if ok { SurvivorsBoth(all, s, log, e.fd); } else { FailureBoth(all, s, log, e.fd); }
    HeardByRead(s, it, listener.fd, log, ReadCall(e.fd, ok));
    AllHeardMore(all, s, listener.fd, log, ReadCall(e.fd, ok));
    hide Survivors, Ready, Heard;
  }

  lemma {:induction false} ReadAndPassed(all: seq<PollFd>, s: seq<PollFd>, log: seq<ReadCall>, it: nat,
                                         listener: PollFd)
    requires Walking(all, s, log, it, listener) && 0 < it < |s| && s[it].pollIn && !s[it].pollHup
    ensures Walking(all, s, log + [ReadCall(s[it].fd, true)], it + 1, listener)
  {
    hide Survivors, Ready, Heard, DistinctFds;
    ReadHere(all, s, log, it, listener, true);
  }

  lemma {:induction false} EraseHere(all: seq<PollFd>, s: seq<PollFd>, log: seq<ReadCall>, it: nat, listener: PollFd)
    requires 0 < it < |s| && s[0] == listener && !listener.pollHup && DistinctFds(s)
    requires !Survives(s[it], log) && Survivors(s, log) == Survivors(all, log)
    requires forall r <- log :: r.fd != listener.fd && Ready(all, r.fd)
    requires forall e <- s :: e in all && (e != s[it] ==> ReadCall(e.fd, false) !in log)
    requires forall e <- all :: e in s || Heard(e, listener.fd, log)
    requires Heard(s[it], listener.fd, log)
    ensures Walking(all, RemoveAt(s, it), log, 1, listener)
  {
    SurvivorsErase(s, it, log);
    ErasedKeeps(s, it);
    NothingToRead(listener, listener.fd, log);
    hide Survivors, Ready, Heard, RemoveAt, DistinctFds, Survives;
  }

  /** A client that hung up or whose read failed is erased; the walk restarts behind the listener. */
  lemma {:induction false} ErasedAndRestarted(all: seq<PollFd>, s: seq<PollFd>, log: seq<ReadCall>, it: nat,
                                              listener: PollFd, ok: bool)
    requires Walking(all, s, log, it, listener) && 0 < it < |s| && (s[it].pollHup || (s[it].pollIn && !ok))
    ensures Walking(all, RemoveAt(s, it), if s[it].pollIn then log + [ReadCall(s[it].fd, ok)] else log, 1, listener)
  {
    hide Survivors, Ready, Heard, RemoveAt;
    if s[it].pollIn {
      ReadHere(all, s, log, it, listener, ok);
      EraseHere(all, s, log + [ReadCall(s[it].fd, ok)], it, listener);
    } else {
      NothingToRead(s[it], listener.fd, log);
      EraseHere(all, s, log, it, listener);
    }
  }

  lemma {:induction false} WalkBegins(all: seq<PollFd>)
    requires all != [] && DistinctFds(all) && !all[0].pollHup
    ensures Walking(all, all, [], 0, all[0])
  {
  }

  lemma {:induction false} WalkFacts(all: seq<PollFd>, s: seq<PollFd>, log: seq<ReadCall>, it: nat, listener: PollFd)
    requires Walking(all, s, log, it, listener)
    ensures s != [] && s[0] == listener && !listener.pollHup && it <= |s| && DistinctFds(s)
    ensures forall r <- log :: r.fd != listener.fd && Ready(all, r.fd)
    ensures it < |s| ==> (s[it].fd == listener.fd <==> it == 0)
  {
    hide Survivors, Ready, Heard;
  }

  /** At the end of the walk what is left are the survivors, and everything with data has been read. */
  lemma {:induction false} WalkEnds(all: seq<PollFd>, s: seq<PollFd>, log: seq<ReadCall>, listener: PollFd)
    requires Walking(all, s, log, |s|, listener)
    ensures s == Survivors(all, log)
    ensures forall e <- s :: !e.pollHup && (e.pollIn && e != listener ==> ReadCall(e.fd, true) in log)
    ensures forall e <- all :: e.pollIn && e.fd != listener.fd ==> exists r <- log :: r.fd == e.fd
  {
    hide Ready, DistinctFds;
    SurvivorsAll(s, log);
    hide Survivors;
    forall e | e in all && e.pollIn && e.fd != listener.fd ensures exists r <- log :: r.fd == e.fd {
      assert Heard(e, listener.fd, log);
    }
  }

  lemma {:induction false} PolledDistinct(s: seq<PollFd>, events: int -> (bool, bool))
    requires DistinctFds(s)
    ensures DistinctFds(Polled(s, events))
    ensures forall e <- Polled(s, events) :: exists x <- s :: x.fd == e.fd
  {
    forall e | e in Polled(s, events) ensures exists x <- s :: x.fd == e.fd {
      var i :| 0 <= i < |s| && Polled(s, events)[i] == e;
      assert s[i].fd == e.fd;
    }
  }

  /** The survivors of a round and what was accepted in it have distinct descriptors. */
  lemma {:induction false} RoundDistinct(s: seq<PollFd>, events: int -> (bool, bool), log: seq<ReadCall>,
                                         incoming: seq<PollFd>)
    requires DistinctFds(s) && |incoming| <= 1 && forall e <- s, x <- incoming :: e.fd != x.fd
    ensures DistinctFds(Survivors(Polled(s, events), log) + incoming)
  {
    PolledDistinct(s, events);
    SurvivorsAreIn(Polled(s, events), log);
    var left := Survivors(Polled(s, events), log);
    hide Survivors, Polled;
    forall i | incoming != [] && 0 <= i < |left| ensures left[i].fd != incoming[0].fd {
      assert left[i] in left && incoming[0] in incoming;
    }
  }

  class ServerSocket {
    var clients: seq<PollFd>
    var incoming: seq<PollFd>
    var log: seq<ReadCall>

    constructor (self: int)
      ensures clients == [] && incoming == [PollFd(self, false, false)] && log == []
    {
      clients, incoming, log := [], [PollFd(self, false, false)], [];
    }

    /** Accepted sockets join the vector before the next `poll`. */
    method Join()
      modifies this
      ensures clients == old(clients) + old(incoming) && incoming == [] && log == old(log)
    {
      var i := 0;
      while i < |incoming|
        invariant i <= |incoming| && incoming == old(incoming) && log == old(log)
        invariant clients == old(clients) + incoming[..i]
      {
        clients := clients + [incoming[i]];
        i := i + 1;
      }
      incoming := [];
    }

    /** The pass after `poll`. `readOk(k)` is the outcome of the `k`-th read and `accepted` the result of
        `accept`. Afterwards the vector is exactly the entries that survive, in their old order, with
        the listener still in front: the pass ends although every erasure restarts it. Every client that
        had data was read, also one that hung up; no other was, and the listener never. */
    method Pass(readOk: nat -> bool, accepted: int)
      requires clients != [] && DistinctFds(clients) && !clients[0].pollHup && log == []
      modifies this
      ensures clients == Survivors(old(clients), log)
      ensures forall e :: e in clients <==> e in old(clients) && !e.pollHup && ReadCall(e.fd, false) !in log
      ensures clients != [] && clients[0] == old(clients)[0]
      ensures forall e <- clients :: !e.pollHup && (e.pollIn && e != clients[0] ==> ReadCall(e.fd, true) in log)
      ensures forall e <- old(clients) :: e.pollIn && e.fd != old(clients)[0].fd ==> exists r <- log :: r.fd == e.fd
      ensures forall r <- log :: r.fd != clients[0].fd && Ready(old(clients), r.fd)
      ensures forall k | 0 <= k < |log| :: log[k].ok == readOk(k)
      ensures incoming == old(incoming) +
        if clients[0].pollIn && accepted > 0 then [PollFd(accepted, false, false)] else []
    {
      hide Survivors, Ready, RemoveAt, DistinctFds, Walking;
      ghost var all, listener := clients, clients[0];
      WalkBegins(all);
      var it := 0;
      while it < |clients|
        invariant it <= |clients| && Walking(all, clients, log, it, listener)
        invariant clients != [] && clients[0] == listener
        invariant forall r <- log :: r.fd != listener.fd && Ready(all, r.fd)
        invariant forall k | 0 <= k < |log| :: log[k].ok == readOk(k)
        invariant incoming == old(incoming) +
          if it > 0 && listener.pollIn && accepted > 0 then [PollFd(accepted, false, false)] else []
        decreases |clients|, |clients| - it
      {
        var e := clients[it];
        var hup, ok := e.pollHup, true;
        ghost var before := log;
        WalkFacts(all, clients, log, it, listener);
        if e.pollIn {
          if e.fd == clients[0].fd {
            if accepted > 0 { incoming := incoming + [PollFd(accepted, false, false)]; }
          } else {
            ok := readOk(|log|);
            if !ok { hup := true; }
            log := log + [ReadCall(e.fd, ok)];
          }
        }
        if hup {
          ErasedAndRestarted(all, clients, before, it, listener, ok);
          assert |RemoveAt(clients, it)| == |clients| - 1 by { ErasedKeeps(clients, it); }
          clients := RemoveAt(clients, it);
          it := 0;
        } else if it > 0 && e.pollIn {
          ReadAndPassed(all, clients, before, it, listener);
        } else {
          PassedOver(all, clients, before, it, listener);
        }
        it := it + 1;
        WalkFacts(all, clients, log, it, listener);
      }
      WalkEnds(all, clients, log, listener);
      SurvivorsAre(all, log);
    }

    /** The listener `self` is in front and no descriptor occurs twice, counting those about to join. */
    ghost predicate Running(self: int)
      reads this
    {
      var all := clients + incoming;
      all != [] && all[0].fd == self && DistinctFds(all)
    }

    /** One round: join, poll, pass. The listener stays in front and descriptors stay distinct, so the next
        round can follow. */
    method Turn(self: int, r: Round)
      requires Running(self) && !r.events(self).1
      requires r.accepted > 0 ==> forall e <- clients + incoming :: e.fd != r.accepted
      modifies this
      ensures Running(self) && clients != []
      ensures clients == Survivors(Polled(old(clients + incoming), r.events), log)
      ensures forall e <- clients :: !e.pollHup && (e.pollIn && e.fd != self ==> ReadCall(e.fd, true) in log)
      ensures forall e <- old(clients + incoming) ::
        r.events(e.fd).0 && e.fd != self ==> exists call <- log :: call.fd == e.fd
      ensures incoming == if r.events(self).0 && r.accepted > 0 then [PollFd(r.accepted, false, false)] else []
    {
      Join();
      ghost var all := clients;
      clients := Polled(clients, r.events);
      PolledHolds(all, r.events);
      PolledDistinct(all, r.events);
      log := [];
      hide Survivors, Polled, DistinctFds, Ready;
      Pass(r.readOk, r.accepted);
      RoundDistinct(all, r.events, log, incoming);
    }
  }

  /** The listener, or accepted in one of the rounds. */
  predicate Known(fd: int, self: int, rounds: seq<Round>) {
    fd == self || exists i | 0 <= i < |rounds| :: rounds[i].accepted == fd && fd > 0
  }

  predicate AllKnown(s: seq<PollFd>, self: int, rounds: seq<Round>) { forall e <- s :: Known(e.fd, self, rounds) }

  lemma {:induction false} NotKnown(self: int, rounds: seq<Round>, k: nat, s: seq<PollFd>)
    requires k < |rounds| && rounds[k].accepted != self && AllKnown(s, self, rounds[..k])
    requires forall i, j | 0 <= i < j < |rounds| :: rounds[i].accepted > 0 ==> rounds[i].accepted != rounds[j].accepted
    ensures forall e <- s :: e.fd != rounds[k].accepted
  {
    forall e | e in s ensures e.fd != rounds[k].accepted { assert Known(e.fd, self, rounds[..k]); }
  }

  lemma {:induction false} KnownMore(before: seq<PollFd>, self: int, rounds: seq<Round>, k: nat, log: seq<ReadCall>,
                                     incoming: seq<PollFd>)
    requires k < |rounds| && AllKnown(before, self, rounds[..k])
    requires forall e <- incoming :: e.fd == rounds[k].accepted > 0
    ensures AllKnown(Survivors(Polled(before, rounds[k].events), log) + incoming, self, rounds[..k + 1])
  {
    var polled, more := Polled(before, rounds[k].events), rounds[..k + 1];
    SurvivorsIn(polled, log);
    assert more[k] == rounds[k] && forall i | 0 <= i < k :: more[i] == rounds[..k][i];
    forall e | e in Survivors(polled, log) ensures Known(e.fd, self, more) {
      var i :| 0 <= i < |polled| && polled[i] == e;
      assert before[i] in before && Known(before[i].fd, self, rounds[..k]);
    }
    hide Survivors;
  }

  /** Any number of rounds of a server whose listener never hangs up, when `accept` never returns a
      descriptor twice (clients that hang up are not closed): each round finds the vector as the one before
      must leave it. */
  method Run(self: int, rounds: seq<Round>) returns (server: ServerSocket)
    requires forall r <- rounds :: !r.events(self).1 && r.accepted != self
    requires forall i, j | 0 <= i < j < |rounds| :: rounds[i].accepted > 0 ==> rounds[i].accepted != rounds[j].accepted
    ensures server.Running(self) && AllKnown(server.clients + server.incoming, self, rounds)
  {
    server := new ServerSocket(self);
    var k := 0;
    while k < |rounds|
      invariant k <= |rounds| && fresh(server) && server.Running(self)
      invariant AllKnown(server.clients + server.incoming, self, rounds[..k])
    {
      assert rounds[k] in rounds;
      hide AllKnown, Survivors, Polled;
      ghost var before := server.clients + server.incoming;
      NotKnown(self, rounds, k, before);
      server.Turn(self, rounds[k]);
      KnownMore(before, self, rounds, k, server.log, server.incoming);
      k := k + 1;
    }
    assert rounds[..|rounds|] == rounds;
  }
}

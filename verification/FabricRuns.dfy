/**
 Whole runs of the message fabric: what holds after any interleaving of steps, and in which order
 messages arrive.
 */
module FabricRuns {
  import opened Queues
  import opened Fabric

  /** Semaphores 1 .. n-1. */
  ghost function Pool(n: nat): set<nat>
  {
    if n <= 1 then {} else Pool(n - 1) + {n - 1}
  }

  lemma {:induction false} PoolMembers(n: nat)
    ensures forall k :: k in Pool(n) <==> 0 < k < n
  {
    if n > 1 {
      PoolMembers(n - 1);
    }
  }

  /** The region as init leaves it; semaphore 0 belongs to the region's own mutex. */
  ghost function Initial(): State
  {
    State(map[], map[], map[], map[ProcessesHead := []], Pool(MAX_PROCESSES))
  }

  lemma InitialInv()
    ensures Inv(Initial())
  {
    PoolMembers(MAX_PROCESSES);
  }

  /** One step.  Enabled and Step are defined on states that satisfy the invariant; every step leads to another. */
  ghost predicate Moves(s: State, e: Event, t: State)
  {
    Inv(s) && Enabled(s, e) && t == Step(s, e)
  }

  ghost predicate MovesAt(run: seq<State>, trace: seq<Event>, i: nat)
    requires i < |trace| && |run| == |trace| + 1
  {
    Moves(run[i], trace[i], run[i + 1])
  }

  /** An interleaving of steps from the initial region, and the states it goes through. */
  ghost predicate Execution(run: seq<State>, trace: seq<Event>)
  {
    && |run| == |trace| + 1 && run[0] == Initial()
    && forall i {:trigger MovesAt(run, trace, i)} :: 0 <= i < |trace| ==> MovesAt(run, trace, i)
  }

  ghost predicate EndsIn(run: seq<State>, trace: seq<Event>, s: State)
  {
    Execution(run, trace) && run[|trace|] == s
  }

  /** The trace leads from the initial region to `s`. */
  ghost predicate Reached(trace: seq<Event>, s: State)
  {
    exists run {:trigger EndsIn(run, trace, s)} :: EndsIn(run, trace, s)
  }

  lemma ExecutionFront(run: seq<State>, trace: seq<Event>)
    requires Execution(run, trace) && trace != []
    ensures var n := |trace| - 1;
            && Execution(run[..n + 1], trace[..n]) && run[..n + 1][n] == run[n]
            && Moves(run[n], trace[n], run[n + 1])
  {
    var n := |trace| - 1;
    assert MovesAt(run, trace, n);
    var run', trace' := run[..n + 1], trace[..n];
    forall i | 0 <= i < n ensures MovesAt(run', trace', i) {
      assert MovesAt(run, trace, i);
    }
  }

  /** The invariant holds at the end of every run, whatever the interleaving. */
  lemma ReachedInv(trace: seq<Event>, s: State)
    requires Reached(trace, s)
    ensures Inv(s)
  {
    var run :| EndsIn(run, trace, s);
    if trace == [] {
      InitialInv();
    } else {
      ExecutionFront(run, trace);
      StepKeepsInv(run[|trace| - 1], trace[|trace| - 1]);
    }
  }

  lemma SameMove(run: seq<State>, trace: seq<Event>, run': seq<State>, trace': seq<Event>, i: nat)
    requires i < |trace| && |run| == |trace| + 1 && MovesAt(run, trace, i)
    requires i < |trace'| && |run'| == |trace'| + 1 && run'[i] == run[i] && run'[i + 1] == run[i + 1] && trace'[i] == trace[i]
    ensures MovesAt(run', trace', i)
  {
  }

  lemma Extend(run: seq<State>, trace: seq<Event>, s: State, e: Event, t: State)
    requires EndsIn(run, trace, s) && Moves(s, e, t)
    ensures EndsIn(run + [t], trace + [e], t)
  {
    var run', trace' := run + [t], trace + [e];
    forall i | 0 <= i < |trace'| ensures MovesAt(run', trace', i) {
      if i < |trace| {
        assert MovesAt(run, trace, i);
        SameMove(run, trace, run', trace', i);
      }
    }
  }

  /** A run can go on with any step that is enabled. */
  lemma Advance(trace: seq<Event>, s: State, e: Event)
    requires Reached(trace, s) && Inv(s) && Enabled(s, e)
    ensures Reached(trace + [e], Step(s, e))
  {
    var run :| EndsIn(run, trace, s);
    Extend(run, trace, s, e, Step(s, e));
  }

  lemma StartReached()
    ensures Reached([], Initial())
  {
    assert EndsIn([Initial()], [], Initial());
  }

  // ---- what was sent and what arrived, read off the trace alone ----

  /** The log of everything put on connection `c` since it was made, after one more event. */
  ghost function Sent1(log: seq<Body>, e: Event, c: int): seq<Body>
  {
    match e
    case Connect(_, _, c1, c2) => if c == c1 || c == c2 then [] else log
    case Put(c1, _, body) => if c == c1 then log + [body] else log
    case Disconnect(_, c1, m) => if c == c1 && m != 0 then log + [Disconnected] else log
    case _ => log
  }

  /** The log of everything received from connection `c` since it was made, after one more event. */
  ghost function Got1(log: seq<Body>, e: Event, c: int): seq<Body>
  {
    match e
    case Connect(_, _, c1, c2) => if c == c1 || c == c2 then [] else log
    case Get(_, _, c1, _, body) => if c == c1 then log + [body] else log
    case _ => log
  }

  ghost function Sent(trace: seq<Event>, c: int): seq<Body>
  {
    if trace == [] then [] else Sent1(Sent(trace[..|trace| - 1], c), trace[|trace| - 1], c)
  }

  ghost function Got(trace: seq<Event>, c: int): seq<Body>
  {
    if trace == [] then [] else Got1(Got(trace[..|trace| - 1], c), trace[|trace| - 1], c)
  }

  ghost predicate OnlyLast(log: seq<Body>)
  {
    forall i :: 0 <= i < |log| - 1 ==> log[i] != Disconnected
  }

  /** What `c` has waiting in its partner's inbox. */
  ghost function Pending(s: State, c: int): seq<Body>
    requires Shape(s) && c in s.connections && s.connections[c].partner in s.processes
  {
    Bodies(s.queue[MessagesHead(s.connections[c].partner)], s.messages, c)
  }

  /** Received is a prefix of sent; while the receiver is open the rest is queued; MSG_disconnect ends the log. */
  ghost predicate Conveys(s: State, c: int, sent: seq<Body>, got: seq<Body>)
    requires Inv(s)
  {
    && got <= sent && OnlyLast(sent)
    && (c in s.connections && s.connections[c].parent != 0 ==> Disconnected !in sent)
    && (c in s.connections && s.connections[c].partner != 0 ==>
          && Paired(s, c) && Paired(s, s.connections[c].mirror)
          && sent == got + Pending(s, c))
  }

  // ---- bodies of queued messages ----

  lemma {:induction false} BodiesAppend(q: Queue, n: Link, msgs: map<int, Message>, c: int)
    ensures Bodies(q + [n], msgs, c) == Bodies(q, msgs, c) + (if From(msgs, n, c) then [msgs[n.m].body] else [])
  {
    if q == [] {
      assert q + [n] == [n] && [n][1..] == [];
    } else {
      BodiesAppend(q[1..], n, msgs, c);
      assert (q + [n])[1..] == q[1..] + [n];
    }
  }

  lemma {:induction false} BodiesFrame(q: Queue, msgs: map<int, Message>, msgs': map<int, Message>, c: int)
    requires forall n :: n in q && n.MessageNode? && n.m in msgs ==> n.m in msgs' && msgs'[n.m] == msgs[n.m]
    requires forall n :: n in q && n.MessageNode? && n.m in msgs' ==> n.m in msgs
    ensures Bodies(q, msgs', c) == Bodies(q, msgs, c)
  {
    if q != [] {
      assert q[0] in q;
      BodiesFrame(q[1..], msgs, msgs', c);
    }
  }

  lemma {:induction false} BodiesPurge(q: Queue, msgs: map<int, Message>, c: int, gone: int)
    requires c != gone
    ensures Bodies(Purge(q, msgs, gone), msgs, c) == Bodies(q, msgs, c)
  {
    if q != [] {
      BodiesPurge(q[1..], msgs, c, gone);
      if !From(msgs, q[0], gone) {
        assert Purge(q, msgs, gone)[1..] == Purge(q[1..], msgs, gone);
      }
    }
  }

  /** Taking out the first message of `c` takes the first body; messages of other connections are not affected. */
  lemma {:induction false} BodiesTake(q: Queue, msgs: map<int, Message>, i: nat, c: int)
    requires i < |q| && NoDup(q) && q[i].MessageNode? && q[i].m in msgs
    requires msgs[q[i].m].connection == c ==> forall j :: 0 <= j < i ==> !From(msgs, q[j], c)
    ensures Bodies(q, msgs, c)
            == (if msgs[q[i].m].connection == c then [msgs[q[i].m].body] else []) + Bodies(Without(q, q[i]), msgs, c)
  {
    if i == 0 {
      assert q[0] !in q[1..];
      WithoutAbsent(q[1..], q[0]);
    } else {
      assert q[0] != q[i];
      BodiesTake(q[1..], msgs, i - 1, c);
      assert Without(q, q[i])[1..] == Without(q[1..], q[i]);
    }
  }

  // ---- each step keeps the order ----

  lemma ConnectConveys(s: State, e: Event, c: int, sent: seq<Body>, got: seq<Body>)
    requires Inv(s) && Enabled(s, e) && e.Connect? && Conveys(s, c, sent, got)
    ensures Inv(Step(s, e)) && Conveys(Step(s, e), c, Sent1(sent, e, c), Got1(got, e, c))
  {
    StepKeepsInv(s, e);
    var t := Step(s, e);
    if c in t.connections && t.connections[c].partner != 0 {
      assert Paired(t, c) && Paired(t, t.connections[c].mirror);
      if c == e.c || c == e.mirror {
        var q := t.queue[MessagesHead(t.connections[c].partner)];
        assert AddressedTo(s, t.connections[c].partner);
        forall n | n in q ensures !From(t.messages, n, c) {
          assert Delivered(s, n, t.connections[c].partner);
        }
        BodiesNone(q, t.messages, c);
      } else {
        assert Paired(s, c);
      }
    }
  }

  lemma {:induction false} BodiesNone(q: Queue, msgs: map<int, Message>, c: int)
    ensures Bodies(q, msgs, c) == [] <==> forall n :: n in q ==> !From(msgs, n, c)
  {
    if q != [] {
      assert q[0] in q;
      BodiesNone(q[1..], msgs, c);
      assert forall n :: n in q <==> n == q[0] || n in q[1..];
    }
  }

  lemma PutConveys(s: State, e: Event, c: int, sent: seq<Body>, got: seq<Body>)
    requires Inv(s) && Enabled(s, e) && e.Put? && Conveys(s, c, sent, got)
    ensures Inv(Step(s, e)) && Conveys(Step(s, e), c, Sent1(sent, e, c), Got1(got, e, c))
  {
    StepKeepsInv(s, e);
    var t := Step(s, e);
    if c in t.connections && t.connections[c].partner != 0 {
      assert Paired(t, c) && Paired(t, t.connections[c].mirror);
      assert Paired(s, c) && Paired(s, s.connections[c].mirror);
      var p := s.connections[c].partner;
      var q := s.queue[MessagesHead(p)];
      assert AddressedTo(s, p);
      assert MessageNode(e.m) !in q;
      BodiesFrame(q, s.messages, t.messages, c);
      BodiesAppend(q, MessageNode(e.m), t.messages, c);
    }
  }

  /** Delivering message `i` of a queue rewrites that message only. */
  lemma TakePending(q: Queue, msgs: map<int, Message>, i: nat, k: int, c: int)
    requires i < |q| && NoDup(q) && q[i].MessageNode? && q[i].m in msgs
    requires msgs[q[i].m].connection == c ==> forall j :: 0 <= j < i ==> !From(msgs, q[j], c)
    ensures var m := msgs[q[i].m];
            Bodies(q, msgs, c) == (if m.connection == c then [m.body] else [])
                                + Bodies(Without(q, q[i]), msgs[q[i].m := Message(k, m.body)], c)
  {
    BodiesTake(q, msgs, i, c);
    WithoutKeeps(q, q[i]);
    BodiesFrame(Without(q, q[i]), msgs, msgs[q[i].m := Message(k, msgs[q[i].m].body)], c);
  }

  /** The oldest message that passes the filter is the oldest of its own connection. */
  lemma OldestOfConnection(s: State, e: Event) returns (i: nat)
    requires Inv(s) && Enabled(s, e) && e.Get?
    ensures var q := s.queue[MessagesHead(e.p)];
            && i < |q| && NoDup(q) && q[i] == MessageNode(e.m)
            && e.c in s.connections && s.connections[e.c].partner == e.p
            && forall j :: 0 <= j < i ==> !From(s.messages, q[j], e.c)
  {
    var q := s.queue[MessagesHead(e.p)];
    assert AddressedTo(s, e.p);
    i :| 0 <= i < |q| && q[i] == MessageNode(e.m) && Matches(s, q[i], e.filter)
         && forall j :: 0 <= j < i ==> !Matches(s, q[j], e.filter);
    assert Delivered(s, q[i], e.p);
    forall j | 0 <= j < i ensures !From(s.messages, q[j], e.c) {
      assert !Matches(s, q[j], e.filter);
    }
  }

  /** What is left pending on a connection of the receiver, or of anybody else. */
  lemma GetPending(s: State, e: Event, c: int, q: Queue, p: int)
    requires Inv(s) && Enabled(s, e) && e.Get? && p in s.processes && q == s.queue[MessagesHead(p)]
    ensures var t := Step(s, e);
            && MessagesHead(p) in t.queue
            && Bodies(q, s.messages, c) == (if p == e.p && e.c == c then [e.body] else []) + Bodies(t.queue[MessagesHead(p)], t.messages, c)
  {
    var i := OldestOfConnection(s, e);
    if p == e.p {
      TakePending(q, s.messages, i, s.connections[e.c].mirror, c);
    } else {
      assert AddressedTo(s, p);
      assert forall n :: n in q ==> Delivered(s, n, p);
      assert MessageNode(e.m) !in q;
      BodiesFrame(q, s.messages, Step(s, e).messages, c);
    }
  }

  /** Delivering from `c` itself takes the oldest message it has pending. */
  lemma GetThis(s: State, e: Event, sent: seq<Body>, got: seq<Body>)
    requires Inv(s) && Enabled(s, e) && e.Get? && Inv(Step(s, e)) && Conveys(s, e.c, sent, got)
    ensures Conveys(Step(s, e), e.c, sent, got + [e.body])
  {
    var t := Step(s, e);
    var i := OldestOfConnection(s, e);
    assert Paired(t, e.c) && Paired(t, t.connections[e.c].mirror);
    GetPending(s, e, e.c, s.queue[MessagesHead(e.p)], e.p);
    assert sent == got + ([e.body] + Pending(t, e.c));
  }

  lemma GetOther(s: State, e: Event, c: int, sent: seq<Body>, got: seq<Body>)
    requires Inv(s) && Enabled(s, e) && e.Get? && Inv(Step(s, e)) && Conveys(s, c, sent, got) && c != e.c
    ensures Conveys(Step(s, e), c, sent, got)
  {
    var t := Step(s, e);
    if c in s.connections && s.connections[c].partner != 0 {
      assert Paired(t, c) && Paired(t, t.connections[c].mirror);
      var p := s.connections[c].partner;
      GetPending(s, e, c, s.queue[MessagesHead(p)], p);
    }
  }

  lemma GetConveys(s: State, e: Event, c: int, sent: seq<Body>, got: seq<Body>)
    requires Inv(s) && Enabled(s, e) && e.Get? && Conveys(s, c, sent, got)
    ensures Inv(Step(s, e)) && Conveys(Step(s, e), c, Sent1(sent, e, c), Got1(got, e, c))
  {
    StepKeepsInv(s, e);
    if c == e.c {
      GetThis(s, e, sent, got);
    } else {
      GetOther(s, e, c, sent, got);
    }
  }

  lemma QuietConveys(s: State, e: Event, c: int, sent: seq<Body>, got: seq<Body>)
    requires Inv(s) && Enabled(s, e) && Conveys(s, c, sent, got)
    requires e.Create? || e.Post? || e.Block? || e.Wake? || e.Die?
    ensures Inv(Step(s, e)) && Conveys(Step(s, e), c, Sent1(sent, e, c), Got1(got, e, c))
  {
    StepKeepsInv(s, e);
    var t := Step(s, e);
    if c in t.connections {
      assert Paired(t, c) && Paired(t, t.connections[c].mirror);
      assert Paired(s, c);
    }
  }

  lemma DropConveys(s: State, e: Event, c: int, sent: seq<Body>, got: seq<Body>)
    requires Inv(s) && Enabled(s, e) && Conveys(s, c, sent, got)
    requires e.Release? || e.Reap?
    ensures Inv(Step(s, e)) && Conveys(Step(s, e), c, Sent1(sent, e, c), Got1(got, e, c))
  {
    StepKeepsInv(s, e);
    var t := Step(s, e);
    if c in t.connections && t.connections[c].partner != 0 {
      assert Paired(t, c) && Paired(t, t.connections[c].mirror);
      assert Paired(s, c);
      var p := s.connections[c].partner;
      if e.Reap? {
        ReapShape(s, e.p);
      } else {
        assert MessageNode(e.m) !in s.queue[MessagesHead(p)];
        BodiesFrame(s.queue[MessagesHead(p)], s.messages, t.messages, c);
      }
    }
  }

  /** Purging the mirror's traffic leaves every other connection's pending messages as they were. */
  lemma DetachedPending(s: State, p: int, c: int, k: int)
    requires Inv(s) && p in s.processes && c in s.connections && s.connections[c].parent == p
    requires k in s.connections && s.connections[k].partner in s.processes && k != s.connections[c].mirror
    ensures var d, r := Detach(s, p, c), s.connections[k].partner;
            MessagesHead(r) in d.queue && Bodies(d.queue[MessagesHead(r)], d.messages, k) == Pending(s, k)
  {
    var d, r, mirror := Detach(s, p, c), s.connections[k].partner, s.connections[c].mirror;
    DetachedInbox(s, p, c, r);
    var q := d.queue[MessagesHead(r)];
    BodiesFrame(q, s.messages, d.messages, k);
    if r == p {
      BodiesPurge(s.queue[MessagesHead(p)], s.messages, k, mirror);
    }
  }

  /** A new message adds its body to its own connection, wherever it is put. */
  lemma BodiesDeposit(q: Queue, msgs: map<int, Message>, m: int, new_: Message, c: int)
    requires m !in msgs && forall n :: n in q ==> n.MessageNode? && n.m in msgs
    ensures Bodies(q, msgs[m := new_], c) == Bodies(q, msgs, c)
    ensures Bodies(q + [MessageNode(m)], msgs[m := new_], c) == Bodies(q, msgs, c) + (if new_.connection == c then [new_.body] else [])
  {
    BodiesFrame(q, msgs, msgs[m := new_], c);
    BodiesAppend(q, MessageNode(m), msgs[m := new_], c);
  }

  /** Closing one side adds MSG_disconnect to what that side has pending and changes nobody else's. */
  lemma HalfClosePending(s: State, e: Event, c: int)
    requires Inv(s) && Enabled(s, e) && e.Disconnect? && e.m != 0 && Inv(Step(s, e))
    requires c in s.connections && s.connections[c].partner != 0 && c != s.connections[e.c].mirror
    ensures var t := Step(s, e);
            && Paired(s, c) && Paired(s, s.connections[c].mirror)
            && c in t.connections && t.connections[c].partner == s.connections[c].partner && t.connections[c].partner in t.processes
            && Pending(t, c) == Pending(s, c) + (if c == e.c then [Disconnected] else [])
  {
    var t, d := Step(s, e), Detach(s, e.p, e.c);
    assert Paired(s, e.c) && Paired(s, s.connections[e.c].mirror);
    assert Paired(s, c) && Paired(s, s.connections[c].mirror);
    var p := s.connections[c].partner;
    DetachedPending(s, e.p, e.c, c);
    DetachedInbox(s, e.p, e.c, p);
    BodiesDeposit(d.queue[MessagesHead(p)], d.messages, e.m, Message(e.c, Disconnected), c);
  }

  /** Every side but the mirror's keeps what it has pending, and the closing one adds MSG_disconnect. */
  lemma HalfCloseOpen(s: State, e: Event, c: int, sent: seq<Body>, got: seq<Body>)
    requires Inv(s) && Enabled(s, e) && e.Disconnect? && e.m != 0 && Inv(Step(s, e)) && Conveys(s, c, sent, got)
    requires c in s.connections && s.connections[c].partner != 0 && c != s.connections[e.c].mirror
    ensures Conveys(Step(s, e), c, Sent1(sent, e, c), got)
  {
    var t := Step(s, e);
    assert Paired(s, e.c);
    HalfClosePending(s, e, c);
    assert Paired(t, c) && Paired(t, t.connections[c].mirror);
    assert sent + [Disconnected] == got + (Pending(s, c) + [Disconnected]);
  }

  lemma HalfCloseConveys(s: State, e: Event, c: int, sent: seq<Body>, got: seq<Body>)
    requires Inv(s) && Enabled(s, e) && e.Disconnect? && e.m != 0 && Inv(Step(s, e)) && Conveys(s, c, sent, got)
    ensures Conveys(Step(s, e), c, Sent1(sent, e, c), Got1(got, e, c))
  {
    assert Paired(s, e.c);
    if c in s.connections && s.connections[c].partner != 0 && c != s.connections[e.c].mirror {
      HalfCloseOpen(s, e, c, sent, got);
    }
  }

  lemma FullCloseConveys(s: State, e: Event, c: int, sent: seq<Body>, got: seq<Body>)
    requires Inv(s) && Enabled(s, e) && e.Disconnect? && e.m == 0 && Inv(Step(s, e)) && Conveys(s, c, sent, got)
    ensures Conveys(Step(s, e), c, Sent1(sent, e, c), Got1(got, e, c))
  {
    var t := Step(s, e);
    if c in t.connections && t.connections[c].partner != 0 {
      assert Paired(s, c) && Paired(s, s.connections[c].mirror);
      DetachedPending(s, e.p, e.c, c);
      assert Paired(t, c) && Paired(t, t.connections[c].mirror);
    }
  }

  lemma StepConveys(s: State, e: Event, c: int, sent: seq<Body>, got: seq<Body>)
    requires Inv(s) && Enabled(s, e) && Conveys(s, c, sent, got)
    ensures Inv(Step(s, e)) && Conveys(Step(s, e), c, Sent1(sent, e, c), Got1(got, e, c))
  {
    match e
    case Connect(_, _, _, _) => ConnectConveys(s, e, c, sent, got);
    case Put(_, _, _) => PutConveys(s, e, c, sent, got);
    case Get(_, _, _, _, _) => GetConveys(s, e, c, sent, got);
    case Disconnect(_, _, m) =>
      StepKeepsInv(s, e);
      if m != 0 {
        HalfCloseConveys(s, e, c, sent, got);
      } else {
        FullCloseConveys(s, e, c, sent, got);
      }
    case Release(_) => DropConveys(s, e, c, sent, got);
    case Reap(_) => DropConveys(s, e, c, sent, got);
    case _ => QuietConveys(s, e, c, sent, got);
  }

  // ---- main results about runs ----

  lemma {:induction false} RunConveys(run: seq<State>, trace: seq<Event>, c: int)
    requires Execution(run, trace)
    ensures Inv(run[|trace|]) && Conveys(run[|trace|], c, Sent(trace, c), Got(trace, c))
    decreases |trace|
  {
    if trace == [] {
      InitialInv();
    } else {
      var n := |trace| - 1;
      ExecutionFront(run, trace);
      RunConveys(run[..n + 1], trace[..n], c);
      StepConveys(run[n], trace[n], c, Sent(trace[..n], c), Got(trace[..n], c));
    }
  }

  /**
   In every run from the initial region, and for every connection: the messages received from it are, in
   order and without gaps or repeats, a prefix of those put on it; while the receiver is open nothing is
   lost; and MSG_disconnect can only be the last message, sent or received.
   */
  lemma InOrderDelivery(trace: seq<Event>, t: State, c: int)
    requires Reached(trace, t)
    ensures var sent, got := Sent(trace, c), Got(trace, c);
            && got <= sent && OnlyLast(sent) && OnlyLast(got)
            && (c in t.connections && t.connections[c].parent != 0 ==> Disconnected !in sent)
            && (c in t.connections && t.connections[c].partner != 0 ==>
                  && Shape(t) && t.connections[c].partner in t.processes && sent == got + Pending(t, c))
  {
    var run :| EndsIn(run, trace, t);
    RunConveys(run, trace, c);
  }

  /** `z` is about to post `p`, and that wakes `p`. */
  ghost predicate PostWakes(s: State, z: int, p: int)
    requires Inv(s)
  {
    && z in s.processes && s.processes[z].wait == Posting(p)
    && Enabled(s, Post(z)) && Inv(Step(s, Post(z))) && Enabled(Step(s, Post(z)), Wake(p))
  }

  /** `z` is dead; closing its side `c`, with any block for the message, wakes `p`. */
  ghost predicate ClosingWakes(s: State, z: int, c: int, p: int)
    requires Inv(s)
  {
    && z in s.processes && s.processes[z].wait.Dead?
    && c in s.connections && s.connections[c].parent == z && s.connections[c].partner == p != 0
    && MessagesHead(z) in s.queue && ConnectionsHead(z) in s.queue
    && forall m :: Fresh(Detach(s, z, c), m) ==>
         var e := Disconnect(z, c, m);
         Enabled(s, e) && Inv(Step(s, e)) && Enabled(Step(s, e), Wake(p))
  }

  /** Disconnect posts the partner's event before it releases the region. */
  lemma DisconnectWakes(s: State, z: int, c: int, p: int)
    requires Inv(s) && z in s.processes && s.processes[z].wait.Dead?
    requires c in s.connections && s.connections[c].parent == z && s.connections[c].partner == p != 0
    requires p in s.processes && s.processes[p].wait.Blocked?
    ensures ClosingWakes(s, z, c, p)
  {
    forall m | Fresh(Detach(s, z, c), m)
      ensures var e := Disconnect(z, c, m); Enabled(s, e) && Inv(Step(s, e)) && Enabled(Step(s, e), Wake(p))
    {
      var e := Disconnect(z, c, m);
      assert Enabled(s, e);
      StepKeepsInv(s, e);
      assert Paired(s, c) && Roused(s, p);
    }
  }

  /**
   After any run, a process blocked in CSS_get_message while a message it waits for is queued can wake; or
   the sender of that message is alive and about to post it; or the sender has died in between, its side is
   still open, and closing it, which is what deleting the sender begins with, wakes the process.
   */
  lemma NoLostWakeUps(trace: seq<Event>, t: State, p: int, n: Link)
    requires Reached(trace, t)
    requires p in t.processes && t.processes[p].wait.Blocked? && MessagesHead(p) in t.queue
    requires n in t.queue[MessagesHead(p)] && Matches(t, n, t.processes[p].wait.filter)
    ensures Inv(t) && (|| Enabled(t, Wake(p))
                       || PostWakes(t, Sender(t, n), p)
                       || ClosingWakes(t, Sender(t, n), t.messages[n.m].connection, p))
  {
    ReachedInv(trace, t);
    assert Roused(t, p) && AddressedTo(t, p) && Delivered(t, n, p);
    if !Enabled(t, Wake(p)) {
      var z := Sender(t, n);
      assert Owed(t, n, p);
      if t.processes[z].wait.Dead? {
        DisconnectWakes(t, z, t.messages[n.m].connection, p);
      } else {
        StepKeepsInv(t, Post(z));
      }
    }
  }

  /** The two blocks of a connection leave the region together, and only when the second side disconnects. */
  lemma FreedTogether(s: State, e: Event, c: int)
    requires Inv(s) && Enabled(s, e) && c in s.connections && c !in Step(s, e).connections
    ensures e.Disconnect? && e.m == 0 && (e.c == c || s.connections[c].mirror == e.c)
    ensures s.connections[e.c].parent == e.p && s.connections[e.c].partner == 0
    ensures s.connections[c].mirror !in Step(s, e).connections
    ensures Step(s, e).connections.Keys == s.connections.Keys - {c, s.connections[c].mirror}
  {
    assert Paired(s, c) && Paired(s, s.connections[c].mirror);
    if e.Disconnect? {
      assert Paired(s, e.c) && Paired(s, s.connections[e.c].mirror);
    }
  }

  /** After any run, nothing in the region names a process that is not there (any more). */
  lemma GoneLeavesNoTrace(trace: seq<Event>, t: State, p: int)
    requires Reached(trace, t) && p != 0 && p !in t.processes
    ensures ConnectionsHead(p) !in t.queue && MessagesHead(p) !in t.queue
    ensures forall h :: h in t.queue ==> ProcessNode(p) !in t.queue[h]
    ensures forall c :: c in t.connections ==> t.connections[c].parent != p && t.connections[c].partner != p
  {
    ReachedInv(trace, t);
    forall h | h in t.queue ensures ProcessNode(p) !in t.queue[h] {
      match h
      case ConnectionsHead(q) => assert OwnedBy(t, q);
      case MessagesHead(q) => assert AddressedTo(t, q); assert ProcessNode(p) in t.queue[h] ==> Delivered(t, ProcessNode(p), q);
      case _ =>
    }
    forall c | c in t.connections ensures t.connections[c].parent != p && t.connections[c].partner != p {
      assert Paired(t, c) && Paired(t, t.connections[c].mirror);
    }
  }

  /** Deleting a process whose connections are closed finds its inbox empty, touches no connection and no
      message, and gives its semaphore back. */
  lemma ReapReturnsEverything(trace: seq<Event>, s: State, p: int)
    requires Reached(trace, s) && Inv(s) && Enabled(s, Reap(p))
    ensures var t := Step(s, Reap(p));
            && s.queue[MessagesHead(p)] == [] && t.messages == s.messages && t.connections == s.connections
            && t.processes == s.processes - {p} && t.semaphores == s.semaphores + {s.processes[p].semaphore}
            && s.processes[p].semaphore !in s.semaphores
            && (forall q :: q in t.processes ==> t.processes[q].semaphore != s.processes[p].semaphore)
            && Reached(trace + [Reap(p)], t)
  {
    NoConnectionsNoMessages(s, p);
    assert Carried([]) == {};
    Advance(trace, s, Reap(p));
  }

  // ---- what a receiver gets ----

  /** `m` is the oldest message from connection `c` in the queue. */
  ghost predicate FirstFrom(q: Queue, msgs: map<int, Message>, c: int, m: int)
  {
    exists i :: 0 <= i < |q| && q[i] == MessageNode(m) && From(msgs, q[i], c) && forall j :: 0 <= j < i ==> !From(msgs, q[j], c)
  }

  lemma {:induction false} FirstBody(q: Queue, msgs: map<int, Message>, c: int) returns (i: nat)
    requires Bodies(q, msgs, c) != []
    ensures i < |q| && From(msgs, q[i], c) && msgs[q[i].m].body == Bodies(q, msgs, c)[0]
    ensures forall j :: 0 <= j < i ==> !From(msgs, q[j], c)
  {
    if From(msgs, q[0], c) {
      i := 0;
    } else {
      var k := FirstBody(q[1..], msgs, c);
      i := k + 1;
    }
  }

  /** The filter a receiver gives is its own side; what passes is what came over the other side, the mirror. */
  lemma MirrorFilter(s: State, p: int, c: int)
    requires Inv(s) && p in s.processes && c in s.connections
    ensures forall n :: n in s.queue[MessagesHead(p)] ==> (Matches(s, n, c) <==> From(s.messages, n, s.connections[c].mirror))
  {
    assert Paired(s, c) && AddressedTo(s, p);
    forall n | n in s.queue[MessagesHead(p)] ensures Matches(s, n, c) <==> From(s.messages, n, s.connections[c].mirror) {
      assert Delivered(s, n, p);
      assert Paired(s, s.messages[n.m].connection);
    }
  }

  /**
   After any run a get that is filtered on the receiver's side `c` can be made exactly while the other side has
   something pending, and then delivers the oldest of it; otherwise, and only then, the receiver may wait
   for it, unless the other side has closed.
   */
  lemma FilteredGet(trace: seq<Event>, t: State, c: int)
    requires Reached(trace, t) && c in t.connections && Runs(t, t.connections[c].parent)
    ensures var p, k := t.connections[c].parent, t.connections[c].mirror;
            && Inv(t) && k in t.connections && t.connections[k].partner == p
            && (Pending(t, k) != [] ==> exists m :: && FirstFrom(t.queue[MessagesHead(p)], t.messages, k, m)
                                                    && Enabled(t, Get(p, c, k, m, Pending(t, k)[0])))
            && (forall k', m, body :: Enabled(t, Get(p, c, k', m, body)) ==>
                  k' == k && FirstFrom(t.queue[MessagesHead(p)], t.messages, k, m) && Pending(t, k) != [] && body == Pending(t, k)[0])
            && (Enabled(t, Block(p, c)) <==> Pending(t, k) == [] && t.connections[c].partner != 0)
  {
    ReachedInv(trace, t);
    var p, k := t.connections[c].parent, t.connections[c].mirror;
    assert Paired(t, c) && Paired(t, k);
    var q := t.queue[MessagesHead(p)];
    MirrorFilter(t, p, c);
    if Pending(t, k) != [] {
      var i := FirstBody(q, t.messages, k);
      assert q[i] in q && Matches(t, q[i], c);
      forall j | 0 <= j < i ensures !Matches(t, q[j], c) {
        assert q[j] in q;
      }
      assert q[i] == MessageNode(q[i].m);
      assert Enabled(t, Get(p, c, k, q[i].m, Pending(t, k)[0]));
    }
    forall k', m, body | Enabled(t, Get(p, c, k', m, body))
      ensures k' == k && FirstFrom(q, t.messages, k, m) && Pending(t, k) != [] && body == Pending(t, k)[0]
    {
      GetsFirst(t, Get(p, c, k', m, body), k);
    }
    BodiesNone(q, t.messages, k);
  }

  /** A filtered get takes the oldest message of the other side. */
  lemma GetsFirst(s: State, e: Event, k: int)
    requires Inv(s) && Enabled(s, e) && e.Get? && e.filter in s.connections && k == s.connections[e.filter].mirror
    ensures e.c == k && FirstFrom(s.queue[MessagesHead(e.p)], s.messages, k, e.m)
    ensures Bodies(s.queue[MessagesHead(e.p)], s.messages, k) != [] && e.body == Bodies(s.queue[MessagesHead(e.p)], s.messages, k)[0]
  {
    var q := s.queue[MessagesHead(e.p)];
    MirrorFilter(s, e.p, e.filter);
    var i :| 0 <= i < |q| && q[i] == MessageNode(e.m) && Matches(s, q[i], e.filter)
             && forall j :: 0 <= j < i ==> !Matches(s, q[j], e.filter);
    assert q[i] in q;
    forall j | 0 <= j < i ensures !From(s.messages, q[j], k) {
      assert q[j] in q;
    }
    FirstIsFirst(q, s.messages, k, i);
  }

  lemma {:induction false} FirstIsFirst(q: Queue, msgs: map<int, Message>, c: int, i: nat)
    requires i < |q| && From(msgs, q[i], c) && forall j :: 0 <= j < i ==> !From(msgs, q[j], c)
    ensures Bodies(q, msgs, c) != [] && Bodies(q, msgs, c)[0] == msgs[q[i].m].body
  {
    if i > 0 {
      FirstIsFirst(q[1..], msgs, c, i - 1);
    }
  }

  /** After any run a get without a filter takes the head of the inbox, and the receiver may wait only if that is empty. */
  lemma OpenGet(trace: seq<Event>, t: State, p: int, k: int, m: int, body: Body)
    requires Reached(trace, t) && Runs(t, p)
    ensures Inv(t)
    ensures var q := t.queue[MessagesHead(p)];
            && (Enabled(t, Get(p, 0, k, m, body)) <==> q != [] && q[0] == MessageNode(m) && m in t.messages && t.messages[m] == Message(k, body))
            && (Enabled(t, Block(p, 0)) <==> q == [])
  {
    ReachedInv(trace, t);
    var q := t.queue[MessagesHead(p)];
    assert AddressedTo(t, p);
    assert forall n :: n in q ==> Delivered(t, n, p);
    assert forall n :: n in q ==> Matches(t, n, 0);
    assert q != [] ==> q[0] in q;
  }

  /** Whoever waits sleeps at first, and until somebody's post or closing has reached the event in its block. */
  lemma SleepsUntilPosted(s: State, e: Event, p: int)
    requires Inv(s) && Enabled(s, e) && p in s.processes
    ensures e.Block? && e.p == p ==> Inv(Step(s, e)) && !Enabled(Step(s, e), Wake(p))
    ensures s.processes[p].wait.Blocked? && !Enabled(s, Wake(p)) && Inv(Step(s, e)) && Enabled(Step(s, e), Wake(p)) ==>
              || (e.Post? && s.processes[e.p].wait == Posting(p))
              || (e.Disconnect? && e.m != 0 && s.connections[e.c].partner == p)
  {
    StepKeepsInv(s, e);
  }

  // ---- posts that come too late ----

  /** The run deletes no process that another is about to post. */
  ghost predicate Patient(run: seq<State>, trace: seq<Event>)
    requires |run| == |trace| + 1
  {
    forall i :: 0 <= i < |trace| ==> !Pulls(run[i], trace[i])
  }

  /** A run is free of stray posts from beginning to end exactly if it never deletes a process with a post pending. */
  lemma PostsLiveExactly(run: seq<State>, trace: seq<Event>)
    requires Execution(run, trace)
    ensures (forall i :: 0 <= i < |run| ==> PostsLive(run[i])) <==> Patient(run, trace)
  {
    if Patient(run, trace) {
      forall i | 0 <= i < |run| ensures PostsLive(run[i]) {
        PatientLive(run, trace, i);
      }
    } else if forall i :: 0 <= i < |run| ==> PostsLive(run[i]) {
      var i :| 0 <= i < |trace| && Pulls(run[i], trace[i]);
      assert MovesAt(run, trace, i);
      StrayExactly(run[i], trace[i]);
      assert PostsLive(run[i]) && PostsLive(run[i + 1]);
    }
  }

  lemma {:induction false} PatientLive(run: seq<State>, trace: seq<Event>, i: nat)
    requires Execution(run, trace) && Patient(run, trace) && i < |run|
    ensures PostsLive(run[i])
  {
    if i > 0 {
      PatientLive(run, trace, i - 1);
      assert MovesAt(run, trace, i - 1);
      StrayExactly(run[i - 1], trace[i - 1]);
    }
  }
}

/**
 What each step does to a state that a run has reached, in terms of the state alone: what the code may
 rely on before it, and the set of blocks in use after it.
 */
module FabricSteps {
  import opened Queues
  import opened Fabric
  import opened FabricRuns

  /** A block nobody has is in no queue and heads none. */
  lemma NewIsUnlinked(history: seq<Event>, s: State, x: int)
    requires Reached(history, s) && Fresh(s, x)
    ensures !Queued(s.queue, ProcessNode(x)) && !Queued(s.queue, ConnectionNode(x)) && !Queued(s.queue, MessageNode(x))
    ensures ConnectionsHead(x) !in s.queue && MessagesHead(x) !in s.queue && ProcessesHead in s.queue
  {
    ReachedInv(history, s);
    forall h | h in s.queue
      ensures ProcessNode(x) !in s.queue[h] && ConnectionNode(x) !in s.queue[h] && MessageNode(x) !in s.queue[h]
    {
      match h
      case ProcessesHead =>
      case ConnectionsHead(p) => assert OwnedBy(s, p);
      case MessagesHead(p) => assert AddressedTo(s, p);
    }
  }

  lemma HeadsOf(history: seq<Event>, s: State, p: int)
    requires Reached(history, s) && p in s.processes
    ensures p != 0 && ConnectionsHead(p) in s.queue && MessagesHead(p) in s.queue && ProcessesHead in s.queue
  {
    ReachedInv(history, s);
  }

  lemma CreateStep(history: seq<Event>, s: State, p: int, semaphore: nat)
    requires Reached(history, s) && Fresh(s, p) && semaphore in s.semaphores && ProcessesHead in s.queue
    ensures Reached(history + [Create(p, semaphore)], Created(s, p, semaphore))
    ensures Blocks(Created(s, p, semaphore)) == Blocks(s) + {p}
  {
    ReachedInv(history, s);
    Advance(history, s, Create(p, semaphore));
  }

  lemma ConnectStep(history: seq<Event>, s: State, p: int, remote: int, c: int, mirror: int)
    requires Reached(history, s) && Runs(s, p) && remote in s.processes && Fresh(s, c) && Fresh(s, mirror) && c != mirror
    requires ConnectionsHead(p) in s.queue && ConnectionsHead(remote) in s.queue
    ensures Reached(history + [Connect(p, remote, c, mirror)], Linked(s, p, remote, c, mirror))
    ensures Blocks(Linked(s, p, remote, c, mirror)) == Blocks(s) + {c} + {mirror}
  {
    ReachedInv(history, s);
    Advance(history, s, Connect(p, remote, c, mirror));
  }

  lemma PartnerLives(history: seq<Event>, s: State, c: int)
    requires Reached(history, s) && c in s.connections && s.connections[c].partner != 0
    ensures s.connections[c].partner in s.processes && MessagesHead(s.connections[c].partner) in s.queue
    ensures s.connections[c].mirror in s.connections
  {
    ReachedInv(history, s);
    PartnerOpen(s, c);
  }

  lemma PutStep(history: seq<Event>, s: State, c: int, m: int, body: Body)
    requires Reached(history, s) && c in s.connections && Runs(s, s.connections[c].parent) && s.connections[c].partner != 0
    requires Fresh(s, m) && body.Payload? && MessagesHead(s.connections[c].partner) in s.queue
    ensures Reached(history + [Put(c, m, body)], Deposited(s, c, m, body))
    ensures Blocks(Deposited(s, c, m, body)) == Blocks(s) + {m}
  {
    ReachedInv(history, s);
    Advance(history, s, Put(c, m, body));
    assert Deposited(s, c, m, body).processes.Keys == s.processes.Keys;
  }

  lemma PostStep(history: seq<Event>, s: State, p: int)
    requires Reached(history, s) && p in s.processes && s.processes[p].wait.Posting? && s.processes[p].wait.receiver in s.processes
    ensures Reached(history + [Post(p)], Posted(s, p)) && Blocks(Posted(s, p)) == Blocks(s)
  {
    ReachedInv(history, s);
    Advance(history, s, Post(p));
    assert Posted(s, p).processes.Keys == s.processes.Keys;
  }

  lemma DieStep(history: seq<Event>, s: State, p: int)
    requires Reached(history, s) && p in s.processes && !s.processes[p].wait.Dead?
    ensures Reached(history + [Die(p)], Waiting(s, p, Dead)) && Blocks(Waiting(s, p, Dead)) == Blocks(s)
  {
    ReachedInv(history, s);
    Advance(history, s, Die(p));
    WaitingBlocks(s, p, Dead);
  }

  lemma WaitingBlocks(s: State, p: int, wait: Wait)
    requires p in s.processes
    ensures Blocks(Waiting(s, p, wait)) == Blocks(s)
  {
    assert Waiting(s, p, wait).processes.Keys == s.processes.Keys;
  }

  lemma BlockEnabled(s: State, p: int, filter: int)
    requires Inv(s) && p in s.processes && s.processes[p].wait.Running? && NoMatch(s, p, filter)
    requires filter != 0 ==> filter in s.connections && s.connections[filter].partner != 0
    ensures Enabled(s, Block(p, filter)) && Step(s, Block(p, filter)) == Waiting(s, p, Blocked(s.processes[p].event + 1, filter))
  {
  }

  lemma MayBlock(history: seq<Event>, s: State, p: int, filter: int)
    requires Reached(history, s) && p in s.processes && s.processes[p].wait.Running? && NoMatch(s, p, filter)
    requires filter != 0 ==> filter in s.connections && s.connections[filter].partner != 0
    ensures Inv(s) && Enabled(s, Block(p, filter)) && Step(s, Block(p, filter)) == Waiting(s, p, Blocked(s.processes[p].event + 1, filter))
  {
    ReachedInv(history, s);
    BlockEnabled(s, p, filter);
  }

  lemma WaitStep(history: seq<Event>, s: State, p: int, filter: int)
    requires Reached(history, s) && p in s.processes && s.processes[p].wait.Running? && NoMatch(s, p, filter)
    requires filter != 0 ==> filter in s.connections && s.connections[filter].partner != 0
    ensures Reached(history + [Block(p, filter)], Waiting(s, p, Blocked(s.processes[p].event + 1, filter)))
  {
    MayBlock(history, s, p, filter);
    Advance(history, s, Block(p, filter));
  }

  lemma WakeStep(history: seq<Event>, s: State, p: int)
    requires Reached(history, s) && p in s.processes && s.processes[p].wait.Blocked?
    requires s.processes[p].event >= s.processes[p].wait.count
    ensures Reached(history + [Wake(p)], Waiting(s, p, Running)) && Blocks(Waiting(s, p, Running)) == Blocks(s)
  {
    ReachedInv(history, s);
    Advance(history, s, Wake(p));
    WaitingBlocks(s, p, Running);
  }

  lemma ReleaseStep(history: seq<Event>, s: State, m: int)
    requires Reached(history, s) && m in s.messages && !Queued(s.queue, MessageNode(m))
    ensures var t := s.(messages := s.messages - {m});
            Reached(history + [Release(m)], t) && Blocks(t) == Blocks(s) - {m}
  {
    ReachedInv(history, s);
    Advance(history, s, Release(m));
  }

  lemma GetStep(history: seq<Event>, s: State, p: int, filter: int, m: int)
    requires Reached(history, s) && p in s.processes && s.processes[p].wait.Running? && MessagesHead(p) in s.queue
    requires Oldest(s, s.queue[MessagesHead(p)], filter, m) && m in s.messages && s.messages[m].connection in s.connections
    ensures var t := Taken(s, p, s.messages[m].connection, m);
            && Reached(history + [Get(p, filter, s.messages[m].connection, m, s.messages[m].body)], t)
            && Blocks(t) == Blocks(s)
  {
    ReachedInv(history, s);
    Advance(history, s, Get(p, filter, s.messages[m].connection, m, s.messages[m].body));
    assert Taken(s, p, s.messages[m].connection, m).messages.Keys == s.messages.Keys;
  }

  /** Every node in an inbox is a message that names a connection. */
  ghost predicate Legible(s: State, q: Queue)
  {
    forall n :: n in q ==> n.MessageNode? && n.m in s.messages && s.messages[n.m].connection in s.connections
  }

  lemma InboxLegible(history: seq<Event>, s: State, p: int)
    requires Reached(history, s) && p in s.processes && MessagesHead(p) in s.queue
    ensures Legible(s, s.queue[MessagesHead(p)]) && NoDup(s.queue[MessagesHead(p)])
  {
    ReachedInv(history, s);
    assert AddressedTo(s, p);
    forall n | n in s.queue[MessagesHead(p)]
      ensures n.MessageNode? && n.m in s.messages && s.messages[n.m].connection in s.connections
    {
      assert Delivered(s, n, p);
    }
  }

  /** What passing the filter, or not, says about the connection a message came over. */
  lemma OverMirror(history: seq<Event>, s: State, p: int, filter: int)
    requires Reached(history, s) && p in s.processes && MessagesHead(p) in s.queue && (filter != 0 ==> filter in s.connections)
    ensures filter != 0 ==> forall m :: Oldest(s, s.queue[MessagesHead(p)], filter, m) ==>
              FirstFrom(s.queue[MessagesHead(p)], s.messages, s.connections[filter].mirror, m)
    ensures filter != 0 && NoMatch(s, p, filter) ==>
              forall n :: n in s.queue[MessagesHead(p)] ==> !From(s.messages, n, s.connections[filter].mirror)
    ensures forall m :: Oldest(s, s.queue[MessagesHead(p)], 0, m) ==> s.queue[MessagesHead(p)] != [] && s.queue[MessagesHead(p)][0] == MessageNode(m)
    ensures NoMatch(s, p, 0) ==> s.queue[MessagesHead(p)] == []
    ensures forall m :: Oldest(s, s.queue[MessagesHead(p)], filter, m) ==>
              && m in s.messages && s.messages[m].connection in s.connections
              && (filter != 0 ==> s.connections[s.messages[m].connection].mirror == filter)
  {
    ReachedInv(history, s);
    var q := s.queue[MessagesHead(p)];
    assert AddressedTo(s, p);
    assert forall n :: n in q ==> Delivered(s, n, p);
    assert q != [] ==> q[0] in q && Matches(s, q[0], 0);
    if filter != 0 {
      MirrorFilter(s, p, filter);
      forall m | Oldest(s, q, filter, m) ensures FirstFrom(q, s.messages, s.connections[filter].mirror, m) {
        var i :| 0 <= i < |q| && q[i] == MessageNode(m) && Matches(s, q[i], filter) && forall j :: 0 <= j < i ==> !Matches(s, q[j], filter);
        assert q[i] in q;
        assert forall j :: 0 <= j < i ==> q[j] in q;
      }
    }
  }

  /** What is left of `q0` at position `k` of the purge, and what has gone. */
  ghost predicate Purging(q: Queue, k: nat, gone: set<int>, q0: Queue, msgs: map<int, Message>, c: int)
    requires k <= |q|
  {
    && q[..k] + Purge(q[k..], msgs, c) == Purge(q0, msgs, c)
    && gone + Traffic(q[k..], msgs, c) == Traffic(q0, msgs, c)
  }

  /** One node of the purge: either it goes and the position stays, or it stays and the position moves on. */
  lemma PurgeNode(q: Queue, k: nat, gone: set<int>, q0: Queue, msgs: map<int, Message>, c: int)
    requires k < |q| && NoDup(q) && Purging(q, k, gone, q0, msgs, c)
    ensures forall n :: n in Cut(q, k) ==> n in q && n != q[k]
    ensures From(msgs, q[k], c) ==> Purging(Cut(q, k), k, gone + {q[k].m}, q0, msgs, c)
    ensures !From(msgs, q[k], c) ==> Purging(q, k + 1, gone, q0, msgs, c)
  {
    CutKeeps(q, k);
    assert q[k..][0] == q[k] && q[k..][1..] == q[k + 1..];
    assert Cut(q, k)[..k] == q[..k] && Cut(q, k)[k..] == q[k + 1..];
    assert q[..k] + ([q[k]] + Purge(q[k + 1..], msgs, c)) == q[..k + 1] + Purge(q[k + 1..], msgs, c);
  }

  lemma PurgeStart(q: Queue, msgs: map<int, Message>, c: int)
    ensures Purging(q, 0, {}, q, msgs, c)
  {
    assert q[0..] == q && q[..0] == [];
    assert [] + Purge(q, msgs, c) == Purge(q, msgs, c);
  }

  lemma PurgeEnd(q: Queue, gone: set<int>, q0: Queue, msgs: map<int, Message>, c: int)
    requires Purging(q, |q|, gone, q0, msgs, c)
    ensures q == Purge(q0, msgs, c) && gone == Traffic(q0, msgs, c)
  {
    assert q[..|q|] == q && q[|q|..] == [] && q + [] == q;
  }

  // ---- the two ways a disconnect ends ----

  /** What disconnect finds when it starts. */
  lemma CloseFacts(history: seq<Event>, s: State, p: int, c: int)
    requires Reached(history, s) && p in s.processes && c in s.connections && s.connections[c].parent == p
    ensures MessagesHead(p) in s.queue && ConnectionsHead(p) in s.queue && s.connections[c].mirror in s.connections
    ensures Legible(s, s.queue[MessagesHead(p)]) && NoDup(s.queue[MessagesHead(p)])
    ensures NoDup(s.queue[ConnectionsHead(p)]) && ConnectionNode(c) in s.queue[ConnectionsHead(p)]
    ensures s.connections[c].mirror != c
  {
    HeadsOf(history, s, p);
    InboxLegible(history, s, p);
    ReachedInv(history, s);
    assert Paired(s, c) && OwnedBy(s, p);
  }

  lemma DetachBlocks(history: seq<Event>, s: State, p: int, c: int)
    requires Reached(history, s) && p in s.processes && c in s.connections && s.connections[c].parent == p
    requires MessagesHead(p) in s.queue && ConnectionsHead(p) in s.queue
    ensures Blocks(Detach(s, p, c)) == Blocks(s) - Traffic(s.queue[MessagesHead(p)], s.messages, s.connections[c].mirror)
  {
    ReachedInv(history, s);
    var gone := Traffic(s.queue[MessagesHead(p)], s.messages, s.connections[c].mirror);
    TrafficMembers(s.queue[MessagesHead(p)], s.messages, s.connections[c].mirror);
    assert forall m :: m in gone ==> m in s.messages && m !in s.processes && m !in s.connections;
    assert Detach(s, p, c).messages.Keys == s.messages.Keys - gone;
  }

  lemma HalfCloseStep(history: seq<Event>, s: State, p: int, c: int, m: int)
    requires Reached(history, s) && p in s.processes && c in s.connections && s.connections[c].parent == p
    requires s.connections[c].partner != 0 && MessagesHead(p) in s.queue && ConnectionsHead(p) in s.queue
    requires Fresh(Detach(s, p, c), m)
    ensures var d, partner := Detach(s, p, c), s.connections[c].partner;
            && partner in d.processes && MessagesHead(partner) in d.queue && s.connections[c].mirror in d.connections
            && !Queued(d.queue, MessageNode(m))
            && Reached(history + [Disconnect(p, c, m)], HalfClose(d, c, m))
            && Blocks(HalfClose(d, c, m)) == Blocks(d) + {m}
  {
    ReachedInv(history, s);
    PartnerOpen(s, c);
    Advance(history, s, Disconnect(p, c, m));
    var d := Detach(s, p, c);
    forall h | h in d.queue ensures MessageNode(m) !in d.queue[h] {
      match h
      case ProcessesHead =>
      case ConnectionsHead(r) =>
        assert OwnedBy(s, r);
        WithoutKeeps(s.queue[ConnectionsHead(r)], ConnectionNode(c));
      case MessagesHead(r) => DetachedInbox(s, p, c, r);
    }
    HalfCloseBlocks(d, c, m);
  }

  lemma HalfCloseBlocks(d: State, c: int, m: int)
    requires c in d.connections && d.connections[c].mirror in d.connections
    requires d.connections[c].partner in d.processes && MessagesHead(d.connections[c].partner) in d.queue
    ensures Blocks(HalfClose(d, c, m)) == Blocks(d) + {m}
  {
    var t := HalfClose(d, c, m);
    assert t.processes.Keys == d.processes.Keys && t.connections.Keys == d.connections.Keys;
    assert t.messages.Keys == d.messages.Keys + {m};
  }

  lemma FullCloseStep(history: seq<Event>, s: State, p: int, c: int)
    requires Reached(history, s) && p in s.processes && c in s.connections && s.connections[c].parent == p
    requires s.connections[c].partner == 0 && MessagesHead(p) in s.queue && ConnectionsHead(p) in s.queue
    ensures var d, mirror := Detach(s, p, c), s.connections[c].mirror;
            && Reached(history + [Disconnect(p, c, 0)], FullClose(d, c))
            && c != mirror && {c, mirror} <= Blocks(d) && Blocks(FullClose(d, c)) == Blocks(d) - {c} - {mirror}
  {
    ReachedInv(history, s);
    Advance(history, s, Disconnect(p, c, 0));
    assert Paired(s, c);
  }

  /** What delete_process finds once the last connection is gone. */
  lemma ReapStep(history: seq<Event>, s: State, p: int) returns (k: nat)
    requires Reached(history, s) && p in s.processes && ConnectionsHead(p) in s.queue && s.queue[ConnectionsHead(p)] == []
    ensures ProcessesHead in s.queue && MessagesHead(p) in s.queue && s.queue[MessagesHead(p)] == []
    ensures NoDup(s.queue[ProcessesHead]) && k < |s.queue[ProcessesHead]| && s.queue[ProcessesHead][k] == ProcessNode(p)
    ensures s.processes[p].semaphore < MAX_PROCESSES
    ensures Reached(history + [Reap(p)], Reaped(s, p)) && Blocks(Reaped(s, p)) == Blocks(s) - {p}
  {
    ReachedInv(history, s);
    NoConnectionsNoMessages(s, p);
    ReapShape(s, p);
    Advance(history, s, Reap(p));
    assert Reaped(s, p).processes.Keys == s.processes.Keys - {p};
    assert ProcessNode(p) in s.queue[ProcessesHead];
    k :| 0 <= k < |s.queue[ProcessesHead]| && s.queue[ProcessesHead][k] == ProcessNode(p);
  }
}

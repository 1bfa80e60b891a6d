/**
 The message fabric of the shared region (csv/css.c): processes, connections in mirrored pairs,
 and per-process message queues.  Every critical section (ACQUIRE .. RELEASE) is one step; the
 steps of all processes interleave freely.
 */
module Fabric {
  import opened Queues

  const MAX_PROCESSES := 16

  /**
   Where a process is: running, inside ISC_event_wait until the event count reaches `count`, in
   put_message between RELEASE and ISC_event_post, or dead but not yet deleted.
   */
  datatype Wait = Running | Blocked(count: nat, filter: int) | Posting(receiver: int) | Dead

  datatype Process = Process(semaphore: nat, event: nat, wait: Wait)
  datatype Connection = Connection(parent: int, partner: int, mirror: int)

  /** MSG_disconnect is the fabric's own; everything else is the users' business. */
  datatype Body = Disconnected | Payload(data: int)
  datatype Message = Message(connection: int, body: Body)

  datatype State = State(
    processes: map<int, Process>,
    connections: map<int, Connection>,
    messages: map<int, Message>,
    queue: map<Link, Queue>,
    semaphores: set<nat>)          // free semaphores

  datatype Event =
    | Create(p: int, semaphore: nat)
    | Connect(p: int, remote: int, c: int, mirror: int)
    | Put(c: int, m: int, body: Body)
    | Post(p: int)
    | Get(p: int, filter: int, c: int, m: int, body: Body)
    | Block(p: int, filter: int)
    | Wake(p: int)
    | Release(m: int)
    | Disconnect(p: int, c: int, m: int)
    | Reap(p: int)
    | Die(p: int)

  // ---- queue contents ----

  ghost function Without(q: Queue, n: Link): Queue
  {
    if q == [] then [] else if q[0] == n then Without(q[1..], n) else [q[0]] + Without(q[1..], n)
  }

  ghost predicate From(msgs: map<int, Message>, n: Link, c: int)
  {
    n.MessageNode? && n.m in msgs && msgs[n.m].connection == c
  }

  /** The queue without the traffic from connection `c`. */
  ghost function Purge(q: Queue, msgs: map<int, Message>, c: int): Queue
  {
    if q == [] then [] else if From(msgs, q[0], c) then Purge(q[1..], msgs, c) else [q[0]] + Purge(q[1..], msgs, c)
  }

  ghost function Traffic(q: Queue, msgs: map<int, Message>, c: int): set<int>
  {
    if q == [] then {} else (if From(msgs, q[0], c) then {q[0].m} else {}) + Traffic(q[1..], msgs, c)
  }

  /** What connection `c` has in the queue, oldest first. */
  ghost function Bodies(q: Queue, msgs: map<int, Message>, c: int): seq<Body>
  {
    if q == [] then []
    else if From(msgs, q[0], c) then [msgs[q[0].m].body] + Bodies(q[1..], msgs, c)
    else Bodies(q[1..], msgs, c)
  }

  ghost predicate Matches(s: State, n: Link, filter: int)
  {
    && n.MessageNode? && n.m in s.messages && s.messages[n.m].connection in s.connections
    && (filter == 0 || s.connections[s.messages[n.m].connection].mirror == filter)
  }

  /** Nothing in the inbox of `p` passes the filter. */
  ghost predicate NoMatch(s: State, p: int, filter: int)
  {
    MessagesHead(p) in s.queue && forall n :: n in s.queue[MessagesHead(p)] ==> !Matches(s, n, filter)
  }

  /** `m` is the oldest message in `q` that passes the filter. */
  ghost predicate Oldest(s: State, q: Queue, filter: int, m: int)
  {
    exists i :: 0 <= i < |q| && q[i] == MessageNode(m) && Matches(s, q[i], filter)
             && forall j :: 0 <= j < i ==> !Matches(s, q[j], filter)
  }

  /** The messages a queue holds. */
  ghost function Carried(q: Queue): set<int>
  {
    if q == [] then {} else (if q[0].MessageNode? then {q[0].m} else {}) + Carried(q[1..])
  }

  // ---- what every run keeps ----

  /** Every process has its two queues, no other queue exists, and no block serves two purposes. */
  ghost predicate Shape(s: State)
  {
    && ProcessesHead in s.queue
    && (forall p :: p in s.processes ==> p != 0 && ConnectionsHead(p) in s.queue && MessagesHead(p) in s.queue)
    && (forall h :: h in s.queue ==> h.IsHead())
    && (forall h :: h in s.queue && (h.ConnectionsHead? || h.MessagesHead?) ==> h.p in s.processes)
    && 0 !in s.connections && 0 !in s.messages
    && (forall x :: x in s.processes ==> x !in s.connections && x !in s.messages)
    && (forall x :: x in s.connections ==> x !in s.messages)
  }

  /** The header's queue lists every process once. */
  ghost predicate Roster(s: State)
    requires Shape(s)
  {
    && NoDup(s.queue[ProcessesHead])
    && forall n :: n in s.queue[ProcessesHead] <==> n.ProcessNode? && n.p in s.processes
  }

  /** `c` and its mirror describe one another, and at least one of them is open. */
  ghost predicate Paired(s: State, c: int)
    requires c in s.connections
  {
    var k := s.connections[c];
    && k.mirror in s.connections && k.mirror != c && s.connections[k.mirror].mirror == c
    && k.partner == s.connections[k.mirror].parent
    && (k.parent != 0 ==> k.parent in s.processes)
    && (k.parent != 0 || k.partner != 0)
  }

  ghost predicate Mirrored(s: State)
  {
    forall c {:trigger Paired(s, c)} :: c in s.connections ==> Paired(s, c)
  }

  /** An open side sits in its parent's queue exactly once, and a closed one nowhere. */
  ghost predicate OwnedBy(s: State, p: int)
    requires ConnectionsHead(p) in s.queue
  {
    var q := s.queue[ConnectionsHead(p)];
    && NoDup(q)
    && forall n :: n in q <==> n.ConnectionNode? && n.c in s.connections && s.connections[n.c].parent == p
  }

  ghost predicate Owned(s: State)
    requires Shape(s)
  {
    forall p {:trigger OwnedBy(s, p)} :: p in s.processes ==> OwnedBy(s, p)
  }

  /** A queued message names an allocated connection whose partner owns the queue. */
  ghost predicate Delivered(s: State, n: Link, p: int)
  {
    && n.MessageNode? && n.m in s.messages && s.messages[n.m].connection in s.connections
    && s.connections[s.messages[n.m].connection].partner == p
  }

  ghost predicate AddressedTo(s: State, p: int)
    requires MessagesHead(p) in s.queue
  {
    var q := s.queue[MessagesHead(p)];
    NoDup(q) && forall n :: n in q ==> Delivered(s, n, p)
  }

  ghost predicate Addressed(s: State)
    requires Shape(s)
  {
    forall p {:trigger AddressedTo(s, p)} :: p in s.processes ==> AddressedTo(s, p)
  }

  /** Live processes hold distinct nonzero semaphores, none of them free. */
  ghost predicate Semaphores(s: State)
  {
    && (forall n :: n in s.semaphores ==> 0 < n < MAX_PROCESSES)
    && (forall p :: p in s.processes ==>
          0 < s.processes[p].semaphore < MAX_PROCESSES && s.processes[p].semaphore !in s.semaphores)
    && (forall p, q :: p in s.processes && q in s.processes && p != q ==>
          s.processes[p].semaphore != s.processes[q].semaphore)
  }

  /** The process on the other end of message `n`; 0 once that side is closed. */
  ghost function Sender(s: State, n: Link): int
    requires n.MessageNode? && n.m in s.messages && s.messages[n.m].connection in s.connections
  {
    s.connections[s.messages[n.m].connection].parent
  }

  /** The post for message `n` in the inbox of `p` is still to come: its sender is about to make it, or has died with its side open. */
  ghost predicate Owed(s: State, n: Link, p: int)
  {
    && n.MessageNode? && n.m in s.messages && s.messages[n.m].connection in s.connections
    && Sender(s, n) in s.processes
    && (s.processes[Sender(s, n)].wait == Posting(p) || s.processes[Sender(s, n)].wait.Dead?)
  }

  /** A blocked process with a message it is waiting for has been posted, or the post for that message is still owed. */
  ghost predicate Roused(s: State, p: int)
    requires p in s.processes && MessagesHead(p) in s.queue
  {
    match s.processes[p].wait
    case Blocked(count, filter) =>
      && count <= s.processes[p].event + 1
      && (s.processes[p].event >= count
          || forall n :: n in s.queue[MessagesHead(p)] && Matches(s, n, filter) ==> Owed(s, n, p))
    case _ => true
  }

  ghost predicate NoLostWakeUp(s: State)
    requires Shape(s)
  {
    forall p {:trigger Roused(s, p)} :: p in s.processes ==> Roused(s, p)
  }

  ghost predicate Inv(s: State)
  {
    && Shape(s) && Roster(s) && Mirrored(s) && Owned(s) && Addressed(s) && Semaphores(s) && NoLostWakeUp(s)
  }

  // ---- steps ----

  ghost predicate Fresh(s: State, x: int)
  {
    x != 0 && x !in s.processes && x !in s.connections && x !in s.messages
  }

  ghost predicate Runs(s: State, p: int) { p in s.processes && s.processes[p].wait.Running? }

  /**
   What can happen next.  Whatever a process calls it calls while it runs; but its connections and its
   block can be taken down at any moment, by its own exit handler or, once it is dead, by a prober.
   */
  ghost predicate Enabled(s: State, e: Event)
    requires Inv(s)
  {
    match e
    case Create(p, semaphore) => Fresh(s, p) && semaphore in s.semaphores
    case Connect(p, remote, c, mirror) =>
      Runs(s, p) && remote in s.processes && Fresh(s, c) && Fresh(s, mirror) && c != mirror
    case Put(c, m, body) =>
      c in s.connections && Runs(s, s.connections[c].parent) && s.connections[c].partner != 0 && Fresh(s, m) && body.Payload?
    case Post(p) =>
      p in s.processes && s.processes[p].wait.Posting? && s.processes[p].wait.receiver in s.processes
    case Get(p, filter, c, m, body) =>
      && Runs(s, p)
      && Oldest(s, s.queue[MessagesHead(p)], filter, m) && m in s.messages && s.messages[m] == Message(c, body)
    case Block(p, filter) =>
      && Runs(s, p)
      && (forall n :: n in s.queue[MessagesHead(p)] ==> !Matches(s, n, filter))
      && (filter != 0 ==> filter in s.connections && s.connections[filter].partner != 0)
    case Wake(p) =>
      p in s.processes && s.processes[p].wait.Blocked? && s.processes[p].event >= s.processes[p].wait.count
    case Release(m) => m in s.messages && !Queued(s.queue, MessageNode(m))
    case Disconnect(p, c, m) =>
      && p in s.processes && c in s.connections && s.connections[c].parent == p
      && (if s.connections[c].partner != 0 then Fresh(Detach(s, p, c), m) else m == 0)
    case Reap(p) => p in s.processes && s.queue[ConnectionsHead(p)] == []
    case Die(p) => p in s.processes && !s.processes[p].wait.Dead?
  }

  ghost function Enqueue(s: State, h: Link, n: Link): State
    requires h in s.queue
  {
    s.(queue := s.queue[h := s.queue[h] + [n]])
  }

  /** Purge the traffic from the other side and take the connection out of its owner's list. */
  ghost function Detach(s: State, p: int, c: int): State
    requires c in s.connections && MessagesHead(p) in s.queue && ConnectionsHead(p) in s.queue
  {
    var mirror, inbox := s.connections[c].mirror, s.queue[MessagesHead(p)];
    s.(queue := s.queue[MessagesHead(p) := Purge(inbox, s.messages, mirror)]
                       [ConnectionsHead(p) := Without(s.queue[ConnectionsHead(p)], ConnectionNode(c))],
       messages := s.messages - Traffic(inbox, s.messages, mirror))
  }

  /** Post MSG_disconnect to the partner and close this side. */
  ghost function HalfClose(s: State, c: int, m: int): State
    requires c in s.connections && s.connections[c].mirror in s.connections
    requires s.connections[c].partner in s.processes && MessagesHead(s.connections[c].partner) in s.queue
  {
    var k := s.connections[c];
    var q := s.processes[k.partner];
    Enqueue(s, MessagesHead(k.partner), MessageNode(m))
    .(messages := s.messages[m := Message(c, Disconnected)],
      processes := s.processes[k.partner := q.(event := q.event + 1)],
      connections := s.connections[k.mirror := s.connections[k.mirror].(partner := 0)][c := k.(parent := 0)])
  }

  /** Both sides have disconnected: drop both blocks. */
  ghost function FullClose(s: State, c: int): State
    requires c in s.connections
  {
    s.(connections := s.connections - {c, s.connections[c].mirror})
  }

  ghost function Created(s: State, p: int, semaphore: nat): State
    requires ProcessesHead in s.queue
  {
    s.(processes := s.processes[p := Process(semaphore, 0, Running)],
       queue := s.queue[ProcessesHead := s.queue[ProcessesHead] + [ProcessNode(p)]]
                       [ConnectionsHead(p) := []][MessagesHead(p) := []],
       semaphores := s.semaphores - {semaphore})
  }

  ghost function Linked(s: State, p: int, remote: int, c: int, mirror: int): State
    requires ConnectionsHead(p) in s.queue && ConnectionsHead(remote) in s.queue
  {
    Enqueue(Enqueue(s, ConnectionsHead(p), ConnectionNode(c)), ConnectionsHead(remote), ConnectionNode(mirror))
    .(connections := s.connections[c := Connection(p, remote, mirror)][mirror := Connection(remote, p, c)])
  }

  /** The message is queued; from here its sender is about to post the receiver. */
  ghost function Deposited(s: State, c: int, m: int, body: Body): State
    requires c in s.connections && s.connections[c].parent in s.processes && MessagesHead(s.connections[c].partner) in s.queue
  {
    var k := s.connections[c];
    Waiting(Enqueue(s, MessagesHead(k.partner), MessageNode(m)).(messages := s.messages[m := Message(c, body)]),
            k.parent, Posting(k.partner))
  }

  /** Counts up the event in the receiver's process block. */
  ghost function Bumped(s: State, p: int): State
    requires p in s.processes
  {
    s.(processes := s.processes[p := s.processes[p].(event := s.processes[p].event + 1)])
  }

  /** The sender makes its post.  Once the receiver's block is gone there is no such step: see `Stray`. */
  ghost function Posted(s: State, p: int): State
    requires p in s.processes && s.processes[p].wait.Posting? && s.processes[p].wait.receiver in s.processes
  {
    Waiting(Bumped(s, s.processes[p].wait.receiver), p, Running)
  }

  /** The receiver sees the message as coming in on its own side of the connection. */
  ghost function Taken(s: State, p: int, c: int, m: int): State
    requires MessagesHead(p) in s.queue && c in s.connections && m in s.messages
  {
    s.(queue := s.queue[MessagesHead(p) := Without(s.queue[MessagesHead(p)], MessageNode(m))],
       messages := s.messages[m := s.messages[m].(connection := s.connections[c].mirror)])
  }

  ghost function Waiting(s: State, p: int, wait: Wait): State
    requires p in s.processes
  {
    s.(processes := s.processes[p := s.processes[p].(wait := wait)])
  }

  ghost function Reaped(s: State, p: int): State
    requires p in s.processes && ProcessesHead in s.queue && MessagesHead(p) in s.queue
  {
    s.(processes := s.processes - {p},
       queue := s.queue[ProcessesHead := Without(s.queue[ProcessesHead], ProcessNode(p))]
                - {ConnectionsHead(p), MessagesHead(p)},
       messages := s.messages - Carried(s.queue[MessagesHead(p)]),
       semaphores := s.semaphores + {s.processes[p].semaphore})
  }

  ghost function Step(s: State, e: Event): State
    requires Inv(s) && Enabled(s, e)
  {
    match e
    case Create(p, semaphore) => Created(s, p, semaphore)
    case Connect(p, remote, c, mirror) => Linked(s, p, remote, c, mirror)
    case Put(c, m, body) => PartnerOpen(s, c); Deposited(s, c, m, body)
    case Post(p) => Posted(s, p)
    case Get(p, filter, c, m, body) => assert AddressedTo(s, p) && Delivered(s, MessageNode(m), p); Taken(s, p, c, m)
    case Block(p, filter) => Waiting(s, p, Blocked(s.processes[p].event + 1, filter))
    case Wake(p) => Waiting(s, p, Running)
    case Release(m) => s.(messages := s.messages - {m})
    case Disconnect(p, c, m) =>
      assert Paired(s, c);
      if s.connections[c].partner != 0 then PartnerOpen(s, c); HalfClose(Detach(s, p, c), c, m)
      else FullClose(Detach(s, p, c), c)
    case Reap(p) => Reaped(s, p)
    case Die(p) => Waiting(s, p, Dead)
  }

  // ---- posts that come too late ----

  /** `z` has released the region and is about to post the event of a process block that is no longer there. */
  ghost predicate Stray(s: State, z: int)
  {
    z in s.processes && s.processes[z].wait.Posting? && s.processes[z].wait.receiver !in s.processes
  }

  ghost predicate PostsLive(s: State) { forall z {:trigger Stray(s, z)} :: z in s.processes ==> !Stray(s, z) }

  /** The step deletes a process that some other process is about to post. */
  ghost predicate Pulls(s: State, e: Event)
  {
    e.Reap? && exists z :: z in s.processes && z != e.p && s.processes[z].wait == Posting(e.p)
  }

  lemma NotStray(s: State, e: Event, z: int)
    requires Inv(s) && Enabled(s, e) && PostsLive(s) && !Pulls(s, e) && z in Step(s, e).processes
    ensures !Stray(Step(s, e), z)
  {
    if e.Put? {
      PartnerOpen(s, e.c);
    } else if e.Disconnect? && s.connections[e.c].partner != 0 {
      assert Paired(s, e.c);
      PartnerOpen(s, e.c);
    }
    assert z in s.processes ==> !Stray(s, z);
  }

  /** A step makes a pending post stray exactly if it deletes the process to be posted. */
  lemma StrayExactly(s: State, e: Event)
    requires Inv(s) && Enabled(s, e) && PostsLive(s)
    ensures PostsLive(Step(s, e)) <==> !Pulls(s, e)
  {
    if Pulls(s, e) {
      var z :| z in s.processes && z != e.p && s.processes[z].wait == Posting(e.p);
      assert Stray(Step(s, e), z);
    } else {
      forall z | z in Step(s, e).processes ensures !Stray(Step(s, e), z) {
        NotStray(s, e, z);
      }
    }
  }

  /** A nonzero partner is a live process. */
  lemma PartnerOpen(s: State, c: int)
    requires Inv(s) && c in s.connections && s.connections[c].partner != 0
    ensures s.connections[c].partner in s.processes && MessagesHead(s.connections[c].partner) in s.queue
    ensures s.connections[c].mirror in s.connections
  {
    assert Paired(s, c) && Paired(s, s.connections[c].mirror);
  }

  /** The blocks of the region that are in use. */
  ghost function Blocks(s: State): set<int>
  {
    s.processes.Keys + s.connections.Keys + s.messages.Keys
  }

  // ---- lemmas about queue contents ----

  lemma {:induction false} WithoutKeeps(q: Queue, n: Link)
    ensures forall x :: x in Without(q, n) <==> x in q && x != n
    ensures NoDup(q) ==> NoDup(Without(q, n))
  {
    if q != [] {
      WithoutKeeps(q[1..], n);
      assert q == [q[0]] + q[1..];
      assert NoDup(q) ==> q[0] !in q[1..];
    }
  }

  lemma {:induction false} CutIsWithout(q: Queue, k: nat)
    requires NoDup(q) && k < |q|
    ensures Cut(q, k) == Without(q, q[k])
  {
    if k == 0 {
      assert q[0] !in q[1..];
      WithoutAbsent(q[1..], q[0]);
      assert Cut(q, 0) == q[1..];
    } else {
      CutIsWithout(q[1..], k - 1);
      assert Cut(q, k) == [q[0]] + Cut(q[1..], k - 1);
    }
  }

  lemma {:induction false} WithoutAbsent(q: Queue, n: Link)
    requires n !in q
    ensures Without(q, n) == q
  {
    if q != [] {
      assert q[0] in q;
      WithoutAbsent(q[1..], n);
      assert q == [q[0]] + q[1..];
    }
  }

  lemma {:induction false} TrafficMembers(q: Queue, msgs: map<int, Message>, c: int)
    ensures forall m :: m in Traffic(q, msgs, c) <==> MessageNode(m) in q && From(msgs, MessageNode(m), c)
  {
    if q != [] {
      TrafficMembers(q[1..], msgs, c);
      assert q == [q[0]] + q[1..];
    }
  }

  lemma {:induction false} PurgeKeeps(q: Queue, msgs: map<int, Message>, c: int)
    ensures forall x :: x in Purge(q, msgs, c) <==> x in q && !From(msgs, x, c)
    ensures NoDup(q) ==> NoDup(Purge(q, msgs, c))
  {
    if q != [] {
      PurgeKeeps(q[1..], msgs, c);
      assert q == [q[0]] + q[1..];
      assert NoDup(q) ==> q[0] !in q[1..];
    }
  }

  // ---- each step keeps the invariant ----

  lemma CreateShape(s: State, p: int, semaphore: nat)
    requires Inv(s) && Enabled(s, Create(p, semaphore))
    ensures var t := Step(s, Create(p, semaphore)); Shape(t) && Roster(t) && Semaphores(t)
  {
    assert ProcessNode(p) !in s.queue[ProcessesHead];
  }

  lemma CreateLists(s: State, p: int, semaphore: nat, r: int)
    requires Inv(s) && Enabled(s, Create(p, semaphore)) && (r in s.processes || r == p)
    ensures var t := Step(s, Create(p, semaphore));
            ConnectionsHead(r) in t.queue && MessagesHead(r) in t.queue && OwnedBy(t, r) && AddressedTo(t, r) && Roused(t, r)
  {
    if r != p {
      assert OwnedBy(s, r) && AddressedTo(s, r) && Roused(s, r);
    } else {
      forall c | c in s.connections ensures s.connections[c].parent != p {
        assert Paired(s, c);
      }
    }
  }

  lemma CreateKeeps(s: State, p: int, semaphore: nat)
    requires Inv(s) && Enabled(s, Create(p, semaphore))
    ensures Inv(Step(s, Create(p, semaphore)))
  {
    var t := Step(s, Create(p, semaphore));
    CreateShape(s, p, semaphore);
    forall c | c in t.connections ensures Paired(t, c) {
      assert Paired(s, c);
    }
    forall r | r in t.processes
      ensures OwnedBy(t, r) && AddressedTo(t, r) && Roused(t, r)
    {
      CreateLists(s, p, semaphore, r);
    }
  }

  lemma ConnectLists(s: State, p: int, remote: int, c: int, mirror: int, r: int)
    requires Inv(s) && Enabled(s, Connect(p, remote, c, mirror)) && r in s.processes
    ensures OwnedBy(Step(s, Connect(p, remote, c, mirror)), r)
  {
    assert OwnedBy(s, r);
    var q := s.queue[ConnectionsHead(r)];
    assert ConnectionNode(c) !in q && ConnectionNode(mirror) !in q;
  }

  lemma ConnectKeeps(s: State, p: int, remote: int, c: int, mirror: int)
    requires Inv(s) && Enabled(s, Connect(p, remote, c, mirror))
    ensures Inv(Step(s, Connect(p, remote, c, mirror)))
  {
    var t := Step(s, Connect(p, remote, c, mirror));
    forall k | k in t.connections ensures Paired(t, k) {
      assert k in s.connections ==> Paired(s, k);
    }
    forall r | r in t.processes ensures OwnedBy(t, r) && AddressedTo(t, r) && Roused(t, r) {
      ConnectLists(s, p, remote, c, mirror, r);
      assert AddressedTo(s, r) && Roused(s, r);
    }
  }

  lemma PutLists(s: State, c: int, m: int, body: Body, r: int)
    requires Inv(s) && Enabled(s, Put(c, m, body)) && r in s.processes
    ensures var t := Step(s, Put(c, m, body));
            ConnectionsHead(r) in t.queue && MessagesHead(r) in t.queue && OwnedBy(t, r) && AddressedTo(t, r)
  {
    PartnerOpen(s, c);
    assert OwnedBy(s, r) && AddressedTo(s, r);
    assert MessageNode(m) !in s.queue[MessagesHead(r)];
  }

  /** The new message is owed its post; a sender that was running owed nobody anything. */
  lemma PutRouses(s: State, c: int, m: int, body: Body, r: int)
    requires Inv(s) && Enabled(s, Put(c, m, body)) && r in s.processes
    ensures var t := Step(s, Put(c, m, body)); r in t.processes && MessagesHead(r) in t.queue && Roused(t, r)
  {
    PartnerOpen(s, c);
    assert AddressedTo(s, r) && Roused(s, r);
    assert MessageNode(m) !in s.queue[MessagesHead(r)];
  }

  lemma PutKeeps(s: State, c: int, m: int, body: Body)
    requires Inv(s) && Enabled(s, Put(c, m, body))
    ensures Inv(Step(s, Put(c, m, body)))
  {
    var t := Step(s, Put(c, m, body));
    PartnerOpen(s, c);
    forall k | k in t.connections ensures Paired(t, k) {
      assert Paired(s, k);
    }
    forall r | r in t.processes
      ensures OwnedBy(t, r) && AddressedTo(t, r) && Roused(t, r)
    {
      PutLists(s, c, m, body, r);
      PutRouses(s, c, m, body, r);
    }
  }

  /** Where a process is and what its event counts have no bearing on the layout. */
  lemma SameLayout(s: State, now: map<int, Process>)
    requires Inv(s) && now.Keys == s.processes.Keys
    requires forall p :: p in now ==> now[p].semaphore == s.processes[p].semaphore
    ensures var t := s.(processes := now);
            Shape(t) && Roster(t) && Mirrored(t) && Owned(t) && Addressed(t) && Semaphores(t)
  {
    var t := s.(processes := now);
    assert forall p :: p in now <==> p in s.processes;
    forall k | k in t.connections ensures Paired(t, k) {
      assert Paired(s, k);
    }
    forall r | r in t.processes ensures OwnedBy(t, r) && AddressedTo(t, r) {
      assert OwnedBy(s, r) && AddressedTo(s, r);
    }
  }

  lemma PostRouses(s: State, e: Event, r: int)
    requires Inv(s) && Enabled(s, e) && e.Post? && r in s.processes
    ensures var t := Step(s, e); r in t.processes && MessagesHead(r) in t.queue && Roused(t, r)
  {
    assert Roused(s, r);
  }

  /** The post reaches its receiver, the only one its sender owed it to. */
  lemma PostKeeps(s: State, e: Event)
    requires Inv(s) && Enabled(s, e) && e.Post?
    ensures Inv(Step(s, e))
  {
    SameLayout(s, Step(s, e).processes);
    forall r | r in s.processes ensures Roused(Step(s, e), r) {
      PostRouses(s, e, r);
    }
  }

  lemma WaitRouses(s: State, e: Event, r: int)
    requires Inv(s) && Enabled(s, e) && (e.Block? || e.Wake?) && r in s.processes
    ensures var t := Step(s, e); r in t.processes && MessagesHead(r) in t.queue && Roused(t, r)
  {
    assert Roused(s, r);
  }

  lemma WaitKeeps(s: State, e: Event)
    requires Inv(s) && Enabled(s, e) && (e.Block? || e.Wake?)
    ensures Inv(Step(s, e))
  {
    SameLayout(s, Step(s, e).processes);
    forall r | r in s.processes ensures Roused(Step(s, e), r) {
      WaitRouses(s, e, r);
    }
  }

  /** A sender that dies before its post leaves the post owed until it is deleted. */
  lemma DieKeeps(s: State, p: int)
    requires Inv(s) && Enabled(s, Die(p))
    ensures Inv(Step(s, Die(p)))
  {
    var t := Step(s, Die(p));
    SameLayout(s, t.processes);
    forall r | r in t.processes ensures Roused(t, r) {
      assert Roused(s, r);
    }
  }

  lemma GetKeeps(s: State, p: int, filter: int, c: int, m: int, body: Body)
    requires Inv(s) && Enabled(s, Get(p, filter, c, m, body))
    ensures Inv(Step(s, Get(p, filter, c, m, body)))
  {
    var t := Step(s, Get(p, filter, c, m, body));
    WithoutKeeps(s.queue[MessagesHead(p)], MessageNode(m));
    assert AddressedTo(s, p) && Delivered(s, MessageNode(m), p);
    forall k | k in t.connections ensures Paired(t, k) {
      assert Paired(s, k);
    }
    forall r | r in t.processes
      ensures OwnedBy(t, r) && AddressedTo(t, r) && Roused(t, r)
    {
      assert OwnedBy(s, r) && AddressedTo(s, r) && Roused(s, r);
    }
  }

  lemma ReleaseKeeps(s: State, m: int)
    requires Inv(s) && Enabled(s, Release(m))
    ensures Inv(Step(s, Release(m)))
  {
    var t := Step(s, Release(m));
    forall k | k in t.connections ensures Paired(t, k) {
      assert Paired(s, k);
    }
    forall r | r in t.processes
      ensures OwnedBy(t, r) && AddressedTo(t, r) && Roused(t, r)
    {
      assert OwnedBy(s, r) && AddressedTo(s, r) && Roused(s, r);
      assert MessageNode(m) !in s.queue[MessagesHead(r)];
    }
  }

  /** Traffic from the mirror of one of `p`'s connections is in `p`'s queue and nowhere else. */
  lemma MirrorTraffic(s: State, p: int, c: int, r: int)
    requires Inv(s) && p in s.processes && r in s.processes && c in s.connections && s.connections[c].parent == p
    ensures r != p ==> forall n :: n in s.queue[MessagesHead(r)] ==> !From(s.messages, n, s.connections[c].mirror)
    ensures r != p ==> forall n :: n in s.queue[MessagesHead(r)] ==>
              n.MessageNode? && n.m !in Traffic(s.queue[MessagesHead(p)], s.messages, s.connections[c].mirror)
  {
    assert Paired(s, c) && Paired(s, s.connections[c].mirror);
    assert AddressedTo(s, p) && AddressedTo(s, r);
    TrafficMembers(s.queue[MessagesHead(p)], s.messages, s.connections[c].mirror);
    forall n | n in s.queue[MessagesHead(r)] && r != p
      ensures n.MessageNode? && !From(s.messages, n, s.connections[c].mirror)
    {
      assert Delivered(s, n, r);
    }
  }

  /** After the purge the owner's inbox holds exactly what did not come from the mirror, every other inbox is as it was. */
  lemma DetachedInbox(s: State, p: int, c: int, r: int)
    requires Inv(s) && p in s.processes && r in s.processes && c in s.connections && s.connections[c].parent == p
    ensures var d := Detach(s, p, c);
            && MessagesHead(r) in d.queue
            && NoDup(d.queue[MessagesHead(r)])
            && (r != p ==> d.queue[MessagesHead(r)] == s.queue[MessagesHead(r)])
            && forall n :: n in d.queue[MessagesHead(r)] ==>
                 && n in s.queue[MessagesHead(r)] && Delivered(s, n, r)
                 && n.m in d.messages && d.messages[n.m] == s.messages[n.m]
                 && s.messages[n.m].connection != s.connections[c].mirror
    ensures forall n :: n in s.queue[MessagesHead(r)] ==>
              (n in Detach(s, p, c).queue[MessagesHead(r)] <==> !From(s.messages, n, s.connections[c].mirror))
  {
    var mirror := s.connections[c].mirror;
    assert AddressedTo(s, r) && AddressedTo(s, p);
    PurgeKeeps(s.queue[MessagesHead(p)], s.messages, mirror);
    TrafficMembers(s.queue[MessagesHead(p)], s.messages, mirror);
    MirrorTraffic(s, p, c, r);
  }

  lemma HalfClosePairs(s: State, p: int, c: int, m: int)
    requires Inv(s) && Enabled(s, Disconnect(p, c, m)) && s.connections[c].partner != 0
    ensures Mirrored(Step(s, Disconnect(p, c, m)))
  {
    var t := Step(s, Disconnect(p, c, m));
    assert Paired(s, c) && Paired(s, s.connections[c].mirror);
    forall k | k in t.connections ensures Paired(t, k) {
      assert Paired(s, k) && Paired(s, s.connections[k].mirror);
    }
  }

  lemma HalfCloseShape(s: State, p: int, c: int, m: int)
    requires Inv(s) && Enabled(s, Disconnect(p, c, m)) && s.connections[c].partner != 0
    ensures Shape(Step(s, Disconnect(p, c, m)))
  {
    assert Paired(s, c) && Paired(s, s.connections[c].mirror);
  }

  lemma HalfCloseRoster(s: State, p: int, c: int, m: int)
    requires Inv(s) && Enabled(s, Disconnect(p, c, m)) && s.connections[c].partner != 0
    ensures var t := Step(s, Disconnect(p, c, m)); Shape(t) && Roster(t) && Semaphores(t)
  {
    HalfCloseShape(s, p, c, m);
    PartnerOpen(s, c);
    var t := Step(s, Disconnect(p, c, m));
    assert t.processes.Keys == s.processes.Keys && t.queue[ProcessesHead] == s.queue[ProcessesHead];
  }

  lemma HalfCloseOwned(s: State, p: int, c: int, m: int, r: int)
    requires Inv(s) && Enabled(s, Disconnect(p, c, m)) && s.connections[c].partner != 0 && r in s.processes
    ensures var t := Step(s, Disconnect(p, c, m)); ConnectionsHead(r) in t.queue && r in t.processes && OwnedBy(t, r)
  {
    assert Paired(s, c) && Paired(s, s.connections[c].mirror);
    assert OwnedBy(s, r);
    WithoutKeeps(s.queue[ConnectionsHead(p)], ConnectionNode(c));
  }

  /** The partner's inbox gets the message; what was in an inbox and stays is still delivered as it was. */
  lemma HalfCloseInboxes(s: State, p: int, c: int, m: int, r: int)
    requires Inv(s) && Enabled(s, Disconnect(p, c, m)) && s.connections[c].partner != 0 && r in s.processes
    ensures var t := Step(s, Disconnect(p, c, m));
            && MessagesHead(r) in t.queue && AddressedTo(t, r)
            && forall n :: n in t.queue[MessagesHead(r)] ==>
                 if n == MessageNode(m) then r == s.connections[c].partner
                 else n in s.queue[MessagesHead(r)] && Delivered(s, n, r) && n.m != m
                      && n.m in t.messages && t.messages[n.m] == s.messages[n.m]
  {
    var t, d := Step(s, Disconnect(p, c, m)), Detach(s, p, c);
    var mirror, partner := s.connections[c].mirror, s.connections[c].partner;
    assert Paired(s, c) && Paired(s, mirror);
    DetachedInbox(s, p, c, r);
    var q := d.queue[MessagesHead(r)];
    assert MessageNode(m) !in q;
    assert t.queue[MessagesHead(r)] == if r == partner then q + [MessageNode(m)] else q;
    forall n | n in t.queue[MessagesHead(r)] ensures Delivered(t, n, r) {
      if n != MessageNode(m) {
        assert n in q;
      }
    }
  }

  /** The partner is posted; to anybody else the closing process owes nothing over this connection. */
  lemma HalfCloseRouses(s: State, p: int, c: int, m: int, r: int)
    requires Inv(s) && Enabled(s, Disconnect(p, c, m)) && s.connections[c].partner != 0 && r in s.processes
    ensures var t := Step(s, Disconnect(p, c, m)); MessagesHead(r) in t.queue && r in t.processes && Roused(t, r)
  {
    assert Paired(s, c) && Paired(s, s.connections[c].mirror);
    assert Roused(s, r);
    HalfCloseInboxes(s, p, c, m, r);
  }

  lemma FullCloseShape(s: State, p: int, c: int, m: int)
    requires Inv(s) && Enabled(s, Disconnect(p, c, m)) && s.connections[c].partner == 0
    ensures var t := Step(s, Disconnect(p, c, m));
            Shape(t) && Roster(t) && Semaphores(t) && Mirrored(t)
  {
    var t := Step(s, Disconnect(p, c, m));
    assert Paired(s, c) && Paired(s, s.connections[c].mirror);
    forall k | k in t.connections ensures Paired(t, k) {
      assert Paired(s, k) && Paired(s, s.connections[k].mirror);
    }
  }

  lemma FullCloseInboxes(s: State, p: int, c: int, m: int, r: int)
    requires Inv(s) && Enabled(s, Disconnect(p, c, m)) && s.connections[c].partner == 0 && r in s.processes
    ensures var t := Step(s, Disconnect(p, c, m));
            && MessagesHead(r) in t.queue && ConnectionsHead(r) in t.queue && r in t.processes
            && OwnedBy(t, r) && AddressedTo(t, r) && Roused(t, r)
  {
    var t := Step(s, Disconnect(p, c, m));
    var mirror := s.connections[c].mirror;
    assert Paired(s, c) && Paired(s, mirror);
    assert OwnedBy(s, r) && Roused(s, r);
    WithoutKeeps(s.queue[ConnectionsHead(p)], ConnectionNode(c));
    DetachedInbox(s, p, c, r);
    forall n | n in t.queue[MessagesHead(r)] ensures Delivered(t, n, r) {
      assert Delivered(s, n, r);
    }
  }

  lemma DisconnectKeeps(s: State, p: int, c: int, m: int)
    requires Inv(s) && Enabled(s, Disconnect(p, c, m))
    ensures Inv(Step(s, Disconnect(p, c, m)))
  {
    var t := Step(s, Disconnect(p, c, m));
    if s.connections[c].partner != 0 {
      HalfCloseRoster(s, p, c, m);
      HalfClosePairs(s, p, c, m);
      forall r | r in t.processes ensures OwnedBy(t, r) && AddressedTo(t, r) && Roused(t, r) {
        HalfCloseOwned(s, p, c, m, r);
        HalfCloseInboxes(s, p, c, m, r);
        HalfCloseRouses(s, p, c, m, r);
      }
    } else {
      FullCloseShape(s, p, c, m);
      forall r | r in t.processes ensures OwnedBy(t, r) && AddressedTo(t, r) && Roused(t, r) {
        FullCloseInboxes(s, p, c, m, r);
      }
    }
  }

  /** Once a process has no connections its inbox is already empty. */
  lemma NoConnectionsNoMessages(s: State, p: int)
    requires Inv(s) && p in s.processes && s.queue[ConnectionsHead(p)] == []
    ensures s.queue[MessagesHead(p)] == []
    ensures forall c :: c in s.connections ==> s.connections[c].parent != p && s.connections[c].partner != p
  {
    assert OwnedBy(s, p) && AddressedTo(s, p);
    var q := s.queue[MessagesHead(p)];
    assert q != [] ==> Delivered(s, q[0], p);
    forall c | c in s.connections
      ensures s.connections[c].parent != p && s.connections[c].partner != p
    {
      assert Paired(s, c);
      assert ConnectionNode(c) !in s.queue[ConnectionsHead(p)];
      assert ConnectionNode(s.connections[c].mirror) !in s.queue[ConnectionsHead(p)];
    }
  }

  lemma ReapedQueues(s: State, p: int)
    requires Inv(s) && Enabled(s, Reap(p))
    ensures var t := Step(s, Reap(p));
            && t.messages == s.messages && t.processes == s.processes - {p} && t.connections == s.connections
            && t.queue == s.queue[ProcessesHead := Without(s.queue[ProcessesHead], ProcessNode(p))]
                          - {ConnectionsHead(p), MessagesHead(p)}
  {
    NoConnectionsNoMessages(s, p);
    assert Carried([]) == {};
  }

  lemma ReapShape(s: State, p: int)
    requires Inv(s) && Enabled(s, Reap(p))
    ensures var t := Step(s, Reap(p));
            t.messages == s.messages && Shape(t) && Roster(t)
  {
    ReapedQueues(s, p);
    WithoutKeeps(s.queue[ProcessesHead], ProcessNode(p));
  }

  lemma ReapKeeps(s: State, p: int)
    requires Inv(s) && Enabled(s, Reap(p))
    ensures Inv(Step(s, Reap(p)))
  {
    var t := Step(s, Reap(p));
    NoConnectionsNoMessages(s, p);
    ReapShape(s, p);
    forall k | k in t.connections ensures Paired(t, k) {
      assert Paired(s, k);
    }
    forall r | r in t.processes ensures OwnedBy(t, r) && AddressedTo(t, r) && Roused(t, r) {
      assert OwnedBy(s, r) && AddressedTo(s, r) && Roused(s, r);
    }
  }

  /** Every step of every process keeps the invariant. */
  lemma StepKeepsInv(s: State, e: Event)
    requires Inv(s) && Enabled(s, e)
    ensures Inv(Step(s, e))
  {
    match e
    case Create(p, semaphore) => CreateKeeps(s, p, semaphore);
    case Connect(p, remote, c, mirror) => ConnectKeeps(s, p, remote, c, mirror);
    case Put(c, m, body) => PutKeeps(s, c, m, body);
    case Post(_) => PostKeeps(s, e);
    case Get(p, filter, c, m, body) => GetKeeps(s, p, filter, c, m, body);
    case Block(_, _) => WaitKeeps(s, e);
    case Wake(_) => WaitKeeps(s, e);
    case Release(m) => ReleaseKeeps(s, m);
    case Disconnect(p, c, m) => DisconnectKeeps(s, p, c, m);
    case Reap(p) => ReapKeeps(s, p);
    case Die(p) => DieKeeps(s, p);
  }
}

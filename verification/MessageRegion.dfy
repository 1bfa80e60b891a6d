/**
 The critical sections of csv/css.c as methods on the region: each walks the linked queues and calls
 the region's allocator.  The ghost `history` records the steps taken; at every moment the region is
 where that history leads from the state init leaves, so every result about runs holds of the region.
 A run ends when the space is exhausted or when an event is posted in a process block that is gone.
 */
module MessageRegions {
  import opened RegionTiles
  import opened RegionHeap
  import opened Queues
  import opened Fabric
  import opened FabricRuns
  import opened FabricSteps

  const PRB_SIZE := 64
  const CNCT_SIZE := 28
  const MSG_SIZE := 24

  /** What one pass of CSS_get_message over the queue decides. */
  datatype Outcome = Received(m: int) | NoneYet | PartnerGone | TimedOut | MustWait(count: nat)

  class MessageRegion {
    const region: GlobalRegion
    const links: Links
    var processes: map<int, Process>
    var connections: map<int, Connection>
    var messages: map<int, Message>
    var semaphores: seq<bool>             // csh_semaphores, one bit each
    ghost var history: seq<Event>

    static ghost function FreeBits(bits: seq<bool>): set<nat>
    {
      set n: nat | n < |bits| && bits[n]
    }

    ghost function Abs(): State
      reads this, links
    {
      State(processes, connections, messages, links.queues, FreeBits(semaphores))
    }

    ghost predicate Valid()
      reads this, links, region
    {
      && region.Valid() && links.Valid() && |semaphores| == MAX_PROCESSES
      && Reached(history, Abs())
      && region.Allocated() == Blocks(Abs())
    }

    /** The header's queue of processes. */
    ghost function Roll(): Queue
      reads links
    {
      if ProcessesHead in links.queues then links.queues[ProcessesHead] else []
    }

    /** No run of free bytes would hold a block of `size`. */
    ghost predicate Exhausted(size: int)
      reads region
    {
      region.Valid() && !HasRoom(region.tiles, size)
    }

    constructor (mapped: int)
      requires mapped >= CSH_SIZE + FRB_SIZE
      ensures Valid() && fresh(region) && fresh(links) && history == []
      ensures |semaphores| == 16 && !semaphores[0] && forall n :: 0 < n < 16 ==> semaphores[n]
    {
      region := new GlobalRegion(mapped);
      links := new Links();
      processes, connections, messages, history := map[], map[], map[], [];
      semaphores := [];
      new;
      links.Init(ProcessesHead);
      semaphores := [false];
      for n := 1 to MAX_PROCESSES
        invariant |semaphores| == n && !semaphores[0] && forall i :: 0 < i < n ==> semaphores[i]
        invariant links.Valid() && links.queues == map[ProcessesHead := []]
        invariant region.Valid() && region.tiles == [Tile(CSH_SIZE, mapped - CSH_SIZE, TYPE_FRB)]
        invariant processes == map[] && connections == map[] && messages == map[] && history == []
      {
        semaphores := semaphores + [true];
      }
      PoolMembers(MAX_PROCESSES);
      assert FreeBits(semaphores) == Pool(MAX_PROCESSES);
      assert region.tiles[1..] == [] && Live(region.tiles[1..]) == {};
      assert Abs() == Initial();
      StartReached();
    }

    /** alloc_global as the fabric sees it: a block nobody had. */
    method Alloc(kind: int, size: int) returns (block: int)
      requires region.Valid() && size >= FRB_SIZE && TYPE_FRB < kind <= TYPE_MSG
      modifies region
      ensures region.Valid()
      ensures block == 0 ==> Exhausted(size) && region.Allocated() == old(region.Allocated())
      ensures block != 0 ==> block !in old(region.Allocated()) && region.Allocated() == old(region.Allocated()) + {block}
      ensures block != 0 ==> region.Holds(block, kind, size)
      ensures forall t :: t in old(region.tiles) && !t.IsFree() ==> t in region.tiles
    {
      ghost var k;
      block, k := region.AllocGlobal(kind, size);
    }

    /** Two blocks in a row; (0, 0) if the second or the first does not fit. */
    method Alloc2(kind: int, size: int) returns (a: int, b: int)
      requires region.Valid() && size >= FRB_SIZE && TYPE_FRB < kind <= TYPE_MSG
      modifies region
      ensures region.Valid()
      ensures a == 0 ==> Exhausted(size)
      ensures a != 0 ==> a != b && b != 0 && a !in old(region.Allocated()) && b !in old(region.Allocated())
      ensures a != 0 ==> region.Allocated() == old(region.Allocated()) + {a} + {b}
      ensures a != 0 ==> region.Holds(a, kind, size) && region.Holds(b, kind, size)
    {
      a := Alloc(kind, size);
      b := 0;
      if a != 0 {
        ghost var i :| 0 <= i < |region.tiles| && region.tiles[i].offset == a && region.tiles[i].kind == kind && region.tiles[i].length >= size;
        ghost var t := region.tiles[i];
        b := Alloc(kind, size);
        assert t in region.tiles;
        if b == 0 {
          a := 0;
        }
      }
    }

    // ---- CSS_create_process ----

    /** alloc_semaphore: the lowest free one, -1 if there is none. */
    method AllocSemaphore() returns (n: int)
      requires |semaphores| == MAX_PROCESSES
      modifies `semaphores
      ensures |semaphores| == MAX_PROCESSES
      ensures n < 0 <==> FreeBits(old(semaphores)) == {}
      ensures n < 0 ==> semaphores == old(semaphores)
      ensures n >= 0 ==> n in FreeBits(old(semaphores)) && FreeBits(semaphores) == FreeBits(old(semaphores)) - {n}
      ensures n >= 0 ==> forall k :: k in FreeBits(old(semaphores)) ==> n <= k
    {
      n := 0;
      while n < MAX_PROCESSES
        invariant 0 <= n <= MAX_PROCESSES && semaphores == old(semaphores)
        invariant forall k :: 0 <= k < n ==> !semaphores[k]
      {
        if semaphores[n] {
          assert n in FreeBits(semaphores);
          semaphores := semaphores[n := false];
          return;
        }
        n := n + 1;
      }
      n := -1;
    }

    /** Enter a new process block into the region's queues. */
    method LinkProcess(p: int, semaphore: nat)
      requires links.Valid() && ProcessesHead in links.queues && !Queued(links.queues, ProcessNode(p))
      requires ConnectionsHead(p) !in links.queues && MessagesHead(p) !in links.queues
      modifies `processes, links
      ensures links.Valid() && processes == old(processes)[p := Process(semaphore, 0, Running)]
      ensures links.queues == old(links.queues)[ProcessesHead := old(links.queues)[ProcessesHead] + [ProcessNode(p)]]
                                               [ConnectionsHead(p) := []][MessagesHead(p) := []]
    {
      processes := processes[p := Process(semaphore, 0, Running)];
      links.InsertTail(ProcessesHead, ProcessNode(p));
      links.Init(ConnectionsHead(p));
      links.Init(MessagesHead(p));
    }

    /** The process block is allocated and the semaphore taken: link it in. */
    method EnterProcess(p: int, semaphore: nat, ghost s: State)
      requires region.Valid() && links.Valid() && |semaphores| == MAX_PROCESSES
      requires Reached(history, s) && Fresh(s, p) && semaphore in s.semaphores && p != 0
      requires Abs() == s.(semaphores := s.semaphores - {semaphore}) && region.Allocated() == Blocks(s) + {p}
      modifies `processes, `history, links
      ensures Valid() && history == old(history) + [Create(p, semaphore)] && p in processes && processes[p].semaphore == semaphore
    {
      NewIsUnlinked(history, s, p);
      LinkProcess(p, semaphore);
      assert Abs() == Created(s, p, semaphore);
      CreateStep(history, s, p, semaphore);
      history := history + [Create(p, semaphore)];
    }

    /** CSS_create_process; `p` is 0 when no semaphore is left: the C code then returns without RELEASE, with the region as it was. */
    method CreateProcess() returns (ok: bool, p: int)
      requires Valid()
      modifies this, region, links
      ensures !ok ==> Exhausted(PRB_SIZE)
      ensures ok ==> Valid()
      ensures ok && p == 0 ==> history == old(history) && Abs() == old(Abs()) && Abs().semaphores == {}
      ensures ok && p != 0 ==> p in processes && history == old(history) + [Create(p, processes[p].semaphore)]
      ensures ok && p != 0 ==> region.Holds(p, TYPE_PRB, PRB_SIZE)
      ensures ok && p != 0 ==> forall k :: k in old(Abs()).semaphores ==> processes[p].semaphore <= k
    {
      ghost var s := Abs();
      var semaphore := AllocSemaphore();
      if semaphore < 0 {
        assert Abs() == s;
        return true, 0;
      }
      p := Alloc(TYPE_PRB, PRB_SIZE);
      ok := p != 0;
      if !ok {
        return;
      }
      EnterProcess(p, semaphore, s);
    }

    // ---- CSS_connect ----

    /** Make one side of a connection and put it in its parent's queue. */
    method LinkSide(c: int, parent: int, partner: int, mirror: int)
      requires links.Valid() && ConnectionsHead(parent) in links.queues && !Queued(links.queues, ConnectionNode(c))
      modifies `connections, links
      ensures links.Valid() && connections == old(connections)[c := Connection(parent, partner, mirror)]
      ensures links.queues
              == old(links.queues)[ConnectionsHead(parent) := old(links.queues)[ConnectionsHead(parent)] + [ConnectionNode(c)]]
    {
      connections := connections[c := Connection(parent, partner, mirror)];
      links.InsertTail(ConnectionsHead(parent), ConnectionNode(c));
    }

    /** Both sides of a connection; the first learns its mirror last. */
    method LinkPair(p: int, remote: int, c: int, mirror: int)
      requires links.Valid() && ConnectionsHead(p) in links.queues && ConnectionsHead(remote) in links.queues && c != mirror
      requires !Queued(links.queues, ConnectionNode(c)) && !Queued(links.queues, ConnectionNode(mirror))
      modifies `connections, links
      ensures links.Valid()
      ensures Abs() == Linked(old(Abs()), p, remote, c, mirror)
    {
      LinkSide(c, p, remote, 0);
      LinkSide(mirror, remote, p, c);
      connections := connections[c := connections[c].(mirror := mirror)];
    }

    /** CSS_connect; 0 when the space is exhausted. */
    method OpenConnection(p: int, remote: int) returns (c: int)
      requires Valid() && p in processes && processes[p].wait.Running? && remote in processes
      modifies `connections, `history, region, links
      ensures c == 0 ==> Exhausted(CNCT_SIZE)
      ensures c != 0 ==> Valid() && c in connections
      ensures c != 0 ==> history == old(history) + [Connect(p, remote, c, connections[c].mirror)]
      ensures c != 0 ==> region.Holds(c, TYPE_CNCT, CNCT_SIZE) && region.Holds(connections[c].mirror, TYPE_CNCT, CNCT_SIZE)
      ensures c != 0 ==> var k := connections[c]; k.parent == p && k.partner == remote && k.mirror in connections && connections[k.mirror] == Connection(remote, p, c)
    {
      ghost var s := Abs();
      HeadsOf(history, s, p);
      HeadsOf(history, s, remote);
      var mirror;
      c, mirror := Alloc2(TYPE_CNCT, CNCT_SIZE);
      if c != 0 {
        NewIsUnlinked(history, s, c);
        NewIsUnlinked(history, s, mirror);
        LinkPair(p, remote, c, mirror);
        ConnectStep(history, s, p, remote, c, mirror);
        history := history + [Connect(p, remote, c, mirror)];
      }
    }

    // ---- CSS_alloc_message and CSS_put_message ----

    /** The queueing half of put_message. */
    method LinkMessage(c: int, m: int, partner: int, body: Body)
      requires links.Valid() && MessagesHead(partner) in links.queues && !Queued(links.queues, MessageNode(m))
      modifies `messages, links
      ensures links.Valid() && messages == old(messages)[m := Message(c, body)]
      ensures links.queues
              == old(links.queues)[MessagesHead(partner) := old(links.queues)[MessagesHead(partner)] + [MessageNode(m)]]
    {
      messages := messages[m := Message(c, body)];
      links.InsertTail(MessagesHead(partner), MessageNode(m));
    }

    /**
     CSS_alloc_message followed by CSS_put_message, which the region's lock makes one step.  A connection
     whose partner has gone takes no message and the block is given back.
     */
    method PutMessage(c: int, size: int, body: Body) returns (ok: bool, sent: bool, m: int)
      requires Valid() && c in connections && Runs(Abs(), connections[c].parent) && body.Payload? && size >= MSG_SIZE
      modifies `processes, `messages, `history, region, links
      ensures !ok ==> Exhausted(size)
      ensures ok ==> Valid() && (sent <==> connections[c].partner != 0)
      ensures ok ==> history == old(history) + if sent then [Put(c, m, body)] else []
      ensures ok && sent ==> region.Holds(m, TYPE_MSG, size) && m in messages && messages[m] == Message(c, body)
      ensures ok && sent ==> connections[c].parent in processes && processes[connections[c].parent].wait == Posting(connections[c].partner)
    {
      ghost var s := Abs();
      sent := false;
      m := Alloc(TYPE_MSG, size);
      ok := m != 0;
      if !ok {
        return;
      }
      var partner := connections[c].partner;
      if partner == 0 {
        var bad := region.FreeGlobal(m);
        return;
      }
      sent := true;
      Deposit(c, m, partner, body, s);
    }

    /** The message block is allocated: queue it for the partner, whose event is then to be posted. */
    method Deposit(c: int, m: int, partner: int, body: Body, ghost s: State)
      requires region.Valid() && links.Valid() && |semaphores| == MAX_PROCESSES
      requires Reached(history, s) && Abs() == s && Fresh(s, m) && region.Allocated() == Blocks(s) + {m} && body.Payload?
      requires c in s.connections && Runs(s, s.connections[c].parent) && s.connections[c].partner == partner != 0
      modifies `processes, `messages, `history, links
      ensures Valid() && history == old(history) + [Put(c, m, body)] && m in messages && messages[m] == Message(c, body)
      ensures connections[c].parent in processes && processes[connections[c].parent].wait == Posting(partner)
    {
      PartnerLives(history, s, c);
      NewIsUnlinked(history, s, m);
      LinkMessage(c, m, partner, body);
      SetWait(connections[c].parent, Posting(partner));
      assert Abs() == Deposited(s, c, m, body);
      PutStep(history, s, c, m, body);
      history := history + [Put(c, m, body)];
    }

    /** Where process `p` is now. */
    method SetWait(p: int, wait: Wait)
      requires p in processes
      modifies `processes
      ensures Abs() == Waiting(old(Abs()), p, wait)
    {
      processes := processes[p := processes[p].(wait := wait)];
    }

    /** ++event_count, in the process block. */
    method BumpEvent(p: int)
      requires p in processes
      modifies `processes
      ensures Abs() == Bumped(old(Abs()), p)
    {
      processes := processes[p := processes[p].(event := processes[p].event + 1)];
    }

    /**
     ISC_event_post, which `p` calls at the end of put_message, after it has released the region.  If the
     receiver's process block has been freed in between, the count goes up in memory that is no longer its
     own (`stray`); like an exhausted region this ends the run.
     */
    method PostEvent(p: int) returns (stray: bool)
      requires Valid() && p in processes && processes[p].wait.Posting?
      modifies `processes, `history
      ensures stray <==> old(Stray(Abs(), p))
      ensures !stray ==> Valid() && history == old(history) + [Post(p)]
    {
      var receiver := processes[p].wait.receiver;
      stray := receiver !in processes;
      if !stray {
        PostStep(history, Abs(), p);
        BumpEvent(receiver);
        SetWait(p, Running);
        history := history + [Post(p)];
      }
    }

    /** A process is killed, wherever it is; until somebody deletes it, what it has in the region stays. */
    method Dies(p: int)
      requires Valid() && p in processes && !processes[p].wait.Dead?
      modifies `processes, `history
      ensures Valid() && history == old(history) + [Die(p)]
    {
      DieStep(history, Abs(), p);
      SetWait(p, Dead);
      history := history + [Die(p)];
    }

    /** CSS_free_global on a message its receiver is done with. */
    method FreeMessage(m: int)
      requires Valid() && m in messages && !Queued(links.queues, MessageNode(m))
      modifies `messages, `history, region
      ensures Valid() && history == old(history) + [Release(m)]
    {
      ghost var s := Abs();
      var bad := region.FreeGlobal(m);
      messages := messages - {m};
      ReleaseStep(history, s, m);
      history := history + [Release(m)];
    }

    // ---- CSS_get_message ----

    /** QUE_LOOP over the inbox for the first message that passes the filter. */
    method FindMessage(p: int, filter: int) returns (found: bool, m: int)
      requires links.Valid() && MessagesHead(p) in links.queues && Legible(Abs(), links.queues[MessagesHead(p)])
      ensures found ==> Oldest(Abs(), links.queues[MessagesHead(p)], filter, m)
      ensures !found ==> forall n :: n in links.queues[MessagesHead(p)] ==> !Matches(Abs(), n, filter)
      ensures found ==> m in messages && (filter == 0 || connections[messages[m].connection].mirror == filter)
      ensures !found ==> forall n :: n in links.queues[MessagesHead(p)] ==> filter != 0 && connections[messages[n.m].connection].mirror != filter
    {
      var head := MessagesHead(p);
      ghost var q := links.queues[head];
      ghost var i := 0;
      Walk(links.forward, links.backward, links.queues, head, 0);
      var que := links.forward[head];
      while que != head
        invariant 0 <= i <= |q| && que == NodeAt(head, q, i) && (que == head <==> i == |q|)
        invariant forall j :: 0 <= j < i ==> !Matches(Abs(), q[j], filter)
        decreases |q| - i
      {
        assert q[i] in q;
        m := que.m;
        if filter == 0 || connections[messages[m].connection].mirror == filter {
          return true, m;
        }
        Walk(links.forward, links.backward, links.queues, head, i + 1);
        que, i := links.forward[que], i + 1;
      }
      found, m := false, 0;
    }

    /** Hand over message `m`: it now names the receiver's side of the connection. */
    method TakeMessage(p: int, m: int, ghost i: nat)
      requires links.Valid() && MessagesHead(p) in links.queues && m in messages && messages[m].connection in connections
      requires i < |links.queues[MessagesHead(p)]| && links.queues[MessagesHead(p)][i] == MessageNode(m)
      requires NoDup(links.queues[MessagesHead(p)])
      modifies `messages, links
      ensures links.Valid() && Abs() == Taken(old(Abs()), p, old(messages[m]).connection, m)
    {
      CutIsWithout(links.queues[MessagesHead(p)], i);
      messages := messages[m := messages[m].(connection := connections[messages[m].connection].mirror)];
      links.RemoveQue(MessageNode(m), MessagesHead(p), i);
    }

    /** got_one: take the message found out of the queue. */
    method Accept(p: int, filter: int, m: int)
      requires Valid() && p in processes && processes[p].wait.Running? && MessagesHead(p) in links.queues
      requires Oldest(Abs(), links.queues[MessagesHead(p)], filter, m)
      modifies `messages, `history, links
      ensures Valid() && m in old(messages) && m in messages
      ensures history == old(history) + [Get(p, filter, old(messages)[m].connection, m, old(messages)[m].body)]
      ensures var c := old(messages)[m].connection; c in connections && messages[m] == Message(connections[c].mirror, old(messages)[m].body)
    {
      ghost var s := Abs();
      InboxLegible(history, s, p);
      ghost var q := s.queue[MessagesHead(p)];
      ghost var i :| 0 <= i < |q| && q[i] == MessageNode(m);
      assert q[i] in q;
      GetStep(history, s, p, filter, m);
      TakeMessage(p, m, i);
      history := history + [Get(p, filter, s.messages[m].connection, m, s.messages[m].body)];
    }

    /** ISC_event_clear: the count to wait for is the next one. */
    method Clear(p: int, filter: int) returns (count: nat)
      requires p in processes
      modifies `processes
      ensures count == old(processes)[p].event + 1 && Abs() == Waiting(old(Abs()), p, Blocked(count, filter))
    {
      count := processes[p].event + 1;
      SetWait(p, Blocked(count, filter));
    }

    /** ISC_event_clear, and the process goes to wait. */
    method ClearAndWait(p: int, filter: int) returns (count: nat)
      requires Valid() && p in processes
      requires Reached(history + [Block(p, filter)], Waiting(Abs(), p, Blocked(processes[p].event + 1, filter)))
      modifies `processes, `history
      ensures Valid() && history == old(history) + [Block(p, filter)]
      ensures p in processes && processes[p].wait == Blocked(count, filter) && count == processes[p].event + 1
    {
      WaitingBlocks(Abs(), p, Blocked(processes[p].event + 1, filter));
      count := Clear(p, filter);
      history := history + [Block(p, filter)];
    }

    lemma MayAwait(p: int, filter: int)
      requires Reached(history, Abs()) && p in processes && processes[p].wait.Running? && NoMatch(Abs(), p, filter)
      requires filter != 0 ==> filter in connections && connections[filter].partner != 0
      ensures Reached(history + [Block(p, filter)], Waiting(Abs(), p, Blocked(processes[p].event + 1, filter)))
    {
      WaitStep(history, Abs(), p, filter);
    }

    /** With nothing to hand over the process goes to wait. */
    method Await(p: int, filter: int) returns (count: nat)
      requires Valid() && p in processes && processes[p].wait.Running? && NoMatch(Abs(), p, filter)
      requires filter != 0 ==> filter in connections && connections[filter].partner != 0
      modifies `processes, `history
      ensures Valid() && history == old(history) + [Block(p, filter)]
      ensures p in processes && processes[p].wait == Blocked(count, filter) && count == processes[p].event + 1
    {
      MayAwait(p, filter);
      count := ClearAndWait(p, filter);
    }

    /**
     One pass of CSS_get_message.  With nothing to hand over it gives up at once (`poll`), notices that
     the partner is gone or that the timer has gone off (`expired`), or clears the event and returns the
     count to wait for.
     */
    method GetMessage(p: int, filter: int, poll: bool, expired: bool) returns (o: Outcome)
      requires Valid() && p in processes && processes[p].wait.Running? && (filter != 0 ==> filter in connections)
      modifies `processes, `messages, `history, links
      ensures Valid()
      ensures o.Received? ==> o.m in old(messages) && o.m in messages
      ensures o.Received? ==>
                var was := old(messages)[o.m];
                history == old(history) + [Get(p, filter, was.connection, o.m, was.body)]
      ensures o.MustWait? ==> history == old(history) + [Block(p, filter)]
      ensures o.MustWait? ==> p in processes && processes[p].wait == Blocked(o.count, filter)
      ensures !o.Received? ==> NoMatch(old(Abs()), p, filter)
      ensures o.NoneYet? || o.PartnerGone? || o.TimedOut? ==> history == old(history) && Abs() == old(Abs())
      ensures o.NoneYet? <==> !o.Received? && poll
      ensures o.PartnerGone? <==> !o.Received? && !poll && filter != 0 && connections[filter].partner == 0
      ensures o.TimedOut? ==> expired
      ensures o.MustWait? ==> !expired
      ensures MessagesHead(p) in old(links.queues)
      ensures var q, msgs, sides := old(links.queues)[MessagesHead(p)], old(messages), old(connections);
              if o.Received? then
                && msgs[o.m].connection in sides
                && messages[o.m] == Message(sides[msgs[o.m].connection].mirror, msgs[o.m].body)
                && (filter != 0 ==> messages[o.m].connection == filter && FirstFrom(q, msgs, sides[filter].mirror, o.m))
                && (filter == 0 ==> q != [] && q[0] == MessageNode(o.m))
              else if filter != 0 then forall n :: n in q ==> !From(msgs, n, sides[filter].mirror)
              else q == []
    {
      HeadsOf(history, Abs(), p);
      InboxLegible(history, Abs(), p);
      OverMirror(history, Abs(), p, filter);
      var found, m := FindMessage(p, filter);
      if found {
        Accept(p, filter, m);
        o := Received(m);
      } else if poll {
        o := NoneYet;
      } else if filter != 0 && connections[filter].partner == 0 {
        o := PartnerGone;
      } else if expired {
        o := TimedOut;
      } else {
        var count := Await(p, filter);
        o := MustWait(count);
      }
    }

    /** ISC_event_wait returns once the event has reached the count. */
    method WakeUp(p: int)
      requires Valid() && p in processes && processes[p].wait.Blocked? && processes[p].event >= processes[p].wait.count
      modifies `processes, `history
      ensures Valid() && history == old(history) + [Wake(p)]
    {
      ghost var s := Abs();
      WakeStep(history, s, p);
      SetWait(p, Running);
      history := history + [Wake(p)];
    }

    // ---- disconnect ----

    /** Unlink a queued message and give its block back. */
    method DropMessage(p: int, m: int, ghost k: nat)
      requires region.Valid() && links.Valid() && MessagesHead(p) in links.queues && m in region.Allocated()
      requires k < |links.queues[MessagesHead(p)]| && links.queues[MessagesHead(p)][k] == MessageNode(m)
      modifies `messages, region, links
      ensures region.Valid() && links.Valid() && messages == old(messages) - {m}
      ensures links.queues == old(links.queues)[MessagesHead(p) := Cut(old(links.queues)[MessagesHead(p)], k)]
      ensures region.Allocated() == old(region.Allocated()) - {m}
    {
      links.RemoveQue(MessageNode(m), MessagesHead(p), k);
      var bad := region.FreeGlobal(m);
      messages := messages - {m};
    }

    /** Drop the message at `k` from inside QUE_LOOP: step back first, then on to what followed it. */
    method SkipOver(p: int, m: int, ghost k: nat) returns (que: Link)
      requires region.Valid() && links.Valid() && MessagesHead(p) in links.queues && m in region.Allocated()
      requires k < |links.queues[MessagesHead(p)]| && links.queues[MessagesHead(p)][k] == MessageNode(m)
      modifies `messages, region, links
      ensures region.Valid() && links.Valid() && messages == old(messages) - {m}
      ensures links.queues == old(links.queues)[MessagesHead(p) := Cut(old(links.queues)[MessagesHead(p)], k)]
      ensures region.Allocated() == old(region.Allocated()) - {m}
      ensures var q := links.queues[MessagesHead(p)];
              NoDup(q) && que == NodeAt(MessagesHead(p), q, k) && (que == MessagesHead(p) <==> k == |q|)
    {
      var head := MessagesHead(p);
      ghost var q := links.queues[head];
      Walk(links.forward, links.backward, links.queues, head, k);
      que := links.backward[MessageNode(m)];
      DropMessage(p, m, k);
      assert Before(head, Cut(q, k), k) == Before(head, q, k);
      Walk(links.forward, links.backward, links.queues, head, k);
      assert Sound(links.forward, links.backward, links.queues, head);
      que := links.forward[que];
    }

    /** Purge the inbox of any traffic from the mirror: QUE_LOOP, stepping back over each node removed. */
    method PurgeInbox(p: int, mirror: int)
      requires region.Valid() && links.Valid() && MessagesHead(p) in links.queues
      requires Legible(Abs(), links.queues[MessagesHead(p)]) && NoDup(links.queues[MessagesHead(p)])
      requires forall m :: m in messages ==> m in region.Allocated()
      modifies `messages, region, links
      ensures region.Valid() && links.Valid()
      ensures var q := old(links.queues)[MessagesHead(p)];
              && links.queues == old(links.queues)[MessagesHead(p) := Purge(q, old(messages), mirror)]
              && messages == old(messages) - Traffic(q, old(messages), mirror)
              && region.Allocated() == old(region.Allocated()) - Traffic(q, old(messages), mirror)
    {
      var head := MessagesHead(p);
      ghost var msgs, live := messages, region.Allocated();
      ghost var q, k, gone := links.queues[head], 0, {};
      Walk(links.forward, links.backward, links.queues, head, 0);
      var que := links.forward[head];
      PurgeStart(q, msgs, mirror);
      while que != head
        invariant 0 <= k <= |q| && que == NodeAt(head, q, k) && (que == head <==> k == |q|)
        invariant region.Valid() && links.Valid() && links.queues == old(links.queues)[head := q] && NoDup(q)
        invariant Purging(q, k, gone, old(links.queues)[head], msgs, mirror)
        invariant messages == msgs - gone && region.Allocated() == live - gone
        invariant forall n :: n in q ==> n.MessageNode? && n.m in messages
        decreases |q| - k
      {
        PurgeNode(q, k, gone, old(links.queues)[head], msgs, mirror);
        assert q[k] in q;
        var m := que.m;
        if messages[m].connection == mirror {
          que := SkipOver(p, m, k);
          gone := gone + {m};
          q := Cut(q, k);
        } else {
          Walk(links.forward, links.backward, links.queues, head, k + 1);
          que, k := links.forward[que], k + 1;
        }
      }
      PurgeEnd(q, gone, old(links.queues)[head], msgs, mirror);
    }

    /** The first half of disconnect: purge the inbox and leave the owner's list. */
    method Unhook(p: int, c: int)
      requires Valid() && p in processes && c in connections && connections[c].parent == p
      modifies `messages, region, links
      ensures region.Valid() && links.Valid()
      ensures MessagesHead(p) in old(Abs()).queue && ConnectionsHead(p) in old(Abs()).queue
      ensures Abs() == Detach(old(Abs()), p, c) && region.Allocated() == Blocks(Abs())
    {
      ghost var s := Abs();
      CloseFacts(history, s, p, c);
      DetachBlocks(history, s, p, c);
      PurgeInbox(p, connections[c].mirror);
      ghost var q := links.queues[ConnectionsHead(p)];
      ghost var k :| 0 <= k < |q| && q[k] == ConnectionNode(c);
      CutIsWithout(q, k);
      links.RemoveQue(ConnectionNode(c), ConnectionsHead(p), k);
    }

    /** Partner still active: post MSG_disconnect and break this side. */
    method BreakSide(c: int, m: int, mirror: int, partner: int)
      requires links.Valid() && !Queued(links.queues, MessageNode(m)) && MessagesHead(partner) in links.queues
      requires c in connections && mirror in connections && partner in processes && c != mirror
      requires connections[c].mirror == mirror && connections[c].partner == partner
      modifies `processes, `connections, `messages, links
      ensures links.Valid() && Abs() == HalfClose(old(Abs()), c, m)
    {
      LinkMessage(c, m, partner, Disconnected);
      processes := processes[partner := processes[partner].(event := processes[partner].event + 1)];
      connections := connections[mirror := connections[mirror].(partner := 0)];
      connections := connections[c := connections[c].(parent := 0)];
    }

    /** Both sides have disconnected: give both blocks back. */
    method FreePair(c: int, mirror: int)
      requires region.Valid() && c != mirror && c in region.Allocated() && mirror in region.Allocated()
      requires c in connections && connections[c].mirror == mirror
      modifies `connections, region
      ensures region.Valid() && Abs() == FullClose(old(Abs()), c)
      ensures region.Allocated() == old(region.Allocated()) - {c} - {mirror}
    {
      var bad := region.FreeGlobal(c);
      bad := region.FreeGlobal(mirror);
      connections := connections - {c, mirror};
    }

    /** Neither the header's queue nor the connections of `p` have changed. */
    static ghost predicate SameLists(queues: map<Link, Queue>, queues': map<Link, Queue>, p: int)
    {
      && (ProcessesHead in queues <==> ProcessesHead in queues')
      && (ProcessesHead in queues ==> queues'[ProcessesHead] == queues[ProcessesHead])
      && (ConnectionsHead(p) in queues ==>
            ConnectionsHead(p) in queues' && queues'[ConnectionsHead(p)] == queues[ConnectionsHead(p)])
    }

    /** The rest of disconnect while the partner is active; 0 when there is no room for the message. */
    method CloseHalf(p: int, c: int, ghost s: State) returns (m: int)
      requires region.Valid() && links.Valid() && Reached(history, s) && |semaphores| == MAX_PROCESSES
      requires p in s.processes && c in s.connections && s.connections[c].parent == p && s.connections[c].partner != 0
      requires MessagesHead(p) in s.queue && ConnectionsHead(p) in s.queue && s.connections[c].mirror != c
      requires Abs() == Detach(s, p, c) && region.Allocated() == Blocks(Abs())
      modifies this, region, links
      ensures m == 0 ==> Exhausted(MSG_SIZE)
      ensures m != 0 ==> Valid() && history == old(history) + [Disconnect(p, c, m)]
      ensures m != 0 ==> processes.Keys == old(processes).Keys && SameLists(old(links.queues), links.queues, p)
    {
      m := Alloc(TYPE_MSG, MSG_SIZE);
      if m != 0 {
        HalfCloseStep(history, s, p, c, m);
        BreakSide(c, m, connections[c].mirror, connections[c].partner);
        history := history + [Disconnect(p, c, m)];
      }
    }

    /** The rest of disconnect when the partner has already gone. */
    method CloseFull(p: int, c: int, ghost s: State)
      requires region.Valid() && links.Valid() && Reached(history, s) && |semaphores| == MAX_PROCESSES
      requires p in s.processes && c in s.connections && s.connections[c].parent == p && s.connections[c].partner == 0
      requires MessagesHead(p) in s.queue && ConnectionsHead(p) in s.queue
      requires Abs() == Detach(s, p, c) && region.Allocated() == Blocks(Abs())
      modifies this, region, links
      ensures Valid() && history == old(history) + [Disconnect(p, c, 0)]
      ensures processes.Keys == old(processes).Keys && SameLists(old(links.queues), links.queues, p)
    {
      FullCloseStep(history, s, p, c);
      FreePair(c, connections[c].mirror);
      history := history + [Disconnect(p, c, 0)];
    }

    /** CSS_disconnect by the connection's owner; fails only when there is no room for the message. */
    method CloseConnection(p: int, c: int) returns (ok: bool)
      requires Valid() && p in processes && c in connections && connections[c].parent == p
      modifies this, region, links
      ensures !ok ==> Exhausted(MSG_SIZE)
      ensures ok ==> Valid()
      ensures ok ==> exists m :: history == old(history) + [Disconnect(p, c, m)]
      ensures ok ==> && processes.Keys == old(processes).Keys && Roll() == old(Roll())
                     && ConnectionsHead(p) in old(links.queues) && ConnectionsHead(p) in links.queues
                     && links.queues[ConnectionsHead(p)] == Without(old(links.queues)[ConnectionsHead(p)], ConnectionNode(c))
    {
      ghost var s := Abs();
      CloseFacts(history, s, p, c);
      Unhook(p, c);
      ok := true;
      if connections[c].partner != 0 {
        var m := CloseHalf(p, c, s);
        ok := m != 0;
      } else {
        CloseFull(p, c, s);
      }
    }

    // ---- delete_process ----

    /** Drop whatever is left in the inbox. */
    method DrainInbox(p: int)
      requires region.Valid() && links.Valid() && MessagesHead(p) in links.queues
      requires Legible(Abs(), links.queues[MessagesHead(p)]) && NoDup(links.queues[MessagesHead(p)])
      requires forall m :: m in messages ==> m in region.Allocated()
      modifies `messages, region, links
      ensures region.Valid() && links.Valid()
      ensures var q := old(links.queues)[MessagesHead(p)];
              && links.queues == old(links.queues)[MessagesHead(p) := []]
              && messages == old(messages) - Carried(q)
              && region.Allocated() == old(region.Allocated()) - Carried(q)
    {
      var head := MessagesHead(p);
      ghost var msgs, live := messages, region.Allocated();
      ghost var q, gone := links.queues[head], {};
      Walk(links.forward, links.backward, links.queues, head, 0);
      while links.forward[head] != head
        invariant region.Valid() && links.Valid() && links.queues == old(links.queues)[head := q] && NoDup(q)
        invariant head in links.forward && links.forward[head] == NodeAt(head, q, 0) && (links.forward[head] == head <==> q == [])
        invariant gone + Carried(q) == Carried(old(links.queues)[head])
        invariant messages == msgs - gone && region.Allocated() == live - gone
        invariant forall n :: n in q ==> n.MessageNode? && n.m in messages
        decreases |q|
      {
        DrainNode(q);
        var m := links.forward[head].m;
        var que := SkipOver(p, m, 0);
        q, gone := Cut(q, 0), gone + {m};
        Walk(links.forward, links.backward, links.queues, head, 0);
      }
    }

    static lemma DrainNode(q: Queue)
      requires q != [] && NoDup(q) && q[0].MessageNode?
      ensures q[0] in q && Carried(q) == {q[0].m} + Carried(Cut(q, 0))
      ensures forall n :: n in Cut(q, 0) ==> n in q && n != q[0]
    {
      CutKeeps(q, 0);
      assert Cut(q, 0) == q[1..];
    }

    /** release_semaphore. */
    method ReleaseSemaphore(n: nat)
      requires n < |semaphores|
      modifies `semaphores
      ensures |semaphores| == |old(semaphores)| && FreeBits(semaphores) == FreeBits(old(semaphores)) + {n}
    {
      semaphores := semaphores[n := true];
    }

    /** Untangle the process block from the header and give it back. */
    method Untangle(p: int, ghost k: nat)
      requires region.Valid() && links.Valid() && ProcessesHead in links.queues && p in processes && p in region.Allocated()
      requires k < |links.queues[ProcessesHead]| && links.queues[ProcessesHead][k] == ProcessNode(p)
      requires NoDup(links.queues[ProcessesHead]) && MessagesHead(p) in links.queues && links.queues[MessagesHead(p)] == []
      requires processes[p].semaphore < |semaphores|
      modifies `processes, `semaphores, region, links
      ensures region.Valid() && links.Valid() && |semaphores| == |old(semaphores)|
      ensures Abs() == Reaped(old(Abs()), p) && region.Allocated() == old(region.Allocated()) - {p}
    {
      ReleaseSemaphore(processes[p].semaphore);
      CutIsWithout(links.queues[ProcessesHead], k);
      links.RemoveQue(ProcessNode(p), ProcessesHead, k);
      links.Forget({ConnectionsHead(p), MessagesHead(p)});
      var bad := region.FreeGlobal(p);
      processes := processes - {p};
      assert Carried([]) == {};
    }

    /** Break the first connection on the process's list. */
    method CloseFirst(p: int) returns (ok: bool, ghost e: Event)
      requires Valid() && p in processes && ConnectionsHead(p) in links.queues && links.queues[ConnectionsHead(p)] != []
      modifies this, region, links
      ensures !ok ==> Exhausted(MSG_SIZE)
      ensures ok ==> Valid() && history == old(history) + [e]
      ensures ok ==> processes.Keys == old(processes).Keys && Roll() == old(Roll())
      ensures ok ==> && ConnectionsHead(p) in links.queues
                     && |links.queues[ConnectionsHead(p)]| < old(|links.queues[ConnectionsHead(p)]|)
      ensures e.Disconnect? && e.p == p
    {
      var head := ConnectionsHead(p);
      Walk(links.forward, links.backward, links.queues, head, 0);
      ListedOwns(history, Abs(), p);
      var c := links.forward[head].c;
      WithoutShorter(links.queues[head], ConnectionNode(c));
      ok := CloseConnection(p, c);
      e := Disconnect(p, c, 0);
      if ok {
        ghost var m :| history == old(history) + [Disconnect(p, c, m)];
        e := Disconnect(p, c, m);
      }
    }

    /** The first loop of delete_process: break every connection the process still has. */
    method CloseAll(p: int) returns (ok: bool, ghost trace: seq<Event>)
      requires Valid() && p in processes
      modifies this, region, links
      ensures !ok ==> Exhausted(MSG_SIZE)
      ensures ok ==> Valid() && p in processes && history == old(history) + trace
      ensures ok ==> ConnectionsHead(p) in links.queues && links.queues[ConnectionsHead(p)] == []
      ensures ok ==> processes.Keys == old(processes).Keys && Roll() == old(Roll())
      ensures forall e :: e in trace ==> e.Disconnect? && e.p == p
    {
      ok, trace := true, [];
      HeadsOf(history, Abs(), p);
      var head := ConnectionsHead(p);
      Walk(links.forward, links.backward, links.queues, head, 0);
      while links.forward[head] != head
        invariant Valid() && p in processes && history == old(history) + trace
        invariant processes.Keys == old(processes).Keys && Roll() == old(Roll())
        invariant head in links.queues && head in links.forward
        invariant links.forward[head] == head <==> links.queues[head] == []
        invariant forall e :: e in trace ==> e.Disconnect? && e.p == p
        decreases |links.queues[head]|
      {
        ghost var e;
        ok, e := CloseFirst(p);
        if !ok {
          return;
        }
        trace := trace + [e];
        Walk(links.forward, links.backward, links.queues, head, 0);
      }
    }

    /** delete_process: afterwards the history has the disconnects of all its connections and its reaping. */
    method DeleteProcess(p: int) returns (ok: bool, ghost trace: seq<Event>)
      requires Valid() && p in processes
      modifies this, region, links
      ensures !ok ==> Exhausted(MSG_SIZE)
      ensures ok ==> Valid() && history == old(history) + trace + [Reap(p)]
      ensures forall e :: e in trace ==> e.Disconnect? && e.p == p
      ensures ok ==> processes.Keys == old(processes).Keys - {p} && Roll() == Without(old(Roll()), ProcessNode(p))
    {
      ok, trace := CloseAll(p);
      if ok {
        FinishDelete(p);
      }
    }

    /** An inbox that is already empty stays as it is. */
    method DrainEmpty(p: int)
      requires region.Valid() && links.Valid() && MessagesHead(p) in links.queues && links.queues[MessagesHead(p)] == []
      requires forall m :: m in messages ==> m in region.Allocated()
      modifies `messages, region, links
      ensures region.Valid() && links.Valid() && Abs() == old(Abs()) && region.Allocated() == old(region.Allocated())
    {
      DrainInbox(p);
      assert Carried([]) == {};
      assert links.queues == old(links.queues) && messages == old(messages);
    }

    /** The rest of delete_process, when no connections are left. */
    method FinishDelete(p: int)
      requires Valid() && p in processes && ConnectionsHead(p) in links.queues && links.queues[ConnectionsHead(p)] == []
      modifies this, region, links
      ensures Valid() && history == old(history) + [Reap(p)] && processes.Keys == old(processes).Keys - {p}
      ensures Roll() == Without(old(Roll()), ProcessNode(p))
    {
      ghost var k := ReapStep(history, Abs(), p);
      ReapAt(p, k);
    }

    method ReapAt(p: int, ghost k: nat)
      requires Valid() && p in processes && p in region.Allocated() && processes[p].semaphore < MAX_PROCESSES
      requires ProcessesHead in links.queues && MessagesHead(p) in links.queues && links.queues[MessagesHead(p)] == []
      requires NoDup(links.queues[ProcessesHead]) && k < |links.queues[ProcessesHead]| && links.queues[ProcessesHead][k] == ProcessNode(p)
      requires Reached(history + [Reap(p)], Reaped(Abs(), p)) && Blocks(Reaped(Abs(), p)) == Blocks(Abs()) - {p}
      modifies this, region, links
      ensures Valid() && history == old(history) + [Reap(p)] && processes.Keys == old(processes).Keys - {p}
      ensures Roll() == Without(old(Roll()), ProcessNode(p))
    {
      DrainEmpty(p);
      Untangle(p, k);
      history := history + [Reap(p)];
    }

    /** delete_process from inside QUE_LOOP over the header's queue: step back first, then on. */
    method DeleteListed(p: int, ghost k: nat) returns (ok: bool, que: Link)
      requires Valid() && ProcessesHead in links.queues && p in processes && NoDup(Roll())
      requires k < |Roll()| && Roll()[k] == ProcessNode(p)
      modifies this, region, links
      ensures !ok ==> Exhausted(MSG_SIZE)
      ensures ok ==> Valid() && processes.Keys == old(processes).Keys - {p}
      ensures ok ==> ProcessesHead in links.queues && Roll() == Cut(old(Roll()), k)
      ensures ok ==> que == NodeAt(ProcessesHead, Roll(), k) && (que == ProcessesHead <==> k == |Roll()|)
    {
      ghost var q := Roll();
      Walk(links.forward, links.backward, links.queues, ProcessesHead, k);
      que := links.backward[ProcessNode(p)];
      ghost var trace;
      ok, trace := DeleteProcess(p);
      if ok {
        CutIsWithout(q, k);
        RollCall(history, Abs());
        assert Before(ProcessesHead, Cut(q, k), k) == Before(ProcessesHead, q, k);
        Walk(links.forward, links.backward, links.queues, ProcessesHead, k);
        que := links.forward[que];
      }
    }

    /** One round of the probe: a dead process is deleted, and the walk goes on behind it. */
    method ProbeOne(self: int, alive: set<int>, at: Link, ghost k: nat, ghost all: set<int>)
      returns (ok: bool, que: Link, ghost next: nat)
      requires Valid() && ProcessesHead in links.queues && k < |Roll()| && at == NodeAt(ProcessesHead, Roll(), k)
      requires Probed(Roll(), k, processes.Keys, all, self, alive)
      modifies this, region, links
      ensures !ok ==> Exhausted(MSG_SIZE)
      ensures ok ==> Valid() && ProcessesHead in links.queues && next <= |Roll()| && |Roll()| - next < |old(Roll())| - k
      ensures ok ==> que == NodeAt(ProcessesHead, Roll(), next) && (que == ProcessesHead <==> next == |Roll()|)
      ensures ok ==> Probed(Roll(), next, processes.Keys, all, self, alive)
    {
      ok, next := true, k;
      ProbeStep(Roll(), k, processes.Keys, all, self, alive);
      var p := at.p;
      if p != self && p !in alive {
        ok, que := DeleteListed(p, k);
      } else {
        Walk(links.forward, links.backward, links.queues, ProcessesHead, k + 1);
        que, next := links.forward[at], k + 1;
      }
    }

    /**
     CSS_probe_processes: delete every process but our own that no longer exists.  `alive` is what
     ISC_check_process_existence answers.
     */
    method ProbeProcesses(self: int, alive: set<int>) returns (ok: bool)
      requires Valid()
      modifies this, region, links
      ensures !ok ==> Exhausted(MSG_SIZE)
      ensures ok ==> Valid() && forall p :: p in processes <==> p in old(processes) && (p == self || p in alive)
    {
      ok := true;
      RollCall(history, Abs());
      ghost var k, all := 0, processes.Keys;
      Walk(links.forward, links.backward, links.queues, ProcessesHead, 0);
      var que := links.forward[ProcessesHead];
      while que != ProcessesHead
        invariant Valid() && ProcessesHead in links.queues && 0 <= k <= |Roll()|
        invariant que == NodeAt(ProcessesHead, Roll(), k) && (que == ProcessesHead <==> k == |Roll()|)
        invariant Probed(Roll(), k, processes.Keys, all, self, alive)
        decreases |Roll()| - k
      {
        ok, que, k := ProbeOne(self, alive, que, k, all);
        if !ok {
          return;
        }
      }
      ProbeEnd(Roll(), processes.Keys, all, self, alive);
    }
  }

  /** The first `k` processes on the roll have been probed: what is gone was dead, what stays listed is alive. */
  ghost predicate Probed(q: Queue, k: nat, now: set<int>, all: set<int>, self: int, alive: set<int>)
    requires k <= |q|
  {
    && NoDup(q) && (forall n :: n in q <==> n.ProcessNode? && n.p in now)
    && (forall i :: 0 <= i < k ==> q[i].ProcessNode? && (q[i].p == self || q[i].p in alive))
    && now <= all && (forall p :: p in all && (p == self || p in alive) ==> p in now)
  }

  lemma ProbeStep(q: Queue, k: nat, now: set<int>, all: set<int>, self: int, alive: set<int>)
    requires k < |q| && Probed(q, k, now, all, self, alive)
    ensures q[k].ProcessNode? && q[k].p in now
    ensures if q[k].p != self && q[k].p !in alive then Probed(Cut(q, k), k, now - {q[k].p}, all, self, alive)
            else Probed(q, k + 1, now, all, self, alive)
  {
    assert q[k] in q;
    CutKeeps(q, k);
  }

  lemma ProbeEnd(q: Queue, now: set<int>, all: set<int>, self: int, alive: set<int>)
    requires Probed(q, |q|, now, all, self, alive)
    ensures forall p :: p in now <==> p in all && (p == self || p in alive)
  {
    forall p | p in now ensures p == self || p in alive {
      assert ProcessNode(p) in q;
    }
  }

  lemma RollCall(history: seq<Event>, s: State)
    requires Reached(history, s)
    ensures ProcessesHead in s.queue && NoDup(s.queue[ProcessesHead])
    ensures forall n :: n in s.queue[ProcessesHead] <==> n.ProcessNode? && n.p in s.processes
  {
    ReachedInv(history, s);
  }

  /** A process's list names connections it owns. */
  lemma ListedOwns(history: seq<Event>, s: State, p: int)
    requires Reached(history, s) && p in s.processes && ConnectionsHead(p) in s.queue && s.queue[ConnectionsHead(p)] != []
    ensures var n := s.queue[ConnectionsHead(p)][0];
            n.ConnectionNode? && n.c in s.connections && s.connections[n.c].parent == p
  {
    ReachedInv(history, s);
    assert OwnedBy(s, p);
    assert s.queue[ConnectionsHead(p)][0] in s.queue[ConnectionsHead(p)];
  }

  lemma {:induction false} WithoutShorter(q: Queue, n: Link)
    ensures |Without(q, n)| <= |q| && (n in q ==> |Without(q, n)| < |q|)
  {
    if q != [] {
      WithoutShorter(q[1..], n);
      assert q == [q[0]] + q[1..];
    }
  }
}

/**
 A run in which put_message posts the event of a process block that has been freed: the post comes after
 RELEASE, and nothing keeps the receiver from being deleted in between.
 */
module LatePost {
  import opened Queues
  import opened Fabric
  import opened FabricRuns
  import opened FabricSteps

  /** Process 2 closes its connection and is deleted between the put of process 1 and the post that belongs to it. */
  ghost function Trace(): seq<Event>
  {
    [Create(1, 1), Create(2, 2), Connect(1, 2, 3, 4), Put(3, 5, Payload(0)), Disconnect(2, 4, 6), Reap(2)]
  }

  /** The first `n` events lead to `s`. */
  ghost predicate Along(n: nat, s: State) { n <= |Trace()| && Reached(Trace()[..n], s) }

  lemma Next(n: nat, t: State)
    requires n < |Trace()| && Reached(Trace()[..n] + [Trace()[n]], t)
    ensures Along(n + 1, t)
  {
    assert Trace()[..n + 1] == Trace()[..n] + [Trace()[n]];
  }

  lemma Created1() returns (s: State)
    ensures Along(1, s) && s.connections == map[] && s.messages == map[] && s.processes.Keys == {1} && Runs(s, 1)
    ensures ProcessesHead in s.queue && ConnectionsHead(1) in s.queue && s.queue[ConnectionsHead(1)] == [] && 2 in s.semaphores
  {
    StartReached();
    PoolMembers(MAX_PROCESSES);
    assert Trace()[..0] == [];
    CreateStep(Trace()[..0], Initial(), 1, 1);
    s := Created(Initial(), 1, 1);
    assert s.processes.Keys == {1};
    Next(0, s);
  }

  lemma Created2() returns (s: State)
    ensures Along(2, s) && s.connections == map[] && s.messages == map[] && s.processes.Keys == {1, 2} && Runs(s, 1)
    ensures ConnectionsHead(1) in s.queue && s.queue[ConnectionsHead(1)] == []
    ensures ConnectionsHead(2) in s.queue && s.queue[ConnectionsHead(2)] == [] && MessagesHead(2) in s.queue
  {
    var s1 := Created1();
    CreateStep(Trace()[..1], s1, 2, 2);
    s := Created(s1, 2, 2);
    assert s.processes.Keys == {1, 2};
    Next(1, s);
  }

  lemma Connected3() returns (s: State)
    ensures Along(3, s) && s.messages == map[] && s.processes.Keys == {1, 2} && Runs(s, 1)
    ensures s.connections == map[3 := Connection(1, 2, 4), 4 := Connection(2, 1, 3)]
    ensures ConnectionsHead(2) in s.queue && s.queue[ConnectionsHead(2)] == [ConnectionNode(4)] && MessagesHead(2) in s.queue
  {
    var s2 := Created2();
    ConnectStep(Trace()[..2], s2, 1, 2, 3, 4);
    s := Linked(s2, 1, 2, 3, 4);
    Next(2, s);
  }

  lemma Put4() returns (s: State)
    ensures Along(4, s) && s.messages.Keys == {5} && s.processes.Keys == {1, 2} && s.processes[1].wait == Posting(2)
    ensures s.connections == map[3 := Connection(1, 2, 4), 4 := Connection(2, 1, 3)]
    ensures ConnectionsHead(2) in s.queue && s.queue[ConnectionsHead(2)] == [ConnectionNode(4)] && MessagesHead(2) in s.queue
  {
    var s3 := Connected3();
    PutStep(Trace()[..3], s3, 3, 5, Payload(0));
    s := Deposited(s3, 3, 5, Payload(0));
    Next(3, s);
  }

  lemma Closed5() returns (s: State)
    ensures Along(5, s) && s.processes.Keys == {1, 2} && s.processes[1].wait == Posting(2)
    ensures ConnectionsHead(2) in s.queue && s.queue[ConnectionsHead(2)] == []
  {
    var s4 := Put4();
    HalfCloseStep(Trace()[..4], s4, 2, 4, 6);
    s := HalfClose(Detach(s4, 2, 4), 4, 6);
    Next(4, s);
    assert [ConnectionNode(4)][1..] == [];
  }

  /** Such a run exists: the post that process 1 still owes goes into a block that has been freed. */
  lemma StrayPostReached() returns (t: State)
    ensures Reached(Trace(), t) && Stray(t, 1) && t.processes[1].wait.receiver == 2 && 2 !in Blocks(t)
  {
    var s5 := Closed5();
    var k := ReapStep(Trace()[..5], s5, 2);
    t := Reaped(s5, 2);
    Next(5, t);
    assert Trace()[..6] == Trace();
  }
}

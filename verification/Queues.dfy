/**
 The self-relative queues of the shared region (csv/css.c, csv/csi.h): circular, doubly linked,
 threaded through the blocks they connect.  A `Link` names the place of one SRQ word pair; in the
 region that is an offset inside a block, here the block and the field.
 */
module Queues {

  datatype Link =
    | ProcessesHead               // csh_processes
    | ProcessNode(p: int)         // prb_processes
    | ConnectionsHead(p: int)     // prb_connections
    | ConnectionNode(c: int)      // cnct_connections
    | MessagesHead(p: int)        // prb_messages
    | MessageNode(m: int)         // msg_que
  {
    predicate IsHead() { ProcessesHead? || ConnectionsHead? || MessagesHead? }
  }

  type Queue = seq<Link>
  type Arrows = map<Link, Link>

  ghost predicate NoDup(q: Queue)
  {
    forall i, j :: 0 <= i < j < |q| ==> q[i] != q[j]
  }

  ghost predicate Joined(fw: Arrows, bw: Arrows, x: Link, y: Link)
  {
    x in fw && fw[x] == y && y in bw && bw[y] == x
  }

  /** From `x` the forward links visit `q` and then `y`; the backward links retrace the way. */
  ghost predicate Path(fw: Arrows, bw: Arrows, x: Link, q: Queue, y: Link)
    decreases |q|
  {
    if q == [] then Joined(fw, bw, x, y)
    else Joined(fw, bw, x, q[0]) && Path(fw, bw, q[0], q[1..], y)
  }

  ghost predicate Ring(fw: Arrows, bw: Arrows, head: Link, q: Queue)
  {
    Path(fw, bw, head, q, head)
  }

  lemma {:induction false} PathConcat(fw: Arrows, bw: Arrows, x: Link, a: Queue, n: Link, b: Queue, y: Link)
    ensures Path(fw, bw, x, a + [n] + b, y) <==> Path(fw, bw, x, a, n) && Path(fw, bw, n, b, y)
    decreases |a|
  {
    if a == [] {
      assert a + [n] + b == [n] + b && ([n] + b)[1..] == b;
    } else {
      PathConcat(fw, bw, a[0], a[1..], n, b, y);
      assert (a + [n] + b)[1..] == a[1..] + [n] + b;
    }
  }

  /** A path reads only the forward links of its nodes and start, and the backward links of its nodes and end. */
  lemma {:induction false} PathFrame(fw: Arrows, bw: Arrows, fw': Arrows, bw': Arrows, x: Link, q: Queue, y: Link)
    requires Path(fw, bw, x, q, y)
    requires x in fw ==> x in fw' && fw'[x] == fw[x]
    requires y in bw ==> y in bw' && bw'[y] == bw[y]
    requires forall n :: n in q && n in fw ==> n in fw' && fw'[n] == fw[n]
    requires forall n :: n in q && n in bw ==> n in bw' && bw'[n] == bw[n]
    ensures Path(fw', bw', x, q, y)
    decreases |q|
  {
    if q != [] {
      assert q[0] in q;
      PathFrame(fw, bw, fw', bw', q[0], q[1..], y);
    }
  }

  /** The queue at `h` is a ring of distinct nodes. */
  ghost predicate Sound(fw: Arrows, bw: Arrows, queues: map<Link, Queue>, h: Link)
    requires h in queues
  {
    var q := queues[h];
    h.IsHead() && Ring(fw, bw, h, q) && NoDup(q) && forall n :: n in q ==> !n.IsHead()
  }

  ghost predicate Apart(queues: map<Link, Queue>, h: Link, h': Link)
    requires h in queues && h' in queues
  {
    forall n :: n in queues[h] ==> n !in queues[h']
  }

  /** Every queue is a ring, and no link belongs to two of them. */
  ghost predicate Rings(fw: Arrows, bw: Arrows, queues: map<Link, Queue>)
  {
    && (forall h {:trigger Sound(fw, bw, queues, h)} :: h in queues ==> Sound(fw, bw, queues, h))
    && (forall h, h' {:trigger Apart(queues, h, h')} :: h in queues && h' in queues && h != h' ==> Apart(queues, h, h'))
  }

  ghost predicate Queued(queues: map<Link, Queue>, n: Link)
  {
    exists h :: h in queues && n in queues[h]
  }

  /** The queue without its node at position `k`. */
  ghost function Cut(q: Queue, k: nat): Queue
    requires k < |q|
  {
    q[..k] + q[k + 1..]
  }

  ghost function Before(head: Link, q: Queue, k: nat): Link
    requires k <= |q|
  {
    if k == 0 then head else q[k - 1]
  }

  ghost function After(head: Link, q: Queue, k: nat): Link
    requires k < |q|
  {
    if k + 1 == |q| then head else q[k + 1]
  }

  /** In a ring, what a node's two links say. */
  lemma RingAt(fw: Arrows, bw: Arrows, head: Link, q: Queue, k: nat)
    requires Ring(fw, bw, head, q) && k < |q|
    ensures Joined(fw, bw, Before(head, q, k), q[k]) && Joined(fw, bw, q[k], After(head, q, k))
    ensures Path(fw, bw, head, q[..k], q[k]) && Path(fw, bw, q[k], q[k + 1..], head)
  {
    assert q == q[..k] + [q[k]] + q[k + 1..];
    PathConcat(fw, bw, head, q[..k], q[k], q[k + 1..], head);
    PathEnds(fw, bw, head, q[..k], q[k]);
    PathEnds(fw, bw, q[k], q[k + 1..], head);
  }

  lemma {:induction false} PathEnds(fw: Arrows, bw: Arrows, x: Link, q: Queue, y: Link)
    requires Path(fw, bw, x, q, y)
    ensures Joined(fw, bw, if q == [] then x else q[|q| - 1], y)
    ensures Joined(fw, bw, x, if q == [] then y else q[0])
    decreases |q|
  {
    if q != [] {
      PathEnds(fw, bw, q[0], q[1..], y);
    }
  }

  /** Changing where a path leads means changing one forward and one backward link. */
  lemma Retarget(fw: Arrows, bw: Arrows, x: Link, q: Queue, y: Link, z: Link)
    requires Path(fw, bw, x, q, y) && NoDup(q) && x !in q && z !in q
    ensures var last := if q == [] then x else q[|q| - 1];
            Path(fw[last := z], bw[z := last], x, q, z)
  {
    if q != [] {
      var a, last := q[..|q| - 1], q[|q| - 1];
      var fw', bw' := fw[last := z], bw[z := last];
      assert a + [last] + [] == q;
      PathConcat(fw, bw, x, a, last, [], y);
      PathFrame(fw, bw, fw', bw', x, a, last);
      PathConcat(fw', bw', x, a, last, [], z);
    }
  }

  /** insert_tail on one ring. */
  lemma Inserted(fw: Arrows, bw: Arrows, head: Link, q: Queue, n: Link)
    requires Ring(fw, bw, head, q) && NoDup(q) && head !in q && n !in q && n != head
    ensures head in bw
    ensures var last := bw[head];
            last == Before(head, q, |q|)
            && Ring(fw[n := head][last := n], bw[n := last][head := n], head, q + [n])
  {
    PathEnds(fw, bw, head, q, head);
    var last := bw[head];
    PathFrame(fw, bw, fw[n := head], bw, head, q, head);
    Retarget(fw[n := head], bw, head, q, head, n);
    var fw', bw' := fw[n := head][last := n], bw[n := last][head := n];
    PathFrame(fw', bw[n := last], fw', bw', head, q, n);
    PathConcat(fw', bw', head, q, n, [], head);
    assert q + [n] + [] == q + [n];
  }

  /** remove_que on one ring. */
  lemma Removed(fw: Arrows, bw: Arrows, head: Link, q: Queue, k: nat)
    requires Ring(fw, bw, head, q) && NoDup(q) && head !in q && k < |q|
    ensures q[k] in fw && q[k] in bw
    ensures var next, prior := fw[q[k]], bw[q[k]];
            next == After(head, q, k) && prior == Before(head, q, k)
            && Ring(fw[prior := next], bw[next := prior], head, Cut(q, k))
  {
    RingAt(fw, bw, head, q, k);
    var n, next, prior := q[k], fw[q[k]], bw[q[k]];
    var a, b := q[..k], q[k + 1..];
    var fw', bw' := fw[prior := next], bw[next := prior];
    Retarget(fw, bw, head, a, n, next);
    if b == [] {
      assert Cut(q, k) == a;
    } else {
      assert [] + [next] + b[1..] == b;
      PathConcat(fw, bw, n, [], next, b[1..], head);
      PathFrame(fw, bw, fw', bw', next, b[1..], head);
      PathConcat(fw', bw', head, a, next, b[1..], head);
      assert Cut(q, k) == a + [next] + b[1..];
    }
  }

  /** Links changed only at `n`, at the head of `h`'s ring and at its nodes leave every other ring alone. */
  lemma OtherRings(fw: Arrows, bw: Arrows, fw': Arrows, bw': Arrows, queues: map<Link, Queue>, h: Link, n: Link, h': Link)
    requires h in queues && h' in queues && h' != h && n != h' && n !in queues[h']
    requires Sound(fw, bw, queues, h) && Sound(fw, bw, queues, h') && Apart(queues, h', h)
    requires forall x :: x != n && x != h && x !in queues[h] && x in fw ==> x in fw' && fw'[x] == fw[x]
    requires forall x :: x != n && x != h && x !in queues[h] && x in bw ==> x in bw' && bw'[x] == bw[x]
    ensures Ring(fw', bw', h', queues[h'])
  {
    PathFrame(fw, bw, fw', bw', h', queues[h'], h');
  }

  lemma RingsInsert(fw: Arrows, bw: Arrows, queues: map<Link, Queue>, h: Link, n: Link)
    requires Rings(fw, bw, queues) && h in queues && !n.IsHead() && !Queued(queues, n)
    ensures h in bw
    ensures Rings(fw[n := h][bw[h] := n], bw[n := bw[h]][h := n], queues[h := queues[h] + [n]])
  {
    var q := queues[h];
    assert Sound(fw, bw, queues, h) && n !in q;
    Inserted(fw, bw, h, q, n);
    var fw', bw', queues' := fw[n := h][bw[h] := n], bw[n := bw[h]][h := n], queues[h := q + [n]];
    assert bw[h] == h || bw[h] in q;
    forall h' | h' in queues'
      ensures Sound(fw', bw', queues', h')
    {
      if h' != h {
        assert Sound(fw, bw, queues, h') && Apart(queues, h', h);
        OtherRings(fw, bw, fw', bw', queues, h, n, h');
      }
    }
    forall h1, h2 | h1 in queues' && h2 in queues' && h1 != h2
      ensures Apart(queues', h1, h2)
    {
      assert Apart(queues, h1, h2);
    }
  }

  /** The ring the node is taken from, with the node's own links gone. */
  lemma RingRemove(fw: Arrows, bw: Arrows, h: Link, q: Queue, k: nat)
    requires Ring(fw, bw, h, q) && NoDup(q) && h !in q && k < |q|
    ensures var n := q[k];
            && n in fw && n in bw && fw[n] == After(h, q, k) && bw[n] == Before(h, q, k)
            && (bw[n] == h || bw[n] in q) && (fw[n] == h || fw[n] in q)
            && Ring(fw[bw[n] := fw[n]] - {n}, bw[fw[n] := bw[n]] - {n}, h, Cut(q, k))
  {
    Removed(fw, bw, h, q, k);
    var n := q[k];
    var fw1, bw1 := fw[bw[n] := fw[n]], bw[fw[n] := bw[n]];
    CutKeeps(q, k);
    PathFrame(fw1, bw1, fw1 - {n}, bw1 - {n}, h, Cut(q, k), h);
  }

  lemma RingsRemove(fw: Arrows, bw: Arrows, queues: map<Link, Queue>, h: Link, k: nat)
    requires Rings(fw, bw, queues) && h in queues && k < |queues[h]|
    ensures var n := queues[h][k];
            && n in fw && n in bw
            && fw[n] == After(h, queues[h], k) && bw[n] == Before(h, queues[h], k)
            && Rings(fw[bw[n] := fw[n]] - {n}, bw[fw[n] := bw[n]] - {n}, queues[h := Cut(queues[h], k)])
  {
    var q := queues[h];
    var n := q[k];
    assert Sound(fw, bw, queues, h) && n in q;
    RingRemove(fw, bw, h, q, k);
    var fw', bw', queues' := fw[bw[n] := fw[n]] - {n}, bw[fw[n] := bw[n]] - {n}, queues[h := Cut(q, k)];
    CutKeeps(q, k);
    forall h' | h' in queues'
      ensures Sound(fw', bw', queues', h')
    {
      if h' != h {
        assert Sound(fw, bw, queues, h') && Apart(queues, h', h);
        OtherRings(fw, bw, fw', bw', queues, h, n, h');
      }
    }
    forall h1, h2 | h1 in queues' && h2 in queues' && h1 != h2
      ensures Apart(queues', h1, h2)
    {
      assert Apart(queues, h1, h2);
    }
  }

  lemma CutKeeps(q: Queue, k: nat)
    requires NoDup(q) && k < |q|
    ensures NoDup(Cut(q, k)) && forall x :: x in Cut(q, k) <==> x in q && x != q[k]
  {
    assert forall x :: x in q ==> x in q[..k] || x == q[k] || x in q[k + 1..];
  }

  /** A new queue starts out as a head linked to itself. */
  lemma RingsInit(fw: Arrows, bw: Arrows, queues: map<Link, Queue>, h: Link)
    requires Rings(fw, bw, queues) && h.IsHead() && h !in queues
    ensures Rings(fw[h := h], bw[h := h], queues[h := []])
  {
    var fw', bw', queues' := fw[h := h], bw[h := h], queues[h := []];
    forall h' | h' in queues'
      ensures Sound(fw', bw', queues', h')
    {
      if h' != h {
        assert Sound(fw, bw, queues, h');
        PathFrame(fw, bw, fw', bw', h', queues[h'], h');
      }
    }
    forall h1, h2 | h1 in queues' && h2 in queues' && h1 != h2
      ensures Apart(queues', h1, h2)
    {
      assert h1 != h && h2 != h ==> Apart(queues, h1, h2);
    }
  }

  /** Queues can be forgotten. */
  lemma RingsDrop(fw: Arrows, bw: Arrows, queues: map<Link, Queue>, hs: set<Link>)
    requires Rings(fw, bw, queues)
    ensures Rings(fw, bw, queues - hs)
  {
    var queues' := queues - hs;
    forall h | h in queues' ensures Sound(fw, bw, queues', h) {
      assert Sound(fw, bw, queues, h);
    }
    forall h1, h2 | h1 in queues' && h2 in queues' && h1 != h2 ensures Apart(queues', h1, h2) {
      assert Apart(queues, h1, h2);
    }
  }

  ghost function NodeAt(head: Link, q: Queue, i: nat): Link
    requires i <= |q|
  {
    if i < |q| then q[i] else head
  }

  /** One step of QUE_LOOP, and one step back. */
  lemma Walk(fw: Arrows, bw: Arrows, queues: map<Link, Queue>, h: Link, i: nat)
    requires Rings(fw, bw, queues) && h in queues && i <= |queues[h]|
    ensures Joined(fw, bw, Before(h, queues[h], i), NodeAt(h, queues[h], i))
    ensures NodeAt(h, queues[h], i) == h <==> i == |queues[h]|
  {
    assert Sound(fw, bw, queues, h);
    var q := queues[h];
    PathEnds(fw, bw, h, q, h);
    if i < |q| {
      RingAt(fw, bw, h, q, i);
      assert q[i] in q;
    }
  }

  class Links {
    var forward: Arrows
    var backward: Arrows
    ghost var queues: map<Link, Queue>

    ghost predicate Valid()
      reads this
    {
      Rings(forward, backward, queues)
    }

    constructor ()
      ensures Valid() && queues == map[]
    {
      forward, backward, queues := map[], map[], map[];
    }

    /** QUE_INIT. */
    method Init(head: Link)
      requires Valid() && head.IsHead() && head !in queues
      modifies this
      ensures Valid() && queues == old(queues)[head := []]
    {
      RingsInit(forward, backward, queues, head);
      forward, backward := forward[head := head], backward[head := head];
      queues := queues[head := []];
    }

    /** insert_tail. */
    method InsertTail(que: Link, node: Link)
      requires Valid() && que in queues && !node.IsHead() && !Queued(queues, node)
      modifies this
      ensures Valid() && queues == old(queues)[que := old(queues)[que] + [node]]
    {
      RingsInsert(forward, backward, queues, que, node);
      forward := forward[node := que];
      var prior := backward[que];
      backward := backward[node := prior];
      forward := forward[prior := node];
      backward := backward[que := node];
      queues := queues[que := queues[que] + [node]];
    }

    /** remove_que; the node's own links are cleared. */
    method RemoveQue(node: Link, ghost que: Link, ghost k: nat)
      requires Valid() && que in queues && k < |queues[que]| && queues[que][k] == node
      modifies this
      ensures Valid() && queues == old(queues)[que := Cut(old(queues)[que], k)]
    {
      RingsRemove(forward, backward, queues, que, k);
      var next, prior := forward[node], backward[node];
      backward := backward[next := prior];
      forward := forward[prior := next];
      forward, backward := forward - {node}, backward - {node};
      queues := queues[que := Cut(queues[que], k)];
    }

    /** The heads of a block that is being freed go with it. */
    ghost method Forget(hs: set<Link>)
      requires Valid()
      modifies `queues
      ensures Valid() && queues == old(queues) - hs
    {
      RingsDrop(forward, backward, queues, hs);
      queues := queues - hs;
    }
  }
}

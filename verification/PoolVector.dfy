/**
 The vector of all pools (dsql/alld.c): finding the pool of a block, making and releasing pools, and
 shutting down. The vector itself is a block of pool 0, and each pool block lies in its own pool.
 */
module PoolVectors {

  import opened PoolTiles
  import opened Pools

  /** sizeof (struct plb), and the size of a vector of n pointers. */
  const PLB_BYTES := 24
  function VecBytes(n: nat): nat { if n > 1 then 12 + (n - 1) * 4 else 12 }

  predicate Readable(mapped: set<Span>, a: int) { exists s :: s in mapped && s.Has(a) }

  lemma {:induction false} ExtentIn(hs: seq<Hunk>, i: nat)
    requires i < |hs|
    ensures hs[i].Extent() in Extents(hs) && hs[i].Extent() in Extents(hs[i..]) && Extents(hs[i..]) <= Extents(hs)
  {
    if i > 0 {
      ExtentIn(hs[1..], i - 1);
      assert hs[1..][i - 1..] == hs[i..];
    } else {
      assert hs[0..] == hs;
    }
  }

  /** Which longwords a pool owns is visible from its hunks. */
  lemma {:induction false} OwnsIff(hs: seq<Hunk>, a: int)
    ensures (exists s :: s in Extents(hs) && s.Has(a)) <==> exists i :: 0 <= i < |hs| && hs[i].Extent().Has(a)
  {
    if hs != [] {
      OwnsIff(hs[1..], a);
      if i :| 0 <= i < |hs| && hs[i].Extent().Has(a) {
        ExtentIn(hs, i);
      }
      if s :| s in Extents(hs) && s.Has(a) {
        if s in Extents(hs[1..]) {
          var i :| 0 <= i < |hs[1..]| && hs[1..][i].Extent().Has(a);
          assert hs[i + 1] == hs[1..][i];
        }
      }
    }
  }

  /** A longword belongs to the pool exactly if one of the pool's hunks covers it. */
  lemma Territory(p: Pool, a: int)
    requires p.Valid()
    ensures a in p.cell <==> exists i :: 0 <= i < |p.hunks| && p.hunks[i].Extent().Has(a)
  {
    OwnsIff(p.hunks, a);
    if a in p.cell {
      assert CellOk(p.header, p.cell, a);
      assert p.cell[a].span.Has(a);
    }
    if s :| s in p.spans && s.Has(a) {
      assert InSpan(p.cell, s.lo, a);
    }
  }

  /** Who owns what: no longword and no hunk belongs to two slots, and the mapped hunks are exactly those owned. */
  ghost predicate Shared(keys: seq<set<int>>, hold: seq<set<Span>>, mapped: set<Span>)
  {
    && |keys| == |hold|
    && (forall i, j :: 0 <= i < j < |keys| ==> keys[i] !! keys[j])
    && (forall i, j :: 0 <= i < j < |hold| ==> hold[i] !! hold[j])
    && (forall i :: 0 <= i < |hold| ==> hold[i] <= mapped)
    && (forall s :: s in mapped ==> exists i :: 0 <= i < |hold| && s in hold[i])
  }

  /** A slot given up. */
  lemma SharedDrop(keys: seq<set<int>>, hold: seq<set<Span>>, mapped: set<Span>, i: nat)
    requires Shared(keys, hold, mapped) && i < |keys|
    ensures Shared(keys[i := {}], hold[i := {}], mapped - hold[i])
  {
    var hold' := hold[i := {}];
    forall s | s in mapped - hold[i] ensures exists j :: 0 <= j < |hold'| && s in hold'[j] {
      var j :| 0 <= j < |hold| && s in hold[j];
      assert s in hold'[j];
    }
  }

  /** A slot grown by at most one hunk, clear of all the others. */
  lemma SharedGrow(keys: seq<set<int>>, hold: seq<set<Span>>, mapped: set<Span>, i: nat, k: set<int>, h: set<Span>, s: Span)
    requires Shared(keys, hold, mapped) && i < |keys|
    requires k <= keys[i] + s.Units() && hold[i] <= h <= hold[i] + {s}
    requires forall j :: 0 <= j < |keys| ==> keys[j] !! s.Units()
    requires forall j :: 0 <= j < |hold| ==> s !in hold[j]
    ensures Shared(keys[i := k], hold[i := h], mapped + h)
  {
    var hold' := hold[i := h];
    forall x | x in mapped + h ensures exists j :: 0 <= j < |hold'| && x in hold'[j] {
      if x in h {
        assert x in hold'[i];
      } else {
        var j :| 0 <= j < |hold| && x in hold[j];
        assert x in hold'[j];
      }
    }
  }

  lemma SharedClear(keys: seq<set<int>>, hold: seq<set<Span>>, mapped: set<Span>, i: nat, k: set<int>, h: set<Span>, s: Span)
    requires Shared(keys, hold, mapped) && i < |keys| && s.lo < s.hi && forall j :: 0 <= j < |hold| ==> Rooted(keys[j], hold[j])
    requires k <= keys[i] + s.Units() && hold[i] <= h <= hold[i] + {s} && forall j :: 0 <= j < |keys| ==> Clear(keys[j], s)
    ensures Shared(keys[i := k], hold[i := h], mapped + h)
  {
    assert s.Has(s.lo);
    forall j | 0 <= j < |hold| ensures s !in hold[j] {
      assert Rooted(keys[j], hold[j]);
    }
    SharedGrow(keys, hold, mapped, i, k, h, s);
  }

  lemma SharedMore(keys: seq<set<int>>, hold: seq<set<Span>>, mapped: set<Span>, n: nat)
    requires Shared(keys, hold, mapped)
    ensures Shared(keys + seq(n, _ => {}), hold + seq(n, _ => {}), mapped)
  {
    var hold' := hold + seq(n, _ => {});
    forall s | s in mapped ensures exists j :: 0 <= j < |hold'| && s in hold'[j] {
      var j :| 0 <= j < |hold| && s in hold[j];
      assert s in hold'[j];
    }
  }

  /** A pool knows its slot, is sound, and its own block lies in its oldest hunk. */
  ghost predicate Slot(p: Pool?, i: int, a: int, k: set<int>, h: set<Span>)
    reads p
  {
    if p == null then k == {} && h == {} && a == 0
    else p.id == i && p.Valid() && p.cell.Keys == k && p.spans == h && Housed(p.hunks, p.header, p.cell, a)
  }

  /** vec_count and vec_object, as they lie in the vector's block; what is behind the slots is zero. */
  ghost predicate Slots(word: map<int, int>, v: int, size: int, plb: seq<int>)
  {
    At(word, v + 1) == |plb| && forall u :: v + 2 <= u < v + size ==> At(word, u) == if u - v - 2 < |plb| then plb[u - v - 2] else 0
  }

  lemma SlotsKept(live: Headers, w: map<int, int>, w': map<int, int>, v: int, plb: seq<int>)
    requires Kept(live, w, w') && v in live && live[v].size >= 2 && Slots(w, v, live[v].size, plb)
    requires forall u :: v <= u < v + live[v].size ==> u in w
    ensures Slots(w', v, live[v].size, plb)
  {
    forall u | v <= u < v + live[v].size ensures At(w', u) == At(w, u) {
      assert InBlock(live, v, u);
    }
  }

  /** Copied into another block, with zeros beyond, the slots are the same. */
  lemma SlotsCarried(w: map<int, int>, b: int, m: int, w': map<int, int>, r: int, n: int, plb: seq<int>)
    requires Slots(w, b, m, plb) && Carried(w, b, m, w', r, n) && m >= |plb| + 2 && n >= 2
    ensures Slots(w', r, n, plb)
  {
    forall u | r + 2 <= u < r + n ensures At(w', u) == if u - r - 2 < |plb| then plb[u - r - 2] else 0 {
      if u - r < m {
        assert At(w, b + (u - r)) == if u - r - 2 < |plb| then plb[u - r - 2] else 0;
      }
    }
  }

  lemma SlotWritten(w: map<int, int>, v: int, size: int, plb: seq<int>, i: nat, x: int)
    requires Slots(w, v, size, plb) && i < |plb| && size >= |plb| + 2
    ensures Slots(w[v + 2 + i := x], v, size, plb[i := x])
  {
    var w' := w[v + 2 + i := x];
    forall u | v + 2 <= u < v + size ensures At(w', u) == if u - v - 2 < |plb| then plb[i := x][u - v - 2] else 0 {
      assert u != v + 2 + i ==> At(w', u) == At(w, u);
    }
    assert At(w', v + 1) == At(w, v + 1);
  }

  lemma CountWritten(w: map<int, int>, v: int, size: int, plb: seq<int>, n: nat)
    requires Slots(w, v, size, plb) && |plb| <= n
    ensures Slots(w[v + 1 := n], v, size, plb + Zeros(n - |plb|))
  {
    var w' := w[v + 1 := n];
    forall u | v + 2 <= u < v + size
      ensures At(w', u) == if u - v - 2 < n then (plb + Zeros(n - |plb|))[u - v - 2] else 0
    {
      assert At(w', u) == At(w, u);
    }
  }

  function Zeros(n: nat): seq<int> { seq(n, _ => 0) }

  class PoolVector {
    var pools: seq<Pool?>
    var plb: seq<int>
    var vector: int
    var mapped: set<Span>
    ghost var keys: seq<set<int>>
    ghost var hold: seq<set<Span>>

    /** ALLD_init: pool 0 first, from a vector on the stack, and then the real vector inside it. */
    constructor (offer: int, more: int)
      requires 0 < offer && Clear(Span(offer, offer + HunkUnits(PLB_BYTES)).Units(), Span(more, more + HunkUnits(VecBytes(10))))
      ensures Valid() && fresh(pools[0]) && |pools| == 10 && forall j :: 1 <= j < 10 ==> pools[j] == null
    {
      pools, plb, keys, hold, mapped, vector := [null], [0], [{}], [{}], {}, 0;
      new;
      assert PoolOk(0) && Shared(keys, hold, mapped);
      Found(0, offer);
      InstallVector(more);
      Lengthen(10);
    }

    /** The real vector, with room for ten pools and the first one in it. */
    method InstallVector(more: int)
      requires Sound() && |pools| == 1 && pools[0] != null && Offered(more, VecBytes(10))
      modifies this`vector, this`mapped, this`keys, this`hold, pools[0]
      ensures Sound() && SeatedAs(plb + Zeros(9))
    {
      vector := AllocIn(0, Vec, VecBytes(10), more);
      VectorWords();
      WriteCount(10, []);
      WriteSlot(0, plb[0], Zeros(10));
      assert plb + Zeros(9) == Zeros(10)[0 := plb[0]];
    }

    ghost predicate PoolOk(i: int)
      requires 0 <= i < |pools| == |plb| == |keys| == |hold|
      reads this`pools, this`plb, this`keys, this`hold, pools
    {
      Slot(pools[i], i, plb[i], keys[i], hold[i])
    }

    /** Every slot is what its entries say. */
    ghost predicate Slotted()
      reads this`pools, this`plb, this`keys, this`hold, pools
    {
      |pools| == |plb| == |keys| == |hold| && forall i :: 0 <= i < |pools| ==> PoolOk(i)
    }

    ghost predicate Sound()
      reads this`pools, this`plb, this`keys, this`hold, this`mapped, pools
    {
      Slotted() && Shared(keys, hold, mapped)
    }

    /** The vector is a block of pool 0, big enough for its slots, and holds `ps`. */
    ghost predicate SeatedAs(ps: seq<int>)
      reads this`pools, this`vector, if |pools| > 0 then {pools[0]} else {}
    {
      && |pools| > 0 && pools[0] != null
      && vector in LiveMap(pools[0].header) && pools[0].header[vector].kind == Vec
      && pools[0].header[vector].size >= |ps| + 2
      && Slots(pools[0].word, vector, pools[0].header[vector].size, ps)
    }

    ghost predicate Seated()
      reads this`pools, this`vector, this`plb, if |pools| > 0 then {pools[0]} else {}
    {
      SeatedAs(plb)
    }

    /** The longwords of the vector's block are there to be read and written. */
    lemma VectorWords()
      requires Sound() && |pools| > 0 && pools[0] != null && vector in LiveMap(pools[0].header)
      ensures pools[0].Valid() && pools[0].header[vector].size >= FRB_UNITS
      ensures forall u :: vector <= u < vector + pools[0].header[vector].size ==> u in pools[0].word
    {
      assert PoolOk(0);
      BlockWords(pools[0].header, pools[0].cell, vector);
    }

    /** A longword of pool 0 written: no pool is the worse for it. */
    method WriteWord(u: int, x: int)
      requires Sound() && |pools| > 0 && pools[0] != null && u in pools[0].word
      modifies pools[0]
      ensures Sound() && pools[0].word == old(pools[0].word)[u := x]
      ensures pools[0].header == old(pools[0].header) && pools[0].cell == old(pools[0].cell) && pools[0].hunks == old(pools[0].hunks)
      ensures pools[0].spans == old(pools[0].spans)
    {
      Begin(0);
      pools[0].Poke(u, x);
      forall j | 0 <= j < |pools| ensures PoolOk(j) {
        assert old(PoolOk(j));
      }
    }

    /** vec_object [i] = x */
    method WriteSlot(i: nat, x: int, ghost ps: seq<int>)
      requires Sound() && SeatedAs(ps) && i < |ps|
      modifies pools[0]
      ensures Sound() && SeatedAs(ps[i := x])
      ensures pools[0].header == old(pools[0].header) && pools[0].cell == old(pools[0].cell) && pools[0].hunks == old(pools[0].hunks)
      ensures pools[0].spans == old(pools[0].spans)
    {
      VectorWords();
      SlotWritten(pools[0].word, vector, pools[0].header[vector].size, ps, i, x);
      WriteWord(vector + 2 + i, x);
    }

    /** vec_count = n */
    method WriteCount(n: nat, ghost ps: seq<int>)
      requires Sound() && SeatedAs(ps) && |ps| <= n && pools[0].header[vector].size >= n + 2
      modifies pools[0]
      ensures Sound() && SeatedAs(ps + Zeros(n - |ps|))
      ensures pools[0].header == old(pools[0].header) && pools[0].cell == old(pools[0].cell) && pools[0].hunks == old(pools[0].hunks)
      ensures pools[0].spans == old(pools[0].spans)
    {
      VectorWords();
      CountWritten(pools[0].word, vector, pools[0].header[vector].size, ps, n);
      WriteWord(vector + 1, n);
    }

    ghost predicate Valid()
      reads this, pools
    {
      Sound() && Seated()
    }

    /** Whether one of the pool's hunks covers the address. */
    method Covers(p: Pool, a: int) returns (found: bool)
      requires p.Valid()
      ensures found == (a in p.cell)
    {
      Territory(p, a);
      var k := 0;
      while k < |p.hunks|
        invariant 0 <= k <= |p.hunks|
        invariant forall i :: 0 <= i < k ==> !p.hunks[i].Extent().Has(a)
      {
        if a >= p.hunks[k].address && a < p.hunks[k].address + p.hunks[k].units {
          assert p.hunks[k].Extent().Has(a);
          return true;
        }
        k := k + 1;
      }
      return false;
    }

    /** find_pool: from the low byte of the pool id in the block's header. */
    method FindPool(b: int, mod: int, ghost owner: int) returns (r: int)
      requires Valid() && 0 <= owner < |pools| && pools[owner] != null
      requires b in pools[owner].header && mod == pools[owner].header[b].mod
      ensures r == owner
    {
      ghost var q := OwnerOf(b, owner);
      if |pools| < 256 {
        return mod;
      }
      r := mod;
      ghost var k := 0;
      while r < |pools|
        invariant 0 <= k <= q && r == mod + 256 * k && owner == mod + 256 * q
        decreases |pools| - r
      {
        if pools[r] != null {
          OneOwner(r, owner, b);
          var found := Covers(pools[r], b);
          if found {
            return;
          }
        }
        r := r + 256;
        k := k + 1;
      }
      assert false;
    }

    lemma OwnerOf(b: int, owner: int) returns (q: nat)
      requires Sound() && 0 <= owner < |pools| && pools[owner] != null && b in pools[owner].header
      ensures b in pools[owner].cell && pools[owner].header[b].mod == owner % 256 && owner == owner % 256 + 256 * q
    {
      assert PoolOk(owner);
      BlockAt(pools[owner].header, pools[owner].cell, b);
      q := owner / 256;
    }

    lemma OneOwner(r: int, owner: int, b: int)
      requires Sound() && 0 <= r < |pools| && 0 <= owner < |pools| && pools[r] != null && pools[owner] != null
      requires b in pools[owner].cell
      ensures pools[r].Valid() && (b in pools[r].cell <==> r == owner)
    {
      assert PoolOk(r) && PoolOk(owner);
      assert r < owner ==> keys[r] !! keys[owner];
      assert owner < r ==> keys[owner] !! keys[r];
    }

    /** The walk of ALLD_rlpool over the hunks, newest first: each descriptor is read, then its hunk is freed. */
    method FreeHunks(p: Pool) returns (safe: bool)
      requires p.Valid() && p.spans <= mapped
      modifies this`mapped
      ensures safe && mapped == old(mapped) - p.spans
    {
      safe := true;
      var k := 0;
      assert p.hunks[0..] == p.hunks;
      while k < |p.hunks|
        invariant 0 <= k <= |p.hunks| && safe
        invariant Extents(p.hunks[k..]) <= p.spans
        invariant mapped == old(mapped) - (p.spans - Extents(p.hunks[k..]))
      {
        var hunk := p.hunks[k];
        DescriptorAt(p.hunks, p.header, p.cell, k);
        assert CellOk(p.header, p.cell, hunk.at);
        assert p.cell[hunk.at].span in mapped && p.cell[hunk.at].span.Has(hunk.at);
        safe := safe && Readable(mapped, hunk.at);
        mapped := mapped - {hunk.Extent()};
        k := k + 1;
      }
      assert p.hunks[k..] == [];
    }

    /** ALLD_rlpool. `safe` tells whether every block it reads or writes was still mapped at that point. */
    method ReleasePool(i: int) returns (safe: bool)
      requires Valid() && 0 <= i < |pools| && pools[i] != null
      modifies this`pools, this`plb, this`mapped, this`keys, this`hold, pools[0]
      ensures safe
      ensures pools == old(pools)[i := null] && mapped == old(mapped) - old(pools[i].spans)
      ensures Sound() && (i != 0 ==> Valid())
    {
      var readable := InReach(i);
      var p := pools[i];
      ClearSlot(i);
      safe := FreeHunks(p);
      safe := safe && readable;
    }

    /** Whether the vector and the pool's own block are mapped. */
    method InReach(i: int) returns (readable: bool)
      requires Valid() && 0 <= i < |pools| && pools[i] != null
      ensures readable && pools[i].spans == hold[i] <= mapped
    {
      Reachable(i);
      readable := Readable(mapped, vector) && Readable(mapped, plb[i]);
    }

    lemma Reachable(i: int)
      requires Valid() && 0 <= i < |pools| && pools[i] != null
      ensures Readable(mapped, vector) && Readable(mapped, plb[i]) && pools[i].Valid() && pools[i].spans == hold[i] <= mapped
    {
      assert PoolOk(i) && PoolOk(0);
      SpanMapped(pools[0], vector);
      SpanMapped(pools[i], plb[i]);
    }

    /** The slot is set to NULL before the hunks are freed. */
    method ClearSlot(i: int)
      requires Valid() && 0 <= i < |pools|
      modifies this`pools, this`plb, this`keys, this`hold, pools[0]
      ensures pools == old(pools)[i := null] && keys == old(keys)[i := {}] && hold == old(hold)[i := {}]
      ensures Slotted() && Shared(keys, hold, mapped - old(hold[i]))
      ensures i != 0 ==> Seated()
      ensures old(pools[i]) != null ==> old(pools[i]).Valid() && old(pools[i]).spans == old(hold[i])
    {
      WriteSlot(i, 0, plb);
      DropSlot(i);
    }

    method DropSlot(i: int)
      requires Sound() && 0 <= i < |pools| && SeatedAs(plb[i := 0])
      modifies this`pools, this`plb, this`keys, this`hold
      ensures pools == old(pools)[i := null] && keys == old(keys)[i := {}] && hold == old(hold)[i := {}]
      ensures Slotted() && Shared(keys, hold, mapped - old(hold[i]))
      ensures i != 0 ==> Seated()
      ensures old(pools[i]) != null ==> old(pools[i]).Valid() && old(pools[i]).spans == old(hold[i])
    {
      assert PoolOk(i);
      SharedDrop(keys, hold, mapped, i);
      pools, plb := pools[i := null], plb[i := 0];
      keys, hold := keys[i := {}], hold[i := {}];
      forall j | 0 <= j < |pools| ensures PoolOk(j) {
        assert old(PoolOk(j));
      }
    }

    /** One step of ALLD_fini: reads slot `i` of the vector and releases the pool there. */
    method FiniStep(i: int) returns (safe: bool)
      requires Valid() && 0 <= i < |pools|
      modifies this`pools, this`plb, this`mapped, this`keys, this`hold, pools[0]
      ensures safe && Sound() && (i != 0 ==> Valid()) && pools == old(pools)[i := null]
    {
      var pool;
      pool, safe := ReadSlot(i);
      if pool != 0 {
        var ok := ReleasePool(i);
        safe := safe && ok;
      }
    }

    /** vec_object [i], read from the vector's block while that is mapped. */
    method ReadSlot(i: int) returns (pool: int, safe: bool)
      requires Valid() && 0 <= i < |pools|
      ensures safe && pool == plb[i] && (pool == 0 <==> pools[i] == null)
    {
      Reachable(0);
      VectorWords();
      safe := Readable(mapped, vector);
      assert PoolOk(i);
      if pools[i] != null { BlockAt(pools[i].header, pools[i].cell, plb[i]); }
      assert At(pools[0].word, vector + 2 + i) == plb[i];
      pool := pools[0].word[vector + 2 + i];
    }

    /** ALLD_fini: every pool from the last slot down, pool 0 with the vector in it last. */
    method Fini() returns (safe: bool)
      requires Valid()
      modifies this, pools[0]
      ensures safe && mapped == {} && pools == []
    {
      safe := true;
      var i := |pools|;
      while i > 0
        invariant 0 <= i <= |pools| && safe
        invariant if i > 0 then Valid() && pools[0] == old(pools[0]) else Sound()
        invariant forall j :: i <= j < |pools| ==> pools[j] == null
      {
        i := i - 1;
        var ok := FiniStep(i);
        safe := safe && ok;
      }
      forall j | 0 <= j < |hold| ensures hold[j] == {} {
        assert PoolOk(j);
      }
      pools, plb := [], [];
    }

    /** The system's answer: clear of every pool. */
    ghost predicate Offered(offer: int, size: nat)
      reads this`keys
    {
      forall i :: 0 <= i < |keys| ==> Clear(keys[i], Span(offer, offer + HunkUnits(size)))
    }

    /** Everything holds but what the entries of slot `i` say, while its pool is being changed. */
    ghost predicate Pending(i: int)
      reads this`pools, this`plb, this`keys, this`hold, this`mapped, pools
    {
      && |pools| == |plb| == |keys| == |hold| && Shared(keys, hold, mapped) && 0 <= i < |pools|
      && (forall j :: 0 <= j < |pools| && j != i ==> PoolOk(j))
      && (forall j :: 0 <= j < |hold| ==> Rooted(keys[j], hold[j]))
    }

    /** Enters what pool `i` now owns. */
    method Record(i: int, ghost s: Span)
      requires Pending(i) && pools[i] != null && s.lo < s.hi && forall j :: 0 <= j < |keys| ==> Clear(keys[j], s)
      requires pools[i].Valid() && pools[i].cell.Keys <= keys[i] + s.Units() && hold[i] <= pools[i].spans <= hold[i] + {s}
      requires pools[i].id == i && Housed(pools[i].hunks, pools[i].header, pools[i].cell, plb[i])
      modifies this`mapped, this`keys, this`hold
      ensures Sound() && keys == old(keys)[i := pools[i].cell.Keys]
    {
      SharedClear(keys, hold, mapped, i, pools[i].cell.Keys, pools[i].spans, s);
      mapped := mapped + Extents(pools[i].hunks);
      Enter(i);
    }

    method Enter(i: int)
      requires |pools| == |plb| == |keys| == |hold| && 0 <= i < |pools| && pools[i] != null
      requires Slot(pools[i], i, plb[i], pools[i].cell.Keys, pools[i].spans)
      requires forall j :: 0 <= j < |pools| && j != i ==> PoolOk(j)
      modifies this`keys, this`hold
      ensures Slotted() && keys == old(keys)[i := pools[i].cell.Keys] && hold == old(hold)[i := pools[i].spans]
    {
      ghost var k, h := pools[i].cell.Keys, pools[i].spans;
      keys, hold := keys[i := k], hold[i := h];
      forall j | 0 <= j < |pools| ensures PoolOk(j) {
        assert j != i ==> old(PoolOk(j));
      }
    }

    lemma Begin(i: int)
      requires Sound() && 0 <= i < |pools| && pools[i] != null
      ensures Pending(i) && forall j :: 0 <= j < |pools| && j != i ==> pools[j] != pools[i]
      ensures pools[i].id == i && pools[i].Valid() && pools[i].cell.Keys == keys[i] && Extents(pools[i].hunks) == hold[i]
      ensures Housed(pools[i].hunks, pools[i].header, pools[i].cell, plb[i])
    {
      assert PoolOk(i);
      forall j | 0 <= j < |hold| ensures Rooted(keys[j], hold[j]) {
        assert PoolOk(j);
      }
      forall j | 0 <= j < |pools| && j != i ensures pools[j] != pools[i] {
        assert PoolOk(j);
      }
    }

    /** ALLD_alloc on a pool of the vector. */
    method AllocBlock(i: int, kind: Kind, size: nat, offer: int) returns (r: int)
      requires Valid() && 0 <= i < |pools| && pools[i] != null && kind != Free && Legal(size) && Offered(offer, size)
      modifies this`mapped, this`keys, this`hold, pools[i]
      ensures Valid() && pools[i].Handed(r, kind, size) && r !in old(LiveMap(pools[i].header))
      ensures Includes(LiveMap(pools[i].header), old(LiveMap(pools[i].header)))
      ensures Kept(old(LiveMap(pools[i].header)), old(pools[i].word), pools[i].word)
    {
      SlotApart(i);
      VectorWords();
      ghost var live, w := LiveMap(pools[0].header), pools[0].word;
      r := AllocIn(i, kind, size, offer);
      if i == 0 { StillSeated(live, w); }
    }

    /** Where the vector lies and what it holds outlives any allocation. */
    lemma StillSeated(live: Headers, w: map<int, int>)
      requires |pools| > 0 && pools[0] != null && Includes(LiveMap(pools[0].header), live) && Kept(live, w, pools[0].word)
      requires vector in live && live[vector].kind == Vec && live[vector].size >= |plb| + 2 && Slots(w, vector, live[vector].size, plb)
      requires forall u :: vector <= u < vector + live[vector].size ==> u in w
      ensures Seated()
    {
      IncludesAt(LiveMap(pools[0].header), live, vector);
      SlotsKept(live, w, pools[0].word, vector, plb);
    }

    method AllocIn(i: int, kind: Kind, size: nat, offer: int) returns (r: int)
      requires Sound() && 0 <= i < |pools| && pools[i] != null && kind != Free && Legal(size) && Offered(offer, size)
      modifies this`mapped, this`keys, this`hold, pools[i]
      ensures Sound() && pools[i].Handed(r, kind, size) && r !in old(LiveMap(pools[i].header))
      ensures Includes(LiveMap(pools[i].header), old(LiveMap(pools[i].header)))
      ensures Kept(old(LiveMap(pools[i].header)), old(pools[i].word), pools[i].word)
    {
      Begin(i);
      HunkSize(size);
      ghost var hs, h, c := pools[i].hunks, pools[i].header, pools[i].cell;
      r := AllocOnly(i, kind, size, offer);
      Settle(i, hs, h, c, LiveMap(h), Span(offer, offer + HunkUnits(size)));
    }

    method AllocOnly(i: int, kind: Kind, size: nat, offer: int) returns (r: int)
      requires Pending(i) && pools[i] != null && pools[i].Valid() && kind != Free && Legal(size)
      requires forall j :: 0 <= j < |pools| && j != i ==> pools[j] != pools[i]
      requires Clear(pools[i].cell.Keys, Span(offer, offer + HunkUnits(size)))
      modifies pools[i]
      ensures Pending(i) && pools[i].Valid() && pools[i].Handed(r, kind, size) && r !in old(LiveMap(pools[i].header))
      ensures Includes(LiveMap(pools[i].header), old(LiveMap(pools[i].header))) && Kept(old(LiveMap(pools[i].header)), old(pools[i].word), pools[i].word)
      ensures SameSpans(old(pools[i].cell), pools[i].cell)
      ensures pools[i].cell.Keys <= old(pools[i].cell.Keys) + Span(offer, offer + HunkUnits(size)).Units()
      ensures Longer(old(pools[i].hunks), pools[i].hunks, Span(offer, offer + HunkUnits(size)))
    {
      r := pools[i].Allocate(kind, size, offer);
      forall j | 0 <= j < |pools| && j != i ensures PoolOk(j) {
        assert old(PoolOk(j));
      }
    }

    /** ALLD_release: gives a block back to the pool it came from; false when it is free already. */
    method ReleaseBlock(b: int, mod: int, ghost owner: int) returns (ok: bool)
      requires Valid() && 0 <= owner < |pools| && pools[owner] != null
      requires b in pools[owner].header && mod == pools[owner].header[b].mod
      requires pools[owner].header[b].kind.Other? || pools[owner].header[b].kind.Free?
      modifies pools[owner]
      ensures Valid() && ok == (b in old(LiveMap(pools[owner].header)))
      ensures LiveMap(pools[owner].header) == Without(old(LiveMap(pools[owner].header)), b)
    {
      VectorWords();
      ghost var kept, w := Without(LiveMap(pools[0].header), b), pools[0].word;
      SlotApart(owner);
      var i := FindPool(b, mod, owner);
      ok := ReleaseIn(i, b);
      if i == 0 { StillSeated(kept, w); }
    }

    lemma SlotApart(i: int)
      requires Sound() && 0 <= i < |pools| && pools[i] != null
      ensures forall j :: 0 <= j < |pools| && j != i ==> pools[j] != pools[i]
    {
      Begin(i);
    }

    method ReleaseIn(i: int, b: int) returns (ok: bool)
      requires Sound() && 0 <= i < |pools| && pools[i] != null && b in pools[i].header
      requires pools[i].header[b].kind.Other? || pools[i].header[b].kind.Free?
      modifies pools[i]
      ensures Sound() && ok == (b in old(LiveMap(pools[i].header))) && pools[i].word == old(pools[i].word)
      ensures LiveMap(pools[i].header) == Without(old(LiveMap(pools[i].header)), b)
    {
      Begin(i);
      ghost var hs, h, c := pools[i].hunks, pools[i].header, pools[i].cell;
      ok := ReleaseOnly(i, b);
      HousedStays(hs, h, c, plb[i], pools[i].hunks, pools[i].header, pools[i].cell, Span(1, 2), Without(LiveMap(h), b));
      Whole(i);
    }

    method ReleaseOnly(i: int, b: int) returns (ok: bool)
      requires Pending(i) && pools[i] != null && pools[i].Valid() && b in pools[i].header
      requires pools[i].header[b].kind.Other? || pools[i].header[b].kind.Free?
      requires forall j :: 0 <= j < |pools| && j != i ==> pools[j] != pools[i]
      modifies pools[i]
      ensures Pending(i) && pools[i].Valid() && ok == (b in old(LiveMap(pools[i].header))) && pools[i].word == old(pools[i].word)
      ensures LiveMap(pools[i].header) == Without(old(LiveMap(pools[i].header)), b)
      ensures pools[i].hunks == old(pools[i].hunks) && pools[i].spans == old(pools[i].spans)
      ensures pools[i].cell.Keys == old(pools[i].cell.Keys) && SameSpans(old(pools[i].cell), pools[i].cell)
    {
      var p := pools[i];
      NotDescriptor(p.hunks, p.header, p.cell, b);
      var o := p.Release(b, p.header[b].size);
      ok := o == Released;
      forall j | 0 <= j < |pools| && j != i ensures PoolOk(j) {
        assert old(PoolOk(j));
      }
    }

    /** A change inside pool `i` that left what it owns as it was. */
    lemma Whole(i: int)
      requires Pending(i) && pools[i] != null && Slot(pools[i], i, plb[i], keys[i], hold[i])
      ensures Sound()
    {
      assert PoolOk(i);
    }

    /** The vector moves to a bigger block of pool 0. */
    method MoveVector(size: nat, offer: int)
      requires Valid() && Legal(size) && size >= VecBytes(|pools|) && Offered(offer, size)
      modifies this`vector, this`mapped, this`keys, this`hold, pools[0]
      ensures Sound() && Seated() && 4 * pools[0].header[vector].size >= size
      ensures |keys| > 0 && keys == old(keys)[0 := keys[0]] && keys[0] <= old(keys)[0] + Span(offer, offer + HunkUnits(size)).Units()
    {
      Begin(0);
      HunkSize(size);
      PoolBlockStays();
      MoveAndSettle(size, offer, Without(LiveMap(pools[0].header), vector));
    }

    /** `live` is what stays where it is: everything but the vector's old block. */
    method MoveAndSettle(size: nat, offer: int, ghost live: Headers)
      requires Pending(0) && Seated() && pools[0].Valid() && pools[0].id == 0
      requires Legal(size) && size >= VecBytes(|pools|) && Offered(offer, size) && HunkUnits(size) > 0
      requires forall j :: 0 < j < |pools| ==> pools[j] != pools[0]
      requires pools[0].cell.Keys == keys[0] && Extents(pools[0].hunks) == hold[0]
      requires Housed(pools[0].hunks, pools[0].header, pools[0].cell, plb[0])
      requires live == Without(LiveMap(pools[0].header), vector) && plb[0] in live && live[plb[0]] == pools[0].header[plb[0]]
      modifies this`vector, this`mapped, this`keys, this`hold, pools[0]
      ensures Sound() && Seated() && 4 * pools[0].header[vector].size >= size
      ensures |keys| > 0 && keys == old(keys)[0 := keys[0]] && keys[0] <= old(keys)[0] + Span(offer, offer + HunkUnits(size)).Units()
    {
      ghost var hs, h, c := pools[0].hunks, pools[0].header, pools[0].cell;
      MoveOnly(size, offer);
      SettleMoved(hs, h, c, live, Span(offer, offer + HunkUnits(size)));
    }

    method SettleMoved(ghost hs: seq<Hunk>, ghost h: Headers, ghost c: Cells, ghost live: Headers, ghost s: Span)
      requires Pending(0) && Seated() && s.lo < s.hi && forall j :: 0 <= j < |keys| ==> Clear(keys[j], s)
      requires c.Keys == keys[0] && Extents(hs) == hold[0] && Housed(hs, h, c, plb[0]) && plb[0] in live && live[plb[0]] == h[plb[0]]
      requires pools[0].Valid() && pools[0].id == 0 && pools[0].cell.Keys <= keys[0] + s.Units() && SameSpans(c, pools[0].cell)
      requires Longer(hs, pools[0].hunks, s) && Includes(LiveMap(pools[0].header), live)
      modifies this`mapped, this`keys, this`hold
      ensures Sound() && Seated() && |keys| > 0 && keys == old(keys)[0 := keys[0]] && keys[0] <= old(keys)[0] + s.Units()
    {
      Settle(0, hs, h, c, live, s);
    }

    /** The vector is not the pool's own block. */
    lemma PoolBlockStays()
      requires Valid()
      ensures var live := Without(LiveMap(pools[0].header), vector); plb[0] in live && live[plb[0]] == pools[0].header[plb[0]]
    {
      assert PoolOk(0);
    }

    method MoveOnly(size: nat, offer: int)
      requires Pending(0) && Seated() && pools[0].Valid() && Legal(size)
      requires forall j :: 0 < j < |pools| ==> pools[j] != pools[0]
      requires Clear(pools[0].cell.Keys, Span(offer, offer + HunkUnits(size)))
      modifies this`vector, pools[0]
      ensures Pending(0) && pools[0].Valid() && vector in LiveMap(pools[0].header)
      ensures pools[0].header[vector].kind == Vec && 4 * pools[0].header[vector].size >= size
      ensures size >= 4 * (|plb| + 2) ==> Seated()
      ensures Includes(LiveMap(pools[0].header), Without(old(LiveMap(pools[0].header)), old(vector)))
      ensures SameSpans(old(pools[0].cell), pools[0].cell)
      ensures pools[0].cell.Keys <= old(pools[0].cell.Keys) + Span(offer, offer + HunkUnits(size)).Units()
      ensures Longer(old(pools[0].hunks), pools[0].hunks, Span(offer, offer + HunkUnits(size)))
    {
      BlockAt(pools[0].header, pools[0].cell, vector);
      ghost var w, b, m := pools[0].word, vector, pools[0].header[vector].size;
      vector := pools[0].Extend(vector, size, offer);
      BlockAt(pools[0].header, pools[0].cell, vector);
      SlotsCarried(w, b, m, pools[0].word, vector, pools[0].header[vector].size, plb);
      forall j | 0 < j < |pools| ensures PoolOk(j) {
        assert old(PoolOk(j));
      }
    }

    /** ALLD_extend on the vector: its slots keep their contents, the new ones are empty. */
    method ExtendVector(n: nat, offer: int)
      requires Valid() && n >= |pools| && Legal(VecBytes(n)) && Offered(offer, VecBytes(n))
      modifies this, pools[0]
      ensures Valid() && |pools| == n && pools == old(pools) + seq(n - old(|pools|), _ => null)
      ensures |keys| == n && forall j :: 0 < j < n ==> keys[j] == if j < |old(keys)| then old(keys)[j] else {}
      ensures keys[0] <= old(keys)[0] + Span(offer, offer + HunkUnits(VecBytes(n))).Units()
    {
      MoveVector(VecBytes(n), offer);
      WriteCount(n, plb);
      Lengthen(n);
    }

    method Lengthen(n: nat)
      requires Sound() && n >= |pools|
      modifies this`pools, this`plb, this`keys, this`hold
      ensures Sound() && pools == old(pools) + seq(n - old(|pools|), _ => null)
      ensures keys == old(keys) + seq(n - |old(keys)|, _ => {}) && plb == old(plb) + Zeros(n - |old(plb)|)
    {
      SharedMore(keys, hold, mapped, n - |pools|);
      pools, plb := pools + seq(n - |pools|, _ => null), plb + Zeros(n - |plb|);
      keys, hold := keys + seq(n - |keys|, _ => {}), hold + seq(n - |hold|, _ => {});
      forall j | 0 <= j < |pools| ensures PoolOk(j) {
        assert j < old(|pools|) ==> old(PoolOk(j));
      }
    }

    /** A new pool for an empty slot: its own block is the first thing allocated from it. */
    method Found(i: nat, offer: int)
      requires Sound() && i < |pools| && pools[i] == null && Offered(offer, PLB_BYTES)
      modifies this`pools, this`plb, this`mapped, this`keys, this`hold
      ensures Sound() && |pools| == old(|pools|) && fresh(pools[i]) && forall j :: 0 <= j < |pools| && j != i ==> pools[j] == old(pools)[j]
      ensures plb == old(plb)[i := plb[i]] && keys == old(keys)[i := keys[i]] && keys[i] <= Span(offer, offer + HunkUnits(PLB_BYTES)).Units()
    {
      HunkSize(PLB_BYTES);
      forall j | 0 <= j < |hold| ensures Rooted(keys[j], hold[j]) {
        assert PoolOk(j);
      }
      assert PoolOk(i);
      var p, a := Make(i, offer);
      pools, plb := pools[i := p], plb[i := a];
      forall j | 0 <= j < |pools| && j != i ensures PoolOk(j) {
        assert old(PoolOk(j));
      }
      Record(i, Span(offer, offer + HunkUnits(PLB_BYTES)));
    }

    method Make(i: nat, offer: int) returns (p: Pool, a: int)
      requires 0 < offer
      ensures fresh(p) && p.id == i && p.Valid() && Housed(p.hunks, p.header, p.cell, a)
      ensures p.cell.Keys <= Span(offer, offer + HunkUnits(PLB_BYTES)).Units() && p.spans <= {Span(offer, offer + HunkUnits(PLB_BYTES))}
    {
      p := new Pool(i);
      a := p.Allocate(Plb, PLB_BYTES, offer);
      SpanMapped(p, a);
      OnlyHunk(p.hunks, p.cell[a].span);
    }

    /** ALLD_pool: the first empty slot, after extending the vector if there is none. */
    method NewPool(offer: int, more: int) returns (i: nat)
      requires Valid() && Legal(VecBytes(|pools| + 10)) && Offered(offer, PLB_BYTES) && Offered(more, VecBytes(|pools| + 10))
      requires Clear(Span(more, more + HunkUnits(VecBytes(|pools| + 10))).Units(), Span(offer, offer + HunkUnits(PLB_BYTES)))
      modifies this, pools[0]
      ensures Valid() && i < |pools| && pools[i] != null && fresh(pools[i]) && (i < old(|pools|) ==> old(pools)[i] == null)
      ensures |pools| == (if i < old(|pools|) then old(|pools|) else old(|pools|) + 10)
      ensures forall j :: 0 <= j < old(|pools|) && j != i ==> pools[j] == old(pools)[j]
      ensures i <= old(|pools|) && forall j :: 0 <= j < i ==> old(pools)[j] != null
      ensures forall j :: old(|pools|) <= j < |pools| && j != i ==> pools[j] == null
    {
      i := 0;
      while i < |pools| && pools[i] != null
        invariant i <= |pools| && forall j :: 0 <= j < i ==> pools[j] != null
        invariant i > 0 || pools[0] != null
      {
        i := i + 1;
      }
      if i >= |pools| {
        ExtendVector(i + 10, more);
        forall j | 0 <= j < |keys| ensures Clear(keys[j], Span(offer, offer + HunkUnits(PLB_BYTES))) {
          assert j == 0 ==> keys[j] <= old(keys)[0] + Span(more, more + HunkUnits(VecBytes(i + 10))).Units();
        }
      }
      ghost var ps := plb;
      Found(i, offer);
      WriteSlot(i, plb[i], ps);
    }

    /** After pool `i` went from the given state to its present one. */
    method Settle(i: int, ghost hs: seq<Hunk>, ghost h: Headers, ghost c: Cells, ghost live: Headers, ghost s: Span)
      requires Pending(i) && pools[i] != null && s.lo < s.hi && forall j :: 0 <= j < |keys| ==> Clear(keys[j], s)
      requires c.Keys == keys[i] && Extents(hs) == hold[i] && Housed(hs, h, c, plb[i]) && plb[i] in live && live[plb[i]] == h[plb[i]]
      requires pools[i].Valid() && pools[i].id == i && pools[i].cell.Keys <= keys[i] + s.Units() && SameSpans(c, pools[i].cell)
      requires Longer(hs, pools[i].hunks, s) && Includes(LiveMap(pools[i].header), live)
      modifies this`mapped, this`keys, this`hold
      ensures Sound() && keys == old(keys)[i := pools[i].cell.Keys] && keys[i] <= old(keys)[i] + s.Units()
    {
      HousedStays(hs, h, c, plb[i], pools[i].hunks, pools[i].header, pools[i].cell, s, live);
      Record(i, s);
    }
  }

  lemma IncludesAt(live': Headers, live: Headers, b: int)
    requires Includes(live', live) && b in live
    ensures b in live' && live'[b] == live[b]
  {
  }

  lemma OnlyHunk(hs: seq<Hunk>, x: Span)
    requires |hs| <= 1 && x in Extents(hs)
    ensures |hs| == 1 && x == hs[0].Extent()
  {
    assert |hs| == 1 ==> hs[1..] == [];
  }

  /** Every hunk begins with a longword of its pool. */
  ghost predicate Rooted(k: set<int>, h: set<Span>) { forall x :: x in h ==> x.lo in k }

  /** The pool block stays where it is while the blocks in `live` do. */
  lemma HousedStays(hs: seq<Hunk>, h: Headers, cell: Cells, a: int, hs': seq<Hunk>, h': Headers, cell': Cells, s: Span, live: Headers)
    requires Housed(hs, h, cell, a) && Longer(hs, hs', s) && a in live && live[a] == h[a]
    requires Includes(LiveMap(h'), live) && SameSpans(cell, cell')
    ensures Housed(hs', h', cell', a)
  {
    assert hs'[|hs'| - 1] == hs[|hs| - 1];
  }

  /** The pool's own block, in the oldest hunk. */
  ghost predicate Housed(hs: seq<Hunk>, h: Headers, cell: Cells, a: int)
  {
    a in LiveMap(h) && h[a].kind == Plb && |hs| > 0 && a in cell && cell[a].span == hs[|hs| - 1].Extent()
  }

  lemma SpanMapped(p: Pool, a: int)
    requires p.Valid() && a in p.header
    ensures a in p.cell && p.cell[a].span in p.spans && p.cell[a].span.Has(a)
  {
    BlockAt(p.header, p.cell, a);
  }

  /** The descriptor at the head of what is left lies in what is left, which no longer contains this hunk once it is gone. */
  lemma {:induction false} DescriptorAt(hs: seq<Hunk>, h: Headers, cell: Cells, k: nat)
    requires Nested(hs, h, cell) && k < |hs|
    ensures hs[k].at in h && hs[k].at in cell && cell[hs[k].at].span in Extents(hs[k..])
    ensures Extents(hs[k..]) <= Extents(hs)
    ensures Extents(hs[k + 1..]) == Extents(hs[k..]) - {hs[k].Extent()}
  {
    if k == 0 {
      assert hs[0..] == hs;
    } else {
      DescriptorAt(hs[1..], h, cell, k - 1);
      assert hs[1..][k - 1..] == hs[k..] && hs[1..][k..] == hs[k + 1..];
    }
  }
}

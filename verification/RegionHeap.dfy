/**
 The words of the shared region that alloc_global, free_global and CSS_validate read and
 write (csv/css.c), held as maps from a block's offset to the value of the field.
 */
module RegionHeap {
  import opened RegionTiles

  /** The header words of every block agree with the layout. */
  ghost predicate Headers(lengths: map<int, int>, types: map<int, int>, ts: seq<Tile>)
  {
    ts != [] ==>
      && ts[0].offset in lengths && lengths[ts[0].offset] == ts[0].length
      && ts[0].offset in types && types[ts[0].offset] == ts[0].kind
      && Headers(lengths, types, ts[1..])
  }

  lemma {:induction false} HeadersConcat(lengths: map<int, int>, types: map<int, int>, a: seq<Tile>, b: seq<Tile>)
    ensures Headers(lengths, types, a + b) <==> Headers(lengths, types, a) && Headers(lengths, types, b)
  {
    if a == [] {
      assert a + b == b;
    } else {
      HeadersConcat(lengths, types, a[1..], b);
      assert (a + b)[1..] == a[1..] + b;
    }
  }

  lemma HeadersAt(lengths: map<int, int>, types: map<int, int>, ts: seq<Tile>, k: nat)
    requires Headers(lengths, types, ts) && k < |ts|
    ensures ts[k].offset in lengths && lengths[ts[k].offset] == ts[k].length
    ensures ts[k].offset in types && types[ts[k].offset] == ts[k].kind
    ensures Headers(lengths, types, ts[..k]) && Headers(lengths, types, ts[k + 1..])
  {
    assert ts == ts[..k] + ts[k..] && ts[k..][1..] == ts[k + 1..];
    HeadersConcat(lengths, types, ts[..k], ts[k..]);
  }

  /** `m'` keeps every word that `m` holds between `lo` and `hi`. */
  ghost predicate Keeps(m: map<int, int>, m': map<int, int>, lo: int, hi: int)
  {
    forall x :: lo <= x < hi && x in m ==> x in m' && m'[x] == m[x]
  }

  lemma {:induction false} HeadersFrame(lengths: map<int, int>, types: map<int, int>,
                                        lengths': map<int, int>, types': map<int, int>, ts: seq<Tile>, lo: int, hi: int)
    requires Tiled(ts, lo, hi) && Headers(lengths, types, ts)
    requires Keeps(lengths, lengths', lo, hi) && Keeps(types, types', lo, hi)
    ensures Headers(lengths', types', ts)
  {
    if ts != [] {
      TiledSpan(ts[1..], ts[0].End(), hi);
      HeadersFrame(lengths, types, lengths', types', ts[1..], ts[0].End(), hi);
    }
  }

  /** The region's words as one value. */
  datatype Words = Words(head: int, lengths: map<int, int>, types: map<int, int>, next: map<int, int>)

  /** The words of a region ending at `hi` spell out the layout `ts`. */
  ghost predicate Spells(w: Words, ts: seq<Tile>, hi: int)
  {
    && CSH_SIZE < hi && Layout(ts, CSH_SIZE, hi)
    && Headers(w.lengths, w.types, ts)
    && w.head == FirstFree(ts, 0) && Threaded(w.next, ts, 0)
  }

  /** Header words changed only inside blocks first..last. */
  lemma ReplaceHeaders(w: Words, w': Words, ts: seq<Tile>, hi: int, first: nat, last: nat, cut: seq<Tile>)
    requires Tiled(ts, CSH_SIZE, hi) && Headers(w.lengths, w.types, ts) && first <= last < |ts|
    requires Headers(w'.lengths, w'.types, cut)
    requires Keeps(w.lengths, w'.lengths, CSH_SIZE, ts[first].offset) && Keeps(w.lengths, w'.lengths, ts[last].End(), hi)
    requires Keeps(w.types, w'.types, CSH_SIZE, ts[first].offset) && Keeps(w.types, w'.types, ts[last].End(), hi)
    ensures Headers(w'.lengths, w'.types, ts[..first] + cut + ts[last + 1..])
  {
    var a, b := ts[..first], ts[last + 1..];
    TiledAt(ts, CSH_SIZE, hi, first);
    TiledAt(ts, CSH_SIZE, hi, last);
    HeadersAt(w.lengths, w.types, ts, first);
    HeadersAt(w.lengths, w.types, ts, last);
    HeadersFrame(w.lengths, w.types, w'.lengths, w'.types, a, CSH_SIZE, ts[first].offset);
    HeadersFrame(w.lengths, w.types, w'.lengths, w'.types, b, ts[last].End(), hi);
    HeadersConcat(w'.lengths, w'.types, a, cut);
    HeadersConcat(w'.lengths, w'.types, a + cut, b);
  }

  /** The chain with blocks first..last replaced by `cut`: links inside `cut`, and the one leading into it. */
  ghost predicate Spliced(w: Words, w': Words, ts: seq<Tile>, hi: int, first: nat, last: nat, cut: seq<Tile>)
    requires first <= last < |ts|
  {
    var after := FirstFree(ts[last + 1..], 0);
    var into := FirstFree(cut, after);
    var ptr := LastFree(ts[..first]);
    && Threaded(w'.next, cut, after)
    && w'.head == (if ptr == 0 then into else w.head)
    && Keeps(if ptr == 0 then w.next else w.next[ptr := into], w'.next, CSH_SIZE, ts[first].offset)
    && Keeps(w.next, w'.next, ts[last].End(), hi)
  }

  /** The blocks before the splice keep their links, except the one that leads into it. */
  lemma RelinkedBefore(w: Words, w': Words, ts: seq<Tile>, hi: int, first: nat, into: int)
    requires Tiled(ts, CSH_SIZE, hi) && w.head == FirstFree(ts, 0) && Threaded(w.next, ts, 0) && first < |ts|
    requires var ptr := LastFree(ts[..first]);
             && w'.head == (if ptr == 0 then into else w.head)
             && Keeps(if ptr == 0 then w.next else w.next[ptr := into], w'.next, CSH_SIZE, ts[first].offset)
    ensures w'.head == FirstFree(ts[..first], into) && Threaded(w'.next, ts[..first], into)
  {
    var a, b, x := ts[..first], ts[first..], ts[first].offset;
    assert ts == a + b;
    TiledAt(ts, CSH_SIZE, hi, first);
    ThreadedConcat(w.next, a, b, 0);
    FirstFreeConcat(a, b, 0);
    LastFreeBounds(a, CSH_SIZE, x);
    Relink(w.next, a, CSH_SIZE, x, FirstFree(b, 0), into);
    var ptr := LastFree(a);
    ThreadedFrame(if ptr == 0 then w.next else w.next[ptr := into], w'.next, a, CSH_SIZE, x, into);
  }

  lemma KeptAfter(w: Words, w': Words, ts: seq<Tile>, hi: int, last: nat)
    requires Tiled(ts, CSH_SIZE, hi) && Threaded(w.next, ts, 0) && last < |ts|
    requires Keeps(w.next, w'.next, ts[last].End(), hi)
    ensures Threaded(w'.next, ts[last + 1..], 0)
  {
    TiledAt(ts, CSH_SIZE, hi, last);
    assert ts == ts[..last + 1] + ts[last + 1..];
    ThreadedConcat(w.next, ts[..last + 1], ts[last + 1..], 0);
    ThreadedFrame(w.next, w'.next, ts[last + 1..], ts[last].End(), hi, 0);
  }

  lemma ReplaceChain(w: Words, w': Words, ts: seq<Tile>, hi: int, first: nat, last: nat, cut: seq<Tile>)
    requires Tiled(ts, CSH_SIZE, hi) && w.head == FirstFree(ts, 0) && Threaded(w.next, ts, 0)
    requires first <= last < |ts| && Spliced(w, w', ts, hi, first, last, cut)
    ensures var ts' := ts[..first] + cut + ts[last + 1..];
            w'.head == FirstFree(ts', 0) && Threaded(w'.next, ts', 0)
  {
    var a, b := ts[..first], ts[last + 1..];
    KeptAfter(w, w', ts, hi, last);
    RelinkedBefore(w, w', ts, hi, first, FirstFree(cut, FirstFree(b, 0)));
    assert a + cut + b == a + (cut + b);
    ThreadedConcat(w'.next, cut, b, 0);
    FirstFreeConcat(cut, b, 0);
    ThreadedConcat(w'.next, a, cut + b, 0);
    FirstFreeConcat(a, cut + b, 0);
  }

  /** What the words say around the free block at `k`. */
  lemma FreeBlockAt(w: Words, ts: seq<Tile>, hi: int, k: nat)
    requires Spells(w, ts, hi) && k < |ts| && ts[k].IsFree()
    ensures var ptr, x := LastFree(ts[..k]), ts[k].offset;
            && x > 0 && x in w.lengths && w.lengths[x] == ts[k].length
            && x in w.next && w.next[x] == FirstFree(ts[k + 1..], 0)
            && (ptr == 0 ==> w.head == x)
            && (ptr != 0 ==> CSH_SIZE <= ptr < x && ptr in w.next && w.next[ptr] == x)
  {
    TiledAt(ts, CSH_SIZE, hi, k);
    HeadersAt(w.lengths, w.types, ts, k);
    LinkAt(w.head, w.next, ts, CSH_SIZE, hi, k);
    LinkAt(w.head, w.next, ts, CSH_SIZE, hi, k + 1);
    LastFreeSkip(ts, k, k);
    LastFreeBounds(ts[..k], CSH_SIZE, ts[k].offset);
  }

  class GlobalRegion {
    const length: int              // csh_length
    var csh_free: int              // first free block, 0 if none
    var hdr_length: map<int, int>
    var hdr_type: map<int, int>
    var frb_next: map<int, int>

    ghost var tiles: seq<Tile>     // the blocks in address order

    ghost function State(): Words
      reads this
    {
      Words(csh_free, hdr_length, hdr_type, frb_next)
    }

    ghost predicate Valid()
      reads this
    {
      Spells(State(), tiles, length)
    }

    ghost function Allocated(): set<int>
      reads this
    {
      Live(tiles)
    }

    /** There is a block of this kind here, in which `size` bytes fit. */
    ghost predicate Holds(block: int, kind: int, size: int)
      reads this
    {
      exists i :: 0 <= i < |tiles| && tiles[i].offset == block && tiles[i].kind == kind && tiles[i].length >= size
    }

    constructor (mapped: int)
      requires mapped >= CSH_SIZE + FRB_SIZE
      ensures Valid() && length == mapped
      ensures tiles == [Tile(CSH_SIZE, mapped - CSH_SIZE, TYPE_FRB)]
    {
      length := mapped;
      hdr_length := map[CSH_SIZE := mapped - CSH_SIZE];
      hdr_type := map[CSH_SIZE := TYPE_FRB];
      frb_next := map[CSH_SIZE := 0];
      csh_free := CSH_SIZE;
      tiles := [Tile(CSH_SIZE, mapped - CSH_SIZE, TYPE_FRB)];
      new;
      assert tiles[1..] == [];
      assert Tiled(tiles[1..], length, length) && Threaded(frb_next, tiles[1..], 0) && Headers(hdr_length, hdr_type, tiles[1..]);
    }

    /** `*ptr`, where `ptr` is 0 for &csh_free and otherwise the block whose frb_next it points to. */
    function Fetch(ptr: int): int
      requires ptr == 0 || ptr in frb_next
      reads this
    {
      if ptr == 0 then csh_free else frb_next[ptr]
    }

    /** `*ptr = value`. */
    method Store(ptr: int, value: int)
      modifies `csh_free, `frb_next
      ensures csh_free == if ptr == 0 then value else old(csh_free)
      ensures frb_next == if ptr == 0 then old(frb_next) else old(frb_next)[ptr := value]
    {
      if ptr == 0 {
        csh_free := value;
      } else {
        frb_next := frb_next[ptr := value];
      }
    }

    /** `k` is the best fit for `n` among the first `i` blocks, -1 if none fits. */
    static ghost predicate IsBest(ts: seq<Tile>, n: int, i: nat, k: int)
      requires i <= |ts|
    {
      && -1 <= k < i
      && (k < 0 ==> forall j :: 0 <= j < i && FreeAt(ts, j) ==> ts[j].length < n)
      && (k >= 0 ==> && FreeAt(ts, k) && ts[k].length >= n
                     && (forall j :: 0 <= j < i && FreeAt(ts, j) && ts[j].length >= n ==> ts[k].length <= ts[j].length)
                     && forall j :: 0 <= j < k && FreeAt(ts, j) && ts[j].length >= n ==> ts[k].length < ts[j].length)
    }

    /** One step of the scan: skip blocks in use up to `j`, then compare the free block there. */
    static lemma BestStep(ts: seq<Tile>, n: int, i: nat, j: nat, k: int)
      requires i <= j <= |ts| && IsBest(ts, n, i, k) && forall x :: i <= x < j ==> !ts[x].IsFree()
      ensures IsBest(ts, n, j, k)
      ensures FreeAt(ts, j) ==>
                IsBest(ts, n, j + 1, if ts[j].length >= n && (k < 0 || ts[j].length < ts[k].length) then j else k)
    {
    }

    /** A walk of the chain stands at `ptr`, with the blocks before `i` behind it. */
    ghost predicate At(ptr: int, i: int)
      reads this
    {
      && 0 <= i <= |tiles| && ptr == LastFree(tiles[..i]) && ptr >= 0 && (ptr == 0 || ptr in frb_next)
      && Fetch(ptr) == FirstFree(tiles[i..], 0)
    }

    /** Everything the scan knows when it stands at `ptr`. */
    ghost predicate Scanning(n: int, ptr: int, best: int, bestTail: int, i: int, k: int)
      reads this
    {
      && At(ptr, i)
      && IsBest(tiles, n, i, k) && (k < 0 <==> best < 0)
      && (k >= 0 ==> best == LastFree(tiles[..k]) && bestTail == tiles[k].length - n)
    }

    /** One round of the scan: what it finds at the next free block `j`, and what it then knows. */
    lemma ScanStep(n: int, ptr: int, best: int, bestTail: int, i: int, k: int) returns (j: nat)
      requires Valid() && Scanning(n, ptr, best, bestTail, i, k) && Fetch(ptr) != 0
      ensures i <= j < |tiles| && Fetch(ptr) in hdr_length
      ensures var free := Fetch(ptr);
              var tail := hdr_length[free] - n;
              if tail >= 0 && (best < 0 || tail < bestTail) then Scanning(n, free, ptr, tail, j + 1, j)
              else Scanning(n, free, best, bestTail, j + 1, k)
    {
      j := NextFree(tiles, CSH_SIZE, length, i);
      LastFreeSkip(tiles, i, j);
      BestStep(tiles, n, i, j, k);
      HeadersAt(hdr_length, hdr_type, tiles, j);
      LinkAt(csh_free, frb_next, tiles, CSH_SIZE, length, j + 1);
    }

    /** The scan of alloc_global: the shortest tail on the whole chain, the earliest on a tie. */
    method FindBest(n: int) returns (best: int, bestTail: int, ghost k: int)
      requires Valid()
      ensures IsBest(tiles, n, |tiles|, k)
      ensures k < 0 <==> best < 0
      ensures k >= 0 ==> best == LastFree(tiles[..k]) && bestTail == tiles[k].length - n
    {
      ghost var i := 0;
      best, bestTail, k := -1, 0, -1;
      var ptr := 0;
      LinkAt(csh_free, frb_next, tiles, CSH_SIZE, length, 0);
      while Fetch(ptr) != 0
        invariant ptr == 0 || ptr in frb_next
        invariant Scanning(n, ptr, best, bestTail, i, k)
        decreases |tiles| - i
      {
        ghost var j := ScanStep(n, ptr, best, bestTail, i, k);
        var free := Fetch(ptr);
        var tail := hdr_length[free] - n;
        if tail >= 0 && (best < 0 || tail < bestTail) {
          best, bestTail, k := ptr, tail, j;
        }
        ptr, i := free, j + 1;
      }
      ghost var j := NextFree(tiles, CSH_SIZE, length, i);
      BestStep(tiles, n, i, j, k);
    }

    /** A request for `n` bytes turned `ts` into `ts'` by cutting `block` from the tightest fit, at `k`. */
    static ghost predicate Served(ts: seq<Tile>, ts': seq<Tile>, n: int, kind: int, k: int, block: int)
    {
      && FreeAt(ts, k) && ts[k].length >= n
      && (forall i :: FreeAt(ts, i) && ts[i].length >= n ==> ts[k].length <= ts[i].length && (i < k ==> ts[k].length < ts[i].length))
      && ts' == Carve(ts, k, n, kind)
      && CarvedAt(ts, k, n) < |ts'| && block == ts'[CarvedAt(ts, k, n)].offset > 0
      && block !in Live(ts) && Live(ts') == Live(ts) + {block}
    }

    /**
     The block handed out is of the kind asked for and at least as long as asked: a whole number of longwords,
     the fewest that hold the request, or all of the free block if less than a free block would be left over.
     */
    static ghost predicate HandedOut(ts: seq<Tile>, ts': seq<Tile>, size: int, kind: int, k: int, block: int)
    {
      && 0 <= k < |ts| && ts[k].IsFree() && |ts| <= |ts'| <= |ts| + 1
      && exists i :: && 0 <= i < |ts'| && ts'[i].offset == block && ts'[i].kind == kind && ts'[i].length >= size
                     && ts'[i].End() == ts[k].End()
                     && (|ts'| == |ts| + 1 ==> ts'[i].length % 4 == 0 && ts'[i].length < size + 4)
                     && (|ts'| == |ts| ==> block == ts[k].offset && ts[k].length < size + 4 + FRB_SIZE)
    }

    static lemma RoundedOnly(ts: seq<Tile>, size: int)
      ensures HasRoom(ts, size) <==> exists a :: FreeRun(ts, a, RoundUp(size))
    {
      if a, n :| n % 4 == 0 && size <= n < size + 4 && FreeRun(ts, a, n) {
        assert n == RoundUp(size);
      }
    }

    static lemma ServedIsHandedOut(ts: seq<Tile>, ts': seq<Tile>, hi: int, size: int, kind: int, k: nat, block: int)
      requires Layout(ts, CSH_SIZE, hi) && size >= FRB_SIZE && TYPE_FRB < kind <= TYPE_MSG
      requires Served(ts, ts', RoundUp(size), kind, k, block)
      ensures HandedOut(ts, ts', size, kind, k, block)
    {
      CarveHandsOut(ts, CSH_SIZE, hi, k, RoundUp(size), kind);
      assert ts'[CarvedAt(ts, k, RoundUp(size))].offset == block;
    }

    static lemma ServedBy(ts: seq<Tile>, hi: int, n: int, kind: int, k: nat)
      requires Layout(ts, CSH_SIZE, hi) && FRB_SIZE <= n && TYPE_FRB < kind <= TYPE_MSG
      requires IsBest(ts, n, |ts|, k)
      ensures Layout(Carve(ts, k, n, kind), CSH_SIZE, hi)
      ensures Served(ts, Carve(ts, k, n, kind), n, kind, k,
                     if ts[k].length - n < FRB_SIZE then ts[k].offset else ts[k].End() - n)
    {
      TiledAt(ts, CSH_SIZE, hi, k);
      CarveKeepsLayout(ts, CSH_SIZE, hi, k, n, kind);
      CarveHandsOut(ts, CSH_SIZE, hi, k, n, kind);
    }

    /** A fit too tight to split is handed over whole and unlinked. */
    static lemma TakeWhole(w: Words, ts: seq<Tile>, hi: int, n: int, kind: int, k: nat)
      requires Spells(w, ts, hi) && k < |ts| && ts[k].IsFree() && ts[k].length - n < FRB_SIZE && kind != TYPE_FRB
      requires Layout(Carve(ts, k, n, kind), CSH_SIZE, hi)
      ensures var after, ptr := FirstFree(ts[k + 1..], 0), LastFree(ts[..k]);
              Spells(Words(if ptr == 0 then after else w.head, w.lengths, w.types[ts[k].offset := kind],
                           if ptr == 0 then w.next else w.next[ptr := after]),
                     Carve(ts, k, n, kind), hi)
    {
      var after, ptr := FirstFree(ts[k + 1..], 0), LastFree(ts[..k]);
      var w' := Words(if ptr == 0 then after else w.head, w.lengths, w.types[ts[k].offset := kind],
                      if ptr == 0 then w.next else w.next[ptr := after]);
      var cut := [ts[k].(kind := kind)];
      assert cut[1..] == [];
      TiledAt(ts, CSH_SIZE, hi, k);
      LastFreeBounds(ts[..k], CSH_SIZE, ts[k].offset);
      HeadersAt(w.lengths, w.types, ts, k);
      ReplaceHeaders(w, w', ts, hi, k, k, cut);
      ReplaceChain(w, w', ts, hi, k, k, cut);
      assert Carve(ts, k, n, kind) == ts[..k] + cut + ts[k + 1..];
    }

    /** From a larger fit the block is cut off the end, and the free block shrinks in place. */
    static lemma TakeTail(w: Words, ts: seq<Tile>, hi: int, n: int, kind: int, k: nat)
      requires Spells(w, ts, hi) && k < |ts| && ts[k].IsFree() && ts[k].length - n >= FRB_SIZE && n > 0 && kind != TYPE_FRB
      requires Layout(Carve(ts, k, n, kind), CSH_SIZE, hi)
      ensures var f := ts[k];
              Spells(Words(w.head, w.lengths[f.offset := f.length - n][f.End() - n := n], w.types[f.End() - n := kind], w.next),
                     Carve(ts, k, n, kind), hi)
    {
      var f := ts[k];
      var w' := Words(w.head, w.lengths[f.offset := f.length - n][f.End() - n := n], w.types[f.End() - n := kind], w.next);
      var cut := [f.(length := f.length - n), Tile(f.End() - n, n, kind)];
      assert cut[1..] == [Tile(f.End() - n, n, kind)] && cut[1..][1..] == [];
      TiledAt(ts, CSH_SIZE, hi, k);
      HeadersAt(w.lengths, w.types, ts, k);
      ReplaceHeaders(w, w', ts, hi, k, k, cut);
      FreeBlockAt(w, ts, hi, k);
      var after := FirstFree(ts[k + 1..], 0);
      assert FirstFree(cut[1..], after) == after;
      assert Threaded(w'.next, cut, after);
      ReplaceChain(w, w', ts, hi, k, k, cut);
    }

    /** Cut `n` bytes from the free block that `best` links to: whole if too little would be left over. */
    method Take(best: int, bestTail: int, n: int, kind: int, ghost k: nat) returns (block: int)
      requires Valid() && k < |tiles| && tiles[k].IsFree() && FRB_SIZE <= n <= tiles[k].length && kind != TYPE_FRB
      requires best == LastFree(tiles[..k]) && bestTail == tiles[k].length - n
      requires Layout(Carve(tiles, k, n, kind), CSH_SIZE, length)
      modifies `csh_free, `hdr_length, `hdr_type, `frb_next, `tiles
      ensures Valid() && tiles == Carve(old(tiles), k, n, kind)
      ensures block == if bestTail < FRB_SIZE then old(tiles)[k].offset else old(tiles)[k].End() - n
    {
      FreeBlockAt(State(), tiles, length, k);
      var free := Fetch(best);
      if bestTail < FRB_SIZE {
        TakeWhole(State(), tiles, length, n, kind, k);
        Store(best, frb_next[free]);
        block := free;
      } else {
        TakeTail(State(), tiles, length, n, kind, k);
        hdr_length := hdr_length[free := hdr_length[free] - n];
        block := free + hdr_length[free];
        hdr_length := hdr_length[block := n];
      }
      hdr_type := hdr_type[block := kind];
      tiles := Carve(tiles, k, n, kind);
    }

    /** alloc_global.  Returns 0 when the space is exhausted. */
    method AllocGlobal(kind: int, size: int) returns (block: int, ghost k: int)
      requires Valid() && size >= FRB_SIZE && TYPE_FRB < kind <= TYPE_MSG
      modifies `csh_free, `hdr_length, `hdr_type, `frb_next, `tiles
      ensures Valid()
      ensures block == 0 <==> !HasRoom(old(tiles), size)
      ensures block == 0 ==> tiles == old(tiles)
      ensures block != 0 ==> Served(old(tiles), tiles, RoundUp(size), kind, k, block)
      ensures block != 0 ==> HandedOut(old(tiles), tiles, size, kind, k, block) && Holds(block, kind, size)
      ensures forall t :: t in old(tiles) && !t.IsFree() ==> t in tiles
    {
      var n := RoundUp(size);
      RoundedOnly(tiles, size);
      ExhaustedIffNoRun(tiles, CSH_SIZE, length, n);
      var best, bestTail;
      best, bestTail, k := FindBest(n);
      if best < 0 {
        return 0, 0;
      }
      ServedBy(tiles, length, n, kind, k);
      ghost var ts := tiles;
      block := Take(best, bestTail, n, kind, k);
      ServedIsHandedOut(ts, tiles, length, size, kind, k, block);
      forall t | t in ts && !t.IsFree() ensures t in tiles {
        CarveKeepsInUse(ts, k, n, kind, t);
      }
    }

    /** The block at `k` is in use and begins at `block`. */
    ghost predicate InUse(k: int, block: int)
      reads this
    {
      0 <= k < |tiles| && !tiles[k].IsFree() && tiles[k].offset == block
    }

    /** The block at `k` is free and `block` lies in it, at its start or behind it. */
    ghost predicate InFree(k: int, block: int)
      reads this
    {
      0 <= k < |tiles| && tiles[k].IsFree() && tiles[k].offset <= block < tiles[k].End()
    }

    /** One round along the chain: a free block that begins no later than `block` is not behind it. */
    lemma SeekStep(ptr: int, i: int, block: int, k: int) returns (j: nat)
      requires Valid() && At(ptr, i) && Fetch(ptr) != 0 && Fetch(ptr) <= block
      ensures i <= j < |tiles| && At(Fetch(ptr), j + 1)
      ensures InUse(k, block) && i <= k ==> j < k
      ensures InFree(k, block) && i <= k + 1 ==> j <= k
    {
      j := NextFree(tiles, CSH_SIZE, length, i);
      LastFreeSkip(tiles, i, j);
      LinkAt(csh_free, frb_next, tiles, CSH_SIZE, length, j + 1);
      if 0 <= k < j {
        TiledAt(tiles, CSH_SIZE, length, k);
        Ascending(tiles, CSH_SIZE, length, k, j);
      }
    }

    /** When the walk stops, the link it stands at leads over the block in use. */
    lemma SeekEnd(ptr: int, i: int, k: nat)
      requires Valid() && At(ptr, i) && i <= k < |tiles| && !tiles[k].IsFree()
      requires Fetch(ptr) != 0 ==> tiles[k].offset < Fetch(ptr)
      ensures ptr == LastFree(tiles[..k]) && Fetch(ptr) == FirstFree(tiles[k + 1..], 0)
    {
      var j := NextFree(tiles, CSH_SIZE, length, i);
      if j < k {
        TiledAt(tiles, CSH_SIZE, length, j);
        Ascending(tiles, CSH_SIZE, length, j, k);
      }
      LastFreeSkip(tiles, i, k);
      LinkAt(csh_free, frb_next, tiles, CSH_SIZE, length, k);
      assert tiles[k..][1..] == tiles[k + 1..];
    }

    /** Or it stands at the free block that the address lies in. */
    lemma SeekInside(ptr: int, i: int, block: int, k: int)
      requires Valid() && At(ptr, i) && InFree(k, block) && i <= k + 1
      requires Fetch(ptr) != 0 ==> block < Fetch(ptr)
      ensures ptr == tiles[k].offset && ptr in hdr_length && hdr_length[ptr] == tiles[k].length
    {
      var j := NextFree(tiles, CSH_SIZE, length, i);
      if j < k {
        Ascending(tiles, CSH_SIZE, length, j, k);
        TiledAt(tiles, CSH_SIZE, length, j);
      }
      HeadersAt(hdr_length, hdr_type, tiles, k);
    }

    /** The walk of free_global: the link between the free blocks on either side of a block in use, or the free block an address lies in. */
    method FindSlot(block: int, ghost k: int) returns (ptr: int, free: int)
      requires Valid()
      ensures InUse(k, block) ==> ptr == LastFree(tiles[..k]) && free == FirstFree(tiles[k + 1..], 0)
      ensures InFree(k, block) ==> ptr == tiles[k].offset && ptr in hdr_length && hdr_length[ptr] == tiles[k].length
    {
      ghost var i := 0;
      ptr := 0;
      LinkAt(csh_free, frb_next, tiles, CSH_SIZE, length, 0);
      while Fetch(ptr) != 0 && block >= Fetch(ptr)
        invariant ptr == 0 || ptr in frb_next
        invariant At(ptr, i) && (InUse(k, block) ==> i <= k) && (InFree(k, block) ==> i <= k + 1)
        decreases |tiles| - i
      {
        ghost var j := SeekStep(ptr, i, block, k);
        ptr, i := Fetch(ptr), j + 1;
      }
      free := Fetch(ptr);
      if InUse(k, block) {
        SeekEnd(ptr, i, k);
      } else if InFree(k, block) {
        SeekInside(ptr, i, block, k);
      }
    }

    /** `w'` is `w` with block `k` linked in and merged with its free neighbours. */
    static ghost predicate Freed(w: Words, w': Words, ts: seq<Tile>, hi: int, k: nat)
      requires k < |ts|
    {
      var lo, x, end := CSH_SIZE, Joined(ts, k).offset, ts[Last(ts, k)].End();
      var ptr := LastFree(ts[..k]);
      && x in w'.lengths && w'.lengths[x] == Joined(ts, k).length
      && x in w'.types && w'.types[x] == TYPE_FRB
      && x in w'.next && w'.next[x] == FirstFree(ts[Last(ts, k) + 1..], 0)
      && Keeps(w.lengths, w'.lengths, lo, x) && Keeps(w.lengths, w'.lengths, end, hi)
      && Keeps(w.types, w'.types, lo, x) && Keeps(w.types, w'.types, end, hi)
      && Keeps(w.next, w'.next, end, hi)
      && (if FreeAt(ts, k - 1) then
            w'.head == w.head && Keeps(w.next, w'.next, lo, x)
          else
            && w'.head == (if ptr == 0 then x else w.head)
            && Keeps(if ptr == 0 then w.next else w.next[ptr := x], w'.next, lo, x))
    }

    /** What the words say about the neighbours of the block in use at `k`, and which of them touch it. */
    static ghost predicate Around(w: Words, ts: seq<Tile>, hi: int, k: nat)
      requires k < |ts|
    {
      var x, ptr, free := ts[k].offset, LastFree(ts[..k]), FirstFree(ts[k + 1..], 0);
      && CSH_SIZE <= x < ts[k].End() <= hi && x in w.lengths && w.lengths[x] == ts[k].length
      && (ptr == 0 ==> w.head == free)
      && (ptr != 0 ==> CSH_SIZE <= ptr < x && ptr in w.next && w.next[ptr] == free)
      && (ptr != 0 ==> ptr in w.lengths && ptr + w.lengths[ptr] <= x && ptr in w.types && w.types[ptr] == TYPE_FRB)
      && (free != 0 ==> x < free && free in w.lengths && free in w.next)
      && (FreeAt(ts, k + 1) <==> free != 0 && ts[k].End() == free)
      && (FreeAt(ts, k + 1) ==> w.next[free] == FirstFree(ts[k + 2..], 0))
      && (FreeAt(ts, k + 1) ==> w.lengths[free] == ts[k + 1].length > 0 && ts[k + 1].offset == free)
      && (FreeAt(ts, k - 1) <==> ptr != 0 && ptr + w.lengths[ptr] == x)
      && (FreeAt(ts, k - 1) ==> ptr == ts[k - 1].offset && w.lengths[ptr] == ts[k - 1].length && ptr + ts[k - 1].length == x)
    }

    static lemma AfterBlock(w: Words, ts: seq<Tile>, hi: int, k: nat)
      requires Spells(w, ts, hi) && k < |ts| && !ts[k].IsFree()
      ensures var free := FirstFree(ts[k + 1..], 0);
              && (free != 0 ==> ts[k].offset < free && free in w.lengths && free in w.next)
              && (FreeAt(ts, k + 1) <==> free != 0 && ts[k].End() == free)
              && (FreeAt(ts, k + 1) ==> w.next[free] == FirstFree(ts[k + 2..], 0))
              && (FreeAt(ts, k + 1) ==> w.lengths[free] == ts[k + 1].length > 0 && ts[k + 1].offset == free)
    {
      TiledAt(ts, CSH_SIZE, hi, k);
      var j := NextFree(ts, CSH_SIZE, hi, k + 1);
      if j < |ts| {
        FreeBlockAt(w, ts, hi, j);
        TiledAt(ts, CSH_SIZE, hi, j);
        Ascending(ts, CSH_SIZE, hi, k, j);
        if k + 1 < j {
          TiledAt(ts, CSH_SIZE, hi, k + 1);
          Ascending(ts, CSH_SIZE, hi, k + 1, j);
        }
      }
    }

    static lemma Neighbours(w: Words, ts: seq<Tile>, hi: int, k: nat)
      requires Spells(w, ts, hi) && k < |ts| && !ts[k].IsFree()
      ensures Around(w, ts, hi, k)
    {
      AfterBlock(w, ts, hi, k);
      TiledAt(ts, CSH_SIZE, hi, k);
      HeadersAt(w.lengths, w.types, ts, k);
      LinkAt(w.head, w.next, ts, CSH_SIZE, hi, k);
      LastFreeBounds(ts[..k], CSH_SIZE, ts[k].offset);
      assert ts[k..][1..] == ts[k + 1..];
      var i := PriorFree(ts, k);
      if i >= 0 {
        HeadersAt(w.lengths, w.types, ts, i);
        TiledAt(ts, CSH_SIZE, hi, i);
        if i + 1 < k {
          TiledAt(ts, CSH_SIZE, hi, i + 1);
          Ascending(ts, CSH_SIZE, hi, i + 1, k);
        }
      }
    }

    /** The free block that LastFree names. */
    static lemma {:induction false} PriorFree(ts: seq<Tile>, k: nat) returns (i: int)
      requires k <= |ts|
      ensures -1 <= i < k
      ensures i < 0 ==> LastFree(ts[..k]) == 0
      ensures i >= 0 ==> ts[i].IsFree() && LastFree(ts[..k]) == ts[i].offset
      ensures forall x :: i < x < k ==> !ts[x].IsFree()
    {
      if k == 0 {
        i := -1;
      } else if ts[k - 1].IsFree() {
        i := k - 1;
      } else {
        assert ts[..k][..k - 1] == ts[..k - 1];
        i := PriorFree(ts, k - 1);
      }
    }

    static lemma FreedSpells(w: Words, w': Words, ts: seq<Tile>, hi: int, k: nat)
      requires Spells(w, ts, hi) && k < |ts| && !ts[k].IsFree() && Freed(w, w', ts, hi, k)
      ensures Spells(w', Released(ts, k), hi)
    {
      var first, last, joined := First(ts, k), Last(ts, k), Joined(ts, k);
      ReleasedKeepsLayout(ts, CSH_SIZE, hi, k);
      assert [joined][1..] == [];
      assert Headers(w'.lengths, w'.types, [joined][1..]) && Threaded(w'.next, [joined][1..], 0);
      ReplaceHeaders(w, w', ts, hi, first, last, [joined]);
      if first < k {
        FreeBlockAt(w, ts, hi, first);
      }
      ReplaceChain(w, w', ts, hi, first, last, [joined]);
    }

    /** `w'` is `w` with block `k` linked in and merged with the free block after it. */
    static ghost predicate Entered(w: Words, w': Words, ts: seq<Tile>, hi: int, k: nat)
      requires k < |ts|
    {
      var lo, x, end, ptr := CSH_SIZE, ts[k].offset, ts[Last(ts, k)].End(), LastFree(ts[..k]);
      && x in w'.lengths && x + w'.lengths[x] == end
      && x in w'.types && w'.types[x] == TYPE_FRB
      && x in w'.next && w'.next[x] == FirstFree(ts[Last(ts, k) + 1..], 0)
      && Keeps(w.lengths, w'.lengths, lo, x) && Keeps(w.lengths, w'.lengths, end, hi)
      && Keeps(w.types, w'.types, lo, x) && Keeps(w.types, w'.types, end, hi)
      && w'.head == (if ptr == 0 then x else w.head)
      && Keeps(if ptr == 0 then w.next else w.next[ptr := x], w'.next, lo, x) && Keeps(w.next, w'.next, end, hi)
    }

    /** Link the block into the chain and merge it forwards. */
    method Enter(block: int, prior: int, free: int, ghost ts: seq<Tile>, ghost k: nat)
      requires k < |ts| && Around(State(), ts, length, k)
      requires block == ts[k].offset && prior == LastFree(ts[..k]) && free == FirstFree(ts[k + 1..], 0)
      modifies `csh_free, `hdr_length, `hdr_type, `frb_next
      ensures Entered(old(State()), State(), ts, length, k)
    {
      hdr_type := hdr_type[block := TYPE_FRB];
      frb_next := frb_next[block := free];
      Store(prior, block);
      if free != 0 && block + hdr_length[block] == free {
        hdr_length := hdr_length[block := hdr_length[block] + hdr_length[free]];
        frb_next := frb_next[block := frb_next[free]];
      }
    }

    /** The second half of free_global: link the block in, then merge it forwards and backwards. */
    method LinkIn(block: int, prior: int, free: int, ghost ts: seq<Tile>, ghost k: nat)
      requires k < |ts| && Around(State(), ts, length, k)
      requires block == ts[k].offset && prior == LastFree(ts[..k]) && free == FirstFree(ts[k + 1..], 0)
      modifies `csh_free, `hdr_length, `hdr_type, `frb_next
      ensures Freed(old(State()), State(), ts, length, k)
    {
      Enter(block, prior, free, ts, k);
      if prior != 0 && prior + hdr_length[prior] == block {
        hdr_length := hdr_length[prior := hdr_length[prior] + hdr_length[block]];
        frb_next := frb_next[prior := frb_next[block]];
      }
      assert Joined(ts, k).offset == if FreeAt(ts, k - 1) then prior else block;
    }

    /** A type written where no block in use begins changes nothing that counts. */
    static lemma {:induction false} StrayType(lengths: map<int, int>, types: map<int, int>, ts: seq<Tile>, lo: int, hi: int, block: int)
      requires Tiled(ts, lo, hi) && Headers(lengths, types, ts)
      requires forall i :: 0 <= i < |ts| && ts[i].offset == block ==> ts[i].IsFree()
      ensures Headers(lengths, types[block := TYPE_FRB], ts)
    {
      if ts != [] {
        StrayType(lengths, types, ts[1..], ts[0].End(), hi, block);
      }
    }

    /** An address free_global can recognise as bad: outside the region, or where the space is free already. */
    ghost predicate Recognised(block: int)
      reads this
    {
      block <= 0 || block > length || exists k :: InFree(k, block)
    }

    lemma RecognisedIsNotUsed(block: int)
      requires Valid() && Recognised(block)
      ensures forall i :: 0 <= i < |tiles| && tiles[i].offset == block ==> tiles[i].IsFree()
    {
      forall i | 0 <= i < |tiles| && tiles[i].offset == block ensures tiles[i].IsFree() {
        TiledAt(tiles, CSH_SIZE, length, i);
        if k :| InFree(k, block) {
          if k < i { Ascending(tiles, CSH_SIZE, length, k, i); }
          if i < k { Ascending(tiles, CSH_SIZE, length, i, k); }
        }
      }
    }

    lemma UsedIsNotRecognised(block: int)
      requires Valid() && block in Allocated()
      ensures !Recognised(block)
    {
      var k := IndexOf(tiles, block);
      if Recognised(block) {
        RecognisedIsNotUsed(block);
      }
    }

    /**
     free_global.  `bad` is the outcome of its sanity check: giving back a block in use never fails it, and
     an address outside the region or in free space, such as a block given back twice, always does and
     leaves the layout as it was.
     */
    method FreeGlobal(block: int) returns (bad: bool)
      requires Valid() && (block in Allocated() || Recognised(block))
      modifies `csh_free, `hdr_length, `hdr_type, `frb_next, `tiles
      ensures Valid() && (bad <==> block !in old(Allocated()))
      ensures bad ==> tiles == old(tiles)
      ensures !bad ==> tiles == Released(old(tiles), IndexOf(old(tiles), block))
      ensures !bad ==> Allocated() == old(Allocated()) - {block}
    {
      ghost var k: int := -1;
      if block in Allocated() {
        UsedIsNotRecognised(block);
        k := IndexOf(tiles, block);
        Neighbours(State(), tiles, length, k);
        ReleasedLive(tiles, CSH_SIZE, length, k);
      } else if j :| InFree(j, block) {
        k := j;
        TiledAt(tiles, CSH_SIZE, length, k);
      }
      var prior, free := FindSlot(block, k);
      bad := block <= 0 || block > length || (prior != 0 && block < prior + hdr_length[prior]);
      if bad {
        RecognisedIsNotUsed(block);
        StrayType(hdr_length, hdr_type, tiles, CSH_SIZE, length, block);
        hdr_type := hdr_type[block := TYPE_FRB];
        return;
      }
      LinkIn(block, prior, free, tiles, k);
      FreedSpells(old(State()), State(), tiles, length, k);
      tiles := Released(tiles, k);
    }

    /** The words of a block with a length and a type; a free block is not linked beyond the region. */
    ghost predicate HeaderOf(t: Tile)
      reads this
    {
      && t.offset in hdr_length && hdr_length[t.offset] == t.length > 0
      && t.offset in hdr_type && hdr_type[t.offset] == t.kind && 0 < t.kind <= TYPE_MSG
      && (t.IsFree() ==> Peek(frb_next, t.offset) < length)
    }

    /** The link of the last free block among those found, until a block has been found there. */
    ghost function Pending(found: seq<Tile>): int
      reads this
    {
      if found == [] then 0
      else
        var last := found[|found| - 1];
        if last.IsFree() then Peek(frb_next, last.offset)
        else if last.offset == Pending(found[..|found| - 1]) then 0 else Pending(found[..|found| - 1])
    }

    /** The blocks found by going from header to header lie end to end up to `end`, and none lies behind a link that leads to no block. */
    ghost predicate Laid(found: seq<Tile>, end: int)
      reads this
    {
      if found == [] then end == CSH_SIZE
      else
        var front, last := found[..|found| - 1], found[|found| - 1];
        HeaderOf(last) && end == last.End() && Laid(front, last.offset) && (Pending(front) == 0 || last.offset <= Pending(front))
    }

    lemma LaidMore(found: seq<Tile>, t: Tile)
      requires Laid(found, t.offset) && HeaderOf(t) && (Pending(found) == 0 || t.offset <= Pending(found))
      ensures Laid(found + [t], t.End())
      ensures Pending(found + [t]) == if t.IsFree() then Peek(frb_next, t.offset) else if t.offset == Pending(found) then 0 else Pending(found)
    {
      assert (found + [t])[..|found|] == found;
    }

    /** A word of the region; what nobody has written is 0. */
    static function Peek(m: map<int, int>, x: int): int { if x in m then m[x] else 0 }

    /** Where the walk stands in a region whose words spell out `tiles`. */
    ghost predicate Midway(i: int, offset: int, nextFree: int)
      reads this
    {
      && 0 <= i <= |tiles| && offset == (if i < |tiles| then tiles[i].offset else length)
      && (nextFree == 0 || nextFree == FirstFree(tiles[i..], 0))
    }

    /** What one round of the walk finds there. */
    lemma ValidateStep(i: int, offset: int, nextFree: int)
      requires Valid() && Midway(i, offset, nextFree) && offset < length
      ensures i < |tiles| && offset in hdr_length && offset in hdr_type && hdr_length[offset] == tiles[i].length > 0
      ensures hdr_type[offset] == tiles[i].kind && TYPE_FRB <= hdr_type[offset] <= TYPE_MSG
      ensures nextFree != 0 ==> offset <= nextFree
      ensures var next := if hdr_type[offset] == TYPE_FRB then Peek(frb_next, offset) else if nextFree == offset then 0 else nextFree;
              && (hdr_type[offset] == TYPE_FRB ==> next < length) && offset + hdr_length[offset] <= length
              && Midway(i + 1, offset + hdr_length[offset], next)
    {
      TiledAt(tiles, CSH_SIZE, length, i);
      HeadersAt(hdr_length, hdr_type, tiles, i);
      var j := NextFree(tiles, CSH_SIZE, length, i);
      if i < j < |tiles| {
        Ascending(tiles, CSH_SIZE, length, i, j);
      }
      assert tiles[i..][1..] == tiles[i + 1..];
      if tiles[i].IsFree() {
        FreeBlockAt(State(), tiles, length, i);
        var k := NextFree(tiles, CSH_SIZE, length, i + 1);
        if k < |tiles| {
          TiledAt(tiles, CSH_SIZE, length, k);
        }
      }
      TiledEnd(tiles, CSH_SIZE, length, i);
    }

    /**
     CSS_validate on any words; `ok` says that it never called punt.  It never does in a sound region; and where
     it does not, the headers lead from block to block exactly to the end, and no link of a free block leads beyond it.
     */
    method Validate() returns (ok: bool)
      requires (forall x :: x in hdr_length ==> hdr_length[x] >= 0) && forall x :: x in hdr_type ==> hdr_type[x] >= 0
      ensures Valid() ==> ok
      ensures ok ==> length >= CSH_SIZE && exists found :: Laid(found, length)
    {
      ok := true;
      var nextFree, offset := 0, CSH_SIZE;
      ghost var i, found := 0, [];
      if Valid() { TiledSpan(tiles, CSH_SIZE, length); }
      while offset < length
        invariant Valid() ==> ok && Midway(i, offset, nextFree) && offset <= length
        invariant offset >= CSH_SIZE && (ok ==> Laid(found, offset) && nextFree == Pending(found))
        decreases length - offset
      {
        if Valid() { ValidateStep(i, offset, nextFree); }
        if Peek(hdr_length, offset) == 0 || Peek(hdr_type, offset) == 0 || Peek(hdr_type, offset) > TYPE_MSG {
          ok := false;
          break;
        }
        if nextFree != 0 {
          if offset == nextFree {
            nextFree := 0;
          } else if offset > nextFree {
            ok := false;
          }
        }
        if hdr_type[offset] == TYPE_FRB {
          nextFree := Peek(frb_next, offset);
          if nextFree >= length {
            ok := false;
          }
        }
        ghost var t := Tile(offset, hdr_length[offset], hdr_type[offset]);
        if ok { LaidMore(found, t); }
        found := found + [t];
        offset, i := offset + hdr_length[offset], i + 1;
      }
      if offset != length {
        ok := false;
      }
    }
  }
}

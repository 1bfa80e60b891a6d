/**
 One pool of the dsql allocator (dsql/alld.c, 32-bit layout): best-fit allocation, extension by system
 hunks whose descriptors are allocated from the pool itself, and release with coalescing.
 */
module Pools {

  import opened PoolTiles

  const BLK_BYTES := 4
  const HNK_BYTES := 16
  const MIN_ALLOCATION := 1024
  const MAX_BLOCK := 262144 - MIN_ALLOCATION - HNK_BYTES - 8

  predicate Legal(size: nat) { BLK_BYTES < size < MAX_BLOCK }

  /** A byte count in longwords, rounded up. */
  function Units(size: nat): (n: nat)
    ensures 4 * n - 4 < size <= 4 * n
  {
    (size + 3) / 4
  }

  /** The longwords extend_pool asks of the system. */
  function HunkUnits(size: nat): (n: nat)
    ensures n % 256 == 0 && size + HNK_BYTES <= 4 * n < size + HNK_BYTES + MIN_ALLOCATION
  {
    var k := (size + HNK_BYTES + MIN_ALLOCATION - 1) / MIN_ALLOCATION;
    assert k * MIN_ALLOCATION / 4 == k * 256;
    k * MIN_ALLOCATION / 4
  }

  /** A block of `size` at `r` is cut from the end of the free block `f`, or is the whole of it if hardly anything would be left. */
  ghost predicate CutFrom(h: Headers, f: int, r: int, size: int, needed: int)
  {
    && IsFree(h, f) && h[f].size >= needed
    && if h[f].size - needed > FRB_UNITS then r == f + h[f].size - needed && size == needed else r == f && size == h[f].size
  }

  /** Shorter, or of the same length and not behind it. */
  predicate Sooner(h: Headers, f: int, g: int)
    requires f in h && g in h
  {
    h[f].size < h[g].size || (h[f].size == h[g].size && f <= g)
  }

  /** What is shortest on the list, and first among its like, is so among the free blocks. */
  lemma Soonest(h: Headers, free: seq<int>, best: nat, needed: int)
    requires Listed(h, free) && best < |free| && free[best] in h
    requires forall j :: 0 <= j < |free| && free[j] in h && h[free[j]].size >= needed
               ==> h[free[best]].size <= h[free[j]].size && (j < best ==> h[free[best]].size < h[free[j]].size)
    ensures forall g :: IsFree(h, g) && h[g].size >= needed ==> Sooner(h, free[best], g)
  {
    forall g | IsFree(h, g) && h[g].size >= needed ensures Sooner(h, free[best], g) {
      assert g in free;
      var j :| 0 <= j < |free| && free[j] == g;
    }
  }

  /** It is cut from the shortest free block that would do, the first of several. */
  ghost predicate BestCut(h: Headers, r: int, size: int, needed: int)
  {
    exists f :: CutFrom(h, f, r, size, needed) && forall g :: IsFree(h, g) && h[g].size >= needed ==> Sooner(h, f, g)
  }

  /** A hunk always has room for the request and its own descriptor, and never more than a USHORT counts. */
  lemma HunkSize(size: nat)
    requires Legal(size)
    ensures FRB_UNITS <= Units(size) && Units(size) + Units(HNK_BYTES) <= HunkUnits(size)
    ensures 256 <= HunkUnits(size) <= MAX_USHORT
  {
    var k := (size + HNK_BYTES + MIN_ALLOCATION - 1) / MIN_ALLOCATION;
    assert HunkUnits(size) == k * 256;
  }

  /** How release ends: the block is given back, or one of three bugchecks. */
  datatype Freeing = Released | Twice | OverlapsNext | OverlapsPrior

  /** A block of the pool, or an address inside a free block where a block once was, and the length written there. */
  ghost predicate Returnable(h: Headers, b: int, size: int)
  {
    if b in h then size == h[b].size else exists f :: InFree(h, f, b)
  }

  /**
   What release must make of it: a block in use is given back; a free one has been released before; and one
   that was merged into another free block since overlaps that one, unless its old length reaches past the
   start of the next.
   */
  ghost function Verdict(h: Headers, b: int, size: int): Freeing
  {
    if b in LiveMap(h) then Released
    else if IsFree(h, b) then Twice
    else if exists n :: IsFree(h, n) && b < n < b + size then OverlapsNext
    else OverlapsPrior
  }

  /** A free block begins inside the old length exactly if the next one on the list does. */
  lemma NextFree(h: Headers, free: seq<int>, i: nat, b: int, size: int)
    requires Listed(h, free) && b !in h && i <= |free|
    requires (forall j :: 0 <= j < i ==> free[j] < b) && (i < |free| ==> b <= free[i])
    ensures (exists n :: IsFree(h, n) && b < n < b + size) <==> i < |free| && b + size > free[i]
  {
    if n :| IsFree(h, n) && b < n < b + size {
      assert n in free;
      var k :| 0 <= k < |free| && free[k] == n;
    }
    if i < |free| && b + size > free[i] {
      assert free[i] in free && IsFree(h, free[i]);
    }
  }

  datatype Hunk = Hunk(address: int, units: int, at: int) {
    function Extent(): Span { Span(address, address + units) }
  }

  function Extents(hs: seq<Hunk>): set<Span> { if hs == [] then {} else {hs[0].Extent()} + Extents(hs[1..]) }

  /** The same hunks, or one more in front. */
  ghost predicate Longer(hs: seq<Hunk>, hs': seq<Hunk>, s: Span)
  {
    hs' == hs || (|hs'| > 0 && hs'[1..] == hs && hs'[0].Extent() == s)
  }

  /** Each descriptor lies in its own hunk or in an older one, and no hunk is entered twice. */
  ghost predicate Nested(hs: seq<Hunk>, h: Headers, cell: Cells)
  {
    hs != [] ==>
      && hs[0].at in h && h[hs[0].at].kind == Hnk && hs[0].at in cell && cell[hs[0].at].span in Extents(hs)
      && hs[0].Extent() !in Extents(hs[1..])
      && Nested(hs[1..], h, cell)
  }

  ghost predicate SameSpans(cell: Cells, cell': Cells)
  {
    forall u :: u in cell ==> u in cell' && cell'[u].span == cell[u].span
  }

  /** These are the hunks the longwords lie in. */
  ghost predicate Spanning(cell: Cells, spans: set<Span>)
  {
    && (forall u :: u in cell ==> cell[u].span in spans)
    && (forall s :: s in spans ==> s.lo in cell && cell[s.lo].span == s)
  }

  lemma SpanningGrown(cell: Cells, spans: set<Span>, s: Span)
    requires Spanning(cell, spans) && Clear(cell.Keys, s) && s.lo < s.hi
    ensures Spanning(Grown(cell, s), spans + {s}) && SameSpans(cell, Grown(cell, s))
    ensures Grown(cell, s).Keys == cell.Keys + s.Units() && s.lo in Grown(cell, s)
  {
    assert s.Has(s.lo);
  }

  lemma SpanningFrame(cell: Cells, cell': Cells, spans: set<Span>)
    requires Spanning(cell, spans) && cell'.Keys == cell.Keys && SameSpans(cell, cell')
    ensures Spanning(cell', spans)
  {
  }

  /** The longword belongs to a block in use. */
  ghost predicate InBlock(live: Headers, b: int, u: int) { b in live && b <= u < b + live[b].size }

  /** The contents of the blocks in use. */
  ghost predicate Kept(live: Headers, word: map<int, int>, word': map<int, int>)
  {
    forall b, u :: InBlock(live, b, u) && u in word ==> u in word' && word'[u] == word[u]
  }

  /** Zeroing a block that was in nobody's use. */
  lemma ZeroKeeps(live: Headers, word: map<int, int>, h: Headers, cell: Cells, r: int)
    requires Tiled(h, cell) && r in h && r !in live && forall b :: b in live ==> b in LiveMap(h) && LiveMap(h)[b] == live[b]
    ensures Kept(live, word, Zeroed(word, r, h[r].size))
  {
    forall b, u | InBlock(live, b, u) ensures !(r <= u < r + h[r].size) {
      if b < r { BlocksDisjoint(h, cell, b, r); } else { BlocksDisjoint(h, cell, r, b); }
    }
  }

  lemma KeptTrans(live: Headers, w: map<int, int>, live1: Headers, w1: map<int, int>, w2: map<int, int>)
    requires Kept(live, w, w1) && Kept(live1, w1, w2) && forall b :: b in live ==> b in live1 && live1[b] == live[b]
    ensures Kept(live, w, w2)
  {
    forall b, u | InBlock(live, b, u) && u in w ensures u in w2 && w2[u] == w[u] {
      assert InBlock(live1, b, u);
    }
  }

  /** A new descriptor, wherever in the pool it was allocated. */
  lemma {:induction false} NestedCons(hk: Hunk, hs: seq<Hunk>, h: Headers, cell: Cells, spans: set<Span>)
    requires Nested(hs, h, cell) && Spanning(cell, spans) && spans == Extents(hs) + {hk.Extent()}
    requires hk.at in h && h[hk.at].kind == Hnk && hk.at in cell && hk.Extent() !in Extents(hs)
    ensures Nested([hk] + hs, h, cell) && spans == Extents([hk] + hs)
  {
    assert ([hk] + hs)[1..] == hs;
  }

  lemma {:induction false} NestedFrame(hs: seq<Hunk>, h: Headers, cell: Cells, h': Headers, cell': Cells)
    requires Nested(hs, h, cell) && SameSpans(cell, cell')
    requires forall i :: 0 <= i < |hs| && hs[i].at in LiveMap(h) ==>
               hs[i].at in LiveMap(h') && LiveMap(h')[hs[i].at] == LiveMap(h)[hs[i].at]
    ensures Nested(hs, h', cell')
  {
    if hs != [] {
      assert hs[0].at in LiveMap(h);
      NestedFrame(hs[1..], h, cell, h', cell');
    }
  }

  ghost predicate FitIn(h: Headers, free: seq<int>, needed: int)
  {
    exists i :: 0 <= i < |free| && free[i] in h && h[free[i]].size >= needed
  }

  /** Taking a block spoils no free block by more than the block taken. */
  lemma TakeLeaves(h: Headers, cell: Cells, free: seq<int>, i: nat, needed: int, kind: Kind, n: int)
    requires PoolHeap(h, cell, free) && i < |free| && free[i] in h && FRB_UNITS <= needed <= h[free[i]].size
    requires n > FRB_UNITS && FitIn(h, free, n + needed)
    ensures FitIn(TakenHeaders(h, free[i], needed, kind), TakenList(h, free, i, needed), n)
  {
    var f := free[i];
    var h', free' := TakenHeaders(h, f, needed, kind), TakenList(h, free, i, needed);
    var j :| 0 <= j < |free| && free[j] in h && h[free[j]].size >= n + needed;
    var g := free[j];
    assert g in free && f in free && IsFree(h, g) && IsFree(h, f);
    if Splits(h, f, needed) {
      CutTiles(h, cell, f, h[f].size - needed, Block(kind, h[f].mod, needed));
      assert free'[j] in h' && h'[free'[j]].size >= n;
    } else {
      assert j != i;
      var k := if j < i then j else j - 1;
      assert free'[k] == g;
    }
  }

  /** Everything an allocation keeps and leaves, over values. */
  lemma TakeFacts(h: Headers, cell: Cells, free: seq<int>, i: nat, needed: int, kind: Kind, spans: set<Span>, mod: int)
    requires PoolHeap(h, cell, free) && i < |free| && free[i] in h && kind != Free && FRB_UNITS <= needed <= h[free[i]].size
    requires Spanning(cell, spans) && forall b :: b in h ==> h[b].mod == mod
    ensures var h', c', f' := TakenHeaders(h, free[i], needed, kind), TakenCells(h, cell, free[i], needed), TakenList(h, free, i, needed);
            var r := TakenAt(h, free[i], needed);
            && PoolHeap(h', c', f') && Spanning(c', spans) && SameSpans(cell, c') && c'.Keys == cell.Keys
            && (forall b :: b in h' ==> h'[b].mod == mod)
            && r !in LiveMap(h) && r in h' && LiveMap(h') == LiveMap(h)[r := h'[r]]
            && h'[r].kind == kind && h'[r].size >= needed
            && forall n :: n > FRB_UNITS && FitIn(h, free, n + needed) ==> FitIn(h', f', n)
  {
    TakeKeeps(h, cell, free, i, needed, kind);
    forall n | n > FRB_UNITS && FitIn(h, free, n + needed)
      ensures FitIn(TakenHeaders(h, free[i], needed, kind), TakenList(h, free, i, needed), n)
    {
      TakeLeaves(h, cell, free, i, needed, kind, n);
    }
    SpanningFrame(cell, TakenCells(h, cell, free[i], needed), spans);
  }

  class Pool {
    const id: nat
    var header: Headers
    var free: seq<int>
    var hunks: seq<Hunk>
    var word: map<int, int>
    ghost var cell: Cells
    ghost var spans: set<Span>

    constructor (id: nat)
      ensures this.id == id && header == map[] && free == [] && hunks == [] && cell == map[] && spans == {}
      ensures Heap() && Nested(hunks, header, cell)
    {
      this.id := id;
      header, free, hunks, word, cell, spans := map[], [], [], map[], map[], {};
    }

    /** The blocks tile the hunks, the free list is right, every header names this pool. */
    ghost predicate Heap()
      reads this`header, this`free, this`word, this`cell, this`spans
    {
      && PoolHeap(header, cell, free)
      && (forall b :: b in header ==> header[b].mod == id % 256)
      && word.Keys == cell.Keys
      && Spanning(cell, spans)
    }

    ghost predicate Valid()
      reads this
    {
      Heap() && Nested(hunks, header, cell) && spans == Extents(hunks)
    }

    ghost predicate Fit(needed: int)
      reads this`header, this`free
    {
      FitIn(header, free, needed)
    }

    /** The shortest free block that is long enough. */
    method FindBest(needed: int) returns (best: int)
      requires Heap() && needed >= 0
      ensures best == -1 <==> !Fit(needed)
      ensures best == -1 || 0 <= best < |free|
      ensures best >= 0 ==> free[best] in header && header[free[best]].size >= needed
      ensures best >= 0 ==> forall j :: 0 <= j < |free| && free[j] in header && header[free[j]].size >= needed
                                 ==> header[free[best]].size <= header[free[j]].size && (j < best ==> header[free[best]].size < header[free[j]].size)
      ensures best >= 0 ==> forall g :: IsFree(header, g) && header[g].size >= needed ==> Sooner(header, free[best], g)
    {
      best := -1;
      var bestTail := MAX_BLOCK;
      assert Listed(header, free);
      var i := 0;
      while i < |free|
        invariant 0 <= i <= |free| && -1 <= best < i
        invariant best == -1 ==> bestTail == MAX_BLOCK
        invariant best >= 0 ==> free[best] in header && bestTail == header[free[best]].size - needed >= 0
        invariant forall j :: 0 <= j < i && free[j] in header && header[free[j]].size >= needed
                    ==> best >= 0 && header[free[best]].size <= header[free[j]].size && (j < best ==> header[free[best]].size < header[free[j]].size)
      {
        assert free[i] in free && IsFree(header, free[i]);
        BlockAt(header, cell, free[i]);
        // a free block is never its own successor
        assert i + 1 < |free| ==> free[i] != free[i + 1];
        var tail := header[free[i]].size - needed;
        if tail >= 0 && tail < bestTail {
          best := i;
          bestTail := tail;
          if tail == 0 { break; }
        }
        i := i + 1;
      }
      if best >= 0 { Soonest(header, free, best, needed); }
    }

    /** Cuts the block from the end of a free one, or hands out the whole of it; zeroes it. */
    method Carve(i: nat, needed: int, kind: Kind) returns (r: int)
      requires i < |free| && free[i] in header && header[free[i]].mod == id % 256
      modifies this`header, this`free, this`cell, this`word
      ensures r == TakenAt(old(header), old(free[i]), needed)
      ensures header == TakenHeaders(old(header), old(free[i]), needed, kind) && r in header
      ensures free == TakenList(old(header), old(free), i, needed)
      ensures cell == TakenCells(old(header), old(cell), old(free[i]), needed)
      ensures word == Zeroed(old(word), r, header[r].size)
    {
      var f := free[i];
      var size := header[f].size;
      var left := size - needed;
      if left > FRB_UNITS {
        r := f + left;
        header := header[f := header[f].(size := left)][r := Block(kind, id % 256, needed)];
        cell := Repaint(cell, r, f + size, r);
        size := needed;
      } else {
        r := f;
        free := free[..i] + free[i + 1..];
        header := header[f := header[f].(kind := kind)];
      }
      word := Zeroed(word, r, size);
    }

    method Take(i: nat, needed: int, kind: Kind) returns (r: int)
      requires Heap() && i < |free| && free[i] in header && kind != Free && FRB_UNITS <= needed <= header[free[i]].size
      modifies this`header, this`free, this`cell, this`word
      ensures Heap() && SameSpans(old(cell), cell) && cell.Keys == old(cell.Keys)
      ensures r !in old(LiveMap(header)) && r in header && LiveMap(header) == old(LiveMap(header))[r := header[r]]
      ensures header[r].kind == kind && header[r].size >= needed && word == Zeroed(old(word), r, header[r].size)
      ensures CutFrom(old(header), old(free[i]), r, header[r].size, needed)
      ensures forall n :: n > FRB_UNITS && FitIn(old(header), old(free), n + needed) ==> FitIn(header, free, n)
    {
      TakeFacts(header, cell, free, i, needed, kind, spans, id % 256);
      r := Carve(i, needed, kind);
      // what is handed out fits the header's length
      BlockAt(header, cell, r);
      assert header[r].size <= MAX_USHORT;
    }

    /** Where a block goes in the free list. */
    method Slot(b: int) returns (i: nat)
      requires Ascending(free)
      ensures i <= |free|
      ensures forall j :: 0 <= j < i ==> free[j] < b
      ensures i < |free| ==> b <= free[i]
    {
      i := 0;
      while i < |free| && b > free[i]
        invariant i <= |free|
        invariant forall j :: 0 <= j < i ==> free[j] < b
      {
        i := i + 1;
      }
    }

    /** Merges a free block with the next one on the list, which begins where it ends. */
    method JoinNext(i: nat)
      requires Tiled(header, cell) && Listed(header, free) && i + 1 < |free|
      requires free[i] in header && free[i + 1] in header && free[i] + header[free[i]].size == free[i + 1]
      modifies this`header, this`free, this`cell
      ensures Tiled(header, cell) && Listed(header, free) && cell.Keys == old(cell.Keys) && SameSpans(old(cell), cell)
      ensures free == Drop(old(free), i + 1) && header == Join(old(header), old(free[i]), old(free[i + 1]))
      ensures LiveMap(header) == old(LiveMap(header))
    {
      var x, y := free[i], free[i + 1];
      JoinFree(header, cell, free, i);
      // the sum still fits the header's length
      assert header[x].size + header[y].size <= MAX_USHORT;
      cell := Repaint(cell, y, y + header[y].size, x);
      header := map b | b in header && b != y :: if b == x then header[x].(size := header[x].size + header[y].size) else header[b];
      free := free[..i + 1] + free[i + 2..];
    }

    /** Merges the block with the free block after it. */
    method MergeNext(b: int, i: nat)
      requires Tiled(header, cell) && Listed(header, free) && i < |free| && free[i] == b && b in header
      requires CoalescedBut(header, b)
      modifies this`header, this`free, this`cell
      ensures Tiled(header, cell) && Listed(header, free) && cell.Keys == old(cell.Keys) && SameSpans(old(cell), cell)
      ensures i < |free| && free[i] == b && b in header && header[b].size >= old(header[b].size)
      ensures CoalescedBut(header, b) && !IsFree(header, b + header[b].size)
      ensures LiveMap(header) == old(LiveMap(header))
      ensures forall x :: x in header ==> x in old(header) && header[x].mod == old(header)[x].mod
    {
      assert b in free;
      NextOnly(header, cell, free, i);
      if i + 1 < |free| {
        assert free[i + 1] in free && IsFree(header, free[i + 1]);
        if b + header[b].size == free[i + 1] {
          JoinedNext(header, cell, b, free[i + 1]);
          BlockAt(header, cell, free[i + 1]);
          JoinNext(i);
        } else if b + header[b].size > free[i + 1] {
          // "released block overlaps following free block"
          assert false;
        }
      }
    }

    /** Merges the block with the free block before it. */
    method MergePrior(b: int, i: nat)
      requires Tiled(header, cell) && Listed(header, free) && i < |free| && free[i] == b && b in header
      requires CoalescedBut(header, b) && !IsFree(header, b + header[b].size)
      modifies this`header, this`free, this`cell
      ensures PoolHeap(header, cell, free) && cell.Keys == old(cell.Keys) && SameSpans(old(cell), cell)
      ensures LiveMap(header) == old(LiveMap(header)) && Fit(old(header[b].size))
      ensures forall x :: x in header ==> x in old(header) && header[x].mod == old(header)[x].mod
    {
      assert b in free;
      if i > 0 {
        var x := free[i - 1];
        assert x in free && IsFree(header, x);
        NextOnly(header, cell, free, i - 1);
        if x + header[x].size == b {
          JoinedPrior(header, cell, x, b);
          BlockAt(header, cell, x);
          JoinNext(i - 1);
          assert free[i - 1] == x;
          return;
        } else if x + header[x].size > b {
          // "released block overlaps prior free block"
          assert false;
        }
      }
      NotTouched(header, cell, free, i);
    }

    /** Puts a block marked free on the list and merges it with its neighbours. */
    method LinkIn(b: int, i: nat)
      requires b in header && i <= |free|
      requires Tiled(header, cell) && CoalescedBut(header, b) && Listed(header, Insert(free, i, b))
      modifies this`header, this`free, this`cell
      ensures PoolHeap(header, cell, free) && cell.Keys == old(cell.Keys) && SameSpans(old(cell), cell)
      ensures LiveMap(header) == old(LiveMap(header)) && Fit(old(header[b].size))
      ensures forall x :: x in header ==> x in old(header) && header[x].mod == old(header)[x].mod
    {
      free := free[..i] + [b] + free[i..];
      assert free[i] == b;
      MergeNext(b, i);
      MergePrior(b, i);
    }

    /** The checks of release before anything is merged: is it free already, or does it overlap a free block? */
    method CheckRelease(b: int, size: int, i: nat) returns (o: Freeing)
      requires Heap() && Returnable(header, b, size) && i <= |free|
      requires (forall j :: 0 <= j < i ==> free[j] < b) && (i < |free| ==> b <= free[i])
      ensures o == Verdict(header, b, size)
    {
      assert forall j :: 0 <= j < |free| ==> free[j] in free && IsFree(header, free[j]);
      if i < |free| && free[i] == b {
        return Twice;
      }
      InList(header, free, i, b);
      ghost var inside := exists f :: InFree(header, f, b);
      if inside {
        ghost var f :| InFree(header, f, b);
        OverlapsPriorBlock(header, cell, free, i, b, f);
        NextFree(header, free, i, b, size);
      } else {
        NoOverlap(header, cell, free, i, b);
      }
      if i < |free| && b + size > free[i] {
        o := OverlapsNext;
      } else if i > 0 && free[i - 1] + header[free[i - 1]].size > b {
        o := OverlapsPrior;
      } else {
        o := Released;
      }
    }

    /**
     release.  Anything but Released is a BUGCHECK, which does not return; the overlaps are noticed only when
     the block is already linked in, and what they leave behind is not modelled.
     */
    method Release(b: int, size: int) returns (o: Freeing)
      requires Heap() && Returnable(header, b, size) && forall i :: 0 <= i < |hunks| ==> hunks[i].at != b
      requires Nested(hunks, header, cell)
      modifies this`header, this`free, this`cell
      ensures Heap() && Nested(hunks, header, cell) && cell.Keys == old(cell.Keys) && SameSpans(old(cell), cell)
      ensures o == old(Verdict(header, b, size))
      ensures o != Released ==> header == old(header) && free == old(free) && cell == old(cell)
      ensures o == Released ==> LiveMap(header) == map x | x in old(LiveMap(header)) && x != b :: old(LiveMap(header))[x]
    {
      ghost var h, c := header, cell;
      assert Listed(header, free);
      var i := Slot(b);
      o := CheckRelease(b, size, i);
      if o == Released {
        InList(header, free, i, b);
        MarkFree(header, cell, free, i, b);
        header := header[b := header[b].(kind := Free)];
        LinkIn(b, i);
        NestedFrame(hunks, h, c, header, cell);
      }
    }

    /** Enters a hunk from the system as one block marked free, not yet on the list. */
    method EnterHunk(s: Span) returns (i: nat)
      requires Heap() && Clear(cell.Keys, s) && FRB_UNITS <= s.hi - s.lo <= MAX_USHORT
      modifies this`header, this`cell, this`spans, this`word
      ensures s.lo in header && i <= |free| && header[s.lo].size == s.hi - s.lo
      ensures Tiled(header, cell) && CoalescedBut(header, s.lo) && Listed(header, Insert(free, i, s.lo))
      ensures forall b :: b in header ==> header[b].mod == id % 256
      ensures cell == Grown(old(cell), s) && spans == old(spans) + {s} && LiveMap(header) == old(LiveMap(header))
      ensures word.Keys == cell.Keys && forall u :: u in old(word) ==> u in word && word[u] == old(word)[u]
    {
      assert Listed(header, free);
      i := Slot(s.lo);
      HunkListed(header, cell, free, s, Block(Free, id % 256, s.hi - s.lo), i);
      SpanningGrown(cell, spans, s);
      header := header[s.lo := Block(Free, id % 256, s.hi - s.lo)];
      cell := Grown(cell, s);
      spans := spans + {s};
      var junk: int := *;
      word := map u | u in word.Keys + s.Units() :: if u in word then word[u] else junk;
    }

    /** The new hunk on the free list. */
    method AddHunk(s: Span)
      requires Heap() && Nested(hunks, header, cell) && Clear(cell.Keys, s) && FRB_UNITS <= s.hi - s.lo <= MAX_USHORT
      modifies this`header, this`cell, this`spans, this`word, this`free
      ensures Heap() && Nested(hunks, header, cell) && spans == old(spans) + {s} && s !in old(spans)
      ensures cell.Keys == old(cell.Keys) + s.Units() && SameSpans(old(cell), cell) && s.lo in cell && cell[s.lo].span == s
      ensures LiveMap(header) == old(LiveMap(header)) && Fit(s.hi - s.lo)
      ensures forall u :: u in old(word) ==> u in word && word[u] == old(word)[u]
    {
      ghost var h, c := header, cell;
      SpanningGrown(cell, spans, s);
      var i := EnterHunk(s);
      ghost var c1 := cell;
      LinkIn(s.lo, i);
      SpanningFrame(c1, cell, spans);
      NestedFrame(hunks, h, c, header, cell);
    }

    /** How a pool stands after one extension, seen from the state before it. */
    ghost predicate Extended(live: Headers, c: Cells, hs: seq<Hunk>, w: map<int, int>, s: Span)
      reads this
    {
      && Valid()
      && |hunks| > 0 && hunks[1..] == hs && hunks[0].Extent() == s
      && cell.Keys == c.Keys + s.Units() && SameSpans(c, cell)
      && hunks[0].at in header && hunks[0].at !in live
      && LiveMap(header) == live[hunks[0].at := header[hunks[0].at]]
      && Kept(live, w, word)
    }

    /** extend_pool: `offer` is where the system puts the new hunk. */
    method ExtendPool(size: nat, offer: int)
      requires Legal(size) && Valid() && Clear(cell.Keys, Span(offer, offer + HunkUnits(size)))
      modifies this
      ensures Fit(Units(size))
      ensures Extended(old(LiveMap(header)), old(cell), old(hunks), old(word), Span(offer, offer + HunkUnits(size)))
      decreases 1, 1
    {
      HunkSize(size);
      var units := HunkUnits(size);
      // one hunk fits the header's length
      assert units <= MAX_USHORT;
      AddHunk(Span(offer, offer + units));
      Describe(offer, units, old(LiveMap(header)), old(cell), old(word));
      assert FitIn(header, free, units - Units(HNK_BYTES));
    }

    /** Allocates the new hunk's descriptor from the pool that now contains the hunk: it always fits. */
    method Describe(address: int, units: int, ghost live: Headers, ghost c: Cells, ghost w: map<int, int>)
      requires Heap() && Nested(hunks, header, cell) && spans == Extents(hunks) + {Span(address, address + units)}
      requires Span(address, address + units) !in Extents(hunks)
      requires units >= 256 && Fit(units) && LiveMap(header) == live && Kept(live, w, word)
      requires cell.Keys == c.Keys + Span(address, address + units).Units() && SameSpans(c, cell)
      modifies this
      ensures Fit(units - Units(HNK_BYTES))
      ensures Extended(live, c, old(hunks), w, Span(address, address + units))
      decreases 1, 0
    {
      var at := AllocDescriptor(units, live, c, w);
      Attach(Hunk(address, units, at), live, c, w);
    }

    /** The nested call of ALLD_alloc. */
    method AllocDescriptor(ghost units: int, ghost live: Headers, ghost c: Cells, ghost w: map<int, int>) returns (at: int)
      requires Heap() && Nested(hunks, header, cell) && units >= 256 && Fit(units) && LiveMap(header) == live && Kept(live, w, word)
      requires SameSpans(c, cell)
      modifies this
      ensures Heap() && Nested(hunks, header, cell) && hunks == old(hunks) && spans == old(spans) && SameSpans(c, cell)
      ensures at in header && header[at].kind == Hnk && at !in live
      ensures LiveMap(header) == live[at := header[at]] && Kept(live, w, word)
      ensures cell.Keys == old(cell.Keys) && Fit(units - Units(HNK_BYTES))
      decreases 0, 2
    {
      ghost var n := units - Units(HNK_BYTES);
      assert Legal(HNK_BYTES) && Fit(Units(HNK_BYTES)) && FitIn(header, free, n + Units(HNK_BYTES));
      at := Alloc(Hnk, HNK_BYTES, 0);
      assert FitIn(header, free, n);
      KeptTrans(live, w, live, old(word), word);
    }

    /** Puts the descriptor of the new hunk at the head of the chain. */
    method Attach(hk: Hunk, ghost live: Headers, ghost c: Cells, ghost w: map<int, int>)
      requires Heap() && Nested(hunks, header, cell) && spans == Extents(hunks) + {hk.Extent()}
      requires hk.at in header && header[hk.at].kind == Hnk && hk.at !in live && hk.Extent() !in Extents(hunks)
      requires LiveMap(header) == live[hk.at := header[hk.at]] && Kept(live, w, word)
      requires cell.Keys == c.Keys + hk.Extent().Units() && SameSpans(c, cell)
      modifies this`hunks
      ensures Extended(live, c, old(hunks), w, hk.Extent())
    {
      BlockAt(header, cell, hk.at);
      NestedCons(hk, hunks, header, cell, spans);
      hunks := [hk] + hunks;
      assert hunks[1..] == old(hunks);
    }

    /** The block at `r` as a caller gets it. */
    ghost predicate Handed(r: int, kind: Kind, size: nat)
      reads this`header, this`word
    {
      && r in header && header[r].kind == kind && 4 * header[r].size >= size
      && forall u :: r <= u < r + header[r].size ==> u in word && word[u] == 0
    }

    /** ALLD_alloc: 0 stands for the bugcheck on an illegal size. */
    method Alloc(kind: Kind, size: nat, offer: int) returns (r: int)
      requires kind != Free && Heap() && Nested(hunks, header, cell)
      requires Legal(size) && !Fit(Units(size)) ==> spans == Extents(hunks) && Clear(cell.Keys, Span(offer, offer + HunkUnits(size)))
      modifies this
      ensures !Legal(size) ==> r == 0 && unchanged(this)
      ensures Legal(size) ==> Heap() && Nested(hunks, header, cell) && Handed(r, kind, size) && r !in old(LiveMap(header))
      ensures Legal(size) ==> Kept(old(LiveMap(header)), old(word), word) && SameSpans(old(cell), cell)
      ensures Legal(size) ==> header[r].size <= Units(size) + FRB_UNITS
      ensures Legal(size) && old(Fit(Units(size))) ==> BestCut(old(header), r, header[r].size, Units(size))
      ensures Legal(size) && old(Fit(Units(size))) ==>
                && hunks == old(hunks) && spans == old(spans) && cell.Keys == old(cell.Keys)
                && LiveMap(header) == old(LiveMap(header))[r := header[r]]
                && forall n :: n > FRB_UNITS && FitIn(old(header), old(free), n + Units(size)) ==> FitIn(header, free, n)
      ensures Legal(size) && !old(Fit(Units(size))) ==>
                && Valid() && |hunks| > 0 && hunks[1..] == old(hunks) && hunks[0].Extent() == Span(offer, offer + HunkUnits(size))
                && cell.Keys == old(cell.Keys) + hunks[0].Extent().Units()
                && hunks[0].at in header && hunks[0].at !in old(LiveMap(header)) && hunks[0].at != r
                && LiveMap(header) == old(LiveMap(header))[hunks[0].at := header[hunks[0].at]][r := header[r]]
      decreases if Fit(Units(size)) then 0 else 2, 1
    {
      if !Legal(size) { return 0; }
      HunkSize(size);
      var needed := Units(size);
      var best := Fitting(size, offer);
      ghost var h, c, w := header, cell, word;
      r := Serve(best, needed, kind);
      if !old(Fit(Units(size))) {
        KeptTrans(old(LiveMap(header)), old(word), LiveMap(h), w, word);
        assert header[hunks[0].at] == LiveMap(header)[hunks[0].at];
      }
    }

    /** The search loop of ALLD_alloc: it extends the pool once if nothing fits, and never again. */
    method Fitting(size: nat, offer: int) returns (best: nat)
      requires Legal(size) && Heap() && Nested(hunks, header, cell)
      requires !Fit(Units(size)) ==> spans == Extents(hunks) && Clear(cell.Keys, Span(offer, offer + HunkUnits(size)))
      modifies this
      ensures best < |free| && free[best] in header && header[free[best]].size >= Units(size)
      ensures forall g :: IsFree(header, g) && header[g].size >= Units(size) ==> Sooner(header, free[best], g)
      ensures old(Fit(Units(size))) ==> unchanged(this)
      ensures !old(Fit(Units(size))) ==> Extended(old(LiveMap(header)), old(cell), old(hunks), old(word), Span(offer, offer + HunkUnits(size)))
      decreases if Fit(Units(size)) then 0 else 2, 0
    {
      HunkSize(size);
      var needed := Units(size);
      ghost var s := Span(offer, offer + HunkUnits(size));
      ghost var extended := false;
      var k := FindBest(needed);
      while k == -1
        invariant !extended ==> unchanged(this)
        invariant extended ==> !old(Fit(Units(size))) && Extended(old(LiveMap(header)), old(cell), old(hunks), old(word), s)
        invariant extended ==> Fit(needed)
        invariant k == -1 <==> !Fit(needed)
        invariant k == -1 || 0 <= k < |free|
        invariant k >= 0 ==> free[k] in header && header[free[k]].size >= needed
        invariant k >= 0 ==> forall g :: IsFree(header, g) && header[g].size >= needed ==> Sooner(header, free[k], g)
        decreases if Fit(needed) then 0 else 1
      {
        ExtendPool(size, offer);
        extended := true;
        k := FindBest(needed);
      }
      best := k;
    }

    /** What any allocation from a pool at rest promises, whether or not the pool was extended. */
    method Allocate(kind: Kind, size: nat, offer: int) returns (r: int)
      requires Valid() && kind != Free && Legal(size)
      requires !Fit(Units(size)) ==> Clear(cell.Keys, Span(offer, offer + HunkUnits(size)))
      modifies this
      ensures Valid() && Handed(r, kind, size) && r !in old(LiveMap(header))
      ensures Includes(LiveMap(header), old(LiveMap(header))) && Kept(old(LiveMap(header)), old(word), word)
      ensures SameSpans(old(cell), cell) && cell.Keys <= old(cell.Keys) + Span(offer, offer + HunkUnits(size)).Units()
      ensures Longer(old(hunks), hunks, Span(offer, offer + HunkUnits(size)))
    {
      r := Alloc(kind, size, offer);
    }

    /** Writes one longword. */
    method Poke(u: int, x: int)
      requires Valid() && u in word
      modifies this`word
      ensures Valid() && word == old(word)[u := x]
    {
      word := word[u := x];
    }

    /** Copies all but the header of one block into another, longword by longword. */
    method CopyWords(from: int, to: int, n: nat)
      requires from + n <= to || to + n <= from
      requires (forall u :: from <= u < from + n ==> u in word) && forall u :: to <= u < to + n ==> u in word
      modifies this`word
      ensures word == Copied(old(word), from, to, n)
    {
      ghost var w := word;
      var k := 1;
      while k < n
        invariant 1 <= k <= n || (n == 0 && k == 1)
        invariant word == Copied(w, from, to, k)
      {
        CopiedMore(w, from, to, k);
        word := word[to + k := word[from + k]];
        k := k + 1;
      }
    }

    /** ALLD_extend: a block of the same kind and the new size, with the old contents. */
    method Extend(b: int, size: nat, offer: int) returns (r: int)
      requires Valid() && b in LiveMap(header) && header[b].kind != Hnk && Legal(size)
      requires !Fit(Units(size)) ==> Clear(cell.Keys, Span(offer, offer + HunkUnits(size)))
      modifies this
      ensures Valid() && r in LiveMap(header) && r !in old(LiveMap(header)) && b !in LiveMap(header)
      ensures header[r].kind == old(header[b].kind) && 4 * header[r].size >= size
      ensures Carried(old(word), b, old(header[b].size), word, r, header[r].size)
      ensures Includes(LiveMap(header), Without(old(LiveMap(header)), b))
      ensures Kept(Without(old(LiveMap(header)), b), old(word), word)
      ensures SameSpans(old(cell), cell) && cell.Keys <= old(cell.Keys) + Span(offer, offer + HunkUnits(size)).Units()
      ensures Longer(old(hunks), hunks, Span(offer, offer + HunkUnits(size)))
    {
      BlockWords(header, cell, b);
      r := Allocate(header[b].kind, size, offer);
      CopyAndRelease(b, r, old(LiveMap(header)), old(word));
    }

    method CopyAndRelease(b: int, r: int, ghost live: Headers, ghost w: map<int, int>)
      requires Valid() && b in live && Includes(LiveMap(header), live) && r in LiveMap(header) && r !in live && live[b].kind != Hnk
      requires Kept(live, w, word) && Handed(r, live[b].kind, 0) && forall u :: b <= u < b + live[b].size ==> u in w
      modifies this`header, this`free, this`cell, this`word
      ensures Valid() && r in LiveMap(header) && header[r] == old(header[r]) && b !in LiveMap(header)
      ensures Carried(w, b, live[b].size, word, r, header[r].size)
      ensures Includes(LiveMap(header), Without(live, b)) && Kept(Without(live, b), w, word)
      ensures SameSpans(old(cell), cell) && cell.Keys == old(cell.Keys)
    {
      assert b in LiveMap(header) && LiveMap(header)[b] == live[b];
      BlockWords(header, cell, b);
      BlockWords(header, cell, r);
      if b < r { BlocksDisjoint(header, cell, b, r); } else { BlocksDisjoint(header, cell, r, b); }
      var n := if header[b].size < header[r].size then header[b].size else header[r].size;
      CopyCarries(live, w, word, header, cell, b, r, n);
      CopyWords(b, r, n);
      NotDescriptor(hunks, header, cell, b);
      ghost var c := cell;
      var o := Release(b, header[b].size);
      SpanningFrame(c, cell, spans);
      assert LiveMap(header)[r] == old(LiveMap(header))[r];
    }

    /** Hands out the chosen block without touching the hunks. */
    method Serve(best: nat, needed: int, kind: Kind) returns (r: int)
      requires Heap() && Nested(hunks, header, cell) && kind != Free
      requires best < |free| && free[best] in header && FRB_UNITS <= needed <= header[free[best]].size
      modifies this`header, this`free, this`cell, this`word
      ensures Heap() && Nested(hunks, header, cell) && Handed(r, kind, 4 * needed) && r !in old(LiveMap(header))
      ensures Kept(old(LiveMap(header)), old(word), word) && SameSpans(old(cell), cell) && cell.Keys == old(cell.Keys)
      ensures LiveMap(header) == old(LiveMap(header))[r := header[r]]
      ensures CutFrom(old(header), old(free[best]), r, header[r].size, needed)
      ensures forall n :: n > FRB_UNITS && FitIn(old(header), old(free), n + needed) ==> FitIn(header, free, n)
    {
      ghost var h, c, w := header, cell, word;
      r := Take(best, needed, kind);
      NestedFrame(hunks, h, c, header, cell);
      ZeroKeeps(LiveMap(h), w, header, cell, r);
      forall u | r <= u < r + header[r].size ensures u in word {
        assert Inside(cell, r, u);
      }
    }
  }

  lemma BlockWords(h: Headers, cell: Cells, b: int)
    requires Tiled(h, cell) && b in h
    ensures h[b].size >= FRB_UNITS && forall u :: b <= u < b + h[b].size ==> u in cell
  {
    BlockAt(h, cell, b);
    forall u | b <= u < b + h[b].size ensures u in cell {
      assert Inside(cell, b, u);
    }
  }

  lemma {:induction false} NotDescriptor(hs: seq<Hunk>, h: Headers, cell: Cells, b: int)
    requires Nested(hs, h, cell) && b in h && h[b].kind != Hnk
    ensures forall i :: 0 <= i < |hs| ==> hs[i].at != b
  {
    if hs != [] {
      NotDescriptor(hs[1..], h, cell, b);
      assert forall i :: 0 < i < |hs| ==> hs[i] == hs[1..][i - 1];
    }
  }

  lemma InList(h: Headers, free: seq<int>, i: nat, b: int)
    requires Listed(h, free) && i <= |free| && (forall j :: 0 <= j < i ==> free[j] < b) && (i < |free| ==> b <= free[i])
    ensures IsFree(h, b) <==> i < |free| && free[i] == b
  {
    assert b in free <==> IsFree(h, b);
    if b in free {
      var j :| 0 <= j < |free| && free[j] == b;
    }
  }

  ghost predicate Includes(live': Headers, live: Headers) { forall b :: b in live ==> b in live' && live'[b] == live[b] }

  function Without(live: Headers, b: int): Headers { map x | x in live && x != b :: live[x] }

  function At(word: map<int, int>, u: int): int { if u in word then word[u] else 0 }

  function Copied(word: map<int, int>, from: int, to: int, n: int): map<int, int>
  {
    map u | u in word :: if to < u < to + n then At(word, from + (u - to)) else word[u]
  }

  /** One more longword: the one read has not been written yet. */
  lemma CopiedMore(word: map<int, int>, from: int, to: int, k: nat)
    requires k >= 1 && from + k in word && to + k in word && !(to < from + k < to + k)
    ensures Copied(word, from, to, k + 1) == Copied(word, from, to, k)[to + k := Copied(word, from, to, k)[from + k]]
  {
    var next := Copied(word, from, to, k)[to + k := Copied(word, from, to, k)[from + k]];
    assert forall u :: u in word <==> u in next;
    assert forall u :: u in word ==> next[u] == Copied(word, from, to, k + 1)[u];
  }

  /** Behind its header the block at `r` holds what the block at `b` held, and zeros beyond. */
  ghost predicate Carried(word: map<int, int>, b: int, m: int, word': map<int, int>, r: int, n: int)
  {
    forall u :: r < u < r + n ==> At(word', u) == if u - r < m then At(word, b + (u - r)) else 0
  }

  lemma CopyCarries(live: Headers, w: map<int, int>, w1: map<int, int>, h: Headers, cell: Cells, b: int, r: int, n: int)
    requires Tiled(h, cell) && Includes(LiveMap(h), live) && b in live && r !in live && r in LiveMap(h)
    requires Kept(live, w, w1) && w1.Keys == cell.Keys && (forall u :: r <= u < r + h[r].size ==> u in w1 && w1[u] == 0)
    requires (forall u :: b <= u < b + h[b].size ==> u in w) && n == (if h[b].size < h[r].size then h[b].size else h[r].size)
    ensures b in h && h[b] == live[b] && Carried(w, b, h[b].size, Copied(w1, b, r, n), r, h[r].size)
    ensures Kept(Without(live, b), w, Copied(w1, b, r, n))
  {
    assert b in LiveMap(h) && LiveMap(h)[b] == live[b];
    forall u | r < u < r + h[r].size
      ensures At(Copied(w1, b, r, n), u) == if u - r < h[b].size then At(w, b + (u - r)) else 0
    {
      if u - r < h[b].size {
        assert InBlock(live, b, b + (u - r));
      }
    }
    forall x, u | InBlock(Without(live, b), x, u) && u in w
      ensures u in w1 && Copied(w1, b, r, n)[u] == w[u]
    {
      assert InBlock(live, x, u) && x in LiveMap(h);
      if x < r { BlocksDisjoint(h, cell, x, r); } else { BlocksDisjoint(h, cell, r, x); }
    }
  }

  function Zeroed(word: map<int, int>, r: int, size: int): map<int, int>
  {
    map u | u in word :: if r <= u < r + size then 0 else word[u]
  }

  /** A free block that does not end where the block begins leaves the heap coalesced. */
  lemma NotTouched(h: Headers, cell: Cells, free: seq<int>, i: nat)
    requires Tiled(h, cell) && Listed(h, free) && i < |free| && free[i] in h
    requires CoalescedBut(h, free[i]) && !IsFree(h, free[i] + h[free[i]].size)
    requires i > 0 ==> !(free[i - 1] in h && free[i - 1] + h[free[i - 1]].size == free[i])
    ensures Coalesced(h)
  {
    forall x | IsFree(h, x) ensures !IsFree(h, x + h[x].size) {
      if x + h[x].size == free[i] {
        PriorOnly(h, cell, free, i, x);
      }
    }
  }

  lemma HunkListed(h: Headers, cell: Cells, free: seq<int>, s: Span, b: Block, i: nat)
    requires PoolHeap(h, cell, free) && Clear(cell.Keys, s) && FRB_UNITS <= b.size == s.hi - s.lo <= MAX_USHORT && b.kind == Free
    requires i <= |free| && (forall j :: 0 <= j < i ==> free[j] < s.lo) && (i < |free| ==> s.lo <= free[i])
    ensures var h' := h[s.lo := b];
            && s.lo !in h && Tiled(h', Grown(cell, s)) && CoalescedBut(h', s.lo) && Listed(h', Insert(free, i, s.lo))
            && LiveMap(h') == LiveMap(h)
  {
    var h' := h[s.lo := b];
    GrowTiles(h, cell, s, b);
    InList(h, free, i, s.lo);
    InsertAscending(free, i, s.lo);
    forall x ensures x in Insert(free, i, s.lo) <==> IsFree(h', x) {
      assert x in free <==> IsFree(h, x);
    }
    forall x | IsFree(h', x) && x != s.lo && x + h'[x].size != s.lo ensures !IsFree(h', x + h'[x].size) {
      assert IsFree(h, x);
    }
  }
}

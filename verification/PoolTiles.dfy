/**
 The memory of one dsql pool (dsql/alld.c), counted in longwords: the headers of its blocks, and for
 every longword the block and the system hunk it belongs to.
 */
module PoolTiles {

  datatype Kind = Free | Hnk | Plb | Vec | Other(code: nat)

  /** blk_type, blk_pool_id_mod and blk_length, the length in longwords. */
  datatype Block = Block(kind: Kind, mod: int, size: int)

  /** A hunk as the system handed it out. */
  datatype Span = Span(lo: int, hi: int) {
    predicate Has(u: int) { lo <= u < hi }
    function Units(): set<int> { set u | lo <= u < hi && Has(u) }
  }

  datatype Cell = Cell(block: int, span: Span)

  type Headers = map<int, Block>
  type Cells = map<int, Cell>

  /** sizeof (struct frb): no block is too small to go on the free list. */
  const FRB_UNITS := 2
  const MAX_USHORT := 65535

  /** A longword lies in the block and the hunk it names. */
  ghost predicate CellOk(h: Headers, cell: Cells, u: int)
    requires u in cell
  {
    var c := cell[u];
    && c.block in h && c.block <= u < c.block + h[c.block].size
    && 0 < c.span.lo <= c.block && c.block + h[c.block].size <= c.span.hi <= c.span.lo + MAX_USHORT
  }

  /** A longword inside a block names that block, and the hunk the block starts in. */
  ghost predicate Inside(cell: Cells, b: int, u: int)
  {
    b in cell && u in cell && cell[u] == Cell(b, cell[b].span)
  }

  /** A longword inside a hunk names it, and the one after the hunk belongs to nobody. */
  ghost predicate InSpan(cell: Cells, u: int, x: int)
    requires u in cell
  {
    x in cell && cell[x].span == cell[u].span && cell[u].span.hi !in cell
  }

  /** Live and free blocks tile the hunks; hunks are whole and never touch. */
  ghost predicate Tiled(h: Headers, cell: Cells)
  {
    && (forall u {:trigger CellOk(h, cell, u)} :: u in cell ==> CellOk(h, cell, u))
    && (forall b :: b in h ==> h[b].size >= FRB_UNITS)
    && (forall b, u {:trigger Inside(cell, b, u)} :: b in h && b <= u < b + h[b].size ==> Inside(cell, b, u))
    && (forall u, x {:trigger InSpan(cell, u, x)} :: u in cell && cell[u].span.lo <= x < cell[u].span.hi ==> InSpan(cell, u, x))
  }

  ghost predicate IsFree(h: Headers, b: int) { b in h && h[b].kind == Free }

  ghost predicate Coalesced(h: Headers) { forall b :: IsFree(h, b) ==> !IsFree(h, b + h[b].size) }

  ghost predicate Ascending(free: seq<int>) { forall i, j :: 0 <= i < j < |free| ==> free[i] < free[j] }

  /** The free list is the free blocks in ascending order. */
  ghost predicate Listed(h: Headers, free: seq<int>)
  {
    Ascending(free) && forall b :: b in free <==> IsFree(h, b)
  }

  ghost predicate PoolHeap(h: Headers, cell: Cells, free: seq<int>)
  {
    Tiled(h, cell) && Coalesced(h) && Listed(h, free)
  }

  /** What the tiling says about a block. */
  lemma BlockAt(h: Headers, cell: Cells, b: int)
    requires Tiled(h, cell) && b in h
    ensures b in cell && cell[b].block == b && h[b].size >= FRB_UNITS
    ensures 0 < cell[b].span.lo <= b && b + h[b].size <= cell[b].span.hi <= cell[b].span.lo + MAX_USHORT
  {
    assert h[b].size >= FRB_UNITS;
    assert Inside(cell, b, b);
    assert CellOk(h, cell, b);
  }

  /** Two blocks share no longword. */
  lemma BlocksDisjoint(h: Headers, cell: Cells, a: int, b: int)
    requires Tiled(h, cell) && a in h && b in h && a < b
    ensures a + h[a].size <= b
  {
    BlockAt(h, cell, b);
    assert b < a + h[a].size ==> Inside(cell, a, b);
  }

  /** An address in the middle of a free block. */
  ghost predicate InFree(h: Headers, f: int, b: int) { IsFree(h, f) && f < b < f + h[f].size }

  /** At its place in the list a block in use touches no free block but at its ends. */
  lemma NoOverlap(h: Headers, cell: Cells, free: seq<int>, i: nat, b: int)
    requires Tiled(h, cell) && Listed(h, free) && b in h && !IsFree(h, b) && i <= |free|
    requires (forall j :: 0 <= j < i ==> free[j] < b) && (i < |free| ==> b <= free[i])
    ensures i < |free| ==> free[i] in h && b + h[b].size <= free[i]
    ensures i > 0 ==> free[i - 1] in h && free[i - 1] + h[free[i - 1]].size <= b
  {
    if i < |free| {
      assert free[i] in free && IsFree(h, free[i]);
      BlocksDisjoint(h, cell, b, free[i]);
    }
    if i > 0 {
      assert free[i - 1] in free && IsFree(h, free[i - 1]);
      BlocksDisjoint(h, cell, free[i - 1], b);
    }
  }

  /** The block before the place of such an address is the free block it lies in. */
  lemma OverlapsPriorBlock(h: Headers, cell: Cells, free: seq<int>, i: nat, b: int, f: int)
    requires Tiled(h, cell) && Listed(h, free) && InFree(h, f, b) && i <= |free|
    requires (forall j :: 0 <= j < i ==> free[j] < b) && (i < |free| ==> b <= free[i])
    ensures b !in h && i > 0 && free[i - 1] == f
  {
    if b in h {
      BlocksDisjoint(h, cell, f, b);
    }
    var k :| 0 <= k < |free| && free[k] == f;
    if k < i - 1 {
      assert free[k] < free[i - 1] && free[i - 1] in free && IsFree(h, free[i - 1]);
      BlocksDisjoint(h, cell, f, free[i - 1]);
    }
  }

  function Repaint(cell: Cells, lo: int, hi: int, b: int): Cells
  {
    map u | u in cell :: if lo <= u < hi then Cell(b, cell[u].span) else cell[u]
  }

  // ---- cutting a block in two ----

  function Cut(h: Headers, f: int, front: int, back: Block): Headers
    requires f in h
  {
    h[f := h[f].(size := front)][f + front := back]
  }

  lemma CutTiles(h: Headers, cell: Cells, f: int, front: int, back: Block)
    requires Tiled(h, cell) && f in h && front >= FRB_UNITS && back.size >= FRB_UNITS && h[f].size == front + back.size
    ensures f + front !in h
    ensures Tiled(Cut(h, f, front, back), Repaint(cell, f + front, f + front + back.size, f + front))
  {
    var b := f + front;
    BlockAt(h, cell, f);
    assert Inside(cell, f, b);
    assert b !in h by { if b in h { BlockAt(h, cell, b); } }
    var h', cell' := Cut(h, f, front, back), Repaint(cell, b, b + back.size, b);
    forall u | u in cell'
      ensures CellOk(h', cell', u)
    {
      assert CellOk(h, cell, u);
      if f <= u < f + h[f].size { assert Inside(cell, f, u); }
    }
    forall x, u | x in h' && x <= u < x + h'[x].size
      ensures Inside(cell', x, u)
    {
      if f <= u < f + h[f].size { assert Inside(cell, f, u); }
      if x != b {
        assert Inside(cell, x, u);
        BlockAt(h, cell, x);
        if f <= x < f + h[f].size { assert Inside(cell, f, x); }
      }
    }
    SpansKept(h, cell, cell');
  }

  /** Repainting moves longwords between blocks, never between hunks. */
  lemma SpansKept(h: Headers, cell: Cells, cell': Cells)
    requires Tiled(h, cell) && cell'.Keys == cell.Keys && forall u :: u in cell ==> cell'[u].span == cell[u].span
    ensures forall u, x {:trigger InSpan(cell', u, x)} ::
              u in cell' && cell'[u].span.lo <= x < cell'[u].span.hi ==> InSpan(cell', u, x)
  {
    forall u, x | u in cell' && cell'[u].span.lo <= x < cell'[u].span.hi
      ensures InSpan(cell', u, x)
    {
      assert u in cell && InSpan(cell, u, x);
    }
  }

  // ---- joining two neighbours ----

  function Join(h: Headers, x: int, y: int): Headers
    requires x in h && y in h
  {
    map b | b in h && b != y :: if b == x then h[x].(size := h[x].size + h[y].size) else h[b]
  }

  lemma JoinTiles(h: Headers, cell: Cells, x: int, y: int)
    requires Tiled(h, cell) && x in h && y in h && x + h[x].size == y
    ensures Tiled(Join(h, x, y), Repaint(cell, y, y + h[y].size, x))
    ensures x in cell && y in cell && cell[x].span == cell[y].span && h[x].size + h[y].size <= MAX_USHORT
  {
    var h', cell' := Join(h, x, y), Repaint(cell, y, y + h[y].size, x);
    OneSpan(h, cell, x, y);
    BlockAt(h, cell, x);
    BlockAt(h, cell, y);
    forall u | u in cell'
      ensures CellOk(h', cell', u)
    {
      assert CellOk(h, cell, u);
      if y <= u < y + h[y].size { assert Inside(cell, y, u); }
      if x <= u < y { assert Inside(cell, x, u); }
    }
    forall b, u | b in h' && b <= u < b + h'[b].size
      ensures Inside(cell', b, u)
    {
      BlockAt(h, cell, b);
      if y <= u < y + h[y].size { assert Inside(cell, y, u); }
      assert y <= b < y + h[y].size ==> Inside(cell, y, b);
      if u < b + h[b].size { assert Inside(cell, b, u); }
    }
    SpansKept(h, cell, cell');
  }

  /** Neighbours lie in one hunk, because hunks do not touch. */
  lemma OneSpan(h: Headers, cell: Cells, x: int, y: int)
    requires Tiled(h, cell) && x in h && y in h && x + h[x].size == y
    ensures x in cell && y in cell && cell[x].span == cell[y].span && h[x].size + h[y].size <= MAX_USHORT
  {
    BlockAt(h, cell, x);
    BlockAt(h, cell, y);
    assert InSpan(cell, x, x);
    assert InSpan(cell, x, y);
  }

  // ---- a new hunk ----

  function Grown(cell: Cells, s: Span): Cells
  {
    map u | u in cell.Keys + s.Units() :: if s.Has(u) then Cell(s.lo, s) else cell[u]
  }

  /** What the system promises of a hunk: nothing in it, or right beside it, belongs to anyone. */
  ghost predicate Clear(taken: set<int>, s: Span)
  {
    0 < s.lo && forall u :: u in taken ==> u < s.lo - 1 || s.hi < u
  }

  lemma GrowTiles(h: Headers, cell: Cells, s: Span, b: Block)
    requires Tiled(h, cell) && Clear(cell.Keys, s) && FRB_UNITS <= b.size == s.hi - s.lo <= MAX_USHORT
    ensures s.lo !in h
    ensures Tiled(h[s.lo := b], Grown(cell, s))
  {
    var h', cell' := h[s.lo := b], Grown(cell, s);
    if s.lo in h { BlockAt(h, cell, s.lo); }
    forall u | u in cell'
      ensures CellOk(h', cell', u)
    {
      if u in cell { assert CellOk(h, cell, u); }
    }
    forall x, u | x in h' && x <= u < x + h'[x].size
      ensures Inside(cell', x, u)
    {
      if x != s.lo {
        BlockAt(h, cell, x);
        assert Inside(cell, x, u);
      }
    }
    forall u, x | u in cell' && cell'[u].span.lo <= x < cell'[u].span.hi
      ensures InSpan(cell', u, x)
    {
      if u in cell {
        assert InSpan(cell, u, x);
        assert CellOk(h, cell, u);
        assert InSpan(cell, u, cell[u].span.hi - 1);
      }
    }
  }

  // ---- the free list ----

  /** The blocks in use. */
  function LiveMap(h: Headers): Headers { map b | b in h && h[b].kind != Free :: h[b] }

  function Drop(free: seq<int>, i: nat): seq<int>
    requires i < |free|
  {
    free[..i] + free[i + 1..]
  }

  function Insert(free: seq<int>, i: nat, b: int): seq<int>
    requires i <= |free|
  {
    free[..i] + [b] + free[i..]
  }

  lemma DropOrder(free: seq<int>, i: nat)
    requires Ascending(free) && i < |free|
    ensures Ascending(Drop(free, i))
  {
    var d := Drop(free, i);
    forall j, k | 0 <= j < k < |d| ensures d[j] < d[k] {
      assert d[j] == free[if j < i then j else j + 1] && d[k] == free[if k < i then k else k + 1];
    }
  }

  lemma DropAscending(free: seq<int>, i: nat)
    requires Ascending(free) && i < |free|
    ensures Ascending(Drop(free, i))
    ensures forall b :: b in Drop(free, i) <==> b in free && b != free[i]
  {
    DropOrder(free, i);
    assert free == free[..i] + ([free[i]] + free[i + 1..]);
    assert free[i] !in free[..i] && free[i] !in free[i + 1..];
  }

  lemma InsertAscending(free: seq<int>, i: nat, b: int)
    requires Ascending(free) && i <= |free|
    requires forall j :: 0 <= j < i ==> free[j] < b
    requires i < |free| ==> b < free[i]
    ensures Ascending(Insert(free, i, b))
    ensures forall x :: x in Insert(free, i, b) <==> x == b || x in free
  {
    var d := Insert(free, i, b);
    forall j, k | 0 <= j < k < |d| ensures d[j] < d[k] {
      assert j != i ==> d[j] == free[if j < i then j else j - 1];
      assert k != i ==> d[k] == free[if k < i then k else k - 1];
    }
    forall x ensures x in d <==> x == b || x in free {
      assert free == free[..i] + free[i..];
    }
  }

  // ---- handing out a block ----

  /** Whether the part in front of the block handed out stays free. */
  predicate Splits(h: Headers, f: int, needed: int) requires f in h { h[f].size - needed > FRB_UNITS }

  function TakenAt(h: Headers, f: int, needed: int): int
    requires f in h
  {
    if Splits(h, f, needed) then f + h[f].size - needed else f
  }

  function TakenHeaders(h: Headers, f: int, needed: int, kind: Kind): Headers
    requires f in h
  {
    if Splits(h, f, needed) then Cut(h, f, h[f].size - needed, Block(kind, h[f].mod, needed))
    else h[f := h[f].(kind := kind)]
  }

  ghost function TakenCells(h: Headers, cell: Cells, f: int, needed: int): Cells
    requires f in h
  {
    if Splits(h, f, needed) then Repaint(cell, TakenAt(h, f, needed), f + h[f].size, TakenAt(h, f, needed)) else cell
  }

  function TakenList(h: Headers, free: seq<int>, i: nat, needed: int): seq<int>
    requires i < |free| && free[i] in h
  {
    if Splits(h, free[i], needed) then free else Drop(free, i)
  }

  lemma TakeTail(h: Headers, cell: Cells, free: seq<int>, f: int, needed: int, kind: Kind)
    requires PoolHeap(h, cell, free) && IsFree(h, f) && kind != Free
    requires FRB_UNITS <= needed && Splits(h, f, needed)
    ensures var r, h' := TakenAt(h, f, needed), TakenHeaders(h, f, needed, kind);
            && PoolHeap(h', TakenCells(h, cell, f, needed), free)
            && r !in h && LiveMap(h') == LiveMap(h)[r := h'[r]]
  {
    var r, h' := TakenAt(h, f, needed), TakenHeaders(h, f, needed, kind);
    var back := Block(kind, h[f].mod, needed);
    CutTiles(h, cell, f, h[f].size - needed, back);
    CutCoalesced(h, f, h[f].size - needed, back);
    forall b ensures b in free <==> IsFree(h', b) {
      assert b in free <==> IsFree(h, b);
    }
  }

  lemma TakeWhole(h: Headers, cell: Cells, free: seq<int>, i: nat, needed: int, kind: Kind)
    requires PoolHeap(h, cell, free) && i < |free| && IsFree(h, free[i]) && kind != Free
    requires !Splits(h, free[i], needed)
    ensures var h' := TakenHeaders(h, free[i], needed, kind);
            && PoolHeap(h', cell, Drop(free, i))
            && LiveMap(h') == LiveMap(h)[free[i] := h'[free[i]]]
  {
    var f := free[i];
    var h' := TakenHeaders(h, f, needed, kind);
    DropAscending(free, i);
    KindTiles(h, cell, f, kind);
    forall b ensures b in Drop(free, i) <==> IsFree(h', b) {
      assert b in free <==> IsFree(h, b);
    }
    forall b | IsFree(h', b) ensures !IsFree(h', b + h'[b].size) {
      assert IsFree(h, b);
    }
  }

  /** The block handed out is as long as asked, was in nobody's use, and nothing else changes hands. */
  lemma TakeKeeps(h: Headers, cell: Cells, free: seq<int>, i: nat, needed: int, kind: Kind)
    requires PoolHeap(h, cell, free) && i < |free| && free[i] in h && kind != Free
    requires FRB_UNITS <= needed <= h[free[i]].size
    ensures var f := free[i];
            var r, h' := TakenAt(h, f, needed), TakenHeaders(h, f, needed, kind);
            && PoolHeap(h', TakenCells(h, cell, f, needed), TakenList(h, free, i, needed))
            && r in h' && h'[r].kind == kind && h'[r].mod == h[f].mod && h'[r].size >= needed
            && r !in LiveMap(h) && LiveMap(h') == LiveMap(h)[r := h'[r]]
  {
    assert free[i] in free && IsFree(h, free[i]);
    if Splits(h, free[i], needed) {
      TakeTail(h, cell, free, free[i], needed, kind);
    } else {
      TakeWhole(h, cell, free, i, needed, kind);
    }
  }

  lemma CutCoalesced(h: Headers, f: int, front: int, back: Block)
    requires Coalesced(h) && IsFree(h, f) && back.kind != Free && f + front !in h && front > 0
    ensures Coalesced(Cut(h, f, front, back))
  {
    var h' := Cut(h, f, front, back);
    forall b | IsFree(h', b) ensures !IsFree(h', b + h'[b].size) {
      assert IsFree(h, b);
      assert !IsFree(h, b + h[b].size);
    }
  }

  /** Changing what a block is for moves nothing. */
  lemma KindTiles(h: Headers, cell: Cells, b: int, kind: Kind)
    requires Tiled(h, cell) && b in h
    ensures Tiled(h[b := h[b].(kind := kind)], cell)
  {
    var h' := h[b := h[b].(kind := kind)];
    forall u | u in cell ensures CellOk(h', cell, u) {
      assert CellOk(h, cell, u);
    }
  }

  // ---- giving a block back ----

  /** Nothing but `b` may touch another free block. */
  ghost predicate CoalescedBut(h: Headers, b: int)
  {
    forall x :: IsFree(h, x) && x != b && x + h[x].size != b ==> !IsFree(h, x + h[x].size)
  }

  lemma MarkFree(h: Headers, cell: Cells, free: seq<int>, i: nat, b: int)
    requires PoolHeap(h, cell, free) && b in LiveMap(h) && i <= |free|
    requires forall j :: 0 <= j < i ==> free[j] < b
    requires i < |free| ==> b < free[i]
    ensures var h' := h[b := h[b].(kind := Free)];
            && Tiled(h', cell) && CoalescedBut(h', b) && Listed(h', Insert(free, i, b))
            && LiveMap(h') == map x | x in LiveMap(h) && x != b :: LiveMap(h)[x]
  {
    var h' := h[b := h[b].(kind := Free)];
    KindTiles(h, cell, b, Free);
    InsertAscending(free, i, b);
    forall x ensures x in Insert(free, i, b) <==> IsFree(h', x) {
      assert x in free <==> IsFree(h, x);
    }
    forall x | IsFree(h', x) && x != b && x + h'[x].size != b ensures !IsFree(h', x + h'[x].size) {
      assert IsFree(h, x);
    }
  }

  /** In the list, only the next free block can begin where this one ends. */
  lemma NextOnly(h: Headers, cell: Cells, free: seq<int>, i: nat)
    requires Tiled(h, cell) && Listed(h, free) && i < |free| && free[i] in h
    ensures IsFree(h, free[i] + h[free[i]].size) <==> i + 1 < |free| && free[i + 1] == free[i] + h[free[i]].size
    ensures i + 1 < |free| ==> free[i] + h[free[i]].size <= free[i + 1]
  {
    var b := free[i];
    BlockAt(h, cell, b);
    if i + 1 < |free| {
      assert free[i + 1] in free && IsFree(h, free[i + 1]);
      BlocksDisjoint(h, cell, b, free[i + 1]);
    }
    var y := b + h[b].size;
    if IsFree(h, y) {
      assert y in free;
      var j :| 0 <= j < |free| && free[j] == y;
      assert j > i;
    }
  }

  lemma PriorOnly(h: Headers, cell: Cells, free: seq<int>, i: nat, x: int)
    requires Tiled(h, cell) && Listed(h, free) && i < |free| && IsFree(h, x) && x + h[x].size == free[i]
    ensures i > 0 && free[i - 1] == x
  {
    assert x in free;
    var j :| 0 <= j < |free| && free[j] == x;
    BlockAt(h, cell, x);
    assert j < i;
    NextOnly(h, cell, free, j);
    assert free[i] in free && IsFree(h, free[i]);
  }

  /** Two neighbouring free blocks become one. */
  lemma JoinFree(h: Headers, cell: Cells, free: seq<int>, i: nat)
    requires Tiled(h, cell) && Listed(h, free) && i + 1 < |free|
    requires free[i] in h && free[i + 1] == free[i] + h[free[i]].size && free[i + 1] in h
    ensures var x, y := free[i], free[i + 1];
            && Tiled(Join(h, x, y), Repaint(cell, y, y + h[y].size, x))
            && Listed(Join(h, x, y), Drop(free, i + 1))
            && LiveMap(Join(h, x, y)) == LiveMap(h)
            && h[x].size + h[y].size <= MAX_USHORT
  {
    var x, y := free[i], free[i + 1];
    assert x in free && y in free && IsFree(h, x) && IsFree(h, y);
    JoinTiles(h, cell, x, y);
    DropAscending(free, i + 1);
    forall b ensures b in Drop(free, i + 1) <==> IsFree(Join(h, x, y), b) {
      assert b in free <==> IsFree(h, b);
    }
  }

  lemma JoinedNext(h: Headers, cell: Cells, b: int, y: int)
    requires Tiled(h, cell) && CoalescedBut(h, b) && IsFree(h, b) && IsFree(h, y) && y == b + h[b].size
    ensures CoalescedBut(Join(h, b, y), b) && !IsFree(Join(h, b, y), b + h[b].size + h[y].size)
  {
    var h' := Join(h, b, y);
    BlockAt(h, cell, b);
    BlockAt(h, cell, y);
    assert !IsFree(h, y + h[y].size);
    forall x | IsFree(h', x) && x != b && x + h'[x].size != b ensures !IsFree(h', x + h'[x].size) {
      assert IsFree(h, x) && !IsFree(h, x + h[x].size);
    }
  }

  lemma JoinedPrior(h: Headers, cell: Cells, x: int, b: int)
    requires Tiled(h, cell) && CoalescedBut(h, b) && IsFree(h, x) && IsFree(h, b) && x + h[x].size == b
    requires !IsFree(h, b + h[b].size)
    ensures Coalesced(Join(h, x, b))
  {
    var h' := Join(h, x, b);
    BlockAt(h, cell, x);
    forall z | IsFree(h', z) ensures !IsFree(h', z + h'[z].size) {
      if z != x {
        assert IsFree(h, z);
        BlockAt(h, cell, z);
        if z < x { BlocksDisjoint(h, cell, z, x); }
      }
    }
  }
}

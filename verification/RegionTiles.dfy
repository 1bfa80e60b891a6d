/**
 The heap inside the shared global region (csv/css.c): a best-fit allocator over
 blocks that are laid end to end from the region header to the end of the region,
 with an address-ordered, coalescing chain of free blocks threaded through them.

 `Tile` and the functions on `seq<Tile>` say what the layout means; the class
 `GlobalRegion` of module `RegionHeap` holds the words the C code keeps in the region and walks them.
 */
module RegionTiles {

  const FRB_SIZE := 12
  const CSH_SIZE := 120

  const TYPE_FRB := 2
  const TYPE_PRB := 3
  const TYPE_CNCT := 4
  const TYPE_MSG := 5

  datatype Tile = Tile(offset: int, length: int, kind: int) {
    predicate IsFree() { kind == TYPE_FRB }
    function End(): int { offset + length }
  }

  /** Blocks lie end to end from `lo` to `hi`, each big enough to be put on the free chain. */
  ghost predicate Tiled(ts: seq<Tile>, lo: int, hi: int)
  {
    if ts == [] then lo == hi
    else
      && ts[0].offset == lo && ts[0].length >= FRB_SIZE && TYPE_FRB <= ts[0].kind <= TYPE_MSG
      && Tiled(ts[1..], ts[0].End(), hi)
  }

  /** No free block is followed directly by another one. */
  ghost predicate Coalesced(ts: seq<Tile>)
  {
    |ts| >= 2 ==> !(ts[0].IsFree() && ts[1].IsFree()) && Coalesced(ts[1..])
  }

  ghost predicate Layout(ts: seq<Tile>, lo: int, hi: int)
  {
    Tiled(ts, lo, hi) && Coalesced(ts)
  }

  /** The first free block of `ts`, or `end` when there is none. */
  ghost function FirstFree(ts: seq<Tile>, end: int): int
  {
    if ts == [] then end else if ts[0].IsFree() then ts[0].offset else FirstFree(ts[1..], end)
  }

  /** The last free block of `ts`, or 0 when there is none. */
  ghost function LastFree(ts: seq<Tile>): int
  {
    if ts == [] then 0
    else if ts[|ts| - 1].IsFree() then ts[|ts| - 1].offset
    else LastFree(ts[..|ts| - 1])
  }

  /** Each free block of `ts` is linked to the next free one, and the last to `end`. */
  ghost predicate Threaded(next: map<int, int>, ts: seq<Tile>, end: int)
  {
    ts != [] ==>
      && (ts[0].IsFree() ==> ts[0].offset in next && next[ts[0].offset] == FirstFree(ts[1..], end))
      && Threaded(next, ts[1..], end)
  }

  /** Offsets of the blocks that are in use. */
  ghost function Live(ts: seq<Tile>): set<int>
  {
    if ts == [] then {} else (if ts[0].IsFree() then {} else {ts[0].offset}) + Live(ts[1..])
  }

  ghost predicate FreeByte(ts: seq<Tile>, x: int)
  {
    exists i :: 0 <= i < |ts| && ts[i].IsFree() && ts[i].offset <= x < ts[i].End()
  }

  /** `n` consecutive free bytes starting at `a`, however the free blocks are cut. */
  ghost predicate FreeRun(ts: seq<Tile>, a: int, n: int)
  {
    forall x :: a <= x < a + n ==> FreeByte(ts, x)
  }

  /** The least multiple of a longword that holds `length` bytes. */
  function RoundUp(length: int): (n: int)
    ensures n % 4 == 0 && length <= n < length + 4
  {
    (length + 3) / 4 * 4
  }

  /** Consecutive free bytes enough for a request of `size`, which is served in whole longwords. */
  ghost predicate HasRoom(ts: seq<Tile>, size: int)
  {
    exists a, n :: n % 4 == 0 && size <= n < size + 4 && FreeRun(ts, a, n)
  }

  /** What alloc_global leaves when it serves `n` bytes from the free block at index `k`. */
  ghost function Carve(ts: seq<Tile>, k: nat, n: int, kind: int): seq<Tile>
    requires k < |ts|
  {
    var t := ts[k];
    if t.length - n < FRB_SIZE then ts[k := t.(kind := kind)]
    else ts[..k] + [t.(length := t.length - n), Tile(t.End() - n, n, kind)] + ts[k + 1..]
  }

  /** Index of the block handed out by `Carve`. */
  ghost function CarvedAt(ts: seq<Tile>, k: nat, n: int): nat
    requires k < |ts|
  {
    if ts[k].length - n < FRB_SIZE then k else k + 1
  }

  ghost predicate FreeAt(ts: seq<Tile>, i: int) { 0 <= i < |ts| && ts[i].IsFree() }

  /** The stretch of blocks that merges when the block at `k` is given back. */
  ghost function First(ts: seq<Tile>, k: nat): nat { if FreeAt(ts, k - 1) then k - 1 else k }
  ghost function Last(ts: seq<Tile>, k: nat): nat { if FreeAt(ts, k + 1) then k + 1 else k }

  ghost function Joined(ts: seq<Tile>, k: nat): Tile
    requires k < |ts|
  {
    Tile(ts[First(ts, k)].offset, ts[Last(ts, k)].End() - ts[First(ts, k)].offset, TYPE_FRB)
  }

  /** What free_global leaves when the block at index `k` is given back. */
  ghost function Released(ts: seq<Tile>, k: nat): seq<Tile>
    requires k < |ts|
  {
    ts[..First(ts, k)] + [Joined(ts, k)] + ts[Last(ts, k) + 1..]
  }

  // ---- positions and order ----

  lemma {:induction false} TiledConcat(a: seq<Tile>, b: seq<Tile>, lo: int, mid: int, hi: int)
    requires Tiled(a, lo, mid) && Tiled(b, mid, hi)
    ensures Tiled(a + b, lo, hi)
  {
    if a == [] {
      assert a + b == b;
    } else {
      TiledConcat(a[1..], b, a[0].End(), mid, hi);
      assert (a + b)[1..] == a[1..] + b;
    }
  }

  lemma {:induction false} TiledSplit(ts: seq<Tile>, lo: int, hi: int, k: nat)
    requires Tiled(ts, lo, hi) && k <= |ts|
    ensures var mid := if k < |ts| then ts[k].offset else hi;
            lo <= mid <= hi && Tiled(ts[..k], lo, mid) && Tiled(ts[k..], mid, hi)
  {
    if k == 0 {
      assert ts[0..] == ts;
      TiledSpan(ts, lo, hi);
    } else {
      TiledSplit(ts[1..], ts[0].End(), hi, k - 1);
      assert ts[..k][1..] == ts[1..][..k - 1] && ts[k..] == ts[1..][k - 1..];
    }
  }

  lemma {:induction false} TiledSpan(ts: seq<Tile>, lo: int, hi: int)
    requires Tiled(ts, lo, hi)
    ensures lo <= hi && (ts != [] ==> ts[0].offset == lo < hi)
  {
    if ts != [] {
      TiledSpan(ts[1..], ts[0].End(), hi);
    }
  }

  /** What the tiling says about block `k`. */
  lemma TiledAt(ts: seq<Tile>, lo: int, hi: int, k: nat)
    requires Tiled(ts, lo, hi) && k < |ts|
    ensures lo <= ts[k].offset && ts[k].length >= FRB_SIZE && TYPE_FRB <= ts[k].kind <= TYPE_MSG && ts[k].End() <= hi
    ensures Tiled(ts[..k], lo, ts[k].offset) && Tiled(ts[k + 1..], ts[k].End(), hi)
    ensures k + 1 < |ts| ==> ts[k + 1].offset == ts[k].End()
  {
    TiledSplit(ts, lo, hi, k);
    assert ts[k..][1..] == ts[k + 1..];
    TiledSpan(ts[k + 1..], ts[k].End(), hi);
  }

  lemma TiledEnd(ts: seq<Tile>, lo: int, hi: int, k: nat)
    requires Tiled(ts, lo, hi) && k < |ts|
    ensures ts[k].End() == if k + 1 < |ts| then ts[k + 1].offset else hi
  {
    TiledAt(ts, lo, hi, k);
    assert k + 1 == |ts| ==> ts[k + 1..] == [];
  }

  lemma Ascending(ts: seq<Tile>, lo: int, hi: int, i: nat, j: nat)
    requires Tiled(ts, lo, hi) && i < j < |ts|
    ensures ts[i].End() <= ts[j].offset
  {
    TiledAt(ts, lo, hi, i);
    TiledAt(ts[i + 1..], ts[i].End(), hi, j - i - 1);
  }

  lemma InBounds(ts: seq<Tile>, lo: int, hi: int)
    requires Tiled(ts, lo, hi)
    ensures forall i :: 0 <= i < |ts| ==>
              lo <= ts[i].offset && ts[i].End() <= hi && ts[i].length >= FRB_SIZE && TYPE_FRB <= ts[i].kind <= TYPE_MSG
  {
    forall i | 0 <= i < |ts|
      ensures lo <= ts[i].offset && ts[i].End() <= hi && ts[i].length >= FRB_SIZE && TYPE_FRB <= ts[i].kind <= TYPE_MSG
    {
      TiledAt(ts, lo, hi, i);
    }
  }

  lemma {:induction false} CoalescedAt(ts: seq<Tile>, k: nat)
    requires Coalesced(ts) && k < |ts|
    ensures k + 1 < |ts| ==> !(ts[k].IsFree() && ts[k + 1].IsFree())
    ensures k > 0 ==> !(ts[k - 1].IsFree() && ts[k].IsFree())
    ensures Coalesced(ts[..k]) && Coalesced(ts[k + 1..])
  {
    if k == 0 {
    } else {
      CoalescedAt(ts[1..], k - 1);
      assert ts[1..][k..] == ts[k + 1..];
      if k > 1 {
        assert ts[..k][1..] == ts[1..][..k - 1];
      }
    }
  }

  /** Block sequences that meet at a block in use stay coalesced when put together. */
  lemma {:induction false} CoalescedConcat(a: seq<Tile>, b: seq<Tile>)
    requires Coalesced(a) && Coalesced(b)
    requires a != [] && b != [] ==> !(a[|a| - 1].IsFree() && b[0].IsFree())
    ensures Coalesced(a + b)
  {
    if a == [] {
      assert a + b == b;
    } else {
      CoalescedConcat(a[1..], b);
      assert (a + b)[1..] == a[1..] + b;
    }
  }

  /** Replacing a stretch of blocks by others that cover the same bytes keeps the tiling. */
  lemma TiledSplice(ts: seq<Tile>, lo: int, hi: int, first: nat, last: nat, cut: seq<Tile>)
    requires Tiled(ts, lo, hi) && first <= last < |ts|
    requires Tiled(cut, ts[first].offset, ts[last].End())
    ensures Tiled(ts[..first] + cut + ts[last + 1..], lo, hi)
  {
    TiledAt(ts, lo, hi, first);
    TiledAt(ts, lo, hi, last);
    TiledConcat(ts[..first], cut, lo, ts[first].offset, ts[last].End());
    TiledConcat(ts[..first] + cut, ts[last + 1..], lo, ts[last].End(), hi);
  }

  // ---- the free chain ----

  lemma {:induction false} FirstFreeConcat(a: seq<Tile>, b: seq<Tile>, end: int)
    ensures FirstFree(a + b, end) == FirstFree(a, FirstFree(b, end))
  {
    if a == [] {
      assert a + b == b;
    } else {
      FirstFreeConcat(a[1..], b, end);
      assert (a + b)[1..] == a[1..] + b;
    }
  }

  lemma {:induction false} ThreadedConcat(next: map<int, int>, a: seq<Tile>, b: seq<Tile>, end: int)
    ensures Threaded(next, a + b, end) <==> Threaded(next, a, FirstFree(b, end)) && Threaded(next, b, end)
  {
    if a == [] {
      assert a + b == b;
    } else {
      ThreadedConcat(next, a[1..], b, end);
      FirstFreeConcat(a[1..], b, end);
      assert (a + b)[1..] == a[1..] + b;
    }
  }

  /** The links inside a stretch of the region depend only on words inside that stretch. */
  lemma {:induction false} ThreadedFrame(next: map<int, int>, next': map<int, int>, ts: seq<Tile>, lo: int, hi: int, end: int)
    requires Tiled(ts, lo, hi) && Threaded(next, ts, end)
    requires forall x :: lo <= x < hi && x in next ==> x in next' && next'[x] == next[x]
    ensures Threaded(next', ts, end)
  {
    if ts != [] {
      TiledSpan(ts[1..], ts[0].End(), hi);
      ThreadedFrame(next, next', ts[1..], ts[0].End(), hi, end);
    }
  }

  lemma {:induction false} LastFreeBounds(ts: seq<Tile>, lo: int, hi: int)
    requires Tiled(ts, lo, hi) && lo > 0
    ensures LastFree(ts) == 0 || lo <= LastFree(ts) < hi
    ensures LastFree(ts) == 0 ==> forall end :: FirstFree(ts, end) == end
    decreases |ts|
  {
    if ts != [] {
      var k := |ts| - 1;
      TiledAt(ts, lo, hi, k);
      if !ts[k].IsFree() {
        LastFreeBounds(ts[..k], lo, ts[k].offset);
        assert ts == ts[..k] + [ts[k]];
        forall end ensures FirstFree(ts, end) == FirstFree(ts[..k], end) {
          FirstFreeConcat(ts[..k], [ts[k]], end);
        }
      }
    }
  }

  /** Where the chain goes after the last free block of a stretch is one word: changing it changes only that. */
  lemma {:induction false} Relink(next: map<int, int>, ts: seq<Tile>, lo: int, hi: int, end: int, end': int)
    requires Tiled(ts, lo, hi) && lo > 0 && Threaded(next, ts, end)
    ensures LastFree(ts) == 0 ==> Threaded(next, ts, end')
    ensures LastFree(ts) != 0 ==>
              && LastFree(ts) in next && next[LastFree(ts)] == end
              && Threaded(next[LastFree(ts) := end'], ts, end')
              && FirstFree(ts, end') == FirstFree(ts, end)
    decreases |ts|
  {
    if ts != [] {
      var k := |ts| - 1;
      var a, t := ts[..k], ts[k];
      assert ts == a + [t] && [t][1..] == [];
      TiledAt(ts, lo, hi, k);
      ThreadedConcat(next, a, [t], end);
      FirstFreeConcat(a, [t], end);
      FirstFreeConcat(a, [t], end');
      if t.IsFree() {
        ThreadedFrame(next, next[t.offset := end'], a, lo, t.offset, t.offset);
        ThreadedConcat(next[t.offset := end'], a, [t], end');
      } else {
        Relink(next, a, lo, t.offset, end, end');
        LastFreeBounds(a, lo, t.offset);
        if LastFree(a) == 0 {
          ThreadedConcat(next, a, [t], end');
        } else {
          ThreadedConcat(next[LastFree(a) := end'], a, [t], end');
        }
      }
    }
  }

  /** Between any two neighbouring positions the chain has exactly one link: from the last free block
      before to the first free block after. */
  lemma LinkAt(head: int, next: map<int, int>, ts: seq<Tile>, lo: int, hi: int, i: nat)
    requires Tiled(ts, lo, hi) && lo > 0 && Threaded(next, ts, 0) && head == FirstFree(ts, 0) && i <= |ts|
    ensures var ptr, free := LastFree(ts[..i]), FirstFree(ts[i..], 0);
            && (ptr == 0 ==> head == free)
            && (ptr != 0 ==> ptr in next && next[ptr] == free)
  {
    var a, b := ts[..i], ts[i..];
    assert ts == a + b;
    TiledSplit(ts, lo, hi, i);
    ThreadedConcat(next, a, b, 0);
    FirstFreeConcat(a, b, 0);
    LastFreeBounds(a, lo, if i < |ts| then ts[i].offset else hi);
    Relink(next, a, lo, if i < |ts| then ts[i].offset else hi, FirstFree(b, 0), 0);
  }

  /** The next free block at or after position `i`, if the chain has not ended. */
  lemma {:induction false} NextFree(ts: seq<Tile>, lo: int, hi: int, i: nat) returns (j: nat)
    requires Tiled(ts, lo, hi) && lo > 0 && i <= |ts|
    ensures FirstFree(ts[i..], 0) == 0 ==> j == |ts|
    ensures FirstFree(ts[i..], 0) != 0 ==> j < |ts| && ts[j].IsFree() && ts[j].offset == FirstFree(ts[i..], 0) >= lo
    ensures i <= j <= |ts| && forall x :: i <= x < j ==> !ts[x].IsFree()
    decreases |ts| - i
  {
    if i == |ts| {
      j := i;
    } else {
      TiledAt(ts, lo, hi, i);
      if ts[i].IsFree() {
        j := i;
      } else {
        assert ts[i..][1..] == ts[i + 1..];
        j := NextFree(ts, lo, hi, i + 1);
      }
    }
  }

  /** Blocks in use do not move the last free block. */
  lemma {:induction false} LastFreeSkip(ts: seq<Tile>, i: nat, j: nat)
    requires i <= j <= |ts| && forall x :: i <= x < j ==> !ts[x].IsFree()
    ensures LastFree(ts[..j]) == LastFree(ts[..i])
    ensures j < |ts| && ts[j].IsFree() ==> LastFree(ts[..j + 1]) == ts[j].offset
    decreases j
  {
    if i < j {
      LastFreeSkip(ts, i, j - 1);
      assert ts[..j][..j - 1] == ts[..j - 1];
    }
    if j < |ts| {
      assert ts[..j + 1][j] == ts[j];
    }
  }

  // ---- allocation ----

  lemma CarveKeepsLayout(ts: seq<Tile>, lo: int, hi: int, k: nat, n: int, kind: int)
    requires Layout(ts, lo, hi) && FreeAt(ts, k) && FRB_SIZE <= n <= ts[k].length
    requires TYPE_FRB < kind <= TYPE_MSG
    ensures Layout(Carve(ts, k, n, kind), lo, hi)
  {
    var t, cs := ts[k], Carve(ts, k, n, kind);
    var cut := if t.length - n < FRB_SIZE then [t.(kind := kind)]
               else [t.(length := t.length - n), Tile(t.End() - n, n, kind)];
    assert cs == ts[..k] + cut + ts[k + 1..];
    TiledAt(ts, lo, hi, k);
    assert Tiled(cut, t.offset, t.End());
    TiledSplice(ts, lo, hi, k, k, cut);
    CoalescedAt(ts, k);
    CoalescedConcat(ts[..k], cut);
    CoalescedConcat(ts[..k] + cut, ts[k + 1..]);
  }

  /** Bytes of a free block are nobody's block start but its own. */
  lemma LiveElsewhere(ts: seq<Tile>, lo: int, hi: int, k: nat, x: int)
    requires Tiled(ts, lo, hi) && FreeAt(ts, k) && ts[k].offset <= x < ts[k].End()
    ensures x !in Live(ts)
  {
    if x in Live(ts) {
      var i := IndexOf(ts, x);
      if i < k {
        TiledAt(ts, lo, hi, i);
        Ascending(ts, lo, hi, i, k);
      } else {
        Ascending(ts, lo, hi, k, i);
      }
    }
  }

  /** In place of a free block, a block in use that may have a free one before it. */
  lemma CutLive(a: seq<Tile>, t: Tile, cut: seq<Tile>, out: Tile, b: seq<Tile>)
    requires t.IsFree() && !out.IsFree() && (cut == [out] || (|cut| == 2 && cut[0].IsFree() && cut[1] == out))
    ensures Live(a + cut + b) == Live(a + [t] + b) + {out.offset}
  {
    LiveSplice(a, [t], b);
    LiveSplice(a, cut, b);
    assert [t][1..] == [] && [out][1..] == [];
    assert |cut| == 2 ==> cut[1..] == [out];
    assert cut == [out] ==> Live(cut) == {out.offset};
  }

  /** Blocks in use stay as they are. */
  lemma CarveKeepsInUse(ts: seq<Tile>, k: nat, n: int, kind: int, t: Tile)
    requires FreeAt(ts, k) && t in ts && !t.IsFree()
    ensures t in Carve(ts, k, n, kind)
  {
    var i :| 0 <= i < |ts| && ts[i] == t;
    var cs := Carve(ts, k, n, kind);
    assert cs[if i < k || |cs| == |ts| then i else i + 1] == t;
  }

  /** The block handed out is new, big enough, and cut from free bytes; no other block changes hands. */
  lemma CarveHandsOut(ts: seq<Tile>, lo: int, hi: int, k: nat, n: int, kind: int)
    requires Layout(ts, lo, hi) && FreeAt(ts, k) && FRB_SIZE <= n <= ts[k].length
    requires TYPE_FRB < kind <= TYPE_MSG
    ensures var cs, c := Carve(ts, k, n, kind), CarvedAt(ts, k, n);
            && c < |cs| && cs[c].kind == kind && cs[c].length >= n
            && ts[k].offset <= cs[c].offset && cs[c].End() == ts[k].End()
            && cs[c].offset !in Live(ts)
            && Live(cs) == Live(ts) + {cs[c].offset}
  {
    var t := ts[k];
    var cs, c := Carve(ts, k, n, kind), CarvedAt(ts, k, n);
    var out := if c == k then t.(kind := kind) else Tile(t.End() - n, n, kind);
    var cut := if c == k then [out] else [t.(length := t.length - n), out];
    var a, b := ts[..k], ts[k + 1..];
    assert ts == a + [t] + b;
    assert cs == a + cut + b;
    assert cs[c] == out;
    CutLive(a, t, cut, out, b);
    LiveElsewhere(ts, lo, hi, k, out.offset);
  }

  // ---- release ----

  lemma ReleasedKeepsLayout(ts: seq<Tile>, lo: int, hi: int, k: nat)
    requires Layout(ts, lo, hi) && k < |ts| && !ts[k].IsFree()
    ensures Layout(Released(ts, k), lo, hi)
  {
    var first, last, joined := First(ts, k), Last(ts, k), Joined(ts, k);
    TiledAt(ts, lo, hi, k);
    TiledAt(ts, lo, hi, first);
    TiledAt(ts, lo, hi, last);
    assert Tiled([joined], ts[first].offset, ts[last].End());
    TiledSplice(ts, lo, hi, first, last, [joined]);
    CoalescedAt(ts, first);
    CoalescedAt(ts, last);
    CoalescedConcat(ts[..first], [joined]);
    CoalescedConcat(ts[..first] + [joined], ts[last + 1..]);
  }

  lemma {:induction false} LiveConcat(a: seq<Tile>, b: seq<Tile>)
    ensures Live(a + b) == Live(a) + Live(b)
  {
    if a == [] {
      assert a + b == b;
    } else {
      LiveConcat(a[1..], b);
      assert (a + b)[1..] == a[1..] + b;
    }
  }

  lemma LiveSplice(a: seq<Tile>, m: seq<Tile>, b: seq<Tile>)
    ensures Live(a + m + b) == Live(a) + Live(m) + Live(b)
  {
    LiveConcat(a, m);
    LiveConcat(a + m, b);
  }

  lemma {:induction false} LiveAt(ts: seq<Tile>, k: nat)
    requires k < |ts| && !ts[k].IsFree()
    ensures ts[k].offset in Live(ts)
  {
    if k > 0 {
      LiveAt(ts[1..], k - 1);
    }
  }

  lemma {:induction false} LiveBounds(ts: seq<Tile>, lo: int, hi: int)
    requires Tiled(ts, lo, hi)
    ensures forall x :: x in Live(ts) ==> lo <= x < hi
  {
    if ts != [] {
      TiledSpan(ts[1..], ts[0].End(), hi);
      LiveBounds(ts[1..], ts[0].End(), hi);
    }
  }

  lemma LiveAround(ts: seq<Tile>, lo: int, hi: int, k: nat)
    requires Tiled(ts, lo, hi) && k < |ts| && !ts[k].IsFree()
    ensures Live(ts) == Live(ts[..k]) + {ts[k].offset} + Live(ts[k + 1..])
    ensures ts[k].offset !in Live(ts[..k]) && ts[k].offset !in Live(ts[k + 1..])
  {
    assert ts == ts[..k] + [ts[k]] + ts[k + 1..];
    LiveConcat(ts[..k], [ts[k]]);
    LiveConcat(ts[..k] + [ts[k]], ts[k + 1..]);
    assert [ts[k]][1..] == [] && Live([ts[k]]) == {ts[k].offset};
    TiledAt(ts, lo, hi, k);
    LiveBounds(ts[..k], lo, ts[k].offset);
    LiveBounds(ts[k + 1..], ts[k].End(), hi);
  }

  lemma LiveDropsFree(ts: seq<Tile>, k: nat)
    requires k < |ts| && !ts[k].IsFree()
    ensures Live(ts[..k]) == Live(ts[..First(ts, k)]) && Live(ts[k + 1..]) == Live(ts[Last(ts, k) + 1..])
  {
    if FreeAt(ts, k - 1) {
      assert ts[..k] == ts[..k - 1] + [ts[k - 1]];
      LiveConcat(ts[..k - 1], [ts[k - 1]]);
      assert [ts[k - 1]][1..] == [];
    }
    if FreeAt(ts, k + 1) {
      assert ts[k + 1..] == [ts[k + 1]] + ts[k + 2..];
      LiveConcat([ts[k + 1]], ts[k + 2..]);
      assert [ts[k + 1]][1..] == [];
    }
  }

  lemma ReleasedLive(ts: seq<Tile>, lo: int, hi: int, k: nat)
    requires Layout(ts, lo, hi) && k < |ts| && !ts[k].IsFree()
    ensures Live(Released(ts, k)) == Live(ts) - {ts[k].offset}
  {
    LiveAround(ts, lo, hi, k);
    LiveDropsFree(ts, k);
    var a, b := ts[..First(ts, k)], ts[Last(ts, k) + 1..];
    LiveConcat(a, [Joined(ts, k)]);
    LiveConcat(a + [Joined(ts, k)], b);
    assert [Joined(ts, k)][1..] == [] && Live([Joined(ts, k)]) == {};
  }

  // ---- main results about the layout ----

  /** Giving back the block that was just allocated restores the layout exactly. */
  lemma ReleaseUndoesCarve(ts: seq<Tile>, lo: int, hi: int, k: nat, n: int, kind: int)
    requires Layout(ts, lo, hi) && FreeAt(ts, k) && FRB_SIZE <= n <= ts[k].length
    requires TYPE_FRB < kind <= TYPE_MSG
    ensures CarvedAt(ts, k, n) < |Carve(ts, k, n, kind)|
    ensures Released(Carve(ts, k, n, kind), CarvedAt(ts, k, n)) == ts
  {
    var cs, c := Carve(ts, k, n, kind), CarvedAt(ts, k, n);
    CoalescedAt(ts, k);
    assert cs[..k] == ts[..k];
    assert cs[c + 1..] == ts[k + 1..];
    assert FreeAt(cs, c + 1) == FreeAt(ts, k + 1);
    var before: int := k - 1;
    assert c == k ==> FreeAt(cs, before) == FreeAt(ts, before);
    assert First(cs, c) == k && Last(cs, c) == c && Joined(cs, c) == ts[k];
    assert ts == ts[..k] + [ts[k]] + ts[k + 1..];
  }

  lemma SomethingBetweenFree(ts: seq<Tile>)
    requires Coalesced(ts) && |ts| >= 2
    ensures Live(ts) != {}
  {
    LiveAt(ts, if ts[0].IsFree() then 1 else 0);
  }

  /** A layout with nothing in use is the single free block that init makes. */
  lemma NothingLiveIsInitial(ts: seq<Tile>, lo: int, hi: int)
    requires Layout(ts, lo, hi) && lo < hi && Live(ts) == {}
    ensures ts == [Tile(lo, hi - lo, TYPE_FRB)]
  {
    if |ts| >= 2 {
      SomethingBetweenFree(ts);
    } else {
      assert ts[1..] == [] && ts == [ts[0]] && Tiled(ts[1..], ts[0].End(), hi);
    }
  }

  /** Freeing every block, in whatever order, ends in the single free block that init makes. */
  lemma {:induction false} FreeAllRestoresInitial(ts: seq<Tile>, lo: int, hi: int, order: seq<int>)
    requires Layout(ts, lo, hi) && lo < hi
    requires Live(ts) == set x | x in order
    requires forall i, j :: 0 <= i < j < |order| ==> order[i] != order[j]
    ensures FreeAll(ts, order) == [Tile(lo, hi - lo, TYPE_FRB)]
    decreases |order|
  {
    if order == [] {
      NothingLiveIsInitial(ts, lo, hi);
    } else {
      assert order[0] in Live(ts);
      var k := IndexOf(ts, order[0]);
      ReleasedKeepsLayout(ts, lo, hi, k);
      ReleasedLive(ts, lo, hi, k);
      FreeAllRestoresInitial(Released(ts, k), lo, hi, order[1..]);
    }
  }

  ghost function IndexOf(ts: seq<Tile>, x: int): (k: nat)
    requires x in Live(ts)
    ensures k < |ts| && ts[k].offset == x && !ts[k].IsFree()
  {
    if ts[0].IsFree() || ts[0].offset != x then IndexOf(ts[1..], x) + 1 else 0
  }

  ghost function FreeAll(ts: seq<Tile>, order: seq<int>): seq<Tile>
    decreases |order|
  {
    if order == [] || order[0] !in Live(ts) then ts
    else FreeAll(Released(ts, IndexOf(ts, order[0])), order[1..])
  }

  /** In a coalesced layout a run of free bytes cannot straddle two free blocks. */
  lemma {:induction false} RunLiesInOneTile(ts: seq<Tile>, lo: int, hi: int, a: int, n: int)
    requires Layout(ts, lo, hi) && n > 0 && FreeRun(ts, a, n)
    ensures exists i :: FreeAt(ts, i) && ts[i].offset <= a && a + n <= ts[i].End()
    decreases n
  {
    InBounds(ts, lo, hi);
    if n == 1 {
      assert FreeByte(ts, a);
      var i :| 0 <= i < |ts| && ts[i].IsFree() && ts[i].offset <= a < ts[i].End();
      assert FreeAt(ts, i);
    } else {
      RunLiesInOneTile(ts, lo, hi, a, n - 1);
      var i :| FreeAt(ts, i) && ts[i].offset <= a && a + n - 1 <= ts[i].End();
      assert FreeByte(ts, a + n - 1);
      var j :| 0 <= j < |ts| && ts[j].IsFree() && ts[j].offset <= a + n - 1 < ts[j].End();
      if i < j {
        TiledAt(ts, lo, hi, i);
        TiledAt(ts, lo, hi, i + 1);
        CoalescedAt(ts, i);
        if i + 1 < j {
          Ascending(ts, lo, hi, i + 1, j);
        }
      } else if j < i {
        Ascending(ts, lo, hi, j, i);
      }
    }
  }

  /** A request fails exactly when no stretch of free bytes is long enough. */
  lemma ExhaustedIffNoRun(ts: seq<Tile>, lo: int, hi: int, n: int)
    requires Layout(ts, lo, hi) && n > 0
    ensures (forall i :: FreeAt(ts, i) ==> ts[i].length < n) <==> !exists a :: FreeRun(ts, a, n)
  {
    if a :| FreeRun(ts, a, n) {
      RunLiesInOneTile(ts, lo, hi, a, n);
    }
    if i :| FreeAt(ts, i) && ts[i].length >= n {
      assert FreeRun(ts, ts[i].offset, n);
    }
  }
}

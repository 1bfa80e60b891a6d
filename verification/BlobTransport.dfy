/**
 Reading and writing blobs through the central server (csv/csi.c, csv/csv.c): the server gathers a
 buffer's worth of segments, the client hands them out piece by piece; on the way back the client
 collects segments and the server takes the batch apart.
 */
module BlobTransport {
  import opened Bytes
  import opened Blobs

  /** The handle value that accompanies a batch: more to come, last piece incomplete, or end of blob. */
  datatype BatchState = More | Incomplete | Last

  /** The server's side: a cursor into the access method's blob. */
  class BlobServer {
    var segments: Segments          // what the access method has left to deliver

    constructor (blob: Segments)
      ensures segments == blob
    {
      segments := blob;
    }

    /** The access method's get_segment. */
    method GetSegment(n: nat) returns (r: Reply)
      modifies this
      ensures r == Read(old(segments), n) && segments == Rest(old(segments), n)
    {
      r := Read(segments, n);
      segments := Rest(segments, n);
    }

    /** What a batch of pieces, its state and the rest of the blob have to do with the blob before. */
    static ghost predicate Batch(blob: Segments, ps: Segments, state: BatchState, rest: Segments)
    {
      && (state == Incomplete ==> ps != [] && ps[|ps| - 1] != [] && rest != [] && rest[0] != [])
      && (state == Last ==> rest == [])
      && blob == Rejoin(ps, state == Incomplete, rest)
    }

    /** get_segment for MSG_get_segment_buf: gobble up a buffer's worth of segments. */
    method GetSegmentBuf(room: nat) returns (buffer: seq<byte>, state: BatchState, ghost ps: Segments)
      requires 2 < room < USHORT_LIMIT
      modifies this
      ensures |buffer| <= room && Short(ps) && buffer == Counted(ps)
      ensures Batch(old(segments), ps, state, segments)
      ensures state == Last || ps != []
    {
      buffer, state, ps := [], More, [];
      var left: nat := room;
      while left > 2 && state == More
        invariant |buffer| + left == room && Short(ps) && buffer == Counted(ps)
        invariant Batch(old(segments), ps, state, segments)
        invariant left == room || state == Last || ps != []
        decreases left, state == More
      {
        if segments != [] {
          BatchGrows(old(segments), ps, segments, left - 2);
        }
        var r := GetSegment(left - 2);
        if r.status == Eof {
          state := Last;
        } else {
          buffer := buffer + (Word(|r.data|) + r.data);
          ps := ps + [r.data];
          left := left - 2 - |r.data|;
          if r.status == Segment {
            state := Incomplete;
          }
        }
      }
    }

    static lemma {:induction false} PieceRejoins(blob: Segments, ps: Segments, rest: Segments, n: nat)
      requires rest != [] && 0 < n < |rest[0]| && Batch(blob, ps, More, rest)
      ensures Batch(blob, ps + [rest[0][..n]], Incomplete, Rest(rest, n))
    {
      RejoinWhole(ps, rest);
      RejoinPartial(ps, rest[0][..n], Rest(rest, n));
      assert rest[0][..n] + Rest(rest, n)[0] == rest[0];
      assert Rest(rest, n)[1..] == rest[1..];
      assert rest == [rest[0]] + rest[1..];
    }

    static lemma {:induction false} WholeRejoins(blob: Segments, ps: Segments, rest: Segments)
      requires rest != [] && Batch(blob, ps, More, rest)
      ensures Batch(blob, ps + [rest[0]], More, rest[1..])
    {
      RejoinWhole(ps, rest);
      RejoinWhole(ps + [rest[0]], rest[1..]);
      assert rest == [rest[0]] + rest[1..];
      assert ps + [rest[0]] + rest[1..] == ps + rest;
    }

    /** One more get_segment into the batch. */
    static lemma {:induction false} BatchGrows(blob: Segments, ps: Segments, rest: Segments, n: nat)
      requires 0 < n < USHORT_LIMIT && rest != [] && Short(ps) && Batch(blob, ps, More, rest)
      ensures var r := Read(rest, n);
              && Batch(blob, ps + [r.data], if r.status == Segment then Incomplete else More, Rest(rest, n))
              && Short(ps + [r.data]) && Counted(ps + [r.data]) == Counted(ps) + (Word(|r.data|) + r.data)
    {
      var r := Read(rest, n);
      CountedAppend(ps, r.data);
      if r.status == Segment {
        PieceRejoins(blob, ps, rest, n);
      } else {
        WholeRejoins(blob, ps, rest);
      }
    }
  }

  /** The client's side of a blob opened for reading. */
  class BlobReader {
    const server: BlobServer
    const room: nat                 // rbl_buffer_length
    var buffer: seq<byte>
    var ptr: nat
    var length: nat                 // bytes of the buffer not yet handed out
    var fragment: nat               // what is left of a piece handed out in part
    var incomplete: bool            // RBL_segment
    var eofPending: bool
    var eof: bool

    ghost var pieces: Segments      // the pieces those bytes spell out

    /** The bytes in hand are counted pieces, the first one without its count when it is a fragment. */
    static ghost predicate SpelledBy(hand: seq<byte>, ps: Segments, fragment: nat)
    {
      && Short(ps) && (fragment != 0 ==> ps != [] && fragment == |ps[0]|)
      && hand == if fragment != 0 then ps[0] + Counted(ps[1..]) else Counted(ps)
    }

    ghost predicate Spelled()
      reads this`buffer, this`ptr, this`length, this`fragment, this`pieces
    {
      ptr + length <= |buffer| && SpelledBy(buffer[ptr..ptr + length], pieces, fragment)
    }

    ghost predicate Valid()
      reads this, server
    {
      && 2 < room < USHORT_LIMIT
      && Spelled()
      && (incomplete ==> server.segments != [] && server.segments[0] != [])
      && (incomplete && pieces != [] ==> pieces[|pieces| - 1] != [])
      && (eofPending ==> server.segments == [])
      && (eof ==> eofPending && pieces == [])
    }

    /** The blob as the caller sees it: what is in hand and what is still at the server. */
    ghost function Blob(): Segments
      requires Valid()
      reads this, server
    {
      Rejoin(pieces, incomplete, server.segments)
    }

    constructor (server: BlobServer, room: nat)
      requires 2 < room < USHORT_LIMIT
      ensures Valid() && Blob() == server.segments && this.server == server
    {
      this.server, this.room := server, room;
      buffer, ptr, length, fragment := [], 0, 0, 0;
      incomplete, eofPending, eof := false, false, false;
      pieces := [];
    }

    /** Ask the server for more. */
    method Refill()
      requires Valid() && length == 0 && !eofPending
      modifies this, server
      ensures Valid() && Blob() == old(Blob())
      ensures length > 0 || eofPending
      ensures eof == old(eof) && fragment == 0
    {
      EmptyHand();
      var state;
      buffer, state, pieces := server.GetSegmentBuf(room);
      ptr, length := 0, |buffer|;
      incomplete := state == Incomplete;
      eofPending := state == Last;
      assert buffer[ptr..ptr + length] == buffer;
    }

    lemma EmptyHand()
      requires Valid() && length == 0
      ensures pieces == [] && fragment == 0
    {
    }

    /** What handing out up to `want` bytes of the first piece does to the pieces. */
    static ghost function Shrunk(ps: Segments, want: nat): Segments
      requires ps != []
    {
      if |ps[0]| > want then [ps[0][want..]] + ps[1..] else ps[1..]
    }

    static ghost function Take(d: seq<byte>, want: nat): seq<byte>
    {
      if |d| > want then d[..want] else d
    }

    /** Find the next piece: the rest of a fragment, or one that starts with its count word. */
    method PickUp() returns (p: nat, l: nat)
      requires Valid() && length > 0
      modifies `fragment, `length
      ensures pieces != [] && Short(pieces) && l == |pieces[0]| && fragment == 0
      ensures p + length <= |buffer| && buffer[p..p + length] == pieces[0] + Counted(pieces[1..])
    {
      FirstPiece();
      p, l := ptr, fragment;
      if l != 0 {
        fragment := 0;
      } else {
        l := Count(buffer[p], buffer[p + 1]);
        p, length := p + 2, length - 2;
      }
    }

    static lemma Slices(b: seq<byte>, p: nat, n: nat, k: nat)
      requires k <= n && p + n <= |b|
      ensures b[p..p + k] == b[p..p + n][..k] && b[p + k..p + n] == b[p..p + n][k..]
    {
    }

    /** Give away up to `want` bytes of the piece that starts at `p`. */
    method Give(p: nat, l: nat, want: nat) returns (data: seq<byte>, status: Status)
      requires pieces != [] && Short(pieces) && l == |pieces[0]| && fragment == 0
      requires p + length <= |buffer| && buffer[p..p + length] == pieces[0] + Counted(pieces[1..])
      modifies `ptr, `length, `fragment, `pieces
      ensures Spelled() && pieces == Shrunk(old(pieces), want) && data == Take(old(pieces)[0], want)
      ensures status == if l > want || (l == want && |old(pieces)| == 1 && incomplete) then Segment else Ok
      ensures length > 0 <==> pieces != []
    {
      GiveAt(buffer, p, length, pieces, want);
      var k := l;
      status := Ok;
      if k > want {
        fragment := k - want;
        k := want;
        status := Segment;
      }
      if k == want && k == length && incomplete {
        status := Segment;
      }
      data := buffer[p..p + k];
      length := length - k;
      ptr := p + k;
      pieces := Shrunk(pieces, want);
    }

    /** Give away some of the local data. */
    method HandOut(want: nat) returns (data: seq<byte>, status: Status)
      requires Valid() && length > 0
      modifies this
      ensures Valid() && old(pieces) != [] && pieces == Shrunk(old(pieces), want)
      ensures data == Take(old(pieces)[0], want)
      ensures status == if |old(pieces)[0]| > want || (|old(pieces)[0]| == want && |old(pieces)| == 1 && incomplete)
                        then Segment else Ok
      ensures length > 0 <==> pieces != []
      ensures incomplete == old(incomplete) && eofPending == old(eofPending) && eof == old(eof)
    {
      var p, l := PickUp();
      data, status := Give(p, l, want);
    }

    /** How the bytes in hand begin. */
    lemma FirstPiece()
      requires Valid() && length > 0
      ensures pieces != []
      ensures fragment != 0 ==> buffer[ptr..ptr + length] == pieces[0] + Counted(pieces[1..])
      ensures fragment == 0 ==>
                && length >= 2 && Count(buffer[ptr], buffer[ptr + 1]) == |pieces[0]|
                && buffer[ptr + 2..ptr + length] == pieces[0] + Counted(pieces[1..])
    {
      if fragment == 0 {
        var w := buffer[ptr..ptr + length];
        HandBegins(w, pieces);
        assert w[0] == buffer[ptr] && w[1] == buffer[ptr + 1] && w[2..] == buffer[ptr + 2..ptr + length];
      }
    }

    static lemma HandBegins(hand: seq<byte>, ps: Segments)
      requires Short(ps) && hand == Counted(ps) && hand != []
      ensures ps != [] && |hand| >= 2 && Count(hand[0], hand[1]) == |ps[0]| && hand[2..] == ps[0] + Counted(ps[1..])
    {
      CountRead(|ps[0]|);
      Regroup(Word(|ps[0]|), ps[0], Counted(ps[1..]));
    }

    /** Cutting `want` bytes off the bytes in hand. */
    static lemma GiveFrom(hand: seq<byte>, ps: Segments, want: nat)
      requires ps != [] && Short(ps) && hand == ps[0] + Counted(ps[1..])
      ensures var rest, k := Shrunk(ps, want), if |ps[0]| > want then want else |ps[0]|;
              && k <= |hand| && (k == |hand| <==> rest == []) && hand[..k] == Take(ps[0], want)
              && (k == |hand| <==> |ps[0]| <= want && |ps| == 1)
              && SpelledBy(hand[k..], rest, |ps[0]| - k)
    {
      assert ps == [ps[0]] + ps[1..];
      ShrunkSpelled(ps[0], ps[1..], want);
    }

    /** The same, where the bytes lie in the buffer. */
    static lemma GiveAt(b: seq<byte>, p: nat, n: nat, ps: Segments, want: nat)
      requires ps != [] && Short(ps) && p + n <= |b| && b[p..p + n] == ps[0] + Counted(ps[1..])
      ensures var rest, k := Shrunk(ps, want), if |ps[0]| > want then want else |ps[0]|;
              && k <= n && (k == n <==> rest == []) && b[p..p + k] == Take(ps[0], want)
              && (k == n <==> |ps[0]| <= want && |ps| == 1)
              && SpelledBy(b[p + k..p + n], rest, |ps[0]| - k)
    {
      GiveFrom(b[p..p + n], ps, want);
      Slices(b, p, n, if |ps[0]| > want then want else |ps[0]|);
    }

    static lemma ShrunkSpelled(d: seq<byte>, ds: Segments, want: nat)
      requires |d| < USHORT_LIMIT && Short(ds)
      ensures var ps := Shrunk([d] + ds, want);
              && Short(ps) && (ps == [] <==> |d| <= want && ds == []) && (Counted(ds) == [] <==> ds == [])
              && (d + Counted(ds))[..|Take(d, want)|] == Take(d, want)
              && (d + Counted(ds))[|Take(d, want)|..] == if |d| > want then ps[0] + Counted(ps[1..]) else Counted(ps)
    {
      assert ([d] + ds)[1..] == ds;
      if |d| > want {
        assert ([d[want..]] + ds)[1..] == ds;
        assert (d + Counted(ds))[want..] == d[want..] + Counted(ds);
      }
    }

    static function Answer(l: nat, want: nat, lastPart: bool): Status
    {
      if l > want || (l == want && lastPart) then Segment else Ok
    }

    /** The first piece, when it is not the unfinished end of the batch, answers the read. */
    static lemma PieceAnswers(ps: Segments, partial: bool, rest: Segments, want: nat)
      requires ps != [] && (partial ==> rest != []) && !(|ps| == 1 && partial)
      ensures var blob, left := Rejoin(ps, partial, rest), Rejoin(Shrunk(ps, want), partial, rest);
              Read(blob, want) == Reply(Take(ps[0], want), Answer(|ps[0]|, want, false)) && left == Rest(blob, want)
    {
      var qs := Shrunk(ps, want);
      assert |ps[0]| > want ==> qs[1..] == ps[1..];
    }

    /** The unfinished end of the batch answers the read if it fills the caller's buffer. */
    static lemma Filled(d: seq<byte>, e: seq<byte>, want: nat)
      requires |d| >= want
      ensures (d + e)[..want] == d[..want] && (d + e)[want..] == d[want..] + e
    {
    }

    static lemma {:induction false} EndAnswers(d: seq<byte>, rest: Segments, want: nat)
      requires rest != [] && rest[0] != []
      ensures var blob, left := Rejoin([d], true, rest), Rejoin(Shrunk([d], want), true, rest);
              && blob == [d + rest[0]] + rest[1..]
              && (|d| < want ==> left == rest)
              && (|d| >= want ==>
                    Read(blob, want) == Reply(Take(d, want), Answer(|d|, want, true)) && left == Rest(blob, want))
    {
      assert rest == [rest[0]] + rest[1..];
      if |d| >= want {
        Filled(d, rest[0], want);
      }
      if |d| > want {
        assert Shrunk([d], want) == [d[want..]];
      } else {
        assert Shrunk([d], want) == [];
        assert |d| == want ==> d[..want] == d && d[want..] + rest[0] == rest[0];
      }
    }

    /** One turn of the basket: `done` when it answers the read; otherwise the read goes on in the next batch. */
    method Deliver(want: nat) returns (data: seq<byte>, status: Status, done: bool)
      requires Valid() && length > 0
      modifies this
      ensures Valid() && eof == old(eof) && eofPending == old(eofPending)
      ensures done ==> Reply(data, status) == Read(old(Blob()), want) && Blob() == Rest(old(Blob()), want)
      ensures !done ==> && status == Ok && 0 < |data| < want && length == 0
                        && Blob() != [] && old(Blob()) == Prepend(data, Blob())
    {
      FirstPiece();
      ghost var ps := pieces;
      if |ps| == 1 && incomplete {
        assert ps == [ps[0]];
        EndAnswers(ps[0], server.segments, want);
      } else {
        PieceAnswers(ps, incomplete, server.segments, want);
      }
      data, status := HandOut(want);
      done := |data| == want || length > 0 || !incomplete;
    }

    /** A turn of the basket when `data` has been passed out already. */
    method Gather(n: nat, data: seq<byte>) returns (all: seq<byte>, status: Status, done: bool)
      requires Valid() && length > 0 && (|data| < n || data == []) && (data != [] ==> Blob() != [])
      modifies this
      ensures Valid() && eof == old(eof) && eofPending == old(eofPending)
      ensures done ==> var whole := Prepend(data, old(Blob())); Reply(all, status) == Read(whole, n) && Blob() == Rest(whole, n)
      ensures !done ==> && status == Ok && |data| < |all| < n && length == 0
                        && Blob() != [] && Prepend(data, old(Blob())) == Prepend(all, Blob())
    {
      PrependRead(data, Blob(), n);
      var more;
      more, status, done := Deliver(n - |data|);
      if !done {
        PrependTwice(data, more, Blob());
      }
      all := data + more;
    }

    /** GDS_GET_SEGMENT: pass out data from the basket and refill it, until the caller's buffer is full, a
        segment is complete or the blob is at its end. */
    method GetSegment(n: nat) returns (data: seq<byte>, status: Status)
      requires Valid()
      modifies this, server
      ensures Valid()
      ensures Reply(data, status) == Read(old(Blob()), n) && Blob() == Rest(old(Blob()), n)
    {
      data, status := [], Ok;
      if eof {
        status := Eof;
        return;
      }
      while true
        invariant Valid() && !eof && status == Ok && (|data| < n || data == [])
        invariant data != [] ==> Blob() != []
        invariant old(Blob()) == Prepend(data, Blob())
        decreases n - |data|, if length > 0 then 0 else if eofPending then 1 else 2
      {
        if length > 0 {
          var done;
          data, status, done := Gather(n, data);
          if done {
            break;
          }
        }
        if eofPending {
          EmptyHand();
          eof := true;
          status := Eof;
          break;
        }
        Refill();
      }
    }

    /** Any sequence of reads through the buffer returns what the access method would have returned. */
    method ReadAll(sizes: seq<nat>) returns (replies: seq<Reply>)
      requires Valid()
      modifies this, server
      ensures Valid() && replies == Reads(old(Blob()), sizes) && Blob() == Left(old(Blob()), sizes)
    {
      replies := [];
      for i := 0 to |sizes|
        invariant Valid() && replies == Reads(old(Blob()), sizes[..i]) && Blob() == Left(old(Blob()), sizes[..i])
      {
        ReadsOn(old(Blob()), sizes, i);
        var data, status := GetSegment(sizes[i]);
        replies := replies + [Reply(data, status)];
      }
      assert sizes[..|sizes|] == sizes;
    }
  }

  /** The server's side of a blob being written: the put_segment calls the access method has received. */
  class BlobSink {
    var segments: Segments

    constructor ()
      ensures segments == []
    {
      segments := [];
    }

    /** put_segment for MSG_put_segment: a single segment. */
    method PutSegment(data: seq<byte>)
      modifies this
      ensures segments == old(segments) + [data]
    {
      segments := segments + [data];
    }

    /** put_segment for MSG_put_segment_buf: take a batch apart. */
    method PutSegmentBuf(buffer: seq<byte>, ghost ps: Segments)
      requires Short(ps) && buffer == Counted(ps)
      modifies this
      ensures segments == old(segments) + ps
    {
      var p := 0;
      ghost var i := 0;
      while p < |buffer|
        invariant 0 <= p <= |buffer| && 0 <= i <= |ps| && Short(ps[i..]) && buffer[p..] == Counted(ps[i..])
        invariant segments == old(segments) + ps[..i]
        decreases |buffer| - p
      {
        NextCounted(buffer, p, ps, i);
        var l := Count(buffer[p], buffer[p + 1]);
        PutSegment(buffer[p + 2..p + 2 + l]);
        assert ps[..i + 1] == ps[..i] + [ps[i]];
        p, i := p + 2 + l, i + 1;
      }
      assert i == |ps| && ps[..i] == ps;
    }

    static lemma NextCounted(buffer: seq<byte>, p: nat, ps: Segments, i: nat)
      requires p < |buffer| && i <= |ps| && Short(ps[i..]) && buffer[p..] == Counted(ps[i..])
      ensures i < |ps| && p + 2 + |ps[i]| <= |buffer| && Count(buffer[p], buffer[p + 1]) == |ps[i]|
      ensures buffer[p + 2..p + 2 + |ps[i]|] == ps[i]
      ensures Short(ps[i + 1..]) && buffer[p + 2 + |ps[i]|..] == Counted(ps[i + 1..])
    {
      var w, d := buffer[p..], ps[i..][0];
      assert ps[i..][1..] == ps[i + 1..] && d == ps[i];
      CountRead(|d|);
      assert w == Word(|d|) + (d + Counted(ps[i + 1..]));
      assert w[0] == buffer[p] && w[1] == buffer[p + 1];
      assert w[2..2 + |d|] == buffer[p + 2..p + 2 + |d|] && w[2 + |d|..] == buffer[p + 2 + |d|..];
    }
  }

  /** The client's side of a blob being written. */
  class BlobWriter {
    const sink: BlobSink
    const room: nat                 // rbl_buffer_length
    var buffer: seq<byte>           // from rbl_buffer up to rbl_ptr
    ghost var pieces: Segments

    ghost predicate Valid()
      reads this
    {
      room < USHORT_LIMIT && |buffer| <= room && Short(pieces) && buffer == Counted(pieces)
    }

    /** Everything the caller has put, whether the server has seen it yet or not. */
    ghost function Written(): Segments
      reads this, sink
    {
      sink.segments + pieces
    }

    constructor (sink: BlobSink, room: nat)
      requires room < USHORT_LIMIT
      ensures Valid() && Written() == sink.segments && this.sink == sink
    {
      this.sink, this.room := sink, room;
      buffer, pieces := [], [];
    }

    /** send_blob for a batch. */
    method Flush()
      requires Valid()
      modifies this, sink
      ensures Valid() && pieces == [] && buffer == [] && sink.segments == old(Written())
    {
      sink.PutSegmentBuf(buffer, pieces);
      buffer, pieces := [], [];
    }

    /** GDS_PUT_SEGMENT: collect the segment; flush first if it does not fit, and send it alone if it never will. */
    method PutSegment(data: seq<byte>)
      requires Valid() && |data| < USHORT_LIMIT
      modifies this, sink
      ensures Valid() && Written() == old(Written()) + [data]
    {
      if |data| + 2 > room - |buffer| {
        if |buffer| > 0 {
          Flush();
        } else {
          assert pieces == [];
        }
        if |data| + 2 > room {
          sink.PutSegment(data);
          return;
        }
      }
      CountedAppend(pieces, data);
      buffer := buffer + (Word(|data|) + data);
      pieces := pieces + [data];
    }

    /** GDS_CLOSE_BLOB: whatever has not been sent yet goes now. */
    method Close()
      requires Valid()
      modifies this, sink
      ensures Valid() && sink.segments == old(Written()) && Written() == old(Written())
    {
      if |buffer| > 0 {
        Flush();
      } else {
        assert pieces == [];
      }
    }

    /** Any sequence of puts ended by a close reaches the access method as the same sequence of puts. */
    method WriteAll(segs: Segments)
      requires Valid() && forall i :: 0 <= i < |segs| ==> |segs[i]| < USHORT_LIMIT
      modifies this, sink
      ensures sink.segments == old(Written()) + segs
    {
      for i := 0 to |segs|
        invariant Valid() && Written() == old(Written()) + segs[..i]
      {
        PutSegment(segs[i]);
        assert segs[..i + 1] == segs[..i] + [segs[i]];
      }
      assert segs[..|segs|] == segs;
      Close();
    }
  }
}

/**
 Blobs as the access method keeps them, and the counted form in which client and server pass batches
 of segments (csv/csi.c, csv/csv.c).
 */
module Blobs {

  import opened Bytes

  type Segments = seq<seq<byte>>

  const USHORT_LIMIT := 65536

  datatype Status = Ok | Segment | Eof
  datatype Reply = Reply(data: seq<byte>, status: Status)

  // ---- the access method's own get_segment ----

  /** What get_segment with room for `n` bytes returns: a whole segment, a piece of one, or end of blob. */
  function Read(blob: Segments, n: nat): Reply
  {
    if blob == [] then Reply([], Eof)
    else if |blob[0]| <= n then Reply(blob[0], Ok)
    else Reply(blob[0][..n], Segment)
  }

  /** What a reply tells: nothing is left, the segment is complete, or the buffer is full and more of it is to come. */
  lemma ReplyTells(blob: Segments, n: nat)
    ensures var r := Read(blob, n);
            && |r.data| <= n && (r.status == Eof <==> blob == []) && (r.status == Eof ==> r.data == [])
            && (r.status == Ok <==> blob != [] && r.data == blob[0])
            && (r.status == Segment ==> |r.data| == n && r.data < blob[0])
  {
  }

  /** What is left to read afterwards. */
  function Rest(blob: Segments, n: nat): Segments
  {
    if blob == [] then []
    else if |blob[0]| <= n then blob[1..]
    else [blob[0][n..]] + blob[1..]
  }

  function Reads(blob: Segments, sizes: seq<nat>): seq<Reply>
    decreases |sizes|
  {
    if sizes == [] then [] else [Read(blob, sizes[0])] + Reads(Rest(blob, sizes[0]), sizes[1..])
  }

  function Left(blob: Segments, sizes: seq<nat>): Segments
    decreases |sizes|
  {
    if sizes == [] then blob else Left(Rest(blob, sizes[0]), sizes[1..])
  }

  lemma {:induction false} ReadsAppend(blob: Segments, sizes: seq<nat>, n: nat)
    ensures Reads(blob, sizes + [n]) == Reads(blob, sizes) + [Read(Left(blob, sizes), n)]
    ensures Left(blob, sizes + [n]) == Rest(Left(blob, sizes), n)
    decreases |sizes|
  {
    if sizes == [] {
      assert sizes + [n] == [n] && [n][1..] == [];
    } else {
      ReadsAppend(Rest(blob, sizes[0]), sizes[1..], n);
      assert (sizes + [n])[1..] == sizes[1..] + [n];
    }
  }

  lemma ReadsOn(blob: Segments, sizes: seq<nat>, i: nat)
    requires i < |sizes|
    ensures Reads(blob, sizes[..i + 1]) == Reads(blob, sizes[..i]) + [Read(Left(blob, sizes[..i]), sizes[i])]
    ensures Left(blob, sizes[..i + 1]) == Rest(Left(blob, sizes[..i]), sizes[i])
  {
    assert sizes[..i + 1] == sizes[..i] + [sizes[i]];
    ReadsAppend(blob, sizes[..i], sizes[i]);
  }

  function Flat(blob: Segments): seq<byte>
  {
    if blob == [] then [] else blob[0] + Flat(blob[1..])
  }

  function Payload(replies: seq<Reply>): seq<byte>
  {
    if replies == [] then [] else replies[0].data + Payload(replies[1..])
  }

  lemma {:induction false} ReadFlat(blob: Segments, n: nat)
    ensures Read(blob, n).data + Flat(Rest(blob, n)) == Flat(blob)
  {
    if blob != [] && |blob[0]| > n {
      assert Rest(blob, n)[1..] == blob[1..];
      var whole, more := blob[0], Flat(blob[1..]);
      assert whole[..n] + (whole[n..] + more) == whole + more;
    }
  }

  /** Whatever the buffer sizes, what has been read and what is left make up the blob; nothing is skipped or repeated. */
  lemma {:induction false} ReadsConserve(blob: Segments, sizes: seq<nat>)
    ensures Payload(Reads(blob, sizes)) + Flat(Left(blob, sizes)) == Flat(blob)
    decreases |sizes|
  {
    if sizes != [] {
      var rest, data := Rest(blob, sizes[0]), Read(blob, sizes[0]).data;
      ReadsConserve(rest, sizes[1..]);
      PayloadCons(Read(blob, sizes[0]), Reads(rest, sizes[1..]));
      ReadFlat(blob, sizes[0]);
      Regroup(data, Payload(Reads(rest, sizes[1..])), Flat(Left(blob, sizes)));
    }
  }

  lemma PayloadCons(r: Reply, more: seq<Reply>)
    ensures Payload([r] + more) == r.data + Payload(more)
  {
    assert ([r] + more)[1..] == more;
  }

  /** The segments a client puts together from the replies it gets: a piece at a time, up to the end of the blob. */
  function Assembled(front: seq<byte>, replies: seq<Reply>): Segments
    decreases |replies|
  {
    if replies == [] || replies[0].status == Eof then []
    else if replies[0].status == Ok then [front + replies[0].data] + Assembled([], replies[1..])
    else Assembled(front + replies[0].data, replies[1..])
  }

  /** The end of the blob has been reported. */
  predicate Ended(replies: seq<Reply>)
  {
    replies != [] && (replies[0].status == Eof || Ended(replies[1..]))
  }

  lemma FirstReply(front: seq<byte>, r: Reply, more: seq<Reply>)
    ensures Assembled(front, [r] + more)
         == if r.status == Eof then [] else if r.status == Ok then [front + r.data] + Assembled([], more) else Assembled(front + r.data, more)
    ensures Ended([r] + more) <==> r.status == Eof || Ended(more)
  {
    assert ([r] + more)[1..] == more;
  }

  /** Whatever the buffer sizes, a client that reads up to the end of the blob knows every segment, and where each begins and ends. */
  lemma {:induction false} ReadsAssemble(front: seq<byte>, blob: Segments, sizes: seq<nat>)
    requires (front != [] ==> blob != []) && Ended(Reads(blob, sizes))
    ensures Assembled(front, Reads(blob, sizes)) == Prepend(front, blob)
    decreases |sizes|
  {
    var n := sizes[0];
    FirstReply(front, Read(blob, n), Reads(Rest(blob, n), sizes[1..]));
    if blob != [] {
      if |blob[0]| <= n {
        ReadsAssemble([], blob[1..], sizes[1..]);
        WholeAndRest(front, blob);
      } else {
        ReadsAssemble(front + blob[0][..n], [blob[0][n..]] + blob[1..], sizes[1..]);
        PieceAndRest(front, blob, n);
      }
    }
  }

  lemma WholeAndRest(front: seq<byte>, blob: Segments)
    requires blob != []
    ensures [front + blob[0]] + blob[1..] == Prepend(front, blob)
  {
    assert blob == [blob[0]] + blob[1..] && [] + blob[0] == blob[0];
  }

  lemma PieceAndRest(front: seq<byte>, blob: Segments, n: nat)
    requires blob != [] && |blob[0]| > n
    ensures Prepend(front + blob[0][..n], [blob[0][n..]] + blob[1..]) == Prepend(front, blob)
  {
    assert front + blob[0][..n] + blob[0][n..] == front + blob[0];
    assert ([blob[0][n..]] + blob[1..])[1..] == blob[1..];
    if front + blob[0][..n] == [] {
      assert blob[0][n..] == blob[0];
    }
    assert blob == [blob[0]] + blob[1..] && [] + blob[0] == blob[0];
  }

  // ---- the counted form ----

  ghost predicate Short(ps: Segments)
  {
    ps != [] ==> |ps[0]| < USHORT_LIMIT && Short(ps[1..])
  }

  /** <count word> <string> <count word> <string> ... */
  ghost function Counted(ps: Segments): seq<byte>
    requires Short(ps)
  {
    if ps == [] then [] else Word(|ps[0]|) + ps[0] + Counted(ps[1..])
  }

  lemma {:induction false} CountedAppend(ps: Segments, d: seq<byte>)
    requires Short(ps) && |d| < USHORT_LIMIT
    ensures Short(ps + [d]) && Counted(ps + [d]) == Counted(ps) + (Word(|d|) + d)
  {
    if ps == [] {
      assert ps + [d] == [d] && [d][1..] == [];
    } else {
      CountedAppend(ps[1..], d);
      assert (ps + [d])[1..] == ps[1..] + [d] && (ps + [d])[0] == ps[0];
    }
  }

  function Count(lo: byte, hi: byte): (n: nat)
    ensures n < USHORT_LIMIT
  {
    lo as int + hi as int * 256
  }

  /** Reading the count word back. */
  lemma CountRead(n: nat)
    requires n < USHORT_LIMIT
    ensures Count(Word(n)[0], Word(n)[1]) == n
  {
  }

  /** `front` put before what is left of a segment. */
  ghost function Prepend(front: seq<byte>, blob: Segments): Segments
    requires front != [] ==> blob != []
  {
    if front == [] then blob else [front + blob[0]] + blob[1..]
  }

  /** Pieces in hand and segments still at the access method, seen as one blob; when `partial`, the last
      piece is only the beginning of the access method's next segment. */
  ghost function Rejoin(ps: Segments, partial: bool, rest: Segments): Segments
    requires partial ==> rest != []
  {
    if ps == [] then rest
    else if |ps| == 1 && partial then [ps[0] + rest[0]] + rest[1..]
    else [ps[0]] + Rejoin(ps[1..], partial, rest)
  }

  lemma {:induction false} RejoinWhole(ps: Segments, rest: Segments)
    ensures Rejoin(ps, false, rest) == ps + rest
  {
    if ps != [] {
      RejoinWhole(ps[1..], rest);
    }
  }

  lemma {:induction false} RejoinPartial(ps: Segments, d: seq<byte>, rest: Segments)
    requires rest != []
    ensures Rejoin(ps + [d], true, rest) == ps + ([d + rest[0]] + rest[1..])
  {
    if ps == [] {
      assert ps + [d] == [d];
    } else {
      RejoinPartial(ps[1..], d, rest);
      assert (ps + [d])[1..] == ps[1..] + [d];
    }
  }

  /** Reading on in a segment whose beginning is already in hand. */
  lemma PrependRead(front: seq<byte>, blob: Segments, n: nat)
    requires (front != [] ==> blob != []) && (|front| < n || front == [])
    ensures var r := Read(blob, n - |front|);
            && Read(Prepend(front, blob), n) == Reply(front + r.data, r.status)
            && Rest(Prepend(front, blob), n) == Rest(blob, n - |front|)
  {
    if front == [] {
      assert front + Read(blob, n).data == Read(blob, n).data;
    } else {
      var whole := front + blob[0];
      if |whole| > n {
        assert whole[..n] == front + blob[0][..n - |front|] && whole[n..] == blob[0][n - |front|..];
      }
    }
  }

  lemma PrependTwice(a: seq<byte>, b: seq<byte>, blob: Segments)
    requires a + b != [] ==> blob != []
    ensures Prepend(a, Prepend(b, blob)) == Prepend(a + b, blob)
  {
    if a == [] {
      assert a + b == b;
    } else if b == [] {
      assert a + b == a;
    } else {
      assert (a + b) + blob[0] == a + (b + blob[0]);
    }
  }
}

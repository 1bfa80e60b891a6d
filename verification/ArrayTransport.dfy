/**
 Array slices through the central server (csv/csi.c, csv/csv.c).  A message carries at most
 MAX_ARRAY_MESSAGE bytes, so longer slices travel in pieces while the server keeps the array under a
 handle between messages.
 */
module ArrayTransport {
  import opened Bytes

  const MAX_ARRAY_MESSAGE := 64000

  function Min(a: nat, b: nat): nat { if a < b then a else b }

  /** The database and the transaction an array belongs to. */
  datatype Owner = Owner(rdb: int, rtr: int)

  /** array_data up to array_slice (put) or from array_slice on (get), and array_length. */
  datatype Held = Held(owner: Owner, data: seq<byte>, taken: nat, length: nat)

  datatype PutCall = PutCall(owner: Owner, sdl: seq<byte>, param: seq<byte>, slice: seq<byte>)
  datatype GetCall = GetCall(owner: Owner, sdl: seq<byte>, param: seq<byte>, room: nat)

  /** The server's half: the arrays of a transaction that are between messages, by handle. */
  class ArrayServer {
    var arrays: map<nat, Held>
    var nextHandle: nat            // the next address gds__alloc will hand out
    var puts: seq<PutCall>           // put_slice calls made to the access method
    var gets: seq<GetCall>           // get_slice calls made to it
    const stored: seq<byte>          // what the access method's get_slice delivers

    ghost predicate Valid()
      reads this
    {
      nextHandle > 0 && forall h :: h in arrays ==> 0 < h < nextHandle
    }

    constructor (stored: seq<byte>)
      ensures Valid() && arrays == map[] && puts == [] && gets == [] && this.stored == stored
    {
      arrays, puts, gets, nextHandle := map[], [], [], 1;
      this.stored := stored;
    }

    /** gds__alloc: a handle nobody holds. */
    method NewHandle() returns (h: nat)
      requires Valid()
      modifies `nextHandle
      ensures Valid() && h !in arrays && 0 < h < nextHandle
    {
      h := nextHandle;
      nextHandle := nextHandle + 1;
    }

    /** put_slice: `total` is what the client has left to send, `bytes` this message's share of it. */
    method PutSlice(owner: Owner, handle: nat, sdl: seq<byte>, param: seq<byte>, total: nat, bytes: seq<byte>)
      returns (ok: bool, next: nat)
      requires Valid()
      requires handle == 0 ==> |bytes| == Min(total, MAX_ARRAY_MESSAGE)
      requires handle in arrays && handle != 0 ==> |bytes| == Min(arrays[handle].length, MAX_ARRAY_MESSAGE)
      modifies `arrays, `nextHandle, `puts
      ensures Valid()
      ensures ok <==> handle == 0 || (handle in old(arrays) && old(arrays)[handle].owner == owner)
      ensures !ok ==> next == 0 && arrays == old(arrays) && puts == old(puts)
      ensures ok ==>
                var was := if handle == 0 then Held(owner, [], 0, total) else old(arrays)[handle];
                var data, left := was.data + bytes, was.length - |bytes|;
                && (left == 0 ==> next == 0 && puts == old(puts) + [PutCall(owner, sdl, param, data)]
                                  && arrays == (if handle == 0 then old(arrays) else old(arrays) - {handle}))
                && (left > 0 ==> && next != 0 && puts == old(puts) && (if handle == 0 then next !in old(arrays) else next == handle)
                                 && arrays == old(arrays)[next := Held(owner, data, 0, left)])
    {
      var h := handle;
      if h == 0 {
        h := NewHandle();
        arrays := arrays[h := Held(owner, [], 0, total)];
      } else if h !in arrays || arrays[h].owner != owner {
        return false, 0;
      }
      ok := true;
      var held := arrays[h];
      var length := Min(held.length, MAX_ARRAY_MESSAGE);
      held := Held(owner, held.data + bytes[..length], 0, held.length - length);
      assert bytes[..length] == bytes;
      arrays := arrays[h := held];
      next := h;
      if held.length == 0 {
        puts := puts + [PutCall(owner, sdl, param, held.data)];
        arrays := arrays - {h};
        next := 0;
      }
    }

    /** get_slice: fetch the array on the first message, then send it out piece by piece. */
    method GetSlice(owner: Owner, handle: nat, sdl: seq<byte>, param: seq<byte>, room: nat)
      returns (ok: bool, next: nat, piece: seq<byte>)
      requires Valid()
      requires handle in arrays ==> arrays[handle].taken + arrays[handle].length == |arrays[handle].data|
      modifies `arrays, `nextHandle, `gets
      ensures Valid()
      ensures ok <==> handle == 0 || (handle in old(arrays) && old(arrays)[handle].owner == owner)
      ensures gets == old(gets) + if handle == 0 then [GetCall(owner, sdl, param, room)] else []
      ensures !ok ==> next == 0 && piece == [] && arrays == old(arrays)
      ensures ok ==>
                var was := if handle == 0 then Held(owner, stored, 0, |stored|) else old(arrays)[handle];
                var n := Min(was.length, MAX_ARRAY_MESSAGE);
                && was.taken + n <= |was.data| && piece == was.data[was.taken..was.taken + n]
                && (n == was.length ==> next == 0 && arrays == (if handle == 0 then old(arrays) else old(arrays) - {handle}))
                && (n < was.length ==>
                      && next != 0 && (if handle == 0 then next !in old(arrays) else next == handle)
                      && arrays == old(arrays)[next := Held(owner, was.data, was.taken + n, was.length - n)])
    {
      var h := handle;
      if h == 0 {
        h := NewHandle();
        arrays := arrays[h := Held(owner, stored, 0, |stored|)];
        gets := gets + [GetCall(owner, sdl, param, room)];
      } else if h !in arrays || arrays[h].owner != owner {
        return false, 0, [];
      }
      ok := true;
      var held := arrays[h];
      var length := Min(held.length, MAX_ARRAY_MESSAGE);
      piece := held.data[held.taken..held.taken + length];
      next := if length < held.length then h else 0;
      if length != 0 && length < held.length {
        arrays := arrays[h := Held(owner, held.data, held.taken + length, held.length - length)];
      } else {
        arrays := arrays - {h};
      }
    }
  }

  /** GDS_PUT_SLICE: the sdl and the parameters go along with the last piece only. */
  method PutSlice(server: ArrayServer, owner: Owner, sdl: seq<byte>, param: seq<byte>, slice: seq<byte>) returns (ok: bool)
    requires server.Valid()
    modifies server
    ensures server.Valid()
    ensures ok && server.puts == old(server.puts) + [PutCall(owner, sdl, param, slice)] && server.arrays == old(server.arrays)
  {
    var handle, pos := 0, 0;
    ok := true;
    var more := true;
    while more
      invariant 0 <= pos <= |slice| && ok && server.Valid()
      invariant more && handle == 0 ==> pos == 0 && server.arrays == old(server.arrays) && server.puts == old(server.puts)
      invariant more && handle != 0 ==>
                  && server.puts == old(server.puts) && handle !in old(server.arrays)
                  && server.arrays == old(server.arrays)[handle := Held(owner, slice[..pos], 0, |slice| - pos)] && pos < |slice|
      invariant !more ==>
                  server.puts == old(server.puts) + [PutCall(owner, sdl, param, slice)] && server.arrays == old(server.arrays)
      decreases more, |slice| - pos, if handle == 0 then 1 else 0
    {
      var left := |slice| - pos;
      var length := Min(left, MAX_ARRAY_MESSAGE);
      var useSdl, useParam := sdl, param;
      if length < left {
        useSdl, useParam := [], [];
      }
      assert slice[..pos] + slice[pos..pos + length] == slice[..pos + length];
      ok, handle := server.PutSlice(owner, handle, useSdl, useParam, left, slice[pos..pos + length]);
      pos := pos + length;
      more := ok && handle != 0;
      assert slice[..|slice|] == slice;
    }
  }

  /** GDS_GET_SLICE: pieces arrive until the server has no more; a null array id reads as zeros. */
  method GetSlice(server: ArrayServer, owner: Owner, sdl: seq<byte>, param: seq<byte>, isNull: bool, slice: array<byte>) returns (ok: bool, got: nat)
    requires server.Valid() && |server.stored| <= slice.Length
    modifies server, slice
    ensures server.Valid() && ok && server.arrays == old(server.arrays)
    ensures server.gets == old(server.gets) + if isNull then [] else [GetCall(owner, sdl, param, slice.Length)]
    ensures isNull ==> got == 0 && forall i :: 0 <= i < slice.Length ==> slice[i] == 0
    ensures !isNull ==> got == |server.stored| && slice[..got] == server.stored && slice[got..] == old(slice[got..])
  {
    got, ok := 0, true;
    if isNull {
      for i := 0 to slice.Length
        invariant forall k :: 0 <= k < i ==> slice[k] == 0
        invariant server.Valid() && server.arrays == old(server.arrays) && server.gets == old(server.gets)
      {
        slice[i] := 0;
      }
      return;
    }
    var handle, more := 0, true;
    var useSdl, useParam := sdl, param;
    while more
      invariant handle == 0 && more ==> useSdl == sdl && useParam == param && server.gets == old(server.gets)
      invariant handle != 0 || !more ==> server.gets == old(server.gets) + [GetCall(owner, sdl, param, slice.Length)]
      invariant 0 <= got <= |server.stored| && ok && server.Valid()
      invariant slice[..got] == server.stored[..got] && slice[got..] == old(slice[got..])
      invariant more && handle == 0 ==> got == 0 && server.arrays == old(server.arrays)
      invariant more && handle != 0 ==>
                  && handle !in old(server.arrays) && got < |server.stored|
                  && server.arrays == old(server.arrays)[handle := Held(owner, server.stored, got, |server.stored| - got)]
      invariant !more ==> got == |server.stored| && server.arrays == old(server.arrays)
      decreases more, |server.stored| - got, if handle == 0 then 1 else 0
    {
      var piece;
      ok, handle, piece := server.GetSlice(owner, handle, useSdl, useParam, slice.Length - got);
      useSdl, useParam := [], [];
      got := Store(slice, got, piece);
      more := ok && handle != 0;
    }
    assert server.stored[..got] == server.stored;
  }

  /** Move one piece into the caller's buffer. */
  method Store(slice: array<byte>, at: nat, piece: seq<byte>) returns (next: nat)
    requires at + |piece| <= slice.Length
    modifies slice
    ensures next == at + |piece|
    ensures slice[..next] == old(slice[..at]) + piece && slice[next..] == old(slice[next..])
  {
    for i := 0 to |piece|
      invariant slice[..at + i] == old(slice[..at]) + piece[..i]
      invariant slice[at + i..] == old(slice[at + i..])
    {
      slice[at + i] := piece[i];
      assert slice[..at + i + 1] == slice[..at + i] + [piece[i]];
      assert piece[..i + 1] == piece[..i] + [piece[i]];
    }
    next := at + |piece|;
    assert piece[..|piece|] == piece;
  }
}

/** `ReadRequest` of src/server/request.c: bytes accumulate until the blank line has arrived. */
module RequestReader {
  import opened CBytes
  import opened Strutils
  import opened DynamicStrings

  const INITIAL_REQUEST_BUFFER_SIZE: nat := 3192

  /** Result codes of inc/server/errors.h; the first two share a number. */
  const ERR_OK: int := 0
  const ERR_REQUEST_READ_END: int := 18
  const ERR_REQUEST_NONBLOCKED_ERROR: int := 18
  const ERR_REQUEST_READ_ERROR: int := 19

  const CRLFCRLF: CString := [CR, LF, CR, LF]

  /** What `read` on the socket returns. */
  datatype SocketRead = Bytes(data: seq<byte>) | WouldBlock | Failure

  /** The blank line that ends a request head lies in `received`, before any NUL. */
  ghost predicate HeadComplete(received: seq<byte>) {
    exists k: nat :: Occurs(received, CRLFCRLF, |received|, k)
  }

  /** How many bytes `ReadRequest` asks the socket for: a full buffer is doubled first. */
  function Room(size: nat, capacity: nat): (room: nat)
    requires size <= capacity && capacity > 0
    ensures room > 0
  {
    if size == capacity then capacity else capacity - size
  }

  method ReadRequest(buffer: DynamicString, got: SocketRead) returns (code: int)
    requires buffer.Valid() && buffer.capacity > 0
    requires got.Bytes? ==> |got.data| <= Room(buffer.size, buffer.capacity)
    modifies buffer, buffer.data
    ensures buffer.Valid() && (buffer.data == old(buffer.data) || fresh(buffer.data))
    ensures buffer.capacity == old(if buffer.size == buffer.capacity then 2 * buffer.capacity else buffer.capacity)
    ensures buffer.Contents() == old(buffer.Contents()) + if got.Bytes? then got.data else []
    ensures code == ERR_REQUEST_READ_END <==> got.WouldBlock? || (got.Bytes? && HeadComplete(buffer.Contents()))
    ensures code == ERR_REQUEST_READ_ERROR <==> got.Failure?
    ensures code in {ERR_OK, ERR_REQUEST_READ_END, ERR_REQUEST_READ_ERROR}
  {
    var upto := buffer.capacity - buffer.size;
    if upto == 0 {
      buffer.Reserve(2 * buffer.capacity);
    }
    match got {
      case WouldBlock => code := ERR_REQUEST_NONBLOCKED_ERROR;
      case Failure => code := ERR_REQUEST_READ_ERROR;
      case Bytes(bytes) =>
        ghost var before := buffer.Contents();
        buffer.CopyIn(buffer.size, bytes);
        assert buffer.data[..buffer.size + |bytes|] == before + bytes;
        buffer.size := buffer.size + |bytes|;
        var text := buffer.data[..buffer.size];
        var found := Strnstr(text, CRLFCRLF, buffer.size);
        code := if found.Some? then ERR_REQUEST_READ_END else ERR_OK;
    }
  }

  function Min(a: nat, b: nat): nat {
    if a <= b then a else b
  }

  function Pow2(n: nat): nat {
    if n == 0 then 1 else 2 * Pow2(n - 1)
  }

  /** More text never takes a complete head away. */
  lemma HeadStaysComplete(received: seq<byte>, more: seq<byte>)
    requires HeadComplete(received)
    ensures HeadComplete(received + more)
  {
    var k: nat :| Occurs(received, CRLFCRLF, |received|, k);
    var all := received + more;
    assert all[k..k + 4] == received[k..k + 4];
    assert all[..k] == received[..k];
    assert Occurs(all, CRLFCRLF, |all|, k);
  }

  lemma NoneEarlier(wire: seq<byte>, before: nat)
    requires before <= |wire| && !HeadComplete(wire[..before])
    ensures forall n: nat | n <= before :: !HeadComplete(wire[..n])
  {
    forall n: nat | n <= before
      ensures !HeadComplete(wire[..n])
    {
      if HeadComplete(wire[..n]) {
        assert wire[..n] + wire[n..before] == wire[..before];
        HeadStaysComplete(wire[..n], wire[n..before]);
      }
    }
  }

  /**
   Bytes received and capacity of the buffer after the first `turns` reads, of which the i-th is given at most
   `limits[i]` bytes of `total` by the kernel.
   */
  function After(total: nat, limits: seq<nat>, turns: nat): (r: (nat, nat))
    requires turns <= |limits|
    ensures r.0 <= r.1 && r.0 <= total && r.1 > 0
  {
    if turns == 0 then (0, INITIAL_REQUEST_BUFFER_SIZE)
    else
      var (size, capacity) := After(total, limits, turns - 1);
      (size + Fits(size, capacity, total, limits[turns - 1]), if size == capacity then 2 * capacity else capacity)
  }

  /** How many bytes a read gets: no more than the kernel gives, than there is room for, or than there are left. */
  function Fits(size: nat, capacity: nat, total: nat, limit: nat): (n: nat)
    requires size <= capacity && capacity > 0 && size <= total
    ensures n <= Room(size, capacity) && size + n <= total
    ensures limit > 0 && size < total ==> n > 0
    ensures n <= limit && (n == limit || n == Room(size, capacity) || size + n == total)
  {
    Min(limit, Min(Room(size, capacity), total - size))
  }

  // ---- Pieces ----

  function Joined(pieces: seq<seq<byte>>, n: nat): seq<byte>
    requires n <= |pieces|
  {
    if n == 0 then [] else Joined(pieces, n - 1) + pieces[n - 1]
  }

  /** `wire` is made up of pieces as long as the reads may be, each no longer than the buffer has room at its turn. */
  ghost predicate Delivers(wire: seq<byte>, limits: seq<nat>, pieces: seq<seq<byte>>) {
    && |pieces| == |limits| && Joined(pieces, |pieces|) == wire
    && forall i :: 0 <= i < |pieces| ==> |pieces[i]| == limits[i] && HasRoom(|wire|, limits, i)
  }

  /** A full buffer is doubled, so it has room for as many bytes as it holds. */
  ghost predicate HasRoom(total: nat, limits: seq<nat>, i: nat)
    requires i < |limits|
  {
    var (size, capacity) := After(total, limits, i);
    limits[i] <= if size == capacity then capacity else capacity - size
  }

  lemma {:induction false} JoinedPrefix(pieces: seq<seq<byte>>, m: nat, n: nat)
    requires m <= n <= |pieces|
    ensures Joined(pieces, m) <= Joined(pieces, n)
  {
    if m < n {
      JoinedPrefix(pieces, m, n - 1);
    }
  }

  lemma JoinedNext(pieces: seq<seq<byte>>, n: nat)
    requires n < |pieces|
    ensures |Joined(pieces, n + 1)| == |Joined(pieces, n)| + |pieces[n]| <= |Joined(pieces, |pieces|)|
  {
    JoinedPrefix(pieces, n + 1, |pieces|);
  }

  lemma AfterNext(total: nat, limits: seq<nat>, turns: nat)
    requires turns < |limits| && HasRoom(total, limits, turns)
    requires After(total, limits, turns).0 + limits[turns] <= total
    ensures After(total, limits, turns + 1).0 == After(total, limits, turns).0 + limits[turns]
  {}

  lemma PieceOf(wire: seq<byte>, limits: seq<nat>, pieces: seq<seq<byte>>, i: nat)
    requires Delivers(wire, limits, pieces) && i < |pieces|
    ensures |pieces[i]| == limits[i] && HasRoom(|wire|, limits, i)
    ensures |Joined(pieces, i + 1)| == |Joined(pieces, i)| + limits[i] <= |wire|
  {
    JoinedNext(pieces, i);
  }

  /** Then each read gets its piece. */
  lemma {:induction false} PiecesArrive(wire: seq<byte>, limits: seq<nat>, pieces: seq<seq<byte>>, turns: nat)
    requires Delivers(wire, limits, pieces) && turns <= |pieces|
    ensures After(|wire|, limits, turns).0 == |Joined(pieces, turns)|
  {
    if turns > 0 {
      var before := turns - 1;
      PiecesArrive(wire, limits, pieces, before);
      PieceArrives(wire, limits, pieces, before, turns);
    }
  }

  lemma PieceArrives(wire: seq<byte>, limits: seq<nat>, pieces: seq<seq<byte>>, i: nat, next: nat)
    requires Delivers(wire, limits, pieces) && i < |pieces| && next == i + 1
    requires After(|wire|, limits, i).0 == |Joined(pieces, i)|
    ensures After(|wire|, limits, next).0 == |Joined(pieces, next)|
  {
    PieceOf(wire, limits, pieces, i);
    AfterNext(|wire|, limits, i);
  }

  /** A request that fits into the initial buffer may come in any pieces. */
  lemma {:induction false} AnyPieces(wire: seq<byte>, limits: seq<nat>, pieces: seq<seq<byte>>, turns: nat)
    requires |wire| <= 3192 && |pieces| == |limits| && Joined(pieces, |pieces|) == wire && turns <= |pieces|
    requires forall i :: 0 <= i < |pieces| ==> |pieces[i]| == limits[i]
    ensures After(|wire|, limits, turns).0 == |Joined(pieces, turns)| && After(|wire|, limits, turns).1 >= 3192
    ensures turns < |pieces| ==> HasRoom(|wire|, limits, turns)
  {
    JoinedPrefix(pieces, if turns < |pieces| then turns + 1 else turns, |pieces|);
    if turns > 0 {
      AnyPieces(wire, limits, pieces, turns - 1);
    }
  }

  lemma ShortHeadArrives(wire: seq<byte>, limits: seq<nat>, pieces: seq<seq<byte>>)
    requires |wire| <= 3192 && |pieces| == |limits| && Joined(pieces, |pieces|) == wire
    requires forall i :: 0 <= i < |pieces| ==> |pieces[i]| == limits[i]
    ensures Delivers(wire, limits, pieces)
  {
    forall i | 0 <= i < |pieces|
      ensures HasRoom(|wire|, limits, i)
    {
      AnyPieces(wire, limits, pieces, i);
    }
  }

  predicate AllPositive(limits: seq<nat>) {
    forall i :: 0 <= i < |limits| ==> limits[i] > 0
  }

  /** Reads that each get at least one byte get everything within as many reads as there are bytes. */
  lemma {:induction false} EverythingArrives(total: nat, limits: seq<nat>, turns: nat)
    requires turns <= |limits| && AllPositive(limits)
    ensures After(total, limits, turns).0 >= Min(turns, total)
  {
    if turns > 0 {
      EverythingArrives(total, limits, turns - 1);
    }
  }

  /** The capacity is the initial one, doubled some number of times. */
  lemma {:induction false} Doublings(total: nat, limits: seq<nat>, turns: nat) returns (n: nat)
    requires turns <= |limits|
    ensures n <= turns && After(total, limits, turns).1 == INITIAL_REQUEST_BUFFER_SIZE * Pow2(n)
  {
    n := 0;
    if turns > 0 {
      n := Doublings(total, limits, turns - 1);
      if After(total, limits, turns - 1).0 == After(total, limits, turns - 1).1 {
        n := n + 1;
      }
    }
  }

  /** When all reads have been made without a complete head and each got something, there is none on the wire. */
  lemma AllReadIncomplete(wire: seq<byte>, limits: seq<nat>)
    requires !HeadComplete(wire[..After(|wire|, limits, |limits|).0])
    requires |limits| >= |wire| && AllPositive(limits)
    ensures !HeadComplete(wire)
  {
    EverythingArrives(|wire|, limits, |limits|);
    assert After(|wire|, limits, |limits|).0 == |wire|;
    assert wire[..|wire|] == wire;
  }

  /** The loop stops with the end code at the first complete head, and otherwise after all reads. */
  ghost predicate Stops(wire: seq<byte>, limits: seq<nat>, turns: nat, code: int)
    requires turns <= |limits|
  {
    if code == ERR_REQUEST_READ_END then
      && turns > 0 && HeadComplete(wire[..After(|wire|, limits, turns).0])
      && !HeadComplete(wire[..After(|wire|, limits, turns - 1).0])
    else code == ERR_OK && turns == |limits| && !HeadComplete(wire[..After(|wire|, limits, turns).0])
  }

  /** What a stop of the reading loop after `turns` reads means. */
  lemma StopFacts(wire: seq<byte>, limits: seq<nat>, turns: nat, code: int) returns (doublings: nat)
    requires turns <= |limits| && Stops(wire, limits, turns, code)
    ensures After(|wire|, limits, turns).1 == INITIAL_REQUEST_BUFFER_SIZE * Pow2(doublings)
    ensures code == ERR_REQUEST_READ_END ==>
              turns > 0 && forall n: nat | n <= After(|wire|, limits, turns - 1).0 :: !HeadComplete(wire[..n])
    ensures HeadComplete(wire) && |limits| >= |wire| && AllPositive(limits) ==> code == ERR_REQUEST_READ_END
  {
    doublings := Doublings(|wire|, limits, turns);
    if code == ERR_REQUEST_READ_END {
      NoneEarlier(wire, After(|wire|, limits, turns - 1).0);
    } else if |limits| >= |wire| && AllPositive(limits) {
      AllReadIncomplete(wire, limits);
    }
  }

  /** Of pieces that make up `wire` the reads made have got the first ones, and all of them if that was not enough. */
  lemma PiecesReceived(wire: seq<byte>, limits: seq<nat>, turns: nat, code: int)
    requires turns <= |limits| && Stops(wire, limits, turns, code)
    ensures forall pieces | Delivers(wire, limits, pieces) ::
              && wire[..After(|wire|, limits, turns).0] == Joined(pieces, turns)
              && (HeadComplete(wire) ==> code == ERR_REQUEST_READ_END)
  {
    forall pieces | Delivers(wire, limits, pieces)
      ensures wire[..After(|wire|, limits, turns).0] == Joined(pieces, turns)
      ensures HeadComplete(wire) ==> code == ERR_REQUEST_READ_END
    {
      PiecesArrive(wire, limits, pieces, turns);
      JoinedPrefix(pieces, turns, |pieces|);
    }
  }

  /** One read of `ReceiveHead`, which gets the next `n` bytes of `wire`. */
  method ReceiveOnce(buffer: DynamicString, wire: seq<byte>, consumed: nat, n: nat) returns (code: int)
    requires buffer.Valid() && buffer.capacity > 0 && consumed + n <= |wire|
    requires buffer.Contents() == wire[..consumed] && n <= Room(buffer.size, buffer.capacity)
    modifies buffer, buffer.data
    ensures buffer.Valid() && (buffer.data == old(buffer.data) || fresh(buffer.data))
    ensures buffer.capacity == old(if buffer.size == buffer.capacity then 2 * buffer.capacity else buffer.capacity)
    ensures buffer.Contents() == wire[..consumed + n]
    ensures code == if HeadComplete(wire[..consumed + n]) then ERR_REQUEST_READ_END else ERR_OK
  {
    code := ReadRequest(buffer, Bytes(wire[consumed..consumed + n]));
    assert wire[..consumed] + wire[consumed..consumed + n] == wire[..consumed + n];
  }

  /** The reads, up to the first complete head. */
  method ReadUntilEnd(wire: seq<byte>, limits: seq<nat>)
    returns (buffer: DynamicString, code: int, consumed: nat, turns: nat)
    ensures fresh(buffer) && buffer.Valid() && turns <= |limits|
    ensures consumed == After(|wire|, limits, turns).0 && buffer.capacity == After(|wire|, limits, turns).1
    ensures buffer.Contents() == wire[..consumed]
    ensures Stops(wire, limits, turns, code)
  {
    buffer := new DynamicString(INITIAL_REQUEST_BUFFER_SIZE);
    consumed, turns := 0, 0;
    while turns < |limits|
      invariant turns <= |limits|
      invariant fresh(buffer) && fresh(buffer.data) && buffer.Valid()
      invariant consumed == After(|wire|, limits, turns).0 && buffer.capacity == After(|wire|, limits, turns).1
      invariant buffer.Contents() == wire[..consumed] && !HeadComplete(wire[..consumed])
    {
      var n := Fits(consumed, buffer.capacity, |wire|, limits[turns]);
      code := ReceiveOnce(buffer, wire, consumed, n);
      consumed, turns := consumed + n, turns + 1;
      if code == ERR_REQUEST_READ_END {
        return;
      }
    }
    code := ERR_OK;
  }

  /**
   Reading a request from a connection that delivers `wire` in pieces: the i-th read is given at most
   `limits[i]` bytes by the kernel and asks for at most the room in the buffer. Whatever the pieces, the
   buffer holds exactly the bytes delivered by the `turns` reads that were made, and reading stops at the first
   read after which the head is complete: no shorter prefix up to the read before it holds a complete head.
   If the limits are the lengths of pieces that make up `wire` and for which there is room, those reads got the
   first `turns` pieces.
   */
  method ReceiveHead(wire: seq<byte>, limits: seq<nat>)
    returns (buffer: DynamicString, code: int, consumed: nat, turns: nat, ghost doublings: nat)
    ensures fresh(buffer) && buffer.Valid() && turns <= |limits|
    ensures consumed == After(|wire|, limits, turns).0 && buffer.capacity == After(|wire|, limits, turns).1
    ensures buffer.Contents() == wire[..consumed]
    ensures buffer.capacity == INITIAL_REQUEST_BUFFER_SIZE * Pow2(doublings)
    ensures code == ERR_OK || code == ERR_REQUEST_READ_END
    ensures code == ERR_REQUEST_READ_END <==> HeadComplete(wire[..consumed])
    ensures code == ERR_REQUEST_READ_END ==>
              turns > 0 && forall n: nat | n <= After(|wire|, limits, turns - 1).0 :: !HeadComplete(wire[..n])
    ensures code == ERR_OK ==> turns == |limits|
    ensures HeadComplete(wire) && |limits| >= |wire| && AllPositive(limits) ==> code == ERR_REQUEST_READ_END
    ensures forall pieces | Delivers(wire, limits, pieces) ::
              && buffer.Contents() == Joined(pieces, turns)
              && (HeadComplete(wire) ==> code == ERR_REQUEST_READ_END)
  {
    buffer, code, consumed, turns := ReadUntilEnd(wire, limits);
    doublings := StopFacts(wire, limits, turns, code);
    PiecesReceived(wire, limits, turns, code);
  }
}

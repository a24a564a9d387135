/** `WriteRequest` of src/server/request.c: head and body leave in pieces, behind two cursors. */
module ResponseWriter {
  import opened CBytes

  /** Result codes of inc/server/errors.h; the end of the response and would-block share a number. */
  const ERR_OK: int := 0
  const ERR_RESPONSE_WRITE_END: int := 20
  const ERR_RESPONSE_NONBLOCKED_ERROR: int := 20
  const ERR_RESPONSE_WRITE_ERROR: int := 21

  /** What `write` on the socket returns. */
  datatype SocketWrite = Wrote(n: nat) | WouldBlock | Failure

  class RawResponse {
    const header: seq<byte>
    /** The used part of the cache buffer. It is held by a handle and does not change any more. */
    const body: Option<seq<byte>>
    var headerBytesWritten: nat
    var bodyBytesWritten: nat
    /** Everything put on the socket so far. */
    ghost var wire: seq<byte>

    ghost function BodyBytes(): seq<byte> {
      if body.Some? then body.value else []
    }

    ghost function Whole(): seq<byte> {
      header + BodyBytes()
    }

    ghost predicate Valid()
      reads this
    {
      && headerBytesWritten <= |header| && bodyBytesWritten <= |BodyBytes()|
      && (bodyBytesWritten > 0 ==> headerBytesWritten == |header|)
      && wire == Whole()[..headerBytesWritten + bodyBytesWritten]
    }

    /** How many bytes the next call offers to the socket; 0 means that it offers none. */
    ghost function Offered(): (n: nat)
      requires Valid()
      reads this
    {
      if headerBytesWritten < |header| then |header| - headerBytesWritten
      else |BodyBytes()| - bodyBytesWritten
    }

    constructor (header: seq<byte>, body: Option<seq<byte>>)
      ensures Valid() && this.header == header && this.body == body && wire == []
    {
      this.header, this.body := header, body;
      headerBytesWritten, bodyBytesWritten, wire := 0, 0, [];
    }

    method WriteRequest(result: SocketWrite) returns (code: int)
      requires Valid()
      requires result.Wrote? ==> result.n <= Offered()
      modifies this
      ensures Valid()
      ensures wire == Whole()[..|old(wire)| + if result.Wrote? then result.n else 0]
      ensures old(Offered()) == 0 <==> old(wire) == Whole()
      ensures code == ERR_RESPONSE_WRITE_END <==> old(wire) == Whole() || result.WouldBlock?
      ensures code == ERR_RESPONSE_WRITE_ERROR <==> old(wire) != Whole() && result.Failure?
      ensures code in {ERR_OK, ERR_RESPONSE_WRITE_END, ERR_RESPONSE_WRITE_ERROR}
    {
      assert Whole()[..|header| + |BodyBytes()|] == Whole();
      var headerLeft := |header| - headerBytesWritten;
      if headerLeft > 0 {
        match result {
          case WouldBlock => code := ERR_RESPONSE_NONBLOCKED_ERROR;
          case Failure => code := ERR_RESPONSE_WRITE_ERROR;
          case Wrote(n) =>
            wire := wire + header[headerBytesWritten..headerBytesWritten + n];
            headerBytesWritten := headerBytesWritten + n;
            assert wire == Whole()[..headerBytesWritten];
            code := ERR_OK;
        }
        return;
      }
      if body == None {
        return ERR_RESPONSE_WRITE_END;
      }
      var bodyLeft := |body.value| - bodyBytesWritten;
      if bodyLeft > 0 {
        match result {
          case WouldBlock => return ERR_RESPONSE_NONBLOCKED_ERROR;
          case Failure => return ERR_RESPONSE_WRITE_ERROR;
          case Wrote(n) =>
            wire := wire + body.value[bodyBytesWritten..bodyBytesWritten + n];
            bodyBytesWritten := bodyBytesWritten + n;
            assert wire == Whole()[..headerBytesWritten + bodyBytesWritten];
        }
      }
      code := if bodyLeft == 0 then ERR_RESPONSE_WRITE_END else ERR_OK;
    }

    // ---- The calls for one response ----

    /** What a call takes of the bytes that it offers when `n` are out: those of the head first, then the body's. */
    ghost function Accepted(n: nat, result: SocketWrite): (k: nat)
      ensures n <= |Whole()| ==> n + k <= |Whole()|
      ensures !result.Wrote? ==> k == 0
      ensures result.Wrote? && n <= |Whole()| ==>
                k <= result.n && (k == result.n || n + k == |header| || n + k == |Whole()|)
    {
      if !result.Wrote? then 0
      else if n < |header| then Min(result.n, |header| - n)
      else if n < |Whole()| then Min(result.n, |Whole()| - n)
      else 0
    }

    /** How many bytes are out after the first `calls` calls, when `start` were out before them. */
    ghost function Sent(start: nat, results: seq<SocketWrite>, calls: nat): (n: nat)
      requires calls <= |results|
      ensures start <= |Whole()| ==> start <= n <= |Whole()|
    {
      if calls == 0 then start
      else
        var n := Sent(start, results, calls - 1);
        n + Accepted(n, results[calls - 1])
    }

    /** Call number `i` makes the worker stop: everything was out before it, or it would have blocked. */
    ghost predicate EndsAt(start: nat, results: seq<SocketWrite>, i: nat)
      requires i < |results|
    {
      Sent(start, results, i) == |Whole()| || results[i].WouldBlock?
    }

    ghost predicate Steady(results: seq<SocketWrite>) {
      forall i :: 0 <= i < |results| ==> results[i].Wrote? && results[i].n > 0
    }

    /** As long as something is left, every positive write moves a byte. */
    lemma {:induction false} SteadyWrites(start: nat, results: seq<SocketWrite>, calls: nat)
      requires start <= |Whole()| && calls <= |results| && Steady(results)
      ensures Sent(start, results, calls) >= Min(start + calls, |Whole()|)
      decreases calls
    {
      if calls > 0 {
        SteadyWrites(start, results, calls - 1);
      }
    }

    lemma SteadyEnds(start: nat, results: seq<SocketWrite>)
      requires start <= |Whole()| < start + |results| && Steady(results)
      ensures EndsAt(start, results, |results| - 1)
    {
      SteadyWrites(start, results, |results| - 1);
    }

    /** One call, with a result that is cut down to what is offered. */
    method WriteOnce(result: SocketWrite) returns (code: int)
      requires Valid()
      modifies this
      ensures Valid() && old(wire) <= wire
      ensures |wire| == |old(wire)| + Accepted(|old(wire)|, result)
      ensures code == ERR_RESPONSE_WRITE_END <==> |old(wire)| == |Whole()| || result.WouldBlock?
    {
      var left := if headerBytesWritten < |header| then |header| - headerBytesWritten
                  else (if body.Some? then |body.value| else 0) - bodyBytesWritten;
      code := WriteRequest(if result.Wrote? && result.n > left then Wrote(left) else result);
    }

    /**
     The calls that the server worker makes for one response, one for each readiness of the socket, until
     it takes the response for finished. The socket holds a prefix of the response at all times, as long as
     what the calls made have written, and the worker stops at the first call that finds everything out or that
     would block. Writes that each move at least one byte finish the response within one call more than it has
     bytes.
     */
    method WriteUntilDone(results: seq<SocketWrite>) returns (done: bool, calls: nat)
      requires Valid()
      modifies this
      ensures Valid() && old(wire) <= wire <= Whole()
      ensures calls <= |results| && (!done ==> calls == |results|)
      ensures |wire| == Sent(|old(wire)|, results, calls)
      ensures done ==> calls > 0 && EndsAt(|old(wire)|, results, calls - 1)
      ensures forall i | 0 <= i < if done then calls - 1 else calls :: !EndsAt(|old(wire)|, results, i)
      ensures done ==> wire == Whole() || results[calls - 1].WouldBlock?
      ensures Steady(results) && |results| + |old(wire)| > |Whole()| ==> done && wire == Whole()
    {
      done, calls := false, 0;
      ghost var start := |wire|;
      while calls < |results|
        invariant Valid() && old(wire) <= wire <= Whole() && calls <= |results| && !done
        invariant |wire| == Sent(start, results, calls)
        invariant forall i | 0 <= i < calls :: !EndsAt(start, results, i)
      {
        var code := WriteOnce(results[calls]);
        calls := calls + 1;
        if code == ERR_RESPONSE_WRITE_END {
          done := true;
          break;
        }
      }
      if Steady(results) && start + |results| > |Whole()| {
        SteadyEnds(start, results);
      }
    }
  }

  function Min(a: nat, b: nat): nat {
    if a <= b then a else b
  }
}

/** From the parts of a response to the bytes on the socket: `PrepareHttpResponseOk` and the writes that follow. */
module SendResponse {
  import opened CBytes
  import opened HttpText
  import opened HttpRoundTrip
  import opened HttpFraming
  import opened Response
  import opened ResponseWriter

  /** The fields of a response head, besides the length. */
  datatype Meta = Meta(contentType: CString, date: CString, lastModified: CString)

  predicate MetaOk(m: Meta) {
    Free(m.contentType, LINE_ENDS) && Free(m.date, LINE_ENDS) && Free(m.lastModified, LINE_ENDS)
  }

  /** The head for `length` bytes and the body `data`. */
  ghost predicate Carries(r: RawResponse, meta: Meta, length: nat, data: seq<byte>) {
    && r.header == Block(OkLines(meta.contentType, length, meta.date, meta.lastModified)) && r.body == Some(data)
  }

  ghost predicate Refuses(r: RawResponse) {
    r.header == Block([StatusLine(FORBIDDEN_STATUS)]) && r.body == None
  }

  /** What the socket has got after writes with these results. */
  ghost predicate Written(r: RawResponse, results: seq<SocketWrite>, calls: nat)
    reads r
  {
    && r.Valid() && calls <= |results| && |r.wire| == r.Sent(0, results, calls) && r.wire <= r.Whole()
    && (r.Steady(results) && |results| > |r.Whole()| ==> r.wire == r.Whole())
  }

  method SendOk(meta: Meta, length: nat, data: seq<byte>, results: seq<SocketWrite>)
    returns (r: RawResponse, calls: nat)
    requires MetaOk(meta)
    ensures fresh(r) && Carries(r, meta, length, data) && Written(r, results, calls)
    ensures r.wire == r.Whole() ==> (LengthHolds(r.wire) <==> length == |data|)
  {
    var buffer := PrepareOk(meta.contentType, length, meta.date, meta.lastModified);
    r := new RawResponse(buffer.data[..buffer.size], Some(data));
    var done;
    done, calls := r.WriteUntilDone(results);
    AnnouncedLength(meta.contentType, length, meta.date, meta.lastModified, data);
  }

  method SendForbidden(results: seq<SocketWrite>) returns (r: RawResponse, calls: nat)
    ensures fresh(r) && Refuses(r) && Written(r, results, calls)
    ensures [72, 84, 84, 80, 47, 49, 46, 49, 32, 52, 48, 51] <= r.header
  {
    ForbiddenHead();
    var buffer := PrepareError(FORBIDDEN_STATUS);
    r := new RawResponse(buffer.data[..buffer.size], None);
    var done;
    done, calls := r.WriteUntilDone(results);
  }
}

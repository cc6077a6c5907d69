/**
 `txRoute`: the metadata of one transaction, looked up by the id that
 `pathRegex` extracts from the request parameter.
 */
module TxLookup {
  import opened Schema
  import opened Paths

  datatype TxReply =
    | TxNotFound                                  // 404 {status: 404, error: 'Not Found'}
    | TxFound(contentLength: int, body: Metadata) // 200; `contentLength` is the value written into `ctx.headers`

  /** `txRoute` on parameter `txid` against the stored metadata `metas`. The lookup
      is made even for `''`, the id of a parameter the pattern does not match. */
  function TxRoute(txid: string, metas: map<string, Metadata>): (r: TxReply)
    ensures r.TxNotFound? <==> ExtractId(txid) !in metas
    ensures r.TxFound? ==> r.contentLength == r.body.dataSize
    ensures r.TxFound? ==> r.body == metas[ExtractId(txid)]
  {
    var id := ExtractId(txid);
    if id !in metas then TxNotFound
    else
      var meta := metas[id];
      TxFound(meta.dataSize, meta)
  }

  /** A well-formed parameter, with or without a leading slash and whatever follows
      the id, is answered from the metadata stored under that id. */
  lemma TxRouteById(lead: string, id: string, rest: string, metas: map<string, Metadata>)
    requires OptionalSlash(lead) && IsId(id)
    ensures TxRoute(lead + id + rest, metas)
              == if id in metas then TxFound(metas[id].dataSize, metas[id]) else TxNotFound
  {
  }
}

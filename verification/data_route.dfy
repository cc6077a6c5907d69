/**
 `dataRoute`: serving the payload of a transaction. After the metadata lookup
 the content type is chosen from the tags, and the payload comes either from
 the data cache or, when the cache holds nothing usable, from the chunks of
 the transaction's data root, concatenated and written back to the cache.

 Base64 codecs, the UTF-8 decoder and `Utils.tagValue` are the uninterpreted
 functions of `Codecs`; the chunk store is a map from data root to the chunk
 texts in the order the store returns them.
 */
module DataRoute {
  import opened Common
  import opened Schema
  import opened Paths

  /** A `Utils.tagValue` call: the value it returns, or the exception it throws. */
  datatype Lookup = Value(text: string) | Throws

  datatype Codecs = Codecs(
    /** `Utils.tagValue(tags, name)`. */
    tagValue: (seq<Tag>, string) -> Lookup,
    /** `b64UrlToBuffer`. */
    fromB64Url: string -> seq<byte>,
    /** `bufferTob64`. */
    toB64: seq<byte> -> string,
    /** `TextDecoder.decode`. */
    utf8: seq<byte> -> string)

  datatype Body = Bytes(bytes: seq<byte>) | Text(text: string)

  datatype DataReply =
    | DataNotFound                            // 404 {status: 404, error: 'Not Found'}
    | Crashed                                 // the `type` lookup threw outside any `try`
    | Served(contentType: string, body: Body) // 200

  /** The reply and the data cache afterwards. */
  datatype DataResult = DataResult(reply: DataReply, cache: seq<DataRow>)

  const OctetStream := "application/octet-stream"
  const PlainText := "text/plain"

  /** The `try` block choosing `ctx.type` from the three tag lookups. */
  function ContentType(declared: Lookup, format: Lookup, version: Lookup): (t: string)
    ensures declared.Throws? || format.Throws? || version.Throws? ==> t == PlainText
    ensures !declared.Throws? && format == Value("binary") && version == Value("2.0.0") ==> t == OctetStream
    ensures (declared.Value? && format.Value? && version.Value?
             && !(format.text == "binary" && version.text == "2.0.0")) ==> t == declared.text
  {
    if declared.Throws? || format.Throws? || version.Throws? then PlainText
    else if format.text == "binary" && version.text == "2.0.0" then OctetStream
    else declared.text
  }

  /** A payload marked as a version 2.0.0 binary bundle is served as an octet stream,
      whatever its declared `Content-Type`. This is a corollary of the second `ensures` of
      `ContentType`, spelled out as the comparison of two declared types. */
  lemma BundleTypeOverridesDeclared(declared1: Lookup, declared2: Lookup)
    requires !declared1.Throws? && !declared2.Throws?
    ensures ContentType(declared1, Value("binary"), Value("2.0.0"))
              == ContentType(declared2, Value("binary"), Value("2.0.0")) == OctetStream
  {
  }

  /** The summed length of `pieces`. */
  function TotalLength(pieces: seq<seq<byte>>): nat {
    if |pieces| == 0 then 0 else |pieces[0]| + TotalLength(pieces[1..])
  }

  /** `Buffer.concat`: the pieces one after another, in the given order. */
  function Concat(pieces: seq<seq<byte>>): (body: seq<byte>)
    ensures |body| == TotalLength(pieces)
  {
    if |pieces| == 0 then [] else pieces[0] + Concat(pieces[1..])
  }

  /** Each piece sits in the concatenation at the summed length of the pieces before it. */
  lemma {:induction false} ConcatPlacesPieces(pieces: seq<seq<byte>>, i: nat)
    requires i < |pieces|
    ensures TotalLength(pieces[..i]) + |pieces[i]| <= |Concat(pieces)|
    ensures Concat(pieces)[TotalLength(pieces[..i])..TotalLength(pieces[..i]) + |pieces[i]|] == pieces[i]
  {
    var body := Concat(pieces);
    if i == 0 {
      assert pieces[..0] == [];
      assert body == pieces[0] + Concat(pieces[1..]);
    } else {
      var rest := pieces[1..];
      ConcatPlacesPieces(rest, i - 1);
      assert pieces[..i][1..] == rest[..i - 1];
      assert TotalLength(pieces[..i]) == |pieces[0]| + TotalLength(rest[..i - 1]);
      assert rest[i - 1] == pieces[i];
      assert body == pieces[0] + Concat(rest);
    }
  }

  /** `chunkDB.getRoot(root)`: the chunk texts stored for `root`, none if unknown. */
  function ChunksOf(chunks: map<string, seq<string>>, root: string): seq<string> {
    if root in chunks then chunks[root] else []
  }

  /** The decoded chunks of `root`, in store order. */
  function DecodedChunks(k: Codecs, chunks: map<string, seq<string>>, root: string): (pieces: seq<seq<byte>>)
    ensures |pieces| == |ChunksOf(chunks, root)|
    ensures forall i :: 0 <= i < |pieces| ==> pieces[i] == k.fromB64Url(ChunksOf(chunks, root)[i])
  {
    var texts := ChunksOf(chunks, root);
    seq(|texts|, i requires 0 <= i < |texts| => k.fromB64Url(texts[i]))
  }

  /** The payload rebuilt from the chunk store: the decoding of every stored chunk of `root`,
      each at the summed length of the decoded chunks before it, and nothing else. */
  function Reassemble(k: Codecs, chunks: map<string, seq<string>>, root: string): (body: seq<byte>)
    ensures |body| == TotalLength(DecodedChunks(k, chunks, root))
    ensures forall i :: 0 <= i < |ChunksOf(chunks, root)| ==>
              var start := TotalLength(DecodedChunks(k, chunks, root)[..i]);
              var piece := k.fromB64Url(ChunksOf(chunks, root)[i]);
              start + |piece| <= |body| && body[start..start + |piece|] == piece
  {
    var pieces := DecodedChunks(k, chunks, root);
    assert forall i :: 0 <= i < |pieces| ==>
             TotalLength(pieces[..i]) + |pieces[i]| <= |Concat(pieces)|
             && Concat(pieces)[TotalLength(pieces[..i])..TotalLength(pieces[..i]) + |pieces[i]|] == pieces[i]
    by {
      forall i | 0 <= i < |pieces| {
        ConcatPlacesPieces(pieces, i);
      }
    }
    Concat(pieces)
  }

  /** The body made from a non-empty cached payload: bytes exactly for a `file`, otherwise
      text, which is the stored text itself when that starts with `[`. */
  function CachedBody(k: Codecs, kind: string, stored: string): (b: Body)
    requires stored != ""
    ensures b.Bytes? <==> kind == "file"
    ensures b.Bytes? ==> b.bytes == k.fromB64Url(stored)
    ensures b.Text? && stored[0] == '[' ==> b.text == stored
    ensures b.Text? && stored[0] != '[' ==> b.text == k.utf8(k.fromB64Url(stored))
  {
    if kind == "file" then Bytes(k.fromB64Url(stored))
    else if stored[0] == '[' then Text(stored)
    else Text(k.utf8(k.fromB64Url(stored)))
  }

  /** The cache document for the requested id holds no usable payload (`!data?.data`):
      a hit is exactly a first document for `id` whose text is not empty. */
  predicate CacheMiss(cache: seq<DataRow>, id: string)
    ensures !CacheMiss(cache, id) <==>
              exists j :: 0 <= j < |cache| && cache[j].txid == id && cache[j].data != ""
                          && forall i :: 0 <= i < j ==> cache[i].txid != id
  {
    var found := FindOne(cache, id);
    found.None? || found.value.data == ""
  }

  /** `dataRoute` for request path `path`. */
  function Serve(k: Codecs, path: string, metas: map<string, Metadata>, cache: seq<DataRow>,
                 chunks: map<string, seq<string>>): (r: DataResult)
    // an unknown id is answered 404 before the cache or the chunks are consulted
    ensures r.reply == DataNotFound <==> ExtractId(path) !in metas
    ensures r.reply == DataNotFound ==> r.cache == cache
    ensures r.reply == Crashed <==>
              ExtractId(path) in metas && k.tagValue(metas[ExtractId(path)].tags, "type").Throws?
    ensures r.reply.Served? ==>
              var meta := metas[ExtractId(path)];
              r.reply.contentType == ContentType(k.tagValue(meta.tags, "Content-Type"),
                                                 k.tagValue(meta.tags, "Bundle-Format"),
                                                 k.tagValue(meta.tags, "Bundle-Version"))
    // the chunk path is taken, and the cache written, exactly on a cache miss
    ensures r.cache != cache <==> r.reply.Served? && CacheMiss(cache, ExtractId(path))
    ensures r.reply.Served? && CacheMiss(cache, ExtractId(path)) ==>
              var meta := metas[ExtractId(path)];
              var body := Reassemble(k, chunks, meta.dataRoot);
              && r.reply.body == Bytes(body)
              && |body| == TotalLength(DecodedChunks(k, chunks, meta.dataRoot))
              && r.cache == cache + [DataRow(meta.id, k.toB64(body))]
  {
    var id := ExtractId(path);
    if id !in metas then DataResult(DataNotFound, cache)
    else
      var meta := metas[id];
      var kind := k.tagValue(meta.tags, "type");
      if kind.Throws? then DataResult(Crashed, cache)
      else
        var contentType := ContentType(k.tagValue(meta.tags, "Content-Type"),
                                       k.tagValue(meta.tags, "Bundle-Format"),
                                       k.tagValue(meta.tags, "Bundle-Version"));
        if CacheMiss(cache, id) then
          var body := Reassemble(k, chunks, meta.dataRoot);
          DataResult(Served(contentType, Bytes(body)), cache + [DataRow(meta.id, k.toB64(body))])
        else
          DataResult(Served(contentType, CachedBody(k, kind.text, FindOne(cache, id).value.data)), cache)
  }

  /** Only a reconstruction reads the chunk store: a 404, a crash or a cache hit is the
      same whatever the store holds. */
  lemma ChunksReadOnlyOnMiss(k: Codecs, path: string, metas: map<string, Metadata>, cache: seq<DataRow>,
                             chunks: map<string, seq<string>>, other: map<string, seq<string>>)
    requires ExtractId(path) !in metas || !CacheMiss(cache, ExtractId(path))
             || k.tagValue(metas[ExtractId(path)].tags, "type").Throws?
    ensures Serve(k, path, metas, cache, chunks) == Serve(k, path, metas, cache, other)
  {
  }

  /** On a cache hit the reply follows the stored text: decoded bytes for a `file`,
      the text itself when it starts with `[`, its decoded text otherwise. */
  lemma CachedReply(k: Codecs, path: string, metas: map<string, Metadata>, cache: seq<DataRow>,
                    chunks: map<string, seq<string>>)
    requires ExtractId(path) in metas
    requires !CacheMiss(cache, ExtractId(path))
    ensures var meta := metas[ExtractId(path)];
            var kind := k.tagValue(meta.tags, "type");
            var stored := FindOne(cache, ExtractId(path)).value.data;
            var r := Serve(k, path, metas, cache, chunks);
            && (kind == Value("file") ==> r.reply.body == Bytes(k.fromB64Url(stored)))
            && (kind.Value? && kind.text != "file" && stored[0] == '[' ==> r.reply.body == Text(stored))
            && (kind.Value? && kind.text != "file" && stored[0] != '[' ==>
                  r.reply.body == Text(k.utf8(k.fromB64Url(stored))))
  {
  }

  /** A reconstruction is written back under `metadata.id`, so when that is the requested
      id, the cache held nothing for it, and the written text is not empty, the next
      request is a cache hit whatever the chunk store then holds; for a `file` whose
      codecs round-trip it serves the very same bytes. The route does not await its
      cache insert, so this reads the write as landed before the next request. */
  lemma SecondReadHitsCache(k: Codecs, path: string, metas: map<string, Metadata>, cache: seq<DataRow>,
                            chunks: map<string, seq<string>>, later: map<string, seq<string>>)
    requires ExtractId(path) in metas && metas[ExtractId(path)].id == ExtractId(path)
    requires k.tagValue(metas[ExtractId(path)].tags, "type").Value?
    requires FindOne(cache, ExtractId(path)).None?
    requires k.toB64(Reassemble(k, chunks, metas[ExtractId(path)].dataRoot)) != ""
    ensures var first := Serve(k, path, metas, cache, chunks);
            var second := Serve(k, path, metas, first.cache, later);
            && first.cache != cache
            && second.cache == first.cache
            && (k.tagValue(metas[ExtractId(path)].tags, "type") == Value("file")
                && (forall b :: k.fromB64Url(k.toB64(b)) == b)
                ==> second.reply == first.reply)
  {
    var id := ExtractId(path);
    var meta := metas[id];
    var body := Reassemble(k, chunks, meta.dataRoot);
    var first := Serve(k, path, metas, cache, chunks);
    assert first.cache == cache + [DataRow(id, k.toB64(body))];
    FindOneAfterInsert(cache, DataRow(id, k.toB64(body)));
    assert !CacheMiss(first.cache, id);
  }

  /** The cache never heals an empty document. When the first document for the requested
      id has empty text (ingestion stores one for every transaction posted with empty
      `data`), each read misses, rebuilds from the chunk store and appends one more
      document behind it, which the earliest-first lookup never reaches. */
  lemma EmptyDocumentAlwaysMisses(k: Codecs, path: string, metas: map<string, Metadata>,
                                  cache: seq<DataRow>, chunks: map<string, seq<string>>,
                                  later: map<string, seq<string>>)
    requires ExtractId(path) in metas
    requires k.tagValue(metas[ExtractId(path)].tags, "type").Value?
    requires FindOne(cache, ExtractId(path)).Some? && FindOne(cache, ExtractId(path)).value.data == ""
    ensures var first := Serve(k, path, metas, cache, chunks);
            var second := Serve(k, path, metas, first.cache, later);
            && first.cache != cache
            && second.cache != first.cache
            && |second.cache| == |cache| + 2
            && FindOne(second.cache, ExtractId(path)) == FindOne(cache, ExtractId(path))
  {
    var id := ExtractId(path);
    var first := Serve(k, path, metas, cache, chunks);
    assert |first.cache| == |cache| + 1;
    FindOneStable(cache, first.cache[|cache|..], id);
    assert cache + first.cache[|cache|..] == first.cache;
    var second := Serve(k, path, metas, first.cache, later);
    FindOneStable(first.cache, second.cache[|first.cache|..], id);
    assert first.cache + second.cache[|first.cache|..] == second.cache;
  }
}

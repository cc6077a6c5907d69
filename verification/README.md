# arlocal ingestion and data serving, modelled in Dafny

This project models two request handlers of arlocal, a local Arweave gateway.

- `txPostRoute` ingests a submitted transaction. If the transaction's tags mark it as a version 2.0.0 binary bundle, each bundle item is first ingested, in index order, by the same procedure. Then the transaction is checked against the wallet table. Its quantity moves to the target, its reward is debited, and its row, its tags and its payload are stored.
- `txRoute` answers a metadata request.
- `dataRoute` serves a payload. It takes the payload from the data cache, or rebuilds it from the chunk store and writes it back to the cache. It also chooses the content type from the tags.
- `pathRegex` and `dataRouteRegex` are the two id patterns. They are modelled as string predicates, each proved equal to a reference reading of the regular expression.

Everything is pure, and each request runs alone from start to finish (see "## Left out"). The database handles become explicit values: `Ingestion.Store` holds the wallet map and the `transactions`, `tags` and data-cache tables, and the read side takes a metadata map, the cache rows and a chunk map. Foreign functions are function-typed fields of `Ingestion.Decoders` and `DataRoute.Codecs`, left uninterpreted:

- `Utils.atob`
- the owner digest `bufferTob64Url(hash(b64UrlToBuffer(owner)))`
- the base64 codecs
- `TextDecoder`
- `Utils.tagValue`

A bundle's items, decoded by the foreign bundle parser, arrive inside the record as `Contents.Items`, each already carrying its positional id. `Contents.Undecodable` stands for a parser that throws. Amounts are mathematical integers.

Modules: `Common` (Option, byte), `Schema` (table rows, metadata, cache lookup), `Paths` (both patterns), `TagScan` (bundle-marker detection), `Ledger` (wallet map), `Ingestion` (`txPostRoute`), `TxLookup` (`txRoute`), `DataRoute` (`dataRoute`).

Behaviour of the code worth noting:

- The existence and funds checks read the wallet at the address derived from the owner key (src/routes/transaction.ts:133,137), but both debits are keyed by the raw owner key (src/routes/transaction.ts:151,154). `Ingestion.SettleTotal` and `Ingestion.OwnerKeyExample` show the consequence: when the raw key names no wallet, the debits are lost and an accepted transfer adds its quantity to the total.
- Reconstruction does not check the result against `data_size`, does not sort chunks by offset, and raises no error when the root has no chunks; that yields an empty body.
- An empty cache document is never replaced. `txPostRoute` stores `{txid, data}` for every accepted record, even when `data` is empty (src/routes/transaction.ts:156, the data-row clause of `Ingestion.Settle`). `dataRoute` then finds that empty document first and takes the chunk path (src/routes/data.ts:70-75). Its insert appends a second document that the earliest-first lookup never reaches, so every read of such a transaction rebuilds from the chunk store and adds one more document (`DataRoute.EmptyDocumentAlwaysMisses`). The cached second read of `DataRoute.SecondReadHitsCache` holds only when the cache had no document for the id.
- Bundle items are not rolled back as a set, the balance update is not a conditional atomic update, and nesting depth is not bounded.

Assumptions about code that is not part of this model:

- `WalletDB.incrementBalance(address, delta)` updates the row with that address and does nothing when there is none (`Ledger.Increment`).
- `DataDB.findOne` returns the earliest document stored for the id, and `insert` appends (`Schema.FindOne`).
- `formatTransaction` is a projection of the record's fields (`Ingestion.TxRowOf`).

## Model

| member | source | states |
|---|---|---|
| Paths.ExtractId | src/routes/transaction.ts:33-34 | the id extracted from a path is either `''` or a string the capture group of `pathRegex` holds on that path |
| Paths.ExtractIdComplete | src/routes/transaction.ts:11 | whenever `pathRegex` (optional `/`, 43 id characters, no end anchor, case-insensitive) captures an id, extraction returns exactly that id; so the match is unique and `''` means no match |
| Paths.IsDataRoute | src/routes/data.ts:8 | every path `dataRouteRegex` accepts also yields a non-empty id through `pathRegex` |
| Paths.IsDataRouteSound | src/routes/data.ts:8 | every path the computed predicate accepts is matched by one of the two alternatives of `dataRouteRegex` |
| Paths.IsDataRouteComplete | src/routes/data.ts:8 | every path either alternative matches (optional `/`, id, optional `/`; or optional `/`, id, `/`, a suffix without line terminators) is accepted |
| Paths.IsDataRouteMatchesRegex | src/routes/data.ts:8 | the computed predicate and the two-alternative reading of the pattern accept exactly the same paths |
| Paths.DataRouteIdAgrees | src/routes/data.ts:8-9 | a path split as optional `/`, id and a tail of either alternative (empty, or `/` plus a suffix without line terminators) is accepted by `dataRouteRegex`, and `pathRegex` extracts that same id |
| TagScan.Overwrite | src/routes/transaction.ts:98-104 | the loop variable for one tag name ends on its initial value or on the value of some tag with that name, and on its initial value when no tag has the name |
| TagScan.OverwriteIsLastMatch | src/routes/transaction.ts:98-104 | the overwriting tag loop ends with the value of the last tag carrying the name, and with its initial value when no tag does |
| TagScan.BundleMarkedIffLastTags | src/routes/transaction.ts:95-104 | after the overwriting loop, the two remembered values are `binary` and `2.0.0` exactly when the last `Bundle-Format` tag is `binary` and the last `Bundle-Version` tag is `2.0.0` |
| TagScan.IsBundleMarked | src/routes/transaction.ts:106 | a record is expanded as a bundle exactly when the last `Bundle-Format` tag is `binary` and the last `Bundle-Version` tag is `2.0.0` |
| Ledger.Increment | src/routes/transaction.ts:150-154 | a balance increment changes only the addressed wallet, by exactly the delta, creates no wallet, and is a no-op for an unknown address |
| Ledger.IncrementTotal | src/routes/transaction.ts:150-154 | an increment moves the sum of all balances by the delta when the address is a wallet and leaves it unchanged otherwise |
| Ingestion.Status | src/routes/transaction.ts:140-183 | 404 is set exactly for a missing wallet, 403 exactly for insufficient funds, 200 (the framework's, on assigning the body) exactly for an accepted record, and no status at all when an exception was only logged |
| Ingestion.TagRows | src/routes/transaction.ts:164-181 | the tag loop stores one row per tag, in order, with index counting up from the start value, the transaction id, and the decoded name and value |
| Ingestion.Settle | src/routes/transaction.ts:133-183 | for a transfer, 404 iff the wallet at `hash(owner)` or the target is missing; 403 iff both exist and the `hash(owner)` balance is below quantity plus reward; a rejection leaves every store unchanged; otherwise the record is echoed, every existing balance moves by its `BalanceChange` (target +quantity, raw owner −quantity −reward), no wallet appears, and exactly one transaction row at `height`, one data row and the decoded tags with indices 0..n-1 are appended |
| Ingestion.Persist | src/routes/transaction.ts:156-183 | persistence leaves the wallets alone, appends one data row, one transaction row at `height`, and the decoded tags with indices 0..n-1 after the earlier rows, and echoes the record |
| Ingestion.Ingest | src/routes/transaction.ts:84-187 | the handler answers nothing and changes nothing exactly when the record is bundle-marked and its bundle cannot be decoded; an accepted record is echoed as the response body; the stores only grow, the wallet addresses stay, and every added transaction row, nested items included, carries `height` |
| Ingestion.IngestItems | src/routes/transaction.ts:114-130 | the item loop only appends rows, keeps the wallet addresses, and stamps every transaction row it adds with the parent's height |
| Ingestion.IngestResponse | src/routes/transaction.ts:106-149 | unless the record's own bundle fails to decode, the response (404, 403 or the echoed record) and the store are the ledger decision taken on the store the settlement of all its items, in order, left behind |
| Ingestion.IngestSettlesInOrder | src/routes/transaction.ts:106-154 | ingestion equals settling the records of `Settled` one after another: the items in index order, each with its own items before it, and then the parent itself |
| Ingestion.IngestItemsSettleInOrder | src/routes/transaction.ts:114-130 | the item loop equals settling the items' settlement lists concatenated in index order, each item's response being discarded |
| Ingestion.RejectedRecordIsSkipped | src/routes/transaction.ts:117-148 | a record rejected with 404 or 403 at its turn leaves the earlier effects in place, and the later records settle as if it were absent |
| Ingestion.SettleAllAppends | src/routes/transaction.ts:156-181 | a run of settlements keeps the set of wallet addresses and all earlier table rows, and every transaction row it adds carries the same height |
| Ingestion.TransferTotal | src/routes/transaction.ts:150-154 | the three increments of a transfer move the total by the quantity credited, minus quantity and reward only when the debited key is a wallet |
| Ingestion.SettleTotal | src/routes/transaction.ts:133-154 | after an accepted record the total drops by exactly the reward when the raw owner key is a wallet, rises by the transferred quantity when it is not and the record is a transfer, and is unchanged when it is neither |
| Ingestion.SettleTransferIncrements | src/routes/transaction.ts:145-154 | the balances after an accepted transfer are the credit to the target, then the quantity debit and the reward debit on the raw owner key, in that order, and the target is a wallet |
| Ingestion.SettleRewardIncrement | src/routes/transaction.ts:154 | the balances after any other accepted record are the reward debit on the raw owner key alone |
| Ingestion.OwnerKeyExample | src/routes/transaction.ts:133-154 | a transfer of 30 with reward 5 from a key whose address holds 100 leaves that address at 100 and credits the target 30, because the debits address the raw key |
| Ingestion.OwnerAddressExample | src/routes/transaction.ts:145-154 | when the owner key is itself the wallet address, the same transfer leaves 65 and 30 |
| TxLookup.TxRoute | src/routes/transaction.ts:33-48 | 404 exactly when no metadata is stored under the extracted id (`''` included); otherwise 200 with the metadata stored under that id as body, and its `data_size` as the value written for `content-length` |
| TxLookup.TxRouteById | src/routes/transaction.ts:11-48 | a parameter made of an optional `/`, an id and any tail is answered from the metadata stored under that id, or 404 |
| Schema.FirstIndex | src/routes/data.ts:70 | the position found is the first cache document for the id, or the end when none has it |
| Schema.FindOne | src/routes/data.ts:70 | the cache lookup finds nothing exactly when no document has the id, and otherwise the first document with that id |
| Schema.FindOneStable | src/routes/data.ts:70-80 | documents appended later never change what an existing lookup finds |
| Schema.FindOneAfterInsert | src/routes/data.ts:70-80 | after inserting a document for an id nobody cached, the lookup finds that document |
| DataRoute.ContentType | src/routes/data.ts:58-68 | `text/plain` when any of the three tag lookups throws; `application/octet-stream` when the bundle tags are `binary`/`2.0.0`; otherwise the declared `Content-Type` |
| DataRoute.BundleTypeOverridesDeclared | src/routes/data.ts:59-65 | with the bundle tags set, two different declared content types yield the same type, the octet stream |
| DataRoute.Concat | src/routes/data.ts:79 | the length of the concatenation is the sum of the chunk lengths |
| DataRoute.ConcatPlacesPieces | src/routes/data.ts:76-79 | each chunk appears in the body, in store order, at the offset equal to the summed length of the chunks before it |
| DataRoute.DecodedChunks | src/routes/data.ts:76-77 | one piece per chunk returned for the data root, piece i being the decoding of chunk i |
| DataRoute.Reassemble | src/routes/data.ts:76-79 | the rebuilt payload is exactly as long as the decoded chunks together, and the decoding of the i-th stored chunk of the data root sits at the summed length of the decoded chunks before it |
| DataRoute.CacheMiss | src/routes/data.ts:75 | the cache is hit exactly when the first document for the id exists and its text is not empty |
| DataRoute.CachedBody | src/routes/data.ts:84-85 | a cached payload gives bytes exactly for `type == 'file'`, decoded from the stored text; otherwise text, the stored text itself when it starts with `[` and its decoding otherwise |
| DataRoute.Serve | src/routes/data.ts:35-88 | 404 exactly when no metadata exists for the id, and then the cache is untouched; a crash exactly when the `type` lookup throws; the chosen content type; the cache is written exactly on the chunk path, which is taken exactly when the first cache document for the id is missing or empty; there the body is the chunk concatenation, of summed length, inserted under `metadata.id` |
| DataRoute.ChunksReadOnlyOnMiss | src/routes/data.ts:49-85 | a 404, a crash or a cache hit does not depend on the chunk store |
| DataRoute.CachedReply | src/routes/data.ts:84-85 | on a cache hit: decoded bytes for `type == 'file'`, the stored text verbatim when it starts with `[`, its decoded text otherwise |
| DataRoute.SecondReadHitsCache | src/routes/data.ts:70-85 | when the cache held no document for the id, the `type` tag is readable, `metadata.id` is the requested id and the rebuilt text is not empty, the first request writes the reconstruction and the next one is a cache hit that writes nothing, whatever the chunk store holds; for a `file` with round-tripping codecs it serves identical bytes |
| DataRoute.EmptyDocumentAlwaysMisses | src/routes/data.ts:70-82 | when the first cache document for the id has empty text, two reads in a row both miss and each appends a document, and the document found for the id stays the empty one |

## Left out

- Database plumbing (`TransactionDB`, `DataDB`, `WalletDB`, `ChunkDB`, knex inserts) is replaced by maps and row sequences. Store failures are not modelled, and neither are the `catch` blocks that only log them.
- `txAnchorRoute` is left out: it draws a random id and reads the `blocks` table.
- `txOffsetRoute` and `dataHeadRoute` are left out: they only copy database fields, and `dataHeadRoute` dereferences a possibly missing metadata row.
- The lazy initialisation of the global store handles and the `oldDbPath` comparison are left out. The model assumes that a bundle item's nested call sees the same `dbPath` as its parent, and so writes to the same stores. The item context re-adds `connection`, `logging` and `network` by hand but not `dbPath`; if `dbPath` were not carried over, line 86 would rebuild the handles for every item.
- Logging is left out.
- Concurrency is left out. Each request is modelled as one uninterrupted step, with no other request running at its `await`s. In the source another request can run between the funds check and the increments (src/routes/transaction.ts:137-154), and at every bundle item (src/routes/transaction.ts:117). Two promises rest on this. First, a 403 decision matches the balances that are then debited. Second, `ctx.network.blocks` is read afresh for every record (src/routes/transaction.ts:160), so `Ingestion.Ingest`, `Ingestion.IngestItems` and `Ingestion.SettleAllAppends` give every nested row the parent's `height` only when no block is mined in between.
- ANS-104 bundle parsing by the foreign `Bundle` class is left out. Its result is the `Contents` field, and the ids from `getIdBy(i)` are already in the items.
- A bundle parser that fails part-way through the item loop is not modelled: decoding either yields every item or throws before the first.
- Whether `getIdBy(i)` or a field of `item.toJSON()` supplies an item's id is decided inside the foreign parser; the model takes the id the item carries.
- Base64 and base64url codecs, `Utils.atob`, `TextDecoder`, the owner digest and `Utils.tagValue` are left out: they are uninterpreted functions.
- Koa's handling of `ctx.headers` is left out. `TxLookup.TxFound.contentLength` is the value `txRoute` writes into `ctx.headers['content-length']`, next to `accept-ranges`. In Koa `ctx.headers` is the request's header object, so these values may never reach the response.
- The data cache insert of `dataRoute` is not awaited. The model applies it before the reply, and `DataRoute.SecondReadHitsCache` assumes it has landed before the next request. A failed insert would be an unhandled rejection rather than a failed read; store failures are not modelled.
- Koa's handling of `ctx.type` is left out. The model records the value assigned and not the MIME lookup koa then performs. A crash stands for the framework's error reply.
- JavaScript number coercion of `quantity` and `reward` is left out: they are integers. `quantity` is `None` when the field is falsy, and `target` is `""` when absent.
- The text of the 403 message is not built: `InsufficientFunds` carries the quantity that the message interpolates.

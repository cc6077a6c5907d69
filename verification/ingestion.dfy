/**
 `txPostRoute`: ingestion of a submitted record. A record whose tags mark it
 as a binary bundle first has each of its decoded items ingested, in index
 order, by the same procedure; then the record itself goes through the ledger
 check, the balance updates and persistence.

 The database handles become an explicit `Store`; the transport decoder and
 the owner digest are the uninterpreted functions of `Decoders`; a bundle's
 items arrive already decoded in the record (`Contents`).
 */
module Ingestion {
  import opened Common
  import opened Schema
  import opened TagScan
  import opened Ledger

  /** The foreign functions the handler calls. */
  datatype Decoders = Decoders(
    /** `Utils.atob`, applied to tag names and values. */
    tagText: string -> string,
    /** `bufferTob64Url(hash(b64UrlToBuffer(owner)))`: the address derived from owner key material. */
    ownerAddress: string -> Address)

  /** What the bundle decoder makes of a record's payload. */
  datatype Contents =
    | Items(items: seq<Record>)   // the items in index order, each with its positional id
    | Undecodable                 // the decoder throws

  /** A submitted transaction or bundle item. `target == ""` and `quantity == None`
      stand for the fields JavaScript reads as falsy. */
  datatype Record = Record(
    id: string,
    owner: string,
    target: Address,
    quantity: Option<int>,
    reward: int,
    tags: seq<Tag>,
    data: string,
    contents: Contents)

  /** The stores the handler writes: wallets, `transactions`, `tags` and the data cache. */
  datatype Store = Store(wallets: Wallets, txs: seq<TxRow>, tagRows: seq<TagRow>, dataRows: seq<DataRow>)

  datatype Response =
    | Accepted(body: Record)           // the submitted record is echoed back
    | WalletNotFound                   // 404 {status: 404, error: 'Wallet not found'}
    | InsufficientFunds(quantity: int) // 403 "you don't have enough funds to send <quantity>"
    | Unanswered                       // an exception was caught and only logged

  datatype Outcome = Outcome(store: Store, response: Response)

  /** The HTTP status of the reply. The handler sets only 404 and 403; an accepted record
      gets the framework's 200 when the body is assigned, and `None` is an unanswered
      request, where no body is assigned and the framework's default applies. */
  function Status(r: Response): (code: Option<int>)
    ensures code == Some(404) <==> r.WalletNotFound?
    ensures code == Some(403) <==> r.InsufficientFunds?
    ensures code == Some(200) <==> r.Accepted?
    ensures code.None? <==> r.Unanswered?
  {
    match r
    case Accepted(_) => Some(200)
    case WalletNotFound => Some(404)
    case InsufficientFunds(_) => Some(403)
    case Unanswered => None
  }

  predicate Rejected(r: Response) {
    r.WalletNotFound? || r.InsufficientFunds?
  }

  /** `data?.target && data?.quantity`: the record moves value to a target. */
  predicate IsTransfer(rec: Record) {
    rec.target != "" && rec.quantity.Some?
  }

  /** The address whose wallet the existence and funds checks read. */
  function Sender(c: Decoders, rec: Record): Address {
    c.ownerAddress(rec.owner)
  }

  /** The bundle markers select expansion. */
  predicate Expands(c: Decoders, rec: Record) {
    IsBundleMarked(DecodeTags(c.tagText, rec.tags))
  }

  /** How much an accepted record moves balance `k`: the target gains the quantity,
      and the raw owner key loses the quantity and the reward. */
  function BalanceChange(rec: Record, k: Address): int {
    var q := if IsTransfer(rec) then rec.quantity.value else 0;
    (if k == rec.target then q else 0) - (if k == rec.owner then q + rec.reward else 0)
  }

  /** `formatTransaction(data)` with `height` set. */
  function TxRowOf(rec: Record, height: int): TxRow {
    TxRow(rec.id, rec.owner, rec.target, rec.quantity, rec.reward, height)
  }

  /** The rows the tag loop inserts, its counter starting at `index`. */
  function TagRows(decode: string -> string, txId: string, tags: seq<Tag>, index: nat): (rows: seq<TagRow>)
    ensures |rows| == |tags|
    ensures forall i :: 0 <= i < |tags| ==>
              rows[i] == TagRow(index + i, txId, decode(tags[i].name), decode(tags[i].value))
    decreases |tags|
  {
    if |tags| == 0 then []
    else [TagRow(index, txId, decode(tags[0].name), decode(tags[0].value))]
         + TagRows(decode, txId, tags[1..], index + 1)
  }

  /** Persistence of an accepted record under already-updated wallets. */
  function Persist(c: Decoders, height: int, rec: Record, s: Store): (o: Outcome)
    ensures o.response == Accepted(rec) && o.store.wallets == s.wallets
    ensures o.store.txs == s.txs + [TxRow(rec.id, rec.owner, rec.target, rec.quantity, rec.reward, height)]
    ensures o.store.dataRows == s.dataRows + [DataRow(rec.id, rec.data)]
    ensures |o.store.tagRows| == |s.tagRows| + |rec.tags| && o.store.tagRows[..|s.tagRows|] == s.tagRows
    ensures forall i :: 0 <= i < |rec.tags| ==>
              o.store.tagRows[|s.tagRows| + i]
              == TagRow(i, rec.id, c.tagText(rec.tags[i].name), c.tagText(rec.tags[i].value))
  {
    Outcome(Store(s.wallets,
                  s.txs + [TxRowOf(rec, height)],
                  s.tagRows + TagRows(c.tagText, rec.id, rec.tags, 0),
                  s.dataRows + [DataRow(rec.id, rec.data)]),
            Accepted(rec))
  }

  /** `t` grew out of `s` by appending rows only, under the same set of wallets, and
      every transaction row it added carries `height`. */
  predicate Extends(s: Store, t: Store, height: int) {
    && t.wallets.Keys == s.wallets.Keys
    && s.txs <= t.txs && s.tagRows <= t.tagRows && s.dataRows <= t.dataRows
    && forall i :: |s.txs| <= i < |t.txs| ==> t.txs[i].height == height
  }

  lemma ExtendsTransitive(s: Store, m: Store, t: Store, height: int)
    requires Extends(s, m, height) && Extends(m, t, height)
    ensures Extends(s, t, height)
  {
    assert forall i :: |s.txs| <= i < |m.txs| ==> t.txs[i] == m.txs[i];
  }

  /** The ledger check, balance updates and persistence of one record (no expansion). */
  function Settle(c: Decoders, height: int, rec: Record, s: Store): (o: Outcome)
    ensures o.response == WalletNotFound <==>
              IsTransfer(rec) && (Sender(c, rec) !in s.wallets || rec.target !in s.wallets)
    ensures o.response.InsufficientFunds? <==>
              && IsTransfer(rec) && Sender(c, rec) in s.wallets && rec.target in s.wallets
              && s.wallets[Sender(c, rec)] < rec.quantity.value + rec.reward
    ensures o.response.InsufficientFunds? ==> o.response.quantity == rec.quantity.value
    ensures Rejected(o.response) ==> o.store == s
    ensures !Rejected(o.response) ==> o.response == Accepted(rec)
    ensures o.response.Accepted? ==>
              && o.store.wallets.Keys == s.wallets.Keys
              && (forall k :: k in s.wallets ==> o.store.wallets[k] == s.wallets[k] + BalanceChange(rec, k))
              && o.store.txs == s.txs + [TxRow(rec.id, rec.owner, rec.target, rec.quantity, rec.reward, height)]
              && o.store.dataRows == s.dataRows + [DataRow(rec.id, rec.data)]
              && |o.store.tagRows| == |s.tagRows| + |rec.tags|
              && o.store.tagRows[..|s.tagRows|] == s.tagRows
              && (forall i :: 0 <= i < |rec.tags| ==>
                    o.store.tagRows[|s.tagRows| + i]
                    == TagRow(i, rec.id, c.tagText(rec.tags[i].name), c.tagText(rec.tags[i].value)))
  {
    var from := Sender(c, rec);
    if IsTransfer(rec) then
      var q := rec.quantity.value;
      if from !in s.wallets || rec.target !in s.wallets then
        Outcome(s, WalletNotFound)
      else if s.wallets[from] < q + rec.reward then
        Outcome(s, InsufficientFunds(q))
      else
        var moved := Increment(Increment(s.wallets, rec.target, q), rec.owner, -q);
        Persist(c, height, rec, s.(wallets := Increment(moved, rec.owner, -rec.reward)))
    else
      Persist(c, height, rec, s.(wallets := Increment(s.wallets, rec.owner, -rec.reward)))
  }

  /** One settlement only appends, under the same wallets, at `height`. */
  lemma SettleExtends(c: Decoders, height: int, rec: Record, s: Store)
    ensures Extends(s, Settle(c, height, rec, s).store, height)
  {
    var o := Settle(c, height, rec, s);
    if o.response.Accepted? {
      assert s.tagRows <= o.store.tagRows;
    }
  }

  /** `txPostRoute` on `rec`, with `height` the node's current block count. */
  function Ingest(c: Decoders, height: int, rec: Record, s: Store): (o: Outcome)
    ensures o.response == Unanswered <==> Expands(c, rec) && rec.contents.Undecodable?
    ensures o.response == Unanswered ==> o.store == s
    ensures o.response.Accepted? ==> o.response.body == rec
    ensures Extends(s, o.store, height)
    decreases rec
  {
    if Expands(c, rec) then
      match rec.contents
      case Undecodable => Outcome(s, Unanswered)
      case Items(items) =>
        var mid := IngestItems(c, height, items, s);
        var o := Settle(c, height, rec, mid);
        SettleExtends(c, height, rec, mid);
        ExtendsTransitive(s, mid, o.store, height);
        o
    else
      SettleExtends(c, height, rec, s);
      Settle(c, height, rec, s)
  }

  /** The loop over bundle items: each item ingested in turn, its response discarded. */
  function IngestItems(c: Decoders, height: int, items: seq<Record>, s: Store): (t: Store)
    ensures Extends(s, t, height)
    decreases items
  {
    if |items| == 0 then s
    else
      var mid := Ingest(c, height, items[0], s).store;
      var t := IngestItems(c, height, items[1..], mid);
      ExtendsTransitive(s, mid, t, height);
      t
  }

  // ---------------------------------------------------------------------------
  // Reference reading: which records reach a ledger step, and in what order

  /** The records `rec` settles, in order: the settled records of every item, item by
      item, then `rec` itself; nothing when the bundle cannot be decoded. */
  function Settled(c: Decoders, rec: Record): seq<Record>
    decreases rec
  {
    if Expands(c, rec) then
      match rec.contents
      case Undecodable => []
      case Items(items) => SettledAll(c, items) + [rec]
    else [rec]
  }

  function SettledAll(c: Decoders, items: seq<Record>): seq<Record>
    decreases items
  {
    if |items| == 0 then [] else Settled(c, items[0]) + SettledAll(c, items[1..])
  }

  /** Settles `recs` one after another; each rejection leaves the store as it was. */
  function SettleAll(c: Decoders, height: int, recs: seq<Record>, s: Store): Store
    decreases |recs|
  {
    if |recs| == 0 then s else SettleAll(c, height, recs[1..], Settle(c, height, recs[0], s).store)
  }

  lemma {:induction false} SettleAllAppend(c: Decoders, height: int, a: seq<Record>, b: seq<Record>, s: Store)
    ensures SettleAll(c, height, a + b, s) == SettleAll(c, height, b, SettleAll(c, height, a, s))
    decreases |a|
  {
    if |a| > 0 {
      assert (a + b)[0] == a[0];
      assert (a + b)[1..] == a[1..] + b;
      SettleAllAppend(c, height, a[1..], b, Settle(c, height, a[0], s).store);
    } else {
      assert a + b == b;
    }
  }

  /** Ingestion is the settlement of `Settled(c, rec)` in order: every bundle item (and,
      recursively, its own items) reaches its ledger step before the parent, items in
      index order, and the parent is still settled after its items. */
  lemma {:induction false} IngestSettlesInOrder(c: Decoders, height: int, rec: Record, s: Store)
    ensures Ingest(c, height, rec, s).store == SettleAll(c, height, Settled(c, rec), s)
    decreases rec
  {
    if Expands(c, rec) {
      match rec.contents
      case Undecodable =>
      case Items(items) =>
        IngestItemsSettleInOrder(c, height, items, s);
        var mid := IngestItems(c, height, items, s);
        SettleAllAppend(c, height, SettledAll(c, items), [rec], s);
        assert SettleAll(c, height, [rec], mid) == Settle(c, height, rec, mid).store;
    } else {
      assert SettleAll(c, height, [rec], s) == Settle(c, height, rec, s).store;
    }
  }

  lemma {:induction false} IngestItemsSettleInOrder(c: Decoders, height: int, items: seq<Record>, s: Store)
    ensures IngestItems(c, height, items, s) == SettleAll(c, height, SettledAll(c, items), s)
    decreases items
  {
    if |items| > 0 {
      var first := Ingest(c, height, items[0], s).store;
      IngestSettlesInOrder(c, height, items[0], s);
      IngestItemsSettleInOrder(c, height, items[1..], first);
      SettleAllAppend(c, height, Settled(c, items[0]), SettledAll(c, items[1..]), s);
    }
  }

  /** A record rejected at its turn is skipped: the records before it keep their
      effects and the ones after it are settled as if it had not been there. */
  lemma RejectedRecordIsSkipped(c: Decoders, height: int, before: seq<Record>, rec: Record,
                                after: seq<Record>, s: Store)
    requires Rejected(Settle(c, height, rec, SettleAll(c, height, before, s)).response)
    ensures SettleAll(c, height, before + [rec] + after, s) == SettleAll(c, height, before + after, s)
  {
    SettleAllAppend(c, height, before + [rec], after, s);
    SettleAllAppend(c, height, before, [rec], s);
    SettleAllAppend(c, height, before, after, s);
  }

  /** Settlement only appends to the tables, keeps the set of wallets, and stamps every
      new transaction row with the same height. */
  lemma {:induction false} SettleAllAppends(c: Decoders, height: int, recs: seq<Record>, s: Store)
    ensures Extends(s, SettleAll(c, height, recs, s), height)
    decreases |recs|
  {
    if |recs| > 0 {
      var mid := Settle(c, height, recs[0], s).store;
      SettleExtends(c, height, recs[0], s);
      SettleAllAppends(c, height, recs[1..], mid);
      ExtendsTransitive(s, mid, SettleAll(c, height, recs, s), height);
    }
  }

  /** The response of an ingestion that does not fail on its own bundle is the ledger
      decision on the store its items' settlements left behind. */
  lemma IngestResponse(c: Decoders, height: int, rec: Record, s: Store)
    requires !(Expands(c, rec) && rec.contents.Undecodable?)
    ensures Ingest(c, height, rec, s)
            == Settle(c, height, rec,
                      if Expands(c, rec) then SettleAll(c, height, SettledAll(c, rec.contents.items), s) else s)
  {
    if Expands(c, rec) {
      IngestItemsSettleInOrder(c, height, rec.contents.items, s);
    }
  }

  /** A transfer's three increments move the total by the credit, and by the debits
      only when the debited key is a wallet. */
  lemma TransferTotal(w: Wallets, target: Address, owner: Address, q: int, reward: int)
    requires target in w
    ensures owner in w ==>
              Total(Increment(Increment(Increment(w, target, q), owner, -q), owner, -reward))
                == Total(w) - reward
    ensures owner !in w ==>
              Total(Increment(Increment(Increment(w, target, q), owner, -q), owner, -reward))
                == Total(w) + q
  {
    var w1 := Increment(w, target, q);
    var w2 := Increment(w1, owner, -q);
    IncrementTotal(w, target, q);
    IncrementTotal(w1, owner, -q);
    IncrementTotal(w2, owner, -reward);
    if owner in w {
      assert owner in w1 && owner in w2;
    } else {
      assert owner !in w1 && owner !in w2;
    }
  }

  /** The balance total after an accepted record. When the raw owner key is a wallet,
      the total drops by exactly the reward; when it is not, the debits are lost and an
      accepted transfer raises the total by its quantity. */
  lemma SettleTotal(c: Decoders, height: int, rec: Record, s: Store)
    requires Settle(c, height, rec, s).response.Accepted?
    ensures rec.owner in s.wallets ==>
              Total(Settle(c, height, rec, s).store.wallets) == Total(s.wallets) - rec.reward
    ensures rec.owner !in s.wallets && IsTransfer(rec) ==>
              Total(Settle(c, height, rec, s).store.wallets) == Total(s.wallets) + rec.quantity.value
    ensures rec.owner !in s.wallets && !IsTransfer(rec) ==>
              Total(Settle(c, height, rec, s).store.wallets) == Total(s.wallets)
  {
    var after := Settle(c, height, rec, s).store.wallets;
    if IsTransfer(rec) {
      SettleTransferIncrements(c, height, rec, s);
      TransferTotalAfter(s.wallets, after, rec.target, rec.owner, rec.quantity.value, rec.reward);
    } else {
      SettleRewardIncrement(c, height, rec, s);
      IncrementTotalAfter(s.wallets, after, rec.owner, -rec.reward);
    }
  }

  /** `TransferTotal` for wallets known to equal the three increments. It adds no fact of its
      own: it restates the conclusion about a named map, which keeps `SettleTotal` cheap
      for the solver. */
  lemma TransferTotalAfter(w: Wallets, after: Wallets, target: Address, owner: Address, q: int, reward: int)
    requires target in w
    requires after == Increment(Increment(Increment(w, target, q), owner, -q), owner, -reward)
    ensures owner in w ==> Total(after) == Total(w) - reward
    ensures owner !in w ==> Total(after) == Total(w) + q
  {
    TransferTotal(w, target, owner, q, reward);
  }

  /** `IncrementTotal` for wallets known to equal the increment; a solver aid like
      `TransferTotalAfter`. */
  lemma IncrementTotalAfter(w: Wallets, after: Wallets, a: Address, delta: int)
    requires after == Increment(w, a, delta)
    ensures a in w ==> Total(after) == Total(w) + delta
    ensures a !in w ==> Total(after) == Total(w)
  {
    IncrementTotal(w, a, delta);
  }

  /** The wallets after an accepted transfer are the handler's three increments, in order. */
  lemma SettleTransferIncrements(c: Decoders, height: int, rec: Record, s: Store)
    requires Settle(c, height, rec, s).response.Accepted? && IsTransfer(rec)
    ensures rec.target in s.wallets
    ensures Settle(c, height, rec, s).store.wallets
              == Increment(Increment(Increment(s.wallets, rec.target, rec.quantity.value),
                                     rec.owner, -rec.quantity.value), rec.owner, -rec.reward)
  {
  }

  /** The wallets after any other accepted record are the reward debit alone. */
  lemma SettleRewardIncrement(c: Decoders, height: int, rec: Record, s: Store)
    requires Settle(c, height, rec, s).response.Accepted? && !IsTransfer(rec)
    ensures Settle(c, height, rec, s).store.wallets == Increment(s.wallets, rec.owner, -rec.reward)
  {
  }

  /** A transfer of 30 with reward 5 from owner key `pkA`, whose address is `A` (balance
      100), to `B` (balance 0): the checks read wallet `A`, the debits address the key
      `pkA`, which names no wallet, so `A` keeps 100 while `B` gains 30. */
  lemma OwnerKeyExample()
    ensures var c := Decoders(t => t, key => if key == "pkA" then "A" else key);
            var rec := Record("tx", "pkA", "B", Some(30), 5, [], "", Items([]));
            var s := Store(map["A" := 100, "B" := 0], [], [], []);
            Settle(c, 1, rec, s).store.wallets == map["A" := 100, "B" := 30]
  {
  }

  /** The same transfer when the owner key is itself the wallet address: the sender
      ends with 65, the target with 30, and the reward of 5 leaves the total. */
  lemma OwnerAddressExample()
    ensures var c := Decoders(t => t, key => key);
            var rec := Record("tx", "A", "B", Some(30), 5, [], "", Items([]));
            var s := Store(map["A" := 100, "B" := 0], [], [], []);
            Settle(c, 1, rec, s).store.wallets == map["A" := 65, "B" := 30]
  {
  }
}

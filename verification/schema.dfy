/**
 Rows of the stores the two route handlers read and write: the `transactions`
 and `tags` tables, and the data cache keyed by transaction id.
 */
module Schema {
  import opened Common

  /** A tag as it arrives on the wire: name and value still transport-encoded. */
  datatype Tag = Tag(name: string, value: string)

  /** A row of the `transactions` table, stamped with the ledger height. */
  datatype TxRow = TxRow(id: string, owner: string, target: string,
                         quantity: Option<int>, reward: int, height: int)

  /** A row of the `tags` table: decoded name and value at position `index`. */
  datatype TagRow = TagRow(index: nat, txId: string, name: string, value: string)

  /** What `TransactionDB.getById` returns for a stored transaction. */
  datatype Metadata = Metadata(id: string, dataSize: int, dataRoot: string, tags: seq<Tag>)

  /** A data-cache document: the payload text of transaction `txid`. */
  datatype DataRow = DataRow(txid: string, data: string)

  /** Position of the first cache document for `txid`, or `|rows|` if there is none. */
  function FirstIndex(rows: seq<DataRow>, txid: string): (i: nat)
    ensures i <= |rows|
    ensures forall j :: 0 <= j < i ==> rows[j].txid != txid
    ensures i < |rows| ==> rows[i].txid == txid
  {
    if |rows| == 0 then 0
    else if rows[0].txid == txid then 0
    else 1 + FirstIndex(rows[1..], txid)
  }

  /** The cache lookup by transaction id: the earliest document inserted for it. */
  function FindOne(rows: seq<DataRow>, txid: string): (r: Option<DataRow>)
    ensures r.None? <==> forall j :: 0 <= j < |rows| ==> rows[j].txid != txid
    ensures r.Some? ==> r.value.txid == txid
    ensures r.Some? ==> r.value == rows[FirstIndex(rows, txid)]
  {
    var i := FirstIndex(rows, txid);
    if i < |rows| then Some(rows[i]) else None
  }

  /** A lookup is unaffected by documents appended after an existing match. */
  lemma FindOneStable(rows: seq<DataRow>, more: seq<DataRow>, txid: string)
    requires FindOne(rows, txid).Some?
    ensures FindOne(rows + more, txid) == FindOne(rows, txid)
  {
    assert forall j :: 0 <= j < |rows| ==> (rows + more)[j] == rows[j];
  }

  /** Appending a document for a transaction nobody cached makes it the one found. */
  lemma FindOneAfterInsert(rows: seq<DataRow>, row: DataRow)
    requires FindOne(rows, row.txid).None?
    ensures FindOne(rows + [row], row.txid) == Some(row)
  {
    assert forall j :: 0 <= j < |rows| ==> (rows + [row])[j] == rows[j];
    assert (rows + [row])[|rows|] == row;
  }
}

/** Committing a corrected batch to the ledger:
    `pd.concat([ledger, batch]).drop_duplicates()`. */
module Ledger {
  import opened Distinct
  import opened Records

  /** A committed row: its Timestamp has been through pd.to_datetime. */
  type LedgerRow = Row<DateTime>

  /** The new ledger: the batch appended after the ledger, then exact
      duplicate rows dropped, each first occurrence kept. */
  function Merge(ledger: seq<LedgerRow>, batch: seq<LedgerRow>): (r: seq<LedgerRow>)
    ensures NoDups(r)
    ensures forall x :: x in r <==> x in ledger || x in batch
    ensures forall i, j :: 0 <= i < j < |r| ==>
              FirstIndex(ledger + batch, r[i]) < FirstIndex(ledger + batch, r[j])
  {
    var r := Dedup(ledger + batch);
    assert forall x :: x in r ==> x in ledger + batch;
    assert forall x :: x in ledger + batch ==> x in r by {
      forall x | x in ledger + batch
        ensures x in r
      {
        var i :| 0 <= i < |ledger + batch| && (ledger + batch)[i] == x;
      }
    }
    r
  }

  /** The merge is exactly the first-occurrence deduplication of the
      concatenation: no other sequence has the properties of its contract. */
  lemma MergeIsFirstOccurrences(ledger: seq<LedgerRow>, batch: seq<LedgerRow>, r: seq<LedgerRow>)
    requires FirstOccurrenceOrder(ledger + batch, r)
    ensures r == Merge(ledger, batch)
  {
    DedupUnique(ledger + batch, r);
  }

  /** A duplicate-free ledger survives a merge as a prefix of the result. */
  lemma MergeKeepsLedger(ledger: seq<LedgerRow>, batch: seq<LedgerRow>)
    requires NoDups(ledger)
    ensures |ledger| <= |Merge(ledger, batch)|
    ensures Merge(ledger, batch)[..|ledger|] == ledger
  {
    DedupPrefix(ledger, batch);
    DedupOfDistinct(ledger);
  }

  /** Merging an empty batch leaves a duplicate-free ledger as it was. */
  lemma MergeEmptyBatch(ledger: seq<LedgerRow>)
    requires NoDups(ledger)
    ensures Merge(ledger, []) == ledger
  {
    assert ledger + [] == ledger;
    DedupOfDistinct(ledger);
  }

  /** Merging the same batch a second time changes nothing. */
  lemma MergeIdempotent(ledger: seq<LedgerRow>, batch: seq<LedgerRow>)
    ensures Merge(Merge(ledger, batch), batch) == Merge(ledger, batch)
  {
    var once := Merge(ledger, batch);
    DedupAbsorbs(ledger + batch, batch);
    DedupSeen(ledger + batch, batch);
    assert once + batch == Dedup(ledger + batch) + batch;
  }

  /** Two merges in a row are one merge of both batches, in order. */
  lemma MergeSequential(ledger: seq<LedgerRow>, b1: seq<LedgerRow>, b2: seq<LedgerRow>)
    ensures Merge(Merge(ledger, b1), b2) == Merge(ledger, b1 + b2)
  {
    calc {
      Merge(Merge(ledger, b1), b2);
      Dedup(Dedup(ledger + b1) + b2);
      { DedupAbsorbs(ledger + b1, b2); }
      Dedup((ledger + b1) + b2);
      { assert (ledger + b1) + b2 == ledger + (b1 + b2); }
      Merge(ledger, b1 + b2);
    }
  }

  /** A row that the ledger or the batch holds, however often, occurs in the
      merge exactly once. */
  lemma MergeOccursOnce(ledger: seq<LedgerRow>, batch: seq<LedgerRow>, x: LedgerRow)
    requires x in ledger || x in batch
    ensures multiset(Merge(ledger, batch))[x] == 1
  {
    DistinctOccursOnce(Merge(ledger, batch), x);
  }

  /** Two batches that both hold the same row leave it once in the ledger. */
  lemma SameRowTwice(ledger: seq<LedgerRow>, b1: seq<LedgerRow>, b2: seq<LedgerRow>, row: LedgerRow)
    requires row in b1 && row in b2
    ensures multiset(Merge(Merge(ledger, b1), b2))[row] == 1
  {
    MergeOccursOnce(Merge(ledger, b1), b2, row);
  }
}

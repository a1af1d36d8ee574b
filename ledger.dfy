// The bid ledger kept beside the sales: what controllers/bidController.js
// appends and services/auctionCron.js settles. The invariant ties each
// sale's counters to its bids; the settlement invariant says which bids
// are won or lost.
module AuctionLedger {
  import opened Common
  import opened SaleModel

  /** The number of bids recorded against sale `i`. */
  function CountFor(bids: seq<Bid>, i: nat): nat
  {
    if bids == [] then 0
    else CountFor(bids[..|bids| - 1], i) + (if bids[|bids| - 1].saleId == i then 1 else 0)
  }

  /** Bid `k` is the latest bid on its sale. */
  ghost predicate IsLastOf(bids: seq<Bid>, k: nat)
    requires k < |bids|
  {
    forall m :: k < m < |bids| ==> bids[m].saleId != bids[k].saleId
  }

  /** The ledger invariant:
      every bid names an existing sale and a positive amount;
      on each sale the amounts strictly increase in ledger order;
      totalBids counts the sale's bids;
      the latest bid on a sale carries its currentHighestBid and highestBidder;
      a sale without bids has currentHighestBid 0 and no highest bidder. */
  ghost predicate LedgerOk(sales: seq<Sale>, bids: seq<Bid>)
  {
    (forall k :: 0 <= k < |bids| ==> bids[k].saleId < |sales| && bids[k].amount > 0) &&
    (forall j, k :: 0 <= j < k < |bids| && bids[j].saleId == bids[k].saleId ==>
       bids[j].amount < bids[k].amount) &&
    (forall i :: 0 <= i < |sales| ==> CountFor(bids, i) == sales[i].totalBids) &&
    (forall k :: 0 <= k < |bids| && bids[k].saleId < |sales| && IsLastOf(bids, k) ==>
       sales[bids[k].saleId].currentHighestBid == bids[k].amount &&
       sales[bids[k].saleId].highestBidder == Some(bids[k].buyerId)) &&
    (forall i :: 0 <= i < |sales| && sales[i].totalBids == 0 ==>
       sales[i].currentHighestBid == 0 && sales[i].highestBidder.None?)
  }

  /** The settlement invariant: the bids on a sold sale are all lost except
      the latest one, which is won; the bids on any other sale are still
      active. */
  ghost predicate BidsSettled(sales: seq<Sale>, bids: seq<Bid>)
  {
    forall k :: 0 <= k < |bids| && bids[k].saleId < |sales| ==>
      if sales[bids[k].saleId].status == Sold then
        (bids[k].status == Won || bids[k].status == Lost) &&
        (bids[k].status == Won <==> IsLastOf(bids, k))
      else bids[k].status == BidActive
  }

  // ---------------------------------------------------------------
  // Counting

  lemma CountAppend(bids: seq<Bid>, b: Bid, i: nat)
    ensures CountFor(bids + [b], i) == CountFor(bids, i) + (if b.saleId == i then 1 else 0)
  {
    assert (bids + [b])[..|bids|] == bids;
  }

  /** Appending a bid ends the "latest" status of the earlier bids on
      the same sale only. */
  lemma LastOfAppend(bids: seq<Bid>, b: Bid, k: nat)
    requires k <= |bids|
    ensures k < |bids| ==> (IsLastOf(bids + [b], k) <==> IsLastOf(bids, k) && bids[k].saleId != b.saleId)
    ensures k == |bids| ==> IsLastOf(bids + [b], k)
  {
    var bs := bids + [b];
    if k < |bids| {
      assert bs[k] == bids[k] && bs[|bids|] == b;
      assert forall m :: k < m < |bids| ==> bs[m] == bids[m];
    }
  }

  /** A sale with no counted bids has no bids at all. */
  lemma {:induction false} CountZero(bids: seq<Bid>, i: nat)
    requires CountFor(bids, i) == 0
    ensures forall k :: 0 <= k < |bids| ==> bids[k].saleId != i
  {
    if bids != [] {
      CountZero(bids[..|bids| - 1], i);
      assert forall k :: 0 <= k < |bids| - 1 ==> bids[k] == bids[..|bids| - 1][k];
    }
  }

  /** Every bid is followed (or is itself) the latest bid on its sale. */
  lemma {:induction false} LastAfter(bids: seq<Bid>, j: nat) returns (l: nat)
    requires j < |bids|
    ensures j <= l < |bids| && bids[l].saleId == bids[j].saleId && IsLastOf(bids, l)
    decreases |bids| - j
  {
    if IsLastOf(bids, j) {
      l := j;
    } else {
      var m :| j < m < |bids| && bids[m].saleId == bids[j].saleId;
      l := LastAfter(bids, m);
    }
  }

  /** A sale with counted bids has a latest bid. */
  lemma {:induction false} LastExists(bids: seq<Bid>, i: nat) returns (l: nat)
    requires CountFor(bids, i) > 0
    ensures l < |bids| && bids[l].saleId == i && IsLastOf(bids, l)
  {
    if bids[|bids| - 1].saleId == i {
      l := |bids| - 1;
    } else {
      var j := LastExists(bids[..|bids| - 1], i);
      assert bids[j] == bids[..|bids| - 1][j];
      l := LastAfter(bids, j);
    }
  }

  /** Under the ledger invariant no bid on a sale exceeds its
      currentHighestBid, every sale's currentHighestBid is at least 0, and
      a sale with bids has one whose amount is exactly its
      currentHighestBid. */
  lemma HighestIsMax(sales: seq<Sale>, bids: seq<Bid>, i: nat)
    requires LedgerOk(sales, bids) && i < |sales|
    ensures sales[i].currentHighestBid >= 0
    ensures forall k :: 0 <= k < |bids| && bids[k].saleId == i ==> bids[k].amount <= sales[i].currentHighestBid
    ensures sales[i].totalBids > 0 ==>
              exists k :: 0 <= k < |bids| && bids[k].saleId == i && bids[k].amount == sales[i].currentHighestBid
  {
    forall k | 0 <= k < |bids| && bids[k].saleId == i
      ensures bids[k].amount <= sales[i].currentHighestBid
    {
      var l := LastAfter(bids, k);
    }
    if sales[i].totalBids > 0 {
      var l := LastExists(bids, i);
    }
  }

  /** Only the latest bid on a sale carries its currentHighestBid. */
  lemma OnlyLastIsHighest(sales: seq<Sale>, bids: seq<Bid>, k: nat)
    requires LedgerOk(sales, bids) && k < |bids|
    requires bids[k].amount == sales[bids[k].saleId].currentHighestBid
    ensures IsLastOf(bids, k)
  {
    var l := LastAfter(bids, k);
  }

  /** Two bids on the same sale cannot both be the latest. */
  lemma LastIsUnique(bids: seq<Bid>, j: nat, k: nat)
    requires j < |bids| && k < |bids| && bids[j].saleId == bids[k].saleId
    requires IsLastOf(bids, j) && IsLastOf(bids, k)
    ensures j == k
  {
  }

  /** Under the settlement invariant a sale has at most one won bid, and
      it is a highest one. */
  lemma AtMostOneWon(sales: seq<Sale>, bids: seq<Bid>, j: nat, k: nat)
    requires LedgerOk(sales, bids) && BidsSettled(sales, bids)
    requires j < |bids| && k < |bids| && bids[j].saleId == bids[k].saleId
    requires bids[j].status == Won && bids[k].status == Won
    ensures j == k
    ensures bids[k].amount == sales[bids[k].saleId].currentHighestBid
  {
    LastIsUnique(bids, j, k);
  }

  /** Two ledgers with the same keys: each bid's sale, buyer and amount,
      and each sale's counters agree. */
  ghost predicate SameKeys(sales: seq<Sale>, bids: seq<Bid>, sales': seq<Sale>, bids': seq<Bid>)
  {
    |sales'| == |sales| && |bids'| == |bids| &&
    (forall i :: 0 <= i < |sales| ==>
       sales'[i].totalBids == sales[i].totalBids &&
       sales'[i].currentHighestBid == sales[i].currentHighestBid &&
       sales'[i].highestBidder == sales[i].highestBidder) &&
    (forall k :: 0 <= k < |bids| ==>
       bids'[k].saleId == bids[k].saleId && bids'[k].buyerId == bids[k].buyerId &&
       bids'[k].amount == bids[k].amount)
  }

  lemma {:induction false} CountSameSales(bids: seq<Bid>, bids': seq<Bid>, i: nat)
    requires |bids| == |bids'| && forall k :: 0 <= k < |bids| ==> bids[k].saleId == bids'[k].saleId
    ensures CountFor(bids, i) == CountFor(bids', i)
  {
    if bids != [] {
      var n := |bids| - 1;
      assert forall k :: 0 <= k < n ==> bids[..n][k].saleId == bids'[..n][k].saleId;
      CountSameSales(bids[..n], bids'[..n], i);
    }
  }

  /** The ledger invariant reads only the keys: changing statuses, buyers'
      names or sale dates keeps it. */
  lemma LedgerKeysOnly(sales: seq<Sale>, bids: seq<Bid>, sales': seq<Sale>, bids': seq<Bid>)
    requires LedgerOk(sales, bids) && SameKeys(sales, bids, sales', bids')
    ensures LedgerOk(sales', bids')
  {
    forall i | 0 <= i < |sales'|
      ensures CountFor(bids', i) == sales'[i].totalBids
    {
      CountSameSales(bids, bids', i);
    }
    forall k | 0 <= k < |bids'|
      ensures IsLastOf(bids', k) <==> IsLastOf(bids, k)
    {
    }
    forall j, k | 0 <= j < k < |bids'| && bids'[j].saleId == bids'[k].saleId
      ensures bids'[j].amount < bids'[k].amount
    {
      assert bids[j].saleId == bids[k].saleId;
    }
  }
}

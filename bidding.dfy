// controllers/bidController.js: placing a bid on a marketplace auction
// and the two bid listings.
module Bidding {
  import opened Common
  import opened SaleModel
  import opened AuctionLedger
  import Sorting
  import Store

  /** The smallest step above the current highest bid. */
  const MinIncrement: int := 50

  datatype BidReply =
    | Placed(currentHighest: int)
    | InvalidAmount
    | ListingNotFound
    | NotStarted
    | Ended
    | NotActive
    | FirstBidTooLow(floor: int)
    | TooLow(minimum: int)
    | Raced(currentHighest: int)
    | ServerError

  /** `now < date` and `now > date` against a date the document may lack:
      a missing date compares false both ways. */
  predicate Before(now: int, d: Option<int>) { d.Some? && now < d.value }
  predicate After(now: int, d: Option<int>) { d.Some? && now > d.value }

  /** The least acceptable amount: the floor price for the first bid (none
      when the sale has no floor), otherwise the highest bid plus 50. */
  function MinValidBid(s: Sale): (r: Option<int>)
    ensures s.totalBids == 0 ==> r == s.minimumPrice
    ensures s.totalBids > 0 ==> r == Some(s.currentHighestBid + MinIncrement)
  {
    if s.totalBids == 0 then s.minimumPrice else Some(s.currentHighestBid + MinIncrement)
  }

  /** What an auction accepts, stated on its own: a positive amount, inside
      the auction window, on an active sale, at or above the least
      acceptable amount. */
  predicate Acceptable(s: Sale, amount: int, now: int)
  {
    amount > 0 && !Before(now, s.auctionStartDate) && !After(now, s.auctionEndDate) &&
    s.status == Active && (MinValidBid(s).Some? ==> amount >= MinValidBid(s).value)
  }

  /** The checks placeBid makes before writing, in order; None when the
      bid passes them all. */
  function Screen(sales: seq<Sale>, saleId: nat, amount: Option<int>, now: int): (r: Option<BidReply>)
    ensures (amount.None? || amount.value <= 0) ==> r == Some(InvalidAmount)
    ensures amount.Some? && amount.value > 0 && saleId >= |sales| ==> r == Some(ListingNotFound)
    ensures r.None? <==> amount.Some? && saleId < |sales| && Acceptable(sales[saleId], amount.value, now)
    ensures amount.Some? && saleId < |sales| && Before(now, sales[saleId].auctionStartDate) && amount.value > 0 ==>
              r == Some(NotStarted)
    ensures amount.Some? && amount.value > 0 && saleId < |sales| ==>
              var s := sales[saleId];
              r != Some(InvalidAmount) && r != Some(ListingNotFound) &&
              (!Before(now, s.auctionStartDate) && After(now, s.auctionEndDate) ==> r == Some(Ended)) &&
              (!Before(now, s.auctionStartDate) && !After(now, s.auctionEndDate) && s.status != Active ==>
                 r == Some(NotActive)) &&
              (!Before(now, s.auctionStartDate) && !After(now, s.auctionEndDate) && s.status == Active &&
               MinValidBid(s).Some? && amount.value < MinValidBid(s).value ==>
                 r == Some(if s.totalBids == 0 then FirstBidTooLow(MinValidBid(s).value)
                           else TooLow(MinValidBid(s).value)))
    ensures r.Some? && r.value.NotActive? ==> saleId < |sales| && sales[saleId].status != Active
    ensures r.Some? && (r.value.FirstBidTooLow? || r.value.TooLow?) ==>
              saleId < |sales| && amount.Some? && MinValidBid(sales[saleId]).Some? &&
              amount.value < MinValidBid(sales[saleId]).value
    ensures r.Some? ==> !r.value.Placed? && !r.value.Raced?
  {
    if amount.None? || amount.value <= 0 then Some(InvalidAmount)
    else if saleId >= |sales| then Some(ListingNotFound)
    else
      var s := sales[saleId];
      if Before(now, s.auctionStartDate) then Some(NotStarted)
      else if After(now, s.auctionEndDate) then Some(Ended)
      else if s.status != Active then Some(NotActive)
      else if s.totalBids == 0 then
        if s.minimumPrice.Some? && amount.value < s.minimumPrice.value
        then Some(FirstBidTooLow(s.minimumPrice.value)) else None
      else if amount.value < s.currentHighestBid + MinIncrement
      then Some(TooLow(s.currentHighestBid + MinIncrement))
      else None
  }

  /** The filter of the conditional update: the stored highest bid is below
      the amount and the sale is active. */
  predicate CommitApplies(s: Sale, amount: int)
  {
    s.currentHighestBid < amount && s.status == Active
  }

  /** The conditional update's effect: only the highest bid, the highest
      bidder and the bid count change. `bidder` is the caller's buyer
      claim; a caller without one sets `highestBidder: undefined`, a key
      the update drops, so the stored bidder stays. */
  function Commit(s: Sale, bidder: Option<nat>, amount: int): (r: Sale)
    ensures r.currentHighestBid == amount && r.totalBids == s.totalBids + 1
    ensures bidder.Some? ==> r.highestBidder == bidder
    ensures bidder.None? ==> r.highestBidder == s.highestBidder
    ensures r.(currentHighestBid := s.currentHighestBid, highestBidder := s.highestBidder,
               totalBids := s.totalBids) == s
  {
    s.(currentHighestBid := amount, highestBidder := if bidder.Some? then bidder else s.highestBidder,
       totalBids := s.totalBids + 1)
  }

  /** placeBid. `bidder` is the caller's `id || buyerId` claim: only a
      buyer's token carries one. The race reply is what a failed
      conditional update returns. After the update the bid is created; the
      Bid schema requires a buyer, so a caller without the claim gets a
      server error with the sale already updated and no bid stored. */
  method PlaceBid(db: Store.Db, bidder: Option<nat>, saleId: nat, amount: Option<int>, now: int)
    returns (reply: BidReply)
    modifies db`sales, db`bids
    ensures Screen(old(db.sales), saleId, amount, now).Some? ==>
              reply == Screen(old(db.sales), saleId, amount, now).value &&
              db.sales == old(db.sales) && db.bids == old(db.bids)
    ensures Screen(old(db.sales), saleId, amount, now).None? &&
            CommitApplies(old(db.sales)[saleId], amount.value) ==>
              db.sales == old(db.sales)[saleId := Commit(old(db.sales)[saleId], bidder, amount.value)] &&
              if bidder.Some? then
                reply == Placed(amount.value) &&
                db.bids == old(db.bids) + [Bid(saleId, bidder.value, amount.value, BidActive)]
              else
                reply == ServerError && db.bids == old(db.bids)
    ensures Screen(old(db.sales), saleId, amount, now).None? &&
            !CommitApplies(old(db.sales)[saleId], amount.value) ==>
              reply == Raced(old(db.sales)[saleId].currentHighestBid) &&
              db.sales == old(db.sales) && db.bids == old(db.bids)
  {
    var screened := Screen(db.sales, saleId, amount, now);
    if screened.Some? {
      return screened.value;
    }
    var s := db.sales[saleId];
    if !CommitApplies(s, amount.value) {
      return Raced(s.currentHighestBid);
    }
    db.sales := db.sales[saleId := Commit(s, bidder, amount.value)];
    if bidder.None? {
      return ServerError;
    }
    db.bids := db.bids + [Bid(saleId, bidder.value, amount.value, BidActive)];
    reply := Placed(amount.value);
  }

  // ---------------------------------------------------------------
  // Properties of a bid

  /** Under the ledger invariant a bid that passes the checks always
      passes the conditional update: in a sequential run the race reply is
      never given. */
  lemma ScreenedBidCommits(sales: seq<Sale>, bids: seq<Bid>, saleId: nat, amount: int, now: int)
    requires LedgerOk(sales, bids)
    requires Screen(sales, saleId, Some(amount), now).None?
    ensures CommitApplies(sales[saleId], amount)
  {
    HighestIsMax(sales, bids, saleId);
  }

  /** A committed bid keeps both invariants: the new bid becomes the
      sale's latest and highest, and no other sale's counters or bids
      change. */
  lemma CommitKeepsLedger(sales: seq<Sale>, bids: seq<Bid>, saleId: nat, buyer: nat, amount: int)
    requires LedgerOk(sales, bids) && BidsSettled(sales, bids)
    requires saleId < |sales| && amount > 0 && CommitApplies(sales[saleId], amount)
    ensures var sales' := sales[saleId := Commit(sales[saleId], Some(buyer), amount)];
            var bids' := bids + [Bid(saleId, buyer, amount, BidActive)];
            LedgerOk(sales', bids') && BidsSettled(sales', bids')
  {
    var sales' := sales[saleId := Commit(sales[saleId], Some(buyer), amount)];
    var nb := Bid(saleId, buyer, amount, BidActive);
    HighestIsMax(sales, bids, saleId);
    CommitKeepsOrder(sales, bids, |sales'|, nb);
    CommitKeepsCounts(sales, bids, sales'[saleId], nb);
    CommitKeepsTop(sales, bids, sales'[saleId], nb);
    CommitKeepsSettled(sales, bids, sales'[saleId], nb);
  }

  /** A bid from a caller without a buyer claim breaks the ledger
      invariant: the sale counts one more bid than the ledger holds. */
  lemma ClaimlessBidBreaksLedger(sales: seq<Sale>, bids: seq<Bid>, saleId: nat, amount: int)
    requires LedgerOk(sales, bids) && saleId < |sales|
    ensures !LedgerOk(sales[saleId := Commit(sales[saleId], None, amount)], bids)
  {
    var sales' := sales[saleId := Commit(sales[saleId], None, amount)];
    assert CountFor(bids, saleId) == sales[saleId].totalBids;
    assert sales'[saleId].totalBids == sales[saleId].totalBids + 1;
  }

  lemma CommitKeepsOrder(sales: seq<Sale>, bids: seq<Bid>, n: nat, nb: Bid)
    requires LedgerOk(sales, bids) && nb.saleId < |sales| && n == |sales|
    requires nb.amount > 0
    requires forall k :: 0 <= k < |bids| && bids[k].saleId == nb.saleId ==> bids[k].amount < nb.amount
    ensures var bids' := bids + [nb];
            (forall k :: 0 <= k < |bids'| ==> bids'[k].saleId < n && bids'[k].amount > 0) &&
            (forall j, k :: 0 <= j < k < |bids'| && bids'[j].saleId == bids'[k].saleId ==>
               bids'[j].amount < bids'[k].amount)
  {
  }

  lemma CommitKeepsCounts(sales: seq<Sale>, bids: seq<Bid>, ns: Sale, nb: Bid)
    requires LedgerOk(sales, bids) && nb.saleId < |sales|
    requires ns.totalBids == sales[nb.saleId].totalBids + 1
    ensures var sales' := sales[nb.saleId := ns];
            forall i :: 0 <= i < |sales'| ==> CountFor(bids + [nb], i) == sales'[i].totalBids
  {
    forall i | 0 <= i < |sales|
      ensures CountFor(bids + [nb], i) == sales[nb.saleId := ns][i].totalBids
    {
      CountAppend(bids, nb, i);
    }
  }

  lemma CommitKeepsTop(sales: seq<Sale>, bids: seq<Bid>, ns: Sale, nb: Bid)
    requires LedgerOk(sales, bids) && nb.saleId < |sales|
    requires ns.totalBids > 0 && ns.currentHighestBid == nb.amount
    requires ns.highestBidder == Some(nb.buyerId)
    ensures var sales', bids' := sales[nb.saleId := ns], bids + [nb];
            (forall k :: 0 <= k < |bids'| && bids'[k].saleId < |sales'| && IsLastOf(bids', k) ==>
               sales'[bids'[k].saleId].currentHighestBid == bids'[k].amount &&
               sales'[bids'[k].saleId].highestBidder == Some(bids'[k].buyerId)) &&
            (forall i :: 0 <= i < |sales'| && sales'[i].totalBids == 0 ==>
               sales'[i].currentHighestBid == 0 && sales'[i].highestBidder.None?)
  {
    var sales', bids' := sales[nb.saleId := ns], bids + [nb];
    forall k | 0 <= k < |bids'| && bids'[k].saleId < |sales'| && IsLastOf(bids', k)
      ensures sales'[bids'[k].saleId].currentHighestBid == bids'[k].amount
      ensures sales'[bids'[k].saleId].highestBidder == Some(bids'[k].buyerId)
    {
      LastOfAppend(bids, nb, k);
      if k < |bids| {
        assert bids'[k] == bids[k];
      }
    }
  }

  lemma CommitKeepsSettled(sales: seq<Sale>, bids: seq<Bid>, ns: Sale, nb: Bid)
    requires BidsSettled(sales, bids) && nb.saleId < |sales|
    requires sales[nb.saleId].status != Sold && ns.status != Sold
    requires nb.status == BidActive
    ensures BidsSettled(sales[nb.saleId := ns], bids + [nb])
  {
    var sales', bids' := sales[nb.saleId := ns], bids + [nb];
    forall k | 0 <= k < |bids'| && bids'[k].saleId < |sales'|
      ensures if sales'[bids'[k].saleId].status == Sold then
                (bids'[k].status == Won || bids'[k].status == Lost) &&
                (bids'[k].status == Won <==> IsLastOf(bids', k))
              else bids'[k].status == BidActive
    {
      LastOfAppend(bids, nb, k);
      if k < |bids| {
        assert bids'[k] == bids[k];
      }
    }
  }

  /** Once the auction has started, a bid placed after its end is refused
      as ended whatever the sale's status and amount: the date checks come
      before the status check. */
  lemma EndedBeatsActive(s: Sale, amount: int, now: int)
    requires amount > 0 && !Before(now, s.auctionStartDate) && After(now, s.auctionEndDate)
    ensures Screen([s], 0, Some(amount), now) == Some(Ended)
  {
  }

  // ---------------------------------------------------------------
  // Listings

  function OfSale(i: nat): Bid -> bool { (b: Bid) => b.saleId == i }
  function OfBuyer(u: nat): Bid -> bool { (b: Bid) => b.buyerId == u }

  /** `.sort({ amount: -1 })`: higher amounts first. */
  function HigherFirst(): (Bid, Bid) -> bool { (a: Bid, b: Bid) => a.amount >= b.amount }

  lemma HigherFirstIsOrder()
    ensures Sorting.Total(HigherFirst()) && Sorting.Transitive(HigherFirst())
  {
  }

  /** getBidsForSale: exactly the sale's bids, highest first. */
  function BidsForSale(bids: seq<Bid>, saleId: nat): (r: seq<Bid>)
    ensures forall b :: b in r <==> b in bids && b.saleId == saleId
    ensures multiset(r) == multiset(Sorting.Filter(bids, OfSale(saleId)))
    ensures forall j, k :: 0 <= j < k < |r| ==> r[j].amount >= r[k].amount
  {
    HigherFirstIsOrder();
    Sorting.Sort(Sorting.Filter(bids, OfSale(saleId)), HigherFirst())
  }

  /** getMyBids: exactly the buyer's bids, highest first. */
  function MyBids(bids: seq<Bid>, buyer: nat): (r: seq<Bid>)
    ensures forall b :: b in r <==> b in bids && b.buyerId == buyer
    ensures multiset(r) == multiset(Sorting.Filter(bids, OfBuyer(buyer)))
    ensures forall j, k :: 0 <= j < k < |r| ==> r[j].amount >= r[k].amount
  {
    HigherFirstIsOrder();
    Sorting.Sort(Sorting.Filter(bids, OfBuyer(buyer)), HigherFirst())
  }
}

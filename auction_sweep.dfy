// services/auctionCron.js: the periodic sweep that settles finished
// marketplace auctions and opens the ones whose start time has come.
module AuctionSweep {
  import opened Common
  import opened SaleModel
  import Out = CropOutputModel
  import opened AuctionLedger
  import Store

  /** The three collections the sweep reads and writes. */
  datatype Market = Market(sales: seq<Sale>, bids: seq<Bid>, outputs: seq<Out.CropOutput>)

  /** The closing query: an active marketplace sale whose end has passed.
      A sale without an end date never matches. */
  predicate Expired(s: Sale, now: int)
  {
    s.saleType == Marketplace && s.status == Active &&
    s.auctionEndDate.Some? && s.auctionEndDate.value < now
  }

  /** The activation query: a pending sale whose start has come. */
  predicate Due(s: Sale, now: int)
  {
    s.status == Pending && s.auctionStartDate.Some? && s.auctionStartDate.value <= now
  }

  /** A closed sale: sold to the highest bidder when it has bids, unsold
      otherwise. */
  function Closed(s: Sale, now: int): (r: Sale)
    ensures s.totalBids > 0 ==>
              r.status == Sold && r.soldTo == s.highestBidder && r.soldToModel == Some(Buyer) &&
              r.soldDate == Some(now) && r.finalPrice == Some(s.currentHighestBid)
    ensures s.totalBids == 0 ==> r == s.(status := Unsold)
    ensures r.(status := s.status, soldTo := s.soldTo, soldToModel := s.soldToModel,
               soldDate := s.soldDate, finalPrice := s.finalPrice) == s
  {
    if s.totalBids > 0 then
      s.(status := Sold, soldTo := s.highestBidder, soldToModel := Some(Buyer),
         soldDate := Some(now), finalPrice := Some(s.currentHighestBid))
    else s.(status := Unsold)
  }

  /** `Bid.updateMany({ saleId }, { status: "lost" })` */
  function LoseAll(bids: seq<Bid>, i: nat): (r: seq<Bid>)
    ensures |r| == |bids|
    ensures forall k :: 0 <= k < |r| ==>
              r[k] == if bids[k].saleId == i then bids[k].(status := Lost) else bids[k]
  {
    seq(|bids|, k requires 0 <= k < |bids| =>
      if bids[k].saleId == i then bids[k].(status := Lost) else bids[k])
  }

  /** The winning bid's filter: the sale, the highest bidder and the
      highest amount. */
  predicate Matches(b: Bid, i: nat, bidder: Option<nat>, amount: int)
  {
    b.saleId == i && bidder == Some(b.buyerId) && b.amount == amount
  }

  /** `Bid.findOneAndUpdate(filter, { status: "won" })`: the first bid in
      ledger order that matches becomes won. */
  function MarkWinner(bids: seq<Bid>, i: nat, bidder: Option<nat>, amount: int): (r: seq<Bid>)
    ensures |r| == |bids|
    ensures forall k :: 0 <= k < |r| ==>
              r[k] == if Matches(bids[k], i, bidder, amount) &&
                         (forall j :: 0 <= j < k ==> !Matches(bids[j], i, bidder, amount))
                      then bids[k].(status := Won) else bids[k]
  {
    if bids == [] then []
    else if Matches(bids[0], i, bidder, amount) then [bids[0].(status := Won)] + bids[1..]
    else
      var rest := MarkWinner(bids[1..], i, bidder, amount);
      var r := [bids[0]] + rest;
      assert forall k :: 1 <= k < |r| ==> r[k] == rest[k - 1] && bids[k] == bids[1..][k - 1];
      r
  }

  /** `CropOutput.findByIdAndUpdate(id, { status: "sold" })`; a missing
      output is left alone. */
  function MarkOutputSold(outputs: seq<Out.CropOutput>, id: nat): (r: seq<Out.CropOutput>)
    ensures |r| == |outputs|
    ensures id < |outputs| ==> r == outputs[id := outputs[id].(status := Out.Sold)]
    ensures id >= |outputs| ==> r == outputs
  {
    if id < |outputs| then outputs[id := outputs[id].(status := Out.Sold)] else outputs
  }

  /** The release of an unsold lot: marketplace, available, no sale link. */
  function ReleaseOutput(outputs: seq<Out.CropOutput>, id: nat): (r: seq<Out.CropOutput>)
    ensures |r| == |outputs|
    ensures id < |outputs| ==>
              r == outputs[id := outputs[id].(status := Out.Available, saleId := None)]
    ensures id >= |outputs| ==> r == outputs
  {
    if id < |outputs| then
      outputs[id := outputs[id].(status := Out.Available, saleId := None)]
    else outputs
  }

  /** One iteration of the closing loop, on sale `i`. */
  function CloseOne(m: Market, i: nat, now: int): (r: Market)
    requires i < |m.sales|
    ensures |r.sales| == |m.sales| && |r.bids| == |m.bids| && |r.outputs| == |m.outputs|
  {
    var s := m.sales[i];
    if !Expired(s, now) then m
    else if s.totalBids > 0 then
      Market(m.sales[i := Closed(s, now)],
             MarkWinner(LoseAll(m.bids, i), i, s.highestBidder, s.currentHighestBid),
             MarkOutputSold(m.outputs, s.cropOutputId))
    else
      Market(m.sales[i := Closed(s, now)], m.bids, ReleaseOutput(m.outputs, s.cropOutputId))
  }

  /** The closing loop after its first `k` sales. */
  function CloseUpTo(m: Market, now: int, k: nat): (r: Market)
    requires k <= |m.sales|
    ensures |r.sales| == |m.sales| && |r.bids| == |m.bids| && |r.outputs| == |m.outputs|
  {
    if k == 0 then m else CloseOne(CloseUpTo(m, now, k - 1), k - 1, now)
  }

  /** `Sale.updateMany({ status: "pending", auctionStartDate: { $lte: now } },
      { status: "active" })` */
  function ActivateAll(sales: seq<Sale>, now: int): (r: seq<Sale>)
    ensures |r| == |sales|
    ensures forall i :: 0 <= i < |r| ==>
              r[i] == if Due(sales[i], now) then sales[i].(status := Active) else sales[i]
  {
    seq(|sales|, i requires 0 <= i < |sales| =>
      if Due(sales[i], now) then sales[i].(status := Active) else sales[i])
  }

  /** One run of the sweep: the closing pass, then the activation pass. */
  function Sweep(m: Market, now: int): Market
  {
    var c := CloseUpTo(m, now, |m.sales|);
    c.(sales := ActivateAll(c.sales, now))
  }

  /** checkAuctionStatus, with the clock as a parameter. */
  method CheckAuctionStatus(db: Store.Db, now: int)
    modifies db`sales, db`bids, db`outputs
    ensures Market(db.sales, db.bids, db.outputs) ==
            Sweep(Market(old(db.sales), old(db.bids), old(db.outputs)), now)
  {
    ghost var m0 := Market(db.sales, db.bids, db.outputs);
    var i := 0;
    while i < |db.sales|
      invariant 0 <= i <= |m0.sales| == |db.sales|
      invariant Market(db.sales, db.bids, db.outputs) == CloseUpTo(m0, now, i)
    {
      ghost var before := Market(db.sales, db.bids, db.outputs);
      var s := db.sales[i];
      if Expired(s, now) {
        db.sales := db.sales[i := Closed(s, now)];
        if s.totalBids > 0 {
          db.outputs := MarkOutputSold(db.outputs, s.cropOutputId);
          db.bids := LoseAll(db.bids, i);
          db.bids := MarkWinner(db.bids, i, s.highestBidder, s.currentHighestBid);
        } else {
          db.outputs := ReleaseOutput(db.outputs, s.cropOutputId);
        }
      }
      assert Market(db.sales, db.bids, db.outputs) == CloseOne(before, i, now);
      i := i + 1;
    }
    db.sales := ActivateAll(db.sales, now);
  }

  // ---------------------------------------------------------------
  // What one run does to each sale

  /** The closing pass changes exactly the expired sales among those it
      has visited. */
  lemma {:induction false} CloseUpToSales(m: Market, now: int, k: nat)
    requires k <= |m.sales|
    ensures forall i :: 0 <= i < |m.sales| ==>
              CloseUpTo(m, now, k).sales[i] ==
                if i < k && Expired(m.sales[i], now) then Closed(m.sales[i], now) else m.sales[i]
  {
    if k > 0 {
      CloseUpToSales(m, now, k - 1);
    }
  }

  /** After one run: an expired sale is closed (sold or unsold), a due
      pending sale is active, and every other sale is as it was. */
  lemma SweepSale(m: Market, now: int, i: nat)
    requires i < |m.sales|
    ensures Sweep(m, now).sales[i] ==
              if Expired(m.sales[i], now) then Closed(m.sales[i], now)
              else if Due(m.sales[i], now) then m.sales[i].(status := Active)
              else m.sales[i]
  {
    CloseUpToSales(m, now, |m.sales|);
  }

  /** Sales in a status other than active or pending are never touched,
      and a sale the run activates stays active even when its end has
      already passed: it is closed by a later run, not this one. */
  lemma SweepLeavesOthers(m: Market, now: int, i: nat)
    requires i < |m.sales|
    ensures m.sales[i].status != Active && m.sales[i].status != Pending ==>
              Sweep(m, now).sales[i] == m.sales[i]
    ensures Due(m.sales[i], now) ==> Sweep(m, now).sales[i].status == Active
  {
    SweepSale(m, now, i);
  }

  // ---------------------------------------------------------------
  // What one run does to the bids

  /** The status a bid has after the closing pass has visited its sale. */
  ghost function Settled(m: Market, now: int, k: nat, b: nat): Bid
    requires b < |m.bids|
  {
    var i := m.bids[b].saleId;
    if i < k && i < |m.sales| && Expired(m.sales[i], now) && m.sales[i].totalBids > 0
    then m.bids[b].(status := if IsLastOf(m.bids, b) then Won else Lost)
    else m.bids[b]
  }

  /** On sale `i`, the bid the winner filter matches is exactly its
      latest bid. */
  ghost predicate WinnerIsLast(sales: seq<Sale>, bids: seq<Bid>, i: nat)
    requires i < |sales|
  {
    forall b :: 0 <= b < |bids| && bids[b].saleId == i ==>
      (Matches(bids[b], i, sales[i].highestBidder, sales[i].currentHighestBid) <==> IsLastOf(bids, b))
  }

  /** The ledger invariant makes the winner filter pick the latest bid. */
  lemma LedgerWinner(sales: seq<Sale>, bids: seq<Bid>, i: nat)
    requires LedgerOk(sales, bids) && i < |sales|
    ensures WinnerIsLast(sales, bids, i)
  {
    forall b | 0 <= b < |bids| && bids[b].saleId == i &&
               Matches(bids[b], i, sales[i].highestBidder, sales[i].currentHighestBid)
      ensures IsLastOf(bids, b)
    {
      OnlyLastIsHighest(sales, bids, b);
    }
  }

  /** Settling sale `i`: its bids become lost except its latest, which
      becomes won; other sales' bids do not change. */
  lemma SettleOneSale(sales: seq<Sale>, bids: seq<Bid>, cur: seq<Bid>, i: nat)
    requires i < |sales| && WinnerIsLast(sales, bids, i)
    requires |cur| == |bids|
    requires forall b :: 0 <= b < |cur| ==>
               cur[b].saleId == bids[b].saleId && cur[b].buyerId == bids[b].buyerId &&
               cur[b].amount == bids[b].amount
    requires forall b :: 0 <= b < |cur| && bids[b].saleId == i ==> cur[b] == bids[b]
    ensures var r := MarkWinner(LoseAll(cur, i), i, sales[i].highestBidder, sales[i].currentHighestBid);
            forall b :: 0 <= b < |r| ==>
              r[b] == if bids[b].saleId == i
                      then bids[b].(status := if IsLastOf(bids, b) then Won else Lost)
                      else cur[b]
  {
    var hb, top := sales[i].highestBidder, sales[i].currentHighestBid;
    var lost := LoseAll(cur, i);
    forall b | 0 <= b < |lost| && Matches(lost[b], i, hb, top)
      ensures IsLastOf(bids, b)
    {
      assert Matches(bids[b], i, hb, top);
    }
    forall b | 0 <= b < |lost| && bids[b].saleId == i && IsLastOf(bids, b)
      ensures Matches(lost[b], i, hb, top)
      ensures forall j :: 0 <= j < b ==> !Matches(lost[j], i, hb, top)
    {
      forall j | 0 <= j < b ensures !Matches(lost[j], i, hb, top) {
        assert bids[j].saleId == i ==> !IsLastOf(bids, j);
      }
    }
  }

  /** The closing pass settles the bids of every expired sale it has
      visited, and no others. */
  lemma {:induction false} CloseUpToBids(m: Market, now: int, k: nat)
    requires k <= |m.sales| && forall i :: 0 <= i < k ==> WinnerIsLast(m.sales, m.bids, i)
    ensures forall b :: 0 <= b < |m.bids| ==> CloseUpTo(m, now, k).bids[b] == Settled(m, now, k, b)
  {
    if k > 0 {
      CloseUpToBids(m, now, k - 1);
      CloseUpToSales(m, now, k - 1);
      CloseStepBids(m, now, k, CloseUpTo(m, now, k - 1));
    }
  }

  /** One step of the closing pass on the bids: visiting sale `k - 1`
      settles its bids on top of those already settled. */
  lemma CloseStepBids(m: Market, now: int, k: nat, c: Market)
    requires 0 < k <= |m.sales| && WinnerIsLast(m.sales, m.bids, k - 1)
    requires |c.sales| == |m.sales| && |c.bids| == |m.bids| && c.sales[k - 1] == m.sales[k - 1]
    requires forall b :: 0 <= b < |m.bids| ==> c.bids[b] == Settled(m, now, k - 1, b)
    ensures forall b :: 0 <= b < |m.bids| ==> CloseOne(c, k - 1, now).bids[b] == Settled(m, now, k, b)
  {
    var s := m.sales[k - 1];
    if Expired(s, now) && s.totalBids > 0 {
      SettledShape(m, now, k, c.bids);
      SettleOneSale(m.sales, m.bids, c.bids, k - 1);
    }
    SettledStep(m, now, k, c);
  }

  /** The bookkeeping of one step once sale `k - 1`'s bids are settled. */
  lemma SettledStep(m: Market, now: int, k: nat, c: Market)
    requires 0 < k <= |m.sales|
    requires |c.sales| == |m.sales| && |c.bids| == |m.bids| && c.sales[k - 1] == m.sales[k - 1]
    requires forall b :: 0 <= b < |m.bids| ==> c.bids[b] == Settled(m, now, k - 1, b)
    requires var s := m.sales[k - 1];
             Expired(s, now) && s.totalBids > 0 ==>
               var r := MarkWinner(LoseAll(c.bids, k - 1), k - 1, s.highestBidder, s.currentHighestBid);
               forall b :: 0 <= b < |r| ==>
                 r[b] == if m.bids[b].saleId == k - 1
                         then m.bids[b].(status := if IsLastOf(m.bids, b) then Won else Lost)
                         else c.bids[b]
    ensures forall b :: 0 <= b < |m.bids| ==> CloseOne(c, k - 1, now).bids[b] == Settled(m, now, k, b)
  {
    var s := m.sales[k - 1];
    var r := CloseOne(c, k - 1, now);
    SettledNext(m, now, k);
    if Expired(s, now) && s.totalBids > 0 {
      assert r.bids == MarkWinner(LoseAll(c.bids, k - 1), k - 1, s.highestBidder, s.currentHighestBid);
    } else {
      assert r.bids == c.bids;
    }
  }

  /** Settling one more sale changes only that sale's bids. */
  lemma SettledNext(m: Market, now: int, k: nat)
    requires 0 < k <= |m.sales|
    ensures forall b :: 0 <= b < |m.bids| ==>
              Settled(m, now, k, b) ==
                if m.bids[b].saleId == k - 1 && Expired(m.sales[k - 1], now) && m.sales[k - 1].totalBids > 0
                then m.bids[b].(status := if IsLastOf(m.bids, b) then Won else Lost)
                else Settled(m, now, k - 1, b)
  {
  }

  /** Bids settled up to sale `k - 1` keep their sale, buyer and amount,
      and those of sale `k - 1` are untouched. */
  lemma SettledShape(m: Market, now: int, k: nat, cur: seq<Bid>)
    requires 0 < k <= |m.sales| && |cur| == |m.bids|
    requires forall b :: 0 <= b < |m.bids| ==> cur[b] == Settled(m, now, k - 1, b)
    ensures forall b :: 0 <= b < |cur| ==>
              cur[b].saleId == m.bids[b].saleId && cur[b].buyerId == m.bids[b].buyerId &&
              cur[b].amount == m.bids[b].amount
    ensures forall b :: 0 <= b < |cur| && m.bids[b].saleId == k - 1 ==> cur[b] == m.bids[b]
  {
  }

  /** After one run, on an expired sale with bids every bid is lost except
      the latest, which is won; all other bids are as they were. */
  lemma SweepBid(m: Market, now: int, b: nat)
    requires LedgerOk(m.sales, m.bids) && b < |m.bids|
    ensures var i := m.bids[b].saleId;
            Sweep(m, now).bids[b] ==
              if Expired(m.sales[i], now) && m.sales[i].totalBids > 0
              then m.bids[b].(status := if IsLastOf(m.bids, b) then Won else Lost)
              else m.bids[b]
  {
    forall i | 0 <= i < |m.sales| ensures WinnerIsLast(m.sales, m.bids, i) {
      LedgerWinner(m.sales, m.bids, i);
    }
    CloseUpToBids(m, now, |m.sales|);
  }

  // ---------------------------------------------------------------
  // What one run does to the crop outputs

  /** The lot of a closed sale: sold when the sale had bids, otherwise
      released back to the marketplace without a sale link. */
  function OutputAfterClose(o: Out.CropOutput, s: Sale): (r: Out.CropOutput)
    ensures s.totalBids > 0 ==> r == o.(status := Out.Sold)
    ensures s.totalBids == 0 ==> r.status == Out.Available && r.saleId.None?
  {
    if s.totalBids > 0 then o.(status := Out.Sold)
    else o.(status := Out.Available, saleId := None)
  }

  /** One of the first `k` sales is expired and lists output `o`. */
  ghost predicate ClosesOutput(sales: seq<Sale>, now: int, k: nat, o: nat)
    requires k <= |sales|
  {
    exists i :: 0 <= i < k && Expired(sales[i], now) && sales[i].cropOutputId == o
  }

  lemma {:induction false} CloseUpToOutputs(m: Market, now: int, k: nat)
    requires OneSalePerOutput(m.sales) && k <= |m.sales|
    ensures var c := CloseUpTo(m, now, k);
            (forall i :: 0 <= i < k && Expired(m.sales[i], now) && m.sales[i].cropOutputId < |m.outputs| ==>
               c.outputs[m.sales[i].cropOutputId] == OutputAfterClose(m.outputs[m.sales[i].cropOutputId], m.sales[i])) &&
            (forall o :: 0 <= o < |m.outputs| && !ClosesOutput(m.sales, now, k, o) ==>
               c.outputs[o] == m.outputs[o])
  {
    if k > 0 {
      CloseUpToOutputs(m, now, k - 1);
      CloseUpToSales(m, now, k - 1);
      CloseStepOutputs(m, now, k, CloseUpTo(m, now, k - 1));
    }
  }

  /** One step of the closing pass on the lots: visiting sale `k - 1`
      changes at most its own lot, which no earlier sale lists. */
  lemma CloseStepOutputs(m: Market, now: int, k: nat, c: Market)
    requires OneSalePerOutput(m.sales) && 0 < k <= |m.sales|
    requires |c.sales| == |m.sales| && |c.outputs| == |m.outputs| && c.sales[k - 1] == m.sales[k - 1]
    requires forall i :: 0 <= i < k - 1 && Expired(m.sales[i], now) && m.sales[i].cropOutputId < |m.outputs| ==>
               c.outputs[m.sales[i].cropOutputId] == OutputAfterClose(m.outputs[m.sales[i].cropOutputId], m.sales[i])
    requires forall o :: 0 <= o < |m.outputs| && !ClosesOutput(m.sales, now, k - 1, o) ==>
               c.outputs[o] == m.outputs[o]
    ensures var r := CloseOne(c, k - 1, now);
            (forall i :: 0 <= i < k && Expired(m.sales[i], now) && m.sales[i].cropOutputId < |m.outputs| ==>
               r.outputs[m.sales[i].cropOutputId] == OutputAfterClose(m.outputs[m.sales[i].cropOutputId], m.sales[i])) &&
            (forall o :: 0 <= o < |m.outputs| && !ClosesOutput(m.sales, now, k, o) ==>
               r.outputs[o] == m.outputs[o])
  {
    var s := m.sales[k - 1];
    var id := s.cropOutputId;
    var r := CloseOne(c, k - 1, now);
    if Expired(s, now) && id < |m.outputs| {
      assert !ClosesOutput(m.sales, now, k - 1, id);
      assert r.outputs == c.outputs[id := OutputAfterClose(c.outputs[id], s)];
      forall o | 0 <= o < |m.outputs| && !ClosesOutput(m.sales, now, k, o)
        ensures !ClosesOutput(m.sales, now, k - 1, o) && o != id
      {
      }
    } else {
      assert r.outputs == c.outputs;
      forall o | 0 <= o < |m.outputs| && !ClosesOutput(m.sales, now, k, o)
        ensures !ClosesOutput(m.sales, now, k - 1, o)
      {
      }
    }
  }

  /** After one run the lot of every expired sale is sold or released, and
      a lot no expired sale refers to is as it was. */
  lemma SweepOutputs(m: Market, now: int)
    requires OneSalePerOutput(m.sales)
    ensures var r := Sweep(m, now);
            (forall i :: 0 <= i < |m.sales| && Expired(m.sales[i], now) && m.sales[i].cropOutputId < |m.outputs| ==>
               r.outputs[m.sales[i].cropOutputId] == OutputAfterClose(m.outputs[m.sales[i].cropOutputId], m.sales[i])) &&
            (forall o :: 0 <= o < |m.outputs| && !ClosesOutput(m.sales, now, |m.sales|, o) ==>
               r.outputs[o] == m.outputs[o])
  {
    CloseUpToOutputs(m, now, |m.sales|);
  }

  // ---------------------------------------------------------------
  // The invariants survive a run

  /** A run changes only statuses and sale outcomes, never the keys the
      ledger invariant reads. */
  lemma SweepKeepsKeys(m: Market, now: int)
    requires LedgerOk(m.sales, m.bids)
    ensures SameKeys(m.sales, m.bids, Sweep(m, now).sales, Sweep(m, now).bids)
  {
    var r := Sweep(m, now);
    forall i | 0 <= i < |m.sales|
      ensures r.sales[i].totalBids == m.sales[i].totalBids
      ensures r.sales[i].currentHighestBid == m.sales[i].currentHighestBid
      ensures r.sales[i].highestBidder == m.sales[i].highestBidder
    {
      SweepSale(m, now, i);
    }
    forall b | 0 <= b < |m.bids|
      ensures r.bids[b].saleId == m.bids[b].saleId && r.bids[b].buyerId == m.bids[b].buyerId
      ensures r.bids[b].amount == m.bids[b].amount
    {
      SweepBid(m, now, b);
    }
  }

  /** The ledger invariant holds after a run. */
  lemma SweepKeepsLedger(m: Market, now: int)
    requires LedgerOk(m.sales, m.bids)
    ensures LedgerOk(Sweep(m, now).sales, Sweep(m, now).bids)
  {
    SweepKeepsKeys(m, now);
    LedgerKeysOnly(m.sales, m.bids, Sweep(m, now).sales, Sweep(m, now).bids);
  }

  /** A run settles each sale it sells, and leaves every other sale's bids
      as they were: the settlement invariant holds afterwards. */
  lemma SweepKeepsSettled(m: Market, now: int)
    requires LedgerOk(m.sales, m.bids) && BidsSettled(m.sales, m.bids)
    ensures BidsSettled(Sweep(m, now).sales, Sweep(m, now).bids)
  {
    var r := Sweep(m, now);
    SweepKeepsKeys(m, now);
    forall b | 0 <= b < |r.bids| && r.bids[b].saleId < |r.sales|
      ensures if r.sales[r.bids[b].saleId].status == Sold then
                (r.bids[b].status == Won || r.bids[b].status == Lost) &&
                (r.bids[b].status == Won <==> IsLastOf(r.bids, b))
              else r.bids[b].status == BidActive
    {
      SweepBid(m, now, b);
      SweepSale(m, now, m.bids[b].saleId);
      assert IsLastOf(r.bids, b) <==> IsLastOf(m.bids, b);
    }
  }

  // ---------------------------------------------------------------
  // Running twice

  /** No sale is both due to open and already past its end. */
  predicate NoLateStart(sales: seq<Sale>, now: int)
  {
    forall i :: 0 <= i < |sales| ==>
      !(Due(sales[i], now) && sales[i].saleType == Marketplace &&
        sales[i].auctionEndDate.Some? && sales[i].auctionEndDate.value < now)
  }

  lemma {:induction false} CloseNothing(m: Market, now: int, k: nat)
    requires k <= |m.sales|
    requires forall i :: 0 <= i < |m.sales| ==> !Expired(m.sales[i], now)
    ensures CloseUpTo(m, now, k) == m
  {
    if k > 0 {
      CloseNothing(m, now, k - 1);
    }
  }

  /** A second run with the same clock changes nothing, provided no sale
      was due to open after its own end. */
  lemma SweepIdempotent(m: Market, now: int)
    requires NoLateStart(m.sales, now)
    ensures Sweep(Sweep(m, now), now) == Sweep(m, now)
  {
    var r := Sweep(m, now);
    forall i | 0 <= i < |r.sales|
      ensures !Expired(r.sales[i], now) && !Due(r.sales[i], now)
    {
      SweepSale(m, now, i);
    }
    CloseNothing(r, now, |r.sales|);
    assert ActivateAll(r.sales, now) == r.sales;
  }

  /** Without that proviso the sweep is not idempotent: a marketplace sale
      opened by one run after its end is closed by the next run with the
      same clock. */
  lemma SweepNotIdempotent(s: Sale, now: int)
    requires Due(s, now) && s.saleType == Marketplace
    requires s.auctionEndDate.Some? && s.auctionEndDate.value < now
    ensures var m := Market([s], [], []);
            Sweep(m, now).sales[0].status == Active &&
            Sweep(Sweep(m, now), now).sales[0].status != Active
  {
    var m := Market([s], [], []);
    SweepSale(m, now, 0);
    SweepSale(Sweep(m, now), now, 0);
  }
}

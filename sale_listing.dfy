// controllers/saleController.js: a farmer lists a harvested lot on the
// marketplace or offers it to the government at the minimum support
// price, cancels a listing, or changes a marketplace floor price.
module SaleListing {
  import opened Common
  import opened SaleModel
  import opened AuctionLedger
  import Q = QualityModel
  import Out = CropOutputModel
  import FarmModel
  import MspModel
  import Store

  datatype ListReply =
    | Listed(saleId: nat)
    | InvalidPrice
    | OutputNotFound
    | AlreadyListed
    | NotListable
    | NoMsp
    | MspNotFound
    | ServerError

  // ---------------------------------------------------------------
  // Eligibility

  /** `!minimumPrice || minimumPrice <= 0` rejects the price. */
  predicate ValidPrice(price: Option<int>)
  {
    price.Some? && price.value > 0
  }

  /** `CropOutput.findOne({ _id, farmerId })` */
  predicate OwnsOutput(outputs: seq<Out.CropOutput>, farmer: nat, id: nat)
  {
    id < |outputs| && outputs[id].farmerId == farmer
  }

  /** A sale of the lot that is active or awaiting government approval. */
  predicate OpenSaleOf(sales: seq<Sale>, id: nat)
  {
    exists i :: 0 <= i < |sales| && sales[i].cropOutputId == id &&
      (sales[i].status == Active || sales[i].status == PendingGovtApproval)
  }

  /** Any sale of the lot at all: the unique index on cropOutputId refuses
      a second one whatever its status. */
  predicate AnySaleOf(sales: seq<Sale>, id: nat)
  {
    exists i :: 0 <= i < |sales| && sales[i].cropOutputId == id
  }

  /** Only available, quality-approved and quality-rejected lots can be
      listed. */
  predicate Listable(o: Out.CropOutput)
  {
    o.status == Out.Available || o.status == Out.QualityApproved || o.status == Out.QualityRejected
  }

  /** The populated crop and field references resolve; `cropId._id` and
      `fieldId._id` on a reference that did not resolve throw. */
  predicate LinksResolve(o: Out.CropOutput, cropMasters: seq<FarmModel.CropMaster>, fields: seq<FarmModel.Field>)
  {
    o.cropId < |cropMasters| && o.fieldId < |fields|
  }

  /** The certificate a listing carries: present, with the request's grade,
      exactly when the lot is quality-approved and its request approved. */
  function Certificate(o: Out.CropOutput, requests: seq<Q.QualityRequest>): (r: (bool, Option<Q.Grade>))
    ensures r.0 <==> o.status == Out.QualityApproved && o.qualityRequestId.Some? &&
                     o.qualityRequestId.value < |requests| &&
                     requests[o.qualityRequestId.value].status == Q.Approved
    ensures r.0 ==> r.1 == requests[o.qualityRequestId.value].grade
    ensures !r.0 ==> r.1.None?
  {
    if o.qualityRequestId.Some? && o.status == Out.QualityApproved &&
       o.qualityRequestId.value < |requests| && requests[o.qualityRequestId.value].status == Q.Approved
    then (true, requests[o.qualityRequestId.value].grade)
    else (false, None)
  }

  /** The sale document both listing paths build from the lot. */
  function SaleOf(o: Out.CropOutput, farmer: nat, id: nat, saleType: SaleType,
                  minimumPrice: Option<int>, mspPrice: Option<int>,
                  cert: (bool, Option<Q.Grade>), status: SaleStatus): Sale
  {
    Sale(farmer, id, o.cropId, o.fieldId, saleType, o.quantity, o.unit, minimumPrice, mspPrice,
         cert.0, o.qualityRequestId, cert.1, status, None, None, 0, None, 0, None,
         None, None, None, None, o.harvestDate, o.storageLocation)
  }

  /** A listed lot: listed for sale and linked to its sale. */
  function ListedOutput(o: Out.CropOutput, saleId: nat): (r: Out.CropOutput)
    ensures r.status == Out.ListedForSale && r.saleId == Some(saleId)
    ensures r.(status := o.status, saleId := o.saleId) == o
  {
    o.(status := Out.ListedForSale, saleId := Some(saleId))
  }

  /** The checks both listing paths share, after the price check: the
      owner's lot, no open sale of it, a listable status. */
  function CommonRefusal(sales: seq<Sale>, outputs: seq<Out.CropOutput>, farmer: nat, id: nat): (r: Option<ListReply>)
    ensures r.None? <==> OwnsOutput(outputs, farmer, id) && !OpenSaleOf(sales, id) && Listable(outputs[id])
    ensures !OwnsOutput(outputs, farmer, id) ==> r == Some(OutputNotFound)
    ensures OwnsOutput(outputs, farmer, id) && OpenSaleOf(sales, id) ==> r == Some(AlreadyListed)
    ensures r.Some? ==> r.value in {OutputNotFound, AlreadyListed, NotListable}
  {
    if !OwnsOutput(outputs, farmer, id) then Some(OutputNotFound)
    else if OpenSaleOf(sales, id) then Some(AlreadyListed)
    else if !Listable(outputs[id]) then Some(NotListable)
    else None
  }

  /** Saving the sale fails on the unique index, on a negative quantity
      (the schema's minimum) and when a reference does not resolve. */
  predicate SaleSaves(sales: seq<Sale>, o: Out.CropOutput, id: nat)
  {
    !AnySaleOf(sales, id) && o.quantity >= 0
  }

  // ---------------------------------------------------------------
  // Marketplace listing

  /** The outcome of listForMarketplace when it does not list. */
  function MarketplaceRefusal(sales: seq<Sale>, outputs: seq<Out.CropOutput>,
                              cropMasters: seq<FarmModel.CropMaster>, fields: seq<FarmModel.Field>,
                              farmer: nat, id: nat, price: Option<int>): (r: Option<ListReply>)
    ensures r.None? <==> ValidPrice(price) && OwnsOutput(outputs, farmer, id) && !OpenSaleOf(sales, id) &&
                         Listable(outputs[id]) && LinksResolve(outputs[id], cropMasters, fields) &&
                         SaleSaves(sales, outputs[id], id)
    ensures !ValidPrice(price) ==> r == Some(InvalidPrice)
    ensures ValidPrice(price) ==> r == CommonRefusal(sales, outputs, farmer, id) || r == Some(ServerError)
  {
    if !ValidPrice(price) then Some(InvalidPrice)
    else if CommonRefusal(sales, outputs, farmer, id).Some? then CommonRefusal(sales, outputs, farmer, id)
    else if !LinksResolve(outputs[id], cropMasters, fields) || !SaleSaves(sales, outputs[id], id) then Some(ServerError)
    else None
  }

  /** listForMarketplace. */
  method ListForMarketplace(db: Store.Db, farmer: nat, id: nat, price: Option<int>) returns (reply: ListReply)
    modifies db`sales, db`outputs
    ensures var refusal := MarketplaceRefusal(old(db.sales), old(db.outputs), db.cropMasters, db.fields, farmer, id, price);
            if refusal.Some? then
              reply == refusal.value && db.sales == old(db.sales) && db.outputs == old(db.outputs)
            else
              var o := old(db.outputs)[id];
              reply == Listed(|old(db.sales)|) &&
              db.sales == old(db.sales) + [SaleOf(o, farmer, id, Marketplace, price, None,
                                                   Certificate(o, db.qualityRequests), Active)] &&
              db.outputs == old(db.outputs)[id := ListedOutput(o, |old(db.sales)|)]
  {
    var refusal := MarketplaceRefusal(db.sales, db.outputs, db.cropMasters, db.fields, farmer, id, price);
    if refusal.Some? {
      return refusal.value;
    }
    var o := db.outputs[id];
    var cert := Certificate(o, db.qualityRequests);
    var saleId := |db.sales|;
    db.sales := db.sales + [SaleOf(o, farmer, id, Marketplace, price, None, cert, Active)];
    db.outputs := db.outputs[id := ListedOutput(o, saleId)];
    reply := Listed(saleId);
  }

  // ---------------------------------------------------------------
  // Government listing

  /** `MSP.findOne({ cropName, isActive: true })`: the first active entry
      for the crop. */
  function ActiveMsp(msps: seq<MspModel.Msp>, cropName: string): (r: Option<nat>)
    ensures r.Some? ==> r.value < |msps| && msps[r.value].cropName == cropName && msps[r.value].isActive
    ensures r.None? <==> forall k :: 0 <= k < |msps| ==> !(msps[k].cropName == cropName && msps[k].isActive)
  {
    if msps == [] then None
    else if msps[0].cropName == cropName && msps[0].isActive then Some(0)
    else
      var rest := ActiveMsp(msps[1..], cropName);
      if rest.Some? then Some(rest.value + 1) else None
  }

  /** The outcome of listForGovernmentMSP when it does not list. */
  function GovernmentRefusal(sales: seq<Sale>, outputs: seq<Out.CropOutput>,
                             cropMasters: seq<FarmModel.CropMaster>, fields: seq<FarmModel.Field>,
                             msps: seq<MspModel.Msp>, farmer: nat, id: nat): (r: Option<ListReply>)
    ensures r.None? <==> OwnsOutput(outputs, farmer, id) && !OpenSaleOf(sales, id) &&
                         Listable(outputs[id]) && LinksResolve(outputs[id], cropMasters, fields) &&
                         cropMasters[outputs[id].cropId].hasMSP &&
                         ActiveMsp(msps, cropMasters[outputs[id].cropId].cropName).Some? &&
                         SaleSaves(sales, outputs[id], id)
    ensures r == Some(NoMsp) ==>
              (id < |outputs| && outputs[id].cropId < |cropMasters| && !cropMasters[outputs[id].cropId].hasMSP)
    ensures r == Some(MspNotFound) ==>
              (id < |outputs| && outputs[id].cropId < |cropMasters| && cropMasters[outputs[id].cropId].hasMSP &&
               ActiveMsp(msps, cropMasters[outputs[id].cropId].cropName).None?)
    ensures r != Some(InvalidPrice)
  {
    if CommonRefusal(sales, outputs, farmer, id).Some? then CommonRefusal(sales, outputs, farmer, id)
    else
      var o := outputs[id];
      if o.cropId >= |cropMasters| then Some(ServerError)
      else if !cropMasters[o.cropId].hasMSP then Some(NoMsp)
      else if ActiveMsp(msps, cropMasters[o.cropId].cropName).None? then Some(MspNotFound)
      else if o.fieldId >= |fields| || !SaleSaves(sales, o, id) then Some(ServerError)
      else None
  }

  /** The procurement request a government listing files: pending, at the
      support price, for the whole lot. */
  function ProcurementOf(o: Out.CropOutput, farmer: nat, id: nat, saleId: nat, mspPrice: int,
                         cert: (bool, Option<Q.Grade>)): (r: ProcurementRequest)
    ensures r.totalAmount == mspPrice * o.quantity && r.mspPrice == mspPrice
    ensures r.saleId == saleId && r.cropOutputId == id && r.quantity == o.quantity
    ensures r.status == ProcurementPending && r.hasQualityCertificate == cert.0
  {
    ProcurementRequest(farmer, saleId, id, o.cropId, o.quantity, o.unit, mspPrice,
                       mspPrice * o.quantity, cert.0, cert.1, ProcurementPending, None)
  }

  /** listForGovernmentMSP. The sale is saved, the request filed, then the
      sale is linked to the request. */
  method ListForGovernmentMsp(db: Store.Db, farmer: nat, id: nat) returns (reply: ListReply)
    modifies db`sales, db`outputs, db`procurements
    ensures var refusal := GovernmentRefusal(old(db.sales), old(db.outputs), db.cropMasters, db.fields,
                                             db.msps, farmer, id);
            if refusal.Some? then
              reply == refusal.value && db.sales == old(db.sales) && db.outputs == old(db.outputs) &&
              db.procurements == old(db.procurements)
            else
              var o := old(db.outputs)[id];
              var price := db.msps[ActiveMsp(db.msps, db.cropMasters[o.cropId].cropName).value].price;
              var cert := Certificate(o, db.qualityRequests);
              var saleId := |old(db.sales)|;
              reply == Listed(saleId) &&
              db.sales == old(db.sales) + [SaleOf(o, farmer, id, GovernmentMsp, None, Some(price), cert,
                                                   PendingGovtApproval).(govtRequestId := Some(|old(db.procurements)|))] &&
              db.procurements == old(db.procurements) + [ProcurementOf(o, farmer, id, saleId, price, cert)] &&
              db.outputs == old(db.outputs)[id := ListedOutput(o, saleId)]
  {
    var refusal := GovernmentRefusal(db.sales, db.outputs, db.cropMasters, db.fields, db.msps, farmer, id);
    if refusal.Some? {
      return refusal.value;
    }
    var o := db.outputs[id];
    var price := db.msps[ActiveMsp(db.msps, db.cropMasters[o.cropId].cropName).value].price;
    var cert := Certificate(o, db.qualityRequests);
    var saleId := |db.sales|;
    var sale := SaleOf(o, farmer, id, GovernmentMsp, None, Some(price), cert, PendingGovtApproval);
    db.sales := db.sales + [sale];
    var requestId := |db.procurements|;
    db.procurements := db.procurements + [ProcurementOf(o, farmer, id, saleId, price, cert)];
    db.sales := db.sales[saleId := sale.(govtRequestId := Some(requestId))];
    db.outputs := db.outputs[id := ListedOutput(o, saleId)];
    reply := Listed(saleId);
  }

  /** A new listing keeps the store invariants: the ledger (the new sale
      has no bids and zero counters), the settlement of bids, and one sale
      per lot (the unique index refused a second one). */
  lemma ListingKeepsInvariants(sales: seq<Sale>, bids: seq<Bid>, s: Sale)
    requires LedgerOk(sales, bids) && BidsSettled(sales, bids) && OneSalePerOutput(sales)
    requires s.totalBids == 0 && s.currentHighestBid == 0 && s.highestBidder.None?
    requires !AnySaleOf(sales, s.cropOutputId)
    ensures LedgerOk(sales + [s], bids) && BidsSettled(sales + [s], bids) && OneSalePerOutput(sales + [s])
  {
    var sales' := sales + [s];
    forall i | 0 <= i < |sales'|
      ensures CountFor(bids, i) == sales'[i].totalBids
    {
      if i == |sales| {
        assert forall k :: 0 <= k < |bids| ==> bids[k].saleId != i;
        CountNone(bids, i);
      }
    }
  }

  /** A sale no bid names has a zero count. */
  lemma {:induction false} CountNone(bids: seq<Bid>, i: nat)
    requires forall k :: 0 <= k < |bids| ==> bids[k].saleId != i
    ensures CountFor(bids, i) == 0
  {
    if bids != [] {
      var n := |bids| - 1;
      assert forall k :: 0 <= k < n ==> bids[..n][k] == bids[k];
      CountNone(bids[..n], i);
    }
  }

  /** A lot that already has a sale in any status cannot be listed again,
      even after that sale was cancelled or went unsold: the unique index
      turns the second listing into a server error. */
  lemma RelistingFails(sales: seq<Sale>, outputs: seq<Out.CropOutput>,
                       cropMasters: seq<FarmModel.CropMaster>, fields: seq<FarmModel.Field>,
                       farmer: nat, id: nat, price: Option<int>, j: nat)
    requires j < |sales| && sales[j].cropOutputId == id
    requires ValidPrice(price) && OwnsOutput(outputs, farmer, id) && !OpenSaleOf(sales, id) &&
             Listable(outputs[id]) && LinksResolve(outputs[id], cropMasters, fields)
    ensures MarketplaceRefusal(sales, outputs, cropMasters, fields, farmer, id, price) == Some(ServerError)
  {
  }

  // ---------------------------------------------------------------
  // Cancelling

  datatype CancelReply = SaleCancelled | SaleNotFound | AlreadySold

  /** `findOne({ _id, farmerId })` on sales. */
  predicate OwnsSale(sales: seq<Sale>, farmer: nat, id: nat)
  {
    id < |sales| && sales[id].farmerId == farmer
  }

  /** The lot of a cancelled sale goes back to quality-approved when its
      request is approved, otherwise to available, and loses its sale
      link. */
  function RevertedOutput(o: Out.CropOutput, requests: seq<Q.QualityRequest>): (r: Out.CropOutput)
    ensures r.saleId.None?
    ensures r.status == Out.QualityApproved <==>
              o.qualityRequestId.Some? && o.qualityRequestId.value < |requests| &&
              requests[o.qualityRequestId.value].status == Q.Approved
    ensures r.status != Out.QualityApproved ==> r.status == Out.Available
    ensures r.(status := o.status, saleId := o.saleId) == o
  {
    var approved := o.qualityRequestId.Some? && o.qualityRequestId.value < |requests| &&
                    requests[o.qualityRequestId.value].status == Q.Approved;
    o.(status := if approved then Out.QualityApproved else Out.Available, saleId := None)
  }

  /** The procurement request of a cancelled government sale is rejected
      with the farmer as the reason; any other request is left alone. */
  function WithdrawnRequests(procurements: seq<ProcurementRequest>, s: Sale): (r: seq<ProcurementRequest>)
    ensures |r| == |procurements|
    ensures forall k :: 0 <= k < |r| ==>
              r[k] == if s.saleType == GovernmentMsp && s.govtRequestId == Some(k)
                      then procurements[k].(status := Rejected, rejectionReason := Some("Cancelled by farmer"))
                      else procurements[k]
  {
    if s.saleType == GovernmentMsp && s.govtRequestId.Some? && s.govtRequestId.value < |procurements| then
      var k := s.govtRequestId.value;
      procurements[k := procurements[k].(status := Rejected, rejectionReason := Some("Cancelled by farmer"))]
    else procurements
  }

  /** cancelSale. */
  method CancelSale(db: Store.Db, farmer: nat, id: nat) returns (reply: CancelReply)
    modifies db`sales, db`outputs, db`procurements
    ensures !OwnsSale(old(db.sales), farmer, id) ==>
              reply == SaleNotFound && unchanged(db)
    ensures OwnsSale(old(db.sales), farmer, id) && old(db.sales)[id].status == Sold ==>
              reply == AlreadySold && unchanged(db)
    ensures OwnsSale(old(db.sales), farmer, id) && old(db.sales)[id].status != Sold ==>
              var s := old(db.sales)[id];
              var o := s.cropOutputId;
              reply == SaleCancelled &&
              db.sales == old(db.sales)[id := s.(status := Cancelled)] &&
              db.outputs == (if o < |old(db.outputs)|
                             then old(db.outputs)[o := RevertedOutput(old(db.outputs)[o], db.qualityRequests)]
                             else old(db.outputs)) &&
              db.procurements == WithdrawnRequests(old(db.procurements), s)
  {
    if !OwnsSale(db.sales, farmer, id) {
      return SaleNotFound;
    }
    var s := db.sales[id];
    if s.status == Sold {
      return AlreadySold;
    }
    db.sales := db.sales[id := s.(status := Cancelled)];
    var o := s.cropOutputId;
    if o < |db.outputs| {
      db.outputs := db.outputs[o := RevertedOutput(db.outputs[o], db.qualityRequests)];
    }
    db.procurements := WithdrawnRequests(db.procurements, s);
    reply := SaleCancelled;
  }

  /** Cancelling an unsold sale keeps the store invariants; its bids stay
      active. */
  lemma CancelKeepsInvariants(sales: seq<Sale>, bids: seq<Bid>, id: nat)
    requires LedgerOk(sales, bids) && BidsSettled(sales, bids) && OneSalePerOutput(sales)
    requires id < |sales| && sales[id].status != Sold
    ensures var sales' := sales[id := sales[id].(status := Cancelled)];
            LedgerOk(sales', bids) && BidsSettled(sales', bids) && OneSalePerOutput(sales')
  {
    var sales' := sales[id := sales[id].(status := Cancelled)];
    LedgerKeysOnly(sales, bids, sales', bids);
  }

  // ---------------------------------------------------------------
  // Changing the floor price

  datatype PriceReply = PriceUpdated | BadPrice | PriceSaleNotFound | NotActiveListing

  /** updateSalePrice: only the floor of the caller's active marketplace
      sale changes. */
  method UpdateSalePrice(db: Store.Db, farmer: nat, id: nat, price: Option<int>) returns (reply: PriceReply)
    modifies db`sales
    ensures !ValidPrice(price) ==> reply == BadPrice && db.sales == old(db.sales)
    ensures ValidPrice(price) && !(OwnsSale(old(db.sales), farmer, id) && old(db.sales)[id].saleType == Marketplace) ==>
              reply == PriceSaleNotFound && db.sales == old(db.sales)
    ensures ValidPrice(price) && OwnsSale(old(db.sales), farmer, id) && old(db.sales)[id].saleType == Marketplace ==>
              if old(db.sales)[id].status != Active then
                reply == NotActiveListing && db.sales == old(db.sales)
              else
                reply == PriceUpdated &&
                db.sales == old(db.sales)[id := old(db.sales)[id].(minimumPrice := price)]
  {
    if !ValidPrice(price) {
      return BadPrice;
    }
    if !(OwnsSale(db.sales, farmer, id) && db.sales[id].saleType == Marketplace) {
      return PriceSaleNotFound;
    }
    if db.sales[id].status != Active {
      return NotActiveListing;
    }
    db.sales := db.sales[id := db.sales[id].(minimumPrice := price)];
    reply := PriceUpdated;
  }

  /** A new floor price keeps the store invariants. */
  lemma RepriceKeepsInvariants(sales: seq<Sale>, bids: seq<Bid>, id: nat, price: Option<int>)
    requires LedgerOk(sales, bids) && BidsSettled(sales, bids) && OneSalePerOutput(sales)
    requires id < |sales|
    ensures var sales' := sales[id := sales[id].(minimumPrice := price)];
            LedgerOk(sales', bids) && BidsSettled(sales', bids) && OneSalePerOutput(sales')
  {
    var sales' := sales[id := sales[id].(minimumPrice := price)];
    LedgerKeysOnly(sales, bids, sales', bids);
  }
}

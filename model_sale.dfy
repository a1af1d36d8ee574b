// models/Sale.js, models/Bid.js and models/GovtProcurementRequest.js.
// The sale carries the auction fields and the status values the bid
// controller and the auction sweep use (pending, unsold and the auction
// window are absent from the schema's own declaration).
module SaleModel {
  import opened Common
  import QualityModel

  datatype SaleType = Marketplace | GovernmentMsp

  datatype SaleStatus = Pending | Active | Sold | Unsold | Cancelled | PendingGovtApproval

  /** `soldToModel` */
  datatype Party = Buyer | GovtEmployee

  datatype Sale = Sale(
    farmerId: nat,
    cropOutputId: nat,
    cropId: nat,
    fieldId: nat,
    saleType: SaleType,
    quantity: int,
    unit: Unit,
    minimumPrice: Option<int>,
    mspPrice: Option<int>,
    hasQualityCertificate: bool,
    qualityRequestId: Option<nat>,
    qualityGrade: Option<QualityModel.Grade>,
    status: SaleStatus,
    auctionStartDate: Option<int>,
    auctionEndDate: Option<int>,
    currentHighestBid: int,
    highestBidder: Option<nat>,
    totalBids: nat,
    govtRequestId: Option<nat>,
    soldTo: Option<nat>,
    soldToModel: Option<Party>,
    soldDate: Option<int>,
    finalPrice: Option<int>,
    harvestDate: int,
    storageLocation: Option<string>)

  datatype BidStatus = BidActive | Won | Lost | Outbid

  datatype Bid = Bid(saleId: nat, buyerId: nat, amount: int, status: BidStatus)

  datatype ProcurementStatus = ProcurementPending | Approved | Rejected | PaymentProcessing | Completed

  datatype ProcurementRequest = ProcurementRequest(
    farmerId: nat,
    saleId: nat,
    cropOutputId: nat,
    cropId: nat,
    quantity: int,
    unit: Unit,
    mspPrice: int,
    totalAmount: int,
    hasQualityCertificate: bool,
    qualityGrade: Option<QualityModel.Grade>,
    status: ProcurementStatus,
    rejectionReason: Option<string>)

  /** The unique index on cropOutputId: no two sales share a crop output. */
  ghost predicate OneSalePerOutput(sales: seq<Sale>)
  {
    forall i, j :: 0 <= i < j < |sales| ==> sales[i].cropOutputId != sales[j].cropOutputId
  }
}

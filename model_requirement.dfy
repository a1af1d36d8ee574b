// models/BuyerRequirement.js and models/RequirementOffer.js: a buyer's
// posted demand and the farmers' offers against it.
module RequirementModel {
  import opened Common

  datatype Category = Crops | Grains | Vegetables | Fruits | Flowers | Spices

  datatype ContractType = SpotMarket | PreHarvestContract

  datatype RequiredGrade = GradeA | GradeB | GradeC | Export | Organic | AnyGrade

  datatype RequirementStatus = Active | Fulfilled | Expired | Cancelled

  datatype BuyerRequirement = BuyerRequirement(
    buyer: nat,
    cropName: string,
    category: Option<Category>,
    quantity: int,
    unit: Option<string>,
    targetPrice: int,
    isNegotiable: bool,
    contractType: ContractType,
    requiredByDate: int,
    listingExpiresAt: Option<int>,
    qualityGrade: RequiredGrade,
    description: Option<string>,
    status: RequirementStatus,
    totalOffersReceived: int,
    createdAt: int)

  const DescriptionMax: nat := 500

  /** The schema's validators: the crop name and the unit are non-empty
      (`required` refuses an empty string), a category is present,
      quantity is at least 1, targetPrice at least 0, and the description
      has at most 500 characters. */
  predicate SchemaValid(r: BuyerRequirement)
  {
    r.cropName != "" && r.category.Some? && r.unit.Some? && r.unit.value != "" &&
    r.quantity >= 1 && r.targetPrice >= 0 &&
    (r.description.Some? ==> |r.description.value| <= DescriptionMax)
  }

  /** The pre-save hook: an unset expiry becomes the required-by date. */
  function PreSave(r: BuyerRequirement): (s: BuyerRequirement)
    ensures s.listingExpiresAt.Some?
    ensures r.listingExpiresAt.Some? ==> s == r
    ensures r.listingExpiresAt.None? ==> s == r.(listingExpiresAt := Some(r.requiredByDate))
  {
    if r.listingExpiresAt.None? then r.(listingExpiresAt := Some(r.requiredByDate)) else r
  }

  datatype OfferStatus = OfferPending | OfferAccepted | OfferRejected | OfferCancelled

  datatype RequirementOffer = RequirementOffer(
    requirement: nat,
    buyer: nat,
    farmer: nat,
    pricePerUnit: int,
    quantity: int,
    availableDate: int,
    message: Option<string>,
    status: OfferStatus)

  const MessageMax: nat := 500
}

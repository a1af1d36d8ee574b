// models/CropOutput.js: a harvested lot and its marketing status.
module CropOutputModel {
  import opened Common

  /** The enum's statuses, and what an unvalidated update can store
      besides: a null, or a string outside the enum. */
  datatype OutputStatus =
    | Available | ListedForSale | QualityPending | QualityApproved
    | QualityRejected | Sold | Reserved
    | NullStatus | Unlisted(text: string)

  /** The enum's string for each of its statuses. */
  function StatusText(s: OutputStatus): (t: string)
    requires !s.NullStatus? && !s.Unlisted?
  {
    match s
    case Available => "available"
    case ListedForSale => "listed-for-sale"
    case QualityPending => "quality-pending"
    case QualityApproved => "quality-approved"
    case QualityRejected => "quality-rejected"
    case Sold => "sold"
    case Reserved => "reserved"
  }

  /** The status a string is stored as: the enum's status it names, or
      the string itself when it names none. */
  function ParseStatus(t: string): (s: OutputStatus)
    ensures s.Unlisted? ==> s.text == t
    ensures !s.NullStatus?
  {
    if t == "available" then Available
    else if t == "listed-for-sale" then ListedForSale
    else if t == "quality-pending" then QualityPending
    else if t == "quality-approved" then QualityApproved
    else if t == "quality-rejected" then QualityRejected
    else if t == "sold" then Sold
    else if t == "reserved" then Reserved
    else Unlisted(t)
  }

  /** Each status of the enum reads back from its string, and a string
      read as an enum status is exactly that status's string. */
  lemma ParseStatusText(s: OutputStatus, t: string)
    requires !s.NullStatus? && !s.Unlisted?
    ensures ParseStatus(StatusText(s)) == s
    ensures !ParseStatus(t).Unlisted? ==> StatusText(ParseStatus(t)) == t
  {
  }

  datatype CropOutput = CropOutput(
    farmerId: nat,
    fieldId: nat,
    cropId: nat,
    quantity: int,
    unit: Unit,
    harvestDate: int,
    storageLocation: Option<string>,
    status: OutputStatus,
    qualityRequestId: Option<nat>,
    saleId: Option<nat>,
    notes: Option<string>)
}

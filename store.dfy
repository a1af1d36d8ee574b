// The database: one field per collection the modelled controllers touch.
// A document's id is its index in its collection. In the two collections
// that support deletion a deleted document leaves an empty slot, so ids
// are never reused.
module Store {
  import opened Common
  import QualityModel
  import CropOutputModel
  import SaleModel
  import FarmModel
  import MspModel
  import OrderModel
  import RequirementModel
  import ExpenseModel
  import AccountModel

  class Db {
    var sales: seq<SaleModel.Sale>
    var bids: seq<SaleModel.Bid>
    var procurements: seq<SaleModel.ProcurementRequest>
    var outputs: seq<CropOutputModel.CropOutput>
    var qualityRequests: seq<QualityModel.QualityRequest>
    var fields: seq<FarmModel.Field>
    var tasks: seq<FarmModel.Task>
    var cropMasters: seq<FarmModel.CropMaster>
    var msps: seq<MspModel.Msp>
    var products: seq<OrderModel.VendorProduct>
    var orders: seq<OrderModel.Order>
    var requirements: seq<Option<RequirementModel.BuyerRequirement>>
    var offers: seq<RequirementModel.RequirementOffer>
    var expenses: seq<Option<ExpenseModel.Expense>>
    var accounts: seq<AccountModel.Account>
    var admins: seq<AccountModel.Admin>
    /** The QUALITY_LOT_ID counter document; None until first used. */
    var lotCounter: Option<nat>

    /** An empty database. */
    constructor ()
      ensures sales == [] && bids == [] && procurements == [] && outputs == []
      ensures qualityRequests == [] && fields == [] && tasks == [] && cropMasters == []
      ensures msps == [] && products == [] && orders == []
      ensures requirements == [] && offers == [] && expenses == []
      ensures accounts == [] && admins == [] && lotCounter == None
    {
      sales, bids, procurements, outputs := [], [], [], [];
      qualityRequests, fields, tasks, cropMasters := [], [], [], [];
      msps, products, orders := [], [], [];
      requirements, offers, expenses := [], [], [];
      accounts, admins, lotCounter := [], [], None;
    }
  }
}

// models/Order.js and models/VendorProduct.js: a vendor's catalogue item
// and a buyer's purchase or rental order for it. Rental dates are whole
// day numbers.
module OrderModel {
  import opened Common

  datatype VendorProduct = VendorProduct(vendor: nat, name: string, price: int, stock: int, unit: string)

  datatype OrderType = Purchase | Rental

  datatype PaymentStatus = PaymentPending | Paid | Cod

  datatype OrderStatus = Pending | Accepted | Rejected | Completed | Cancelled

  /** The product's name, price and unit as they were when ordered. */
  datatype Snapshot = Snapshot(name: string, price: int, unit: string)

  datatype RentalDuration = RentalDuration(startDate: int, endDate: int, totalDays: int)

  datatype Order = Order(
    buyer: nat,
    vendor: nat,
    product: nat,
    productSnapshot: Snapshot,
    orderType: OrderType,
    quantity: int,
    rentalDuration: Option<RentalDuration>,
    totalAmount: int,
    paymentStatus: PaymentStatus,
    status: OrderStatus)

  /** Stock and price are at least 0. */
  predicate ProductValid(p: VendorProduct)
  {
    p.stock >= 0 && p.price >= 0
  }
}

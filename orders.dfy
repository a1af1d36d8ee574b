// controllers/orderController.js: a buyer orders a vendor's product to buy
// or to rent, and the vendor accepts, rejects or completes the order.
// Dates are milliseconds; a rental's days are stepped one day (86 400 000
// ms) at a time, as the controller's date loop does.
module Orders {
  import opened Common
  import opened OrderModel
  import Sorting
  import Store

  // ---------------------------------------------------------------
  // Rental arithmetic

  /** `Math.ceil(Math.abs(end - start) / day) + 1`: the days charged for a
      rental. */
  function RentalDays(start: int, end: int): (r: int)
    ensures r >= 1
  {
    var diff := if end >= start then end - start else start - end;
    (diff + DayMs - 1) / DayMs + 1
  }

  /** The charge is one day more than the fewest whole days covering the
      span between the dates, in either order: a same-day rental is one
      day. */
  lemma RentalDaysIsCeiling(start: int, end: int)
    ensures var diff := if end >= start then end - start else start - end;
            var r := RentalDays(start, end);
            r == RentalDays(end, start) &&
            (diff == 0 <==> r == 1) &&
            (diff > 0 ==> (r - 2) * DayMs < diff <= (r - 1) * DayMs)
  {
    var diff := if end >= start then end - start else start - end;
    var q := (diff + DayMs - 1) / DayMs;
    assert q * DayMs <= diff + DayMs - 1 < q * DayMs + DayMs;
  }

  /** A rental of exactly `n` whole days is charged `n + 1`. */
  lemma RentalDaysWhole(start: int, n: nat)
    ensures RentalDays(start, start + n * DayMs) == n + 1
    ensures RentalDays(start + n * DayMs, start) == n + 1
  {
    assert (n * DayMs + DayMs - 1) / DayMs == n;
  }

  // ---------------------------------------------------------------
  // Calendar usage

  /** An accepted rental order of the product: only these block the
      calendar. */
  predicate Booked(o: Order, product: nat)
  {
    o.product == product && o.orderType == Rental && o.status == Accepted && o.rentalDuration.Some?
  }

  function BookedFor(product: nat): Order -> bool { (o: Order) => Booked(o, product) }

  /** The conflict query: accepted rentals of the product whose dates
      overlap [start, end]. */
  function ConflictsWith(product: nat, start: int, end: int): Order -> bool
  {
    (o: Order) => Booked(o, product) &&
                  o.rentalDuration.value.startDate <= end && o.rentalDuration.value.endDate >= start
  }

  /** The order's rental covers instant `d`. */
  predicate Covers(o: Order, d: int)
  {
    o.rentalDuration.Some? && o.rentalDuration.value.startDate <= d <= o.rentalDuration.value.endDate
  }

  /** The total quantity of the given orders covering `d`. */
  function SumCovering(os: seq<Order>, d: int): int
  {
    if os == [] then 0
    else (if Covers(os[0], d) then os[0].quantity else 0) + SumCovering(os[1..], d)
  }

  /** The units of a product booked on day `d`. */
  function UsedOn(orders: seq<Order>, product: nat, d: int): int
  {
    SumCovering(Sorting.Filter(orders, BookedFor(product)), d)
  }

  /** The request fits on day `d`. */
  predicate Fits(orders: seq<Order>, product: nat, d: int, qty: int, stock: int)
  {
    UsedOn(orders, product, d) + qty <= stock
  }

  /** The `k`-th day the date loop visits. */
  function Day(start: int, k: nat): int
  {
    if k == 0 then start else Day(start, k - 1) + DayMs
  }

  /** Every day the date loop visits has room. */
  ghost predicate FitsAll(orders: seq<Order>, product: nat, start: int, end: int, qty: int, stock: int)
  {
    forall k: nat :: Day(start, k) <= end ==> Fits(orders, product, Day(start, k), qty, stock)
  }

  /** Day `k` is the first visited day without room. */
  ghost predicate FirstFull(orders: seq<Order>, product: nat, start: int, end: int, qty: int, stock: int, k: nat)
  {
    Day(start, k) <= end && !Fits(orders, product, Day(start, k), qty, stock) &&
    forall j: nat :: j < k ==> Fits(orders, product, Day(start, j), qty, stock)
  }

  lemma {:induction false} SumCoveringFilter(orders: seq<Order>, product: nat, start: int, end: int, d: int)
    requires start <= d <= end
    ensures SumCovering(Sorting.Filter(orders, ConflictsWith(product, start, end)), d) ==
            SumCovering(Sorting.Filter(orders, BookedFor(product)), d)
  {
    if orders != [] {
      SumCoveringFilter(orders[1..], product, start, end, d);
      var c, b := ConflictsWith(product, start, end), BookedFor(product);
      var fc, fb := Sorting.Filter(orders[1..], c), Sorting.Filter(orders[1..], b);
      if c(orders[0]) {
        assert ([orders[0]] + fc)[1..] == fc;
      }
      if b(orders[0]) {
        assert ([orders[0]] + fb)[1..] == fb;
      }
    }
  }

  /** The controller sums over the conflict query's result only; on every
      day of the requested range that is the same as summing over all
      accepted rentals of the product. */
  lemma ConflictQueryIsExact(orders: seq<Order>, product: nat, start: int, end: int, d: int)
    requires start <= d <= end
    ensures SumCovering(Sorting.Filter(orders, ConflictsWith(product, start, end)), d) ==
            UsedOn(orders, product, d)
  {
    SumCoveringFilter(orders, product, start, end, d);
  }

  /** Whether the request fits on a day of the range, read off the sum
      over the conflict query's result. */
  lemma FitsFromConflicts(orders: seq<Order>, product: nat, start: int, end: int, d: int,
                          qty: int, stock: int, used: int)
    requires start <= d <= end
    requires used == SumCovering(Sorting.Filter(orders, ConflictsWith(product, start, end)), d)
    ensures Fits(orders, product, d, qty, stock) <==> used + qty <= stock
  {
    ConflictQueryIsExact(orders, product, start, end, d);
  }

  /** Orders that are not accepted rentals never count against a day:
      adding one leaves every day's usage as it was. */
  lemma {:induction false} UnbookedIgnored(orders: seq<Order>, o: Order, product: nat, d: int)
    requires !Booked(o, product)
    ensures UsedOn([o] + orders, product, d) == UsedOn(orders, product, d)
  {
    assert ([o] + orders)[1..] == orders;
  }

  /** Days the loop visits later are later in time. */
  lemma {:induction false} DayOrder(start: int, j: nat, k: nat)
    ensures j <= k ==> Day(start, j) <= Day(start, k)
    ensures Day(start, k + 1) == Day(start, k) + DayMs
    ensures Day(start, 0) == start
  {
    if j < k {
      DayOrder(start, j, k - 1);
    }
  }

  /** The inner loop: the quantity of the conflicting orders that cover
      day `d`. */
  method SumOnDay(conflicting: seq<Order>, d: int) returns (used: int)
    ensures used == SumCovering(conflicting, d)
  {
    used := 0;
    var i := 0;
    while i < |conflicting|
      invariant 0 <= i <= |conflicting|
      invariant used + SumCovering(conflicting[i..], d) == SumCovering(conflicting, d)
    {
      assert conflicting[i..][1..] == conflicting[i + 1..];
      if Covers(conflicting[i], d) {
        used := used + conflicting[i].quantity;
      }
      i := i + 1;
    }
  }

  /** Once the loop has passed the end, every visited day had room. */
  lemma AllVisitedFit(orders: seq<Order>, product: nat, start: int, end: int, qty: int, stock: int, k: nat)
    requires Day(start, k) > end
    requires forall j: nat :: j < k ==> Fits(orders, product, Day(start, j), qty, stock)
    ensures FitsAll(orders, product, start, end, qty, stock)
  {
    forall j: nat | Day(start, j) <= end
      ensures Fits(orders, product, Day(start, j), qty, stock)
    {
      DayOrder(start, k, j);
    }
  }

  /** A visited day without room after days that all had room is the
      first full day, and not every day fits. */
  lemma FirstFullFound(orders: seq<Order>, product: nat, start: int, end: int, qty: int, stock: int, k: nat)
    requires Day(start, k) <= end && !Fits(orders, product, Day(start, k), qty, stock)
    requires forall j: nat :: j < k ==> Fits(orders, product, Day(start, j), qty, stock)
    ensures FirstFull(orders, product, start, end, qty, stock, k)
    ensures !FitsAll(orders, product, start, end, qty, stock)
  {
  }

  /** One turn of the date loop on its `k`-th day: the day is the first
      full one when the conflicting quantity leaves no room, and otherwise
      the days seen so far all fit and the next day is one day later. */
  lemma VisitDay(orders: seq<Order>, product: nat, start: int, end: int, qty: int, stock: int,
                 k: nat, used: int)
    requires Day(start, k) <= end
    requires forall j: nat :: j < k ==> Fits(orders, product, Day(start, j), qty, stock)
    requires used == SumCovering(Sorting.Filter(orders, ConflictsWith(product, start, end)), Day(start, k))
    ensures used + qty > stock ==>
              FirstFull(orders, product, start, end, qty, stock, k) &&
              !FitsAll(orders, product, start, end, qty, stock)
    ensures used + qty <= stock ==>
              (forall j: nat :: j < k + 1 ==> Fits(orders, product, Day(start, j), qty, stock)) &&
              Day(start, k + 1) == Day(start, k) + DayMs
  {
    DayOrder(start, 0, k);
    DayOrder(start, k, k);
    FitsFromConflicts(orders, product, start, end, Day(start, k), qty, stock, used);
    if used + qty > stock {
      FirstFullFound(orders, product, start, end, qty, stock, k);
    }
  }

  /** The availability loop: returns the first day the loop visits that
      lacks room, or None when every visited day has room. */
  method FirstOverbookedDay(orders: seq<Order>, product: nat, start: int, end: int, qty: int, stock: int)
    returns (r: Option<int>)
    ensures r.None? <==> FitsAll(orders, product, start, end, qty, stock)
    ensures r.Some? ==> exists k: nat :: r.value == Day(start, k) &&
                                         FirstFull(orders, product, start, end, qty, stock, k)
  {
    var conflicting := Sorting.Filter(orders, ConflictsWith(product, start, end));
    var d := start;
    ghost var k: nat := 0;
    DayOrder(start, 0, 0);
    while d <= end
      invariant d == Day(start, k)
      invariant forall j: nat :: j < k ==> Fits(orders, product, Day(start, j), qty, stock)
      decreases end - d
    {
      var used := SumOnDay(conflicting, d);
      VisitDay(orders, product, start, end, qty, stock, k, used);
      if used + qty > stock {
        return Some(d);
      }
      d := d + DayMs;
      k := k + 1;
    }
    AllVisitedFit(orders, product, start, end, qty, stock, k);
    r := None;
  }

  /** Reversed dates are charged a positive number of days, yet the date
      loop visits no day at all, so the calendar is never consulted. */
  lemma ReversedDatesSkipCalendar(orders: seq<Order>, product: nat, start: int, end: int, qty: int, stock: int)
    requires end < start
    ensures RentalDays(start, end) >= 1
    ensures FitsAll(orders, product, start, end, qty, stock)
  {
    forall k: nat ensures Day(start, k) > end {
      DayOrder(start, 0, k);
    }
  }

  // ---------------------------------------------------------------
  // Placing an order

  datatype OrderReply =
    | OrderPlaced(orderId: nat)
    | ProductNotFound
    | OutOfStock(stock: int)
    | InvalidDates
    | Unavailable(day: int, left: int)
    | ServerError

  /** `quantity = 1` in the request's destructuring: the default applies
      only when the field is absent. */
  function Quantity(q: Option<int>): int
  {
    if q.Some? then q.value else 1
  }

  /** The stored order: pending, cash on delivery, with a snapshot of the
      product. */
  function NewOrder(buyer: nat, productId: nat, p: VendorProduct, t: OrderType, qty: int,
                    duration: Option<RentalDuration>, total: int): (r: Order)
    ensures r.status == Pending && r.paymentStatus == Cod
    ensures r.vendor == p.vendor && r.productSnapshot == Snapshot(p.name, p.price, p.unit)
  {
    Order(buyer, p.vendor, productId, Snapshot(p.name, p.price, p.unit), t, qty, duration, total, Cod, Pending)
  }

  /** createOrder. `orderType` None stands for a missing or unknown type,
      which the schema refuses on save; a missing date is an invalid date. */
  method CreateOrder(db: Store.Db, buyer: nat, productId: nat, quantity: Option<int>,
                     startDate: Option<int>, endDate: Option<int>, orderType: Option<OrderType>)
    returns (reply: OrderReply)
    modifies db`orders
    ensures productId >= |db.products| ==> reply == ProductNotFound && db.orders == old(db.orders)
    ensures productId < |db.products| && db.products[productId].stock < Quantity(quantity) ==>
              reply == OutOfStock(db.products[productId].stock) && db.orders == old(db.orders)
    ensures productId < |db.products| && db.products[productId].stock >= Quantity(quantity) ==>
              var p, qty := db.products[productId], Quantity(quantity);
              if orderType.None? then
                reply == ServerError && db.orders == old(db.orders)
              else if orderType.value == Purchase then
                reply == OrderPlaced(|old(db.orders)|) &&
                db.orders == old(db.orders) + [NewOrder(buyer, productId, p, Purchase, qty, None, p.price * qty)]
              else if startDate.None? || endDate.None? then
                reply == InvalidDates && db.orders == old(db.orders)
              else
                var s, e := startDate.value, endDate.value;
                if FitsAll(old(db.orders), productId, s, e, qty, p.stock) then
                  var days := RentalDays(s, e);
                  reply == OrderPlaced(|old(db.orders)|) &&
                  db.orders == old(db.orders) +
                    [NewOrder(buyer, productId, p, Rental, qty, Some(RentalDuration(s, e, days)), p.price * days * qty)]
                else
                  reply.Unavailable? && db.orders == old(db.orders) &&
                  (exists k: nat :: reply.day == Day(s, k) && FirstFull(old(db.orders), productId, s, e, qty, p.stock, k)) &&
                  reply.left == p.stock - UsedOn(old(db.orders), productId, reply.day)
  {
    if productId >= |db.products| {
      return ProductNotFound;
    }
    var p := db.products[productId];
    var qty := Quantity(quantity);
    if p.stock < qty {
      return OutOfStock(p.stock);
    }
    if orderType.None? {
      return ServerError;
    }
    var total: int;
    var duration: Option<RentalDuration> := None;
    if orderType.value == Purchase {
      total := p.price * qty;
    } else {
      if startDate.None? || endDate.None? {
        return InvalidDates;
      }
      var s, e := startDate.value, endDate.value;
      var days := RentalDays(s, e);
      var full := FirstOverbookedDay(db.orders, productId, s, e, qty, p.stock);
      if full.Some? {
        return Unavailable(full.value, p.stock - UsedOn(db.orders, productId, full.value));
      }
      total := p.price * days * qty;
      duration := Some(RentalDuration(s, e, days));
    }
    db.orders := db.orders + [NewOrder(buyer, productId, p, orderType.value, qty, duration, total)];
    reply := OrderPlaced(|db.orders| - 1);
  }

  // ---------------------------------------------------------------
  // Vendor decisions

  datatype StatusReply = StatusSet | OrderNotFound | StockTooLow | StatusServerError

  /** The `status` of the request body: absent, a string outside the
      status enum, or one of the statuses. */
  datatype StatusInput = StatusAbsent | StatusOutsideEnum | StatusGiven(value: OrderStatus)

  /** The status the order holds after `order.status = status` and the
      save. An absent status passes the enum validator and unsets the
      path, which then reads back as its default "pending"; a value
      outside the enum fails the save (None). */
  function StoredStatus(status: StatusInput): (r: Option<OrderStatus>)
    ensures status.StatusGiven? ==> r == Some(status.value)
    ensures status.StatusAbsent? ==> r == Some(Pending)
    ensures r.None? <==> status.StatusOutsideEnum?
  {
    match status
    case StatusAbsent => Some(Pending)
    case StatusOutsideEnum => None
    case StatusGiven(v) => Some(v)
  }

  /** The stock step of an acceptance: accepting a pending purchase takes
      its quantity out of the product's stock, and is refused (None) when
      the stock is short; every other change leaves the products alone.
      A product that no longer exists is skipped. */
  function StockAfter(products: seq<VendorProduct>, o: Order, status: OrderStatus): (r: Option<seq<VendorProduct>>)
    ensures r.None? <==> status == Accepted && o.status == Pending && o.orderType == Purchase &&
                         o.product < |products| && products[o.product].stock < o.quantity
    ensures r.Some? ==> |r.value| == |products|
    ensures r.Some? ==> forall k :: 0 <= k < |products| && products[k].stock >= 0 ==> r.value[k].stock >= 0
    ensures r.Some? ==> forall k :: 0 <= k < |products| && k != o.product ==> r.value[k] == products[k]
    ensures r.Some? && o.product < |products| ==>
              r.value[o.product] == products[o.product].(stock := r.value[o.product].stock) &&
              r.value[o.product].stock ==
                if status == Accepted && o.status == Pending && o.orderType == Purchase
                then products[o.product].stock - o.quantity else products[o.product].stock
  {
    if status == Accepted && o.status == Pending && o.orderType == Purchase && o.product < |products| then
      var p := products[o.product];
      if p.stock < o.quantity then None
      else Some(products[o.product := p.(stock := p.stock - o.quantity)])
    else Some(products)
  }

  /** updateOrderStatus. Only a given "accepted" runs the stock step; a
      value outside the enum skips it and is refused by the order's save. */
  method UpdateOrderStatus(db: Store.Db, vendor: nat, orderId: nat, status: StatusInput)
    returns (reply: StatusReply)
    modifies db`orders, db`products
    ensures !(orderId < |old(db.orders)| && old(db.orders)[orderId].vendor == vendor) ==>
              reply == OrderNotFound && unchanged(db)
    ensures orderId < |old(db.orders)| && old(db.orders)[orderId].vendor == vendor ==>
              var o := old(db.orders)[orderId];
              if StoredStatus(status).None? then
                reply == StatusServerError && unchanged(db)
              else if StockAfter(old(db.products), o, StoredStatus(status).value).None? then
                reply == StockTooLow && unchanged(db)
              else
                reply == StatusSet &&
                db.products == StockAfter(old(db.products), o, StoredStatus(status).value).value &&
                db.orders == old(db.orders)[orderId := o.(status := StoredStatus(status).value)]
  {
    if !(orderId < |db.orders| && db.orders[orderId].vendor == vendor) {
      return OrderNotFound;
    }
    var o := db.orders[orderId];
    var stored := StoredStatus(status);
    if stored.None? {
      return StatusServerError;
    }
    if status == StatusGiven(Accepted) && o.status == Pending && o.orderType == Purchase {
      if o.product < |db.products| {
        var p := db.products[o.product];
        if p.stock < o.quantity {
          return StockTooLow;
        }
        db.products := db.products[o.product := p.(stock := p.stock - o.quantity)];
      }
    }
    db.orders := db.orders[orderId := o.(status := stored.value)];
    reply := StatusSet;
  }

  /** Accepting a purchase twice in a row takes stock once: the second
      acceptance finds the order no longer pending. */
  lemma SecondAcceptTakesNothing(products: seq<VendorProduct>, o: Order)
    requires o.orderType == Purchase && o.status == Pending
    requires StockAfter(products, o, Accepted).Some?
    ensures StockAfter(StockAfter(products, o, Accepted).value, o.(status := Accepted), Accepted) ==
            Some(StockAfter(products, o, Accepted).value)
  {
  }

  /** A request without a status puts an accepted order back to pending,
      so accepting it again takes its quantity a second time: accept,
      reset, accept takes the stock twice. */
  lemma ResetThenAcceptTakesTwice(products: seq<VendorProduct>, o: Order)
    requires o.orderType == Purchase && o.status == Pending
    requires o.product < |products| && products[o.product].stock >= 2 * o.quantity && o.quantity > 0
    ensures var first := StockAfter(products, o, StoredStatus(StatusGiven(Accepted)).value);
            var accepted := o.(status := Accepted);
            var reset := accepted.(status := StoredStatus(StatusAbsent).value);
            first.Some? &&
            StockAfter(first.value, accepted, StoredStatus(StatusAbsent).value) == first &&
            var second := StockAfter(first.value, reset, Accepted);
            second.Some? && second.value[o.product].stock == products[o.product].stock - 2 * o.quantity
  {
  }
}

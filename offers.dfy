// controllers/requirementOfferController.js: farmers offer against a
// buyer's requirement, the buyer accepts or rejects, the farmer may cancel.
// Every requirement keeps a running count of the offers made against it
// that have not been cancelled.
module Offers {
  import opened Common
  import opened RequirementModel
  import Requirements
  import Store

  datatype OfferReply =
    | OfferCreated(id: nat)
    | NotFarmer
    | RequirementClosed
    | InvalidStatus
    | OfferNotFound
    | OfferUpdated
    | ServerError

  /** The request body of createOffer; None is an absent field. */
  datatype OfferInput = OfferInput(
    pricePerUnit: Option<int>,
    quantity: Option<int>,
    availableDate: Option<int>,
    message: Option<string>)

  /** The offer schema: price, quantity and available date are required
      (zero is a value), the message has at most 500 characters. */
  predicate OfferInputValid(input: OfferInput)
  {
    input.pricePerUnit.Some? && input.quantity.Some? && input.availableDate.Some? &&
    (input.message.Some? ==> |input.message.value| <= MessageMax)
  }

  /** `findById(requirementId)` finds a requirement in status active. */
  predicate Open(reqs: seq<Option<BuyerRequirement>>, rid: nat)
  {
    rid < |reqs| && reqs[rid].Some? && reqs[rid].value.status == Active
  }

  /** The new offer: pending, addressed to the requirement's own buyer. */
  function NewOffer(rid: nat, buyer: nat, farmer: nat, input: OfferInput): RequirementOffer
    requires OfferInputValid(input)
  {
    RequirementOffer(rid, buyer, farmer, input.pricePerUnit.value, input.quantity.value,
                     input.availableDate.value, input.message, OfferPending)
  }

  /** `findByIdAndUpdate(rid, { $inc: { totalOffersReceived: delta } })`;
      a requirement that no longer exists is left alone. */
  function Bump(reqs: seq<Option<BuyerRequirement>>, rid: nat, delta: int): seq<Option<BuyerRequirement>>
  {
    if rid < |reqs| && reqs[rid].Some? then
      reqs[rid := Some(reqs[rid].value.(totalOffersReceived := reqs[rid].value.totalOffersReceived + delta))]
    else reqs
  }

  // ---------------------------------------------------------------
  // The offer count

  /** 1 when `o` is an offer on `rid` that has not been cancelled. */
  function LiveOn(o: RequirementOffer, rid: nat): nat
  {
    if o.requirement == rid && o.status != OfferCancelled then 1 else 0
  }

  /** The number of offers on `rid` that have not been cancelled. */
  function CountLive(offers: seq<RequirementOffer>, rid: nat): (n: nat)
    ensures n <= |offers|
  {
    if offers == [] then 0
    else CountLive(offers[..|offers| - 1], rid) + LiveOn(offers[|offers| - 1], rid)
  }

  /** The store invariant: offers refer to requirement ids that were
      issued, and each stored requirement's counter is its live count. */
  ghost predicate CounterOk(reqs: seq<Option<BuyerRequirement>>, offers: seq<RequirementOffer>)
  {
    (forall i :: 0 <= i < |offers| ==> offers[i].requirement < |reqs|) &&
    (forall rid :: 0 <= rid < |reqs| && reqs[rid].Some? ==>
       reqs[rid].value.totalOffersReceived == CountLive(offers, rid))
  }

  lemma CountAppend(offers: seq<RequirementOffer>, o: RequirementOffer, rid: nat)
    ensures CountLive(offers + [o], rid) == CountLive(offers, rid) + LiveOn(o, rid)
  {
    assert (offers + [o])[..|offers|] == offers;
  }

  /** Replacing one offer changes a count by the difference it makes. */
  lemma {:induction false} CountUpdate(offers: seq<RequirementOffer>, k: nat, o: RequirementOffer, rid: nat)
    requires k < |offers|
    ensures CountLive(offers[k := o], rid) == CountLive(offers, rid) - LiveOn(offers[k], rid) + LiveOn(o, rid)
    decreases |offers|
  {
    var n := |offers|;
    var u := offers[k := o];
    assert u[..n - 1] == if k == n - 1 then offers[..n - 1] else offers[..n - 1][k := o];
    if k < n - 1 {
      CountUpdate(offers[..n - 1], k, o, rid);
    }
  }

  /** Counts depend only on which requirement each offer names and on
      whether it is cancelled. */
  lemma {:induction false} CountSameLive(a: seq<RequirementOffer>, b: seq<RequirementOffer>, rid: nat)
    requires |a| == |b|
    requires forall i :: 0 <= i < |a| ==>
               a[i].requirement == b[i].requirement &&
               (a[i].status == OfferCancelled <==> b[i].status == OfferCancelled)
    ensures CountLive(a, rid) == CountLive(b, rid)
    decreases |a|
  {
    if a != [] {
      CountSameLive(a[..|a| - 1], b[..|b| - 1], rid);
    }
  }

  /** No offer names `rid`, so its count is zero. */
  lemma {:induction false} CountNone(offers: seq<RequirementOffer>, rid: nat)
    requires forall i :: 0 <= i < |offers| ==> offers[i].requirement != rid
    ensures CountLive(offers, rid) == 0
    decreases |offers|
  {
    if offers != [] {
      CountNone(offers[..|offers| - 1], rid);
    }
  }

  // ---------------------------------------------------------------
  // createOffer

  /** createOffer. Only farmers may offer, only against an active
      requirement; the offer is addressed to that requirement's buyer and
      the requirement's counter goes up by one. */
  method CreateOffer(db: Store.Db, farmer: nat, role: string, rid: nat, input: OfferInput)
    returns (reply: OfferReply)
    modifies db`offers, db`requirements
    ensures role != "farmer" ==>
              reply == NotFarmer && db.offers == old(db.offers) && db.requirements == old(db.requirements)
    ensures role == "farmer" && !Open(old(db.requirements), rid) ==>
              reply == RequirementClosed && db.offers == old(db.offers) && db.requirements == old(db.requirements)
    ensures role == "farmer" && Open(old(db.requirements), rid) && !OfferInputValid(input) ==>
              reply == ServerError && db.offers == old(db.offers) && db.requirements == old(db.requirements)
    ensures role == "farmer" && Open(old(db.requirements), rid) && OfferInputValid(input) ==>
              reply == OfferCreated(|old(db.offers)|) &&
              db.offers == old(db.offers) + [NewOffer(rid, old(db.requirements)[rid].value.buyer, farmer, input)] &&
              db.requirements == Bump(old(db.requirements), rid, 1)
  {
    if role != "farmer" {
      return NotFarmer;
    }
    if !Open(db.requirements, rid) {
      return RequirementClosed;
    }
    if !OfferInputValid(input) {
      return ServerError;
    }
    var o := NewOffer(rid, db.requirements[rid].value.buyer, farmer, input);
    db.offers := db.offers + [o];
    db.requirements := Bump(db.requirements, rid, 1);
    reply := OfferCreated(|db.offers| - 1);
  }

  /** A new offer and its increment keep every counter exact. */
  lemma CreateKeepsCounter(reqs: seq<Option<BuyerRequirement>>, offers: seq<RequirementOffer>,
                           rid: nat, farmer: nat, input: OfferInput)
    requires CounterOk(reqs, offers) && Open(reqs, rid) && OfferInputValid(input)
    ensures CounterOk(Bump(reqs, rid, 1), offers + [NewOffer(rid, reqs[rid].value.buyer, farmer, input)])
  {
    var o := NewOffer(rid, reqs[rid].value.buyer, farmer, input);
    var reqs', offers' := Bump(reqs, rid, 1), offers + [o];
    assert |reqs'| == |reqs| && o.requirement == rid;
    forall r | 0 <= r < |reqs'| && reqs'[r].Some?
      ensures reqs'[r].value.totalOffersReceived == CountLive(offers', r)
    {
      CountAppend(offers, o, r);
      if r != rid {
        assert reqs'[r] == reqs[r];
      }
    }
  }

  // ---------------------------------------------------------------
  // updateOfferStatus

  /** `["accepted", "rejected"].includes(status)`; None is a string that
      names no offer status. */
  predicate Decision(status: Option<OfferStatus>)
  {
    status == Some(OfferAccepted) || status == Some(OfferRejected)
  }

  /** `findOne({ _id, buyer, status: "pending" })` on offers. */
  predicate PendingFor(offers: seq<RequirementOffer>, id: nat, buyer: nat)
  {
    id < |offers| && offers[id].buyer == buyer && offers[id].status == OfferPending
  }

  /** The requirement as saved when one of its offers is accepted. The
      controller also assigns `fulfilledBy`, a path the schema does not
      declare, so strict mode drops it. */
  function Fulfilled(r: BuyerRequirement): BuyerRequirement
  {
    PreSave(r.(status := RequirementStatus.Fulfilled))
  }

  /** One offer under the `updateMany` that rejects the accepted offer's
      pending siblings. */
  function Sibling(o: RequirementOffer, j: nat, rid: nat, keep: nat): RequirementOffer
  {
    if o.requirement == rid && j != keep && o.status == OfferPending then o.(status := OfferRejected) else o
  }

  function RejectSiblings(offers: seq<RequirementOffer>, rid: nat, keep: nat): (r: seq<RequirementOffer>)
    ensures |r| == |offers|
    ensures forall j :: 0 <= j < |r| ==> r[j] == Sibling(offers[j], j, rid, keep)
  {
    seq(|offers|, j requires 0 <= j < |offers| => Sibling(offers[j], j, rid, keep))
  }

  /** The offers after offer `k` is accepted. */
  function AcceptOffers(offers: seq<RequirementOffer>, k: nat): seq<RequirementOffer>
    requires k < |offers|
  {
    RejectSiblings(offers, offers[k].requirement, k)[k := offers[k].(status := OfferAccepted)]
  }

  /** updateOfferStatus. Only "accepted" and "rejected" are allowed, and
      only on a pending offer made to the caller. Accepting needs the
      requirement still active: it is saved as fulfilled (the farmer it
      names is not stored), every other pending offer on it is rejected,
      then the offer is marked accepted. */
  method UpdateOfferStatus(db: Store.Db, buyer: nat, id: nat, status: Option<OfferStatus>)
    returns (reply: OfferReply)
    modifies db`offers, db`requirements
    ensures !Decision(status) ==>
              reply == InvalidStatus && db.offers == old(db.offers) && db.requirements == old(db.requirements)
    ensures Decision(status) && !PendingFor(old(db.offers), id, buyer) ==>
              reply == OfferNotFound && db.offers == old(db.offers) && db.requirements == old(db.requirements)
    ensures status == Some(OfferRejected) && PendingFor(old(db.offers), id, buyer) ==>
              reply == OfferUpdated && db.requirements == old(db.requirements) &&
              db.offers == old(db.offers)[id := old(db.offers)[id].(status := OfferRejected)]
    ensures status == Some(OfferAccepted) && PendingFor(old(db.offers), id, buyer) &&
            !Open(old(db.requirements), old(db.offers)[id].requirement) ==>
              reply == RequirementClosed && db.offers == old(db.offers) && db.requirements == old(db.requirements)
    ensures status == Some(OfferAccepted) && PendingFor(old(db.offers), id, buyer) &&
            Open(old(db.requirements), old(db.offers)[id].requirement) ==>
              (var rid := old(db.offers)[id].requirement;
               var r := Fulfilled(old(db.requirements)[rid].value);
               if SchemaValid(r) then
                 reply == OfferUpdated && db.requirements == old(db.requirements)[rid := Some(r)] &&
                 db.offers == AcceptOffers(old(db.offers), id)
               else
                 reply == ServerError && db.offers == old(db.offers) && db.requirements == old(db.requirements))
  {
    if !Decision(status) {
      return InvalidStatus;
    }
    if !PendingFor(db.offers, id, buyer) {
      return OfferNotFound;
    }
    var offer := db.offers[id];
    if status == Some(OfferAccepted) {
      var rid := offer.requirement;
      if !Open(db.requirements, rid) {
        return RequirementClosed;
      }
      var r := Fulfilled(db.requirements[rid].value);
      if !SchemaValid(r) {
        return ServerError;
      }
      db.requirements := db.requirements[rid := Some(r)];
      // updateMany({ requirement: rid, _id: { $ne: id }, status: "pending" }, rejected)
      var next := db.offers;
      for j := 0 to |next|
        invariant |next| == |db.offers|
        invariant forall i :: 0 <= i < j ==> next[i] == Sibling(db.offers[i], i, rid, id)
        invariant forall i :: j <= i < |next| ==> next[i] == db.offers[i]
      {
        next := next[j := Sibling(next[j], j, rid, id)];
      }
      assert next == RejectSiblings(db.offers, rid, id);
      db.offers := next[id := offer.(status := OfferAccepted)];
    } else {
      db.offers := db.offers[id := offer.(status := OfferRejected)];
    }
    reply := OfferUpdated;
  }

  /** Accepting offer `k` marks it accepted, rejects exactly the other
      pending offers on the same requirement and leaves every other offer
      as it was, so no pending offer on that requirement remains. */
  lemma AcceptScope(offers: seq<RequirementOffer>, k: nat)
    requires k < |offers| && offers[k].status == OfferPending
    ensures var a := AcceptOffers(offers, k);
            var rid := offers[k].requirement;
            |a| == |offers| && a[k] == offers[k].(status := OfferAccepted) &&
            (forall j :: 0 <= j < |a| && j != k && offers[j].requirement == rid && offers[j].status == OfferPending ==>
               a[j] == offers[j].(status := OfferRejected)) &&
            (forall j :: 0 <= j < |a| && j != k && (offers[j].requirement != rid || offers[j].status != OfferPending) ==>
               a[j] == offers[j]) &&
            (forall j :: 0 <= j < |a| && a[j].requirement == rid ==> a[j].status != OfferPending)
  {
  }

  /** Rejecting and accepting never touch a cancelled offer and never make
      one, so no count changes. */
  lemma AcceptKeepsCounts(offers: seq<RequirementOffer>, k: nat, rid: nat)
    requires k < |offers| && offers[k].status == OfferPending
    ensures CountLive(AcceptOffers(offers, k), rid) == CountLive(offers, rid)
  {
    CountSameLive(AcceptOffers(offers, k), offers, rid);
  }

  lemma RejectKeepsCounts(offers: seq<RequirementOffer>, k: nat, rid: nat)
    requires k < |offers| && offers[k].status == OfferPending
    ensures CountLive(offers[k := offers[k].(status := OfferRejected)], rid) == CountLive(offers, rid)
  {
    CountUpdate(offers, k, offers[k].(status := OfferRejected), rid);
  }

  lemma AcceptKeepsCounter(reqs: seq<Option<BuyerRequirement>>, offers: seq<RequirementOffer>, k: nat)
    requires CounterOk(reqs, offers) && k < |offers| && offers[k].status == OfferPending
    requires Open(reqs, offers[k].requirement)
    ensures var rid := offers[k].requirement;
            CounterOk(reqs[rid := Some(Fulfilled(reqs[rid].value))], AcceptOffers(offers, k))
  {
    forall rid | 0 <= rid < |reqs|
      ensures CountLive(AcceptOffers(offers, k), rid) == CountLive(offers, rid)
    {
      AcceptKeepsCounts(offers, k, rid);
    }
  }

  /** Once an offer is accepted its requirement is closed to further
      offers and to further acceptances: it is no longer active, and no
      offer on it is still pending. */
  lemma NoSecondAcceptance(reqs: seq<Option<BuyerRequirement>>, offers: seq<RequirementOffer>, k: nat)
    requires k < |offers| && offers[k].status == OfferPending
    requires Open(reqs, offers[k].requirement)
    ensures var rid := offers[k].requirement;
            var reqs' := reqs[rid := Some(Fulfilled(reqs[rid].value))];
            var offers' := AcceptOffers(offers, k);
            !Open(reqs', rid) &&
            forall j, buyer :: 0 <= j < |offers'| && offers'[j].requirement == rid ==> !PendingFor(offers', j, buyer)
  {
    AcceptScope(offers, k);
  }

  // ---------------------------------------------------------------
  // cancelOffer

  /** `findOne({ _id, farmer, status: "pending" })` on offers. */
  predicate PendingFrom(offers: seq<RequirementOffer>, id: nat, farmer: nat)
  {
    id < |offers| && offers[id].farmer == farmer && offers[id].status == OfferPending
  }

  /** cancelOffer. Only the farmer's own pending offer can be cancelled;
      its requirement's counter then goes down by one. */
  method CancelOffer(db: Store.Db, farmer: nat, role: string, id: nat) returns (reply: OfferReply)
    modifies db`offers, db`requirements
    ensures role != "farmer" ==>
              reply == NotFarmer && db.offers == old(db.offers) && db.requirements == old(db.requirements)
    ensures role == "farmer" && !PendingFrom(old(db.offers), id, farmer) ==>
              reply == OfferNotFound && db.offers == old(db.offers) && db.requirements == old(db.requirements)
    ensures role == "farmer" && PendingFrom(old(db.offers), id, farmer) ==>
              reply == OfferUpdated &&
              db.offers == old(db.offers)[id := old(db.offers)[id].(status := OfferCancelled)] &&
              db.requirements == Bump(old(db.requirements), old(db.offers)[id].requirement, -1)
  {
    if role != "farmer" {
      return NotFarmer;
    }
    if !PendingFrom(db.offers, id, farmer) {
      return OfferNotFound;
    }
    var offer := db.offers[id];
    db.offers := db.offers[id := offer.(status := OfferCancelled)];
    db.requirements := Bump(db.requirements, offer.requirement, -1);
    reply := OfferUpdated;
  }

  lemma CancelKeepsCounter(reqs: seq<Option<BuyerRequirement>>, offers: seq<RequirementOffer>, k: nat)
    requires CounterOk(reqs, offers) && k < |offers| && offers[k].status == OfferPending
    ensures CounterOk(Bump(reqs, offers[k].requirement, -1), offers[k := offers[k].(status := OfferCancelled)])
  {
    var c := offers[k].(status := OfferCancelled);
    forall r | 0 <= r < |reqs|
      ensures CountLive(offers[k := c], r) == CountLive(offers, r) - LiveOn(offers[k], r)
    {
      CountUpdate(offers, k, c, r);
    }
  }

  /** Creating an offer and then cancelling it puts every requirement
      back as it was, counters included, and leaves every live count as
      it was. */
  lemma CreateThenCancel(reqs: seq<Option<BuyerRequirement>>, offers: seq<RequirementOffer>,
                         rid: nat, farmer: nat, input: OfferInput)
    requires Open(reqs, rid) && OfferInputValid(input)
    ensures var o := NewOffer(rid, reqs[rid].value.buyer, farmer, input);
            var reqs1 := Bump(reqs, rid, 1);
            var offers1 := offers + [o];
            var offers2 := offers1[|offers| := o.(status := OfferCancelled)];
            PendingFrom(offers1, |offers|, farmer) &&
            Bump(reqs1, offers1[|offers|].requirement, -1) == reqs &&
            forall r :: CountLive(offers2, r) == CountLive(offers, r)
  {
    var o := NewOffer(rid, reqs[rid].value.buyer, farmer, input);
    var offers2 := (offers + [o])[|offers| := o.(status := OfferCancelled)];
    assert offers2 == offers + [o.(status := OfferCancelled)];
    forall r
      ensures CountLive(offers2, r) == CountLive(offers, r)
    {
      CountAppend(offers, o.(status := OfferCancelled), r);
    }
  }

  // ---------------------------------------------------------------
  // The requirement operations and the counter

  /** A new requirement starts with a zero counter, and no offer can name
      it yet. */
  lemma NewRequirementKeepsCounter(reqs: seq<Option<BuyerRequirement>>, offers: seq<RequirementOffer>,
                                   r: BuyerRequirement)
    requires CounterOk(reqs, offers) && r.totalOffersReceived == 0
    ensures CounterOk(reqs + [Some(r)], offers)
  {
    CountNone(offers, |reqs|);
  }

  /** Deleting a requirement leaves the other counters exact. */
  lemma DeleteKeepsCounter(reqs: seq<Option<BuyerRequirement>>, offers: seq<RequirementOffer>, id: nat)
    requires CounterOk(reqs, offers) && id < |reqs|
    ensures CounterOk(reqs[id := None], offers)
  {
  }

  /** Acceptance checks only the buyer stored on the offer. After a body
      hands a requirement to another buyer, the buyer who posted it still
      has the pending offers on it to accept, while the new owner has
      none. */
  lemma TransferLeavesOffersWithOldBuyer(reqs: seq<Option<BuyerRequirement>>, offers: seq<RequirementOffer>,
                                         buyer: nat, rid: nat, j: nat, p: Requirements.Patch, other: nat)
    requires Requirements.Owns(reqs, buyer, rid) && Requirements.PatchValid(p)
    requires p.buyer == Some(other) && other != buyer && p.status.None?
    requires Open(reqs, rid) && PendingFor(offers, j, buyer) && offers[j].requirement == rid
    ensures var reqs' := reqs[rid := Some(Requirements.Apply(p, reqs[rid].value))];
            Requirements.Owns(reqs', other, rid) && Open(reqs', rid) &&
            PendingFor(offers, j, buyer) && !PendingFor(offers, j, other)
  {
    Requirements.BodyReassignsOwner(reqs, buyer, rid, p, other);
  }

  /** An update keeps the counters exact when its patch leaves the
      counter alone; a patch that sets it to anything but the live count
      breaks the invariant. */
  lemma UpdateAndCounter(reqs: seq<Option<BuyerRequirement>>, offers: seq<RequirementOffer>,
                         id: nat, p: Requirements.Patch)
    requires CounterOk(reqs, offers) && id < |reqs| && reqs[id].Some?
    ensures p.totalOffersReceived.None? ==>
              CounterOk(reqs[id := Some(Requirements.Apply(p, reqs[id].value))], offers)
    ensures p.totalOffersReceived.Some? && p.totalOffersReceived.value != CountLive(offers, id) ==>
              !CounterOk(reqs[id := Some(Requirements.Apply(p, reqs[id].value))], offers)
  {
  }
}

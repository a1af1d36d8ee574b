// controllers/buyerRequirementController.js: buyers post, list, change and
// delete their crop requirements; farmers browse the live ones.
module Requirements {
  import opened Common
  import opened RequirementModel
  import Sorting
  import Store

  datatype RequirementReply =
    | Created(id: nat)
    | Forbidden
    | MissingFields
    | RequirementNotFound
    | Done
    | ServerError

  /** The request body of createRequirement; None is an absent field. */
  datatype RequirementInput = RequirementInput(
    cropName: Option<string>,
    category: Option<Category>,
    quantity: Option<int>,
    unit: Option<string>,
    targetPrice: Option<int>,
    isNegotiable: Option<bool>,
    contractType: Option<ContractType>,
    requiredByDate: Option<int>,
    listingExpiresAt: Option<int>,
    qualityGrade: Option<RequiredGrade>,
    description: Option<string>)

  /** The controller's own check: crop name, quantity, target price,
      required-by date and contract type are truthy. A zero quantity or
      target price is refused here. */
  predicate RequiredGiven(input: RequirementInput)
  {
    Given(input.cropName) && GivenNum(input.quantity) && GivenNum(input.targetPrice) &&
    input.requiredByDate.Some? && input.contractType.Some?
  }

  /** The document before the save hooks: negotiable unless the body says
      otherwise, grade "Any" by default, active, with no offers yet. */
  function Draft(buyer: nat, input: RequirementInput, now: int): (r: BuyerRequirement)
    requires RequiredGiven(input)
    ensures r.isNegotiable == (if input.isNegotiable.Some? then input.isNegotiable.value else true)
    ensures r.qualityGrade == (if input.qualityGrade.Some? then input.qualityGrade.value else AnyGrade)
    ensures r.status == Active && r.totalOffersReceived == 0
    ensures r.buyer == buyer && r.listingExpiresAt == input.listingExpiresAt
    ensures r.requiredByDate == input.requiredByDate.value
  {
    BuyerRequirement(
      buyer, input.cropName.value, input.category, input.quantity.value, input.unit,
      input.targetPrice.value,
      if input.isNegotiable.Some? then input.isNegotiable.value else true,
      input.contractType.value, input.requiredByDate.value, input.listingExpiresAt,
      if input.qualityGrade.Some? then input.qualityGrade.value else AnyGrade,
      input.description, Active, 0, now)
  }

  /** createRequirement. A draft the schema refuses (no category or unit,
      quantity below 1, negative price, long description) is a server
      error. */
  method CreateRequirement(db: Store.Db, buyer: nat, role: string, input: RequirementInput, now: int)
    returns (reply: RequirementReply)
    modifies db`requirements
    ensures role != "buyer" ==> reply == Forbidden && db.requirements == old(db.requirements)
    ensures role == "buyer" && !RequiredGiven(input) ==>
              reply == MissingFields && db.requirements == old(db.requirements)
    ensures role == "buyer" && RequiredGiven(input) && !SchemaValid(Draft(buyer, input, now)) ==>
              reply == ServerError && db.requirements == old(db.requirements)
    ensures role == "buyer" && RequiredGiven(input) && SchemaValid(Draft(buyer, input, now)) ==>
              reply == Created(|old(db.requirements)|) &&
              db.requirements == old(db.requirements) + [Some(PreSave(Draft(buyer, input, now)))]
  {
    if role != "buyer" {
      return Forbidden;
    }
    if !RequiredGiven(input) {
      return MissingFields;
    }
    var r := Draft(buyer, input, now);
    if !SchemaValid(r) {
      return ServerError;
    }
    db.requirements := db.requirements + [Some(PreSave(r))];
    reply := Created(|db.requirements| - 1);
  }

  // ---------------------------------------------------------------
  // Listings

  /** `.sort({ createdAt: -1 })` */
  function NewerFirst(): (BuyerRequirement, BuyerRequirement) -> bool
  {
    (a: BuyerRequirement, b: BuyerRequirement) => a.createdAt >= b.createdAt
  }

  lemma NewerFirstIsOrder()
    ensures Sorting.Total(NewerFirst()) && Sorting.Transitive(NewerFirst())
  {
  }

  /** The feed's filter: active, not past its expiry (a missing expiry
      never hides it), in the category unless none or "all" was asked,
      of the contract type when one was asked. */
  predicate Visible(x: BuyerRequirement, category: Option<Category>, contract: Option<ContractType>, now: int)
  {
    x.status == Active &&
    (x.listingExpiresAt.None? || x.listingExpiresAt.value >= now) &&
    (category.None? || x.category == category) &&
    (contract.None? || x.contractType == contract.value)
  }

  function VisibleFor(category: Option<Category>, contract: Option<ContractType>, now: int): BuyerRequirement -> bool
  {
    (x: BuyerRequirement) => Visible(x, category, contract, now)
  }

  /** getRequirementsFeed: exactly the visible requirements, newest first.
      `category` None stands for an absent, empty or "all" category. */
  function Feed(reqs: seq<Option<BuyerRequirement>>, category: Option<Category>,
                contract: Option<ContractType>, now: int): (r: seq<BuyerRequirement>)
    ensures forall x :: x in r <==> Some(x) in reqs && Visible(x, category, contract, now)
    ensures multiset(r) == multiset(Sorting.Filter(Sorting.Live(reqs), VisibleFor(category, contract, now)))
    ensures forall j, k :: 0 <= j < k < |r| ==> r[j].createdAt >= r[k].createdAt
  {
    NewerFirstIsOrder();
    Sorting.Sort(Sorting.Filter(Sorting.Live(reqs), VisibleFor(category, contract, now)), NewerFirst())
  }

  predicate Mine(x: BuyerRequirement, buyer: nat, status: Option<RequirementStatus>)
  {
    x.buyer == buyer && (status.None? || x.status == status.value)
  }

  function MineFor(buyer: nat, status: Option<RequirementStatus>): BuyerRequirement -> bool
  {
    (x: BuyerRequirement) => Mine(x, buyer, status)
  }

  /** getMyRequirements: exactly the caller's requirements, in the asked
      status when one was given, newest first. */
  function MyRequirements(reqs: seq<Option<BuyerRequirement>>, buyer: nat,
                          status: Option<RequirementStatus>): (r: seq<BuyerRequirement>)
    ensures forall x :: x in r <==> Some(x) in reqs && x.buyer == buyer && (status.None? || x.status == status.value)
    ensures multiset(r) == multiset(Sorting.Filter(Sorting.Live(reqs), MineFor(buyer, status)))
    ensures forall j, k :: 0 <= j < k < |r| ==> r[j].createdAt >= r[k].createdAt
  {
    NewerFirstIsOrder();
    Sorting.Sort(Sorting.Filter(Sorting.Live(reqs), MineFor(buyer, status)), NewerFirst())
  }

  /** A requirement the controller has just created shows in the feed of
      any farmer who asks no filter, until its expiry (the required-by
      date when none was given) has passed. */
  lemma NewRequirementInFeed(reqs: seq<Option<BuyerRequirement>>, buyer: nat, input: RequirementInput,
                             created: int, now: int)
    requires RequiredGiven(input)
    ensures var x := PreSave(Draft(buyer, input, created));
            var expiry := if input.listingExpiresAt.Some? then input.listingExpiresAt.value
                          else input.requiredByDate.value;
            x in Feed(reqs + [Some(x)], None, None, now) <==> now <= expiry
  {
    var x := PreSave(Draft(buyer, input, created));
    assert Some(x) in reqs + [Some(x)];
  }

  // ---------------------------------------------------------------
  // Changing and deleting

  /** The modelled paths a request body may set on a requirement; None
      leaves the path as it is. The body is passed to the update
      unfiltered, so it may set `buyer` too. */
  datatype Patch = Patch(
    buyer: Option<nat>,
    cropName: Option<string>,
    category: Option<Category>,
    quantity: Option<int>,
    unit: Option<string>,
    targetPrice: Option<int>,
    isNegotiable: Option<bool>,
    contractType: Option<ContractType>,
    requiredByDate: Option<int>,
    listingExpiresAt: Option<int>,
    qualityGrade: Option<RequiredGrade>,
    description: Option<string>,
    status: Option<RequirementStatus>,
    totalOffersReceived: Option<int>)

  function Pick<T>(o: Option<T>, keep: T): T
  {
    if o.Some? then o.value else keep
  }

  function Apply(p: Patch, r: BuyerRequirement): BuyerRequirement
  {
    r.(buyer := Pick(p.buyer, r.buyer),
       cropName := Pick(p.cropName, r.cropName),
       category := if p.category.Some? then p.category else r.category,
       quantity := Pick(p.quantity, r.quantity),
       unit := if p.unit.Some? then p.unit else r.unit,
       targetPrice := Pick(p.targetPrice, r.targetPrice),
       isNegotiable := Pick(p.isNegotiable, r.isNegotiable),
       contractType := Pick(p.contractType, r.contractType),
       requiredByDate := Pick(p.requiredByDate, r.requiredByDate),
       listingExpiresAt := if p.listingExpiresAt.Some? then p.listingExpiresAt else r.listingExpiresAt,
       qualityGrade := Pick(p.qualityGrade, r.qualityGrade),
       description := if p.description.Some? then p.description else r.description,
       status := Pick(p.status, r.status),
       totalOffersReceived := Pick(p.totalOffersReceived, r.totalOffersReceived))
  }

  /** The update validators, which check only the paths being set: a
      required string may not be set to "", and the bounds hold. */
  predicate PatchValid(p: Patch)
  {
    (p.cropName.Some? ==> p.cropName.value != "") &&
    (p.unit.Some? ==> p.unit.value != "") &&
    (p.quantity.Some? ==> p.quantity.value >= 1) &&
    (p.targetPrice.Some? ==> p.targetPrice.value >= 0) &&
    (p.description.Some? ==> |p.description.value| <= DescriptionMax)
  }

  /** A patch that passes the update validators keeps a valid requirement
      valid. */
  lemma PatchKeepsValid(p: Patch, r: BuyerRequirement)
    requires PatchValid(p) && SchemaValid(r)
    ensures SchemaValid(Apply(p, r))
    ensures p.totalOffersReceived.None? ==> Apply(p, r).totalOffersReceived == r.totalOffersReceived
  {
  }

  /** A body that sets `buyer` hands the requirement to that buyer: the
      caller no longer owns it, and the new buyer does. */
  lemma BodyReassignsOwner(reqs: seq<Option<BuyerRequirement>>, buyer: nat, id: nat, p: Patch, other: nat)
    requires Owns(reqs, buyer, id) && PatchValid(p) && p.buyer == Some(other) && other != buyer
    ensures var reqs' := reqs[id := Some(Apply(p, reqs[id].value))];
            Owns(reqs', other, id) && !Owns(reqs', buyer, id)
  {
  }

  /** `findOne({ _id, buyer })` on requirements. */
  predicate Owns(reqs: seq<Option<BuyerRequirement>>, buyer: nat, id: nat)
  {
    id < |reqs| && reqs[id].Some? && reqs[id].value.buyer == buyer
  }

  /** updateRequirement. The validators run before the lookup, so an
      invalid patch is a server error even for an unknown id. */
  method UpdateRequirement(db: Store.Db, buyer: nat, id: nat, p: Patch) returns (reply: RequirementReply)
    modifies db`requirements
    ensures !PatchValid(p) ==> reply == ServerError && db.requirements == old(db.requirements)
    ensures PatchValid(p) && !Owns(old(db.requirements), buyer, id) ==>
              reply == RequirementNotFound && db.requirements == old(db.requirements)
    ensures PatchValid(p) && Owns(old(db.requirements), buyer, id) ==>
              reply == Done &&
              db.requirements == old(db.requirements)[id := Some(Apply(p, old(db.requirements)[id].value))]
  {
    if !PatchValid(p) {
      return ServerError;
    }
    if !Owns(db.requirements, buyer, id) {
      return RequirementNotFound;
    }
    db.requirements := db.requirements[id := Some(Apply(p, db.requirements[id].value))];
    reply := Done;
  }

  /** deleteRequirement. */
  method DeleteRequirement(db: Store.Db, buyer: nat, id: nat) returns (reply: RequirementReply)
    modifies db`requirements
    ensures !Owns(old(db.requirements), buyer, id) ==>
              reply == RequirementNotFound && db.requirements == old(db.requirements)
    ensures Owns(old(db.requirements), buyer, id) ==>
              reply == Done && db.requirements == old(db.requirements)[id := None]
  {
    if !Owns(db.requirements, buyer, id) {
      return RequirementNotFound;
    }
    db.requirements := db.requirements[id := None];
    reply := Done;
  }
}

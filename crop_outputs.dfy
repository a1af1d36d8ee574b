// controllers/cropOutputController.js: recording a harvest as a crop
// output, which leaves its field fallow, and changing an output's status.
module CropOutputs {
  import opened Common
  import opened CropOutputModel
  import FarmModel
  import Farm
  import SaleListing
  import Store

  datatype OutputReply =
    | OutputCreated(id: nat)
    | FieldNotFound
    | NoCrop
    | OutputNotFound
    | StatusUpdated
    | ServerError

  /** `field.cropId` after `.populate("cropId")`: set and resolving to a
      crop master. */
  predicate HasCrop(f: FarmModel.Field, cropMasters: seq<FarmModel.CropMaster>)
  {
    f.cropId.Some? && f.cropId.value < |cropMasters|
  }

  /** The new output: the field's crop, status available, unit quintal and
      harvest date today unless given. */
  function NewOutput(farmer: nat, fieldId: nat, cropId: nat, quantity: int, unit: Option<Unit>,
                     harvestDate: Option<int>, storage: Option<string>, notes: Option<string>, now: int): CropOutput
  {
    CropOutput(farmer, fieldId, cropId, quantity, if unit.Some? then unit.value else Quintal,
               if harvestDate.Some? then harvestDate.value else now,
               storage, Available, None, None, notes)
  }

  /** The harvested field: fallow, with no planting or expected-harvest
      date. It keeps its crop. */
  function Harvested(f: FarmModel.Field): (r: FarmModel.Field)
    ensures r.status == FarmModel.Fallow && r.plantedDate.None? && r.expectedHarvest.None?
    ensures r.farmerId == f.farmerId && r.cropId == f.cropId && r.name == f.name && r.area == f.area
  {
    f.(status := FarmModel.Fallow, plantedDate := None, expectedHarvest := None)
  }

  /** createCropOutput: the field must be the caller's and have a crop;
      the output is saved (quantity is required), then the field is
      saved as harvested. */
  method CreateCropOutput(db: Store.Db, farmer: nat, fieldId: nat, quantity: Option<int>, unit: Option<Unit>,
                          harvestDate: Option<int>, storage: Option<string>, notes: Option<string>, now: int)
    returns (reply: OutputReply)
    modifies db`outputs, db`fields
    ensures !Farm.OwnsField(old(db.fields), fieldId, farmer) ==>
              reply == FieldNotFound && db.outputs == old(db.outputs) && db.fields == old(db.fields)
    ensures Farm.OwnsField(old(db.fields), fieldId, farmer) && !HasCrop(old(db.fields)[fieldId], db.cropMasters) ==>
              reply == NoCrop && db.outputs == old(db.outputs) && db.fields == old(db.fields)
    ensures Farm.OwnsField(old(db.fields), fieldId, farmer) && HasCrop(old(db.fields)[fieldId], db.cropMasters) &&
            quantity.None? ==>
              reply == ServerError && db.outputs == old(db.outputs) && db.fields == old(db.fields)
    ensures Farm.OwnsField(old(db.fields), fieldId, farmer) && HasCrop(old(db.fields)[fieldId], db.cropMasters) &&
            quantity.Some? ==>
              reply == OutputCreated(|old(db.outputs)|) &&
              db.outputs == old(db.outputs) + [NewOutput(farmer, fieldId, old(db.fields)[fieldId].cropId.value,
                                                         quantity.value, unit, harvestDate, storage, notes, now)] &&
              db.fields == old(db.fields)[fieldId := Harvested(old(db.fields)[fieldId])]
  {
    if !Farm.OwnsField(db.fields, fieldId, farmer) {
      return FieldNotFound;
    }
    var f := db.fields[fieldId];
    if !HasCrop(f, db.cropMasters) {
      return NoCrop;
    }
    if quantity.None? {
      return ServerError;
    }
    db.outputs := db.outputs + [NewOutput(farmer, fieldId, f.cropId.value, quantity.value, unit,
                                          harvestDate, storage, notes, now)];
    db.fields := db.fields[fieldId := Harvested(f)];
    reply := OutputCreated(|db.outputs| - 1);
  }

  /** The `status` of the request body: absent, null, or a string. */
  datatype StatusInput = StatusAbsent | StatusNull | StatusString(text: string)

  /** The status `{ status }` writes, or None when the key is absent and
      the update drops it. No validator runs, so a null or a string
      outside the enum is stored as it is. */
  function WrittenStatus(status: StatusInput): (r: Option<OutputStatus>)
    ensures r.None? <==> status.StatusAbsent?
    ensures status.StatusNull? ==> r == Some(NullStatus)
    ensures status.StatusString? ==> r == Some(ParseStatus(status.text))
  {
    match status
    case StatusAbsent => None
    case StatusNull => Some(NullStatus)
    case StatusString(t) => Some(ParseStatus(t))
  }

  /** updateCropOutputStatus: only the caller's output, and only its
      status. The update runs no validators: any given value is stored
      and the reply is a success. */
  method UpdateCropOutputStatus(db: Store.Db, farmer: nat, id: nat, status: StatusInput)
    returns (reply: OutputReply)
    modifies db`outputs
    ensures !(id < |old(db.outputs)| && old(db.outputs)[id].farmerId == farmer) ==>
              reply == OutputNotFound && db.outputs == old(db.outputs)
    ensures id < |old(db.outputs)| && old(db.outputs)[id].farmerId == farmer ==>
              reply == StatusUpdated &&
              db.outputs == old(db.outputs)[id := if WrittenStatus(status).Some?
                                                  then old(db.outputs)[id].(status := WrittenStatus(status).value)
                                                  else old(db.outputs)[id]]
  {
    if !(id < |db.outputs| && db.outputs[id].farmerId == farmer) {
      return OutputNotFound;
    }
    var written := WrittenStatus(status);
    if written.Some? {
      db.outputs := db.outputs[id := db.outputs[id].(status := written.value)];
    }
    reply := StatusUpdated;
  }

  /** A string outside the enum is stored as given, and the stored
      output is in none of the statuses the listing handlers accept, so it
      cannot be put on sale until a valid status is written. */
  lemma UnlistedStatusStored(o: CropOutput, t: string)
    requires t !in ["available", "listed-for-sale", "quality-pending", "quality-approved",
                    "quality-rejected", "sold", "reserved"]
    ensures WrittenStatus(StatusString(t)) == Some(Unlisted(t))
    ensures var o' := o.(status := WrittenStatus(StatusString(t)).value);
            !SaleListing.Listable(o')
  {
  }

  /** Every output belongs to a stored field of the same farmer. */
  ghost predicate OutputsOwned(outputs: seq<CropOutput>, fields: seq<FarmModel.Field>)
  {
    forall i :: 0 <= i < |outputs| ==>
      outputs[i].fieldId < |fields| && fields[outputs[i].fieldId].farmerId == outputs[i].farmerId
  }

  /** Recording a harvest keeps every output tied to its farmer's field,
      and the new output can be put on sale at once. */
  lemma CreateKeepsOwnership(outputs: seq<CropOutput>, fields: seq<FarmModel.Field>, farmer: nat, fieldId: nat,
                             cropId: nat, quantity: int, unit: Option<Unit>, harvestDate: Option<int>,
                             storage: Option<string>, notes: Option<string>, now: int)
    requires OutputsOwned(outputs, fields) && Farm.OwnsField(fields, fieldId, farmer)
    ensures var o := NewOutput(farmer, fieldId, cropId, quantity, unit, harvestDate, storage, notes, now);
            OutputsOwned(outputs + [o], fields[fieldId := Harvested(fields[fieldId])]) &&
            o.status == Available && o.saleId.None?
  {
    var o := NewOutput(farmer, fieldId, cropId, quantity, unit, harvestDate, storage, notes, now);
    var outs, fs := outputs + [o], fields[fieldId := Harvested(fields[fieldId])];
    forall i | 0 <= i < |outs|
      ensures outs[i].fieldId < |fs| && fs[outs[i].fieldId].farmerId == outs[i].farmerId
    {
      if i < |outputs| {
        assert outs[i] == outputs[i];
      }
    }
  }

  /** Changing a status or planting a field never breaks the tie between
      an output and its farmer's field. */
  lemma UpdatesKeepOwnership(outputs: seq<CropOutput>, fields: seq<FarmModel.Field>, id: nat, s: OutputStatus,
                             fieldId: nat, cropId: nat, plantedDate: Option<int>, expectedHarvest: Option<int>, now: int)
    requires OutputsOwned(outputs, fields) && id < |outputs| && fieldId < |fields|
    ensures OutputsOwned(outputs[id := outputs[id].(status := s)], fields)
    ensures OutputsOwned(outputs, fields[fieldId := Farm.Planted(fields[fieldId], cropId, plantedDate, expectedHarvest, now)])
  {
    var outs := outputs[id := outputs[id].(status := s)];
    forall i | 0 <= i < |outs|
      ensures outs[i].fieldId < |fields| && fields[outs[i].fieldId].farmerId == outs[i].farmerId
    {
      assert outs[i].fieldId == outputs[i].fieldId && outs[i].farmerId == outputs[i].farmerId;
    }
  }

  /** A new field has no crop, so no output can be recorded on it until a
      crop is planted; a harvested field keeps its crop, so it can be
      harvested again without replanting. */
  lemma CropNeededForHarvest(farmer: nat, name: string, area: int, soilType: Option<string>,
                             coordinates: Option<FarmModel.Coordinates>, f: FarmModel.Field,
                             cropMasters: seq<FarmModel.CropMaster>)
    ensures !HasCrop(Farm.NewField(farmer, name, area, soilType, coordinates), cropMasters)
    ensures HasCrop(f, cropMasters) ==> HasCrop(Harvested(f), cropMasters)
  {
  }
}

// models/Field.js, models/Task.js and models/CropMaster.js: a farmer's
// plots, their to-do items, and the master list of crops.
module FarmModel {
  import opened Common

  datatype FieldStatus = Growing | Preparing | Harvesting | Fallow

  datatype Coordinates = Coordinates(lat: int, lng: int)

  /** A field with the paths models/Field.js declares, plus `healthScore`,
      which the schema does not declare: the farm statistics read it from
      the stored document, and nothing in this model writes it. */
  datatype Field = Field(
    farmerId: nat,
    name: string,
    area: int,
    cropId: Option<nat>,
    soilType: Option<string>,
    coordinates: Coordinates,
    status: FieldStatus,
    plantedDate: Option<int>,
    expectedHarvest: Option<int>,
    health: Option<int>,
    healthScore: Option<int>)

  datatype Task = Task(
    farmerId: nat,
    fieldId: Option<nat>,
    title: string,
    dueDate: int,
    isCompleted: bool)

  datatype CropMaster = CropMaster(cropName: string, hasMSP: bool, isActive: bool)
}

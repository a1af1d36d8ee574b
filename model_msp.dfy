// models/MSP.js: a government minimum support price per crop.
module MspModel {
  import opened Common

  datatype Season = Kharif | Rabi | YearRound

  datatype Msp = Msp(
    cropName: string,
    price: int,
    unit: string,
    season: Season,
    lastUpdatedBy: Option<nat>,
    effectiveFrom: int,
    isActive: bool)

  /** Schema bound: the price is at least 0. */
  predicate SchemaValid(m: Msp)
  {
    m.price >= 0
  }
}

/** The pieces of the generated data file `data/deed-data.ts` that the engine
    reads besides the records themselves. The record store `deedData` is
    not fixed here: every operation takes it as a parameter. */
module DeedData {
  import opened Types

  /** `generalSearchFields`, the fields the general search looks through, in order. */
  const GeneralSearchFields: seq<Field> :=
    [MunicipalityTitleDeed, HajryPlotNumber, Mazaya, Title, ReferenceDeed, BuildingNo]
}

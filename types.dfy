/** The record and enumeration types of the application (`types.ts`). */
module Types {

  datatype Option<T> = None | Some(value: T)

  /** One property record. Every field is optional and nullable in the source;
      an absent field and a `null` one are both `None` here. The field names
      are the source's own: `mazaya` is the column shown as "Hajry" and
      `title` the column shown as "Mazaya". */
  datatype DeedEntry = DeedEntry(
    municipalityTitleDeed: Option<string>,
    hajryPlotNumber: Option<string>,
    mazaya: Option<string>,
    title: Option<string>,
    referenceDeed: Option<string>,
    buildingNo: Option<string>)

  /** The names of the six fields, for code that goes through them by name. */
  datatype Field = MunicipalityTitleDeed | HajryPlotNumber | Mazaya | Title | ReferenceDeed | BuildingNo

  /** `entry[field]`. */
  function FieldValue(e: DeedEntry, f: Field): Option<string>
  {
    match f
    case MunicipalityTitleDeed => e.municipalityTitleDeed
    case HajryPlotNumber => e.hajryPlotNumber
    case Mazaya => e.mazaya
    case Title => e.title
    case ReferenceDeed => e.referenceDeed
    case BuildingNo => e.buildingNo
  }

  /** JavaScript truthiness of a `string | null | undefined` value:
      neither missing nor the empty string. */
  predicate Truthy(v: Option<string>)
  {
    v.Some? && v.value != ""
  }

  /** The five search modes. */
  datatype SearchType = HajryOnly | HajrySearch | HajryAndBuilding | MazayaSearch | ExcelFile

  /** The two table views. */
  datatype TableViewType = Compact | Full

  /** `value === 'full'`. */
  predicate IsFullView(v: TableViewType)
  {
    v == Full
  }
}

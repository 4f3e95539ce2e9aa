/**
 * The records the clients exchange with the datastore: catalog criteria, enum
 * rows, projects, preferences (rows of `project_criteria`) and preference values
 * (rows of `project_criteria_values`), plus the write requests a client can send.
 */
module Records {
  import opened Wrappers

  /** Row ids handed out by the datastore. */
  type Id = nat

  /** Which front end runs the code: the React Native app or the web app. */
  datatype Client = Mobile | Web

  /** `preference_level`; the screens only ever offer these three. */
  datatype Level = Required | Preferred | Optional

  /** `value_type` of a catalog criterion; any other string renders no input. */
  datatype ValueType = BooleanType | NumberType | RangeType | EnumType | OtherType(name: string)

  /** A row of `system_criteria`; `labelText` is its `label` column (`label` is a Dafny keyword). */
  datatype Criterion = Criterion(key: string, labelText: string, valueType: ValueType)

  /** A row of `all_enums`: one value of one enum family. */
  datatype EnumRow = EnumRow(enumName: string, enumValue: string, sortOrder: int)

  /** A row of `project_criteria`. */
  datatype Preference = Preference(id: Id, projectId: Id, criterionKey: string, level: Level)

  /** The payload of one element of the batch insert into `project_criteria`. */
  datatype NewPreference = NewPreference(projectId: Id, criterionKey: string, level: Level)

  /** A row of `project_criteria_values`; every slot is nullable. */
  datatype PreferenceValue = PreferenceValue(
    id: Id,
    preferenceId: Id,
    valueBool: Option<bool>,
    valueMin: Option<real>,
    valueMax: Option<real>,
    valueEnum: Option<string>)

  /** The column names a value write may carry (`valueField`). */
  datatype Field = ValueBool | ValueMin | ValueMax | ValueEnum

  /** The content of one slot, whatever its column. */
  datatype Slot = BoolSlot(b: Option<bool>) | NumberSlot(x: Option<real>) | EnumSlot(e: Option<string>)

  /**
   * The pair (`valueField`, `value`) passed to `updateCriteriaValue`: the
   * boolean buttons send a boolean, the numeric inputs a number or null, the enum
   * picker a string.
   */
  datatype Assignment = SetBool(b: bool) | SetMin(min: Option<real>) | SetMax(max: Option<real>) | SetEnum(e: string)

  function FieldOf(a: Assignment): Field
  {
    match a
    case SetBool(_) => ValueBool
    case SetMin(_) => ValueMin
    case SetMax(_) => ValueMax
    case SetEnum(_) => ValueEnum
  }

  function SlotOf(a: Assignment): Slot
  {
    match a
    case SetBool(b) => BoolSlot(Some(b))
    case SetMin(x) => NumberSlot(x)
    case SetMax(x) => NumberSlot(x)
    case SetEnum(e) => EnumSlot(Some(e))
  }

  function Get(v: PreferenceValue, f: Field): Slot
  {
    match f
    case ValueBool => BoolSlot(v.valueBool)
    case ValueMin => NumberSlot(v.valueMin)
    case ValueMax => NumberSlot(v.valueMax)
    case ValueEnum => EnumSlot(v.valueEnum)
  }

  /** The record with the one slot of the assignment overwritten and everything else kept. */
  function Assign(v: PreferenceValue, a: Assignment): (r: PreferenceValue)
    ensures r.id == v.id && r.preferenceId == v.preferenceId
    ensures forall f :: Get(r, f) == if f == FieldOf(a) then SlotOf(a) else Get(v, f)
  {
    match a
    case SetBool(b) => v.(valueBool := Some(b))
    case SetMin(x) => v.(valueMin := x)
    case SetMax(x) => v.(valueMax := x)
    case SetEnum(e) => v.(valueEnum := Some(e))
  }

  /** The record the datastore creates for an insert carrying one slot: every other slot is null. */
  function NewValue(id: Id, preferenceId: Id, a: Assignment): (r: PreferenceValue)
    ensures r.id == id && r.preferenceId == preferenceId
    ensures forall f :: Get(r, f) == if f == FieldOf(a) then SlotOf(a) else Get(PreferenceValue(id, preferenceId, None, None, None, None), f)
  {
    Assign(PreferenceValue(id, preferenceId, None, None, None, None), a)
  }

  /** The insert payload of `handleCreateProject`. */
  datatype ProjectPayload = ProjectPayload(
    title: string,
    projectType: string,
    projectStatus: string,
    urgencyLevel: string,
    budgetTarget: Option<int>,
    budgetMax: Option<int>,
    currency: string,
    ownerId: Id)

  /** A row of `projects`: the payload plus the id and `created_at` the datastore adds. */
  datatype Project = Project(id: Id, createdAt: nat, payload: ProjectPayload)

  /** A write request sent to the datastore. */
  datatype Write =
    | PreferenceRowsInsert(rows: seq<NewPreference>)
    | LevelUpdate(id: Id, level: Level)
    | ValueInsert(preferenceId: Id, assignment: Assignment)
    | ValueUpdate(id: Id, preferenceId: Id, assignment: Assignment)
    | ProjectInsert(payload: ProjectPayload)
}

/**
 * The hosted datastore, modelled as an in-memory object. It holds the three
 * tables the core writes (`projects`, `project_criteria`,
 * `project_criteria_values`), the two read-only reference tables
 * (`system_criteria`, `all_enums`) and the log of write requests it received.
 * Each write takes an `ok` flag: the answer the network gave (false = the call
 * returned an error and changed nothing).
 */
module Store {
  import opened Wrappers
  import opened Records
  import opened Tables

  /** Filter: rows of one project. */
  function OfProject(projectId: Id): Preference -> bool
  {
    (p: Preference) => p.projectId == projectId
  }

  /** Filter: value records of a set of preferences. */
  function ForPreferences(ids: set<Id>): PreferenceValue -> bool
  {
    (v: PreferenceValue) => v.preferenceId in ids
  }

  /** Filter: projects of one owner. */
  function OwnedBy(owner: Id): Project -> bool
  {
    (p: Project) => p.payload.ownerId == owner
  }

  /** A level update: at most the row `id` changes, and only its level. */
  function LevelUpdated(prefs: map<Id, Preference>, id: Id, level: Level): (r: map<Id, Preference>)
    ensures r.Keys == prefs.Keys
    ensures forall k :: k in r && k != id ==> r[k] == prefs[k]
    ensures id in prefs ==> r[id] == prefs[id].(level := level)
  {
    if id in prefs then prefs[id := prefs[id].(level := level)] else prefs
  }

  /**
   * A value update, which also resends the preference id: at most the row
   * `id` changes, in its owner and the one slot.
   */
  function ValueUpdated(values: map<Id, PreferenceValue>, id: Id, preferenceId: Id, a: Assignment): (r: map<Id, PreferenceValue>)
    ensures r.Keys == values.Keys
    ensures forall k :: k in r && k != id ==> r[k] == values[k]
    ensures id in values ==> r[id].id == values[id].id && r[id].preferenceId == preferenceId
    ensures id in values ==> forall f :: Get(r[id], f) == if f == FieldOf(a) then SlotOf(a) else Get(values[id], f)
  {
    if id in values then values[id := Assign(values[id], a).(preferenceId := preferenceId)] else values
  }

  /** Every row sits under its own id, below the next id to hand out. */
  ghost predicate WellKeyed<T>(t: map<Id, T>, idOf: T -> Id, n: nat)
  {
    forall id :: id in t ==> id < n && idOf(t[id]) == id
  }

  /** Every value record belongs to a stored preference row. */
  ghost predicate ValuesOwned(values: map<Id, PreferenceValue>, preferences: map<Id, Preference>)
  {
    forall id :: id in values ==> values[id].preferenceId in preferences
  }

  /** Every preference row belongs to a stored project. */
  ghost predicate PreferencesOwned(preferences: map<Id, Preference>, projects: map<Id, Project>)
  {
    forall id :: id in preferences ==> preferences[id].projectId in projects
  }

  class Datastore {
    const catalog: seq<Criterion>
    const enumRows: seq<EnumRow>
    var projects: map<Id, Project>
    var preferences: map<Id, Preference>
    var values: map<Id, PreferenceValue>
    var nextId: nat
    var log: seq<Write>

    ghost predicate Valid()
      reads this
    {
      && WellKeyed(projects, (p: Project) => p.id, nextId)
      && (forall id :: id in projects ==> projects[id].createdAt == id)
      && WellKeyed(preferences, (p: Preference) => p.id, nextId)
      && WellKeyed(values, (v: PreferenceValue) => v.id, nextId)
      && ValuesOwned(values, preferences)
      && PreferencesOwned(preferences, projects)
    }

    constructor (catalog: seq<Criterion>, enumRows: seq<EnumRow>)
      ensures Valid()
      ensures this.catalog == catalog && this.enumRows == enumRows
      ensures projects == map[] && preferences == map[] && values == map[] && log == [] && nextId == 0
    {
      this.catalog := catalog;
      this.enumRows := enumRows;
      projects, preferences, values := map[], map[], map[];
      nextId := 0;
      log := [];
    }

    /** Select the preference rows of a project. */
    function PreferencesOf(projectId: Id): seq<Preference>
      reads this
    {
      Where(preferences, OfProject(projectId), nextId)
    }

    /** Select the value records of a set of preferences. */
    function ValuesFor(ids: set<Id>): seq<PreferenceValue>
      reads this
    {
      Where(values, ForPreferences(ids), nextId)
    }

    /** Select an owner's projects, newest `created_at` first. */
    function ProjectsOwnedBy(owner: Id): seq<Project>
      reads this
    {
      WhereNewestFirst(projects, OwnedBy(owner), nextId)
    }

    /** Batch insert of preference rows of stored projects: all rows or none. */
    method InsertPreferences(rows: seq<NewPreference>, ok: bool) returns (r: Option<seq<Preference>>)
      requires Valid()
      requires forall row :: row in rows ==> row.projectId in projects
      modifies this
      ensures Valid()
      ensures log == old(log) + [PreferenceRowsInsert(rows)]
      ensures projects == old(projects) && values == old(values)
      ensures ok ==> r == Some(Stamp(rows, old(nextId)))
      ensures ok ==> preferences == old(preferences) + StampTable(rows, old(nextId)) && nextId == old(nextId) + |rows|
      ensures !ok ==> r == None && preferences == old(preferences) && nextId == old(nextId)
    {
      log := log + [PreferenceRowsInsert(rows)];
      if ok {
        r := Some(Stamp(rows, nextId));
        preferences := preferences + StampTable(rows, nextId);
        nextId := nextId + |rows|;
      } else {
        r := None;
      }
    }

    /** Update the level of one preference row. */
    method UpdateLevel(id: Id, level: Level, ok: bool)
      requires Valid()
      modifies this
      ensures Valid()
      ensures log == old(log) + [LevelUpdate(id, level)]
      ensures projects == old(projects) && values == old(values) && nextId == old(nextId)
      ensures preferences == if ok then LevelUpdated(old(preferences), id, level) else old(preferences)
    {
      log := log + [LevelUpdate(id, level)];
      if ok {
        preferences := LevelUpdated(preferences, id, level);
      }
    }

    /** Insert a value record holding one slot for a stored preference. */
    method InsertValue(preferenceId: Id, a: Assignment, ok: bool) returns (r: Option<PreferenceValue>)
      requires Valid() && preferenceId in preferences
      modifies this
      ensures Valid()
      ensures log == old(log) + [ValueInsert(preferenceId, a)]
      ensures projects == old(projects) && preferences == old(preferences)
      ensures ok ==> r == Some(NewValue(old(nextId), preferenceId, a))
      ensures ok ==> values == old(values)[old(nextId) := r.value] && nextId == old(nextId) + 1
      ensures !ok ==> r == None && values == old(values) && nextId == old(nextId)
    {
      log := log + [ValueInsert(preferenceId, a)];
      if ok {
        r := Some(NewValue(nextId, preferenceId, a));
        values := values[nextId := r.value];
        nextId := nextId + 1;
      } else {
        r := None;
      }
    }

    /** Update one slot (and the preference id, that of a stored preference) of value record `id`. */
    method UpdateValue(id: Id, preferenceId: Id, a: Assignment, ok: bool)
      requires Valid() && preferenceId in preferences
      modifies this
      ensures Valid()
      ensures log == old(log) + [ValueUpdate(id, preferenceId, a)]
      ensures projects == old(projects) && preferences == old(preferences) && nextId == old(nextId)
      ensures values == if ok then ValueUpdated(old(values), id, preferenceId, a) else old(values)
    {
      log := log + [ValueUpdate(id, preferenceId, a)];
      if ok {
        values := ValueUpdated(values, id, preferenceId, a);
      }
    }

    /** Insert a project; its `created_at` is the insertion stamp, and it starts with no preference rows. */
    method InsertProject(payload: ProjectPayload, ok: bool) returns (r: Option<Project>)
      requires Valid()
      modifies this
      ensures Valid()
      ensures log == old(log) + [ProjectInsert(payload)]
      ensures preferences == old(preferences) && values == old(values)
      ensures ok ==> r == Some(Project(old(nextId), old(nextId), payload))
      ensures ok ==> projects == old(projects)[old(nextId) := r.value] && nextId == old(nextId) + 1
      ensures ok ==> PreferencesOf(r.value.id) == []
      ensures !ok ==> r == None && projects == old(projects) && nextId == old(nextId)
    {
      log := log + [ProjectInsert(payload)];
      if ok {
        r := Some(Project(nextId, nextId, payload));
        projects := projects[nextId := r.value];
        WhereEmpty(preferences, OfProject(nextId), nextId + 1);
        nextId := nextId + 1;
      } else {
        r := None;
      }
    }
  }
}

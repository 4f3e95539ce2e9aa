/**
 * The project detail screen (mobile `ProjectDetailScreen`, web `ProjectDetail`):
 * its state, the load with its reconcile step, and the two edit operations.
 * Among the operations modelled for both clients, the only difference is the
 * cache after updating an existing value record: the mobile screen rewrites
 * its entry and the web page does not. The `client` constant selects that
 * behaviour. The enum picker state exists on mobile only.
 */
module ProjectDetail {
  import opened Wrappers
  import opened Records
  import opened Tables
  import opened Store
  import opened EnumRegistry
  import opened Preferences

  /** The answers the datastore gives to the calls of one `loadProjectData`; true means no error. */
  datatype LoadReplies = LoadReplies(project: bool, catalog: bool, preferences: bool, insert: bool, values: bool, enums: bool)

  /** The mobile enum picker's `selectedCriterion`. */
  datatype Selection = Selection(criterion: Criterion, preference: Preference)

  class DetailScreen {
    const client: Client
    const store: Datastore
    const projectId: Id
    var loading: bool
    var project: Option<Project>
    var systemCriteria: seq<Criterion>
    var projectCriteria: seq<Preference>
    var criteriaValues: map<Id, PreferenceValue>
    var allEnums: map<string, seq<string>>
    var selected: Option<Selection>
    var enumModalVisible: bool

    ghost predicate Valid()
      reads this, store
    {
      store.Valid() && Tracks(client, criteriaValues, store.values)
    }

    constructor (client: Client, store: Datastore, projectId: Id)
      requires store.Valid()
      ensures Valid()
      ensures this.client == client && this.store == store && this.projectId == projectId
      ensures loading && project == None && systemCriteria == [] && projectCriteria == []
      ensures criteriaValues == map[] && allEnums == map[] && selected == None && !enumModalVisible
    {
      this.client := client;
      this.store := store;
      this.projectId := projectId;
      loading := true;
      project := None;
      systemCriteria, projectCriteria := [], [];
      criteriaValues, allEnums := map[], map[];
      selected := None;
      enumModalVisible := false;
    }

    /** The criteria cards on screen. */
    function Cards(): seq<(Criterion, Preference)>
      reads this
    {
      Shown(systemCriteria, projectCriteria)
    }

    /** `initializeProjectCriteria`: the batch insert; on failure the list is left alone and `[]` returned. */
    method InitializeProjectCriteria(criteria: seq<Criterion>, ok: bool) returns (rows: seq<Preference>)
      requires Valid() && projectId in store.projects
      modifies this`projectCriteria, store
      ensures Valid()
      ensures store.log == old(store.log) + [PreferenceRowsInsert(SeedRows(criteria, projectId))]
      ensures store.projects == old(store.projects) && store.values == old(store.values)
      ensures ok ==> rows == Stamp(SeedRows(criteria, projectId), old(store.nextId)) && projectCriteria == rows
      ensures ok ==> store.preferences == old(store.preferences) + StampTable(SeedRows(criteria, projectId), old(store.nextId))
      ensures ok ==> store.nextId == old(store.nextId) + |criteria|
      ensures !ok ==> rows == [] && projectCriteria == old(projectCriteria)
      ensures !ok ==> store.preferences == old(store.preferences) && store.nextId == old(store.nextId)
      ensures ok ==> forall id :: id in store.values ==> store.values[id].preferenceId !in IdsOf(rows)
    {
      SeededHasNoValues(store.values, store.preferences, criteria, projectId, store.nextId, 0);
      var data := store.InsertPreferences(SeedRows(criteria, projectId), ok);
      if data.Some? {
        projectCriteria := data.value;
        rows := data.value;
      } else {
        rows := [];
      }
    }

    /** `loadCriteriaValues`: the value records of `rows`, indexed by preference id; on failure nothing changes. */
    method LoadCriteriaValues(rows: seq<Preference>, ok: bool)
      requires Valid()
      modifies this`criteriaValues
      ensures Valid()
      ensures criteriaValues == if ok then Indexed(store.ValuesFor(IdsOf(rows))) else old(criteriaValues)
      ensures ok && (forall id :: id in store.values ==> store.values[id].preferenceId !in IdsOf(rows)) ==> criteriaValues == map[]
    {
      WhereEmpty(store.values, ForPreferences(IdsOf(rows)), store.nextId);
      if ok {
        var data := store.ValuesFor(IdsOf(rows));
        criteriaValues := IndexValues(data);
        IndexedSelectMirrors(store.values, ForPreferences(IdsOf(rows)), store.nextId);
        MirrorsTracks(client, criteriaValues, store.values);
      }
    }

    /**
     * `loadProjectData`: fetch the project, the catalog and the project's
     * preference rows; reconcile; load the values; fetch and group the enums.
     * A failed project, catalog, preference or enum fetch ends the load there
     * (the `catch`), keeping what was set before it; a failed seed insert or
     * values select is caught where it happens and the load goes on.
     * `loading` is cleared in every case (the `finally`).
     */
    method LoadProjectData(replies: LoadReplies)
      requires Valid()
      modifies this`loading, this`project, this`systemCriteria, this`projectCriteria, this`criteriaValues, this`allEnums, store
      ensures Valid()
      ensures !loading
      ensures store.projects == old(store.projects) && store.values == old(store.values)
      ensures var found := replies.project && projectId in old(store.projects);
              var listed := found && replies.catalog;
              var fetched := listed && replies.preferences;
              var existing := old(store.PreferencesOf(projectId));
              var r := Reconcile(existing, store.catalog, projectId, old(store.nextId), replies.insert);
              && project == (if found then Some(old(store.projects)[projectId]) else old(project))
              && systemCriteria == (if listed then store.catalog else old(systemCriteria))
              && projectCriteria == (if fetched then WorkingSet(r, old(projectCriteria)) else old(projectCriteria))
              && store.log == (if fetched && existing == [] then old(store.log) + [PreferenceRowsInsert(SeedRows(store.catalog, projectId))] else old(store.log))
              && store.preferences == (if fetched && r.Seeded? then old(store.preferences) + StampTable(SeedRows(store.catalog, projectId), old(store.nextId)) else old(store.preferences))
              && store.nextId == old(store.nextId) + (if fetched && r.Seeded? then |store.catalog| else 0)
              && criteriaValues == (if fetched && LoadsValues(r) && replies.values then Indexed(store.ValuesFor(IdsOf(WorkingSet(r, [])))) else old(criteriaValues))
              && allEnums == (if fetched && replies.enums then Grouped(store.enumRows) else old(allEnums))
    ensures var fetched := replies.project && projectId in old(store.projects) && replies.catalog && replies.preferences;
            var r := Reconcile(old(store.PreferencesOf(projectId)), store.catalog, projectId, old(store.nextId), replies.insert);
            fetched && r.Seeded? ==>
              && (forall id :: id in store.values ==> store.values[id].preferenceId !in IdsOf(r.rows))
              && (LoadsValues(r) && replies.values ==> criteriaValues == map[])
    {
      if !replies.project || projectId !in store.projects {
        loading := false;
        return;
      }
      project := Some(store.projects[projectId]);
      if !replies.catalog {
        loading := false;
        return;
      }
      var criteriaData := store.catalog;
      systemCriteria := criteriaData;
      if !replies.preferences {
        loading := false;
        return;
      }
      var projCritData := store.PreferencesOf(projectId);
      if projCritData == [] {
        var newCriteria := InitializeProjectCriteria(criteriaData, replies.insert);
        if newCriteria != [] {
          LoadCriteriaValues(newCriteria, replies.values);
        }
      } else {
        projectCriteria := projCritData;
        LoadCriteriaValues(projCritData, replies.values);
      }
      if !replies.enums {
        loading := false;
        return;
      }
      allEnums := GroupEnums(store.enumRows);
      loading := false;
    }

    /** `updatePreferenceLevel`: the store update, then the list rewritten at that id only if it succeeded. */
    method UpdatePreferenceLevel(criterionId: Id, level: Level, ok: bool)
      requires Valid()
      modifies this`projectCriteria, store
      ensures Valid()
      ensures store.log == old(store.log) + [LevelUpdate(criterionId, level)]
      ensures store.projects == old(store.projects) && store.values == old(store.values) && store.nextId == old(store.nextId)
      ensures store.preferences == if ok then LevelUpdated(old(store.preferences), criterionId, level) else old(store.preferences)
      ensures projectCriteria == if ok then WithLevel(old(projectCriteria), criterionId, level) else old(projectCriteria)
    {
      store.UpdateLevel(criterionId, level, ok);
      if ok {
        projectCriteria := WithLevel(projectCriteria, criterionId, level);
      }
    }

    /**
     * `updateCriteriaValue`: exactly one write, insert or update according to
     * the cache. The id is that of a fetched, rendered preference row, so the
     * store holds that row.
     */
    method UpdateCriteriaValue(projectCriterionId: Id, a: Assignment, ok: bool)
      requires Valid() && projectCriterionId in store.preferences
      modifies this`criteriaValues, store
      ensures Valid()
      ensures store.log == old(store.log) + [ValueWrite(old(criteriaValues), projectCriterionId, a)]
      ensures store.projects == old(store.projects) && store.preferences == old(store.preferences)
      ensures ValueState(store.values, store.nextId, criteriaValues)
              == SetValue(client, old(ValueState(store.values, store.nextId, criteriaValues)), projectCriterionId, a, ok)
    {
      ghost var before := ValueState(store.values, store.nextId, criteriaValues);
      SetValueKeepsTracking(client, before, projectCriterionId, a, ok);
      if projectCriterionId in criteriaValues {
        var existingValue := criteriaValues[projectCriterionId];
        store.UpdateValue(existingValue.id, projectCriterionId, a, ok);
        if ok && client == Mobile {
          criteriaValues := criteriaValues[projectCriterionId := Assign(existingValue, a)];
        }
      } else {
        var data := store.InsertValue(projectCriterionId, a, ok);
        if data.Some? {
          criteriaValues := criteriaValues[projectCriterionId := data.value];
        }
      }
    }

    /** The Min / Max inputs: write the parsed number to the bound's slot, or null when it is NaN or zero. */
    method EditNumber(projectCriterionId: Id, bound: Bound, text: string, parseFloat: string -> Option<real>, ok: bool)
      requires Valid() && projectCriterionId in store.preferences
      modifies this`criteriaValues, store
      ensures Valid()
      ensures store.log == old(store.log) + [ValueWrite(old(criteriaValues), projectCriterionId, NumberInput(bound, text, parseFloat))]
      ensures store.projects == old(store.projects) && store.preferences == old(store.preferences)
      ensures ValueState(store.values, store.nextId, criteriaValues)
              == SetValue(client, old(ValueState(store.values, store.nextId, criteriaValues)), projectCriterionId, NumberInput(bound, text, parseFloat), ok)
    {
      UpdateCriteriaValue(projectCriterionId, NumberInput(bound, text, parseFloat), ok);
    }

    /** The values the enum picker lists for the selected criterion. */
    function PickerOptions(): seq<string>
      reads this
    {
      if selected.Some? then ResolveEnumValues(allEnums, selected.value.criterion.key) else []
    }

    /** `openEnumPicker` (mobile). */
    method OpenEnumPicker(criterion: Criterion, projectCriterion: Preference)
      modifies this`selected, this`enumModalVisible
      ensures selected == Some(Selection(criterion, projectCriterion)) && enumModalVisible
    {
      selected := Some(Selection(criterion, projectCriterion));
      enumModalVisible := true;
    }

    /** `selectEnumValue` (mobile): write `value_enum` for the selected row and close the picker; no-op without a selection. */
    method SelectEnumValue(value: string, ok: bool)
      requires Valid()
      requires selected.Some? ==> selected.value.preference.id in store.preferences
      modifies this`criteriaValues, this`selected, this`enumModalVisible, store
      ensures Valid()
      ensures old(selected).None? ==>
                selected == old(selected) && enumModalVisible == old(enumModalVisible) && criteriaValues == old(criteriaValues)
                && store.log == old(store.log) && store.values == old(store.values) && store.nextId == old(store.nextId)
      ensures old(selected).Some? ==>
                var id := old(selected).value.preference.id;
                && selected == None && !enumModalVisible
                && store.log == old(store.log) + [ValueWrite(old(criteriaValues), id, SetEnum(value))]
                && ValueState(store.values, store.nextId, criteriaValues)
                   == SetValue(client, old(ValueState(store.values, store.nextId, criteriaValues)), id, SetEnum(value), ok)
      ensures store.projects == old(store.projects) && store.preferences == old(store.preferences)
    {
      if selected.Some? {
        UpdateCriteriaValue(selected.value.preference.id, SetEnum(value), ok);
        enumModalVisible := false;
        selected := None;
      }
    }
  }
}

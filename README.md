# iziki-mobile criteria preferences: a verified model

This project models the criteria-preference logic of the iziki real-estate
decision tool and the project-creation code beside it. Both live in the mobile
app (React Native) and again in the web app (React).

A user creates **projects**, each a buy, rent or invest search. For every
project the user sets a **preference** for each criterion of a fixed
**catalog**. A preference has an importance level (`required`, `preferred`,
`optional`). It may also have a **value record** with four nullable slots:
`value_bool`, `value_min`, `value_max` and `value_enum`. Enumerated criteria
take their legal values from an **enum registry**. The registry is a flat list
of `(enum_name, enum_value, sort_order)` rows, and a fixed table sends a
criterion key to its family.

The hosted datastore is modelled as an in-memory class, `Store.Datastore`. Its
`projects`, `preferences` and `values` tables are maps from id to record. One
id counter hands out fresh ids in insertion order, and a project's
`created_at` is its id. The catalog and the enum rows are read-only. Every
write request is appended to a log, so contracts can say exactly which writes
an operation sends. The success of each datastore call is a boolean
parameter, where true means the call answered without error. So every error
path is modelled rather than excluded.
The store's invariant includes two ownership rules. Every value record
belongs to a stored preference row (`Store.ValuesOwned`), and every
preference row belongs to a stored project (`Store.PreferencesOwned`). The
screens write values only for preference rows they have fetched and rendered,
and seed rows only for a project whose fetch succeeded. So each value write
requires its preference row to be stored, and the seed batch requires its
project to be stored.

Modules:

- `Records`: the entities (criterion, enum row, preference, value record,
  project payload) and the one-slot overwrite used by
  every value write.
- `Tables`: a select over a table, in ascending or descending id order, and
  what a select returns.
- `Store`: the datastore class with its reads and its five writes.
- `EnumRegistry`: grouping the enum rows into families (a loop, proved
  against the function `Grouped`) and the seven-entry key→family table.
- `Preferences`: the pure layer of the detail screens. It covers:
  - the reconcile decision (seed when empty, otherwise use the rows as they are);
  - the values index;
  - the level rewrite;
  - the insert-or-update of one value slot, for both clients;
  - the `|| null` number coercion;
  - the matching of catalog criteria to preference rows at render time.
- `ProjectDetail`: the detail screen as a class whose methods update its state
  fields and the store. Each method's `ensures` ties the new state to the
  functions of `Preferences`.
- `ProjectList`: the project list screen as a class (fetch, form edits,
  create) and the pure payload builder.

The two clients share one class per screen, with a `client` constant where
they differ:
- after updating an existing value record, the mobile detail screen rewrites
  its cache entry and the web page does not;
- the mobile create handler refuses an empty title and the web handler does
  not;
- the mobile form offers `invest` as a project type and the web form does not.

A few facts about the code that the model keeps:
- Only the mobile create handler checks the title. The web handler relies on
  the title input's `required` attribute.
- `parseFloat(x) || null` turns both NaN and 0 into null.
- An unknown preference id raises no error and leaves the list unchanged
  (`Preferences.WithLevelUnknownId`).

## Model

| member | source | states |
|---|---|---|
| Records.Assign | mobile/src/screens/ProjectDetailScreen.js:177-180 | overwriting one slot keeps the record's id and preference id, sets that slot to the new value and leaves the other three slots as they were |
| Records.NewValue | mobile/src/screens/ProjectDetailScreen.js:182-189 | the inserted record carries the new id, the preference id and the one written slot; every other slot is null |
| Store.LevelUpdated | mobile/src/screens/ProjectDetailScreen.js:146-149 | a level update keeps the table's ids, changes no row but `id`, and changes only that row's level |
| Store.ValueUpdated | mobile/src/screens/ProjectDetailScreen.js:170-173 | a value update keeps the table's ids, changes no record but `id`, and changes only that record's preference id and written slot |
| Store.Datastore.InsertPreferences | mobile/src/screens/ProjectDetailScreen.js:110-115 | for rows of stored projects, the batch insert logs one request; on success every row gets a consecutive fresh id in payload order and the returned rows are those stored; on failure no table changes |
| Store.Datastore.UpdateLevel | frontend/src/pages/ProjectDetail.js:144-149 | logs the update; on success the preference table becomes `LevelUpdated`, otherwise it is unchanged |
| Store.Datastore.InsertValue | frontend/src/pages/ProjectDetail.js:178-184 | for a stored preference: logs the insert; on success a fresh record `NewValue(nextId, preference, slot)` is stored and returned; on failure nothing changes; every record still belongs to a stored preference |
| Store.Datastore.UpdateValue | frontend/src/pages/ProjectDetail.js:170-175 | for a stored preference: logs the update; on success the value table becomes `ValueUpdated`, otherwise it is unchanged; every record still belongs to a stored preference |
| Store.Datastore.InsertProject | mobile/src/screens/ProjectsScreen.js:73-79 | logs the insert; on success the project is stored under a fresh id with `created_at` equal to it and is returned, and it has no preference rows; on failure nothing changes |
| Tables.WhereMembers | frontend/src/pages/ProjectDetail.js:125-128 | a select returns a row exactly when the row is in the table and meets the filter |
| Tables.WhereNewestFirstMembers | frontend/src/pages/Projects.js:37-41 | the newest-first select returns a row exactly when the row is in the table and meets the filter |
| Tables.WhereEmpty | mobile/src/screens/ProjectDetailScreen.js:67 | the reconcile step sees no rows exactly when the store holds no row of the project, whatever the order of the select |
| Tables.WhereAfterBatch | mobile/src/screens/ProjectDetailScreen.js:60-63 | after a batch insert of rows that all meet the filter, the select returns the old result followed by the new rows in insertion order |
| EnumRegistry.GroupEnums | mobile/src/screens/ProjectDetailScreen.js:85-91 | the loop builds `Grouped(rows)`; its keys are exactly the family names present, and each list is that family's values in retrieval order |
| EnumRegistry.GroupedFamilies | frontend/src/pages/ProjectDetail.js:82-88 | the grouped map has one entry per family present, holding that family in retrieval order; absent families have no rows |
| EnumRegistry.FamilyMembers | mobile/src/screens/ProjectDetailScreen.js:86-90 | a family holds a value exactly when some row carries that family name and value |
| EnumRegistry.FamilyAppend | mobile/src/screens/ProjectDetailScreen.js:86-90 | grouping keeps relative order: the family of a concatenation is the concatenation of the families |
| EnumRegistry.NamesDistinct | mobile/src/screens/ProjectDetailScreen.js:87-89 | each family name is listed once, and exactly the names present are listed |
| EnumRegistry.GroupedKeepsEveryRow | mobile/src/screens/ProjectDetailScreen.js:85-91 | grouping loses and invents no row: the family lists together hold as many values as there were rows |
| EnumRegistry.ResolveEnumValues | mobile/src/screens/ProjectDetailScreen.js:196-209 | an unmapped key, or a mapped key whose family has no entry, gives the empty list; otherwise the family's list |
| EnumRegistry.EnumMappingShape | frontend/src/pages/ProjectDetail.js:194-203 | the table has exactly the seven keys; `shops_access` and `transport_access` share `distance_access_enum` |
| EnumRegistry.ResolveAgainstRows | frontend/src/pages/ProjectDetail.js:205-206 | resolving a key against the grouped rows gives the rows of its family in retrieval order, and nothing for a key outside the table |
| Preferences.Reconcile | mobile/src/screens/ProjectDetailScreen.js:67-75 | existing rows are used unchanged with no insert; with no rows and a successful insert, row i is `(firstId + i, project, catalog[i].key, optional)`, one per criterion in catalog order; a failed insert yields nothing |
| Preferences.ReconcileIsIdempotent | frontend/src/pages/ProjectDetail.js:54-70 | reconciling a seeded project again inserts nothing and uses exactly the rows the seeding created, whatever the second insert would answer |
| Preferences.SeededHasNoValues | mobile/src/screens/ProjectDetailScreen.js:102-142 | when every stored value record belongs to a stored preference row, all with ids below the seed batch's first id, no record belongs to a seeded row, and the values index built for the seeded rows is empty |
| Preferences.EmptyCatalogReseeds | mobile/src/screens/ProjectDetailScreen.js:67-71 | with an empty catalog the project never gets rows: every load sends the empty batch again and loads no values |
| Preferences.IndexValues | frontend/src/pages/ProjectDetail.js:132-136 | the loop builds `Indexed(rows)`; its keys are exactly the preference ids present, and each entry is a fetched row under its own preference id |
| Preferences.IndexedLastWins | mobile/src/screens/ProjectDetailScreen.js:134-137 | each index entry is the last fetched row with that preference id |
| Preferences.IndexedSelectMirrors | mobile/src/screens/ProjectDetailScreen.js:125-138 | the index built from a select equals the stored records entry for entry |
| Preferences.WithLevel | mobile/src/screens/ProjectDetailScreen.js:153-155 | the level rewrite keeps length and order; the row with the id gets the new level and every other row is unchanged |
| Preferences.WithLevelUnknownId | frontend/src/pages/ProjectDetail.js:151-153 | an id no row carries leaves the list exactly as it was |
| Preferences.WithLevelAppend | frontend/src/pages/ProjectDetail.js:151-153 | the rewrite acts on each row alone, so it distributes over concatenation |
| Preferences.ReloadSeesLevel | mobile/src/screens/ProjectDetailScreen.js:144-155 | after a successful level update, the screen's list equals what a reload of the project's rows would fetch |
| Preferences.ValueWrite | mobile/src/screens/ProjectDetailScreen.js:163-186 | exactly one write is sent: an update of the cached record's id when the cache has an entry, an insert otherwise, each carrying the preference id and the slot |
| Preferences.SetValue | mobile/src/screens/ProjectDetailScreen.js:161-190 | a failed write changes nothing; otherwise only the written preference's cache entry changes; an update rewrites the stored record, and the mobile cache adopts the new slot while the web cache keeps the old entry; an insert stores a fresh record that the cache adopts |
| Preferences.MirrorsTracks | frontend/src/pages/ProjectDetail.js:132-136 | a cache that equals the stored records also points each preference at its own record |
| Preferences.SetValueKeepsOwners | mobile/src/screens/ProjectDetailScreen.js:218 | a value write for a stored preference keeps every value record owned by a stored preference |
| Preferences.SetValueKeepsTracking | frontend/src/pages/ProjectDetail.js:160-186 | across any value write, the mobile cache keeps equalling the store and the web cache keeps pointing at the right records |
| Preferences.MobileUpdateChangesOneSlot | mobile/src/screens/ProjectDetailScreen.js:169-180 | mobile, cached record: the cache entry changes in the written slot only, keeps its id, and equals the stored record |
| Preferences.WebUpdateLeavesCacheStale | frontend/src/pages/ProjectDetail.js:168-175 | web, cached record: the store's record takes the new slot value while the cache is unchanged, so the two differ whenever the slot changed |
| Preferences.TwoWritesOneRecord | mobile/src/screens/ProjectDetailScreen.js:161-190 | two writes to a preference with no record leave exactly one record for it, holding the second value; the mobile cache holds it, the web cache the first version |
| Preferences.CacheMissAddsRecord | frontend/src/pages/ProjectDetail.js:162-168 | the choice follows the cache, not the store: a write whose preference the cache lacks inserts a second record for it |
| Preferences.FloatOrNull | mobile/src/screens/ProjectDetailScreen.js:258 | the result is null exactly when parsing failed or gave 0; otherwise it is the parsed number |
| Preferences.NumberInput | mobile/src/screens/ProjectDetailScreen.js:254-267 | the Min input writes `value_min` and the Max input `value_max`, each with the coerced number |
| Preferences.FirstWithKey | frontend/src/pages/ProjectDetail.js:322 | finds a row exactly when some row has the key, and then the first such row |
| Preferences.Shown | frontend/src/pages/ProjectDetail.js:321-323 | no more cards than catalog criteria; only catalog criteria with a matching row are shown, each with its first match, and every such criterion is shown |
| Preferences.ShownAllMatched | frontend/src/pages/ProjectDetail.js:321-323 | when every criterion has a row, the cards are the catalog one for one, in catalog order |
| Preferences.ShownInCatalogOrder | frontend/src/pages/ProjectDetail.js:321-323 | in general, also when some criteria have no row, of any two cards the earlier one shows a criterion that comes earlier in the catalog |
| Preferences.SeededShowsWholeCatalog | frontend/src/pages/ProjectDetail.js:99-115 | right after seeding, every catalog criterion gets a card, in catalog order |
| Preferences.GrownCatalogNotShown | frontend/src/pages/ProjectDetail.js:67-70 | a criterion with no preference row gets no card: reconciliation does not backfill criteria added later |
| ProjectDetail.DetailScreen.InitializeProjectCriteria | mobile/src/screens/ProjectDetailScreen.js:102-123 | for the screen's stored project: logs the seed batch; on success the list and the result are the stored rows, and no stored value record belongs to any of them; on failure the list is kept and `[]` returned |
| ProjectDetail.DetailScreen.LoadCriteriaValues | mobile/src/screens/ProjectDetailScreen.js:125-142 | on success the cache becomes the index of the selected records, and is empty when no stored record belongs to the rows; on failure (caught here, so the load goes on) it is kept; the cache keeps tracking the store |
| ProjectDetail.DetailScreen.LoadProjectData | mobile/src/screens/ProjectDetailScreen.js:41-100 | a failed project, catalog, preference or enum fetch ends the load and keeps what earlier steps set; a failed seed insert or values select does not; the working set follows `Reconcile`; values load only for a non-empty working set; a freshly seeded project has one `optional` row per criterion and no value record, so its loaded cache is empty; enums are grouped; `loading` ends false |
| ProjectDetail.DetailScreen.UpdatePreferenceLevel | frontend/src/pages/ProjectDetail.js:142-158 | logs one update; on success the store and the list are rewritten at that id only, on failure neither changes |
| ProjectDetail.DetailScreen.UpdateCriteriaValue | frontend/src/pages/ProjectDetail.js:160-192 | for a stored preference (the id of a fetched row): logs exactly the one write `ValueWrite` chooses, and store and cache change as `SetValue` says |
| ProjectDetail.DetailScreen.EditNumber | frontend/src/pages/ProjectDetail.js:228-241 | a numeric input sends the coerced number to the bound's slot through the same write |
| ProjectDetail.DetailScreen.OpenEnumPicker | mobile/src/screens/ProjectDetailScreen.js:211-214 | the picker holds the chosen criterion and row and is visible |
| ProjectDetail.DetailScreen.SelectEnumValue | mobile/src/screens/ProjectDetailScreen.js:216-222 | with no selection nothing changes; otherwise the value goes to `value_enum` of the selected row and the picker closes |
| ProjectList.IntOrNull | mobile/src/screens/ProjectsScreen.js:67-68 | a budget is null exactly when the input is empty or unparsable; otherwise it is the parsed integer |
| ProjectList.BuildPayload | frontend/src/pages/Projects.js:57-66 | the payload is always `active`, `EUR` and owned by the user; title, type and urgency are copied; budgets follow `IntOrNull` |
| ProjectList.DefaultFormOffered | mobile/src/screens/ProjectsScreen.js:22-28 | the default form holds a type and an urgency that the client's controls offer |
| ProjectList.WebPayloadNeverInvest | frontend/src/pages/Projects.js:152-153 | a payload from the web form is `buy` or `rent`, never `invest` |
| ProjectList.OwnedNewestFirst | mobile/src/screens/ProjectsScreen.js:39-43 | the list holds exactly the owner's stored projects, each as stored, in strictly decreasing `created_at` |
| ProjectList.NewestFirstDescending | frontend/src/pages/Projects.js:41 | the newest-first select strictly decreases in `created_at` |
| ProjectList.CreatedListedFirst | frontend/src/pages/Projects.js:68-79 | after a successful create, the refetched list is the new project followed by the list as it was |
| ProjectList.ProjectsScreen.FetchProjects | frontend/src/pages/Projects.js:35-50 | on success the list becomes the owner's projects newest first, on failure it is kept; `loading` ends false |
| ProjectList.ProjectsScreen.OpenDialog | mobile/src/screens/ProjectsScreen.js:155 | the create dialog is open |
| ProjectList.ProjectsScreen.ChooseProjectType | mobile/src/screens/ProjectsScreen.js:183-190 | only the project type changes, to one the client offers |
| ProjectList.ProjectsScreen.ChooseUrgency | frontend/src/pages/Projects.js:159-170 | only the urgency changes, to low, medium or high |
| ProjectList.ProjectsScreen.EditText | mobile/src/screens/ProjectsScreen.js:173-177 | only the three text fields change |
| ProjectList.ProjectsScreen.HandleCreateProject | mobile/src/screens/ProjectsScreen.js:54-90 | mobile with an empty title: no write and nothing changes; otherwise one insert of `BuildPayload`; on success the project is stored with no preference rows, the dialog closes, the form resets to the defaults and the list is refetched; on failure form, dialog and list are kept |

Members without a row are helpers; what they compute is stated by the contract
named beside them:
- `Preferences.SeedRows` (the seed batch): `Preferences.Reconcile`,
  `Store.Datastore.InsertPreferences`.
- `Preferences.IdsOf` (the ids the values select asks for):
  `ProjectDetail.DetailScreen.LoadCriteriaValues`, `Preferences.IndexedSelectMirrors`.
- `Store.Datastore.PreferencesOf`, `Store.Datastore.ValuesFor`: `Tables.WhereMembers`.
- `Store.Datastore.ProjectsOwnedBy`: `ProjectList.OwnedNewestFirst`.
- `ProjectDetail.DetailScreen.Cards` (the render loop): `Preferences.Shown`,
  `Preferences.ShownInCatalogOrder`.
- `ProjectDetail.DetailScreen.PickerOptions` (the picker's list):
  `EnumRegistry.ResolveEnumValues`, `EnumRegistry.ResolveAgainstRows`.
- `ProjectList.DefaultForm`, `ProjectList.ProjectTypes`:
  `ProjectList.DefaultFormOffered`, `ProjectList.WebPayloadNeverInvest`,
  `ProjectList.ProjectsScreen.HandleCreateProject`.
- `Preferences.FollowsShifted`, `Preferences.FollowsCons`,
  `Preferences.PrecedesShifted`,
  `Tables.WhereAgrees`, `Tables.WhereNewestFirstAgrees`,
  `EnumRegistry.SizeSumUpdate`, `EnumRegistry.SizeSumOutside`: proof steps.

## Left out

- Network and query layer: the hosted datastore's client, its query builder and the storage adapter are replaced by the in-memory `Datastore`. Each call's success is a boolean parameter.
- Sort clauses: the catalog is ordered by key and the enum rows by family and `sort_order` on the server. The model takes both lists in the order the datastore returns them.
- Unordered selects: the preference select of a project and the values select have no order clause, so the datastore promises no order. The model returns their rows in ascending id order. These statements rest on that choice: the sequence equalities of Tables.WhereAfterBatch, Preferences.ReconcileIsIdempotent and Preferences.ReloadSeesLevel; "the last row wins" in Preferences.IndexedLastWins when two value records share a preference id (Preferences.CacheMissAddsRecord shows this can happen); "the first row" in Preferences.FirstWithKey when two preference rows share a key. The membership statements hold for any order.
- Concurrency: two clients opening a new project at once could both seed it. The model runs each handler to completion in sequence, including the calls the source does not await, and has no uniqueness constraint.
- Preferences.TwoWritesOneRecord: rests on that sequential execution. The mobile numeric inputs start an un-awaited write on every keystroke (mobile/src/screens/ProjectDetailScreen.js:258, 266), and each write reads the cache of the last render. A second write started before the first insert returns also misses the cache and inserts, giving the duplicate record `Preferences.CacheMissAddsRecord` describes.
- `parseFloat` and `parseInt` are function parameters returning an optional number, where None stands for NaN. Floating-point parsing itself is not modelled.
- Rendering, styles, modals, toasts, alerts, navigation, the sign-out handler and date formatting are not modelled.
- Authentication: the signed-in user's id is a constructor parameter, and the mobile session lookup is not modelled.
- The scripts and the Python test files are not part of this model.
- ProjectDetail.DetailScreen.SelectEnumValue: the web page calls the value write straight from its select and has no picker state. The model offers the picker methods to both clients.
- EnumRegistry.ResolveEnumValues: JavaScript looks up `allEnums[undefined]` for an unmapped key. The model returns the empty list directly, which gives the same result unless a family is named "undefined". `allEnums` is a plain JavaScript object, so a family named like one of its prototype members (`constructor`, for instance) makes the grouping's `.push` throw and the load fail; the model treats every name as an ordinary key.
- Preferences.FirstWithKey: the rendered inputs, the checkbox and the button states it feeds are not modelled; only which criteria get a card is.
- ProjectList.ProjectsScreen.HandleCreateProject: the web form's `required` attribute is browser behaviour, not code, so the web model lets an empty title through.

/**
 * The criteria-preference logic shared by the two detail screens, as functions
 * of values: the reconcile decision, the level update of the in-memory list,
 * the values index, the insert-or-update of one value slot, the numeric input
 * coercion and the matching of catalog criteria to preference rows at render
 * time.
 */
module Preferences {
  import opened Wrappers
  import opened Records
  import opened Tables
  import opened Store

  // ---------------------------------------------------------------------------
  // Reconciliation
  // ---------------------------------------------------------------------------

  /** The seed batch: one `optional` row per catalog criterion, in catalog order. */
  function SeedRows(catalog: seq<Criterion>, projectId: Id): seq<NewPreference>
  {
    seq(|catalog|, i requires 0 <= i < |catalog| => NewPreference(projectId, catalog[i].key, Optional))
  }

  /** What the reconcile step of `loadProjectData` ends with. */
  datatype Reconciliation =
    | UseExisting(rows: seq<Preference>)  // the project already had rows
    | Seeded(rows: seq<Preference>)       // it had none and the batch insert succeeded
    | SeedFailed                          // it had none and the batch insert failed

  /**
   * The binary branch on emptiness: rows already there are used as they are,
   * with no comparison against the catalog; otherwise one `optional` row per
   * catalog criterion is inserted, in catalog order, under fresh ids.
   */
  function Reconcile(existing: seq<Preference>, catalog: seq<Criterion>, projectId: Id, firstId: Id, insertOk: bool): (r: Reconciliation)
    ensures existing != [] ==> r == UseExisting(existing)
    ensures existing == [] && !insertOk ==> r == SeedFailed
    ensures existing == [] && insertOk ==> r.Seeded? && |r.rows| == |catalog|
    ensures existing == [] && insertOk ==> forall i :: 0 <= i < |catalog| ==>
              r.rows[i] == Preference(firstId + i, projectId, catalog[i].key, Optional)
  {
    if existing != [] then UseExisting(existing)
    else if insertOk then Seeded(Stamp(SeedRows(catalog, projectId), firstId))
    else SeedFailed
  }

  /** The list `projectCriteria` holds afterwards (a failed seed leaves it as it was). */
  function WorkingSet(r: Reconciliation, current: seq<Preference>): seq<Preference>
  {
    match r
    case UseExisting(rows) => rows
    case Seeded(rows) => rows
    case SeedFailed => current
  }

  /** Whether `loadCriteriaValues` runs: not after a failed seed, nor after seeding an empty catalog. */
  predicate LoadsValues(r: Reconciliation)
  {
    match r
    case UseExisting(_) => true
    case Seeded(rows) => rows != []
    case SeedFailed => false
  }

  /** The ids `loadCriteriaValues` asks for. */
  function IdsOf(rows: seq<Preference>): set<Id>
  {
    set p | p in rows :: p.id
  }

  /**
   * Reconciling a project that has no rows and then reconciling it again
   * inserts nothing the second time and yields exactly the rows the first
   * run created, whatever the second insert would have answered.
   */
  lemma ReconcileIsIdempotent(prefs: map<Id, Preference>, n: nat, catalog: seq<Criterion>, projectId: Id, secondOk: bool)
    requires forall id :: id in prefs ==> id < n
    requires Where(prefs, OfProject(projectId), n) == []
    requires catalog != []
    ensures var first := Reconcile([], catalog, projectId, n, true);
            var after := prefs + StampTable(SeedRows(catalog, projectId), n);
            Reconcile(Where(after, OfProject(projectId), n + |catalog|), catalog, projectId, n + |catalog|, secondOk)
              == UseExisting(first.rows)
  {
    var rows := SeedRows(catalog, projectId);
    assert forall i :: 0 <= i < |rows| ==> OfProject(projectId)(Stamp(rows, n)[i]);
    WhereAfterBatch(prefs, OfProject(projectId), n, rows);
  }

  /**
   * With an empty catalog nothing is ever seeded: every load finds no rows,
   * sends the empty batch again, and loads no values.
   */
  lemma EmptyCatalogReseeds(prefs: map<Id, Preference>, n: nat, projectId: Id, ok: bool)
    requires Where(prefs, OfProject(projectId), n) == []
    ensures var after := prefs + StampTable(SeedRows([], projectId), n);
            var r := Reconcile(Where(after, OfProject(projectId), n), [], projectId, n, ok);
            && after == prefs
            && r == (if ok then Seeded([]) else SeedFailed)
            && !LoadsValues(r)
  {
    assert StampTable(SeedRows([], projectId), n) == map[];
  }

  /**
   * A freshly seeded project has no value record. Every stored record belongs
   * to a preference id handed out before the batch, while the seeded rows take
   * ids from `n` up; so no record belongs to a seeded row, and the values
   * select for the seeded rows, and the index built from it, are empty.
   */
  lemma {:induction false} SeededHasNoValues(values: map<Id, PreferenceValue>, preferences: map<Id, Preference>, catalog: seq<Criterion>, projectId: Id, n: nat, m: nat)
    requires ValuesOwned(values, preferences) && forall id :: id in preferences ==> id < n
    ensures var seeded := IdsOf(Stamp(SeedRows(catalog, projectId), n));
            && (forall id :: id in values ==> values[id].preferenceId !in seeded)
            && Indexed(Where(values, ForPreferences(seeded), m)) == map[]
  {
    var rows := Stamp(SeedRows(catalog, projectId), n);
    forall p | p in rows
      ensures p.id >= n
    {
      var i :| 0 <= i < |rows| && rows[i] == p;
    }
    WhereEmpty(values, ForPreferences(IdsOf(rows)), m);
  }

  // ---------------------------------------------------------------------------
  // Values index
  // ---------------------------------------------------------------------------

  /** The values index after each row in turn has been stored under its preference id. */
  function Indexed(rows: seq<PreferenceValue>): map<Id, PreferenceValue>
  {
    if rows == [] then map[]
    else Indexed(rows[..|rows| - 1])[rows[|rows| - 1].preferenceId := rows[|rows| - 1]]
  }

  /**
   * The index has an entry for every preference id some row carries, and no
   * other; each entry is the LAST row carrying its id.
   */
  lemma {:induction false} IndexedLastWins(rows: seq<PreferenceValue>)
    ensures forall k :: k in Indexed(rows) <==> exists i :: 0 <= i < |rows| && rows[i].preferenceId == k
    ensures forall k :: k in Indexed(rows) ==>
              exists i :: 0 <= i < |rows| && rows[i] == Indexed(rows)[k] && rows[i].preferenceId == k &&
                forall j :: i < j < |rows| ==> rows[j].preferenceId != k
  {
    if rows != [] {
      var init := rows[..|rows| - 1];
      IndexedLastWins(init);
      assert forall i :: 0 <= i < |init| ==> init[i] == rows[i];
      var last := rows[|rows| - 1];
      forall k | k in Indexed(rows)
        ensures exists i :: 0 <= i < |rows| && rows[i] == Indexed(rows)[k] && rows[i].preferenceId == k &&
                  forall j :: i < j < |rows| ==> rows[j].preferenceId != k
      {
        if k == last.preferenceId {
          assert rows[|rows| - 1] == Indexed(rows)[k];
        } else {
          var i :| 0 <= i < |init| && init[i] == Indexed(init)[k] && init[i].preferenceId == k &&
                   forall j :: i < j < |init| ==> init[j].preferenceId != k;
          assert rows[i] == Indexed(rows)[k];
        }
      }
    }
  }

  /** The `forEach` loop of `loadCriteriaValues`. */
  method IndexValues(rows: seq<PreferenceValue>) returns (valuesMap: map<Id, PreferenceValue>)
    ensures valuesMap == Indexed(rows)
    ensures forall k :: k in valuesMap <==> exists i :: 0 <= i < |rows| && rows[i].preferenceId == k
    ensures forall k :: k in valuesMap ==> valuesMap[k] in rows && valuesMap[k].preferenceId == k
  {
    valuesMap := map[];
    var i := 0;
    while i < |rows|
      invariant 0 <= i <= |rows|
      invariant valuesMap == Indexed(rows[..i])
    {
      valuesMap := valuesMap[rows[i].preferenceId := rows[i]];
      assert rows[..i + 1][..i] == rows[..i];
      i := i + 1;
    }
    assert rows[..|rows|] == rows;
    IndexedLastWins(rows);
  }

  // ---------------------------------------------------------------------------
  // Preference level
  // ---------------------------------------------------------------------------

  /** The in-memory preference list with the level of row `id` replaced and every other row kept. */
  function WithLevel(rows: seq<Preference>, id: Id, level: Level): (r: seq<Preference>)
    ensures |r| == |rows|
    ensures forall i :: 0 <= i < |rows| && rows[i].id != id ==> r[i] == rows[i]
    ensures forall i :: 0 <= i < |rows| && rows[i].id == id ==> r[i] == rows[i].(level := level)
  {
    if rows == [] then []
    else [if rows[0].id == id then rows[0].(level := level) else rows[0]] + WithLevel(rows[1..], id, level)
  }

  /** An id that no row carries leaves the list exactly as it was. */
  lemma WithLevelUnknownId(rows: seq<Preference>, id: Id, level: Level)
    requires forall i :: 0 <= i < |rows| ==> rows[i].id != id
    ensures WithLevel(rows, id, level) == rows
  {
  }

  /** Rewriting the level by id acts on each row alone, so it distributes over concatenation. */
  lemma WithLevelAppend(xs: seq<Preference>, ys: seq<Preference>, id: Id, level: Level)
    ensures WithLevel(xs + ys, id, level) == WithLevel(xs, id, level) + WithLevel(ys, id, level)
  {
    var l, r := WithLevel(xs + ys, id, level), WithLevel(xs, id, level) + WithLevel(ys, id, level);
    forall i | 0 <= i < |l| ensures l[i] == r[i] {
      if i >= |xs| {
        assert (xs + ys)[i] == ys[i - |xs|];
      }
    }
  }

  /**
   * After a successful level update, the list the screen holds is the list a
   * reload would fetch: the store and the screen rewrite the same row.
   */
  lemma {:induction false} ReloadSeesLevel(prefs: map<Id, Preference>, n: nat, projectId: Id, id: Id, level: Level)
    requires forall k :: k in prefs ==> prefs[k].id == k
    ensures Where(LevelUpdated(prefs, id, level), OfProject(projectId), n)
            == WithLevel(Where(prefs, OfProject(projectId), n), id, level)
  {
    if n > 0 {
      ReloadSeesLevel(prefs, n - 1, projectId, id, level);
      var keep := OfProject(projectId);
      var u := LevelUpdated(prefs, id, level);
      var rest := Where(prefs, keep, n - 1);
      var k := n - 1;
      if k in prefs && keep(prefs[k]) {
        var p := prefs[k];
        var q := if p.id == id then p.(level := level) else p;
        assert u[k] == q && keep(q);
        assert WithLevel([p], id, level) == [q];
        WithLevelAppend(rest, [p], id, level);
        calc {
          Where(u, keep, n);
          Where(u, keep, k) + [u[k]];
          WithLevel(rest, id, level) + [q];
          WithLevel(rest + [p], id, level);
        }
      } else {
        assert k !in u || !keep(u[k]);
        assert Where(prefs, keep, n) == rest;
        assert Where(u, keep, n) == Where(u, keep, k);
      }
    }
  }

  // ---------------------------------------------------------------------------
  // Preference values: insert or update one slot
  // ---------------------------------------------------------------------------

  /** The value table, the next id the datastore hands out, and a screen's `criteriaValues`. */
  datatype ValueState = ValueState(values: map<Id, PreferenceValue>, nextId: nat, cache: map<Id, PreferenceValue>)

  /** The one write `updateCriteriaValue` sends: an update of the cached record, or an insert. */
  function ValueWrite(cache: map<Id, PreferenceValue>, preferenceId: Id, a: Assignment): (w: Write)
    ensures preferenceId in cache <==> w.ValueUpdate?
    ensures w.ValueUpdate? ==> w.id == cache[preferenceId].id
    ensures (w.ValueUpdate? || w.ValueInsert?) && w.preferenceId == preferenceId && w.assignment == a
  {
    if preferenceId in cache then ValueUpdate(cache[preferenceId].id, preferenceId, a)
    else ValueInsert(preferenceId, a)
  }

  /**
   * `updateCriteriaValue(preferenceId, valueField, value)` when the write
   * answers `ok`. With a cached record the store updates that record; the
   * mobile screen then rewrites the slot in its cache entry and the web screen
   * leaves the entry as it was. Without one the store inserts a record and
   * the cache adopts it. A failed write changes nothing.
   */
  function SetValue(client: Client, s: ValueState, preferenceId: Id, a: Assignment, ok: bool): (t: ValueState)
    ensures !ok ==> t == s
    ensures ok ==> t.cache.Keys == s.cache.Keys + {preferenceId}
    ensures forall k :: k != preferenceId ==> (k in t.cache <==> k in s.cache)
    ensures forall k :: k != preferenceId && k in s.cache ==> t.cache[k] == s.cache[k]
    ensures ok && preferenceId in s.cache ==>
              t.nextId == s.nextId && t.values == ValueUpdated(s.values, s.cache[preferenceId].id, preferenceId, a)
    ensures ok && preferenceId in s.cache ==>
              t.cache[preferenceId] == if client == Mobile then Assign(s.cache[preferenceId], a) else s.cache[preferenceId]
    ensures ok && preferenceId !in s.cache ==>
              t.nextId == s.nextId + 1 && t.values == s.values[s.nextId := NewValue(s.nextId, preferenceId, a)] &&
              t.cache == s.cache[preferenceId := t.values[s.nextId]]
  {
    if !ok then s
    else if preferenceId in s.cache then
      var existing := s.cache[preferenceId];
      ValueState(ValueUpdated(s.values, existing.id, preferenceId, a), s.nextId,
                 if client == Mobile then s.cache[preferenceId := Assign(existing, a)] else s.cache)
    else
      var created := NewValue(s.nextId, preferenceId, a);
      ValueState(s.values[s.nextId := created], s.nextId + 1, s.cache[preferenceId := created])
  }

  /** Mobile: every cache entry sits under its preference id and equals the stored record. */
  ghost predicate Mirrors(cache: map<Id, PreferenceValue>, values: map<Id, PreferenceValue>)
  {
    forall k :: k in cache ==> cache[k].preferenceId == k && cache[k].id in values && values[cache[k].id] == cache[k]
  }

  /** Web: every cache entry sits under its preference id and names a stored record of that preference. */
  ghost predicate PointsTo(cache: map<Id, PreferenceValue>, values: map<Id, PreferenceValue>)
  {
    forall k :: k in cache ==> cache[k].preferenceId == k && cache[k].id in values && values[cache[k].id].preferenceId == k
  }

  /** How closely each client's cache follows the store. */
  ghost predicate Tracks(client: Client, cache: map<Id, PreferenceValue>, values: map<Id, PreferenceValue>)
  {
    if client == Mobile then Mirrors(cache, values) else PointsTo(cache, values)
  }

  /** A mirroring cache also points at the right records. */
  lemma MirrorsTracks(client: Client, cache: map<Id, PreferenceValue>, values: map<Id, PreferenceValue>)
    requires Mirrors(cache, values)
    ensures Tracks(client, cache, values)
  {
  }

  /** The index `loadCriteriaValues` builds from a select mirrors the store. */
  lemma IndexedSelectMirrors(values: map<Id, PreferenceValue>, keep: PreferenceValue -> bool, n: nat)
    requires WellKeyed(values, (v: PreferenceValue) => v.id, n)
    ensures Mirrors(Indexed(Where(values, keep, n)), values)
  {
    var rows := Where(values, keep, n);
    IndexedLastWins(rows);
    forall k | k in Indexed(rows)
      ensures Indexed(rows)[k].preferenceId == k && Indexed(rows)[k].id in values && values[Indexed(rows)[k].id] == Indexed(rows)[k]
    {
      var i :| 0 <= i < |rows| && rows[i] == Indexed(rows)[k] && rows[i].preferenceId == k &&
               forall j :: i < j < |rows| ==> rows[j].preferenceId != k;
      WhereMembers(values, keep, n, rows[i]);
    }
  }

  /** The stored records of one preference. */
  function RecordsOf(values: map<Id, PreferenceValue>, preferenceId: Id): set<Id>
  {
    set id | id in values && values[id].preferenceId == preferenceId
  }

  /** Each client's cache keeps following the store across a value write. */
  lemma SetValueKeepsTracking(client: Client, s: ValueState, preferenceId: Id, a: Assignment, ok: bool)
    requires Tracks(client, s.cache, s.values)
    requires WellKeyed(s.values, (v: PreferenceValue) => v.id, s.nextId)
    ensures var t := SetValue(client, s, preferenceId, a, ok);
            Tracks(client, t.cache, t.values) && WellKeyed(t.values, (v: PreferenceValue) => v.id, t.nextId)
  {
    var t := SetValue(client, s, preferenceId, a, ok);
    if ok && preferenceId in s.cache {
      var id := s.cache[preferenceId].id;
      forall k | k in t.cache
        ensures t.cache[k].preferenceId == k && t.cache[k].id in t.values
        ensures client == Mobile ==> t.values[t.cache[k].id] == t.cache[k]
        ensures client == Web ==> t.values[t.cache[k].id].preferenceId == k
      {
        if k != preferenceId {
          assert s.cache[k].id != id;
        }
      }
    }
  }

  /** A write for a stored preference keeps every record owned by a stored preference. */
  lemma SetValueKeepsOwners(client: Client, s: ValueState, preferences: map<Id, Preference>, preferenceId: Id, a: Assignment, ok: bool)
    requires ValuesOwned(s.values, preferences) && preferenceId in preferences
    ensures var t := SetValue(client, s, preferenceId, a, ok);
            ValuesOwned(t.values, preferences)
  {
  }

  /**
   * Mobile, with a cached record: the entry changes in the written slot only,
   * and still equals the stored record.
   */
  lemma MobileUpdateChangesOneSlot(s: ValueState, preferenceId: Id, a: Assignment)
    requires Mirrors(s.cache, s.values) && preferenceId in s.cache
    ensures var t := SetValue(Mobile, s, preferenceId, a, true);
            && t.cache[preferenceId].id == s.cache[preferenceId].id
            && (forall f :: Get(t.cache[preferenceId], f) == if f == FieldOf(a) then SlotOf(a) else Get(s.cache[preferenceId], f))
            && t.values[s.cache[preferenceId].id] == t.cache[preferenceId]
  {
  }

  /**
   * Web, with a cached record: the store's record takes the new slot value
   * while the cache entry keeps the one it had.
   */
  lemma WebUpdateLeavesCacheStale(s: ValueState, preferenceId: Id, a: Assignment)
    requires PointsTo(s.cache, s.values) && preferenceId in s.cache
    ensures var t := SetValue(Web, s, preferenceId, a, true);
            var id := s.cache[preferenceId].id;
            && t.cache == s.cache
            && Get(t.values[id], FieldOf(a)) == SlotOf(a)
            && (Get(s.cache[preferenceId], FieldOf(a)) != SlotOf(a) ==> t.values[id] != t.cache[preferenceId])
  {
  }

  /**
   * Two successful writes to a preference that had no record leave exactly one
   * record for it, holding the second value: the first write inserts and the
   * second updates. The mobile cache holds that record; the web cache still
   * holds the record as first inserted.
   */
  lemma TwoWritesOneRecord(client: Client, s: ValueState, preferenceId: Id, first: Assignment, second: Assignment)
    requires WellKeyed(s.values, (v: PreferenceValue) => v.id, s.nextId)
    requires preferenceId !in s.cache && RecordsOf(s.values, preferenceId) == {}
    ensures var t := SetValue(client, SetValue(client, s, preferenceId, first, true), preferenceId, second, true);
            && RecordsOf(t.values, preferenceId) == {s.nextId}
            && Get(t.values[s.nextId], FieldOf(second)) == SlotOf(second)
            && t.cache[preferenceId] == (if client == Mobile then t.values[s.nextId] else NewValue(s.nextId, preferenceId, first))
  {
    var u := SetValue(client, s, preferenceId, first, true);
    var t := SetValue(client, u, preferenceId, second, true);
    assert s.nextId !in s.values;
    assert RecordsOf(u.values, preferenceId) == {s.nextId} by {
      forall id | id in u.values && id != s.nextId ensures u.values[id].preferenceId != preferenceId {
        assert id !in RecordsOf(s.values, preferenceId);
      }
    }
    assert RecordsOf(t.values, preferenceId) == {s.nextId} by {
      forall id | id in t.values && id != s.nextId ensures t.values[id].preferenceId != preferenceId {
        assert id !in RecordsOf(u.values, preferenceId);
      }
    }
  }

  /**
   * The insert-or-update choice follows the cache, not the store: a write for
   * a preference whose record the cache lacks inserts a second record for it.
   */
  lemma CacheMissAddsRecord(client: Client, s: ValueState, preferenceId: Id, a: Assignment, existing: Id)
    requires WellKeyed(s.values, (v: PreferenceValue) => v.id, s.nextId)
    requires preferenceId !in s.cache && existing in RecordsOf(s.values, preferenceId)
    ensures var t := SetValue(client, s, preferenceId, a, true);
            RecordsOf(t.values, preferenceId) == RecordsOf(s.values, preferenceId) + {s.nextId}
            && s.nextId !in RecordsOf(s.values, preferenceId)
            && |RecordsOf(t.values, preferenceId)| >= 2
  {
    var t := SetValue(client, s, preferenceId, a, true);
    assert s.nextId !in s.values;
    assert RecordsOf(t.values, preferenceId) == RecordsOf(s.values, preferenceId) + {s.nextId};
    assert {existing, s.nextId} <= RecordsOf(t.values, preferenceId);
    assert |{existing, s.nextId}| == 2;
  }

  // ---------------------------------------------------------------------------
  // Numeric input
  // ---------------------------------------------------------------------------

  /** The number a numeric input sends: null for NaN (None here) and for zero, which JavaScript treats as falsy. */
  function FloatOrNull(parsed: Option<real>): (r: Option<real>)
    ensures r == None <==> parsed == None || parsed == Some(0.0)
    ensures r != None ==> r == parsed
  {
    match parsed
    case None => None
    case Some(x) => if x == 0.0 then None else Some(x)
  }

  /** Which bound a numeric input edits. */
  datatype Bound = Min | Max

  /** The assignment the Min / Max inputs send for the text typed. */
  function NumberInput(bound: Bound, text: string, parseFloat: string -> Option<real>): (a: Assignment)
    ensures FieldOf(a) == if bound == Min then ValueMin else ValueMax
    ensures SlotOf(a) == NumberSlot(FloatOrNull(parseFloat(text)))
  {
    match bound
    case Min => SetMin(FloatOrNull(parseFloat(text)))
    case Max => SetMax(FloatOrNull(parseFloat(text)))
  }

  // ---------------------------------------------------------------------------
  // Rendering: which criteria get a row
  // ---------------------------------------------------------------------------

  /** The first preference row for criterion `key`, if any. */
  function FirstWithKey(rows: seq<Preference>, key: string): (r: Option<Preference>)
    ensures r.Some? <==> exists i :: 0 <= i < |rows| && rows[i].criterionKey == key
    ensures r.Some? ==> exists i :: 0 <= i < |rows| && rows[i] == r.value && rows[i].criterionKey == key &&
                          forall j :: 0 <= j < i ==> rows[j].criterionKey != key
  {
    if rows == [] then None
    else if rows[0].criterionKey == key then Some(rows[0])
    else
      var r := FirstWithKey(rows[1..], key);
      assert forall i :: 0 < i < |rows| ==> rows[i] == rows[1..][i - 1];
      r
  }

  /**
   * The criteria cards the detail screens render: each catalog criterion in
   * catalog order with its first matching preference row, skipping criteria
   * that have none.
   */
  function Shown(catalog: seq<Criterion>, rows: seq<Preference>): (r: seq<(Criterion, Preference)>)
    ensures |r| <= |catalog|
    ensures forall e :: e in r ==> e.0 in catalog && FirstWithKey(rows, e.0.key) == Some(e.1)
    ensures forall c :: c in catalog && FirstWithKey(rows, c.key).Some? ==> exists e :: e in r && e.0 == c
  {
    if catalog == [] then []
    else
      var tail := Shown(catalog[1..], rows);
      assert forall i :: 0 < i < |catalog| ==> catalog[i] == catalog[1..][i - 1];
      match FirstWithKey(rows, catalog[0].key)
      case Some(p) => [(catalog[0], p)] + tail
      case None => tail
  }

  /** When every catalog criterion has a row, there is one card per criterion, in catalog order. */
  lemma {:induction false} ShownAllMatched(catalog: seq<Criterion>, rows: seq<Preference>)
    requires forall i :: 0 <= i < |catalog| ==> FirstWithKey(rows, catalog[i].key).Some?
    ensures |Shown(catalog, rows)| == |catalog|
    ensures forall i :: 0 <= i < |catalog| ==> Shown(catalog, rows)[i].0 == catalog[i]
  {
    if catalog != [] {
      var rest := catalog[1..];
      assert forall i :: 0 < i < |catalog| ==> catalog[i] == rest[i - 1];
      ShownAllMatched(rest, rows);
      var p := FirstWithKey(rows, catalog[0].key).value;
      assert Shown(catalog, rows) == [(catalog[0], p)] + Shown(rest, rows);
    }
  }

  /** `x` occurs in `catalog` at an earlier position than `y`. */
  predicate Precedes(x: Criterion, y: Criterion, catalog: seq<Criterion>)
  {
    exists a, b :: 0 <= a < b < |catalog| && catalog[a] == x && catalog[b] == y
  }

  /** Of any two cards, the earlier one shows a criterion that comes earlier in `catalog`. */
  predicate FollowsCatalog(r: seq<(Criterion, Preference)>, catalog: seq<Criterion>)
  {
    forall i, j :: 0 <= i < j < |r| ==> Precedes(r[i].0, r[j].0, catalog)
  }

  /** Positions in the tail of `catalog` keep their order in `catalog`. */
  lemma PrecedesShifted(x: Criterion, y: Criterion, catalog: seq<Criterion>)
    requires catalog != [] && Precedes(x, y, catalog[1..])
    ensures Precedes(x, y, catalog)
  {
    var a, b :| 0 <= a < b < |catalog[1..]| && catalog[1..][a] == x && catalog[1..][b] == y;
    assert catalog[a + 1] == x && catalog[b + 1] == y;
  }

  /** Cards drawn from the tail of `catalog` follow `catalog` when they follow its tail. */
  lemma FollowsShifted(r: seq<(Criterion, Preference)>, catalog: seq<Criterion>)
    requires catalog != [] && FollowsCatalog(r, catalog[1..])
    ensures FollowsCatalog(r, catalog)
  {
    forall i, j | 0 <= i < j < |r| ensures Precedes(r[i].0, r[j].0, catalog) {
      PrecedesShifted(r[i].0, r[j].0, catalog);
    }
  }

  /** A card for the head of `catalog` put in front of cards drawn from its tail follows `catalog`. */
  lemma FollowsCons(p: Preference, r: seq<(Criterion, Preference)>, catalog: seq<Criterion>)
    requires catalog != [] && FollowsCatalog(r, catalog[1..])
    requires forall x :: x in r ==> x.0 in catalog[1..]
    ensures FollowsCatalog([(catalog[0], p)] + r, catalog)
  {
    var s := [(catalog[0], p)] + r;
    FollowsShifted(r, catalog);
    forall i, j | 0 <= i < j < |s| ensures Precedes(s[i].0, s[j].0, catalog) {
      assert s[j] == r[j - 1] && r[j - 1] in r;
      if i == 0 {
        var b :| 0 <= b < |catalog[1..]| && catalog[1..][b] == s[j].0;
        assert catalog[0] == s[i].0 && catalog[b + 1] == s[j].0;
      } else {
        assert s[i] == r[i - 1];
      }
    }
  }

  /**
   * The cards follow catalog order whether or not every criterion has a row,
   * so a criterion without a row leaves a gap and reorders nothing.
   */
  lemma {:induction false} ShownInCatalogOrder(catalog: seq<Criterion>, rows: seq<Preference>)
    ensures FollowsCatalog(Shown(catalog, rows), catalog)
  {
    if catalog != [] {
      ShownInCatalogOrder(catalog[1..], rows);
      var tail := Shown(catalog[1..], rows);
      match FirstWithKey(rows, catalog[0].key)
      case Some(p) =>
        FollowsCons(p, tail, catalog);
      case None =>
        FollowsShifted(tail, catalog);
    }
  }

  /** Right after seeding, every catalog criterion gets a card, in catalog order. */
  lemma SeededShowsWholeCatalog(catalog: seq<Criterion>, projectId: Id, firstId: Id)
    ensures var rows := Stamp(SeedRows(catalog, projectId), firstId);
            |Shown(catalog, rows)| == |catalog| && forall i :: 0 <= i < |catalog| ==> Shown(catalog, rows)[i].0 == catalog[i]
  {
    var rows := Stamp(SeedRows(catalog, projectId), firstId);
    forall i | 0 <= i < |catalog| ensures FirstWithKey(rows, catalog[i].key).Some? {
      assert rows[i].criterionKey == catalog[i].key;
    }
    ShownAllMatched(catalog, rows);
  }

  /**
   * A criterion added to the catalog after a project was seeded has no row,
   * and so gets no card: reconciliation does not backfill it.
   */
  lemma GrownCatalogNotShown(catalog: seq<Criterion>, rows: seq<Preference>, c: Criterion)
    requires forall i :: 0 <= i < |rows| ==> rows[i].criterionKey != c.key
    ensures forall e :: e in Shown(catalog, rows) ==> e.0 != c
  {
  }
}

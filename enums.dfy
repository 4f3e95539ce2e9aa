/**
 * The enum registry: the flat `all_enums` rows grouped into one ordered list
 * per family, and the fixed table that sends a criterion key to its family.
 */
module EnumRegistry {
  import opened Records

  /** The key→family table of `getEnumValuesForCriterion`, entry for entry. */
  const EnumMapping: map<string, string> := map[
    "condition" := "overall_condition_enum",
    "energy_rating" := "energy_rating_enum",
    "location_context" := "area_type_enum",
    "parking_ease" := "parking_ease_enum",
    "property_type" := "property_type_enum",
    "shops_access" := "distance_access_enum",
    "transport_access" := "distance_access_enum"
  ]

  /** The map `enumsMap` holds after the `forEach` loop has pushed every row onto its family's list. */
  function Grouped(rows: seq<EnumRow>): map<string, seq<string>>
  {
    if rows == [] then map[]
    else
      var g := Grouped(rows[..|rows| - 1]);
      var e := rows[|rows| - 1];
      g[e.enumName := (if e.enumName in g then g[e.enumName] else []) + [e.enumValue]]
  }

  /** The values of family `name`, in retrieval order. */
  function Family(rows: seq<EnumRow>, name: string): seq<string>
  {
    if rows == [] then []
    else Family(rows[..|rows| - 1], name) + (if rows[|rows| - 1].enumName == name then [rows[|rows| - 1].enumValue] else [])
  }

  /** The family names in the order they first appear. */
  function Names(rows: seq<EnumRow>): seq<string>
  {
    if rows == [] then []
    else
      var ns := Names(rows[..|rows| - 1]);
      if rows[|rows| - 1].enumName in ns then ns else ns + [rows[|rows| - 1].enumName]
  }

  /** The total length of the lists `g` holds under `names`. */
  function SizeSum(g: map<string, seq<string>>, names: seq<string>): nat
  {
    if names == [] then 0
    else SizeSum(g, names[..|names| - 1]) + (if names[|names| - 1] in g then |g[names[|names| - 1]]| else 0)
  }

  /** A family holds exactly the values of the rows that carry its name. */
  lemma {:induction false} FamilyMembers(rows: seq<EnumRow>, name: string, v: string)
    ensures v in Family(rows, name) <==> exists i :: 0 <= i < |rows| && rows[i].enumName == name && rows[i].enumValue == v
  {
    if rows != [] {
      var init := rows[..|rows| - 1];
      FamilyMembers(init, name, v);
      assert forall i :: 0 <= i < |init| ==> init[i] == rows[i];
    }
  }

  /** Filtering a family distributes over concatenation: rows keep their relative order. */
  lemma {:induction false} FamilyAppend(xs: seq<EnumRow>, ys: seq<EnumRow>, name: string)
    ensures Family(xs + ys, name) == Family(xs, name) + Family(ys, name)
  {
    if ys != [] {
      var ys' := ys[..|ys| - 1];
      assert (xs + ys)[..|xs + ys| - 1] == xs + ys';
      FamilyAppend(xs, ys', name);
    } else {
      assert xs + ys == xs;
    }
  }

  /** The grouped map has one entry per family name present, holding that family in retrieval order. */
  lemma {:induction false} GroupedFamilies(rows: seq<EnumRow>)
    ensures forall n :: n in Grouped(rows) <==> n in Names(rows)
    ensures forall n :: n in Grouped(rows) ==> Grouped(rows)[n] == Family(rows, n)
    ensures forall n :: n !in Grouped(rows) ==> Family(rows, n) == []
  {
    if rows != [] {
      GroupedFamilies(rows[..|rows| - 1]);
    }
  }

  /** `Names` lists every family once, and exactly the families present. */
  lemma {:induction false} NamesDistinct(rows: seq<EnumRow>)
    ensures forall i, j :: 0 <= i < j < |Names(rows)| ==> Names(rows)[i] != Names(rows)[j]
    ensures forall n :: n in Names(rows) <==> exists i :: 0 <= i < |rows| && rows[i].enumName == n
  {
    if rows != [] {
      var init := rows[..|rows| - 1];
      NamesDistinct(init);
      assert forall i :: 0 <= i < |init| ==> init[i] == rows[i];
    }
  }

  /** Changing the list of a name that occurs once among `names` changes the sum by the change in its length. */
  lemma {:induction false} SizeSumUpdate(g: map<string, seq<string>>, names: seq<string>, n: string, s: seq<string>)
    requires n in g && n in names
    requires forall i, j :: 0 <= i < j < |names| ==> names[i] != names[j]
    ensures SizeSum(g[n := s], names) + |g[n]| == SizeSum(g, names) + |s|
  {
    var init := names[..|names| - 1];
    if names[|names| - 1] == n {
      assert n !in init;
      SizeSumOutside(g, init, n, s);
    } else {
      SizeSumUpdate(g, init, n, s);
    }
  }

  /** Changing the list of a name not among `names` leaves the sum alone. */
  lemma {:induction false} SizeSumOutside(g: map<string, seq<string>>, names: seq<string>, n: string, s: seq<string>)
    requires n !in names
    ensures SizeSum(g[n := s], names) == SizeSum(g, names)
  {
    if names != [] {
      SizeSumOutside(g, names[..|names| - 1], n, s);
    }
  }

  /** Grouping loses no row and invents none: the lists together hold as many values as there were rows. */
  lemma {:induction false} GroupedKeepsEveryRow(rows: seq<EnumRow>)
    ensures SizeSum(Grouped(rows), Names(rows)) == |rows|
  {
    if rows != [] {
      var init := rows[..|rows| - 1];
      var e := rows[|rows| - 1];
      var g := Grouped(init);
      GroupedKeepsEveryRow(init);
      GroupedFamilies(init);
      NamesDistinct(init);
      if e.enumName in Names(init) {
        SizeSumUpdate(g, Names(init), e.enumName, g[e.enumName] + [e.enumValue]);
      } else {
        assert e.enumName !in g;
        assert [] + [e.enumValue] == [e.enumValue];
        assert Grouped(rows) == g[e.enumName := [e.enumValue]];
        SizeSumOutside(g, Names(init), e.enumName, [e.enumValue]);
        var ns := Names(init) + [e.enumName];
        assert Names(rows) == ns && ns[..|ns| - 1] == Names(init);
      }
    }
  }

  /** The `forEach` loop of `loadProjectData` that builds `enumsMap`. */
  method GroupEnums(rows: seq<EnumRow>) returns (enumsMap: map<string, seq<string>>)
    ensures enumsMap == Grouped(rows)
    ensures forall n :: n in enumsMap <==> exists i :: 0 <= i < |rows| && rows[i].enumName == n
    ensures forall n :: n in enumsMap ==> enumsMap[n] == Family(rows, n)
  {
    enumsMap := map[];
    var i := 0;
    while i < |rows|
      invariant 0 <= i <= |rows|
      invariant enumsMap == Grouped(rows[..i])
    {
      var e := rows[i];
      if e.enumName !in enumsMap {
        enumsMap := enumsMap[e.enumName := []];
      }
      enumsMap := enumsMap[e.enumName := enumsMap[e.enumName] + [e.enumValue]];
      assert rows[..i + 1][..i] == rows[..i];
      i := i + 1;
    }
    assert rows[..|rows|] == rows;
    GroupedFamilies(rows);
    NamesDistinct(rows);
  }

  /** `getEnumValuesForCriterion`: the values of the family the key maps to, or none when the key or the family is unknown. */
  function ResolveEnumValues(allEnums: map<string, seq<string>>, key: string): (r: seq<string>)
    ensures key !in EnumMapping ==> r == []
    ensures key in EnumMapping && EnumMapping[key] !in allEnums ==> r == []
    ensures key in EnumMapping && EnumMapping[key] in allEnums ==> r == allEnums[EnumMapping[key]]
  {
    if key in EnumMapping && EnumMapping[key] in allEnums then allEnums[EnumMapping[key]] else []
  }

  /** The table has exactly seven keys; the two access criteria share one family. */
  lemma EnumMappingShape()
    ensures EnumMapping.Keys == {"condition", "energy_rating", "location_context", "parking_ease",
                                 "property_type", "shops_access", "transport_access"}
    ensures EnumMapping["shops_access"] == EnumMapping["transport_access"] == "distance_access_enum"
    ensures EnumMapping["condition"] == "overall_condition_enum"
  {
  }

  /**
   * Resolving a key against the grouped rows gives the rows of its family in
   * retrieval order, and nothing for a key outside the table or a family without rows.
   */
  lemma ResolveAgainstRows(rows: seq<EnumRow>, key: string)
    ensures ResolveEnumValues(Grouped(rows), key) == if key in EnumMapping then Family(rows, EnumMapping[key]) else []
  {
    GroupedFamilies(rows);
  }
}

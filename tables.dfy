/**
 * Reading the datastore's tables. A table is a map from row id to row, and ids
 * are handed out in insertion order. A select ordered by `created_at`
 * descending returns its rows in descending id order. A select without an
 * order clause has no promised order; this model fixes one, ascending id
 * (insertion) order, and every order-sensitive result about such a select
 * holds for that order only.
 */
module Tables {
  import opened Records

  /** The rows of `t` with id below `n` that satisfy `keep`, oldest first. */
  function Where<T>(t: map<Id, T>, keep: T -> bool, n: nat): seq<T>
  {
    if n == 0 then []
    else Where(t, keep, n - 1) + (if n - 1 in t && keep(t[n - 1]) then [t[n - 1]] else [])
  }

  /** The rows of `t` with id below `n` that satisfy `keep`, newest first. */
  function WhereNewestFirst<T>(t: map<Id, T>, keep: T -> bool, n: nat): seq<T>
  {
    if n == 0 then []
    else (if n - 1 in t && keep(t[n - 1]) then [t[n - 1]] else []) + WhereNewestFirst(t, keep, n - 1)
  }

  /** A select returns exactly the rows that satisfy its filter. */
  lemma {:induction false} WhereMembers<T>(t: map<Id, T>, keep: T -> bool, n: nat, x: T)
    ensures x in Where(t, keep, n) <==> keep(x) && exists id :: id < n && id in t && t[id] == x
  {
    if n > 0 {
      WhereMembers(t, keep, n - 1, x);
    }
  }

  /** The newest-first select returns exactly the rows that satisfy its filter. */
  lemma {:induction false} WhereNewestFirstMembers<T>(t: map<Id, T>, keep: T -> bool, n: nat, x: T)
    ensures x in WhereNewestFirst(t, keep, n) <==> keep(x) && exists id :: id < n && id in t && t[id] == x
  {
    if n > 0 {
      WhereNewestFirstMembers(t, keep, n - 1, x);
    }
  }

  /** A select whose filter no row meets is empty, and conversely. */
  lemma {:induction false} WhereEmpty<T>(t: map<Id, T>, keep: T -> bool, n: nat)
    ensures Where(t, keep, n) == [] <==> forall id :: id < n && id in t ==> !keep(t[id])
  {
    if n > 0 {
      WhereEmpty(t, keep, n - 1);
    }
  }

  /** Two tables that agree below `n` give the same select. */
  lemma {:induction false} WhereAgrees<T>(t: map<Id, T>, u: map<Id, T>, keep: T -> bool, n: nat)
    requires forall id :: id < n ==> (id in t <==> id in u)
    requires forall id :: id < n && id in t ==> t[id] == u[id]
    ensures Where(t, keep, n) == Where(u, keep, n)
  {
    if n > 0 {
      WhereAgrees(t, u, keep, n - 1);
    }
  }

  /** Two tables that agree below `n` give the same newest-first select. */
  lemma {:induction false} WhereNewestFirstAgrees<T>(t: map<Id, T>, u: map<Id, T>, keep: T -> bool, n: nat)
    requires forall id :: id < n ==> (id in t <==> id in u)
    requires forall id :: id < n && id in t ==> t[id] == u[id]
    ensures WhereNewestFirst(t, keep, n) == WhereNewestFirst(u, keep, n)
  {
    if n > 0 {
      WhereNewestFirstAgrees(t, u, keep, n - 1);
    }
  }

  /** The rows a batch insert creates: consecutive fresh ids from `first`, in payload order. */
  function Stamp(rows: seq<NewPreference>, first: Id): seq<Preference>
  {
    seq(|rows|, i requires 0 <= i < |rows| => Preference(first + i, rows[i].projectId, rows[i].criterionKey, rows[i].level))
  }

  /** The row the batch insert creates with id `id`. */
  function StampAt(rows: seq<NewPreference>, first: Id, id: Id): Preference
    requires first <= id < first + |rows|
  {
    Preference(id, rows[id - first].projectId, rows[id - first].criterionKey, rows[id - first].level)
  }

  /** The same rows as a table. */
  function StampTable(rows: seq<NewPreference>, first: Id): map<Id, Preference>
  {
    map id: Id | first <= id < first + |rows| :: StampAt(rows, first, id)
  }

  /**
   * After a batch insert at the top of the id range, a select that keeps every
   * inserted row returns what it returned before, followed by the inserted rows
   * in payload order.
   */
  lemma {:induction false} WhereAfterBatch(t: map<Id, Preference>, keep: Preference -> bool, n: nat, rows: seq<NewPreference>)
    requires forall id :: id in t ==> id < n
    requires forall i :: 0 <= i < |rows| ==> keep(Stamp(rows, n)[i])
    ensures Where(t + StampTable(rows, n), keep, n + |rows|) == Where(t, keep, n) + Stamp(rows, n)
  {
    var u := t + StampTable(rows, n);
    WhereAgrees(t, u, keep, n);
    var k := 0;
    while k < |rows|
      invariant 0 <= k <= |rows|
      invariant Where(u, keep, n + k) == Where(t, keep, n) + Stamp(rows, n)[..k]
    {
      assert n + k in u && u[n + k] == Stamp(rows, n)[k];
      assert Stamp(rows, n)[..k + 1] == Stamp(rows, n)[..k] + [Stamp(rows, n)[k]];
      k := k + 1;
    }
    assert Stamp(rows, n)[..|rows|] == Stamp(rows, n);
  }
}

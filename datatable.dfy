/**
 * The row selection of the user table: a set of selected row ids, toggled
 * one row at a time or all at once, and the header checkbox's checked and
 * indeterminate flags derived from it.
 */
module DataTable {

  /** The ids of the ten mock users, in table order. */
  const MockIds: seq<string> :=
    ["USR-001", "USR-002", "USR-003", "USR-004", "USR-005",
     "USR-006", "USR-007", "USR-008", "USR-009", "USR-010"]

  function Ids(rows: seq<string>): set<string> {
    set id | id in rows
  }

  predicate DistinctIds(rows: seq<string>) {
    forall i, j :: 0 <= i < j < |rows| ==> rows[i] != rows[j]
  }

  /** `toggleSelectItem`: remove the id if it is selected, add it otherwise. */
  function Toggle(selected: set<string>, id: string): set<string> {
    if id in selected then selected - {id} else selected + {id}
  }

  /** `toggleSelectAll`: clear when as many ids are selected as there are rows, otherwise select every row. */
  function ToggleAll(selected: set<string>, rows: seq<string>): set<string> {
    if |selected| == |rows| then {} else Ids(rows)
  }

  /** `isAllSelected` */
  predicate AllSelected(selected: set<string>, rows: seq<string>) {
    |rows| > 0 && |selected| == |rows|
  }

  /** `isIndeterminate` */
  predicate Indeterminate(selected: set<string>, rows: seq<string>) {
    |selected| > 0 && |selected| < |rows|
  }

  /** The "N selected" bar with the delete button. */
  predicate ShowsBulkActions(selected: set<string>) {
    |selected| > 0
  }

  /**
   * The component's state: the rows never change, the selection does.
   * `Valid` holds the table's invariant: the row ids are distinct and only
   * row ids are selected.
   */
  class Table {
    const rowIds: seq<string>
    var selected: set<string>

    predicate Valid()
      reads this
    {
      DistinctIds(rowIds) && selected <= Ids(rowIds)
    }

    constructor(rowIds: seq<string>)
      requires DistinctIds(rowIds)
      ensures this.rowIds == rowIds && selected == {}
      ensures Valid() && !IsAllSelected() && !IsIndeterminate()
    {
      this.rowIds := rowIds;
      selected := {};
    }

    /** The header checkbox's handler: clear a full selection, otherwise select every row. */
    method ToggleSelectAll()
      requires Valid()
      modifies this
      ensures selected == ToggleAll(old(selected), rowIds)
      ensures Valid()
      ensures old(IsAllSelected()) ==> selected == {}
      ensures !old(IsAllSelected()) && rowIds != [] ==> IsAllSelected()
    {
      if rowIds != [] {
        ToggleAllFlags(selected, rowIds);
      }
      if |selected| == |rowIds| {
        selected := {};
      } else {
        selected := set id | id in rowIds;
      }
    }

    /** A row checkbox's handler, which passes that row's own id. */
    method ToggleSelectItem(id: string)
      requires Valid() && id in rowIds
      modifies this
      ensures selected == Toggle(old(selected), id)
      ensures Valid()
      ensures id in selected <==> id !in old(selected)
    {
      SelectionStaysWithinRows(selected, rowIds, id);
      var newSelected := selected;
      if id in newSelected {
        newSelected := newSelected - {id};
      } else {
        newSelected := newSelected + {id};
      }
      selected := newSelected;
    }

    /** `isAllSelected`: on a valid table, checked exactly when every row is selected. */
    predicate IsAllSelected()
      reads this
      ensures Valid() ==> (IsAllSelected() <==> rowIds != [] && selected == Ids(rowIds))
    {
      if Valid() then
        FlagsMeaning(selected, rowIds);
        AllSelected(selected, rowIds)
      else
        AllSelected(selected, rowIds)
    }

    /** `isIndeterminate`: on a valid table, exactly when some but not all rows are selected. */
    predicate IsIndeterminate()
      reads this
      ensures Valid() ==> (IsIndeterminate() <==> selected != {} && selected != Ids(rowIds))
      ensures !(IsAllSelected() && IsIndeterminate())
    {
      if Valid() then
        FlagsMeaning(selected, rowIds);
        Indeterminate(selected, rowIds)
      else
        Indeterminate(selected, rowIds)
    }
  }

  // ---------------------------------------------------------------------
  // Properties.
  // ---------------------------------------------------------------------

  /** Toggling flips the membership of that id and of no other. */
  lemma ToggleFlipsOnlyItsId(selected: set<string>, id: string)
    ensures id in Toggle(selected, id) <==> id !in selected
    ensures forall other :: other != id ==> (other in Toggle(selected, id) <==> other in selected)
  {
  }

  /** Toggling the same id twice restores the selection. */
  lemma ToggleTwice(selected: set<string>, id: string)
    ensures Toggle(Toggle(selected, id), id) == selected
  {
  }

  /** Selecting only row ids stays so under either toggle, as long as rows toggle their own id. */
  lemma SelectionStaysWithinRows(selected: set<string>, rows: seq<string>, id: string)
    requires selected <= Ids(rows)
    ensures id in rows ==> Toggle(selected, id) <= Ids(rows)
    ensures ToggleAll(selected, rows) <= Ids(rows)
  {
  }

  /** The header checkbox is never both checked and indeterminate. */
  lemma FlagsExclusive(selected: set<string>, rows: seq<string>)
    ensures !(AllSelected(selected, rows) && Indeterminate(selected, rows))
  {
  }

  /** The bar shows exactly when something is selected. */
  lemma BulkActionsWhenSelected(selected: set<string>)
    ensures ShowsBulkActions(selected) <==> selected != {}
  {
    if selected != {} {
      var x :| x in selected;
      assert |selected| >= |{x}|;
    }
  }

  /** Distinct row ids give as many ids as rows. */
  lemma {:induction false} IdsCount(rows: seq<string>)
    requires DistinctIds(rows)
    ensures |Ids(rows)| == |rows|
    decreases |rows|
  {
    if rows != [] {
      var init, last := rows[..|rows| - 1], rows[|rows| - 1];
      IdsCount(init);
      assert rows == init + [last];
      assert Ids(rows) == Ids(init) + {last};
      assert last !in Ids(init);
    }
  }

  /** A subset is no larger than its superset, and one as large is the superset. */
  lemma SubsetSize(a: set<string>, b: set<string>)
    requires a <= b
    ensures |a| <= |b|
    ensures |a| == |b| ==> a == b
  {
    assert b == a + (b - a);
    assert |b| == |a| + |b - a|;
    if |a| == |b| {
      assert |b - a| == 0;
      assert b - a == {};
    }
  }

  /**
   * With distinct row ids and only row ids selected, the header is checked
   * exactly when every row is selected, and indeterminate exactly when some
   * but not all rows are.
   */
  lemma FlagsMeaning(selected: set<string>, rows: seq<string>)
    requires DistinctIds(rows) && selected <= Ids(rows)
    ensures AllSelected(selected, rows) <==> rows != [] && selected == Ids(rows)
    ensures Indeterminate(selected, rows) <==> selected != {} && selected != Ids(rows)
  {
    IdsCount(rows);
    BulkActionsWhenSelected(selected);
    SubsetSize(selected, Ids(rows));
  }

  /** With distinct row ids, select-all checks the header unless everything was selected, which it clears. */
  lemma ToggleAllFlags(selected: set<string>, rows: seq<string>)
    requires DistinctIds(rows) && rows != []
    ensures AllSelected(selected, rows) ==> ToggleAll(selected, rows) == {}
    ensures !AllSelected(selected, rows) ==> AllSelected(ToggleAll(selected, rows), rows)
  {
    IdsCount(rows);
  }

  /** The mock users' ids are distinct, so the ten-row table behaves as `FlagsMeaning` states. */
  lemma MockIdsDistinct()
    ensures |MockIds| == 10 && DistinctIds(MockIds)
  {
  }
}

/**
 * The datatype table: the rows of the "RDFS Datatypes" sheet, queried by
 * exact match on the column named `Property`.
 */
module DatatypeTable {
  import opened Wrappers

  /** One sheet row: the cell in the column named `Property`, and the cell
      in the sheet's second column (index 1), whatever that column's header
      and wherever `Property` sits. */
  datatype Row = Row(property: string, datatypeIri: string)

  /** The rows in sheet order; duplicates are allowed. */
  type Table = seq<Row>

  /** Filtering the rows on `Property == p` and reading row 0, column 1: the
      Datatype of the FIRST matching row in sheet order, or `None` when the
      filter leaves nothing. */
  function Lookup(table: Table, p: string): (r: Option<string>)
    ensures r.None? <==> forall i :: 0 <= i < |table| ==> table[i].property != p
    ensures r.Some? ==>
      exists i :: 0 <= i < |table| && table[i] == Row(p, r.value) &&
        forall j :: 0 <= j < i ==> table[j].property != p
  {
    if |table| == 0 then None
    else if table[0].property == p then Some(table[0].datatypeIri)
    else
      var r := Lookup(table[1..], p);
      assert forall i :: 0 <= i < |table[1..]| ==> table[1..][i] == table[i + 1];
      r
  }

  /** Duplicate rows for a predicate: the earliest one wins, whatever follows. */
  lemma FirstRowWins(table: Table, p: string, d: string, rest: Table)
    requires forall i :: 0 <= i < |table| ==> table[i].property != p
    ensures Lookup(table + [Row(p, d)] + rest, p) == Some(d)
  {
    var t := table + [Row(p, d)] + rest;
    assert t[|table|] == Row(p, d);
    assert forall j :: 0 <= j < |table| ==> t[j] == table[j];
  }
}

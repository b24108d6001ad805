/** Building one report row per dictionary entry. */
module Rows {
  import opened Components
  import opened Grouping
  import opened Text

  /** One data row of the report. The quantity is kept as a number. */
  datatype Row = Row(
    references: string,
    quantity: int,
    values: string,
    partName: string,
    footprint: string,
    description: string,
    orderNumber: string)

  /** The separator placed between merged references and values. */
  const Separator: string := ", "

  /** The references of `cs`, in order. */
  function References(cs: seq<Component>): seq<string>
  {
    seq(|cs|, i requires 0 <= i < |cs| => cs[i].reference)
  }

  /** The values of `cs`, in order. */
  function Values(cs: seq<Component>): seq<string>
  {
    seq(|cs|, i requires 0 <= i < |cs| => cs[i].value)
  }

  /** The row written for one list of components: merged references and
      values, the list's length, and the remaining columns from the list's
      first component (whose order number is the last column). */
  function MakeRow(items: seq<Component>): Row
    requires |items| > 0
  {
    var first := items[0];
    Row(Join(Separator, References(items)), |items|, Join(Separator, Values(items)),
        first.partName, first.footprint, first.description, first.orderNumber)
  }

  /** One row per dictionary entry, in key order. */
  function BuildRows(d: seq<Bucket>): seq<Row>
    requires forall i :: 0 <= i < |d| ==> |d[i].items| > 0
  {
    seq(|d|, i requires 0 <= i < |d| => MakeRow(d[i].items))
  }

  /** The sum of the quantity column. */
  function TotalQuantity(rows: seq<Row>): int
  {
    if |rows| == 0 then 0 else rows[0].quantity + TotalQuantity(rows[1..])
  }

  /** The quantities of the rows of a dictionary add up to the number of
      components in its lists. */
  lemma {:induction false} TotalQuantityConcat(d: seq<Bucket>)
    requires forall i :: 0 <= i < |d| ==> |d[i].items| > 0
    ensures TotalQuantity(BuildRows(d)) == |Concat(d)|
  {
    if |d| > 0 {
      assert BuildRows(d)[1..] == BuildRows(d[1..]);
      TotalQuantityConcat(d[1..]);
    }
  }
}

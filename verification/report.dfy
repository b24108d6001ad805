/** The whole data path of the bill-of-materials report: flatten the
    netlist's groups, group by order number, write one row per order number. */
module Report {
  import opened Components
  import opened Flattening
  import opened Grouping
  import opened Text
  import opened Rows

  /** The data rows for a flattened component list. */
  function BomRows(cs: seq<Component>): seq<Row>
  {
    BuildRows(GroupBy(cs))
  }

  /** The data rows for the netlist's component groups. */
  function BomReport(groups: seq<seq<Component>>): seq<Row>
  {
    BomRows(Flatten(groups))
  }

  /** The order numbers appearing in the last column. */
  function RowKeys(rows: seq<Row>): set<string>
  {
    set i | 0 <= i < |rows| :: rows[i].orderNumber
  }

  /** `row` is the row for its order number `k`, stated against the input
      alone: quantity, merged references and values of all components with
      order number `k` in input order, and the other columns from the first
      component with that order number. */
  ghost predicate RowFor(cs: seq<Component>, row: Row)
  {
    var k := row.orderNumber;
    var b := Filter(cs, k);
    && k in OrderNumbers(cs)
    && FirstIndex(cs, k) < |cs|
    && row.quantity == |b|
    && row.references == Join(Separator, References(b))
    && row.values == Join(Separator, Values(b))
    && row.partName == cs[FirstIndex(cs, k)].partName
    && row.footprint == cs[FirstIndex(cs, k)].footprint
    && row.description == cs[FirstIndex(cs, k)].description
  }

  /** The row built from the list of key `k` is the row for `k`. */
  lemma MakeRowFor(cs: seq<Component>, k: string)
    requires k in OrderNumbers(cs)
    ensures |Filter(cs, k)| > 0
    ensures MakeRow(Filter(cs, k)).orderNumber == k
    ensures RowFor(cs, MakeRow(Filter(cs, k)))
  {
  }

  /** Row `i` is the row of the `i`-th dictionary key. */
  lemma BomRowAt(cs: seq<Component>, i: nat)
    requires i < |BomRows(cs)|
    ensures i < |GroupBy(cs)|
    ensures BomRows(cs)[i].orderNumber == GroupBy(cs)[i].key
    ensures RowFor(cs, BomRows(cs)[i])
  {
    GroupByBucket(cs, i);
    MakeRowFor(cs, GroupBy(cs)[i].key);
  }

  /** The last column lists the dictionary's keys, in the same order. */
  lemma BomRowKeysAreBucketKeys(cs: seq<Component>)
    ensures |BomRows(cs)| == |GroupBy(cs)|
    ensures forall i :: 0 <= i < |BomRows(cs)| ==> BomRows(cs)[i].orderNumber == GroupBy(cs)[i].key
  {
  }

  /** The last column holds exactly the dictionary's keys. */
  lemma RowKeysAreKeySet(cs: seq<Component>)
    ensures RowKeys(BomRows(cs)) == KeySet(GroupBy(cs))
  {
    var d := GroupBy(cs);
    var rows := BomRows(cs);
    BomRowKeysAreBucketKeys(cs);
    forall k | k in KeySet(d) ensures k in RowKeys(rows) {
      var i :| 0 <= i < |d| && d[i].key == k;
      assert rows[i].orderNumber == k;
    }
  }

  /** One row per distinct order number, in order of first occurrence. */
  lemma BomRowsKeys(cs: seq<Component>)
    ensures |BomRows(cs)| == |OrderNumbers(cs)|
    ensures RowKeys(BomRows(cs)) == OrderNumbers(cs)
    ensures forall i, j :: 0 <= i < j < |BomRows(cs)| ==>
              FirstIndex(cs, BomRows(cs)[i].orderNumber) < FirstIndex(cs, BomRows(cs)[j].orderNumber)
  {
    var d := GroupBy(cs);
    var rows := BomRows(cs);
    BomRowKeysAreBucketKeys(cs);
    GroupByKeys(cs);
    RowKeysAreKeySet(cs);
  }

  /** Every row is the row for its order number. */
  lemma BomRowsContents(cs: seq<Component>)
    ensures forall i :: 0 <= i < |BomRows(cs)| ==> RowFor(cs, BomRows(cs)[i])
  {
    forall i | 0 <= i < |BomRows(cs)| ensures RowFor(cs, BomRows(cs)[i]) {
      BomRowAt(cs, i);
    }
  }

  /** The data rows: one per distinct order number, keys in order of first
      occurrence, each row the row for its key. */
  lemma BomRowsCorrect(cs: seq<Component>)
    ensures |BomRows(cs)| == |OrderNumbers(cs)|
    ensures RowKeys(BomRows(cs)) == OrderNumbers(cs)
    ensures forall i :: 0 <= i < |BomRows(cs)| ==> RowFor(cs, BomRows(cs)[i])
    ensures forall i, j :: 0 <= i < j < |BomRows(cs)| ==>
              FirstIndex(cs, BomRows(cs)[i].orderNumber) < FirstIndex(cs, BomRows(cs)[j].orderNumber)
  {
    BomRowsKeys(cs);
    BomRowsContents(cs);
  }

  /** Row keys are distinct: no order number gets two rows. */
  lemma BomRowsDistinct(cs: seq<Component>)
    ensures forall i, j :: 0 <= i < j < |BomRows(cs)| ==>
              BomRows(cs)[i].orderNumber != BomRows(cs)[j].orderNumber
  {
    BomRowsCorrect(cs);
  }

  /** The quantities add up to the number of components. */
  lemma QuantitiesSum(cs: seq<Component>)
    ensures TotalQuantity(BomRows(cs)) == |cs|
  {
    GroupByPartition(cs);
    TotalQuantityConcat(GroupBy(cs));
  }

  /** A row of quantity one shows that single component's reference and value
      unchanged. */
  lemma SingleComponentRow(cs: seq<Component>, i: nat)
    requires i < |BomRows(cs)| && BomRows(cs)[i].quantity == 1
    ensures var k := BomRows(cs)[i].orderNumber;
            FirstIndex(cs, k) < |cs|
            && Filter(cs, k) == [cs[FirstIndex(cs, k)]]
            && BomRows(cs)[i].references == cs[FirstIndex(cs, k)].reference
            && BomRows(cs)[i].values == cs[FirstIndex(cs, k)].value
  {
    BomRowsCorrect(cs);
    var k := BomRows(cs)[i].orderNumber;
    FilterHead(cs, k);
  }

  /** Splitting a joined column at the separator gives back the strings of
      a list exactly when none of them contains the separator. */
  lemma ColumnRecoverable(parts: seq<string>)
    requires |parts| > 0
    ensures Split(Join(Separator, parts), Separator) == parts <==>
            forall i, j :: 0 <= i < |parts| ==> !SeparatorAt(parts[i], Separator, j)
  {
    assert Separator[1..] == " ";
    SplitJoinExact(Separator, parts);
  }

  /** The reference column of a list splits back into its references exactly
      when none of them contains the separator. */
  lemma ReferenceColumn(b: seq<Component>)
    requires |b| > 0
    ensures Split(Join(Separator, References(b)), Separator) == References(b) <==>
            forall x, j :: x in b ==> !SeparatorAt(x.reference, Separator, j)
  {
    var parts := References(b);
    ColumnRecoverable(parts);
    assert forall n :: 0 <= n < |parts| ==> parts[n] == b[n].reference;
    assert forall x :: x in b ==> exists n :: 0 <= n < |b| && b[n] == x;
  }

  /** The value column of a list splits back into its values exactly when
      none of them contains the separator. */
  lemma ValueColumn(b: seq<Component>)
    requires |b| > 0
    ensures Split(Join(Separator, Values(b)), Separator) == Values(b) <==>
            forall x, j :: x in b ==> !SeparatorAt(x.value, Separator, j)
  {
    var parts := Values(b);
    ColumnRecoverable(parts);
    assert forall n :: 0 <= n < |parts| ==> parts[n] == b[n].value;
    assert forall x :: x in b ==> exists n :: 0 <= n < |b| && b[n] == x;
  }

  /** Splitting the reference column at ", " gives back every reference of
      the row's order number, each once, in input order, exactly when none of
      those references contains ", ". */
  lemma ReferencesRecoverable(cs: seq<Component>, i: nat)
    requires i < |BomRows(cs)|
    ensures var k := BomRows(cs)[i].orderNumber;
            Split(BomRows(cs)[i].references, Separator) == References(Filter(cs, k)) <==>
            forall x, j :: x in cs && x.orderNumber == k ==> !SeparatorAt(x.reference, Separator, j)
  {
    var k := BomRows(cs)[i].orderNumber;
    BomRowAt(cs, i);
    FilterHead(cs, k);
    ReferenceColumn(Filter(cs, k));
  }

  /** The same for the value column. */
  lemma ValuesRecoverable(cs: seq<Component>, i: nat)
    requires i < |BomRows(cs)|
    ensures var k := BomRows(cs)[i].orderNumber;
            Split(BomRows(cs)[i].values, Separator) == Values(Filter(cs, k)) <==>
            forall x, j :: x in cs && x.orderNumber == k ==> !SeparatorAt(x.value, Separator, j)
  {
    var k := BomRows(cs)[i].orderNumber;
    BomRowAt(cs, i);
    FilterHead(cs, k);
    ValueColumn(Filter(cs, k));
  }

  /** End to end: as many rows as distinct order numbers among all
      components, and the quantities add up to the number of components in
      all groups. */
  lemma BomReportTotals(groups: seq<seq<Component>>)
    ensures |BomReport(groups)| == |OrderNumbers(Flatten(groups))|
    ensures TotalQuantity(BomReport(groups)) == TotalSize(groups)
  {
    BomRowsCorrect(Flatten(groups));
    QuantitiesSum(Flatten(groups));
    FlattenLength(groups);
  }

  /** The row-writing loop over the dictionary's lists, in key order. */
  method WriteRows(buckets: seq<Bucket>) returns (rows: seq<Row>)
    requires forall i :: 0 <= i < |buckets| ==> |buckets[i].items| > 0
    ensures rows == BuildRows(buckets)
  {
    rows := [];
    for i := 0 to |buckets|
      invariant |rows| == i
      invariant forall j :: 0 <= j < i ==> rows[j] == MakeRow(buckets[j].items)
    {
      rows := rows + [MakeRow(buckets[i].items)];
    }
  }

  /** The script's data path: the flattening loop, the grouping loop and the
      row-writing loop. */
  method GenerateReport(groups: seq<seq<Component>>) returns (rows: seq<Row>)
    ensures rows == BomReport(groups)
    ensures |rows| == |OrderNumbers(Flatten(groups))|
    ensures TotalQuantity(rows) == TotalSize(groups)
  {
    var components := FlattenGroups(groups);
    var buckets := GroupByOrderNumber(components);
    rows := WriteRows(buckets);
    BomReportTotals(groups);
  }
}

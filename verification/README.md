# Bill-of-materials aggregation, modelled in Dafny

`scripts/bom_csv.py` turns a KiCad netlist into a CSV bill of materials. Its
own logic sits between the netlist reader and the CSV writer:

1. **Flattening.** The reader's component groups are flattened into one
   ordered list of `Component` records with six text fields.
2. **Grouping by order number.** The list is split into an insertion-ordered
   dictionary `componentsByOrderNumber`. Its key is the "RS order number" field
   and its values are lists that only ever get appended to. The empty order
   number is an ordinary key.
3. **Row building.** Each dictionary entry, in key order, becomes one row.
   The row holds the references joined by `", "`, the list length, and the
   values joined by `", "`. Part name, footprint, description and order
   number come from the list's first component.

The model uses immutable datatypes and pure functions. Each loop of the
script is also written as a Dafny method, and each method is proved equal
to its function.

- `component.dfy` (`Components`): the `Component` record and an `Option` type.
- `flatten.dfy` (`Flattening`): `Flatten`, a left fold over the groups, and
  the nested loop `FlattenGroups`.
- `group.dfy` (`Grouping`): the dictionary, modelled as a sequence of
  `Bucket(key, items)` with distinct keys.
  - `Find` is the `in` test.
  - `Insert` is one iteration of the grouping loop.
  - `GroupBy` is the fold of `Insert`, and `GroupByOrderNumber` is the loop.
  - The reference definitions that `GroupBy` is checked against are
    `OrderNumbers` (the set of keys), `Filter` (the components of one key,
    in input order) and `FirstIndex` (where a key first occurs).
    `Grouped(cs, d)` bundles them, and `GroupByCharacterised` proves that
    `GroupBy(cs)` is the only dictionary satisfying it.
- `text.dfy` (`Text`): `Join`, which behaves like Python's `str.join`, and
  its partner `Split`, which behaves like `str.split` with a non-empty
  separator.
- `rows.dfy` (`Rows`): the `Row` datatype (the quantity is an `int`),
  `MakeRow` for one list, and `BuildRows`.
- `report.dfy` (`Report`): `BomRows`, `BomReport`, the theorems about the
  rows, and the method `GenerateReport`, which chains the three loops.
- `scenarios.dfy` (`Scenarios`): two worked inputs, computed exactly.

## Model

| member | source | states |
|---|---|---|
| Flattening.FlattenGroups | scripts/bom_csv.py:66-77 | the nested loop produces exactly the flattened list, whose length is the sum of the group sizes |
| Flattening.FlattenLength | scripts/bom_csv.py:66-77 | the flattened length equals the sum of the group sizes |
| Flattening.FlattenConcat | scripts/bom_csv.py:68-77 | flattening two runs of groups one after the other gives the two flattened lists one after the other |
| Flattening.FlattenPosition | scripts/bom_csv.py:68-77 | component j of group i sits at position (sizes of groups before i) + j of the flattened list |
| Flattening.FlattenOrder | scripts/bom_csv.py:68-69 | outer group order first, then inner order: earlier (group, position) pairs land at earlier positions |
| Flattening.FlattenMembership | scripts/bom_csv.py:68-77 | a component is in the flattened list exactly when it is in some group |
| Grouping.Find | scripts/bom_csv.py:82 | the lookup misses exactly when the key is absent, and a hit points at the bucket with that key |
| Grouping.Insert | scripts/bom_csv.py:81-85 | one iteration keeps keys distinct and existing keys in place; only the component's own key gains it, at the end of its list; a new key is added at the end with the list [c] |
| Grouping.GroupBy | scripts/bom_csv.py:79-85 | the finished dictionary has distinct keys and no empty list, so `componentsList[0]` is always defined |
| Grouping.GroupByOrderNumber | scripts/bom_csv.py:79-85 | the single-pass loop builds the fold `GroupBy` of the flattened list |
| Grouping.InsertKeepsFilters | scripts/bom_csv.py:82-85 | after an iteration every list is still exactly the components of its key, in input order |
| Grouping.InsertKeepsOrder | scripts/bom_csv.py:84-85 | after an iteration keys are still in order of first occurrence, because a new key is only added at the end |
| Grouping.KeyCount | scripts/bom_csv.py:79-85 | a dictionary without repeated keys has exactly one bucket per key, so the bucket count is the number of distinct keys |
| Grouping.InsertKeepsCount | scripts/bom_csv.py:84-85 | after an iteration the keys are the order numbers seen so far; with `KeyCount`, that is one bucket per distinct order number |
| Grouping.InsertKeepsGrouped | scripts/bom_csv.py:81-85 | one iteration preserves the whole grouping invariant, including the bucket count |
| Grouping.GroupByGrouped | scripts/bom_csv.py:79-85 | the dictionary has distinct keys and exactly the input's order numbers; each list holds the components with that order number in input order; keys follow first occurrence |
| Grouping.GroupByBucket | scripts/bom_csv.py:81-85 | each list is the input filtered by its key, and the key occurs in the input |
| Grouping.GroupByKeys | scripts/bom_csv.py:84-85 | the keys are the input's order numbers, one bucket each, in order of first occurrence |
| Grouping.KeysUnique | scripts/bom_csv.py:84-85 | two duplicate-free key lists with the same keys, both in first-occurrence order, are identical |
| Grouping.GroupedUnique | scripts/bom_csv.py:79-85 | at most one dictionary satisfies the grouping invariant for a given input |
| Grouping.GroupByCharacterised | scripts/bom_csv.py:79-85 | a dictionary satisfies the grouping invariant if and only if it is the one the loop builds |
| Grouping.FilterSnoc | scripts/bom_csv.py:82-83 | appending a component extends only its own key's list, by that component at the end |
| Grouping.FilterConcat | scripts/bom_csv.py:82-83 | bucket contents are stable: the list for the input a + b is the list for a followed by the list for b |
| Grouping.FilterHead | scripts/bom_csv.py:85 | the first member of a key's list is the first component of the input carrying that key |
| Grouping.GroupByPlacement | scripts/bom_csv.py:81-85 | every component lies in the bucket whose key is its order number and in no other bucket |
| Grouping.ConcatUpdate | scripts/bom_csv.py:83 | replacing one list changes the multiset of all components by exactly the old and new lists |
| Grouping.AppendConcat | scripts/bom_csv.py:83 | appending to an existing list adds exactly one copy of the component to all buckets together |
| Grouping.InsertConcat | scripts/bom_csv.py:82-85 | an iteration adds exactly one copy of the component to all buckets together |
| Grouping.GroupByPartition | scripts/bom_csv.py:79-85 | the buckets, concatenated, are a permutation of the input: nothing lost, nothing duplicated, and the total size is the input length |
| Text.SplitJoin | scripts/bom_csv.py:89-91 | splitting a join at a separator that cannot overlap itself gives the parts back when no part contains the separator |
| Text.SplitJoinCuts | scripts/bom_csv.py:89-91 | if some part contains the separator, splitting the join does not give the parts back |
| Text.SplitJoinExact | scripts/bom_csv.py:89-91 | for a separator that cannot overlap itself, a join splits back into its parts exactly when no part contains the separator |
| Report.ColumnRecoverable | scripts/bom_csv.py:89-91 | a column joined with `", "` splits back into its strings exactly when none of them contains `", "` |
| Rows.TotalQuantityConcat | scripts/bom_csv.py:88-96 | the quantity column sums to the number of components in all lists |
| Report.MakeRowFor | scripts/bom_csv.py:89-101 | the row of a key's list has the list's length, its references and values joined, the other columns from the key's first component, and the key in the last column |
| Report.BomRowAt | scripts/bom_csv.py:88-101 | row i belongs to the i-th dictionary key and is the row for that key |
| Report.BomRowKeysAreBucketKeys | scripts/bom_csv.py:88-101 | the last column lists the dictionary's keys in dictionary order |
| Report.RowKeysAreKeySet | scripts/bom_csv.py:88-101 | the last column holds exactly the dictionary's keys |
| Report.BomRowsKeys | scripts/bom_csv.py:84-88 | one row per distinct order number, and rows in order of each order number's first occurrence |
| Report.BomRowsContents | scripts/bom_csv.py:89-101 | every row has the right quantity, joined references and values, and first-component columns for its order number |
| Report.BomRowsCorrect | scripts/bom_csv.py:79-101 | the data rows as a whole: their count, the order numbers they cover, the contents of each row, and their order |
| Report.BomRowsDistinct | scripts/bom_csv.py:84-88 | no order number gets two rows |
| Report.QuantitiesSum | scripts/bom_csv.py:88-96 | the quantities sum to the number of flattened components |
| Report.SingleComponentRow | scripts/bom_csv.py:89-97 | a row of quantity one shows that component's reference and value unchanged |
| Report.ReferenceColumn | scripts/bom_csv.py:90 | the reference column of a list splits back into its references exactly when none of them contains `", "` |
| Report.ValueColumn | scripts/bom_csv.py:91 | the value column of a list splits back into its values exactly when none of them contains `", "` |
| Report.ReferencesRecoverable | scripts/bom_csv.py:89-95 | the reference column of a row splits back into all references of its order number, each once, in input order, exactly when none of those references contains `", "`; a comma without the following space is harmless |
| Report.ValuesRecoverable | scripts/bom_csv.py:91-97 | the value column of a row splits back into all values of its order number exactly when none of those values contains `", "` |
| Report.BomReportTotals | scripts/bom_csv.py:66-101 | end to end: one row per distinct order number, and the quantities sum to the total size of the netlist's groups |
| Report.WriteRows | scripts/bom_csv.py:88-101 | the row-writing loop emits one row per dictionary entry, in key order |
| Report.GenerateReport | scripts/bom_csv.py:66-101 | the three loops together produce the report rows, with one row per distinct order number and quantities summing to the total group size |
| Scenarios.SharedOrderNumberMerges | scripts/bom_csv.py:79-101 | R1 and R2 with order number ABC, then C1 with XYZ, give the rows ("R1, R2", 2, "10k, 10k", …, "ABC") and ("C1", 1, "1uF", …, "XYZ") |
| Scenarios.EmptyOrderNumbersMerge | scripts/bom_csv.py:79-101 | two components with empty order numbers merge into one row keyed by the empty string |

## Left out

- Reading the netlist (`kicad_netlist_reader.netlist`) and its grouping rule (`net.groupComponents`). They belong to an external library. The grouped input is an arbitrary `seq<seq<Component>>`.
- The accessors `getRef`, `getValue`, `getPartName`, `getFootprint`, `getDescription` and `getField("RS order number")`. These are foreign calls, so the six strings are taken as already extracted.
- Opening the output file and falling back to standard output. This is I/O. The diagnostic on line 34 passes `sys.stderr` as a value to print rather than as `file=`, so the message goes to standard output. The model does not depend on this.
- CSV serialisation by `csv.writer` (every field quoted, `'\n'` line ends, embedded quotes doubled). This is a library primitive, so rows are modelled as records of seven fields. The quantity is an `int`, not its decimal text.
- The six header rows (source, date, tool, generator, component count, column titles). They are fixed text plus values from outside the core. The component count is `len(net.components)`, and how it relates to the flattened length depends on the external grouper.
- `Component.__str__`. It is debug formatting only.
- Python's `dict` is a hash table. The model uses a sequence of buckets with a linear `Find`. This preserves what the script observes: membership, insertion order and appending. It does not model lookup cost.

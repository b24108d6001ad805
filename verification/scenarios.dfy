/** Worked examples of the report on small inputs. */
module Scenarios {
  import opened Components
  import opened Grouping
  import opened Text
  import opened Rows
  import opened Report

  /** Two resistors with one order number and a capacitor with another. */
  const R1 := Component("R1", "10k", "R", "0402", "resistor", "ABC")
  const R2 := Component("R2", "10k", "R", "0402", "resistor", "ABC")
  const C1 := Component("C1", "1uF", "C", "0603", "cap", "XYZ")

  /** The same two parts with the order number left empty. */
  const R1Blank := Component("R1", "10k", "R", "0402", "resistor", "")
  const C1Blank := Component("C1", "1uF", "C", "0603", "cap", "")

  /** The dictionary for the first example, iteration by iteration. */
  lemma SharedOrderNumberGroups()
    ensures GroupBy([R1, R2, C1]) == [Bucket("ABC", [R1, R2]), Bucket("XYZ", [C1])]
  {
    assert [R1, R2, C1][..2] == [R1, R2] && [R1, R2][..1] == [R1];
    assert GroupBy([R1]) == [Bucket("ABC", [R1])];
    assert Find([Bucket("ABC", [R1])], "ABC") == Some(0);
    assert [R1] + [R2] == [R1, R2];
    assert Insert([Bucket("ABC", [R1])], R2) == [Bucket("ABC", [R1])][0 := Bucket("ABC", [R1] + [R2])];
    assert GroupBy([R1, R2]) == Insert([Bucket("ABC", [R1])], R2) == [Bucket("ABC", [R1, R2])];
    assert Find([Bucket("ABC", [R1, R2])], "XYZ") == None;
  }

  /** Two resistors sharing an order number merge into one row; the
      capacitor gets its own row after them. */
  lemma SharedOrderNumberMerges()
    ensures BomRows([R1, R2, C1])
      == [Row("R1, R2", 2, "10k, 10k", "R", "0402", "resistor", "ABC"),
          Row("C1", 1, "1uF", "C", "0603", "cap", "XYZ")]
  {
    SharedOrderNumberGroups();
    assert References([R1, R2]) == ["R1", "R2"] && Values([R1, R2]) == ["10k", "10k"];
    assert References([C1]) == ["C1"] && Values([C1]) == ["1uF"];
    assert Join(Separator, ["R1", "R2"]) == "R1, R2";
    assert Join(Separator, ["10k", "10k"]) == "10k, 10k";
  }

  /** The dictionary for the second example. */
  lemma EmptyOrderNumbersGroup()
    ensures GroupBy([R1Blank, C1Blank]) == [Bucket("", [R1Blank, C1Blank])]
  {
    assert [R1Blank, C1Blank][..1] == [R1Blank];
    assert GroupBy([R1Blank]) == [Bucket("", [R1Blank])];
    assert Find([Bucket("", [R1Blank])], "") == Some(0);
    assert [R1Blank] + [C1Blank] == [R1Blank, C1Blank];
    assert Insert([Bucket("", [R1Blank])], C1Blank)
      == [Bucket("", [R1Blank])][0 := Bucket("", [R1Blank] + [C1Blank])];
  }

  /** Components without an order number share one row keyed by the empty
      string. */
  lemma EmptyOrderNumbersMerge()
    ensures BomRows([R1Blank, C1Blank])
      == [Row("R1, C1", 2, "10k, 1uF", "R", "0402", "resistor", "")]
  {
    EmptyOrderNumbersGroup();
    assert References([R1Blank, C1Blank]) == ["R1", "C1"];
    assert Values([R1Blank, C1Blank]) == ["10k", "1uF"];
    assert Join(Separator, ["R1", "C1"]) == "R1, C1";
    assert Join(Separator, ["10k", "1uF"]) == "10k, 1uF";
  }
}

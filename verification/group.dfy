/** The order-number group-by: a single pass over the flattened components
    that fills an insertion-ordered dictionary from order number to the list
    of components carrying it. */
module Grouping {
  import opened Components

  /** One entry of the insertion-ordered dictionary: a key and its list. */
  datatype Bucket = Bucket(key: string, items: seq<Component>)

  /** The representation invariant of a dictionary: no key twice. */
  ghost predicate DistinctKeys(d: seq<Bucket>)
  {
    forall i, j :: 0 <= i < j < |d| ==> d[i].key != d[j].key
  }

  /** The order numbers occurring in `cs`. */
  function OrderNumbers(cs: seq<Component>): set<string>
  {
    set i | 0 <= i < |cs| :: cs[i].orderNumber
  }

  /** The keys of a dictionary. */
  function KeySet(d: seq<Bucket>): set<string>
  {
    set i | 0 <= i < |d| :: d[i].key
  }

  /** The position of the first component whose order number is `k`, or |cs|
      when there is none. */
  function FirstIndex(cs: seq<Component>, k: string): (r: nat)
    ensures r <= |cs|
    ensures r < |cs| ==> cs[r].orderNumber == k
    ensures forall i :: 0 <= i < r ==> cs[i].orderNumber != k
  {
    if |cs| == 0 then 0
    else if cs[0].orderNumber == k then 0
    else 1 + FirstIndex(cs[1..], k)
  }

  /** Reference definition of a bucket: the components with order number `k`,
      in input order. */
  function Filter(cs: seq<Component>, k: string): (r: seq<Component>)
    ensures forall x :: x in r <==> x in cs && x.orderNumber == k
  {
    if |cs| == 0 then []
    else
      assert cs == [cs[0]] + cs[1..];
      (if cs[0].orderNumber == k then [cs[0]] else []) + Filter(cs[1..], k)
  }

  /** The dictionary lookup `k in d`, returning where `k` sits. */
  function Find(d: seq<Bucket>, k: string): (r: Option<nat>)
    ensures r.None? <==> k !in KeySet(d)
    ensures r.Some? ==> r.value < |d| && d[r.value].key == k
  {
    if |d| == 0 then None
    else if d[0].key == k then Some(0)
    else
      assert KeySet(d) == {d[0].key} + KeySet(d[1..]) by {
        forall x | x in KeySet(d) ensures x in {d[0].key} + KeySet(d[1..]) {
          var i :| 0 <= i < |d| && d[i].key == x;
          if i > 0 {
            assert d[1..][i - 1].key == x;
          }
        }
      }
      match Find(d[1..], k)
      case None => None
      case Some(i) => Some(i + 1)
  }

  /** One iteration of the grouping loop: append `c` to the list of its order
      number if that key is present, otherwise add a new key with the list
      [c] at the end. */
  function Insert(d: seq<Bucket>, c: Component): (r: seq<Bucket>)
    requires DistinctKeys(d)
    ensures DistinctKeys(r)
    ensures KeySet(r) == KeySet(d) + {c.orderNumber}
    ensures |r| == if c.orderNumber in KeySet(d) then |d| else |d| + 1
    ensures forall i :: 0 <= i < |d| ==> r[i].key == d[i].key
    ensures forall i :: 0 <= i < |r| ==>
      r[i].items == (if i < |d| then d[i].items else [])
                    + (if r[i].key == c.orderNumber then [c] else [])
  {
    match Find(d, c.orderNumber)
    case Some(i) =>
      var r := d[i := Bucket(d[i].key, d[i].items + [c])];
      assert KeySet(r) == KeySet(d) by {
        forall x | x in KeySet(d) ensures x in KeySet(r) {
          var j :| 0 <= j < |d| && d[j].key == x;
          assert r[j].key == x;
        }
      }
      r
    case None =>
      var r := d + [Bucket(c.orderNumber, [c])];
      assert KeySet(r) == KeySet(d) + {c.orderNumber} by {
        forall x | x in KeySet(d) ensures x in KeySet(r) {
          var j :| 0 <= j < |d| && d[j].key == x;
          assert r[j].key == x;
        }
        assert r[|d|].key == c.orderNumber;
      }
      r
  }

  /** The dictionary `componentsByOrderNumber` after the loop has consumed
      `cs`: a left fold of Insert. Every list is non-empty. */
  function GroupBy(cs: seq<Component>): (r: seq<Bucket>)
    ensures DistinctKeys(r)
    ensures forall i :: 0 <= i < |r| ==> |r[i].items| > 0
  {
    if |cs| == 0 then [] else Insert(GroupBy(cs[..|cs| - 1]), cs[|cs| - 1])
  }

  /** What it means for `d` to be the order-number grouping of `cs`: distinct
      keys, exactly the order numbers of `cs`, each list the components with
      that key in input order, and keys in order of first occurrence. One
      bucket per distinct order number follows from the first two
      (`KeyCount`). */
  ghost predicate Grouped(cs: seq<Component>, d: seq<Bucket>)
  {
    && DistinctKeys(d)
    && KeySet(d) == OrderNumbers(cs)
    && (forall i :: 0 <= i < |d| ==> d[i].items == Filter(cs, d[i].key))
    && FirstOccurrenceOrder(cs, d)
  }

  /** Keys of `d` come in order of their first occurrence in `cs`. */
  ghost predicate FirstOccurrenceOrder(cs: seq<Component>, d: seq<Bucket>)
  {
    forall i, j :: 0 <= i < j < |d| ==> FirstIndex(cs, d[i].key) < FirstIndex(cs, d[j].key)
  }

  /** Concatenation of all lists of a dictionary, in key order. */
  function Concat(d: seq<Bucket>): seq<Component>
  {
    if |d| == 0 then [] else d[0].items + Concat(d[1..])
  }

  /** Appending a component adds its order number to the set. */
  lemma OrderNumbersSnoc(cs: seq<Component>, c: Component)
    ensures OrderNumbers(cs + [c]) == OrderNumbers(cs) + {c.orderNumber}
  {
    var cs' := cs + [c];
    forall x | x in OrderNumbers(cs) ensures x in OrderNumbers(cs') {
      var i :| 0 <= i < |cs| && cs[i].orderNumber == x;
      assert cs'[i].orderNumber == x;
    }
    assert cs'[|cs|].orderNumber == c.orderNumber;
  }

  /** FirstIndex finds a key exactly when the key occurs. */
  lemma FirstIndexPresent(cs: seq<Component>, k: string)
    ensures FirstIndex(cs, k) < |cs| <==> k in OrderNumbers(cs)
  {
  }

  /** Appending a component leaves the first occurrence of every key already
      present where it was, and puts a new key at the end. */
  lemma FirstIndexSnoc(cs: seq<Component>, c: Component, k: string)
    ensures FirstIndex(cs + [c], k) ==
      if FirstIndex(cs, k) < |cs| then FirstIndex(cs, k)
      else if c.orderNumber == k then |cs| else |cs| + 1
  {
    var cs' := cs + [c];
    assert forall i :: 0 <= i < |cs| ==> cs'[i] == cs[i];
    assert cs'[|cs|] == c;
  }

  /** Dropping the first component can only lose order numbers. */
  lemma OrderNumbersTail(cs: seq<Component>)
    requires |cs| > 0
    ensures OrderNumbers(cs) == {cs[0].orderNumber} + OrderNumbers(cs[1..])
  {
  }

  /** The reference list for a key that does not occur is empty. */
  lemma {:induction false} FilterAbsent(cs: seq<Component>, k: string)
    requires k !in OrderNumbers(cs)
    ensures Filter(cs, k) == []
  {
    if |cs| > 0 {
      OrderNumbersTail(cs);
      FilterAbsent(cs[1..], k);
    }
  }

  /** Filtering is stable: it commutes with concatenation, so the relative
      order of the components of one key is that of the input. */
  lemma {:induction false} FilterConcat(a: seq<Component>, b: seq<Component>, k: string)
    ensures Filter(a + b, k) == Filter(a, k) + Filter(b, k)
  {
    if |a| == 0 {
      assert a + b == b;
    } else {
      assert (a + b)[0] == a[0];
      assert (a + b)[1..] == a[1..] + b;
      FilterConcat(a[1..], b, k);
      var t := if a[0].orderNumber == k then [a[0]] else [];
      assert Filter(a + b, k) == t + (Filter(a[1..], k) + Filter(b, k));
      assert t + (Filter(a[1..], k) + Filter(b, k)) == (t + Filter(a[1..], k)) + Filter(b, k);
    }
  }

  /** Appending a component appends it to its own key's reference list and
      leaves the other lists alone. */
  lemma FilterSnoc(cs: seq<Component>, c: Component, k: string)
    ensures Filter(cs + [c], k) == Filter(cs, k) + (if c.orderNumber == k then [c] else [])
  {
    FilterConcat(cs, [c], k);
    assert [c][1..] == [];
  }

  /** The first member of a key's list is the first component of the input
      carrying that key. */
  lemma {:induction false} FilterHead(cs: seq<Component>, k: string)
    requires k in OrderNumbers(cs)
    ensures |Filter(cs, k)| > 0
    ensures Filter(cs, k)[0] == cs[FirstIndex(cs, k)]
  {
    OrderNumbersTail(cs);
    if cs[0].orderNumber != k {
      FilterHead(cs[1..], k);
    }
  }

  /** After one loop iteration every list is still the reference list of
      its key. */
  lemma InsertKeepsFilters(cs: seq<Component>, d: seq<Bucket>, c: Component)
    requires Grouped(cs, d)
    ensures forall i :: 0 <= i < |Insert(d, c)| ==>
              Insert(d, c)[i].items == Filter(cs + [c], Insert(d, c)[i].key)
  {
    var r := Insert(d, c);
    forall i | 0 <= i < |r| ensures r[i].items == Filter(cs + [c], r[i].key) {
      FilterSnoc(cs, c, r[i].key);
      if i == |d| {
        FilterAbsent(cs, c.orderNumber);
      }
    }
  }

  /** After one loop iteration the keys are still in order of first
      occurrence. */
  lemma InsertKeepsOrder(cs: seq<Component>, d: seq<Bucket>, c: Component)
    requires DistinctKeys(d) && KeySet(d) == OrderNumbers(cs)
    requires FirstOccurrenceOrder(cs, d)
    ensures FirstOccurrenceOrder(cs + [c], Insert(d, c))
  {
    var cs' := cs + [c];
    var k := c.orderNumber;
    var r := Insert(d, c);
    forall i | 0 <= i < |d| ensures FirstIndex(cs', r[i].key) == FirstIndex(cs, d[i].key) < |cs| {
      assert d[i].key in KeySet(d);
      FirstIndexPresent(cs, d[i].key);
      FirstIndexSnoc(cs, c, d[i].key);
    }
    if k !in KeySet(d) {
      FirstIndexPresent(cs, k);
      FirstIndexSnoc(cs, c, k);
    }
    forall i, j | 0 <= i < j < |r| ensures FirstIndex(cs', r[i].key) < FirstIndex(cs', r[j].key) {
      assert FirstIndex(cs', r[i].key) == FirstIndex(cs, d[i].key) < |cs|;
      if j < |d| {
        assert FirstIndex(cs', r[j].key) == FirstIndex(cs, d[j].key);
        assert FirstIndex(cs, d[i].key) < FirstIndex(cs, d[j].key);
      } else {
        assert r[j].key == k && FirstIndex(cs', k) == |cs|;
      }
    }
  }

  /** A dictionary without repeated keys has one bucket per key. */
  lemma {:induction false} KeyCount(d: seq<Bucket>)
    requires DistinctKeys(d)
    ensures |KeySet(d)| == |d|
  {
    if |d| > 0 {
      assert KeySet(d) == {d[0].key} + KeySet(d[1..]) by {
        forall x | x in KeySet(d) ensures x in {d[0].key} + KeySet(d[1..]) {
          var i :| 0 <= i < |d| && d[i].key == x;
          if i > 0 {
            assert d[1..][i - 1].key == x;
          }
        }
        forall x | x in KeySet(d[1..]) ensures x in KeySet(d) {
          var i :| 0 <= i < |d| - 1 && d[1..][i].key == x;
          assert d[i + 1].key == x;
        }
      }
      assert d[0].key !in KeySet(d[1..]) by {
        forall i | 0 <= i < |d| - 1 ensures d[1..][i].key != d[0].key {
          assert d[1..][i] == d[i + 1];
        }
      }
      KeyCount(d[1..]);
    }
  }

  /** One loop iteration keeps the keys equal to the order numbers seen so
      far, one bucket each. */
  lemma InsertKeepsCount(cs: seq<Component>, d: seq<Bucket>, c: Component)
    requires DistinctKeys(d) && KeySet(d) == OrderNumbers(cs)
    ensures KeySet(Insert(d, c)) == OrderNumbers(cs + [c])
    ensures |Insert(d, c)| == |OrderNumbers(cs + [c])|
  {
    OrderNumbersSnoc(cs, c);
    KeyCount(Insert(d, c));
  }

  /** One loop iteration keeps the grouping invariant. */
  lemma InsertKeepsGrouped(cs: seq<Component>, d: seq<Bucket>, c: Component)
    requires Grouped(cs, d)
    ensures Grouped(cs + [c], Insert(d, c))
  {
    InsertKeepsCount(cs, d, c);
    InsertKeepsFilters(cs, d, c);
    InsertKeepsOrder(cs, d, c);
  }

  /** The fold establishes the grouping invariant. */
  lemma {:induction false} GroupByGrouped(cs: seq<Component>)
    ensures Grouped(cs, GroupBy(cs))
  {
    if |cs| > 0 {
      var n := |cs| - 1;
      var p := cs[..n];
      assert p + [cs[n]] == cs;
      assert Insert(GroupBy(p), cs[n]) == GroupBy(cs);
      GroupByGrouped(p);
      InsertKeepsGrouped(p, GroupBy(p), cs[n]);
    }
  }

  /** Each list of the result is the reference list of a key of the input. */
  lemma GroupByBucket(cs: seq<Component>, i: nat)
    requires i < |GroupBy(cs)|
    ensures GroupBy(cs)[i].key in OrderNumbers(cs)
    ensures GroupBy(cs)[i].items == Filter(cs, GroupBy(cs)[i].key)
  {
    GroupByGrouped(cs);
    assert GroupBy(cs)[i].key in KeySet(GroupBy(cs));
  }

  /** The result's keys are exactly the input's order numbers, one bucket
      each, in order of first occurrence. */
  lemma GroupByKeys(cs: seq<Component>)
    ensures KeySet(GroupBy(cs)) == OrderNumbers(cs)
    ensures |GroupBy(cs)| == |OrderNumbers(cs)|
    ensures FirstOccurrenceOrder(cs, GroupBy(cs))
  {
    GroupByGrouped(cs);
    KeyCount(GroupBy(cs));
  }

  /** FirstIndex tells keys apart. */
  lemma FirstIndexInjective(cs: seq<Component>, a: string, b: string)
    requires a in OrderNumbers(cs) && b in OrderNumbers(cs)
    requires FirstIndex(cs, a) == FirstIndex(cs, b)
    ensures a == b
  {
  }

  /** Under two dictionaries whose keys agree below `n`, where the second
      keeps its keys in order of first occurrence and holds every key of the
      first, the key at `n` of the first occurs no earlier than the key at
      `n` of the second. */
  lemma KeyNotEarlier(cs: seq<Component>, d1: seq<Bucket>, d2: seq<Bucket>, n: nat)
    requires DistinctKeys(d1) && FirstOccurrenceOrder(cs, d2)
    requires n < |d1| && n < |d2|
    requires d1[n].key in KeySet(d2)
    requires forall i :: 0 <= i < n ==> d1[i].key == d2[i].key
    ensures FirstIndex(cs, d1[n].key) >= FirstIndex(cs, d2[n].key)
  {
  }

  /** Two dictionaries with the same keys, each without repeats and in
      order of first occurrence, list their keys identically. */
  lemma KeysUnique(cs: seq<Component>, d1: seq<Bucket>, d2: seq<Bucket>)
    requires DistinctKeys(d1) && DistinctKeys(d2)
    requires FirstOccurrenceOrder(cs, d1) && FirstOccurrenceOrder(cs, d2)
    requires KeySet(d1) == KeySet(d2) <= OrderNumbers(cs)
    requires |d1| == |d2|
    ensures forall i :: 0 <= i < |d1| ==> d1[i].key == d2[i].key
  {
    var n := 0;
    while n < |d1|
      invariant n <= |d1|
      invariant forall i :: 0 <= i < n ==> d1[i].key == d2[i].key
    {
      assert d1[n].key in KeySet(d1) && d2[n].key in KeySet(d2);
      KeyNotEarlier(cs, d1, d2, n);
      KeyNotEarlier(cs, d2, d1, n);
      FirstIndexInjective(cs, d1[n].key, d2[n].key);
      n := n + 1;
    }
  }

  /** The grouping of an input is unique: any dictionary meeting the
      invariant is the one the loop builds. */
  lemma GroupedUnique(cs: seq<Component>, d1: seq<Bucket>, d2: seq<Bucket>)
    requires Grouped(cs, d1) && Grouped(cs, d2)
    ensures d1 == d2
  {
    KeyCount(d1);
    KeyCount(d2);
    KeysUnique(cs, d1, d2);
    assert forall i :: 0 <= i < |d1| ==> d1[i] == d2[i];
  }

  /** GroupBy is characterised by the grouping invariant. */
  lemma GroupByCharacterised(cs: seq<Component>, d: seq<Bucket>)
    ensures Grouped(cs, d) <==> d == GroupBy(cs)
  {
    GroupByGrouped(cs);
    if Grouped(cs, d) {
      GroupedUnique(cs, d, GroupBy(cs));
    }
  }

  /** Replacing one list changes the concatenation's multiset by exactly
      that list. */
  lemma {:induction false} ConcatUpdate(d: seq<Bucket>, i: nat, b: Bucket)
    requires i < |d|
    ensures multiset(Concat(d[i := b])) + multiset(d[i].items) == multiset(Concat(d)) + multiset(b.items)
  {
    var d' := d[i := b];
    if i == 0 {
      assert d'[1..] == d[1..];
    } else {
      assert d'[1..] == d[1..][i - 1 := b];
      assert d[1..][i - 1] == d[i];
      ConcatUpdate(d[1..], i - 1, b);
      var p, p' := Concat(d[1..]), Concat(d[1..][i - 1 := b]);
      assert Concat(d') == d[0].items + p';
      var L := multiset(Concat(d')) + multiset(d[i].items);
      var R := multiset(Concat(d)) + multiset(b.items);
      var A := multiset(p') + multiset(d[i].items);
      var B := multiset(p) + multiset(b.items);
      assert A == B;
      forall x ensures L[x] == R[x] {
        assert A[x] == B[x];
      }
      assert L == R;
    }
  }

  /** A bucket added at the end contributes its list at the end. */
  lemma {:induction false} ConcatSnoc(d: seq<Bucket>, b: Bucket)
    ensures Concat(d + [b]) == Concat(d) + b.items
  {
    if |d| > 0 {
      assert (d + [b])[1..] == d[1..] + [b];
      ConcatSnoc(d[1..], b);
    }
  }

  /** Appending `c` to the list at `i` adds one copy of `c` to the
      concatenation. */
  lemma AppendConcat(d: seq<Bucket>, i: nat, c: Component)
    requires i < |d|
    ensures multiset(Concat(d[i := Bucket(d[i].key, d[i].items + [c])])) == multiset(Concat(d)) + multiset{c}
  {
    var b := Bucket(d[i].key, d[i].items + [c]);
    var r := d[i := b];
    ConcatUpdate(d, i, b);
    var A := multiset(Concat(r)) + multiset(d[i].items);
    var B := multiset(Concat(d)) + multiset(b.items);
    assert A == B;
    assert multiset(b.items) == multiset(d[i].items) + multiset{c};
    forall x ensures multiset(Concat(r))[x] == (multiset(Concat(d)) + multiset{c})[x] {
      assert A[x] == B[x];
    }
  }

  /** One loop iteration adds exactly one copy of `c` to the concatenation. */
  lemma InsertConcat(d: seq<Bucket>, c: Component)
    requires DistinctKeys(d)
    ensures multiset(Concat(Insert(d, c))) == multiset(Concat(d)) + multiset{c}
  {
    match Find(d, c.orderNumber)
    case Some(i) =>
      assert Insert(d, c) == d[i := Bucket(d[i].key, d[i].items + [c])];
      AppendConcat(d, i, c);
    case None =>
      var r := d + [Bucket(c.orderNumber, [c])];
      assert Insert(d, c) == r;
      ConcatSnoc(d, Bucket(c.orderNumber, [c]));
  }

  /** The lists partition the input: concatenated, they are a permutation of
      it, with no component lost or duplicated. */
  lemma {:induction false} GroupByPartition(cs: seq<Component>)
    ensures multiset(Concat(GroupBy(cs))) == multiset(cs)
    ensures |Concat(GroupBy(cs))| == |cs|
  {
    if |cs| > 0 {
      var n := |cs| - 1;
      var p := cs[..n];
      assert p + [cs[n]] == cs;
      assert Insert(GroupBy(p), cs[n]) == GroupBy(cs);
      assert multiset(cs) == multiset(p) + multiset{cs[n]};
      GroupByPartition(p);
      InsertConcat(GroupBy(p), cs[n]);
    }
    assert |multiset(Concat(GroupBy(cs)))| == |Concat(GroupBy(cs))|;
  }

  /** Every component lands in the list of its own order number and in no
      other list. */
  lemma GroupByPlacement(cs: seq<Component>, p: nat)
    requires p < |cs|
    ensures Find(GroupBy(cs), cs[p].orderNumber).Some?
    ensures var i := Find(GroupBy(cs), cs[p].orderNumber).value;
            cs[p] in GroupBy(cs)[i].items
    ensures forall j :: 0 <= j < |GroupBy(cs)| && GroupBy(cs)[j].key != cs[p].orderNumber ==>
              cs[p] !in GroupBy(cs)[j].items
  {
    var d := GroupBy(cs);
    var k := cs[p].orderNumber;
    GroupByKeys(cs);
    assert k in KeySet(d);
    var i := Find(d, k).value;
    GroupByBucket(cs, i);
    assert cs[p] in d[i].items;
    forall j | 0 <= j < |d| && d[j].key != k ensures cs[p] !in d[j].items {
      GroupByBucket(cs, j);
    }
  }

  /** The grouping loop, appending to an existing list or opening a new one. */
  method GroupByOrderNumber(components: seq<Component>) returns (buckets: seq<Bucket>)
    ensures buckets == GroupBy(components)
  {
    buckets := [];
    for n := 0 to |components|
      invariant buckets == GroupBy(components[..n])
    {
      var c := components[n];
      ghost var previous := buckets;
      match Find(buckets, c.orderNumber) {
        case Some(i) =>
          buckets := buckets[i := Bucket(buckets[i].key, buckets[i].items + [c])];
        case None =>
          buckets := buckets + [Bucket(c.orderNumber, [c])];
      }
      assert buckets == Insert(previous, c);
      assert components[..n + 1][..n] == components[..n];
      assert components[..n + 1][n] == c;
      assert GroupBy(components[..n + 1]) == Insert(GroupBy(components[..n]), c);
    }
    assert components[..|components|] == components;
  }
}

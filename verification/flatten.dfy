/** Flattening the netlist's component groups into one ordered list. */
module Flattening {
  import opened Components

  /** The components of all groups: group after group, each group in its own
      order. Left-recursive, so that it unfolds the way the loop runs. */
  function Flatten(groups: seq<seq<Component>>): seq<Component>
  {
    if |groups| == 0 then [] else Flatten(groups[..|groups| - 1]) + groups[|groups| - 1]
  }

  /** The sum of the group sizes. */
  function TotalSize(groups: seq<seq<Component>>): nat
  {
    if |groups| == 0 then 0 else TotalSize(groups[..|groups| - 1]) + |groups[|groups| - 1]|
  }

  /** Where group `i` starts in the flattened list. */
  function Offset(groups: seq<seq<Component>>, i: nat): nat
    requires i <= |groups|
  {
    TotalSize(groups[..i])
  }

  /** Flattening neither drops nor adds components. */
  lemma {:induction false} FlattenLength(groups: seq<seq<Component>>)
    ensures |Flatten(groups)| == TotalSize(groups)
  {
    if |groups| > 0 {
      FlattenLength(groups[..|groups| - 1]);
    }
  }

  /** Flattening distributes over concatenation of group lists. */
  lemma {:induction false} FlattenConcat(a: seq<seq<Component>>, b: seq<seq<Component>>)
    ensures Flatten(a + b) == Flatten(a) + Flatten(b)
  {
    if |b| == 0 {
      assert a + b == a;
    } else {
      var b' := b[..|b| - 1];
      assert (a + b)[..|a + b| - 1] == a + b';
      FlattenConcat(a, b');
    }
  }

  /** The start of each group lies at or after the end of every earlier group. */
  lemma {:induction false} OffsetMonotone(groups: seq<seq<Component>>, i: nat, i': nat)
    requires i < i' <= |groups|
    ensures Offset(groups, i) + |groups[i]| <= Offset(groups, i')
    decreases i' - i
  {
    assert groups[..i + 1][..i] == groups[..i];
    if i + 1 < i' {
      OffsetMonotone(groups, i + 1, i');
    }
  }

  /** Component `j` of group `i` sits at position Offset(i) + j of the
      flattened list. */
  lemma FlattenPosition(groups: seq<seq<Component>>, i: nat, j: nat)
    requires i < |groups| && j < |groups[i]|
    ensures Offset(groups, i) + j < |Flatten(groups)|
    ensures Flatten(groups)[Offset(groups, i) + j] == groups[i][j]
  {
    assert groups == groups[..i] + [groups[i]] + groups[i + 1..];
    FlattenConcat(groups[..i] + [groups[i]], groups[i + 1..]);
    FlattenConcat(groups[..i], [groups[i]]);
    FlattenLength(groups[..i]);
    assert [groups[i]][..0] == [];
  }

  /** Outer group order first, then inner order: a component that comes
      earlier in (group, position) order comes earlier in the flattened list. */
  lemma FlattenOrder(groups: seq<seq<Component>>, i: nat, j: nat, i': nat, j': nat)
    requires i < |groups| && j < |groups[i]|
    requires i' < |groups| && j' < |groups[i']|
    requires i < i' || (i == i' && j < j')
    ensures Offset(groups, i) + j < Offset(groups, i') + j'
  {
    if i < i' {
      OffsetMonotone(groups, i, i');
    }
  }

  /** A component is in the flattened list exactly when it is in some group. */
  lemma {:induction false} FlattenMembership(groups: seq<seq<Component>>, c: Component)
    ensures c in Flatten(groups) <==> exists i :: 0 <= i < |groups| && c in groups[i]
  {
    if |groups| > 0 {
      var n := |groups| - 1;
      FlattenMembership(groups[..n], c);
      if c in Flatten(groups[..n]) {
        var i :| 0 <= i < n && c in groups[..n][i];
        assert c in groups[i];
      }
      if exists i :: 0 <= i < |groups| && c in groups[i] {
        var i :| 0 <= i < |groups| && c in groups[i];
        if i < n {
          assert c in groups[..n][i];
        }
      }
    }
  }

  /** The nested loop over groups and their components, appending each
      converted component to the result list. */
  method FlattenGroups(groups: seq<seq<Component>>) returns (components: seq<Component>)
    ensures components == Flatten(groups)
    ensures |components| == TotalSize(groups)
  {
    components := [];
    for i := 0 to |groups|
      invariant components == Flatten(groups[..i])
    {
      for j := 0 to |groups[i]|
        invariant components == Flatten(groups[..i]) + groups[i][..j]
      {
        components := components + [groups[i][j]];
      }
      assert groups[..i + 1][..i] == groups[..i];
    }
    assert groups[..|groups|] == groups;
    FlattenLength(groups);
  }
}

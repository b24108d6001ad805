/** Joining strings with a separator, the way Python's `str.join` does, and
    its partner `str.split` for a non-empty separator. */
module Text {

  /** `sep.join(parts)`: the parts with `sep` between neighbours; the empty
      string for no parts. */
  function Join(sep: string, parts: seq<string>): string
  {
    if |parts| == 0 then ""
    else if |parts| == 1 then parts[0]
    else parts[0] + sep + Join(sep, parts[1..])
  }

  /** `sep` occurs in `s` starting at position `j`. */
  predicate SeparatorAt(s: string, sep: string, j: nat)
  {
    j + |sep| <= |s| && s[j..j + |sep|] == sep
  }

  /** Where the first occurrence of `sep` at or after `from` starts, or |s|
      if there is none. */
  function FindSeparator(s: string, sep: string, from: nat): (i: nat)
    requires |sep| > 0 && from <= |s|
    ensures from <= i <= |s|
    ensures i < |s| ==> SeparatorAt(s, sep, i)
    ensures forall j :: from <= j < i ==> !SeparatorAt(s, sep, j)
    decreases |s| - from
  {
    if from == |s| then |s|
    else if SeparatorAt(s, sep, from) then from
    else FindSeparator(s, sep, from + 1)
  }

  /** `s.split(sep)`: the pieces between occurrences of `sep`, scanning left
      to right. Never empty: a string without `sep` is one piece. */
  function Split(s: string, sep: string): (parts: seq<string>)
    requires |sep| > 0
    ensures |parts| > 0
    decreases |s|
  {
    var i := FindSeparator(s, sep, 0);
    if i == |s| then [s] else [s[..i]] + Split(s[i + |sep|..], sep)
  }

  /** `sep` cannot overlap itself: its first character does not recur in
      it, so two occurrences never share a position. */
  predicate SelfDisjoint(sep: string)
  {
    |sep| > 0 && sep[0] !in sep[1..]
  }

  /** A part holding no separator, followed by a separator that cannot
      overlap itself: the first separator found is the one Join put there. */
  lemma SeparatorAfter(p: string, sep: string, rest: string)
    requires SelfDisjoint(sep)
    requires forall j :: !SeparatorAt(p, sep, j)
    ensures FindSeparator(p, sep, 0) == |p|
    ensures FindSeparator(p + sep + rest, sep, 0) == |p|
  {
    var s := p + sep + rest;
    forall j | 0 <= j < |p| ensures !SeparatorAt(s, sep, j) {
      if j + |sep| <= |p| {
        assert s[j..j + |sep|] == p[j..j + |sep|];
        assert !SeparatorAt(p, sep, j);
      } else if j + |sep| <= |s| {
        var t := |p| - j;
        assert 0 < t < |sep|;
        assert s[j..j + |sep|][t] == s[|p|] == sep[0];
        assert sep[1..][t - 1] == sep[t];
      }
    }
    assert s[|p|..|p| + |sep|] == sep;
    assert SeparatorAt(s, sep, |p|);
  }

  /** Splitting undoes joining when no part contains the separator and the
      separator cannot overlap itself. */
  lemma {:induction false} SplitJoin(sep: string, parts: seq<string>)
    requires SelfDisjoint(sep) && |parts| > 0
    requires forall i, j :: 0 <= i < |parts| ==> !SeparatorAt(parts[i], sep, j)
    ensures Split(Join(sep, parts), sep) == parts
  {
    if |parts| == 1 {
      SeparatorAfter(parts[0], sep, "");
    } else {
      var p, rest := parts[0], Join(sep, parts[1..]);
      var s := p + sep + rest;
      SeparatorAfter(p, sep, rest);
      assert s[..|p|] == p;
      assert s[|p| + |sep|..] == rest;
      forall i, j | 0 <= i < |parts| - 1 ensures !SeparatorAt(parts[1..][i], sep, j) {
        assert parts[1..][i] == parts[i + 1];
      }
      SplitJoin(sep, parts[1..]);
      assert parts == [p] + parts[1..];
    }
  }

  /** A part that contains the separator is cut at it, so the join does not
      split back into the parts. */
  lemma {:induction false} SplitJoinCuts(sep: string, parts: seq<string>, i: nat, j: nat)
    requires SelfDisjoint(sep) && i < |parts|
    requires SeparatorAt(parts[i], sep, j)
    ensures Split(Join(sep, parts), sep) != parts
  {
    var s := Join(sep, parts);
    var p := parts[0];
    var rest := if |parts| == 1 then "" else sep + Join(sep, parts[1..]);
    assert s == p + rest;
    if k: nat :| SeparatorAt(p, sep, k) {
      assert s[k..k + |sep|] == p[k..k + |sep|];
      assert SeparatorAt(s, sep, k);
      var f := FindSeparator(s, sep, 0);
      assert f <= k < |p|;
      assert Split(s, sep)[0] == s[..f];
    } else {
      assert i > 0;
      SeparatorAfter(p, sep, Join(sep, parts[1..]));
      var f := FindSeparator(s, sep, 0);
      assert s[..f] == p;
      assert s[f + |sep|..] == Join(sep, parts[1..]);
      assert Split(s, sep) == [p] + Split(Join(sep, parts[1..]), sep);
      assert parts[1..][i - 1] == parts[i];
      SplitJoinCuts(sep, parts[1..], i - 1, j);
      assert Split(s, sep)[1..] != parts[1..];
    }
  }

  /** With a separator that cannot overlap itself, a join splits back into
      its parts exactly when no part contains the separator. */
  lemma SplitJoinExact(sep: string, parts: seq<string>)
    requires SelfDisjoint(sep) && |parts| > 0
    ensures Split(Join(sep, parts), sep) == parts <==>
            forall i, j :: 0 <= i < |parts| ==> !SeparatorAt(parts[i], sep, j)
  {
    if forall i, j :: 0 <= i < |parts| ==> !SeparatorAt(parts[i], sep, j) {
      SplitJoin(sep, parts);
    } else {
      var i, j :| 0 <= i < |parts| && SeparatorAt(parts[i], sep, j);
      SplitJoinCuts(sep, parts, i, j);
    }
  }
}

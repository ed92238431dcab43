/** Orders on real numbers: bounds, ascending lists, and the numeric sort. */
module Numbers {

  function Min(a: real, b: real): real {
    if a < b then a else b
  }

  function Max(a: real, b: real): real {
    if a > b then a else b
  }

  function Clamp(value: real, minimum: real, maximum: real): real {
    Max(minimum, Min(maximum, value))
  }

  predicate Ascending(values: seq<real>) {
    forall i, j :: 0 <= i < j < |values| ==> values[i] <= values[j]
  }

  /** Puts a value before the first that is not smaller. */
  function InsertValue(v: real, sorted: seq<real>): (r: seq<real>)
    ensures |r| == |sorted| + 1
  {
    if sorted == [] || v <= sorted[0] then [v] + sorted else [sorted[0]] + InsertValue(v, sorted[1..])
  }

  /** The numeric sort. */
  function SortValues(values: seq<real>): (r: seq<real>)
    ensures |r| == |values|
  {
    if values == [] then [] else InsertValue(values[0], SortValues(values[1..]))
  }

  lemma AscendingCons(first: real, rest: seq<real>)
    ensures Ascending([first] + rest) <==> Ascending(rest) && forall x :: x in rest ==> first <= x
  {
    var all := [first] + rest;
    assert forall j :: 0 < j < |all| ==> all[j] == rest[j - 1] && all[j] in rest;
    if Ascending(all) {
      assert forall i, j :: 0 <= i < j < |rest| ==> rest[i] == all[i + 1] && rest[j] == all[j + 1];
      forall x | x in rest
        ensures first <= x
      {
        var i :| 0 <= i < |rest| && rest[i] == x;
        assert all[0] == first && all[i + 1] == x;
      }
    }
  }

  lemma {:induction false} InsertValueIs(v: real, sorted: seq<real>)
    requires Ascending(sorted)
    ensures Ascending(InsertValue(v, sorted)) && multiset(InsertValue(v, sorted)) == multiset(sorted) + multiset{v}
    ensures forall x :: x in InsertValue(v, sorted) ==> x == v || x in sorted
  {
    hide Ascending;
    AscendingCons(v, sorted);
    if sorted != [] {
      assert sorted == [sorted[0]] + sorted[1..];
      AscendingCons(sorted[0], sorted[1..]);
      if v > sorted[0] {
        InsertValueIs(v, sorted[1..]);
        AscendingCons(sorted[0], InsertValue(v, sorted[1..]));
      }
    } else {
      assert [v] + sorted == [v];
      OneAscends();
    }
  }

  lemma OneAscends()
    ensures Ascending([])
  {
  }

  lemma {:induction false} SortValuesIs(values: seq<real>)
    ensures Ascending(SortValues(values)) && multiset(SortValues(values)) == multiset(values)
  {
    if values != [] {
      SortValuesIs(values[1..]);
      InsertValueIs(values[0], SortValues(values[1..]));
      assert values == [values[0]] + values[1..];
    }
  }

  lemma SortKeeps(values: seq<real>)
    ensures forall x :: x in SortValues(values) <==> x in values
  {
    SortValuesIs(values);
    assert forall x :: x in SortValues(values) <==> x in multiset(SortValues(values));
  }

  /** Two ascending lists of the same values end in the same one, and have the same values before it. */
  lemma SameLast(a: seq<real>, b: seq<real>)
    requires Ascending(a) && Ascending(b) && |a| == |b| > 0 && multiset(a) == multiset(b)
    ensures a[|a| - 1] == b[|b| - 1]
  {
    var x, y := a[|a| - 1], b[|b| - 1];
    assert x in multiset(b) && y in multiset(a);
    var i, j :| 0 <= i < |b| && b[i] == x && 0 <= j < |a| && a[j] == y;
  }

  lemma SameRest(a: seq<real>, b: seq<real>)
    requires |a| == |b| > 0 && multiset(a) == multiset(b) && a[|a| - 1] == b[|b| - 1]
    ensures multiset(a[..|a| - 1]) == multiset(b[..|b| - 1])
  {
    var n, x := |a| - 1, a[|a| - 1];
    assert a == a[..n] + [x] && b == b[..n] + [x];
    assert multiset(a[..n]) == multiset(a) - multiset{x};
    assert multiset(b[..n]) == multiset(b) - multiset{x};
  }

  /** Values have one ascending order. */
  lemma {:induction false} AscendOnce(a: seq<real>, b: seq<real>)
    requires Ascending(a) && Ascending(b) && |a| == |b| && multiset(a) == multiset(b)
    ensures a == b
  {
    if a != [] {
      SameLast(a, b);
      SameRest(a, b);
      AscendOnce(a[..|a| - 1], b[..|b| - 1]);
      assert a == a[..|a| - 1] + [a[|a| - 1]];
      assert b == b[..|b| - 1] + [b[|b| - 1]];
    }
  }
}

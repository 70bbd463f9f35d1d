/** Counting repeated values, the way both uniqueness checks group values in
    a map from value to count and then report every value seen more than
    once. Go's map iteration order is unspecified; this model reports the
    repeated values in order of first occurrence, and its contracts speak
    only of which values are reported and with which counts. */
module Tally {

  /** Number of positions of `xs` holding `x`. */
  function Occurrences(xs: seq<string>, x: string): nat {
    if |xs| == 0 then 0 else Occurrences(xs[..|xs| - 1], x) + (if xs[|xs| - 1] == x then 1 else 0)
  }

  predicate Distinct(xs: seq<string>) {
    forall i, j :: 0 <= i < j < |xs| ==> xs[i] != xs[j]
  }

  /** `x` occurs in `xs` exactly when it is counted at least once. */
  lemma {:induction false} OccursIffCounted(xs: seq<string>, x: string)
    ensures Occurrences(xs, x) > 0 <==> x in xs
  {
    if |xs| > 0 {
      OccursIffCounted(xs[..|xs| - 1], x);
      assert xs == xs[..|xs| - 1] + [xs[|xs| - 1]];
    }
  }

  /** Two equal entries at different positions make a count of at least two. */
  lemma {:induction false} RepeatCountsTwice(xs: seq<string>, i: nat, j: nat)
    requires i < j < |xs| && xs[i] == xs[j]
    ensures Occurrences(xs, xs[i]) >= 2
  {
    var init := xs[..|xs| - 1];
    if j == |xs| - 1 {
      assert init[i] == xs[i];
      OccursIffCounted(init, xs[i]);
    } else {
      assert init[i] == xs[i] && init[j] == xs[j];
      RepeatCountsTwice(init, i, j);
    }
  }

  /** In a sequence without repeats every value is counted at most once. */
  lemma {:induction false} DistinctCountsOnce(xs: seq<string>, x: string)
    requires Distinct(xs)
    ensures Occurrences(xs, x) <= 1
  {
    if |xs| > 0 {
      var init := xs[..|xs| - 1];
      assert Distinct(init) by {
        forall i, j | 0 <= i < j < |init| ensures init[i] != init[j] {
          assert init[i] == xs[i] && init[j] == xs[j];
        }
      }
      DistinctCountsOnce(init, x);
      if xs[|xs| - 1] == x {
        assert x !in init by {
          forall i | 0 <= i < |init| ensures init[i] != x {
            assert init[i] == xs[i];
          }
        }
        OccursIffCounted(init, x);
      }
    }
  }

  /** The values of `xs[i..]` that are not already in `xs[..i]` and are
      counted more than once in the whole of `xs`, each with its count. */
  function RepeatsFrom(xs: seq<string>, i: nat): (r: seq<(string, nat)>)
    requires i <= |xs|
    ensures forall k :: 0 <= k < |r| ==> r[k].0 in xs[i..] && r[k].0 !in xs[..i]
    ensures forall k :: 0 <= k < |r| ==> r[k].1 == Occurrences(xs, r[k].0) && r[k].1 >= 2
    ensures forall j, k :: 0 <= j < k < |r| ==> r[j].0 != r[k].0
    decreases |xs| - i
  {
    if i == |xs| then []
    else
      var x := xs[i];
      var rest := RepeatsFrom(xs, i + 1);
      assert xs[..i + 1] == xs[..i] + [x];
      assert forall k :: 0 <= k < |rest| ==> rest[k].0 in xs[i..] && rest[k].0 != x;
      if x !in xs[..i] && Occurrences(xs, x) >= 2 then [(x, Occurrences(xs, x))] + rest else rest
  }

  /** RepeatsFrom leaves out no repeated value of its range. */
  lemma {:induction false} RepeatsFromComplete(xs: seq<string>, i: nat, x: string)
    requires i <= |xs|
    requires x in xs[i..] && x !in xs[..i] && Occurrences(xs, x) >= 2
    ensures exists k :: 0 <= k < |RepeatsFrom(xs, i)| && RepeatsFrom(xs, i)[k].0 == x
    decreases |xs| - i
  {
    if xs[i] == x {
      RepeatsFromHead(xs, i);
    } else {
      assert x in xs[i + 1..] by {
        assert xs[i..] == [xs[i]] + xs[i + 1..];
      }
      assert x !in xs[..i + 1] by {
        assert xs[..i + 1] == xs[..i] + [xs[i]];
      }
      RepeatsFromComplete(xs, i + 1, x);
      var k :| 0 <= k < |RepeatsFrom(xs, i + 1)| && RepeatsFrom(xs, i + 1)[k].0 == x;
      RepeatsFromKeeps(xs, i, k);
    }
  }

  /** A value first seen at `i` and repeated heads the report from `i`. */
  lemma RepeatsFromHead(xs: seq<string>, i: nat)
    requires i < |xs| && xs[i] !in xs[..i] && Occurrences(xs, xs[i]) >= 2
    ensures |RepeatsFrom(xs, i)| > 0 && RepeatsFrom(xs, i)[0].0 == xs[i]
  {
  }

  /** What the report from `i + 1` holds, the report from `i` holds too. */
  lemma RepeatsFromKeeps(xs: seq<string>, i: nat, k: nat)
    requires i < |xs| && k < |RepeatsFrom(xs, i + 1)|
    ensures exists k' :: 0 <= k' < |RepeatsFrom(xs, i)| && RepeatsFrom(xs, i)[k'].0 == RepeatsFrom(xs, i + 1)[k].0
  {
    var r, rest := RepeatsFrom(xs, i), RepeatsFrom(xs, i + 1);
    if xs[i] !in xs[..i] && Occurrences(xs, xs[i]) >= 2 {
      assert r == [(xs[i], Occurrences(xs, xs[i]))] + rest;
      assert r[k + 1] == rest[k];
    } else {
      assert r == rest;
      assert r[k] == rest[k];
    }
  }

  /** Every value repeated in `xs`, once, with its count. */
  function Repeats(xs: seq<string>): (r: seq<(string, nat)>)
    ensures forall k :: 0 <= k < |r| ==> r[k].1 == Occurrences(xs, r[k].0) && r[k].1 >= 2
    ensures forall x :: Occurrences(xs, x) >= 2 <==> exists k :: 0 <= k < |r| && r[k].0 == x
    ensures forall j, k :: 0 <= j < k < |r| ==> r[j].0 != r[k].0
  {
    var r := RepeatsFrom(xs, 0);
    assert xs[0..] == xs && xs[..0] == [];
    forall x | Occurrences(xs, x) >= 2 ensures exists k :: 0 <= k < |r| && r[k].0 == x {
      OccursIffCounted(xs, x);
      RepeatsFromComplete(xs, 0, x);
    }
    r
  }

  /** Nothing is reported exactly when no value repeats. */
  lemma NoRepeatsIffDistinct(xs: seq<string>)
    ensures Repeats(xs) == [] <==> Distinct(xs)
  {
    if !Distinct(xs) {
      var i, j :| 0 <= i < j < |xs| && xs[i] == xs[j];
      RepeatCountsTwice(xs, i, j);
    } else if Repeats(xs) != [] {
      DistinctCountsOnce(xs, Repeats(xs)[0].0);
    }
  }
}

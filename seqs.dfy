/** Order-preserving operations on lists of identifiers (game, player and season IDs are strings). */
module Seqs {

  /** `[x for x in xs if x not in s]`: the elements of `xs` absent from `s`, in their order. */
  function Without(xs: seq<string>, s: set<string>): (r: seq<string>)
    ensures |r| <= |xs|
    ensures forall x :: x in r <==> x in xs && x !in s
    decreases |xs|
  {
    if xs == [] then []
    else Without(xs[..|xs| - 1], s) + (if xs[|xs| - 1] in s then [] else [xs[|xs| - 1]])
  }

  /** The filter distributes over concatenation, so it keeps the relative order of what it keeps. */
  lemma {:induction false} WithoutConcat(a: seq<string>, b: seq<string>, s: set<string>)
    ensures Without(a + b, s) == Without(a, s) + Without(b, s)
    decreases |b|
  {
    if b == [] {
      assert a + b == a;
    } else {
      var b' := b[..|b| - 1];
      assert (a + b)[..|a + b| - 1] == a + b';
      assert (a + b)[|a + b| - 1] == b[|b| - 1];
      WithoutConcat(a, b', s);
    }
  }

  /** Nothing is dropped when no element is in `s`, everything when every element is. */
  lemma {:induction false} WithoutExtremes(xs: seq<string>, s: set<string>)
    ensures (forall i :: 0 <= i < |xs| ==> xs[i] !in s) ==> Without(xs, s) == xs
    ensures Without(xs, s) == [] <==> forall i :: 0 <= i < |xs| ==> xs[i] in s
    decreases |xs|
  {
    if xs != [] {
      var xs' := xs[..|xs| - 1];
      WithoutExtremes(xs', s);
      assert xs' + [xs[|xs| - 1]] == xs;
      assert forall i :: 0 <= i < |xs'| ==> xs'[i] == xs[i];
    }
  }

  predicate NoDuplicates(xs: seq<string>) {
    forall i, j :: 0 <= i < j < |xs| ==> xs[i] != xs[j]
  }

  /** pandas `unique()`: the distinct elements of `xs` in order of first appearance. */
  function Unique(xs: seq<string>): (r: seq<string>)
    ensures |r| <= |xs|
    decreases |xs|
  {
    if xs == [] then []
    else
      var u := Unique(xs[..|xs| - 1]);
      if xs[|xs| - 1] in u then u else u + [xs[|xs| - 1]]
  }

  /** `unique()` keeps every element and adds none. */
  lemma {:induction false} UniqueMembers(xs: seq<string>)
    ensures forall x :: x in Unique(xs) <==> x in xs
    decreases |xs|
  {
    if xs != [] {
      var front := xs[..|xs| - 1];
      UniqueMembers(front);
      assert xs == front + [xs[|xs| - 1]];
    }
  }

  /** `unique()` never repeats an element. */
  lemma {:induction false} UniqueNoDuplicates(xs: seq<string>)
    ensures NoDuplicates(Unique(xs))
    decreases |xs|
  {
    if xs != [] {
      UniqueNoDuplicates(xs[..|xs| - 1]);
      var u := Unique(xs[..|xs| - 1]);
      var last := xs[|xs| - 1];
      if last !in u {
        var r := u + [last];
        forall i, j | 0 <= i < j < |r| ensures r[i] != r[j] {
          if j == |u| {
            assert r[i] == u[i];
          } else {
            assert r[i] == u[i] && r[j] == u[j];
          }
        }
      }
    }
  }

  /** Keeping only first occurrences leaves a list without repeats as it is. */
  lemma {:induction false} UniqueOfDistinct(xs: seq<string>)
    requires NoDuplicates(xs)
    ensures Unique(xs) == xs
    decreases |xs|
  {
    if xs != [] {
      var front := xs[..|xs| - 1];
      assert NoDuplicates(front) by {
        forall i, j | 0 <= i < j < |front| ensures front[i] != front[j] {
          assert front[i] == xs[i] && front[j] == xs[j];
        }
      }
      UniqueOfDistinct(front);
      assert xs[|xs| - 1] !in front by {
        forall i | 0 <= i < |front| ensures front[i] != xs[|xs| - 1] {
          assert front[i] == xs[i];
        }
      }
      assert front + [xs[|xs| - 1]] == xs;
    }
  }
}

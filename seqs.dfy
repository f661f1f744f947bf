/** Generic sequence vocabulary shared by the dashboard, the table and the form:
    an optional value, first-seen de-duplication (the iteration order of a
    JavaScript `Set` built from a list), subsequences and first occurrences. */
module Seqs {

  datatype Option<T> = None | Some(value: T)

  /** No element occurs twice. */
  predicate NoDuplicates<T(==)>(xs: seq<T>) {
    forall i, j :: 0 <= i < j < |xs| ==> xs[i] != xs[j]
  }

  /** The distinct elements of `xs` in the order in which they are first met,
      as `[...new Set(xs)]` lists them: each element is appended when it is
      inserted for the first time. */
  function Distinct<T(==)>(xs: seq<T>): seq<T> {
    if |xs| == 0 then []
    else
      var seen := Distinct(xs[..|xs| - 1]);
      if xs[|xs| - 1] in seen then seen else seen + [xs[|xs| - 1]]
  }

  lemma {:induction false} DistinctMembership<T>(xs: seq<T>, x: T)
    ensures x in Distinct(xs) <==> x in xs
  {
    if |xs| > 0 {
      var init := xs[..|xs| - 1];
      DistinctMembership(init, x);
      assert xs == init + [xs[|xs| - 1]];
    }
  }

  lemma {:induction false} DistinctNoDuplicates<T>(xs: seq<T>)
    ensures NoDuplicates(Distinct(xs))
  {
    if |xs| > 0 {
      DistinctNoDuplicates(xs[..|xs| - 1]);
    }
  }

  /** Appending a new element to the input extends the distinct list by it,
      or leaves it as it is when the element was already seen. */
  lemma DistinctSnoc<T>(xs: seq<T>, x: T)
    ensures Distinct(xs + [x]) == if x in Distinct(xs) then Distinct(xs) else Distinct(xs) + [x]
  {
    assert (xs + [x])[..|xs|] == xs;
  }

  /** Position of the first occurrence of `x` in `xs`. */
  function FirstIndex<T(==)>(xs: seq<T>, x: T): (i: nat)
    requires x in xs
    ensures i < |xs| && xs[i] == x
    ensures forall j :: 0 <= j < i ==> xs[j] != x
  {
    if xs[0] == x then 0 else 1 + FirstIndex(xs[1..], x)
  }

  lemma {:induction false} FirstIndexOfPrefix<T>(xs: seq<T>, n: nat, x: T)
    requires n <= |xs| && x in xs[..n]
    ensures x in xs && FirstIndex(xs, x) == FirstIndex(xs[..n], x)
  {
    assert xs[..n][0] == xs[0];
    if xs[0] != x {
      assert xs[..n][1..] == xs[1..][..n - 1];
      FirstIndexOfPrefix(xs[1..], n - 1, x);
    }
  }

  /** First-seen order: an element listed earlier by `Distinct` occurs in the
      input strictly before the first occurrence of any element listed after it. */
  lemma {:induction false} DistinctFirstSeenOrder<T>(xs: seq<T>, i: nat, j: nat)
    requires i < j < |Distinct(xs)|
    ensures Distinct(xs)[i] in xs && Distinct(xs)[j] in xs
    ensures FirstIndex(xs, Distinct(xs)[i]) < FirstIndex(xs, Distinct(xs)[j])
  {
    var n := |xs| - 1;
    var init := xs[..n];
    var d := Distinct(xs);
    var di := Distinct(init);
    DistinctMembership(xs, d[i]);
    DistinctMembership(xs, d[j]);
    if xs[n] in di {
      DistinctFirstSeenOrder(init, i, j);
      FirstIndexOfPrefix(xs, n, di[i]);
      FirstIndexOfPrefix(xs, n, di[j]);
    } else if j < |di| {
      DistinctFirstSeenOrder(init, i, j);
      FirstIndexOfPrefix(xs, n, di[i]);
      FirstIndexOfPrefix(xs, n, di[j]);
    } else {
      // d[j] is the last element, seen for the first time at position n
      DistinctMembership(init, xs[n]);
      assert d[j] == xs[n] && xs[n] !in init;
      assert FirstIndex(xs, d[j]) == n;
      assert d[i] == di[i] && di[i] in di;
      DistinctMembership(init, di[i]);
      FirstIndexOfPrefix(xs, n, di[i]);
    }
  }

  /** The same order after a fixed first element, as in an option list that
      starts with a catch-all entry. */
  lemma HeadedFirstSeenOrder<T>(h: T, xs: seq<T>, i: nat, j: nat)
    requires 1 <= i < j < |[h] + Distinct(xs)|
    ensures ([h] + Distinct(xs))[i] in xs && ([h] + Distinct(xs))[j] in xs
    ensures FirstIndex(xs, ([h] + Distinct(xs))[i]) < FirstIndex(xs, ([h] + Distinct(xs))[j])
  {
    var d := Distinct(xs);
    assert ([h] + d)[i] == d[i - 1] && ([h] + d)[j] == d[j - 1];
    DistinctFirstSeenOrder(xs, i - 1, j - 1);
  }

  /** `sub` is obtained from `xs` by deleting elements, keeping the order. */
  predicate IsSubsequence<T(==)>(sub: seq<T>, xs: seq<T>)
    decreases |xs|
  {
    if |sub| == 0 then true
    else if |xs| == 0 then false
    else if sub[0] == xs[0] then IsSubsequence(sub[1..], xs[1..])
    else IsSubsequence(sub, xs[1..])
  }

  /** Dropping the first element of the longer sequence keeps a subsequence one. */
  lemma SubsequenceDropHead<T>(sub: seq<T>, xs: seq<T>)
    requires |xs| > 0 && IsSubsequence(sub, xs[1..])
    ensures IsSubsequence(sub, xs)
    decreases |xs|, 0
  {
    if |sub| > 0 && sub[0] == xs[0] {
      SubsequenceTail(sub, xs[1..]);
    }
  }

  lemma SubsequenceTail<T>(sub: seq<T>, ys: seq<T>)
    requires |sub| > 0 && IsSubsequence(sub, ys)
    ensures IsSubsequence(sub[1..], ys)
    decreases |ys|, 1
  {
    if sub[0] == ys[0] {
      SubsequenceDropHead(sub[1..], ys);
    } else {
      SubsequenceTail(sub, ys[1..]);
      SubsequenceDropHead(sub[1..], ys);
    }
  }
}

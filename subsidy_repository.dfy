/** The business records of the subsidy search agent and the shapes its repositories and use
    case exchange. */
module SubsidyRepository {
  /** `SubsidyData`: fourteen string fields. */
  datatype SubsidyData = SubsidyData(
    year: string,
    organizationNumber: string,
    organization: string,
    policyFieldNumber: string,
    policyField: string,
    businessName: string,
    subsidyName: string,
    subsidyDescription: string,
    targetNumber: string,
    target: string,
    budgetAmount: string,
    department: string,
    contact: string,
    url: string)

  /** `SubsidySearchResult`, without the optional `subsidies` the use case never sets. */
  datatype SubsidySearchResult = SubsidySearchResult(found: bool, count: nat, summary: string, message: string)

  /** `xs` is `ys` with some elements left out and the rest in their order. */
  ghost predicate Subsequence<T>(xs: seq<T>, ys: seq<T>)
    decreases |ys|
  {
    if xs == [] then true
    else if ys == [] then false
    else if xs[0] == ys[0] then Subsequence(xs[1..], ys[1..])
    else Subsequence(xs, ys[1..])
  }

  /** Keeping the elements that satisfy `keep`, in order; every kept element keeps all its
      occurrences. */
  function Filter<T(!new)>(xs: seq<T>, keep: T -> bool): (r: seq<T>)
    ensures |r| <= |xs|
    ensures forall x :: x in r <==> x in xs && keep(x)
    ensures forall x :: multiset(r)[x] == if keep(x) then multiset(xs)[x] else 0
  {
    if xs == [] then []
    else
      var rest := Filter(xs[1..], keep);
      assert forall x :: x in xs <==> x == xs[0] || x in xs[1..];
      assert xs == [xs[0]] + xs[1..];
      assert multiset(xs) == multiset([xs[0]]) + multiset(xs[1..]);
      if keep(xs[0]) then [xs[0]] + rest else rest
  }

  /** A filter keeps the surviving elements in their order. */
  lemma {:induction false} FilterIsSubsequence<T(!new)>(xs: seq<T>, keep: T -> bool)
    ensures Subsequence(Filter(xs, keep), xs)
  {
    if xs != [] {
      FilterIsSubsequence(xs[1..], keep);
      var rest := Filter(xs[1..], keep);
      if !keep(xs[0]) {
        SubsequenceSkip(rest, xs);
      } else {
        assert ([xs[0]] + rest)[1..] == rest;
      }
    }
  }

  /** Skipping the first element of the longer sequence keeps a subsequence one. */
  lemma {:induction false} SubsequenceSkip<T>(xs: seq<T>, ys: seq<T>)
    requires ys != [] && Subsequence(xs, ys[1..])
    ensures Subsequence(xs, ys)
    decreases |ys|, |xs|
  {
    if xs != [] && xs[0] == ys[0] {
      SubsequenceTail(xs, ys[1..]);
    }
  }

  /** Dropping the first element of a subsequence keeps it a subsequence. */
  lemma {:induction false} SubsequenceTail<T>(xs: seq<T>, ys: seq<T>)
    requires xs != [] && Subsequence(xs, ys)
    ensures Subsequence(xs[1..], ys)
    decreases |ys|, |xs|
  {
    if xs[0] == ys[0] {
      SubsequenceSkip(xs[1..], ys);
    } else {
      SubsequenceTail(xs, ys[1..]);
      SubsequenceSkip(xs[1..], ys);
    }
  }

  /** A filter that keeps everything returns its input. */
  lemma {:induction false} FilterAll<T(!new)>(xs: seq<T>, keep: T -> bool)
    requires forall x | x in xs :: keep(x)
    ensures Filter(xs, keep) == xs
  {
    if xs != [] {
      FilterAll(xs[1..], keep);
    }
  }
}

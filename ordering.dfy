/** The priority sort of the combined candidate list: the comparator, the
    swap, and an insertion sort driven by them over an array. */
module Ordering {
  import opened Holdings

  /** The comparator: the lower priority number comes first. */
  predicate Less(x: Candidate, y: Candidate)
  {
    x.priority < y.priority
  }

  ghost predicate SortedByPriority(cs: seq<Candidate>)
  {
    forall k, l :: 0 <= k < l < |cs| ==> cs[k].priority <= cs[l].priority
  }

  method Swap(a: array<Candidate>, i: int, j: int)
    requires 0 <= i < a.Length && 0 <= j < a.Length
    modifies a
    ensures a[i] == old(a[j]) && a[j] == old(a[i])
    ensures forall m :: 0 <= m < a.Length && m != i && m != j ==> a[m] == old(a[m])
    ensures multiset(a[..]) == old(multiset(a[..]))
  {
    a[i], a[j] := a[j], a[i];
  }

  /** One pass of insertion: moves a[i] left past every element of higher
      priority number, so that a[..i + 1] becomes sorted. */
  method Insert(a: array<Candidate>, i: int)
    requires 0 <= i < a.Length
    requires forall k, l :: 0 <= k < l < i ==> a[k].priority <= a[l].priority
    modifies a
    ensures forall k, l :: 0 <= k < l <= i ==> a[k].priority <= a[l].priority
    ensures multiset(a[..]) == old(multiset(a[..]))
    ensures forall m :: i < m < a.Length ==> a[m] == old(a[m])
  {
    var j := i;
    while j > 0 && Less(a[j], a[j - 1])
      invariant 0 <= j <= i
      invariant multiset(a[..]) == old(multiset(a[..]))
      invariant forall k, l :: 0 <= k < l <= i && k != j && l != j ==> a[k].priority <= a[l].priority
      invariant forall l :: j < l <= i ==> a[j].priority <= a[l].priority
      invariant forall m :: i < m < a.Length ==> a[m] == old(a[m])
    {
      Swap(a, j, j - 1);
      j := j - 1;
    }
  }

  /** Sorts a copy of the candidates in place with Less and Swap; the result
      is a permutation of the input whose priorities never decrease. */
  method SortByPriority(cs: seq<Candidate>) returns (sorted: seq<Candidate>)
    ensures multiset(sorted) == multiset(cs)
    ensures SortedByPriority(sorted)
  {
    var a := new Candidate[|cs|](k requires 0 <= k < |cs| => cs[k]);
    assert a[..] == cs;
    var i := 0;
    while i < a.Length
      invariant 0 <= i <= a.Length
      invariant multiset(a[..]) == multiset(cs)
      invariant forall k, l :: 0 <= k < l < i ==> a[k].priority <= a[l].priority
    {
      Insert(a, i);
      i := i + 1;
    }
    sorted := a[..];
  }

  /** Go's string order: the byte-wise lexicographic order. */
  predicate StringLess(x: string, y: string)
  {
    if x == [] then y != []
    else if y == [] then false
    else if x[0] != y[0] then x[0] < y[0]
    else StringLess(x[1..], y[1..])
  }

  /** Line 98 as written compares the priorities as strings. */
  predicate LessAsWritten(x: string, y: string)
  {
    StringLess(x, y)
  }

  /** As strings, priority "10" sorts before priority "2", so a
      PreferrredShares lot (10) is drawn before a CorporateBonds lot (2). */
  lemma LessAsWrittenPutsTenBeforeTwo()
    ensures LessAsWritten("10", "2") && !LessAsWritten("2", "10")
  {
  }
}

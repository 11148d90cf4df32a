/** Sorted lists.

    Sorting, and sorting with duplicates removed, by insertion: what `sort`, `sorted`, `sort` followed by
    `dedup`, and `sorted` of a set return. What is stated about a sorted list is what its readers use: the
    entry at position `k` has more than `k` entries at most as large and at most `k` that are smaller, in
    the list that was sorted just as in the sorted one. */
module Lists {

  // ----- with duplicates

  predicate Ascending(xs: seq<real>) {
    forall i, j :: 0 <= i < j < |xs| ==> xs[i] <= xs[j]
  }

  function Insert(xs: seq<real>, x: real): (ys: seq<real>)
    requires Ascending(xs)
    ensures Ascending(ys) && |ys| == |xs| + 1
    ensures forall y :: y in ys <==> y == x || y in xs
  {
    if xs == [] || xs[|xs| - 1] <= x then xs + [x]
    else
      var most, last := xs[..|xs| - 1], xs[|xs| - 1];
      var ys := Insert(most, x);
      assert forall i :: 0 <= i < |ys| ==> ys[i] in ys;
      assert xs == most + [last];
      ys + [last]
  }

  function Sorted(xs: seq<real>): (ys: seq<real>)
    ensures Ascending(ys) && |ys| == |xs|
  {
    if xs == [] then [] else Insert(Sorted(xs[..|xs| - 1]), xs[|xs| - 1])
  }

  // ----- without

  predicate StrictlyAscending(xs: seq<real>) {
    forall i, j :: 0 <= i < j < |xs| ==> xs[i] < xs[j]
  }

  /** Places `x` in an ascending list unless it is there already. */
  function InsertOnce(xs: seq<real>, x: real): (ys: seq<real>)
    requires StrictlyAscending(xs)
    ensures StrictlyAscending(ys)
    ensures forall y :: y in ys <==> y == x || y in xs
  {
    if xs == [] || xs[|xs| - 1] < x then xs + [x]
    else if xs[|xs| - 1] == x then xs
    else
      var most, last := xs[..|xs| - 1], xs[|xs| - 1];
      var ys := InsertOnce(most, x);
      assert forall i :: 0 <= i < |ys| ==> ys[i] in ys;
      assert xs == most + [last];
      ys + [last]
  }

  function SortedOnce(xs: seq<real>): (ys: seq<real>)
    ensures StrictlyAscending(ys)
    ensures forall y :: y in ys <==> y in xs
  {
    if xs == [] then []
    else
      assert xs == xs[..|xs| - 1] + [xs[|xs| - 1]];
      InsertOnce(SortedOnce(xs[..|xs| - 1]), xs[|xs| - 1])
  }

  // ----- how many lie below an entry

  function AtMost(xs: seq<real>, v: real): nat {
    if xs == [] then 0 else AtMost(xs[..|xs| - 1], v) + if xs[|xs| - 1] <= v then 1 else 0
  }

  function Below(xs: seq<real>, v: real): nat {
    if xs == [] then 0 else Below(xs[..|xs| - 1], v) + if xs[|xs| - 1] < v then 1 else 0
  }

  lemma CountsPush(xs: seq<real>, x: real, v: real)
    ensures AtMost(xs + [x], v) == AtMost(xs, v) + if x <= v then 1 else 0
    ensures Below(xs + [x], v) == Below(xs, v) + if x < v then 1 else 0
  {
    assert (xs + [x])[..|xs|] == xs;
  }

  lemma {:induction false} CountsInsert(xs: seq<real>, x: real, v: real)
    requires Ascending(xs)
    ensures AtMost(Insert(xs, x), v) == AtMost(xs, v) + if x <= v then 1 else 0
    ensures Below(Insert(xs, x), v) == Below(xs, v) + if x < v then 1 else 0
  {
    hide AtMost, Below;
    if xs == [] || xs[|xs| - 1] <= x {
      CountsPush(xs, x, v);
    } else {
      var most, last := xs[..|xs| - 1], xs[|xs| - 1];
      assert xs == most + [last];
      CountsInsert(most, x, v);
      CountsPush(most, last, v);
      CountsPush(Insert(most, x), last, v);
    }
  }

  lemma {:induction false} CountsSorted(xs: seq<real>, v: real)
    ensures AtMost(Sorted(xs), v) == AtMost(xs, v) && Below(Sorted(xs), v) == Below(xs, v)
  {
    hide AtMost, Below, Insert;
    if xs != [] {
      var most, last := xs[..|xs| - 1], xs[|xs| - 1];
      assert xs == most + [last];
      CountsSorted(most, v);
      CountsInsert(Sorted(most), last, v);
      CountsPush(most, last, v);
    }
  }

  lemma {:induction false} CountsInPrefix(xs: seq<real>, k: nat, n: nat)
    requires Ascending(xs) && k < |xs| && n <= |xs|
    ensures AtMost(xs[..n], xs[k]) >= if n <= k + 1 then n else k + 1
    ensures Below(xs[..n], xs[k]) <= if n <= k then n else k
  {
    hide AtMost, Below;
    if n == 0 {
      NothingCounted(xs[k]);
      assert xs[..0] == [];
    } else {
      CountsInPrefix(xs, k, n - 1);
      assert xs[..n] == xs[..n - 1] + [xs[n - 1]];
      CountsPush(xs[..n - 1], xs[n - 1], xs[k]);
    }
  }

  lemma NothingCounted(v: real)
    ensures AtMost([], v) == 0 && Below([], v) == 0
  {}

  /** The entry at position `k` after sorting is a quantile of the list as it came. */
  lemma SortedEntryIsQuantile(xs: seq<real>, k: nat)
    requires k < |xs|
    ensures AtMost(xs, Sorted(xs)[k]) > k && Below(xs, Sorted(xs)[k]) <= k
  {
    hide AtMost, Below;
    var sorted := Sorted(xs);
    CountsSorted(xs, sorted[k]);
    CountsInPrefix(sorted, k, |sorted|);
    assert sorted[..|sorted|] == sorted;
  }
}

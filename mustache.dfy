/**
 * The price summary of the box-plot script: count, minimum, the three
 * quartiles picked by integer-division index into the sorted prices, and
 * maximum. Prices are exact reals; the float Mean and STD are not computed.
 */
module Mustache {
  import opened Outcomes

  datatype Stats = Stats(count: nat, min: real, q25: real, q50: real, q75: real, max: real)

  predicate Sorted(s: seq<real>) {
    forall i, j :: 0 <= i < j < |s| ==> s[i] <= s[j]
  }

  /** `x` put into its place in a sorted list. */
  function Insert(x: real, s: seq<real>): (r: seq<real>)
    requires Sorted(s)
    ensures Sorted(r) && multiset(r) == multiset(s) + multiset{x} && |r| == |s| + 1
  {
    if |s| == 0 then [x]
    else if x <= s[0] then [x] + s
    else
      var rest := Insert(x, s[1..]);
      assert s == [s[0]] + s[1..];
      assert forall k :: 0 <= k < |rest| ==> rest[k] in multiset(s[1..]) + multiset{x};
      [s[0]] + rest
  }

  /** `sorted(prices)`: the same prices, with multiplicity, in ascending order. */
  function SortedCopy(s: seq<real>): (r: seq<real>)
    ensures Sorted(r) && multiset(r) == multiset(s) && |r| == |s|
  {
    if |s| == 0 then []
    else
      assert s == s[..|s| - 1] + [s[|s| - 1]];
      Insert(s[|s| - 1], SortedCopy(s[..|s| - 1]))
  }

  /** `min(prices)`: an element that no element is below. */
  function Min(s: seq<real>): (r: real)
    requires |s| > 0
    ensures r in s && forall k :: 0 <= k < |s| ==> r <= s[k]
  {
    if |s| == 1 then s[0]
    else
      var m := Min(s[..|s| - 1]);
      assert forall k :: 0 <= k < |s| - 1 ==> s[..|s| - 1][k] == s[k];
      if s[|s| - 1] < m then s[|s| - 1] else m
  }

  /** `max(prices)`: an element that no element is above. */
  function Max(s: seq<real>): (r: real)
    requires |s| > 0
    ensures r in s && forall k :: 0 <= k < |s| ==> s[k] <= r
  {
    if |s| == 1 then s[0]
    else
      var m := Max(s[..|s| - 1]);
      assert forall k :: 0 <= k < |s| - 1 ==> s[..|s| - 1][k] == s[k];
      if s[|s| - 1] > m then s[|s| - 1] else m
  }

  /**
   * `get_stats`: an empty list fails at "Mean" with ZeroDivisionError;
   * otherwise the count is the length and the quartiles are the sorted
   * prices at `n // 4`, `n // 2` and `n * 3 // 4`.
   */
  function GetStats(prices: seq<real>): (r: Result<Stats>)
    ensures r.Err? <==> |prices| == 0
    ensures r.Err? ==> r.error == ZeroDivisionError
    ensures r.Ok? ==> r.value.count == |prices|
  {
    if |prices| == 0 then Err(ZeroDivisionError)
    else
      var n := |prices|;
      var sorted := SortedCopy(prices);
      Ok(Stats(n, Min(prices), sorted[n / 4], sorted[n / 2], sorted[n * 3 / 4], Max(prices)))
  }

  /** Line 105: the three quartiles in order. */
  function QuartileList(stats: Stats): (r: seq<real>)
    ensures |r| == 3 && r[0] == stats.q25 && r[1] == stats.q50 && r[2] == stats.q75
  {
    [stats.q25, stats.q50, stats.q75]
  }

  /** The three quartile indices lie inside the list, in order, for every non-empty list. */
  lemma QuartileIndices(n: nat)
    requires n >= 1
    ensures 0 <= n / 4 <= n / 2 <= n * 3 / 4 < n
  {
  }

  /** An element of the sorted copy is an element of the prices. */
  lemma SortedCopyElement(prices: seq<real>, k: nat)
    requires k < |prices|
    ensures SortedCopy(prices)[k] in prices
  {
    var s := SortedCopy(prices);
    assert s[k] in multiset(s);
  }

  /** The minimum is below, and the maximum above, every member. */
  lemma MinMaxBound(prices: seq<real>, x: real)
    requires x in prices
    ensures Min(prices) <= x <= Max(prices)
  {
    var k :| 0 <= k < |prices| && prices[k] == x;
  }

  /**
   * The summary is ordered, Min <= 25% <= 50% <= 75% <= Max, and every
   * reported value is one of the prices.
   */
  lemma StatsOrdered(prices: seq<real>)
    requires |prices| > 0
    ensures var s := GetStats(prices).value;
      && s.min <= s.q25 <= s.q50 <= s.q75 <= s.max
      && s.min in prices && s.q25 in prices && s.q50 in prices && s.q75 in prices && s.max in prices
  {
    var n := |prices|;
    var sorted := SortedCopy(prices);
    var i25, i50, i75 := n / 4, n / 2, n * 3 / 4;
    QuartileIndices(n);
    assert sorted[i25] <= sorted[i50] <= sorted[i75];
    SortedCopyElement(prices, i25);
    SortedCopyElement(prices, i50);
    SortedCopyElement(prices, i75);
    MinMaxBound(prices, sorted[i25]);
    MinMaxBound(prices, sorted[i75]);
    assert GetStats(prices).value == Stats(n, Min(prices), sorted[i25], sorted[i50], sorted[i75], Max(prices));
  }

  /** The quartile list passed to the second box plot is ascending and drawn from the prices. */
  lemma QuartileListOrdered(prices: seq<real>)
    requires |prices| > 0
    ensures var q := QuartileList(GetStats(prices).value);
      Sorted(q) && forall k :: 0 <= k < 3 ==> q[k] in prices
  {
    StatsOrdered(prices);
  }

  /** The order of the prices does not matter: a rearrangement has the same summary. */
  lemma {:induction false} StatsIgnoreOrder(xs: seq<real>, ys: seq<real>)
    requires multiset(xs) == multiset(ys)
    ensures GetStats(xs) == GetStats(ys)
  {
    assert |xs| == |multiset(xs)| == |ys|;
    if |xs| > 0 {
      SortedUnique(SortedCopy(xs), SortedCopy(ys));
      MinMaxOfSame(xs, ys);
    }
  }

  /** The head of a non-empty sorted list is below each of its members. */
  lemma HeadBelow(a: seq<real>, x: real)
    requires Sorted(a) && x in a
    ensures a[0] <= x
  {
    var k :| 0 <= k < |a| && a[k] == x;
  }

  /** Two sorted lists with the same elements are equal. */
  lemma {:induction false} SortedUnique(a: seq<real>, b: seq<real>)
    requires Sorted(a) && Sorted(b) && multiset(a) == multiset(b)
    ensures a == b
  {
    if |a| > 0 {
      assert |b| == |multiset(b)| == |multiset(a)| == |a|;
      assert a[0] in multiset(b) && b[0] in multiset(a);
      HeadBelow(b, a[0]);
      HeadBelow(a, b[0]);
      assert a[0] == b[0];
      assert a == [a[0]] + a[1..] && b == [b[0]] + b[1..];
      assert multiset(a[1..]) == multiset(a) - multiset{a[0]};
      assert multiset(b[1..]) == multiset(b) - multiset{b[0]};
      SortedUnique(a[1..], b[1..]);
    }
  }

  lemma MinMaxOfSame(xs: seq<real>, ys: seq<real>)
    requires |xs| > 0 && multiset(xs) == multiset(ys)
    ensures |ys| > 0 && Min(xs) == Min(ys) && Max(xs) == Max(ys)
  {
    assert |ys| == |multiset(ys)| == |xs|;
    assert forall x :: x in xs <==> x in ys by {
      forall x ensures x in xs <==> x in ys {
        assert x in xs <==> x in multiset(xs);
        assert x in ys <==> x in multiset(ys);
      }
    }
  }
}

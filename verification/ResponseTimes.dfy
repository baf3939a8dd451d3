/** Response time statistics (oauth/monitoring.go:328-392). Durations are integers of any
    sign; overflow of the sum is not modelled. */
module ResponseTimes {

  datatype ResponseTime = ResponseTime(count: int, total: int, min: int, max: int, average: int,
                                       p50: int, p95: int, p99: int)

  const NONE: ResponseTime := ResponseTime(0, 0, 0, 0, 0, 0, 0, 0)

  ghost predicate Sorted(s: seq<int>) {
    forall i, j :: 0 <= i < j < |s| ==> s[i] <= s[j]
  }

  // ---- the sort ----

  ghost predicate SameSamples(s: seq<int>, t: seq<int>) {
    multiset(s) == multiset(t)
  }

  // The first i elements are in their final places.
  ghost predicate Settled(s: seq<int>, i: nat) {
    forall x, y :: 0 <= x < i && x < y < |s| ==> s[x] <= s[y]
  }

  // Element i is the least of those from i to j.
  ghost predicate LeastTo(s: seq<int>, i: nat, j: nat) {
    i < |s| && forall y :: i < y < j && y < |s| ==> s[i] <= s[y]
  }

  function Swapped(s: seq<int>, i: nat, j: nat): seq<int>
    requires i < |s| && j < |s|
  {
    s[i := s[j]][j := s[i]]
  }

  lemma {:induction false} SwapKeeps(s: seq<int>, t: seq<int>, i: nat, j: nat)
    requires i < j < |s| && s[i] > s[j]
    requires SameSamples(s, t) && Settled(s, i) && LeastTo(s, i, j)
    ensures var u := Swapped(s, i, j);
            SameSamples(u, t) && Settled(u, i) && LeastTo(u, i, j + 1)
  {
  }

  lemma {:induction false} NextSettled(s: seq<int>, i: nat)
    requires i < |s| && Settled(s, i) && LeastTo(s, i, |s|)
    ensures Settled(s, i + 1)
  {
  }

  method ExchangeSort(a: array<int>)
    modifies a
    ensures Sorted(a[..]) && SameSamples(a[..], old(a[..]))
  {
    hide SameSamples, Settled, LeastTo;
    ghost var t := a[..];
    assert SameSamples(t, t) && Settled(t, 0) by { Unsorted(t); }
    for i := 0 to a.Length
      invariant SameSamples(a[..], t) && Settled(a[..], i)
    {
      assert LeastTo(a[..], i, i + 1) by { Alone(a[..], i); }
      for j := i + 1 to a.Length
        invariant SameSamples(a[..], t) && Settled(a[..], i) && LeastTo(a[..], i, j)
      {
        ghost var s := a[..];
        if a[i] > a[j] {
          a[i], a[j] := a[j], a[i];
          assert a[..] == Swapped(s, i, j);
          SwapKeeps(s, t, i, j);
        } else {
          OneMore(s, i, j);
        }
      }
      NextSettled(a[..], i);
    }
    AllSettled(a[..]);
  }

  lemma {:induction false} Unsorted(s: seq<int>)
    ensures SameSamples(s, s) && Settled(s, 0)
  {
  }

  lemma {:induction false} Alone(s: seq<int>, i: nat)
    requires i < |s|
    ensures LeastTo(s, i, i + 1)
  {
  }

  lemma {:induction false} OneMore(s: seq<int>, i: nat, j: nat)
    requires i < j < |s| && LeastTo(s, i, j) && s[i] <= s[j]
    ensures LeastTo(s, i, j + 1)
  {
  }

  lemma {:induction false} AllSettled(s: seq<int>)
    requires Settled(s, |s|)
    ensures Sorted(s)
  {
  }

  // ---- ranks: what a percentile is, without sorting ----

  function AtMost(s: seq<int>, p: int): nat {
    if s == [] then 0 else (if s[0] <= p then 1 else 0) + AtMost(s[1..], p)
  }

  function AtLeast(s: seq<int>, p: int): nat {
    if s == [] then 0 else (if s[0] >= p then 1 else 0) + AtLeast(s[1..], p)
  }

  // p is a sample; at least k + 1 samples are not above it, and at most k are below it.
  ghost predicate HasRank(s: seq<int>, k: nat, p: int) {
    p in s && AtMost(s, p) >= k + 1 && AtLeast(s, p) >= |s| - k
  }

  lemma {:induction false} AtMostConcat(s: seq<int>, t: seq<int>, p: int)
    ensures AtMost(s + t, p) == AtMost(s, p) + AtMost(t, p)
  {
    if s == [] {
      assert s + t == t;
    } else {
      assert (s + t)[1..] == s[1..] + t;
      AtMostConcat(s[1..], t, p);
    }
  }

  lemma {:induction false} AtLeastConcat(s: seq<int>, t: seq<int>, p: int)
    ensures AtLeast(s + t, p) == AtLeast(s, p) + AtLeast(t, p)
  {
    if s == [] {
      assert s + t == t;
    } else {
      assert (s + t)[1..] == s[1..] + t;
      AtLeastConcat(s[1..], t, p);
    }
  }

  lemma {:induction false} AllAtMost(s: seq<int>, p: int)
    requires forall i :: 0 <= i < |s| ==> s[i] <= p
    ensures AtMost(s, p) == |s|
  {
    if s != [] {
      AllAtMost(s[1..], p);
    }
  }

  lemma {:induction false} AllAtLeast(s: seq<int>, p: int)
    requires forall i :: 0 <= i < |s| ==> s[i] >= p
    ensures AtLeast(s, p) == |s|
  {
    if s != [] {
      AllAtLeast(s[1..], p);
    }
  }

  // Taking one sample out of the middle takes it out of both counts.
  lemma {:induction false} CountsWithout(t: seq<int>, i: nat, p: int)
    requires i < |t|
    ensures AtMost(t, p) == AtMost(t[..i] + t[i + 1..], p) + AtMost([t[i]], p)
    ensures AtLeast(t, p) == AtLeast(t[..i] + t[i + 1..], p) + AtLeast([t[i]], p)
  {
    hide AtMost, AtLeast;
    assert t == t[..i] + ([t[i]] + t[i + 1..]);
    AtMostConcat(t[..i], [t[i]] + t[i + 1..], p);
    AtMostConcat([t[i]], t[i + 1..], p);
    AtMostConcat(t[..i], t[i + 1..], p);
    AtLeastConcat(t[..i], [t[i]] + t[i + 1..], p);
    AtLeastConcat([t[i]], t[i + 1..], p);
    AtLeastConcat(t[..i], t[i + 1..], p);
  }

  lemma {:induction false} SamplesWithout(t: seq<int>, i: nat)
    requires i < |t|
    ensures multiset(t[..i] + t[i + 1..]) == multiset(t) - multiset{t[i]}
  {
    assert t == t[..i] + [t[i]] + t[i + 1..];
  }

  lemma {:induction false} SameLength(s: seq<int>, t: seq<int>)
    requires SameSamples(s, t)
    ensures |s| == |t|
  {
    assert |multiset(s)| == |s| && |multiset(t)| == |t|;
  }

  lemma {:induction false} FirstIn(s: seq<int>, t: seq<int>)
    requires SameSamples(s, t) && s != []
    ensures s[0] in t
  {
    assert s[0] in multiset(s);
  }

  lemma {:induction false} RestSame(s: seq<int>, t: seq<int>, i: nat)
    requires SameSamples(s, t) && s != [] && i < |t| && t[i] == s[0]
    ensures SameSamples(s[1..], t[..i] + t[i + 1..])
  {
    SamplesWithout(s, 0);
    assert s[..0] + s[1..] == s[1..];
    SamplesWithout(t, i);
  }

  lemma {:induction false} OneOf(s: seq<int>, t: seq<int>) returns (i: nat)
    requires SameSamples(s, t) && s != []
    ensures i < |t| && t[i] == s[0] && SameSamples(s[1..], t[..i] + t[i + 1..])
  {
    hide SameSamples;
    FirstIn(s, t);
    i :| 0 <= i < |t| && t[i] == s[0];
    RestSame(s, t, i);
  }

  // Counts do not depend on the order.
  lemma {:induction false} SameCounts(s: seq<int>, t: seq<int>, p: int)
    requires SameSamples(s, t)
    ensures |s| == |t| && AtMost(s, p) == AtMost(t, p) && AtLeast(s, p) == AtLeast(t, p)
  {
    hide AtMost, AtLeast, SameSamples;
    SameLength(s, t);
    if s == [] {
      assert t == [];
    } else {
      var i := OneOf(s, t);
      assert s[..0] + s[1..] == s[1..];
      SameCounts(s[1..], t[..i] + t[i + 1..], p);
      CountsWithout(s, 0, p);
      CountsWithout(t, i, p);
    }
  }

  lemma {:induction false} CountsAt(s: seq<int>, k: nat)
    requires Sorted(s) && k < |s|
    ensures AtMost(s, s[k]) >= k + 1 && AtLeast(s, s[k]) >= |s| - k
  {
    hide AtMost, AtLeast;
    var p := s[k];
    assert s == s[..k + 1] + s[k + 1..];
    AllAtMost(s[..k + 1], p);
    AtMostConcat(s[..k + 1], s[k + 1..], p);
    assert s == s[..k] + s[k..];
    AllAtLeast(s[k..], p);
    AtLeastConcat(s[..k], s[k..], p);
  }

  /** In any sorted permutation the element at index k has rank k. */
  lemma {:induction false} SortedHasRank(s: seq<int>, sorted: seq<int>, k: nat)
    requires Sorted(sorted) && SameSamples(sorted, s) && k < |sorted|
    ensures |s| == |sorted| && HasRank(s, k, sorted[k])
  {
    hide AtMost, AtLeast, Sorted;
    CountsAt(sorted, k);
    SameCounts(sorted, s, sorted[k]);
    assert sorted[k] in multiset(s);
  }

  lemma {:induction false} NoneTwice(s: seq<int>, p: int, q: int)
    requires p < q
    ensures AtMost(s, p) + AtLeast(s, q) <= |s|
  {
    if s != [] {
      NoneTwice(s[1..], p, q);
    }
  }

  /** A rank determines the sample. */
  lemma {:induction false} OneAtRank(s: seq<int>, k: nat, p: int, q: int)
    requires HasRank(s, k, p) && HasRank(s, k, q)
    ensures p == q
  {
    if p < q {
      NoneTwice(s, p, q);
    } else if q < p {
      NoneTwice(s, q, p);
    }
  }

  // ---- sum and average ----

  function Sum(s: seq<int>): int {
    if s == [] then 0 else Sum(s[..|s| - 1]) + s[|s| - 1]
  }

  // Go's integer division truncates toward zero.
  function TruncDiv(a: int, b: int): int
    requires b > 0
  {
    if a >= 0 then a / b else -(-a / b)
  }

  lemma {:induction false} SumBetween(s: seq<int>, lo: int, hi: int)
    requires forall i :: 0 <= i < |s| ==> lo <= s[i] <= hi
    ensures lo * |s| <= Sum(s) <= hi * |s|
  {
    if s != [] {
      var n := |s| - 1;
      SumBetween(s[..n], lo, hi);
      OneMoreTime(lo, n);
      OneMoreTime(hi, n);
    }
  }

  lemma {:induction false} OneMoreTime(a: int, n: nat)
    ensures a * (n + 1) == a * n + a
  {
  }

  lemma {:induction false} AverageBetween(total: int, n: int, lo: int, hi: int)
    requires n > 0 && lo * n <= total <= hi * n
    ensures lo <= TruncDiv(total, n) <= hi
  {
    var a := if total >= 0 then total else -total;
    var q, r := a / n, a % n;
    assert a == q * n + r;
    if total >= 0 {
      QuotientAtMost(q, r, n, hi, a);
      QuotientAtLeast(q, r, n, lo, a);
    } else {
      QuotientAtMost(q, r, n, -lo, a);
      QuotientAtLeast(q, r, n, -hi, a);
    }
  }

  lemma {:induction false} Times(a: int, b: int, n: int)
    requires a >= b && n >= 0
    ensures a * n >= b * n
  {
  }

  lemma {:induction false} QuotientAtMost(q: int, r: int, n: int, hi: int, a: int)
    requires n > 0 && r >= 0 && a == q * n + r && a <= hi * n
    ensures q <= hi
  {
  }

  lemma {:induction false} QuotientAtLeast(q: int, r: int, n: int, lo: int, a: int)
    requires n > 0 && r < n && a == q * n + r && lo * n <= a
    ensures lo <= q
  {
    if lo > q {
      Times(lo, q + 1, n);
    }
  }

  // ---- the statistics ----

  ghost predicate Extremes(s: seq<int>, lo: int, hi: int) {
    lo in s && hi in s && forall i :: 0 <= i < |s| ==> lo <= s[i] <= hi
  }

  method Totals(durations: array<int>) returns (total: int, minDur: int, maxDur: int)
    requires durations.Length > 0
    ensures total == Sum(durations[..]) && Extremes(durations[..], minDur, maxDur)
  {
    hide Sum;
    total, minDur, maxDur := 0, durations[0], durations[0];
    ghost var s := durations[..];
    SumNext(s, 0);
    for i := 0 to durations.Length
      invariant total == Sum(s[..i])
      invariant minDur in s && maxDur in s
      invariant forall j :: 0 <= j < i ==> minDur <= s[j] <= maxDur
    {
      var d := durations[i];
      assert d == s[i];
      SumNext(s, i);
      total := total + d;
      if d < minDur {
        minDur := d;
      }
      if d > maxDur {
        maxDur := d;
      }
    }
    assert s[..|s|] == s;
  }

  method SortedCopy(durations: array<int>) returns (sorted: array<int>)
    ensures fresh(sorted) && sorted.Length == durations.Length
    ensures Sorted(sorted[..]) && SameSamples(sorted[..], durations[..])
  {
    hide SameSamples, Sorted;
    sorted := new int[durations.Length];
    forall i | 0 <= i < durations.Length {
      sorted[i] := durations[i];
    }
    assert sorted[..] == durations[..];
    ExchangeSort(sorted);
  }

  // What the statistics promise about a non-empty list of samples.
  ghost predicate StatsOf(s: seq<int>, r: ResponseTime)
    requires s != []
  {
    var n := |s|;
    && r.count == n && r.total == Sum(s) && r.average == TruncDiv(Sum(s), n)
    && Extremes(s, r.min, r.max)
    && HasRank(s, n * 50 / 100, r.p50) && HasRank(s, n * 95 / 100, r.p95) && HasRank(s, n * 99 / 100, r.p99)
    && r.min <= r.p50 <= r.p95 <= r.p99 <= r.max
    && r.min <= r.average <= r.max
  }

  /** The statistics of the samples, which are left as they are: the extremes, the truncated
      mean, the samples of ranks n*50/100, n*95/100 and n*99/100, and their order. */
  method CalculateResponseTimeStats(durations: array<int>) returns (r: ResponseTime)
    ensures if durations.Length == 0 then r == NONE else StatsOf(durations[..], r)
  {
    hide Sum, TruncDiv, HasRank, SameSamples;
    var n := durations.Length;
    if n == 0 {
      return NONE;
    }
    ghost var s := durations[..];
    var total, minDur, maxDur := Totals(durations);
    var average := TruncDiv(total, n);
    SumBetween(s, minDur, maxDur);
    AverageBetween(total, n, minDur, maxDur);
    var sorted := SortedCopy(durations);
    var p50, p95, p99 := sorted[n * 50 / 100], sorted[n * 95 / 100], sorted[n * 99 / 100];
    assert durations[..] == s;
    SortedHasRank(s, sorted[..], n * 50 / 100);
    SortedHasRank(s, sorted[..], n * 95 / 100);
    SortedHasRank(s, sorted[..], n * 99 / 100);
    Ranked(s, n * 50 / 100, p50);
    Ranked(s, n * 99 / 100, p99);
    InOrder(sorted[..], n * 50 / 100, n * 95 / 100);
    InOrder(sorted[..], n * 95 / 100, n * 99 / 100);
    return ResponseTime(n, total, minDur, maxDur, average, p50, p95, p99);
  }

  lemma {:induction false} InOrder(s: seq<int>, j: nat, k: nat)
    requires Sorted(s) && j <= k < |s|
    ensures s[j] <= s[k]
  {
  }

  lemma {:induction false} Ranked(s: seq<int>, k: nat, p: int)
    requires HasRank(s, k, p)
    ensures p in s
  {
  }

  lemma {:induction false} SumNext(s: seq<int>, i: nat)
    requires i <= |s|
    ensures Sum(s[..0]) == 0
    ensures i < |s| ==> Sum(s[..i + 1]) == Sum(s[..i]) + s[i]
  {
    if i < |s| {
      assert s[..i + 1][..i] == s[..i];
    }
  }

  // What a division leaves over is smaller than the divisor and has the sign of the dividend.
  predicate LeftOver(total: int, n: int, r: int) {
    -n < r < n && (if total >= 0 then r >= 0 else r <= 0)
  }

  lemma {:induction false} OnlyQuotient(total: int, n: int, p: int, q: int)
    requires n > 0 && LeftOver(total, n, total - p * n) && LeftOver(total, n, total - q * n)
    ensures p == q
  {
    var d := p - q;
    assert p * n == q * n + d * n && d * n == -(-d * n);
    if d > 0 {
      AtLeastOnce(d, n);
    } else if d < 0 {
      AtLeastOnce(-d, n);
    }
  }

  lemma {:induction false} AtLeastOnce(d: int, n: int)
    requires d > 0 && n > 0
    ensures d * n >= n
  {
  }

  /** The division rounds towards zero. */
  lemma {:induction false} TruncDivExactly(total: int, n: int, q: int)
    requires n > 0
    ensures q == TruncDiv(total, n) <==> LeftOver(total, n, total - q * n)
  {
    assert LeftOver(total, n, total - TruncDiv(total, n) * n) by { TruncDivLeaves(total, n); }
    hide TruncDiv, LeftOver;
    if LeftOver(total, n, total - q * n) {
      OnlyQuotient(total, n, q, TruncDiv(total, n));
    }
  }

  lemma {:induction false} TruncDivLeaves(total: int, n: int)
    requires n > 0
    ensures LeftOver(total, n, total - TruncDiv(total, n) * n)
  {
    if total < 0 {
      assert -(-total / n) * n == -((-total / n) * n);
    }
  }

  // ---- recordDuration ----

  function Trim(s: seq<int>): seq<int> {
    if |s| > 1000 then s[100..] else s
  }

  // What is kept of a history.
  function Remembered(history: seq<int>): seq<int> {
    if history == [] then []
    else Trim(Remembered(history[..|history| - 1]) + [history[|history| - 1]])
  }

  class DefaultMetricsCollector {
    var durations: map<string, seq<int>>

    method RecordDuration(key: string, duration: int)
      modifies this
      ensures var before := if key in old(durations) then old(durations)[key] else [];
              durations == old(durations)[key := Trim(before + [duration])]
    {
      if key !in durations {
        durations := durations[key := []];
      }
      durations := durations[key := durations[key] + [duration]];
      if |durations[key]| > 1000 {
        durations := durations[key := durations[key][100..]];
      }
    }
  }

  function Size(n: nat): nat {
    if n <= 1000 then n else 901 + (n - 1001) % 100
  }

  /** Of n recorded samples exactly the last n are kept while n is at most 1000, and then the
      last 901 to 1000 of them. */
  lemma {:induction false} RemembersLast(history: seq<int>)
    ensures Size(|history|) <= |history| && Size(|history|) <= 1000
    ensures Remembered(history) == history[|history| - Size(|history|)..]
  {
    hide Size, Trim, Remembered;
    var n := |history|;
    if n == 0 {
      NothingYet(history);
    } else {
      RemembersLast(history[..n - 1]);
      NextRemembered(history);
      if Size(n - 1) == 1000 {
        SizeAfterTrim(n);
      } else {
        SizeGrows(n);
      }
      TrimSuffix(history, Size(n - 1));
    }
  }

  lemma {:induction false} NothingYet(history: seq<int>)
    requires history == []
    ensures Remembered(history) == [] && Size(|history|) == 0
  {
  }

  lemma {:induction false} NextRemembered(history: seq<int>)
    requires history != []
    ensures var n := |history| - 1;
            Remembered(history) == Trim(Remembered(history[..n]) + [history[n]])
  {
  }

  // One more sample after the last k of the others.
  lemma {:induction false} TrimSuffix(history: seq<int>, k: nat)
    requires k < |history| && k <= 1000
    ensures var n := |history|;
            Trim(history[..n - 1][n - 1 - k..] + [history[n - 1]])
            == if k == 1000 then history[n - 901..] else history[n - 1 - k..]
  {
    var n := |history|;
    assert history[..n - 1][n - 1 - k..] + [history[n - 1]] == history[n - 1 - k..];
    if k == 1000 {
      assert history[n - 1001..][100..] == history[n - 901..];
    }
  }

  lemma {:induction false} SizeAfterTrim(n: nat)
    requires n > 0 && Size(n - 1) == 1000
    ensures Size(n) == 901 && n > 1000
  {
  }

  lemma {:induction false} SizeGrows(n: nat)
    requires n > 0 && Size(n - 1) < 1000
    ensures Size(n) == Size(n - 1) + 1
  {
  }
}

/** The reward percentiles of a block (rpc/backend/utils.go). Gas thresholds are given; how they follow
    from percentages in floating point is not modelled. */
module RewardSweep {
  import opened GoInt

  datatype Tx = Tx(gasUsed: uint64, reward: int)

  predicate Sorted(s: seq<Tx>) {
    forall i, j :: 0 <= i < j < |s| ==> s[i].reward <= s[j].reward
  }

  /** sort.Sort: some order by reward. */
  predicate IsSorting(txs: seq<Tx>, s: seq<Tx>) { Sorted(s) && multiset(s) == multiset(txs) }

  method SortByReward(txs: seq<Tx>) returns (s: seq<Tx>)
    ensures IsSorting(txs, s) && |s| == |txs|
  {
    s := [];
    for i := 0 to |txs|
      invariant |s| == i && Sorted(s) && multiset(s) == multiset(txs[..i])
    {
      hide Sorted;
      var j := Place(s, txs[i].reward);
      assert txs[..i + 1] == txs[..i] + [txs[i]];
      InsertAt(s, j, txs[i]);
      s := s[..j] + [txs[i]] + s[j..];
    }
    assert txs[..|txs|] == txs;
    assert |multiset(s)| == |multiset(txs)|;
  }

  /** Behind the last one that is not larger. */
  method Place(s: seq<Tx>, reward: int) returns (j: nat)
    ensures j <= |s| && (forall k :: j <= k < |s| ==> s[k].reward > reward) && (j > 0 ==> s[j - 1].reward <= reward)
  {
    j := |s|;
    while j > 0 && s[j - 1].reward > reward
      invariant j <= |s| && forall k :: j <= k < |s| ==> s[k].reward > reward
    {
      j := j - 1;
    }
  }

  lemma InsertAt(s: seq<Tx>, j: nat, x: Tx)
    requires j <= |s| && Sorted(s)
    requires (forall k :: j <= k < |s| ==> s[k].reward > x.reward) && (j > 0 ==> s[j - 1].reward <= x.reward)
    ensures Sorted(s[..j] + [x] + s[j..]) && multiset(s[..j] + [x] + s[j..]) == multiset(s) + multiset{x}
  {
    var r := s[..j] + [x] + s[j..];
    forall k | 0 <= k < |r| ensures r[k] == Shifted(s, j, x, k) { }
    InsertSorted(s, j, x, r);
    InsertContents(s, j, x);
  }

  function Shifted(s: seq<Tx>, j: nat, x: Tx, k: nat): Tx
    requires j <= |s| && k <= |s|
  {
    if k < j then s[k] else if k == j then x else s[k - 1]
  }

  lemma InsertContents(s: seq<Tx>, j: nat, x: Tx)
    requires j <= |s|
    ensures multiset(s[..j] + [x] + s[j..]) == multiset(s) + multiset{x}
  {
    assert s == s[..j] + s[j..];
  }

  lemma InsertSorted(s: seq<Tx>, j: nat, x: Tx, r: seq<Tx>)
    requires j <= |s| && Sorted(s) && |r| == |s| + 1
    requires (forall k :: j <= k < |s| ==> s[k].reward > x.reward) && (j > 0 ==> s[j - 1].reward <= x.reward)
    requires forall k :: 0 <= k < |r| ==> r[k] == Shifted(s, j, x, k)
    ensures Sorted(r)
  {
    forall k | 0 <= k < j ensures s[k].reward <= x.reward { assert s[k].reward <= s[j - 1].reward; }
    forall a, b | 0 <= a < b < |r| ensures r[a].reward <= r[b].reward {
      assert r[a] == Shifted(s, j, x, a) && r[b] == Shifted(s, j, x, b);
    }
  }

  // ---- The sweep -----------------------------------------------------------------------------------------

  /** The gas of the first k + 1 transactions, in 64 bits. */
  function Prefix(s: seq<Tx>, k: nat): uint64
    requires k < |s|
  {
    if k == 0 then s[0].gasUsed else Uint64(Prefix(s, k - 1) + s[k].gasUsed)
  }

  /** The largest of the first i + 1 thresholds. */
  function Highest(thresholds: seq<uint64>, i: nat): uint64
    requires i < |thresholds|
  {
    if i == 0 || Highest(thresholds, i - 1) < thresholds[i] then thresholds[i] else Highest(thresholds, i - 1)
  }

  /** Every prefix before index k falls short of m, and prefix k reaches it or is the last. */
  predicate LeastReaching(s: seq<Tx>, m: uint64, k: nat) {
    && k < |s| && (forall j :: 0 <= j < k ==> Prefix(s, j) < m)
    && (Prefix(s, k) >= m || k == |s| - 1)
  }

  /** At i, the reward at the least index whose prefix reaches the largest threshold so far. */
  predicate SweepsTo(s: seq<Tx>, thresholds: seq<uint64>, i: nat, reward: int)
    requires i < |thresholds|
  {
    exists k :: 0 <= k < |s| && LeastReaching(s, Highest(thresholds, i), k) && reward == s[k].reward
  }

  predicate Swept(s: seq<Tx>, thresholds: seq<uint64>, rewards: seq<int>) {
    |rewards| == |thresholds| && forall i :: 0 <= i < |rewards| ==> SweepsTo(s, thresholds, i, rewards[i])
  }

  /** The two-pointer loop, for thresholds in any order. */
  method Sweep(s: seq<Tx>, thresholds: seq<uint64>) returns (rewards: seq<int>)
    requires s != []
    ensures Swept(s, thresholds, rewards)
  {
    var txIndex := 0;
    var sumGasUsed := s[0].gasUsed;
    rewards := [];
    for i := 0 to |thresholds|
      invariant txIndex < |s| && sumGasUsed == Prefix(s, txIndex) && |rewards| == i
      invariant if i == 0 then txIndex == 0 else LeastReaching(s, Highest(thresholds, i - 1), txIndex)
      invariant forall j :: 0 <= j < i ==> SweepsTo(s, thresholds, j, rewards[j])
    {
      hide SweepsTo, LeastReaching, Highest, Prefix;
      ghost var from := txIndex;
      txIndex, sumGasUsed := Advance(s, txIndex, sumGasUsed, thresholds[i]);
      NextLeast(s, thresholds, i, from, txIndex);
      SweptAt(s, thresholds, i, txIndex);
      rewards := rewards + [s[txIndex].reward];
    }
  }

  /** The inner loop. */
  method Advance(s: seq<Tx>, from: nat, fromSum: uint64, threshold: uint64) returns (txIndex: nat, sumGasUsed: uint64)
    requires from < |s| && fromSum == Prefix(s, from)
    ensures from <= txIndex < |s| && sumGasUsed == Prefix(s, txIndex)
    ensures forall j :: from <= j < txIndex ==> Prefix(s, j) < threshold
    ensures sumGasUsed >= threshold || txIndex == |s| - 1
  {
    txIndex, sumGasUsed := from, fromSum;
    while sumGasUsed < threshold && txIndex < |s| - 1
      invariant from <= txIndex < |s| && sumGasUsed == Prefix(s, txIndex)
      invariant forall j :: from <= j < txIndex ==> Prefix(s, j) < threshold
      decreases |s| - txIndex
    {
      txIndex := txIndex + 1;
      sumGasUsed := Uint64(sumGasUsed + s[txIndex].gasUsed);
    }
  }

  /** Going on from where the last threshold stopped is as good as starting again. */
  lemma NextLeast(s: seq<Tx>, thresholds: seq<uint64>, i: nat, from: nat, k: nat)
    requires i < |thresholds| && from <= k < |s|
    requires if i == 0 then from == 0 else LeastReaching(s, Highest(thresholds, i - 1), from)
    requires forall j :: from <= j < k ==> Prefix(s, j) < thresholds[i]
    requires Prefix(s, k) >= thresholds[i] || k == |s| - 1
    ensures LeastReaching(s, Highest(thresholds, i), k)
  {
    hide Prefix;
  }

  lemma SweptAt(s: seq<Tx>, thresholds: seq<uint64>, i: nat, k: nat)
    requires i < |thresholds| && LeastReaching(s, Highest(thresholds, i), k)
    ensures SweepsTo(s, thresholds, i, s[k].reward)
  {
  }

  // ---- Rewards never decrease ---------------------------------------------------------------------------

  lemma {:induction false} HighestMonotone(thresholds: seq<uint64>, i: nat, j: nat)
    requires i <= j < |thresholds|
    ensures Highest(thresholds, i) <= Highest(thresholds, j) && thresholds[i] <= Highest(thresholds, j)
    decreases j
  {
    if i < j { HighestMonotone(thresholds, i, j - 1); }
  }

  lemma SweepMonotone(s: seq<Tx>, thresholds: seq<uint64>, i: nat, j: nat, ri: int, rj: int)
    requires Sorted(s) && i <= j < |thresholds| && SweepsTo(s, thresholds, i, ri) && SweepsTo(s, thresholds, j, rj)
    ensures ri <= rj
  {
    HighestMonotone(thresholds, i, j);
    var k :| 0 <= k < |s| && LeastReaching(s, Highest(thresholds, i), k) && ri == s[k].reward;
    var l :| 0 <= l < |s| && LeastReaching(s, Highest(thresholds, j), l) && rj == s[l].reward;
    assert k <= l;
  }

  // ---- What the reward means ----------------------------------------------------------------------------

  function Total(txs: seq<Tx>): nat {
    if txs == [] then 0 else Total(txs[..|txs| - 1]) + txs[|txs| - 1].gasUsed
  }

  /** The gas used by the transactions whose reward is at most v. */
  function GasAtMost(txs: seq<Tx>, v: int): nat {
    if txs == [] then 0
    else GasAtMost(txs[..|txs| - 1], v) + if txs[|txs| - 1].reward <= v then txs[|txs| - 1].gasUsed else 0
  }

  predicate IsReward(txs: seq<Tx>, v: int) { exists x :: x in txs && x.reward == v }

  /** v is the least reward such that the transactions rewarded at most v used at least m gas, or the
      largest reward if there is none: the quantile that the percentile stands for, with no order
      among transactions of equal reward. */
  ghost predicate IsQuantile(txs: seq<Tx>, m: nat, v: int) {
    && IsReward(txs, v)
    && (GasAtMost(txs, v) >= m || forall x :: x in txs ==> x.reward <= v)
    && forall x :: x in txs && x.reward < v ==> GasAtMost(txs, x.reward) < m
  }

  lemma QuantileUnique(txs: seq<Tx>, m: nat, v: int, w: int)
    requires IsQuantile(txs, m, v) && IsQuantile(txs, m, w)
    ensures v == w
  {
    hide GasAtMost;
  }

  lemma {:induction false} PrefixIsTotal(s: seq<Tx>, k: nat)
    requires k < |s| && Total(s[..k + 1]) < TWO_64
    ensures Prefix(s, k) == Total(s[..k + 1])
  {
    assert s[..k + 1][..k] == s[..k];
    if k > 0 {
      PrefixIsTotal(s, k - 1);
    } else {
      assert Total(s[..0]) == 0;
    }
  }

  lemma {:induction false} TotalMonotone(s: seq<Tx>, k: nat)
    requires k <= |s|
    ensures Total(s[..k]) <= Total(s)
  {
    if k < |s| {
      var front := s[..|s| - 1];
      TotalMonotone(front, k);
      assert front[..k] == s[..k];
    } else {
      assert s[..k] == s;
    }
  }

  lemma {:induction false} AllAtMost(s: seq<Tx>, v: int)
    requires forall j :: 0 <= j < |s| ==> s[j].reward <= v
    ensures GasAtMost(s, v) == Total(s)
  {
    if s != [] { AllAtMost(s[..|s| - 1], v); }
  }

  /** In sorted order, the first k + 1 are rewarded at most what k is. */
  lemma {:induction false} AtMostReaches(s: seq<Tx>, k: nat)
    requires Sorted(s) && k < |s|
    ensures GasAtMost(s, s[k].reward) >= Total(s[..k + 1])
    decreases |s|
  {
    if k == |s| - 1 {
      assert s[..k + 1] == s;
      AllAtMost(s, s[k].reward);
    } else {
      var front := s[..|s| - 1];
      AtMostReaches(front, k);
      assert front[..k + 1] == s[..k + 1];
    }
  }

  /** And only those before k can be rewarded less. */
  lemma {:induction false} LessStaysBelow(s: seq<Tx>, k: nat, v: int)
    requires Sorted(s) && k < |s| && v < s[k].reward
    ensures GasAtMost(s, v) <= Total(s[..k])
    decreases |s|
  {
    var front := s[..|s| - 1];
    assert front[..k] == s[..k];
    if k == |s| - 1 {
      AtMostBelowTotal(front, v);
    } else {
      LessStaysBelow(front, k, v);
      assert s[k].reward <= s[|s| - 1].reward;
    }
  }

  lemma {:induction false} AtMostBelowTotal(s: seq<Tx>, v: int)
    ensures GasAtMost(s, v) <= Total(s)
  {
    if s != [] { AtMostBelowTotal(s[..|s| - 1], v); }
  }

  lemma LeastReachingIsQuantile(s: seq<Tx>, m: uint64, k: nat)
    requires Sorted(s) && Total(s) < TWO_64 && LeastReaching(s, m, k)
    ensures IsQuantile(s, m, s[k].reward)
  {
    hide GasAtMost, Total, Prefix;
    var v := s[k].reward;
    TotalMonotone(s, k + 1);
    PrefixIsTotal(s, k);
    AtMostReaches(s, k);
    assert s[k] in s;
    forall x | x in s && x.reward < v ensures GasAtMost(s, x.reward) < m {
      var j :| 0 <= j < |s| && s[j] == x;
      LessStaysBelow(s, k, x.reward);
      TotalMonotone(s, k);
      PrefixIsTotal(s, k - 1);
      assert Prefix(s, k - 1) < m;
    }
  }

  // ---- Any order of equal rewards will do -------------------------------------------------------------------

  lemma {:induction false} RemoveGas(s: seq<Tx>, j: nat, v: int)
    requires j < |s|
    ensures GasAtMost(s, v) == GasAtMost(s[..j] + s[j + 1..], v) + if s[j].reward <= v then s[j].gasUsed else 0
    ensures Total(s) == Total(s[..j] + s[j + 1..]) + s[j].gasUsed
    decreases |s|
  {
    var rest := s[..j] + s[j + 1..];
    if j == |s| - 1 {
      assert rest == s[..j];
    } else {
      var front := s[..|s| - 1];
      RemoveGas(front, j, v);
      assert rest[..|rest| - 1] == front[..j] + front[j + 1..];
    }
  }

  lemma RemoveElement(s: seq<Tx>, j: nat)
    requires j < |s|
    ensures multiset(s[..j] + s[j + 1..]) == multiset(s) - multiset{s[j]}
  {
    assert s == s[..j] + [s[j]] + s[j + 1..];
  }

  lemma {:induction false} SameGas(a: seq<Tx>, b: seq<Tx>, v: int)
    requires multiset(a) == multiset(b)
    ensures GasAtMost(a, v) == GasAtMost(b, v) && Total(a) == Total(b)
    decreases |a|
  {
    assert |multiset(a)| == |multiset(b)|;
    if a != [] {
      var n := |a| - 1;
      assert a[n] in multiset(b);
      var j :| 0 <= j < |b| && b[j] == a[n];
      var b' := b[..j] + b[j + 1..];
      RemoveElement(a, n);
      RemoveElement(b, j);
      assert a[..n] + a[n + 1..] == a[..n];
      RemoveGas(b, j, v);
      SameGas(a[..n], b', v);
    }
  }

  lemma SameQuantile(txs: seq<Tx>, s: seq<Tx>, m: nat, v: int)
    requires multiset(s) == multiset(txs) && IsQuantile(s, m, v)
    ensures IsQuantile(txs, m, v)
  {
    hide GasAtMost;
    assert forall x :: x in txs <==> x in multiset(txs);
    assert forall x :: x in s <==> x in multiset(s);
    forall w { SameGas(s, txs, w); }
  }

  /** processBlock, from the gathered transactions on. */
  method Rewards(txs: seq<Tx>, thresholds: seq<uint64>) returns (rewards: seq<int>)
    ensures |rewards| == |thresholds|
    ensures txs == [] ==> forall i :: 0 <= i < |rewards| ==> rewards[i] == 0
    ensures forall i, j :: 0 <= i <= j < |rewards| ==> rewards[i] <= rewards[j]
    ensures txs != [] ==> exists s :: IsSorting(txs, s) && Swept(s, thresholds, rewards)
    ensures txs != [] && Total(txs) < TWO_64 ==> forall i :: 0 <= i < |rewards| ==> IsQuantile(txs, Highest(thresholds, i), rewards[i])
  {
    hide Highest, Total, IsQuantile, SweepsTo, IsSorting;
    if txs == [] { return seq(|thresholds|, _ => 0); }
    var s := SortByReward(txs);
    rewards := Sweep(s, thresholds);
    SortingSorted(txs, s);
    forall i, j | 0 <= i <= j < |rewards| ensures rewards[i] <= rewards[j] {
      SweepMonotone(s, thresholds, i, j, rewards[i], rewards[j]);
    }
    if Total(txs) < TWO_64 {
      forall i | 0 <= i < |rewards| ensures IsQuantile(txs, Highest(thresholds, i), rewards[i]) {
        SweptIsQuantile(txs, s, thresholds, i, rewards[i]);
      }
    }
  }

  lemma SortingSorted(txs: seq<Tx>, s: seq<Tx>)
    requires IsSorting(txs, s)
    ensures Sorted(s)
  {
  }

  lemma SweptIsQuantile(txs: seq<Tx>, s: seq<Tx>, thresholds: seq<uint64>, i: nat, reward: int)
    requires IsSorting(txs, s) && Total(txs) < TWO_64 && i < |thresholds| && SweepsTo(s, thresholds, i, reward)
    ensures IsQuantile(txs, Highest(thresholds, i), reward)
  {
    hide Highest, IsQuantile, Sorted, LeastReaching;
    SameGas(s, txs, 0);
    var k :| 0 <= k < |s| && LeastReaching(s, Highest(thresholds, i), k) && reward == s[k].reward;
    LeastReachingIsQuantile(s, Highest(thresholds, i), k);
    SameQuantile(txs, s, Highest(thresholds, i), reward);
  }
}

/** Shards of symbols balanced by message rate (collector/sharding.py). */
module Sharder {
  import opened Common
  import opened Wrappers
  import opened Listings

  predicate ByName(a: Symbol, b: Symbol) {
    a <= b
  }

  // ---- Loads and spreads -------------------------------------------------------------------------

  function Load(shard: seq<Symbol>, rate: Symbol -> int): int {
    if shard == [] then 0 else Load(shard[..|shard| - 1], rate) + rate(shard[|shard| - 1])
  }

  function Loads(shards: seq<seq<Symbol>>, rate: Symbol -> int): (r: seq<int>)
    ensures |r| == |shards| && forall k :: 0 <= k < |r| ==> r[k] == Load(shards[k], rate)
  {
    seq(|shards|, (k: nat) requires k < |shards| => Load(shards[k], rate))
  }

  function Largest(xs: seq<int>): (m: int)
    requires xs != []
    ensures m in xs && forall k :: 0 <= k < |xs| ==> xs[k] <= m
  {
    if |xs| == 1 then xs[0]
    else
      var m := Largest(xs[..|xs| - 1]);
      assert forall k :: 0 <= k < |xs| - 1 ==> xs[k] == xs[..|xs| - 1][k];
      if xs[|xs| - 1] > m then xs[|xs| - 1] else m
  }

  function Least(xs: seq<int>): (m: int)
    requires xs != []
    ensures m in xs && forall k :: 0 <= k < |xs| ==> m <= xs[k]
  {
    if |xs| == 1 then xs[0]
    else
      var m := Least(xs[..|xs| - 1]);
      assert forall k :: 0 <= k < |xs| - 1 ==> xs[k] == xs[..|xs| - 1][k];
      if xs[|xs| - 1] < m then xs[|xs| - 1] else m
  }

  function Spread(loads: seq<int>): (r: nat)
    requires loads != []
  {
    var least, largest := Least(loads), Largest(loads);
    assert least <= loads[0] <= largest;
    largest - least
  }

  // ---- Swaps -------------------------------------------------------------------------------------

  /** Exchange symbol i of shard left with symbol j of shard right. */
  datatype Swap = Swap(left: nat, right: nat, i: nat, j: nat)

  predicate Fits(shards: seq<seq<Symbol>>, s: Swap) {
    s.left < s.right < |shards| && s.i < |shards[s.left]| && s.j < |shards[s.right]|
  }

  function Without(shard: seq<Symbol>, i: nat): seq<Symbol>
    requires i < |shard|
  {
    shard[..i] + shard[i + 1..]
  }

  function Swapped(shards: seq<seq<Symbol>>, s: Swap): (r: seq<seq<Symbol>>)
    requires Fits(shards, s)
    ensures |r| == |shards| && forall k :: 0 <= k < |r| ==> |r[k]| == |shards[k]|
  {
    shards[s.left := Without(shards[s.left], s.i) + [shards[s.right][s.j]]]
          [s.right := Without(shards[s.right], s.j) + [shards[s.left][s.i]]]
  }

  function LoadsAfter(shards: seq<seq<Symbol>>, loads: seq<int>, s: Swap, rate: Symbol -> int): (r: seq<int>)
    requires Fits(shards, s) && |loads| == |shards|
    ensures |r| == |loads|
  {
    var a, b := rate(shards[s.left][s.i]), rate(shards[s.right][s.j]);
    loads[s.left := loads[s.left] - a + b][s.right := loads[s.right] - b + a]
  }

  function SpreadAfter(shards: seq<seq<Symbol>>, loads: seq<int>, s: Swap, rate: Symbol -> int): nat
    requires Fits(shards, s) && |loads| == |shards|
  {
    Spread(LoadsAfter(shards, loads, s, rate))
  }

  lemma {:induction false} LoadSplits(a: seq<Symbol>, b: seq<Symbol>, rate: Symbol -> int)
    ensures Load(a + b, rate) == Load(a, rate) + Load(b, rate)
  {
    if b == [] {
      assert a + b == a;
    } else {
      LoadSplits(a, b[..|b| - 1], rate);
      assert (a + b)[..|a + b| - 1] == a + b[..|b| - 1];
    }
  }

  lemma {:induction false} LoadWithout(shard: seq<Symbol>, i: nat, rate: Symbol -> int)
    requires i < |shard|
    ensures Load(Without(shard, i), rate) == Load(shard, rate) - rate(shard[i])
  {
    assert shard == shard[..i] + [shard[i]] + shard[i + 1..];
    LoadSplits(shard[..i] + [shard[i]], shard[i + 1..], rate);
    LoadSplits(shard[..i], [shard[i]], rate);
    LoadSplits(shard[..i], shard[i + 1..], rate);
    assert [shard[i]][..0] == [];
  }

  lemma {:induction false} ExchangeLoad(shard: seq<Symbol>, i: nat, other: Symbol, rate: Symbol -> int)
    requires i < |shard|
    ensures Load(Without(shard, i) + [other], rate) == Load(shard, rate) - rate(shard[i]) + rate(other)
  {
    LoadWithout(shard, i, rate);
    LoadSplits(Without(shard, i), [other], rate);
    assert [other][..0] == [];
  }

  /** The loads that the search predicts are the rate sums of the swapped shards. */
  lemma {:induction false} SwapKeepsLoads(shards: seq<seq<Symbol>>, s: Swap, rate: Symbol -> int)
    requires Fits(shards, s)
    ensures LoadsAfter(shards, Loads(shards, rate), s, rate) == Loads(Swapped(shards, s), rate)
  {
    ExchangeLoad(shards[s.left], s.i, shards[s.right][s.j], rate);
    ExchangeLoad(shards[s.right], s.j, shards[s.left][s.i], rate);
    hide Load, Without;
  }

  // ---- Partitions --------------------------------------------------------------------------------

  /** The shards hold each assigned symbol once, in its shard, and nothing else. */
  ghost predicate Follows(shards: seq<seq<Symbol>>, home: map<Symbol, nat>) {
    && (forall k :: 0 <= k < |shards| ==> NoRepeats(shards[k]))
    && (forall k, i :: 0 <= k < |shards| && 0 <= i < |shards[k]| ==> shards[k][i] in home && home[shards[k][i]] == k)
    && (forall s :: s in home ==> home[s] < |shards| && s in shards[home[s]])
  }

  function Reassigned(shards: seq<seq<Symbol>>, s: Swap, home: map<Symbol, nat>): map<Symbol, nat>
    requires Fits(shards, s)
  {
    home[shards[s.left][s.i] := s.right][shards[s.right][s.j] := s.left]
  }

  lemma {:induction false} WithoutFacts(shard: seq<Symbol>, i: nat, extra: Symbol)
    requires i < |shard| && NoRepeats(shard) && extra !in shard
    ensures var r := Without(shard, i) + [extra];
            NoRepeats(r) && forall s :: s in r <==> s == extra || (s in shard && s != shard[i])
  {
    var w := Without(shard, i);
    forall s
      ensures s in w <==> s in shard && s != shard[i]
    {
      if s in shard && s != shard[i] {
        var k :| 0 <= k < |shard| && shard[k] == s;
        assert w[if k < i then k else k - 1] == s;
      }
    }
  }

  lemma InOneShard(shards: seq<seq<Symbol>>, home: map<Symbol, nat>, k: nat, x: Symbol)
    requires Follows(shards, home) && k < |shards|
    ensures x in shards[k] <==> x in home && home[x] == k
  {
    if x in shards[k] {
      var i :| 0 <= i < |shards[k]| && shards[k][i] == x;
    }
  }

  predicate AtHome(shard: seq<Symbol>, home: map<Symbol, nat>, k: int, x: Symbol) {
    x in shard <==> x in home && home[x] == k
  }

  lemma {:induction false} FollowsBySets(shards: seq<seq<Symbol>>, home: map<Symbol, nat>)
    requires forall k :: 0 <= k < |shards| ==> NoRepeats(shards[k])
    requires forall k, x :: 0 <= k < |shards| ==> AtHome(shards[k], home, k, x)
    requires forall x :: x in home ==> home[x] < |shards|
    ensures Follows(shards, home)
  {
    forall k, i | 0 <= k < |shards| && 0 <= i < |shards[k]|
      ensures shards[k][i] in home && home[shards[k][i]] == k
    {
      assert AtHome(shards[k], home, k, shards[k][i]);
    }
    forall x | x in home
      ensures x in shards[home[x]]
    {
      assert AtHome(shards[home[x]], home, home[x], x);
    }
  }

  lemma {:induction false} SwapKeepsPartition(shards: seq<seq<Symbol>>, s: Swap, home: map<Symbol, nat>)
    requires Fits(shards, s) && Follows(shards, home)
    ensures Follows(Swapped(shards, s), Reassigned(shards, s, home))
    ensures Reassigned(shards, s, home).Keys == home.Keys
  {
    var a, b := shards[s.left][s.i], shards[s.right][s.j];
    var r, moved := Swapped(shards, s), Reassigned(shards, s, home);
    InOneShard(shards, home, s.left, b);
    InOneShard(shards, home, s.right, a);
    WithoutFacts(shards[s.left], s.i, b);
    WithoutFacts(shards[s.right], s.j, a);
    hide Without;
    forall k, x | 0 <= k < |r|
      ensures AtHome(r[k], moved, k, x)
    {
      InOneShard(shards, home, k, x);
    }
    FollowsBySets(r, moved);
  }

  // ---- The search for the best swap ----------------------------------------------------------------

  /** Swaps that the nested loops have passed at a position. */
  predicate Passed(s: Swap, left: int, right: int, i: int, j: int) {
    || s.left < left
    || (s.left == left && (s.right < right || (s.right == right && (s.i < i || (s.i == i && s.j < j)))))
  }

  predicate Before(s: Swap, t: Swap) {
    Passed(s, t.left, t.right, t.i, t.j)
  }

  ghost predicate BestSoFar(shards: seq<seq<Symbol>>, loads: seq<int>, rate: Symbol -> int, best: Option<Swap>, bestSpread: nat,
                            left: int, right: int, i: int, j: int)
    requires |loads| == |shards| && loads != []
  {
    && (best.None? ==> bestSpread == Spread(loads))
    && (best.Some? ==> Fits(shards, best.value) && bestSpread == SpreadAfter(shards, loads, best.value, rate) < Spread(loads))
    && (best.Some? ==> forall s :: Fits(shards, s) && Before(s, best.value) ==> bestSpread < SpreadAfter(shards, loads, s, rate))
    && (forall s :: Fits(shards, s) && Passed(s, left, right, i, j) ==> bestSpread <= SpreadAfter(shards, loads, s, rate))
  }

  /** No pair of symbols in two shards would, exchanged, bring the loads closer. */
  ghost predicate LocallyOptimal(shards: seq<seq<Symbol>>, loads: seq<int>, rate: Symbol -> int)
    requires |loads| == |shards| && loads != []
  {
    forall s :: Fits(shards, s) ==> Spread(loads) <= SpreadAfter(shards, loads, s, rate)
  }

  /** The swap that lowers the spread most; among equals, the first by shards and positions. */
  ghost predicate Best(shards: seq<seq<Symbol>>, loads: seq<int>, rate: Symbol -> int, s: Swap)
    requires |loads| == |shards| && loads != []
  {
    && Fits(shards, s) && SpreadAfter(shards, loads, s, rate) < Spread(loads)
    && (forall t :: Fits(shards, t) ==> SpreadAfter(shards, loads, s, rate) <= SpreadAfter(shards, loads, t, rate))
    && (forall t :: Fits(shards, t) && Before(t, s) ==> SpreadAfter(shards, loads, s, rate) < SpreadAfter(shards, loads, t, rate))
  }

  /** The best swap, if any lowers the spread. */
  method FindBestSwap(shards: seq<seq<Symbol>>, loads: seq<int>, rate: Symbol -> int) returns (best: Option<Swap>)
    requires |loads| == |shards| && loads != []
    ensures best.None? <==> LocallyOptimal(shards, loads, rate)
    ensures best.Some? ==> Best(shards, loads, rate, best.value)
  {
    hide Spread, SpreadAfter, LoadsAfter;
    best := None;
    var bestSpread := Spread(loads);
    var left := 0;
    while left < |shards|
      invariant 0 <= left <= |shards|
      invariant BestSoFar(shards, loads, rate, best, bestSpread, left, 0, 0, 0)
    {
      var right := left + 1;
      assert forall s: Swap :: Fits(shards, s) && Passed(s, left, right, 0, 0) ==> Passed(s, left, 0, 0, 0);
      while right < |shards|
        invariant left < right <= |shards|
        invariant BestSoFar(shards, loads, rate, best, bestSpread, left, right, 0, 0)
      {
        best, bestSpread := ScanPair(shards, loads, rate, left, right, best, bestSpread);
        right := right + 1;
      }
      assert forall s: Swap :: Fits(shards, s) && Passed(s, left + 1, 0, 0, 0) ==> Passed(s, left, right, 0, 0);
      left := left + 1;
    }
    assert forall s: Swap :: Fits(shards, s) ==> Passed(s, left, 0, 0, 0);
    if best.Some? {
      assert !LocallyOptimal(shards, loads, rate);
    }
  }

  /** The two inner loops: all pairs of symbols of two shards. */
  method ScanPair(shards: seq<seq<Symbol>>, loads: seq<int>, rate: Symbol -> int, left: nat, right: nat, best0: Option<Swap>, spread0: nat)
    returns (best: Option<Swap>, bestSpread: nat)
    requires |loads| == |shards| && left < right < |shards|
    requires BestSoFar(shards, loads, rate, best0, spread0, left, right, 0, 0)
    ensures BestSoFar(shards, loads, rate, best, bestSpread, left, right + 1, 0, 0)
  {
    hide Spread, SpreadAfter, LoadsAfter;
    best, bestSpread := best0, spread0;
    var i := 0;
    while i < |shards[left]|
      invariant 0 <= i <= |shards[left]|
      invariant BestSoFar(shards, loads, rate, best, bestSpread, left, right, i, 0)
    {
      var j := 0;
      while j < |shards[right]|
        invariant 0 <= j <= |shards[right]|
        invariant BestSoFar(shards, loads, rate, best, bestSpread, left, right, i, j)
      {
        var s := Swap(left, right, i, j);
        var spread := SpreadAfter(shards, loads, s, rate);
        assert forall t: Swap :: Passed(t, left, right, i, j + 1) ==> t == s || Passed(t, left, right, i, j);
        if spread < bestSpread {
          best, bestSpread := Some(s), spread;
        }
        j := j + 1;
      }
      assert forall t: Swap :: Fits(shards, t) && Passed(t, left, right, i + 1, 0) ==> Passed(t, left, right, i, j);
      i := i + 1;
    }
    assert forall t: Swap :: Fits(shards, t) && Passed(t, left, right + 1, 0, 0) ==> Passed(t, left, right, i, 0);
  }

  // ---- Improving ---------------------------------------------------------------------------------

  ghost predicate Lowers(shards: seq<seq<Symbol>>, s: Swap, rate: Symbol -> int) {
    shards != [] && Best(shards, Loads(shards, rate), rate, s)
  }

  /** Swaps, each the best at its turn, lead from one sharding to another. */
  ghost predicate Improves(before: seq<seq<Symbol>>, after: seq<seq<Symbol>>, rate: Symbol -> int, swaps: seq<Swap>)
    decreases swaps
  {
    if swaps == [] then after == before
    else Lowers(before, swaps[0], rate) && Improves(Swapped(before, swaps[0]), after, rate, swaps[1..])
  }

  lemma {:induction false} OneMoreSwap(before: seq<seq<Symbol>>, after: seq<seq<Symbol>>, rate: Symbol -> int, swaps: seq<Swap>, s: Swap)
    requires Improves(before, after, rate, swaps) && Lowers(after, s, rate)
    ensures Improves(before, Swapped(after, s), rate, swaps + [s])
    decreases swaps
  {
    hide *;
    LoweringFits(after, s, rate);
    if swaps == [] {
      NoSwapsMeansSame(before, after, rate);
      NoSwap(Swapped(before, s), rate);
      assert [] + [s] == [s] && [s][1..] == [];
      FirstSwap(before, Swapped(after, s), rate, swaps + [s]);
    } else {
      assert (swaps + [s])[1..] == swaps[1..] + [s];
      AfterFirstSwap(before, after, rate, swaps);
      OneMoreSwap(Swapped(before, swaps[0]), after, rate, swaps[1..], s);
      FirstSwap(before, Swapped(after, s), rate, swaps + [s]);
    }
  }

  lemma NoSwapsMeansSame(before: seq<seq<Symbol>>, after: seq<seq<Symbol>>, rate: Symbol -> int)
    requires Improves(before, after, rate, [])
    ensures before == after
  {
  }

  lemma AfterFirstSwap(before: seq<seq<Symbol>>, after: seq<seq<Symbol>>, rate: Symbol -> int, swaps: seq<Swap>)
    requires Improves(before, after, rate, swaps) && swaps != []
    ensures Fits(before, swaps[0]) && Lowers(before, swaps[0], rate) && Improves(Swapped(before, swaps[0]), after, rate, swaps[1..])
  {
  }

  lemma FirstSwap(before: seq<seq<Symbol>>, after: seq<seq<Symbol>>, rate: Symbol -> int, swaps: seq<Swap>)
    requires swaps != [] && Fits(before, swaps[0])
    requires Lowers(before, swaps[0], rate) && Improves(Swapped(before, swaps[0]), after, rate, swaps[1..])
    ensures Improves(before, after, rate, swaps)
  {
  }

  lemma LoweringFits(shards: seq<seq<Symbol>>, s: Swap, rate: Symbol -> int)
    requires Lowers(shards, s, rate)
    ensures Fits(shards, s)
  {
  }

  lemma {:induction false} OneSwapKeeps(before: seq<seq<Symbol>>, s: Swap, rate: Symbol -> int, home: map<Symbol, nat>)
    requires Lowers(before, s, rate) && Follows(before, home)
    ensures Follows(Swapped(before, s), Reassigned(before, s, home)) && Reassigned(before, s, home).Keys == home.Keys
    ensures Spread(Loads(Swapped(before, s), rate)) < Spread(Loads(before, rate))
    ensures Sizes(Swapped(before, s)) == Sizes(before)
  {
    LoweringFits(before, s, rate);
    hide Follows, Reassigned, Spread, Loads, LoadsAfter, Load;
    SwapKeepsPartition(before, s, home);
    SwapKeepsLoads(before, s, rate);
  }

  function Sizes(shards: seq<seq<Symbol>>): (r: seq<nat>)
    ensures |r| == |shards| && forall k :: 0 <= k < |r| ==> r[k] == |shards[k]|
  {
    seq(|shards|, (k: nat) requires k < |shards| => |shards[k]|)
  }

  /**
   * What improving keeps and gains, whatever the number of swaps: each symbol in one shard, the shards' sizes, and a
   * spread that falls with every swap, which is why the search ends.
   */
  lemma {:induction false} ImprovingKeeps(before: seq<seq<Symbol>>, after: seq<seq<Symbol>>, rate: Symbol -> int, swaps: seq<Swap>, home: map<Symbol, nat>)
    returns (moved: map<Symbol, nat>)
    requires Improves(before, after, rate, swaps) && Follows(before, home) && before != []
    ensures Follows(after, moved) && moved.Keys == home.Keys
    ensures Sizes(after) == Sizes(before) && after != []
    ensures Spread(Loads(after, rate)) + |swaps| <= Spread(Loads(before, rate))
    decreases swaps
  {
    if swaps == [] {
      moved := home;
    } else {
      OneSwapKeeps(before, swaps[0], rate, home);
      LoweringFits(before, swaps[0], rate);
      hide Spread, Follows, Loads, Lowers;
      moved := ImprovingKeeps(Swapped(before, swaps[0]), after, rate, swaps[1..], Reassigned(before, swaps[0], home));
    }
  }

  lemma NoSwap(shards: seq<seq<Symbol>>, rate: Symbol -> int)
    ensures Improves(shards, shards, rate, [])
  {
  }

  lemma FallingSpread(shards: seq<seq<Symbol>>, loads: seq<int>, s: Swap, rate: Symbol -> int)
    requires Fits(shards, s) && |loads| == |shards| && SpreadAfter(shards, loads, s, rate) < Spread(loads)
    ensures Spread(LoadsAfter(shards, loads, s, rate)) < Spread(loads)
  {
  }
}

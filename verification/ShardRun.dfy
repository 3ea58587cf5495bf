/** TrafficSharder (collector/sharding.py): assignments survive between calls, new symbols fill up, swaps balance. */
module ShardRun {
  import opened Common
  import opened Wrappers
  import opened Sorting
  import opened Listings
  import opened Sharder

  // ---- Counting ----------------------------------------------------------------------------------

  function TotalSize(shards: seq<seq<Symbol>>): nat {
    if shards == [] then 0 else TotalSize(shards[..|shards| - 1]) + |shards[|shards| - 1]|
  }

  function Flat(shards: seq<seq<Symbol>>): (r: seq<Symbol>)
    ensures |r| == TotalSize(shards)
  {
    if shards == [] then [] else Flat(shards[..|shards| - 1]) + shards[|shards| - 1]
  }

  /** A partition's shards hold as many symbols as are assigned. */
  lemma {:induction false} SizesAddUp(shards: seq<seq<Symbol>>, home: map<Symbol, nat>)
    requires Follows(shards, home)
    ensures TotalSize(shards) == |home|
  {
    if shards == [] {
      assert forall x :: x !in home;
    } else {
      var n := |shards| - 1;
      var front, last := shards[..n], shards[n];
      var rest := map x | x in home && home[x] != n :: home[x];
      forall x | x in rest
        ensures rest[x] < |front| && x in front[rest[x]]
      {
        assert x in shards[home[x]];
      }
      SizesAddUp(front, rest);
      NoRepeatsSize(last);
      forall x
        ensures x in last <==> x in home && home[x] == n
      {
        InOneShard(shards, home, n, x);
      }
      assert home.Keys == rest.Keys + Elements(last);
      assert rest.Keys !! Elements(last);
    }
  }

  lemma {:induction false} AllFull(shards: seq<seq<Symbol>>, limit: nat)
    requires forall k :: 0 <= k < |shards| ==> limit <= |shards[k]|
    ensures limit * |shards| <= TotalSize(shards)
  {
    if shards != [] {
      AllFull(shards[..|shards| - 1], limit);
    }
  }

  /** Fewer symbols than the shards may hold together. */
  predicate HasRoom(symbols: nat, limit: nat, shards: nat) {
    symbols < limit * shards
  }

  lemma FewerHaveRoom(a: set<Symbol>, b: set<Symbol>, x: Symbol, limit: nat, shards: nat)
    requires a <= b && x in b && x !in a && HasRoom(|b|, limit, shards)
    ensures HasRoom(|a|, limit, shards)
  {
    FewerThan(a, b, x);
  }

  /** One more than an even share, rounded up. */
  function MaxSymbols(symbols: nat, shards: nat): nat
    requires shards > 0
  {
    (symbols + shards - 1) / shards + 1
  }

  lemma MaxSymbolsLeaveRoom(a: nat, n: nat)
    requires n > 0
    ensures HasRoom(a, MaxSymbols(a, n), n)
  {
    var q := (a + n - 1) / n;
    assert a + n - 1 == q * n + (a + n - 1) % n;
    assert (q + 1) * n == q * n + n;
  }

  // ---- Appending a symbol ------------------------------------------------------------------------

  lemma {:induction false} AppendKeepsLoads(shards: seq<seq<Symbol>>, k: nat, x: Symbol, rate: Symbol -> int)
    requires k < |shards|
    ensures Loads(shards[k := shards[k] + [x]], rate) == Loads(shards, rate)[k := Loads(shards, rate)[k] + rate(x)]
  {
    LoadSplits(shards[k], [x], rate);
    assert [x][..0] == [];
  }

  lemma {:induction false} AppendKeeps(shards: seq<seq<Symbol>>, home: map<Symbol, nat>, k: nat, x: Symbol)
    requires Follows(shards, home) && k < |shards| && x !in home
    ensures Follows(shards[k := shards[k] + [x]], home[x := k])
  {
    var r := shards[k := shards[k] + [x]];
    InOneShard(shards, home, k, x);
    forall y | y in home
      ensures y in r[home[y]]
    {
      assert y in shards[home[y]];
    }
    assert x in r[k];
  }

  lemma {:induction false} NextElement(xs: seq<Symbol>, i: nat)
    requires NoRepeats(xs) && i < |xs|
    ensures xs[i] in Elements(xs) && xs[i] !in Elements(xs[..i])
    ensures Elements(xs[..i + 1]) == Elements(xs[..i]) + {xs[i]} && Elements(xs[..i]) <= Elements(xs)
  {
    assert xs[..i + 1] == xs[..i] + [xs[i]];
  }

  lemma {:induction false} FirstElement(xs: seq<Symbol>, i: nat)
    requires NoRepeats(xs) && i < |xs|
    ensures xs[i] in Elements(xs[i..]) && Elements(xs[i + 1..]) == Elements(xs[i..]) - {xs[i]}
  {
    assert xs[i..] == [xs[i]] + xs[i + 1..];
  }

  // ---- Where new symbols go ------------------------------------------------------------------------

  /** No shard with a new symbol is larger than the limit. */
  ghost predicate WithinLimit(shards: seq<seq<Symbol>>, added: set<Symbol>, limit: nat) {
    forall k, x :: 0 <= k < |shards| && x in shards[k] && x in added ==> |shards[k]| <= limit
  }

  /**
   * One of a shard's new symbols, none of them less busy, without which the shard carries no more than any shard that has
   * room left.
   */
  ghost predicate TakenLast(shards: seq<seq<Symbol>>, added: set<Symbol>, limit: nat, rate: Symbol -> int, k: nat, x: Symbol)
    requires k < |shards|
  {
    && x in shards[k] && x in added
    && (forall y :: y in shards[k] && y in added ==> rate(x) <= rate(y))
    && (forall j :: 0 <= j < |shards| && |shards[j]| < limit ==> Loads(shards, rate)[k] - rate(x) <= Loads(shards, rate)[j])
  }

  /** The symbols that have no shard to stay in. */
  function AddedTo(assignments: map<Symbol, nat>, instruments: seq<Symbol>, shards: nat): set<Symbol> {
    set x | x in instruments && !(x in assignments && assignments[x] < shards)
  }

  function Surviving(assignments: map<Symbol, nat>, active: set<Symbol>, shards: nat): (r: map<Symbol, nat>)
    ensures forall x :: x in r <==> x in assignments && x in active && assignments[x] < shards
    ensures forall x :: x in r ==> r[x] == assignments[x]
  {
    map x | x in assignments && x in active && assignments[x] < shards :: assignments[x]
  }

  lemma OthersAreAdded(assignments: map<Symbol, nat>, instruments: seq<Symbol>, shards: nat)
    ensures Elements(instruments) - Surviving(assignments, Elements(instruments), shards).Keys == AddedTo(assignments, instruments, shards)
  {
  }

  predicate TakesNew(shards: seq<seq<Symbol>>, added: set<Symbol>, k: nat)
    requires k < |shards|
  {
    exists x :: x in shards[k] && x in added
  }

  ghost predicate SpreadEvenly(shards: seq<seq<Symbol>>, added: set<Symbol>, limit: nat, rate: Symbol -> int) {
    forall k :: 0 <= k < |shards| && TakesNew(shards, added, k) ==> exists x :: TakenLast(shards, added, limit, rate, k, x)
  }

  /** Among the shards with room, one that carries least. */
  ghost predicate LeastLoaded(shards: seq<seq<Symbol>>, limit: nat, rate: Symbol -> int, k: nat) {
    && k < |shards| && |shards[k]| < limit
    && forall j :: 0 <= j < |shards| && |shards[j]| < limit ==> Loads(shards, rate)[k] <= Loads(shards, rate)[j]
  }

  lemma {:induction false} PlacingSpreadsEvenly(shards: seq<seq<Symbol>>, added: set<Symbol>, limit: nat, rate: Symbol -> int, k: nat, x: Symbol)
    requires SpreadEvenly(shards, added, limit, rate) && LeastLoaded(shards, limit, rate, k) && x in added && 0 <= rate(x)
    requires forall y :: y in shards[k] && y in added ==> rate(x) <= rate(y)
    ensures SpreadEvenly(shards[k := shards[k] + [x]], added, limit, rate)
  {
    var r := shards[k := shards[k] + [x]];
    AppendKeepsLoads(shards, k, x, rate);
    hide Loads;
    forall h | 0 <= h < |r| && TakesNew(r, added, h)
      ensures exists y :: TakenLast(r, added, limit, rate, h, y)
    {
      if h == k {
        assert TakenLast(r, added, limit, rate, h, x);
      } else {
        assert TakesNew(shards, added, h);
        var y :| TakenLast(shards, added, limit, rate, h, y);
        assert TakenLast(r, added, limit, rate, h, y);
      }
    }
  }

  /**
   * Where a call puts the symbols that have no shard: in shards of at most one symbol more than an even share, and on later
   * calls always in the least loaded shard with room, the busiest symbols first.
   */
  ghost predicate PlacedWell(shards: seq<seq<Symbol>>, instruments: seq<Symbol>, before: map<Symbol, nat>, rate: Symbol -> int)
    requires shards != []
  {
    var n := |shards|;
    var limit := (|Elements(instruments)| + n - 1) / n + 1;
    var added := AddedTo(before, instruments, n);
    && WithinLimit(shards, added, limit)
    && (before != map[] && NonNegative(rate, Elements(instruments)) ==> SpreadEvenly(shards, added, limit, rate))
  }

  lemma PlacesWell(shards: seq<seq<Symbol>>, instruments: seq<Symbol>, before: map<Symbol, nat>, rate: Symbol -> int, limit: nat)
    requires shards != [] && limit == MaxSymbols(|Elements(instruments)|, |shards|)
    requires WithinLimit(shards, AddedTo(before, instruments, |shards|), limit)
    requires before != map[] && NonNegative(rate, Elements(instruments)) ==> SpreadEvenly(shards, AddedTo(before, instruments, |shards|), limit, rate)
    ensures PlacedWell(shards, instruments, before, rate)
  {
    hide WithinLimit, SpreadEvenly, AddedTo, NonNegative;
  }

  lemma LeastLoadedHasRoom(shards: seq<seq<Symbol>>, limit: nat, rate: Symbol -> int, k: nat)
    requires LeastLoaded(shards, limit, rate, k)
    ensures k < |shards| && |shards[k]| < limit
  {
  }

  lemma {:induction false} PlacingStaysWithin(shards: seq<seq<Symbol>>, home: map<Symbol, nat>, added: set<Symbol>, limit: nat, k: nat, x: Symbol)
    requires WithinLimit(shards, added, limit) && k < |shards| && |shards[k]| < limit && Follows(shards, home) && x !in home
    ensures WithinLimit(shards[k := shards[k] + [x]], added, limit)
  {
    var r := shards[k := shards[k] + [x]];
    forall h, y | 0 <= h < |r| && y in r[h] && y in added
      ensures |r[h]| <= limit
    {
      if h != k {
        assert y in shards[h];
      }
    }
  }

  predicate NonNegative(rate: Symbol -> int, symbols: set<Symbol>) {
    forall x :: x in symbols ==> 0 <= rate(x)
  }

  /** The first i of the new symbols are placed, the others are to come. */
  ghost predicate Filling(shards: seq<seq<Symbol>>, home: map<Symbol, nat>, xs: seq<Symbol>, i: nat, active: set<Symbol>, limit: nat, rate: Symbol -> int) {
    && i <= |xs| && NoRepeats(xs) && Ordered(xs, BusiestFirst(rate)) && HasRoom(|active|, limit, |shards|)
    && Follows(shards, home) && home.Keys <= active && Elements(xs[i..]) == active - home.Keys
    && WithinLimit(shards, Elements(xs), limit)
    && (NonNegative(rate, active) ==> SpreadEvenly(shards, Elements(xs), limit, rate))
  }

  lemma FillingStarts(shards: seq<seq<Symbol>>, home: map<Symbol, nat>, xs: seq<Symbol>, active: set<Symbol>, limit: nat, rate: Symbol -> int)
    requires NoRepeats(xs) && Ordered(xs, BusiestFirst(rate)) && HasRoom(|active|, limit, |shards|)
    requires Follows(shards, home) && home.Keys <= active && Elements(xs) == active - home.Keys
    ensures Filling(shards, home, xs, 0, active, limit, rate)
  {
    assert xs[0..] == xs;
    NothingTakenYet(shards, home, Elements(xs), limit, rate);
    hide Follows, NoRepeats, Ordered, WithinLimit, SpreadEvenly, Elements;
  }

  lemma FillingHasRoom(shards: seq<seq<Symbol>>, home: map<Symbol, nat>, xs: seq<Symbol>, i: nat, active: set<Symbol>, limit: nat, rate: Symbol -> int)
    requires i < |xs| && Filling(shards, home, xs, i, active, limit, rate)
    ensures Follows(shards, home) && xs[i] !in home && HasRoom(|home.Keys|, limit, |shards|)
  {
    FirstElement(xs, i);
    FewerHaveRoom(home.Keys, active, xs[i], limit, |shards|);
  }

  lemma {:induction false} FillingGoesOn(shards: seq<seq<Symbol>>, home: map<Symbol, nat>, xs: seq<Symbol>, i: nat, active: set<Symbol>, limit: nat,
                                         rate: Symbol -> int, k: nat)
    requires i < |xs| && Filling(shards, home, xs, i, active, limit, rate) && LeastLoaded(shards, limit, rate, k)
    ensures k < |shards| && Filling(shards[k := shards[k] + [xs[i]]], home[xs[i] := k], xs, i + 1, active, limit, rate)
  {
    FirstElement(xs, i);
    LeastLoadedHasRoom(shards, limit, rate, k);
    assert xs[i] in Elements(xs) && xs[i] in active;
    hide Follows, NoRepeats, Ordered, WithinLimit, SpreadEvenly, LeastLoaded, Elements;
    AppendKeeps(shards, home, k, xs[i]);
    PlacingStaysWithin(shards, home, Elements(xs), limit, k, xs[i]);
    if NonNegative(rate, active) {
      PlacedAreBusier(shards, home, xs, i, k, rate);
      PlacingSpreadsEvenly(shards, Elements(xs), limit, rate, k, xs[i]);
    }
  }

  lemma FillingEnds(shards: seq<seq<Symbol>>, home: map<Symbol, nat>, xs: seq<Symbol>, active: set<Symbol>, limit: nat, rate: Symbol -> int)
    requires Filling(shards, home, xs, |xs|, active, limit, rate)
    ensures Follows(shards, home) && home.Keys == active && WithinLimit(shards, Elements(xs), limit)
    ensures NonNegative(rate, active) ==> SpreadEvenly(shards, Elements(xs), limit, rate)
  {
    hide Follows, WithinLimit, SpreadEvenly;
    assert Elements(xs[|xs|..]) == {};
    forall x | x in active
      ensures x in home
    {
      assert x !in active - home.Keys;
    }
  }

  /** When every symbol is new, no shard is larger than the limit. */
  lemma {:induction false} AllWithinLimit(shards: seq<seq<Symbol>>, home: map<Symbol, nat>, limit: nat)
    requires Follows(shards, home) && WithinLimit(shards, home.Keys, limit)
    ensures forall k :: 0 <= k < |shards| ==> |shards[k]| <= limit
  {
    forall k | 0 <= k < |shards|
      ensures |shards[k]| <= limit
    {
      if shards[k] != [] {
        InOneShard(shards, home, k, shards[k][0]);
      }
    }
  }

  lemma SameSizesWithinLimit(before: seq<seq<Symbol>>, after: seq<seq<Symbol>>, added: set<Symbol>, limit: nat)
    requires Sizes(before) == Sizes(after) && forall k :: 0 <= k < |before| ==> |before[k]| <= limit
    ensures WithinLimit(after, added, limit)
  {
    forall k | 0 <= k < |after|
      ensures |after[k]| <= limit
    {
      assert Sizes(after)[k] == Sizes(before)[k];
    }
  }

  lemma NothingTakenYet(shards: seq<seq<Symbol>>, home: map<Symbol, nat>, added: set<Symbol>, limit: nat, rate: Symbol -> int)
    requires Follows(shards, home) && home.Keys !! added
    ensures WithinLimit(shards, added, limit) && SpreadEvenly(shards, added, limit, rate)
  {
    forall k, x | 0 <= k < |shards| && x in shards[k]
      ensures x !in added
    {
      InOneShard(shards, home, k, x);
    }
  }

  /** Symbols that are placed already were not less busy than those to come. */
  lemma {:induction false} PlacedAreBusier(shards: seq<seq<Symbol>>, home: map<Symbol, nat>, xs: seq<Symbol>, i: nat, k: nat, rate: Symbol -> int)
    requires Follows(shards, home) && NoRepeats(xs) && i < |xs| && k < |shards|
    requires Ordered(xs, BusiestFirst(rate)) && forall x :: x in Elements(xs[i..]) ==> x !in home
    ensures forall y :: y in shards[k] && y in Elements(xs) ==> rate(xs[i]) <= rate(y)
  {
    forall b | i <= b < |xs|
      ensures xs[b] !in home
    {
      assert xs[i..][b - i] == xs[b];
    }
    forall y | y in shards[k] && y in Elements(xs)
      ensures rate(xs[i]) <= rate(y)
    {
      InOneShard(shards, home, k, y);
      var a :| 0 <= a < |xs| && xs[a] == y;
      assert BusiestFirst(rate)(xs[a], xs[i]);
    }
  }

  function BusiestFirst(rate: Symbol -> int): (Symbol, Symbol) -> bool {
    (a, b) => rate(a) > rate(b) || (rate(a) == rate(b) && a <= b)
  }

  lemma BusiestFirstIsTotal(rate: Symbol -> int)
    ensures TotalPreorder(BusiestFirst(rate))
  {
  }

  /** Sorting the symbols of each shard changes neither. */
  lemma {:induction false} SortingKeepsPlacement(shards: seq<seq<Symbol>>, added: set<Symbol>, limit: nat, rate: Symbol -> int)
    ensures WithinLimit(shards, added, limit) ==> WithinLimit(SortedShards(shards), added, limit)
    ensures SpreadEvenly(shards, added, limit, rate) ==> SpreadEvenly(SortedShards(shards), added, limit, rate)
  {
    var r := SortedShards(shards);
    LoadsOfSorted(shards, rate);
    hide Loads, StableSort;
    forall k | 0 <= k < |r|
      ensures |r[k]| == |shards[k]| && forall x :: x in r[k] <==> x in shards[k]
    {
      SameElements(r[k], shards[k]);
      assert |multiset(r[k])| == |multiset(shards[k])|;
    }
    if SpreadEvenly(shards, added, limit, rate) {
      forall k | 0 <= k < |r| && TakesNew(r, added, k)
        ensures exists x :: TakenLast(r, added, limit, rate, k, x)
      {
        assert TakesNew(shards, added, k);
        var x :| TakenLast(shards, added, limit, rate, k, x);
        assert TakenLast(r, added, limit, rate, k, x);
      }
    }
  }

  // ---- Listings ----------------------------------------------------------------------------------

  lemma SomeSymbol(s: set<Symbol>)
    requires s != {}
    ensures exists x :: x in s
  {
    if forall x :: x !in s {
      assert false;
    }
  }

  /** The symbols of a set in an order. */
  method Listed(s: set<Symbol>, le: (Symbol, Symbol) -> bool) returns (xs: seq<Symbol>)
    ensures NoRepeats(xs) && Elements(xs) == s
    ensures TotalPreorder(le) ==> Ordered(xs, le)
  {
    hide TotalPreorder, Ordered;
    var todo := s;
    xs := [];
    while todo != {}
      invariant todo <= s && Elements(xs) == s - todo && NoRepeats(xs)
      decreases |todo|
    {
      SomeSymbol(todo);
      var x :| x in todo;
      assert x !in Elements(xs);
      todo := todo - {x};
      assert Elements(xs + [x]) == Elements(xs) + {x};
      xs := xs + [x];
    }
    SortedListing(xs, le);
    xs := StableSort(xs, le);
  }

  lemma SortedListing(xs: seq<Symbol>, le: (Symbol, Symbol) -> bool)
    requires NoRepeats(xs)
    ensures NoRepeats(StableSort(xs, le)) && Elements(StableSort(xs, le)) == Elements(xs)
    ensures TotalPreorder(le) ==> Ordered(StableSort(xs, le), le)
  {
    var sorted := StableSort(xs, le);
    SameElements(sorted, xs);
    assert Elements(sorted) == Elements(xs);
    NoRepeatsSize(xs);
    NoRepeatsSize(sorted);
    if TotalPreorder(le) {
      SortOrders(xs, le);
    }
  }

  function SortedShards(shards: seq<seq<Symbol>>): (r: seq<seq<Symbol>>)
    ensures |r| == |shards| && forall k :: 0 <= k < |r| ==> r[k] == StableSort(shards[k], ByName)
  {
    seq(|shards|, (k: nat) requires k < |shards| => StableSort(shards[k], ByName))
  }

  lemma {:induction false} SortingKeepsPartition(shards: seq<seq<Symbol>>, home: map<Symbol, nat>)
    requires Follows(shards, home)
    ensures Follows(SortedShards(shards), home) && Sizes(SortedShards(shards)) == Sizes(shards)
  {
    var r := SortedShards(shards);
    forall k | 0 <= k < |r|
      ensures NoRepeats(r[k]) && |r[k]| == |shards[k]| && forall x :: x in r[k] <==> x in shards[k]
    {
      SameElements(r[k], shards[k]);
      assert Elements(r[k]) == Elements(shards[k]);
      NoRepeatsSize(shards[k]);
      NoRepeatsSize(r[k]);
    }
    forall k, x | 0 <= k < |r|
      ensures AtHome(r[k], home, k, x)
    {
      InOneShard(shards, home, k, x);
    }
    FollowsBySets(r, home);
  }

  lemma {:induction false} LoadOfInsert(x: Symbol, xs: seq<Symbol>, rate: Symbol -> int)
    ensures Load(Insert(x, xs, ByName), rate) == rate(x) + Load(xs, rate)
  {
    assert [x][..0] == [];
    LoadSplits([x], xs, rate);
    if xs != [] && !ByName(x, xs[0]) {
      LoadOfInsert(x, xs[1..], rate);
      LoadSplits([xs[0]], Insert(x, xs[1..], ByName), rate);
      LoadSplits([xs[0]], xs[1..], rate);
      assert xs == [xs[0]] + xs[1..];
    }
  }

  lemma {:induction false} LoadOfSorted(xs: seq<Symbol>, rate: Symbol -> int)
    ensures Load(StableSort(xs, ByName), rate) == Load(xs, rate)
  {
    if xs != [] {
      LoadOfSorted(xs[1..], rate);
      LoadOfInsert(xs[0], StableSort(xs[1..], ByName), rate);
      LoadSplits([xs[0]], xs[1..], rate);
      assert [xs[0]][..0] == [] && xs == [xs[0]] + xs[1..];
    }
  }

  lemma {:induction false} LoadsOfSorted(shards: seq<seq<Symbol>>, rate: Symbol -> int)
    ensures Loads(SortedShards(shards), rate) == Loads(shards, rate)
  {
    forall k | 0 <= k < |shards| {
      LoadOfSorted(shards[k], rate);
    }
  }

  /** Sorting the symbols of each shard leaves no helpful exchange where there was none. */
  lemma {:induction false} SortedStaysOptimal(shards: seq<seq<Symbol>>, rate: Symbol -> int)
    requires shards != [] && LocallyOptimal(shards, Loads(shards, rate), rate)
    ensures LocallyOptimal(SortedShards(shards), Loads(SortedShards(shards), rate), rate)
  {
    LoadsOfSorted(shards, rate);
    var r, loads := SortedShards(shards), Loads(shards, rate);
    hide Spread, Load, Loads, StableSort;
    forall s | Fits(r, s)
      ensures Spread(loads) <= SpreadAfter(r, loads, s, rate)
    {
      SameElements(r[s.left], shards[s.left]);
      SameElements(r[s.right], shards[s.right]);
      assert r[s.left][s.i] in shards[s.left] && r[s.right][s.j] in shards[s.right];
      var i :| 0 <= i < |shards[s.left]| && shards[s.left][i] == r[s.left][s.i];
      var j :| 0 <= j < |shards[s.right]| && shards[s.right][j] == r[s.right][s.j];
      var t := Swap(s.left, s.right, i, j);
      assert Fits(shards, t) && SpreadAfter(shards, loads, t, rate) == SpreadAfter(r, loads, s, rate);
    }
  }

  function PlacedIn(shard: seq<Symbol>, k: nat): map<Symbol, nat> {
    map x | x in Elements(shard) :: k
  }

  /** Where each symbol is, from the shards alone. */
  function HomeOf(shards: seq<seq<Symbol>>): map<Symbol, nat> {
    if shards == [] then map[]
    else HomeOf(shards[..|shards| - 1]) + PlacedIn(shards[|shards| - 1], |shards| - 1)
  }

  lemma {:induction false} HomeOfFacts(shards: seq<seq<Symbol>>)
    ensures HomeOf(shards).Keys == Elements(Flat(shards))
    ensures NoRepeats(Flat(shards)) ==> Follows(shards, HomeOf(shards))
  {
    if shards != [] {
      var n := |shards| - 1;
      var front, last := shards[..n], shards[n];
      HomeOfFacts(front);
      var flat := Flat(front);
      assert Elements(Flat(shards)) == Elements(flat) + Elements(last);
      if NoRepeats(Flat(shards)) {
        assert forall i :: 0 <= i < |flat| ==> Flat(shards)[i] == flat[i];
        assert forall i :: 0 <= i < |last| ==> Flat(shards)[|flat| + i] == last[i];
        assert NoRepeats(flat) && NoRepeats(last);
        assert forall x :: x in last ==> x !in flat;
        LastShardFollows(shards, HomeOf(front));
      }
    }
  }

  lemma {:induction false} LastShardFollows(shards: seq<seq<Symbol>>, home: map<Symbol, nat>)
    requires shards != [] && Follows(shards[..|shards| - 1], home) && NoRepeats(shards[|shards| - 1])
    requires forall x :: x in shards[|shards| - 1] ==> x !in home
    ensures Follows(shards, home + PlacedIn(shards[|shards| - 1], |shards| - 1))
  {
    var n := |shards| - 1;
    var r := home + PlacedIn(shards[n], n);
    forall k, x | 0 <= k < |shards|
      ensures AtHome(shards[k], r, k, x)
    {
      if k < n {
        InOneShard(shards[..n], home, k, x);
      }
    }
    FollowsBySets(shards, r);
  }

  lemma {:induction false} HomeIsUnique(shards: seq<seq<Symbol>>, a: map<Symbol, nat>, b: map<Symbol, nat>)
    requires Follows(shards, a) && Follows(shards, b)
    ensures a == b
  {
    forall x
      ensures x in a <==> x in b
      ensures x in a ==> a[x] == b[x]
    {
      if x in a {
        InOneShard(shards, b, a[x], x);
      }
      if x in b {
        InOneShard(shards, a, b[x], x);
      }
    }
  }

  lemma {:induction false} FollowedIsHome(shards: seq<seq<Symbol>>, home: map<Symbol, nat>)
    requires Follows(shards, home)
    ensures HomeOf(shards) == home
  {
    SizesAddUp(shards, home);
    HomeOfFacts(shards);
    forall x
      ensures x in Elements(Flat(shards)) <==> x in home
    {
      InFlat(shards, x);
      if x in home {
        assert x in shards[home[x]];
      }
      if k :| 0 <= k < |shards| && x in shards[k] {
        InOneShard(shards, home, k, x);
      }
    }
    assert Elements(Flat(shards)) == home.Keys;
    NoRepeatsSize(Flat(shards));
    HomeIsUnique(shards, HomeOf(shards), home);
  }

  lemma {:induction false} InFlat(shards: seq<seq<Symbol>>, x: Symbol)
    ensures x in Flat(shards) <==> exists k :: 0 <= k < |shards| && x in shards[k]
  {
    if shards != [] {
      InFlat(shards[..|shards| - 1], x);
    }
  }

  class TrafficSharder {
    const count: nat
    const rate: Symbol -> int
    var assignments: map<Symbol, nat>

    constructor (count: nat, rate: Symbol -> int)
      requires count >= 1
      ensures this.count == count && this.rate == rate && assignments == map[]
    {
      this.count, this.rate, assignments := count, rate, map[];
    }

    /**
     * Swaps the best pair while that helps and the limit allows. Without a limit it stops where no swap helps; it
     * always stops, because the spread falls.
     */
    method ImproveBalance(shards: array<seq<Symbol>>, loads: array<int>, maxSwaps: Option<nat>) returns (swaps: nat, ghost path: seq<Swap>)
      requires shards != loads as object && shards.Length == loads.Length > 0 && loads[..] == Loads(shards[..], rate)
      modifies shards, loads
      ensures Improves(old(shards[..]), shards[..], rate, path) && |path| == swaps && loads[..] == Loads(shards[..], rate)
      ensures maxSwaps.Some? ==> swaps <= maxSwaps.value
      ensures maxSwaps.None? || swaps < maxSwaps.value ==> LocallyOptimal(shards[..], loads[..], rate)
    {
      hide Spread, SpreadAfter, Improves, LocallyOptimal, Loads;
      swaps, path := 0, [];
      NoSwap(shards[..], rate);
      while true
        invariant loads[..] == Loads(shards[..], rate) && Improves(old(shards[..]), shards[..], rate, path) && |path| == swaps
        invariant maxSwaps.Some? ==> swaps <= maxSwaps.value
        decreases Spread(loads[..])
      {
        if maxSwaps.Some? && swaps >= maxSwaps.value {
          return;
        }
        var best := FindBestSwap(shards[..], loads[..], rate);
        if best.None? {
          return;
        }
        ghost var before := shards[..];
        SwapKeepsLoads(before, best.value, rate);
        OneMoreSwap(old(shards[..]), before, rate, path, best.value);
        path := path + [best.value];
        FallingSpread(before, loads[..], best.value, rate);
        Exchange(shards, loads, best.value);
        swaps := swaps + 1;
      }
    }

    /** Each symbol leaves its shard and joins the other's end; both loads follow. */
    method Exchange(shards: array<seq<Symbol>>, loads: array<int>, s: Swap)
      requires shards != loads as object && shards.Length == loads.Length && Fits(shards[..], s)
      modifies shards, loads
      ensures shards[..] == Swapped(old(shards[..]), s) && loads[..] == LoadsAfter(old(shards[..]), old(loads[..]), s, rate)
    {
      var a, b := shards[s.left][s.i], shards[s.right][s.j];
      shards[s.left] := shards[s.left][..s.i] + shards[s.left][s.i + 1..] + [b];
      shards[s.right] := shards[s.right][..s.j] + shards[s.right][s.j + 1..] + [a];
      loads[s.left] := loads[s.left] - rate(a) + rate(b);
      loads[s.right] := loads[s.right] - rate(b) + rate(a);
    }

    /** Puts a symbol at the end of a shard. */
    method Append(shards: array<seq<Symbol>>, loads: array<int>, k: nat, x: Symbol, ghost home: map<Symbol, nat>)
      requires shards != loads as object && shards.Length == loads.Length && k < shards.Length
      requires Follows(shards[..], home) && x !in home && loads[..] == Loads(shards[..], rate)
      modifies shards, loads
      ensures Follows(shards[..], home[x := k]) && loads[..] == Loads(shards[..], rate)
      ensures shards[..] == old(shards[..])[k := old(shards[..])[k] + [x]]
    {
      AppendKeeps(shards[..], home, k, x);
      AppendKeepsLoads(shards[..], k, x, rate);
      hide Follows, Loads;
      ghost var before, loadsBefore := shards[..], loads[..];
      shards[k] := shards[k] + [x];
      loads[k] := loads[k] + rate(x);
      assert shards[..] == before[k := before[k] + [x]];
      assert loads[..] == loadsBefore[k := loadsBefore[k] + rate(x)];
    }

    /** Among the shards with room, the first least loaded; there always is one with room. */
    method Roomiest(shards: array<seq<Symbol>>, loads: array<int>, limit: nat, ghost home: map<Symbol, nat>) returns (shard: nat)
      requires shards != loads as object && shards.Length == loads.Length
      requires Follows(shards[..], home) && HasRoom(|home|, limit, shards.Length)
      ensures shard < shards.Length && |shards[shard]| < limit
      ensures forall k :: 0 <= k < shards.Length && |shards[k]| < limit ==> loads[shard] <= loads[k] && (k < shard ==> loads[shard] < loads[k])
    {
      SizesAddUp(shards[..], home);
      if forall k :: 0 <= k < |shards[..]| ==> limit <= |shards[..][k]| {
        AllFull(shards[..], limit);
        assert false;
      }
      var found := false;
      shard := 0;
      var i := 0;
      while i < shards.Length
        invariant 0 <= i <= shards.Length
        invariant found <==> exists k :: 0 <= k < i && |shards[k]| < limit
        invariant found ==> shard < i && |shards[shard]| < limit
        invariant found ==> forall k :: 0 <= k < i && |shards[k]| < limit ==> loads[shard] <= loads[k] && (k < shard ==> loads[shard] < loads[k])
      {
        if |shards[i]| < limit && (!found || loads[i] < loads[shard]) {
          found, shard := true, i;
        }
        i := i + 1;
      }
    }

    /**
     * Surviving symbols stay where they are, new ones fill the least loaded shards with room, and a first assignment is
     * balanced by swaps. Without shards nothing changes.
     */
    method Shards(instruments: seq<Symbol>) returns (result: seq<seq<Symbol>>)
      modifies this`assignments
      ensures var n := if count < |instruments| then count else |instruments|;
              && |result| == n
              && (n == 0 ==> assignments == old(assignments))
              && (n > 0 ==> Follows(result, assignments) && assignments.Keys == Elements(instruments))
              && (n > 0 && old(assignments) != map[] ==>
                   forall x :: x in old(assignments) && x in instruments && old(assignments[x]) < n ==> assignments[x] == old(assignments[x]))
              && (n > 0 && old(assignments) == map[] ==> LocallyOptimal(result, Loads(result, rate), rate))
      ensures var n := if count < |instruments| then count else |instruments|;
              n > 0 ==> PlacedWell(result, instruments, old(assignments), rate)
    {
      var shardCount := if count < |instruments| then count else |instruments|;
      if shardCount == 0 {
        return [];
      }
      hide Follows, HasRoom, MaxSymbols, LocallyOptimal, Loads, SortedShards, StableSort, WithinLimit, SpreadEvenly, PlacedWell, NonNegative, AddedTo;
      var initial := assignments == map[];
      var active := Elements(instruments);
      var limit := MaxSymbols(|active|, shardCount);
      MaxSymbolsLeaveRoom(|active|, shardCount);
      var survivors := Surviving(assignments, active, shardCount);
      var shards := new seq<Symbol>[shardCount](_ => []);
      var loads := new int[shardCount](_ => 0);
      NoLoads(shards[..], loads[..], rate);
      Restore(shards, loads, survivors);
      assignments := survivors;
      ghost var added := active - survivors.Keys;
      OthersAreAdded(old(assignments), instruments, shardCount);
      Assign(shards, loads, active, limit, initial);
      if initial {
        SortedStaysOptimal(shards[..], rate);
      }
      SortingKeepsPartition(shards[..], assignments);
      SortingKeepsPlacement(shards[..], added, limit, rate);
      result := SortedShards(shards[..]);
      PlacesWell(result, instruments, old(assignments), rate, limit);
    }

    /** New symbols go where there is room; a first assignment, all of it new, is balanced afterwards. */
    method Assign(shards: array<seq<Symbol>>, loads: array<int>, active: set<Symbol>, limit: nat, initial: bool)
      requires shards != loads as object && shards.Length == loads.Length > 0
      requires Follows(shards[..], assignments) && loads[..] == Loads(shards[..], rate)
      requires assignments.Keys <= active && HasRoom(|active|, limit, shards.Length) && (initial ==> assignments == map[])
      modifies shards, loads, this`assignments
      ensures Follows(shards[..], assignments) && assignments.Keys == active
      ensures !initial ==> forall x :: x in old(assignments) ==> assignments[x] == old(assignments[x])
      ensures WithinLimit(shards[..], active - old(assignments.Keys), limit)
      ensures !initial && NonNegative(rate, active) ==> SpreadEvenly(shards[..], active - old(assignments.Keys), limit, rate)
      ensures initial ==> LocallyOptimal(shards[..], Loads(shards[..], rate), rate)
    {
      hide Follows, HasRoom, LocallyOptimal, Loads, WithinLimit, SpreadEvenly;
      Fill(shards, loads, active, limit);
      if initial {
        assert active - old(assignments.Keys) == active;
        ghost var before := shards[..];
        AllWithinLimit(before, assignments, limit);
        BalanceInitially(shards, loads);
        SameSizesWithinLimit(before, shards[..], active, limit);
      }
    }

    /** A first assignment ends where no exchange of two symbols brings the loads closer. */
    method BalanceInitially(shards: array<seq<Symbol>>, loads: array<int>)
      requires shards != loads as object && shards.Length == loads.Length > 0
      requires Follows(shards[..], assignments) && loads[..] == Loads(shards[..], rate)
      modifies shards, loads, this`assignments
      ensures Follows(shards[..], assignments) && assignments.Keys == old(assignments.Keys)
      ensures Sizes(shards[..]) == Sizes(old(shards[..])) && LocallyOptimal(shards[..], Loads(shards[..], rate), rate)
    {
      hide Follows, Improves, LocallyOptimal, Sharder.Load, Spread, HomeOf;
      ghost var before := shards[..];
      var _, path := ImproveBalance(shards, loads, None);
      ghost var moved := ImprovingKeeps(before, shards[..], rate, path, assignments);
      FollowedIsHome(shards[..], moved);
      assignments := HomeOf(shards[..]);
    }

    /** Surviving symbols go back to their shards, in name order. */
    method Restore(shards: array<seq<Symbol>>, loads: array<int>, survivors: map<Symbol, nat>)
      requires shards != loads as object && shards.Length == loads.Length && loads[..] == Loads(shards[..], rate)
      requires (forall k :: 0 <= k < shards.Length ==> shards[k] == []) && forall x :: x in survivors ==> survivors[x] < shards.Length
      modifies shards, loads
      ensures Follows(shards[..], survivors) && loads[..] == Loads(shards[..], rate)
    {
      hide Follows, Loads, Sharder.Load, NoRepeats;
      var symbols := Listed(survivors.Keys, ByName);
      EmptyFollows(shards[..]);
      ghost var home: map<Symbol, nat> := map[];
      var i := 0;
      while i < |symbols|
        invariant 0 <= i <= |symbols|
        invariant Follows(shards[..], home) && loads[..] == Loads(shards[..], rate)
        invariant home.Keys == Elements(symbols[..i]) && forall x :: x in home ==> x in survivors && home[x] == survivors[x]
      {
        var x := symbols[i];
        NextElement(symbols, i);
        Append(shards, loads, survivors[x], x, home);
        home := home[x := survivors[x]];
        i := i + 1;
      }
      assert symbols[..i] == symbols;
      assert home == survivors;
    }

    method PlaceNew(shards: array<seq<Symbol>>, loads: array<int>, limit: nat, x: Symbol) returns (shard: nat)
      requires shards != loads as object && shards.Length == loads.Length
      requires Follows(shards[..], assignments) && loads[..] == Loads(shards[..], rate)
      requires x !in assignments && HasRoom(|assignments.Keys|, limit, shards.Length)
      modifies shards, loads, this`assignments
      ensures Follows(shards[..], assignments) && loads[..] == Loads(shards[..], rate)
      ensures assignments == old(assignments)[x := shard]
      ensures LeastLoaded(old(shards[..]), limit, rate, shard) && shards[..] == old(shards[..])[shard := old(shards[..])[shard] + [x]]
    {
      hide Follows, Loads, HasRoom;
      assert |assignments| == |assignments.Keys|;
      shard := Roomiest(shards, loads, limit, assignments);
      Append(shards, loads, shard, x, assignments);
      assignments := assignments[x := shard];
    }

    /** New symbols, the busiest first, each to the least loaded shard with room. */
    method Fill(shards: array<seq<Symbol>>, loads: array<int>, active: set<Symbol>, limit: nat)
      requires shards != loads as object && shards.Length == loads.Length
      requires Follows(shards[..], assignments) && loads[..] == Loads(shards[..], rate)
      requires assignments.Keys <= active && HasRoom(|active|, limit, shards.Length)
      modifies shards, loads, this`assignments
      ensures Follows(shards[..], assignments) && loads[..] == Loads(shards[..], rate) && assignments.Keys == active
      ensures forall x :: x in old(assignments) ==> assignments[x] == old(assignments[x])
      ensures WithinLimit(shards[..], active - old(assignments.Keys), limit)
      ensures NonNegative(rate, active) ==> SpreadEvenly(shards[..], active - old(assignments.Keys), limit, rate)
    {
      hide Follows, Loads, HasRoom, WithinLimit, SpreadEvenly, Filling;
      BusiestFirstIsTotal(rate);
      var unassigned := Listed(active - assignments.Keys, BusiestFirst(rate));
      FillingStarts(shards[..], assignments, unassigned, active, limit, rate);
      FillIn(shards, loads, unassigned, active, limit);
      FillingEnds(shards[..], assignments, unassigned, active, limit, rate);
    }

    method FillIn(shards: array<seq<Symbol>>, loads: array<int>, unassigned: seq<Symbol>, ghost active: set<Symbol>, limit: nat)
      requires shards != loads as object && shards.Length == loads.Length && loads[..] == Loads(shards[..], rate)
      requires Filling(shards[..], assignments, unassigned, 0, active, limit, rate)
      modifies shards, loads, this`assignments
      ensures loads[..] == Loads(shards[..], rate) && Filling(shards[..], assignments, unassigned, |unassigned|, active, limit, rate)
      ensures forall x :: x in old(assignments) ==> x in assignments && assignments[x] == old(assignments[x])
    {
      hide Follows, Loads, HasRoom, Filling, LeastLoaded;
      var i := 0;
      while i < |unassigned|
        invariant 0 <= i <= |unassigned| && loads[..] == Loads(shards[..], rate)
        invariant Filling(shards[..], assignments, unassigned, i, active, limit, rate)
        invariant forall x :: x in old(assignments) ==> x in assignments && assignments[x] == old(assignments[x])
      {
        ghost var before, home := shards[..], assignments;
        FillingHasRoom(before, home, unassigned, i, active, limit, rate);
        var shard := PlaceNew(shards, loads, limit, unassigned[i]);
        FillingGoesOn(before, home, unassigned, i, active, limit, rate, shard);
        i := i + 1;
      }
    }

    /**
     * Checks that the live shards are a partition of the active symbols, then makes the best swap if any helps, but only
     * when the busiest shard carries over 5/4 of the mean.
     */
    method Rebalance(instruments: seq<Symbol>, current: seq<seq<Symbol>>) returns (result: Result<seq<seq<Symbol>>, string>)
      modifies this`assignments
      ensures var n := if count < |instruments| then count else |instruments|;
              result.Ok? <==> |current| == n && NoRepeats(Flat(current)) && Elements(Flat(current)) == Elements(instruments)
      ensures result.Err? ==> assignments == old(assignments)
      ensures result.Ok? ==> Follows(result.value, assignments) && assignments.Keys == Elements(instruments)
      ensures result.Ok? ==> Sizes(result.value) == Sizes(current)
      ensures result.Ok? ==> if Unbalanced(Loads(current, rate)) && !LocallyOptimal(current, Loads(current, rate), rate)
                             then exists s :: Lowers(current, s, rate) && result.value == SortedShards(Swapped(current, s))
                             else result.value == SortedShards(current)
    {
      var shardCount := if count < |instruments| then count else |instruments|;
      if |current| != shardCount {
        return Err("current shard count does not match configured shard count");
      }
      hide Follows, Lowers, Improves, NoRepeats, Largest, HomeOf, LocallyOptimal;
      var active, flattened := Elements(instruments), Flat(current);
      NoRepeatsSize(flattened);
      if |flattened| != |active| || Elements(flattened) != active {
        return Err("current shards must contain every active symbol exactly once");
      }
      HomeOfFacts(current);
      if !Unbalanced(Loads(current, rate)) {
        assignments := HomeOf(current);
        SortingKeepsPartition(current, assignments);
        return Ok(SortedShards(current));
      }
      var after := SwapOnce(current);
      assignments := HomeOf(after);
      SortingKeepsPartition(after, assignments);
      result := Ok(SortedShards(after));
    }

    /** One best swap, if any helps. */
    method SwapOnce(current: seq<seq<Symbol>>) returns (after: seq<seq<Symbol>>)
      requires current != [] && Follows(current, HomeOf(current))
      ensures Follows(after, HomeOf(after)) && HomeOf(after).Keys == HomeOf(current).Keys && Sizes(after) == Sizes(current)
      ensures if LocallyOptimal(current, Loads(current, rate), rate) then after == current
              else exists s :: Lowers(current, s, rate) && after == Swapped(current, s)
    {
      hide Follows, Lowers, Improves, HomeOf, Sharder.Load, Spread, LocallyOptimal;
      var shards := new seq<Symbol>[|current|](k requires 0 <= k < |current| => current[k]);
      assert shards[..] == current;
      var rates := Loads(current, rate);
      var loads := new int[|current|](k requires 0 <= k < |rates| => rates[k]);
      assert loads[..] == rates;
      var _, path := ImproveBalance(shards, loads, Some(1));
      ghost var moved := ImprovingKeeps(current, shards[..], rate, path, HomeOf(current));
      AtMostOne(current, shards[..], rate, path);
      OptimalOrLowered(current, rate);
      FollowedIsHome(shards[..], moved);
      after := shards[..];
    }
  }

  lemma NoLoads(shards: seq<seq<Symbol>>, loads: seq<int>, rate: Symbol -> int)
    requires |loads| == |shards| && forall k :: 0 <= k < |shards| ==> shards[k] == [] && loads[k] == 0
    ensures loads == Loads(shards, rate)
  {
  }

  lemma EmptyFollows(shards: seq<seq<Symbol>>)
    requires forall k :: 0 <= k < |shards| ==> shards[k] == []
    ensures Follows(shards, map[])
  {
  }

  function Total(loads: seq<int>): int {
    if loads == [] then 0 else Total(loads[..|loads| - 1]) + loads[|loads| - 1]
  }

  /** The busiest of at least two shards carries over 5/4 of the mean. */
  predicate Unbalanced(loads: seq<int>) {
    |loads| >= 2 && Largest(loads) * |loads| * 4 > Total(loads) * 5
  }

  lemma {:induction false} TotalOfLoads(shards: seq<seq<Symbol>>, rate: Symbol -> int)
    ensures Total(Loads(shards, rate)) == Load(Flat(shards), rate)
  {
    if shards != [] {
      var n := |shards| - 1;
      TotalOfLoads(shards[..n], rate);
      LoadSplits(Flat(shards[..n]), shards[n], rate);
      assert Loads(shards, rate)[..n] == Loads(shards[..n], rate);
    }
  }

  /** In terms of the rates: some shard's rate sum is more than 5/4 of the n-th part of them all. */
  lemma {:induction false} UnbalancedExactly(shards: seq<seq<Symbol>>, rate: Symbol -> int)
    ensures Unbalanced(Loads(shards, rate)) <==>
            |shards| >= 2 && exists k :: 0 <= k < |shards| && 4 * (Load(shards[k], rate) * |shards|) > 5 * Load(Flat(shards), rate)
  {
    var loads, n := Loads(shards, rate), |shards|;
    TotalOfLoads(shards, rate);
    hide Load, Flat, Total;
    if n >= 2 {
      var m :| 0 <= m < n && loads[m] == Largest(loads);
      assert Load(shards[m], rate) == Largest(loads);
      forall k | 0 <= k < n
        ensures Load(shards[k], rate) * n <= Largest(loads) * n
      {
        Scaled(loads[k], Largest(loads), n);
      }
    }
  }

  lemma Scaled(a: int, b: int, n: nat)
    requires a <= b
    ensures a * n <= b * n
  {
  }

  lemma FewerThan(a: set<Symbol>, b: set<Symbol>, x: Symbol)
    requires a <= b && x in b && x !in a
    ensures |a| < |b|
  {
    assert a <= b - {x};
    assert b == (b - {x}) + {x};
    assert b - {x} == a + (b - {x} - a);
  }

  lemma AtMostOne(before: seq<seq<Symbol>>, after: seq<seq<Symbol>>, rate: Symbol -> int, swaps: seq<Swap>)
    requires Improves(before, after, rate, swaps) && |swaps| <= 1
    ensures if swaps == [] then after == before else Lowers(before, swaps[0], rate) && after == Swapped(before, swaps[0])
  {
    if swaps != [] {
      AfterFirstSwap(before, after, rate, swaps);
      NoSwapsMeansSame(Swapped(before, swaps[0]), after, rate);
    }
  }

  lemma OptimalOrLowered(shards: seq<seq<Symbol>>, rate: Symbol -> int)
    requires shards != []
    ensures LocallyOptimal(shards, Loads(shards, rate), rate) ==> forall s :: !Lowers(shards, s, rate)
  {
  }
}

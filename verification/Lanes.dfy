/**
 * Parallel download lanes (pipeline/pull.py): longest file first, each to the lane with the least so far. The lanes
 * are within Graham's bound of the best assignment there is.
 */
module Lanes {
  import opened Sorting
  import Ledger

  datatype Download = Download(path: string, size: nat)

  /** Larger files first, the path breaking ties. */
  predicate BySize(a: Download, b: Download) {
    a.size > b.size || (a.size == b.size && !Ledger.TextLess(b.path, a.path))
  }

  // ---- Assignments -------------------------------------------------------------------------------

  /** Files given to a lane. */
  function Count(choice: seq<nat>, lane: nat): nat {
    if choice == [] then 0
    else Count(choice[..|choice| - 1], lane) + if choice[|choice| - 1] == lane then 1 else 0
  }

  /** Bytes given to a lane. */
  function Load(files: seq<Download>, choice: seq<nat>, lane: nat): nat
    requires |choice| == |files|
  {
    if files == [] then 0
    else Load(files[..|files| - 1], choice[..|files| - 1], lane) + if choice[|files| - 1] == lane then files[|files| - 1].size else 0
  }

  function Bytes(files: seq<Download>): nat {
    if files == [] then 0 else Bytes(files[..|files| - 1]) + files[|files| - 1].size
  }

  function LaneOf(files: seq<Download>, choice: seq<nat>, lane: nat): seq<string>
    requires |choice| == |files|
  {
    if files == [] then []
    else LaneOf(files[..|files| - 1], choice[..|files| - 1], lane) + if choice[|files| - 1] == lane then [files[|files| - 1].path] else []
  }

  predicate IntoLanes(choice: seq<nat>, lanes: nat) {
    forall i :: 0 <= i < |choice| ==> choice[i] < lanes
  }

  function LaneLoads(files: seq<Download>, choice: seq<nat>, lanes: nat): (r: seq<nat>)
    requires |choice| == |files|
    ensures |r| == lanes && forall q :: 0 <= q < lanes ==> r[q] == Load(files, choice, q)
  {
    seq(lanes, (q: nat) => Load(files, choice, q))
  }

  /** The first of the smallest. */
  function Smallest(sizes: seq<nat>): (k: nat)
    requires sizes != []
    ensures k < |sizes|
    ensures forall q :: 0 <= q < |sizes| ==> sizes[k] <= sizes[q] && (q < k ==> sizes[k] < sizes[q])
  {
    if |sizes| == 1 then 0
    else
      var k := Smallest(sizes[..|sizes| - 1]);
      if sizes[|sizes| - 1] < sizes[k] then |sizes| - 1 else k
  }

  /** Each file in turn to the first least loaded lane. */
  function Greedy(files: seq<Download>, lanes: nat): (choice: seq<nat>)
    requires lanes > 0
    ensures |choice| == |files| && IntoLanes(choice, lanes)
  {
    if files == [] then []
    else
      var before := Greedy(files[..|files| - 1], lanes);
      before + [Smallest(LaneLoads(files[..|files| - 1], before, lanes))]
  }

  // ---- The method --------------------------------------------------------------------------------

  predicate Splits(lanes: seq<seq<string>>, files: seq<Download>, count: nat)
    requires count > 0
  {
    |lanes| == count && forall q :: 0 <= q < count ==> lanes[q] == LaneOf(files, Greedy(files, count), q)
  }

  predicate Filled(lanes: seq<seq<string>>, sizes: seq<nat>, files: seq<Download>, count: nat)
    requires count > 0
  {
    Splits(lanes, files, count) && sizes == LaneLoads(files, Greedy(files, count), count)
  }

  method PartitionDownloads(downloads: seq<Download>, laneLimit: nat) returns (lanes: seq<seq<string>>)
    ensures var files, count := StableSort(downloads, BySize), if laneLimit < |downloads| then laneLimit else |downloads|;
            if count == 0 then lanes == [] else Splits(lanes, files, count)
  {
    hide StableSort, BySize, Filled, Splits;
    var laneCount := if laneLimit < |downloads| then laneLimit else |downloads|;
    if laneCount == 0 {
      return [];
    }
    var files := StableSort(downloads, BySize);
    var paths := new seq<string>[laneCount](_ => []);
    var sizes := new nat[laneCount](_ => 0);
    NothingFilled(paths[..], sizes[..], laneCount);
    assert files[..0] == [];
    var i := 0;
    while i < |files|
      invariant 0 <= i <= |files|
      invariant Filled(paths[..], sizes[..], files[..i], laneCount)
    {
      ghost var lanesBefore, sizesBefore := paths[..], sizes[..];
      var lane := LeastLoaded(sizes);
      paths[lane] := paths[lane] + [files[i].path];
      sizes[lane] := sizes[lane] + files[i].size;
      FilledByOne(lanesBefore, sizesBefore, files[..i], files[i], laneCount);
      assert paths[..] == lanesBefore[lane := lanesBefore[lane] + [files[i].path]];
      assert sizes[..] == sizesBefore[lane := sizesBefore[lane] + files[i].size];
      assert files[..i + 1] == files[..i] + [files[i]];
      i := i + 1;
    }
    assert files[..i] == files;
    lanes := paths[..];
    FilledSplits(lanes, sizes[..], files, laneCount);
  }

  lemma NothingFilled(lanes: seq<seq<string>>, sizes: seq<nat>, count: nat)
    requires count > 0 && |lanes| == count == |sizes| && forall q :: 0 <= q < count ==> lanes[q] == [] && sizes[q] == 0
    ensures Filled(lanes, sizes, [], count)
  {
    assert sizes == LaneLoads([], Greedy([], count), count);
  }

  lemma FilledSplits(lanes: seq<seq<string>>, sizes: seq<nat>, files: seq<Download>, count: nat)
    requires count > 0 && Filled(lanes, sizes, files, count)
    ensures Splits(lanes, files, count)
  {
  }

  lemma {:induction false} FilledByOne(lanes: seq<seq<string>>, sizes: seq<nat>, files: seq<Download>, f: Download, count: nat)
    requires count > 0 && Filled(lanes, sizes, files, count)
    ensures |lanes| == |sizes| == count
    ensures var k := Smallest(sizes);
            Filled(lanes[k := lanes[k] + [f.path]], sizes[k := sizes[k] + f.size], files + [f], count)
  {
    GreedySnoc(files, f, count);
    var k, choice := Smallest(sizes), Greedy(files, count);
    assert k == NextLane(files, count);
    hide Greedy, LaneOf, Load, Smallest, NextLane;
    var nextLanes, nextSizes := lanes[k := lanes[k] + [f.path]], sizes[k := sizes[k] + f.size];
    forall q | 0 <= q < count
      ensures nextLanes[q] == LaneOf(files + [f], Greedy(files + [f], count), q)
      ensures nextSizes[q] == Load(files + [f], Greedy(files + [f], count), q)
    {
      LaneSnoc(files, f, choice, k, q);
    }
    assert nextSizes == LaneLoads(files + [f], Greedy(files + [f], count), count);
  }

  function NextLane(files: seq<Download>, lanes: nat): nat
    requires lanes > 0
  {
    Smallest(LaneLoads(files, Greedy(files, lanes), lanes))
  }

  lemma {:induction false} GreedySnoc(files: seq<Download>, f: Download, lanes: nat)
    requires lanes > 0
    ensures Greedy(files + [f], lanes) == Greedy(files, lanes) + [NextLane(files, lanes)]
  {
    assert (files + [f])[..|files|] == files;
  }

  lemma {:induction false} LaneSnoc(files: seq<Download>, f: Download, choice: seq<nat>, k: nat, q: nat)
    requires |choice| == |files|
    ensures LaneOf(files + [f], choice + [k], q) == LaneOf(files, choice, q) + (if q == k then [f.path] else [])
    ensures Load(files + [f], choice + [k], q) == Load(files, choice, q) + (if q == k then f.size else 0)
    ensures Count(choice + [k], q) == Count(choice, q) + (if q == k then 1 else 0)
  {
    assert (files + [f])[..|files|] == files;
    assert (choice + [k])[..|choice|] == choice;
  }

  /** The scan for the least loaded lane. */
  method LeastLoaded(sizes: array<nat>) returns (lane: nat)
    requires sizes.Length > 0
    ensures lane < sizes.Length && lane == Smallest(sizes[..])
  {
    lane := 0;
    var i := 1;
    while i < sizes.Length
      invariant 1 <= i <= sizes.Length && lane < i && lane == Smallest(sizes[..i])
    {
      assert sizes[..i + 1][..i] == sizes[..i];
      if sizes[i] < sizes[lane] {
        lane := i;
      }
      i := i + 1;
    }
    assert sizes[..i] == sizes[..];
  }

  // ---- Every file in exactly one lane --------------------------------------------------------------

  function Paths(files: seq<Download>): seq<string> {
    if files == [] then [] else Paths(files[..|files| - 1]) + [files[|files| - 1].path]
  }

  /** The paths of the first lanes, put together. */
  function Together(lanes: seq<seq<string>>): seq<string> {
    if lanes == [] then [] else Together(lanes[..|lanes| - 1]) + lanes[|lanes| - 1]
  }

  function AllLanes(files: seq<Download>, choice: seq<nat>, count: nat): (r: seq<seq<string>>)
    requires |choice| == |files|
    ensures |r| == count && forall q :: 0 <= q < count ==> r[q] == LaneOf(files, choice, q)
  {
    seq(count, (q: nat) => LaneOf(files, choice, q))
  }

  lemma {:induction false} AddToOneLane(lanes: seq<seq<string>>, k: nat, path: string)
    requires k < |lanes|
    ensures multiset(Together(lanes[k := lanes[k] + [path]])) == multiset(Together(lanes)) + multiset{path}
  {
    var last, next := |lanes| - 1, lanes[k := lanes[k] + [path]];
    if k == last {
      assert next[..last] == lanes[..last];
      assert Together(next) == Together(lanes) + [path];
    } else {
      AddToOneLane(lanes[..last], k, path);
      assert next[..last] == lanes[..last][k := lanes[..last][k] + [path]];
    }
  }

  lemma {:induction false} NoFiles(lanes: seq<seq<string>>)
    requires forall q :: 0 <= q < |lanes| ==> lanes[q] == []
    ensures Together(lanes) == []
  {
    if lanes != [] {
      NoFiles(lanes[..|lanes| - 1]);
    }
  }

  /** The lanes hold each file's path exactly as often as the input does. */
  lemma {:induction false} EachPathOnce(files: seq<Download>, lanes: seq<seq<string>>, count: nat)
    requires count > 0 && Splits(lanes, files, count)
    ensures multiset(Together(lanes)) == multiset(Paths(files))
    decreases |files|
  {
    if files == [] {
      NoFiles(lanes);
    } else {
      var front, f := files[..|files| - 1], files[|files| - 1];
      assert files == front + [f];
      var before := AllLanes(front, Greedy(front, count), count);
      EachPathOnce(front, before, count);
      GreedySnoc(front, f, count);
      var k := NextLane(front, count);
      assert k < count;
      hide Greedy, NextLane, LaneOf;
      forall q | 0 <= q < count
        ensures lanes[q] == before[k := before[k] + [f.path]][q]
      {
        LaneSnoc(front, f, Greedy(front, count), k, q);
      }
      assert lanes == before[k := before[k] + [f.path]];
      AddToOneLane(before, k, f.path);
    }
  }
}

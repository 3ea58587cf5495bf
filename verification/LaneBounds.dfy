/** How good the download lanes are: the greedy bound, and Graham's bound for longest-first order (pipeline/pull.py). */
module LaneBounds {
  import opened Lanes

  // ---- Sums over lanes ---------------------------------------------------------------------------

  function CountIn(choice: seq<nat>, lanes: nat): nat {
    if lanes == 0 then 0 else CountIn(choice, lanes - 1) + Count(choice, lanes - 1)
  }

  function LoadIn(files: seq<Download>, choice: seq<nat>, lanes: nat): nat
    requires |choice| == |files|
  {
    if lanes == 0 then 0 else LoadIn(files, choice, lanes - 1) + Load(files, choice, lanes - 1)
  }

  lemma {:induction false} CountInSnoc(choice: seq<nat>, k: nat, lanes: nat)
    ensures CountIn(choice + [k], lanes) == CountIn(choice, lanes) + if k < lanes then 1 else 0
  {
    assert (choice + [k])[..|choice|] == choice;
    if lanes > 0 {
      CountInSnoc(choice, k, lanes - 1);
    }
  }

  lemma {:induction false} CountInEmpty(lanes: nat)
    ensures CountIn([], lanes) == 0
  {
    if lanes > 0 {
      CountInEmpty(lanes - 1);
    }
  }

  /** Lane counts add up to the number of files. */
  lemma {:induction false} CountsAddUp(choice: seq<nat>, lanes: nat)
    requires IntoLanes(choice, lanes)
    ensures CountIn(choice, lanes) == |choice|
  {
    if choice == [] {
      CountInEmpty(lanes);
    } else {
      var front := choice[..|choice| - 1];
      CountsAddUp(front, lanes);
      CountInSnoc(front, choice[|choice| - 1], lanes);
      assert choice == front + [choice[|choice| - 1]];
    }
  }

  lemma {:induction false} LoadInSnoc(files: seq<Download>, f: Download, choice: seq<nat>, k: nat, lanes: nat)
    requires |choice| == |files|
    ensures LoadIn(files + [f], choice + [k], lanes) == LoadIn(files, choice, lanes) + if k < lanes then f.size else 0
  {
    if lanes > 0 {
      LoadInSnoc(files, f, choice, k, lanes - 1);
      LaneSnoc(files, f, choice, k, lanes - 1);
    }
  }

  lemma {:induction false} LoadInEmpty(lanes: nat)
    ensures LoadIn([], [], lanes) == 0
  {
    if lanes > 0 {
      LoadInEmpty(lanes - 1);
    }
  }

  /** Lane loads add up to all the bytes. */
  lemma {:induction false} LoadsAddUp(files: seq<Download>, choice: seq<nat>, lanes: nat)
    requires |choice| == |files| && IntoLanes(choice, lanes)
    ensures LoadIn(files, choice, lanes) == Bytes(files)
  {
    if files == [] {
      LoadInEmpty(lanes);
    } else {
      var n := |files| - 1;
      LoadsAddUp(files[..n], choice[..n], lanes);
      LoadInSnoc(files[..n], files[n], choice[..n], choice[n], lanes);
      assert files == files[..n] + [files[n]] && choice == choice[..n] + [choice[n]];
    }
  }

  /** A value that is at most every lane's load is at most their mean. */
  lemma {:induction false} BelowTheMean(files: seq<Download>, choice: seq<nat>, lanes: nat, least: int)
    requires |choice| == |files| && forall q: nat :: q < lanes ==> least <= Load(files, choice, q)
    ensures lanes * least <= LoadIn(files, choice, lanes)
  {
    if lanes > 0 {
      BelowTheMean(files, choice, lanes - 1, least);
      assert lanes * least == (lanes - 1) * least + least;
    }
  }

  lemma {:induction false} AboveTheMean(files: seq<Download>, choice: seq<nat>, lanes: nat, most: int)
    requires |choice| == |files| && forall q: nat :: q < lanes ==> Load(files, choice, q) <= most
    ensures LoadIn(files, choice, lanes) <= lanes * most
  {
    if lanes > 0 {
      AboveTheMean(files, choice, lanes - 1, most);
      assert lanes * most == (lanes - 1) * most + most;
    }
  }

  // ---- The greedy bound --------------------------------------------------------------------------

  predicate AtMost(files: seq<Download>, largest: nat) {
    forall i :: 0 <= i < |files| ==> files[i].size <= largest
  }

  lemma {:induction false} LaneOfTheLast(files: seq<Download>, lanes: nat)
    requires lanes > 0 && files != []
    ensures var n := |files| - 1;
            && Greedy(files, lanes)[..n] == Greedy(files[..n], lanes)
            && Greedy(files, lanes)[n] == NextLane(files[..n], lanes)
  {
    var n := |files| - 1;
    GreedySnoc(files[..n], files[n], lanes);
    assert files == files[..n] + [files[n]];
  }

  lemma {:induction false} LoadWithTheLast(files: seq<Download>, lanes: nat, lane: nat)
    requires lanes > 0 && files != []
    ensures var front := files[..|files| - 1];
            Load(files, Greedy(files, lanes), lane)
            == Load(front, Greedy(front, lanes), lane) + if NextLane(front, lanes) == lane then files[|files| - 1].size else 0
  {
    LaneOfTheLast(files, lanes);
  }

  /** Before a file is placed, the lane it goes to holds at most the mean. */
  lemma {:induction false} NextLaneIsLow(files: seq<Download>, lanes: nat)
    requires lanes > 0
    ensures var k := NextLane(files, lanes);
            && k < lanes
            && lanes * Load(files, Greedy(files, lanes), k) <= Bytes(files)
            && forall q: nat :: q < lanes ==> Load(files, Greedy(files, lanes), k) <= Load(files, Greedy(files, lanes), q)
  {
    var choice, k := Greedy(files, lanes), NextLane(files, lanes);
    var loads := LaneLoads(files, choice, lanes);
    forall q: nat | q < lanes
      ensures Load(files, choice, k) <= Load(files, choice, q)
    {
      assert loads[k] <= loads[q];
    }
    BelowTheMean(files, choice, lanes, Load(files, choice, k));
    LoadsAddUp(files, choice, lanes);
  }

  lemma LastFile(lanes: int, before: int, size: int, largest: int, total: int)
    requires lanes >= 1 && lanes * before <= total && 0 <= size <= largest
    ensures lanes * (before + size) <= total + size + (lanes - 1) * largest
  {
    assert lanes * (before + size) == lanes * before + size + (lanes - 1) * size;
    assert (lanes - 1) * size <= (lanes - 1) * largest;
  }

  lemma NotNegative(a: int, b: int)
    requires a >= 0 && b >= 0
    ensures a * b >= 0
  {
  }

  /** m * load <= total + (m - 1) * largest, in every lane, for any order of the files. */
  lemma {:induction false} GreedyBound(files: seq<Download>, lanes: nat, largest: nat, lane: nat)
    requires lanes > 0 && AtMost(files, largest) && lane < lanes
    ensures lanes * Load(files, Greedy(files, lanes), lane) <= Bytes(files) + (lanes - 1) * largest
    decreases |files|
  {
    if files != [] {
      var n := |files| - 1;
      var front, size := files[..n], files[n].size;
      assert size <= largest && AtMost(front, largest);
      LoadWithTheLast(files, lanes, lane);
      hide Load, Greedy, NextLane, AtMost;
      var before := Load(front, Greedy(front, lanes), lane);
      if NextLane(front, lanes) == lane {
        NextLaneIsLow(front, lanes);
        LastFile(lanes, before, size, largest, Bytes(front));
      } else {
        GreedyBound(front, lanes, largest, lane);
      }
    } else {
      NotNegative(lanes - 1, largest);
    }
  }

  // ---- Any assignment ----------------------------------------------------------------------------

  /** An assignment of the files to the lanes that keeps every lane within some load. */
  ghost predicate Within(files: seq<Download>, choice: seq<nat>, lanes: nat, most: int) {
    && |choice| == |files| && IntoLanes(choice, lanes)
    && forall q: nat :: q < lanes ==> Load(files, choice, q) <= most
  }

  lemma {:induction false} PrefixIsWithin(files: seq<Download>, choice: seq<nat>, lanes: nat, most: int)
    requires files != [] && Within(files, choice, lanes, most)
    ensures Within(files[..|files| - 1], choice[..|files| - 1], lanes, most)
  {
    var n := |files| - 1;
    forall q: nat | q < lanes
      ensures Load(files[..n], choice[..n], q) <= most
    {
      assert Load(files, choice, q) <= most;
    }
  }

  /** m lanes within a load hold at most m times it. */
  lemma {:induction false} BytesWithin(files: seq<Download>, choice: seq<nat>, lanes: nat, most: int)
    requires Within(files, choice, lanes, most)
    ensures Bytes(files) <= lanes * most
  {
    LoadsAddUp(files, choice, lanes);
    AboveTheMean(files, choice, lanes, most);
  }

  lemma {:induction false} FileWithin(files: seq<Download>, choice: seq<nat>, i: nat)
    requires |choice| == |files| && i < |files|
    ensures files[i].size <= Load(files, choice, choice[i])
  {
    var n := |files| - 1;
    if i < n {
      FileWithin(files[..n], choice[..n], i);
    }
  }

  lemma TwiceLessOne(lanes: int, most: int)
    ensures lanes * most + (lanes - 1) * most == (2 * lanes - 1) * most
  {
  }

  /** Hence every lane is within (2 - 1/m) times what any assignment needs. */
  lemma {:induction false} GreedyIsTwiceOptimal(files: seq<Download>, lanes: nat, choice: seq<nat>, most: int, lane: nat)
    requires lanes > 0 && lane < lanes && Within(files, choice, lanes, most)
    ensures lanes * Load(files, Greedy(files, lanes), lane) <= (2 * lanes - 1) * most
  {
    assert most >= Load(files, choice, 0) >= 0;
    hide Load, Greedy;
    forall i | 0 <= i < |files|
      ensures files[i].size <= most
    {
      FileWithin(files, choice, i);
    }
    GreedyBound(files, lanes, most, lane);
    BytesWithin(files, choice, lanes, most);
    TwiceLessOne(lanes, most);
  }
}

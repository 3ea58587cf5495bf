/** Graham's bound for files placed longest first: 3m times any lane is at most 4m - 1 times what any assignment needs. */
module LongestFirst {
  import opened Sorting
  import opened Lanes
  import opened LaneBounds
  import Ledger

  ghost predicate Descending(files: seq<Download>) {
    forall i, j :: 0 <= i < j < |files| ==> files[j].size <= files[i].size
  }

  ghost predicate AtLeast(files: seq<Download>, least: nat) {
    forall i :: 0 <= i < |files| ==> least <= files[i].size
  }

  // ---- Counting lanes ------------------------------------------------------------------------------

  lemma {:induction false} CountOfPrefix(choice: seq<nat>, b: nat, q: nat)
    requires b <= |choice|
    ensures Count(choice[..b], q) <= Count(choice, q)
    decreases |choice|
  {
    if b == |choice| {
      assert choice[..b] == choice;
    } else {
      CountOfPrefix(choice[..|choice| - 1], b, q);
      assert choice[..|choice| - 1][..b] == choice[..b];
    }
  }

  /** Two assignments with fewer than 2m files between them leave a lane with at most one; with more, one has three. */
  lemma {:induction false} FewInSomeLane(a: seq<nat>, b: seq<nat>, lanes: nat) returns (q: nat)
    requires CountIn(a, lanes) + CountIn(b, lanes) < 2 * lanes
    ensures q < lanes && Count(a, q) + Count(b, q) <= 1
  {
    q := lanes - 1;
    if Count(a, q) + Count(b, q) > 1 {
      q := FewInSomeLane(a, b, lanes - 1);
    }
  }

  lemma {:induction false} ManyInSomeLane(a: seq<nat>, b: seq<nat>, lanes: nat) returns (q: nat)
    requires CountIn(a, lanes) + CountIn(b, lanes) > 2 * lanes
    ensures q < lanes && Count(a, q) + Count(b, q) >= 3
  {
    q := lanes - 1;
    if Count(a, q) + Count(b, q) < 3 {
      q := ManyInSomeLane(a, b, lanes - 1);
    }
  }

  lemma {:induction false} EmptyLane(choice: seq<nat>, lanes: nat) returns (q: nat)
    requires CountIn(choice, lanes) < lanes
    ensures q < lanes && Count(choice, q) == 0
  {
    q := lanes - 1;
    if Count(choice, q) > 0 {
      q := EmptyLane(choice, lanes - 1);
    }
  }

  lemma {:induction false} OneEach(choice: seq<nat>, lanes: nat, q: nat)
    requires forall l: nat :: l < lanes ==> Count(choice, l) <= 1
    requires CountIn(choice, lanes) >= lanes && q < lanes
    ensures Count(choice, q) == 1
  {
    AtMostOneEach(choice, lanes - 1);
    if q < lanes - 1 {
      OneEach(choice, lanes - 1, q);
    }
  }

  lemma {:induction false} AtMostOneEach(choice: seq<nat>, lanes: nat)
    requires forall l: nat :: l < lanes ==> Count(choice, l) <= 1
    ensures CountIn(choice, lanes) <= lanes
  {
    if lanes > 0 {
      AtMostOneEach(choice, lanes - 1);
    }
  }

  // ---- Loads from counts ---------------------------------------------------------------------------

  lemma {:induction false} NoFilesNoLoad(files: seq<Download>, choice: seq<nat>, q: nat)
    requires |choice| == |files| && Count(choice, q) == 0
    ensures Load(files, choice, q) == 0
  {
    if files != [] {
      NoFilesNoLoad(files[..|files| - 1], choice[..|files| - 1], q);
    }
  }

  lemma {:induction false} LoadOfMany(files: seq<Download>, choice: seq<nat>, q: nat, least: nat)
    requires |choice| == |files| && AtLeast(files, least)
    ensures Count(choice, q) >= 1 ==> Load(files, choice, q) >= least
    ensures Count(choice, q) >= 2 ==> Load(files, choice, q) >= 2 * least
    ensures Count(choice, q) >= 3 ==> Load(files, choice, q) >= 3 * least
  {
    if files != [] {
      LoadOfMany(files[..|files| - 1], choice[..|files| - 1], q, least);
    }
  }

  /** A lane whose one file is not among the first b holds at most the size of file b. */
  lemma {:induction false} LoadOfOne(files: seq<Download>, choice: seq<nat>, q: nat, b: nat)
    requires |choice| == |files| && Descending(files) && b < |files|
    requires Count(choice, q) <= 1 && Count(choice[..b], q) == 0
    ensures Load(files, choice, q) <= files[b].size
    decreases |files|
  {
    var n := |files| - 1;
    if choice[n] == q || b == n {
      if Count(choice[..n], q) == 0 {
        NoFilesNoLoad(files[..n], choice[..n], q);
      }
    } else {
      assert choice[..n][..b] == choice[..b];
      LoadOfOne(files[..n], choice[..n], q, b);
    }
  }

  /** A lane with a file among the first b holds at least the size of the last of those. */
  lemma {:induction false} LoadOfBig(files: seq<Download>, choice: seq<nat>, q: nat, b: nat)
    requires |choice| == |files| && Descending(files) && 1 <= b <= |files| && Count(choice[..b], q) >= 1
    ensures Load(files, choice, q) >= files[b - 1].size
    decreases |files|
  {
    var n := |files| - 1;
    if b <= n {
      assert choice[..n][..b] == choice[..b];
      LoadOfBig(files[..n], choice[..n], q, b);
    } else {
      assert choice[..b] == choice;
      if choice[n] != q {
        assert choice[..n][..n] == choice[..n];
        LoadOfBig(files[..n], choice[..n], q, n);
      }
    }
  }

  /** With a second file it holds the least size more. */
  lemma {:induction false} LoadOfPair(files: seq<Download>, choice: seq<nat>, q: nat, b: nat, least: nat)
    requires |choice| == |files| && Descending(files) && AtLeast(files, least) && 1 <= b <= |files|
    requires Count(choice[..b], q) >= 1 && Count(choice, q) >= 2
    ensures Load(files, choice, q) >= files[b - 1].size + least
    decreases |files|
  {
    var n := |files| - 1;
    var c := if b <= n then b else n;
    assert choice[..n][..c] == choice[..c];
    if b > n {
      assert choice[..b] == choice;
    }
    if choice[n] == q {
      LoadOfBig(files[..n], choice[..n], q, c);
    } else {
      LoadOfPair(files[..n], choice[..n], q, c, least);
    }
  }

  // ---- The greedy's first round --------------------------------------------------------------------

  lemma {:induction false} GreedyOfPrefix(files: seq<Download>, lanes: nat, b: nat)
    requires lanes > 0 && b <= |files|
    ensures Greedy(files, lanes)[..b] == Greedy(files[..b], lanes)
    decreases |files|
  {
    if b == |files| {
      assert files[..b] == files;
    } else {
      LaneOfTheLast(files, lanes);
      GreedyOfPrefix(files[..|files| - 1], lanes, b);
      assert files[..|files| - 1][..b] == files[..b];
      assert Greedy(files, lanes)[..|files| - 1][..b] == Greedy(files, lanes)[..b];
    }
  }

  /** While there are fewer files than lanes, the next file finds an empty one. */
  lemma {:induction false} NextLaneIsEmpty(files: seq<Download>, lanes: nat)
    requires lanes > 0 && |files| < lanes && AtLeast(files, 1)
    ensures Load(files, Greedy(files, lanes), NextLane(files, lanes)) == 0
    ensures Count(Greedy(files, lanes), NextLane(files, lanes)) == 0
  {
    var choice := Greedy(files, lanes);
    CountsAddUp(choice, lanes);
    var q := EmptyLane(choice, lanes);
    NoFilesNoLoad(files, choice, q);
    NextLaneIsLow(files, lanes);
    LoadOfMany(files, choice, NextLane(files, lanes), 1);
  }

  /** The first m files go to m different lanes. */
  lemma {:induction false} FirstRound(files: seq<Download>, lanes: nat, q: nat)
    requires lanes > 0 && |files| <= lanes && AtLeast(files, 1)
    ensures Count(Greedy(files, lanes), q) <= 1
    decreases |files|
  {
    if files != [] {
      var n := |files| - 1;
      FirstRound(files[..n], lanes, q);
      NextLaneIsEmpty(files[..n], lanes);
      LaneOfTheLast(files, lanes);
    }
  }

  // ---- The last file -------------------------------------------------------------------------------

  /** If the last file is over a third of what an assignment needs, that assignment pairs two big files somewhere. */
  lemma {:induction false} SomePair(files: seq<Download>, lanes: nat, choice: seq<nat>, most: int)
    requires Descending(files) && Within(files, choice, lanes, most)
    requires lanes < |files| && 3 * files[|files| - 1].size > most
    ensures |files| <= 2 * lanes
    ensures files[2 * lanes - |files|].size + files[|files| - 1].size <= most
  {
    var n := |files| - 1;
    var least := files[n].size;
    CountsAddUp(choice, lanes);
    if |files| > 2 * lanes {
      CountInEmpty(lanes);
      var q := ManyInSomeLane(choice, [], lanes);
      LoadOfMany(files, choice, q, least);
      assert false;
    }
    var b := 2 * lanes - n;
    assert IntoLanes(choice[..b], lanes);
    CountsAddUp(choice[..b], lanes);
    var q := ManyInSomeLane(choice, choice[..b], lanes);
    CountOfPrefix(choice, b, q);
    LoadOfMany(files, choice, q, least);
    LoadOfPair(files, choice, q, b, least);
  }

  /** Longest first leaves a lane no fuller than the bigger file of that pair. */
  lemma {:induction false} SomeLowLane(files: seq<Download>, lanes: nat)
    requires lanes > 0 && Descending(files) && AtLeast(files, 1) && lanes <= |files| < 2 * lanes
    ensures Load(files, Greedy(files, lanes), NextLane(files, lanes)) <= files[2 * lanes - |files| - 1].size
  {
    var n, choice := |files|, Greedy(files, lanes);
    var b := 2 * lanes - n - 1;
    CountsAddUp(choice, lanes);
    CountsAddUp(choice[..b], lanes);
    var q := FewInSomeLane(choice, choice[..b], lanes);
    GreedyOfPrefix(files, lanes, lanes);
    forall l: nat | l < lanes
      ensures Count(choice[..lanes], l) <= 1
    {
      FirstRound(files[..lanes], lanes, l);
    }
    CountsAddUp(choice[..lanes], lanes);
    OneEach(choice[..lanes], lanes, q);
    CountOfPrefix(choice, lanes, q);
    LoadOfOne(files, choice, q, b);
    NextLaneIsLow(files, lanes);
  }

  /** A last file over a third of what an assignment needs is placed within that need. */
  lemma {:induction false} BigLastFileFits(files: seq<Download>, lanes: nat, choice: seq<nat>, most: int)
    requires lanes > 0 && files != [] && Descending(files) && Within(files, choice, lanes, most)
    requires 3 * files[|files| - 1].size > most
    ensures var front := files[..|files| - 1];
            Load(front, Greedy(front, lanes), NextLane(front, lanes)) + files[|files| - 1].size <= most
  {
    var n := |files| - 1;
    var front := files[..n];
    FileWithin(files, choice, n);
    assert Load(files, choice, choice[n]) <= most;
    assert AtLeast(front, 1);
    if n < lanes {
      NextLaneIsEmpty(front, lanes);
    } else {
      SomePair(files, lanes, choice, most);
      SomeLowLane(front, lanes);
    }
  }

  /** A load is within (4m - 1) / 3m of another. */
  predicate WithinGraham(lanes: int, load: int, most: int) {
    3 * lanes * load <= (4 * lanes - 1) * most
  }

  lemma ThirdOrLess(lanes: int, load: int, size: int, total: int, most: int)
    requires lanes >= 1 && lanes * load <= total - size && total <= lanes * most && 0 <= 3 * size <= most
    ensures WithinGraham(lanes, load + size, most)
  {
    var extra := (lanes - 1) * size;
    assert lanes * (load + size) == lanes * load + size + extra;
    assert 3 * extra == (lanes - 1) * (3 * size);
    assert (lanes - 1) * (3 * size) <= (lanes - 1) * most;
    assert (4 * lanes - 1) * most == 3 * (lanes * most) + (lanes - 1) * most;
    assert 3 * lanes * (load + size) == 3 * (lanes * (load + size));
  }

  lemma WholeOrLess(lanes: int, load: int, most: int)
    requires lanes >= 1 && load <= most && 0 <= most
    ensures WithinGraham(lanes, load, most)
  {
    assert 3 * lanes * load <= 3 * lanes * most;
    assert (4 * lanes - 1) * most == 3 * lanes * most + (lanes - 1) * most;
    NotNegative(lanes - 1, most);
  }

  lemma {:induction false} LastFileBound(files: seq<Download>, lanes: nat, choice: seq<nat>, most: int)
    requires lanes > 0 && files != [] && Descending(files) && Within(files, choice, lanes, most)
    ensures var front := files[..|files| - 1];
            WithinGraham(lanes, Load(front, Greedy(front, lanes), NextLane(front, lanes)) + files[|files| - 1].size, most)
  {
    var n := |files| - 1;
    var front, size := files[..n], files[n].size;
    var load := Load(front, Greedy(front, lanes), NextLane(front, lanes));
    hide WithinGraham;
    if 3 * size > most {
      BigLastFileFits(files, lanes, choice, most);
      WholeOrLess(lanes, load + size, most);
    } else {
      NextLaneIsLow(front, lanes);
      BytesWithin(files, choice, lanes, most);
      ThirdOrLess(lanes, load, size, Bytes(files), most);
    }
  }

  /** 3m * load <= (4m - 1) * most, in every lane, whatever assignment keeps its lanes within most. */
  lemma {:induction false} LongestFirstBound(files: seq<Download>, lanes: nat, choice: seq<nat>, most: int, lane: nat)
    requires lanes > 0 && lane < lanes && Descending(files) && Within(files, choice, lanes, most)
    ensures WithinGraham(lanes, Load(files, Greedy(files, lanes), lane), most)
    decreases |files|
  {
    hide *;
    if files == [] {
      NothingIsWithin(files, lanes, choice, most, lane);
    } else {
      var n := |files| - 1;
      LoadWithTheLast(files, lanes, lane);
      if NextLane(files[..n], lanes) == lane {
        LastFileBound(files, lanes, choice, most);
      } else {
        SmallerInput(files, lanes, choice, most);
        LongestFirstBound(files[..n], lanes, choice[..n], most, lane);
      }
    }
  }

  lemma NothingIsWithin(files: seq<Download>, lanes: nat, choice: seq<nat>, most: int, lane: nat)
    requires lanes > 0 && Within(files, choice, lanes, most) && files == []
    ensures WithinGraham(lanes, Load(files, Greedy(files, lanes), lane), most)
  {
    hide WithinGraham;
    assert Load(files, choice, 0) <= most;
    WholeOrLess(lanes, 0, most);
  }

  lemma SmallerInput(files: seq<Download>, lanes: nat, choice: seq<nat>, most: int)
    requires files != [] && Descending(files) && Within(files, choice, lanes, most)
    ensures |choice| == |files|
    ensures var n := |files| - 1; Descending(files[..n]) && Within(files[..n], choice[..n], lanes, most)
  {
    PrefixIsWithin(files, choice, lanes, most);
    hide Within;
  }

  // ---- The downloads -------------------------------------------------------------------------------

  lemma {:induction false} BySizeIsTotal()
    ensures TotalPreorder(BySize)
  {
    forall a: Download, b: Download, c: Download
      ensures BySize(a, b) || BySize(b, a)
      ensures BySize(a, b) && BySize(b, c) ==> BySize(a, c)
    {
      Ledger.TextLessOrders(a.path, b.path, c.path);
    }
  }

  /** The lanes that PartitionDownloads fills: no lane is over (4m - 1) / 3m of what the best assignment needs. */
  lemma {:induction false} DownloadsAreNearOptimal(downloads: seq<Download>, laneLimit: nat, choice: seq<nat>, most: int, lane: nat)
    requires var files, lanes := StableSort(downloads, BySize), if laneLimit < |downloads| then laneLimit else |downloads|;
             lane < lanes && Within(files, choice, lanes, most)
    ensures var files, lanes := StableSort(downloads, BySize), if laneLimit < |downloads| then laneLimit else |downloads|;
            WithinGraham(lanes, Load(files, Greedy(files, lanes), lane), most)
  {
    var files, lanes := StableSort(downloads, BySize), if laneLimit < |downloads| then laneLimit else |downloads|;
    BySizeIsTotal();
    SortOrders(downloads, BySize);
    forall i, j | 0 <= i < j < |files|
      ensures files[j].size <= files[i].size
    {
      assert BySize(files[i], files[j]);
    }
    LongestFirstBound(files, lanes, choice, most, lane);
  }

  lemma {:induction false} PathsSplit(a: seq<Download>, b: seq<Download>)
    ensures Paths(a + b) == Paths(a) + Paths(b)
  {
    if b == [] {
      assert a + b == a;
    } else {
      PathsSplit(a, b[..|b| - 1]);
      assert (a + b)[..|a + b| - 1] == a + b[..|b| - 1];
    }
  }

  lemma {:induction false} PathsOfInsert(x: Download, xs: seq<Download>)
    ensures multiset(Paths(Insert(x, xs, BySize))) == multiset(Paths([x] + xs))
  {
    if xs != [] && !BySize(x, xs[0]) {
      var h, t := [xs[0]], xs[1..];
      var r := Insert(x, t, BySize);
      assert Insert(x, xs, BySize) == h + r;
      assert [x] + xs == [x] + (h + t);
      PathsOfInsert(x, t);
      hide Insert, BySize, Paths;
      PathsSplit(h, r);
      PathsSplit([x], t);
      PathsSplit([x], h + t);
      PathsSplit(h, t);
    }
  }

  lemma {:induction false} PathsOfSorted(xs: seq<Download>)
    ensures multiset(Paths(StableSort(xs, BySize))) == multiset(Paths(xs))
  {
    if xs != [] {
      PathsOfSorted(xs[1..]);
      PathsOfInsert(xs[0], StableSort(xs[1..], BySize));
      PathsSplit([xs[0]], StableSort(xs[1..], BySize));
      PathsSplit([xs[0]], xs[1..]);
      assert xs == [xs[0]] + xs[1..];
    }
  }

  /** Every download is in exactly one lane, once. */
  lemma {:induction false} EachDownloadInOneLane(downloads: seq<Download>, lanes: seq<seq<string>>, count: nat)
    requires count > 0 && Splits(lanes, StableSort(downloads, BySize), count)
    ensures multiset(Together(lanes)) == multiset(Paths(downloads))
  {
    EachPathOnce(StableSort(downloads, BySize), lanes, count);
    PathsOfSorted(downloads);
  }

  /** The lanes do not depend on the order in which the downloads are listed: equal sizes are placed by path. */
  lemma ListingIsForgotten(downloads: seq<Download>, listed: seq<Download>)
    requires multiset(downloads) == multiset(listed)
    ensures StableSort(downloads, BySize) == StableSort(listed, BySize)
  {
    BySizeIsTotal();
    forall a, b | a in downloads && b in downloads && BySize(a, b) && BySize(b, a)
      ensures a == b
    {
      Ledger.TextLessOrders(a.path, b.path, a.path);
    }
    SortForgetsOrder(downloads, listed, BySize);
  }
}

/**
 * The per-symbol projection of a day's typed files (deploy/campus-107/build-l2-inputs.py): each symbol's file holds
 * exactly the rows, in order, that scanning everything for the symbol yields (pipeline/l2.py).
 */
module Projection {
  import opened Common
  import opened Wrappers
  import opened Sorting

  datatype Stream = Depth | DepthSnapshot | Other

  datatype Row = Row(symbol: Symbol, stream: Stream, payload: string)

  type Batch = seq<Row>

  predicate IsDepth(r: Row) {
    r.stream.Depth? || r.stream.DepthSnapshot?
  }

  function DepthOnly(rows: seq<Row>): seq<Row> {
    if rows == [] then [] else if IsDepth(rows[0]) then [rows[0]] + DepthOnly(rows[1..]) else DepthOnly(rows[1..])
  }

  function Only(rows: seq<Row>, s: Symbol): seq<Row> {
    if rows == [] then [] else if rows[0].symbol == s then [rows[0]] + Only(rows[1..], s) else Only(rows[1..], s)
  }

  // ---- The full scan -------------------------------------------------------------------------------

  function Wanted(rows: seq<Row>, s: Symbol): seq<Row> {
    if rows == [] then [] else if rows[0].symbol == s && (rows[0].stream.Depth? || rows[0].stream.DepthSnapshot?) then [rows[0]] + Wanted(rows[1..], s) else Wanted(rows[1..], s)
  }

  function ScanBatches(batches: seq<Batch>, s: Symbol): seq<Row> {
    if batches == [] then [] else ScanBatches(batches[..|batches| - 1], s) + Wanted(batches[|batches| - 1], s)
  }

  /** _depth_rows without an input file: every batch of every typed file. */
  function FullScan(files: seq<seq<Batch>>, s: Symbol): seq<Row> {
    if files == [] then [] else FullScan(files[..|files| - 1], s) + ScanBatches(files[|files| - 1], s)
  }

  lemma {:induction false} WantedIsOnlyDepth(rows: seq<Row>, s: Symbol)
    ensures Wanted(rows, s) == Only(DepthOnly(rows), s)
  {
    if rows != [] {
      WantedIsOnlyDepth(rows[1..], s);
      OnlyCons(rows[0], DepthOnly(rows[1..]), s);
    }
  }

  lemma OnlyCons(r: Row, rows: seq<Row>, s: Symbol)
    ensures Only([r] + rows, s) == if r.symbol == s then [r] + Only(rows, s) else Only(rows, s)
  {
    assert ([r] + rows)[1..] == rows;
  }

  // ---- Grouping a batch ------------------------------------------------------------------------------

  datatype Numbered = Numbered(row: Row, order: int)

  predicate BySymbolThenOrder(a: Numbered, b: Numbered) {
    a.row.symbol < b.row.symbol || (a.row.symbol == b.row.symbol && a.order <= b.order)
  }

  function WithOrder(rows: seq<Row>, from: int): (r: seq<Numbered>)
    ensures |r| == |rows| && forall i :: 0 <= i < |r| ==> r[i] == Numbered(rows[i], from + i)
  {
    seq(|rows|, (i: nat) requires i < |rows| => Numbered(rows[i], from + i))
  }

  function Rows(xs: seq<Numbered>): (r: seq<Row>)
    ensures |r| == |xs| && forall i :: 0 <= i < |r| ==> r[i] == xs[i].row
  {
    seq(|xs|, (i: nat) requires i < |xs| => xs[i].row)
  }

  datatype Group = Group(symbol: Symbol, rows: seq<Row>)

  /** A row prolongs the last run or starts another. */
  function AddRow(groups: seq<Group>, r: Row): seq<Group> {
    var last := |groups| - 1;
    if groups != [] && groups[last].symbol == r.symbol then groups[last := Group(r.symbol, groups[last].rows + [r])]
    else groups + [Group(r.symbol, [r])]
  }

  /** Run-length encoding by symbol, and the slices it describes. */
  function Runs(rows: seq<Row>): seq<Group> {
    if rows == [] then [] else AddRow(Runs(rows[..|rows| - 1]), rows[|rows| - 1])
  }

  function SortedFrom(rows: seq<Row>, from: int): seq<Numbered> {
    StableSort(WithOrder(rows, from), BySymbolThenOrder)
  }

  function GroupBySymbol(batch: seq<Row>): seq<Group> {
    Runs(Rows(SortedFrom(batch, 0)))
  }

  predicate SymbolsAscend(rows: seq<Row>) {
    forall i, j :: 0 <= i < j < |rows| ==> rows[i].symbol <= rows[j].symbol
  }

  ghost predicate HasGroup(groups: seq<Group>, s: Symbol) {
    exists k :: 0 <= k < |groups| && groups[k].symbol == s
  }

  /** Runs of rows in symbol order: one group per symbol, ascending, each with all of its rows. */
  ghost predicate Grouped(groups: seq<Group>, rows: seq<Row>) {
    && (forall i, j :: 0 <= i < j < |groups| ==> groups[i].symbol < groups[j].symbol)
    && (forall i :: 0 <= i < |groups| ==> groups[i].rows == Only(rows, groups[i].symbol) && groups[i].rows != [])
    && (forall i :: 0 <= i < |rows| ==> HasGroup(groups, rows[i].symbol))
  }

  lemma {:induction false} OnlySnoc(rows: seq<Row>, r: Row, s: Symbol)
    ensures Only(rows + [r], s) == if r.symbol == s then Only(rows, s) + [r] else Only(rows, s)
  {
    if rows == [] {
      assert [] + [r] == [r] && [r][1..] == [];
    } else {
      assert (rows + [r])[1..] == rows[1..] + [r];
      OnlySnoc(rows[1..], r, s);
    }
  }

  lemma {:induction false} OnlyNone(rows: seq<Row>, s: Symbol)
    requires forall i :: 0 <= i < |rows| ==> rows[i].symbol != s
    ensures Only(rows, s) == []
  {
    if rows != [] {
      OnlyNone(rows[1..], s);
    }
  }

  lemma {:induction false} OnlySome(rows: seq<Row>, s: Symbol) returns (i: nat)
    requires Only(rows, s) != []
    ensures i < |rows| && rows[i].symbol == s
  {
    if rows[0].symbol == s {
      i := 0;
    } else {
      var k := OnlySome(rows[1..], s);
      i := k + 1;
    }
  }

  lemma {:induction false} RunsGroup(rows: seq<Row>)
    requires SymbolsAscend(rows)
    ensures Grouped(Runs(rows), rows)
  {
    hide Only, AddRow;
    if rows != [] {
      var n := |rows| - 1;
      RunsGroup(rows[..n]);
      assert rows == rows[..n] + [rows[n]];
      OneMoreRow(Runs(rows[..n]), rows[..n], rows[n]);
    }
  }

  lemma {:induction false} OneMoreRow(groups: seq<Group>, rows: seq<Row>, r: Row)
    requires Grouped(groups, rows) && forall i :: 0 <= i < |rows| ==> rows[i].symbol <= r.symbol
    ensures Grouped(AddRow(groups, r), rows + [r])
  {
    if groups != [] && groups[|groups| - 1].symbol == r.symbol {
      LongerRun(groups, rows, r);
    } else {
      NewestSymbol(groups, rows, r);
      NewRun(groups, rows, r);
    }
  }

  lemma {:induction false} LongerRun(groups: seq<Group>, rows: seq<Row>, r: Row)
    requires Grouped(groups, rows) && groups != [] && groups[|groups| - 1].symbol == r.symbol
    ensures Grouped(AddRow(groups, r), rows + [r])
  {
    hide Only;
    var next, all := AddRow(groups, r), rows + [r];
    forall i | 0 <= i < |next|
      ensures next[i].rows == Only(all, next[i].symbol) && next[i].symbol == groups[i].symbol
    {
      OnlySnoc(rows, r, groups[i].symbol);
    }
    forall i | 0 <= i < |all|
      ensures HasGroup(next, all[i].symbol)
    {
      MoreGroups(groups, next, rows, all, i);
    }
  }

  lemma {:induction false} NewRun(groups: seq<Group>, rows: seq<Row>, r: Row)
    requires Grouped(groups, rows) && Only(rows, r.symbol) == [] && forall i :: 0 <= i < |groups| ==> groups[i].symbol < r.symbol
    ensures Grouped(AddRow(groups, r), rows + [r])
  {
    hide Only;
    var next, all := AddRow(groups, r), rows + [r];
    OnlySnoc(rows, r, r.symbol);
    forall i | 0 <= i < |next|
      ensures next[i].rows == Only(all, next[i].symbol) && next[i].rows != []
    {
      if i < |groups| {
        OnlySnoc(rows, r, groups[i].symbol);
      }
    }
    forall i | 0 <= i < |all|
      ensures HasGroup(next, all[i].symbol)
    {
      MoreGroups(groups, next, rows, all, i);
    }
  }

  lemma MoreGroups(groups: seq<Group>, next: seq<Group>, rows: seq<Row>, all: seq<Row>, i: nat)
    requires |all| == |rows| + 1 && i < |all| && all[..|rows|] == rows && |groups| <= |next| && next != []
    requires forall k :: 0 <= k < |groups| ==> next[k].symbol == groups[k].symbol
    requires next[|next| - 1].symbol == all[|rows|].symbol
    requires forall k :: 0 <= k < |rows| ==> HasGroup(groups, rows[k].symbol)
    ensures HasGroup(next, all[i].symbol)
  {
    if i < |rows| {
      assert all[i] == rows[i];
      var k :| 0 <= k < |groups| && groups[k].symbol == rows[i].symbol;
      assert next[k].symbol == all[i].symbol;
    } else {
      assert next[|next| - 1].symbol == all[i].symbol;
    }
  }

  lemma {:induction false} NewestSymbol(groups: seq<Group>, rows: seq<Row>, r: Row)
    requires Grouped(groups, rows) && forall i :: 0 <= i < |rows| ==> rows[i].symbol <= r.symbol
    requires groups == [] || groups[|groups| - 1].symbol != r.symbol
    ensures Only(rows, r.symbol) == [] && forall i :: 0 <= i < |groups| ==> groups[i].symbol < r.symbol
  {
    forall i | 0 <= i < |groups|
      ensures groups[i].symbol < r.symbol
    {
      var last := |groups| - 1;
      var k := OnlySome(rows, groups[last].symbol);
      assert groups[last].symbol <= r.symbol;
    }
    forall i | 0 <= i < |rows|
      ensures rows[i].symbol != r.symbol
    {
      assert HasGroup(groups, rows[i].symbol);
      var k :| 0 <= k < |groups| && groups[k].symbol == rows[i].symbol;
    }
    OnlyNone(rows, r.symbol);
  }

  // ---- Sorting keeps each symbol's rows in order -----------------------------------------------------

  predicate After(xs: seq<Numbered>, order: int) {
    forall i :: 0 <= i < |xs| ==> order < xs[i].order
  }

  lemma {:induction false} InsertKeepsOnly(x: Numbered, xs: seq<Numbered>, s: Symbol)
    requires After(xs, x.order)
    ensures Only(Rows(Insert(x, xs, BySymbolThenOrder)), s) == if x.row.symbol == s then [x.row] + Only(Rows(xs), s) else Only(Rows(xs), s)
  {
    if xs == [] || BySymbolThenOrder(x, xs[0]) {
      FirstRow(x, xs, s);
    } else {
      var rest := Insert(x, xs[1..], BySymbolThenOrder);
      assert Insert(x, xs, BySymbolThenOrder) == [xs[0]] + rest;
      InsertKeepsOnly(x, xs[1..], s);
      assert xs[0].row.symbol < x.row.symbol;
      assert xs == [xs[0]] + xs[1..];
      hide Insert, Only, Rows, BySymbolThenOrder, After;
      FirstRow(xs[0], rest, s);
      FirstRow(xs[0], xs[1..], s);
    }
  }

  lemma FirstRow(x: Numbered, xs: seq<Numbered>, s: Symbol)
    ensures Only(Rows([x] + xs), s) == if x.row.symbol == s then [x.row] + Only(Rows(xs), s) else Only(Rows(xs), s)
  {
    assert Rows([x] + xs) == [x.row] + Rows(xs);
    OnlyCons(x.row, Rows(xs), s);
  }

  lemma {:induction false} SortedComeAfter(rows: seq<Row>, from: int, order: int)
    requires order < from
    ensures After(SortedFrom(rows, from), order)
  {
    hide BySymbolThenOrder, StableSort;
    var xs, sorted := WithOrder(rows, from), SortedFrom(rows, from);
    SameElements(sorted, xs);
    forall i | 0 <= i < |sorted|
      ensures order < sorted[i].order
    {
      assert sorted[i] in xs;
    }
  }

  lemma {:induction false} SortedTail(rows: seq<Row>, from: int)
    requires rows != []
    ensures SortedFrom(rows, from) == Insert(Numbered(rows[0], from), SortedFrom(rows[1..], from + 1), BySymbolThenOrder)
  {
    assert WithOrder(rows, from)[1..] == WithOrder(rows[1..], from + 1);
  }

  lemma {:induction false} SortKeepsOnly(rows: seq<Row>, from: int, s: Symbol)
    ensures Only(Rows(SortedFrom(rows, from)), s) == Only(rows, s)
  {
    hide *;
    if rows == [] {
      NothingSorted(from, s);
    } else {
      var x, rest := Numbered(rows[0], from), SortedFrom(rows[1..], from + 1);
      SortKeepsOnly(rows[1..], from + 1, s);
      SortedTail(rows, from);
      SortedComeAfter(rows[1..], from + 1, from);
      InsertKeepsOnly(x, rest, s);
      OnlyCons(rows[0], rows[1..], s);
      assert rows == [rows[0]] + rows[1..];
    }
  }

  lemma NothingSorted(from: int, s: Symbol)
    ensures Only(Rows(SortedFrom([], from)), s) == Only([], s)
  {
    assert WithOrder([], from) == [];
  }

  lemma {:induction false} SortedAscends(rows: seq<Row>)
    ensures SymbolsAscend(Rows(SortedFrom(rows, 0)))
  {
    assert TotalPreorder(BySymbolThenOrder);
    SortOrders(WithOrder(rows, 0), BySymbolThenOrder);
    var sorted := SortedFrom(rows, 0);
    forall i, j | 0 <= i < j < |sorted|
      ensures sorted[i].row.symbol <= sorted[j].row.symbol
    {
      assert BySymbolThenOrder(sorted[i], sorted[j]);
    }
  }

  /** Grouping loses nothing and keeps the order of each symbol's rows. */
  lemma {:induction false} GroupingKeepsOrder(batch: seq<Row>)
    ensures Grouped(GroupBySymbol(batch), batch)
  {
    var rows := Rows(SortedFrom(batch, 0));
    SortedAscends(batch);
    RunsGroup(rows);
    var groups := Runs(rows);
    forall s {
      SortKeepsOnly(batch, 0, s);
    }
    hide SortedFrom, Runs;
    forall i | 0 <= i < |batch|
      ensures HasGroup(groups, batch[i].symbol)
    {
      HasRow(batch, i);
      var j := OnlySome(rows, batch[i].symbol);
      assert HasGroup(groups, rows[j].symbol);
    }
  }

  lemma {:induction false} HasRow(rows: seq<Row>, i: nat)
    requires i < |rows|
    ensures Only(rows, rows[i].symbol) != []
  {
    if i > 0 {
      HasRow(rows[1..], i - 1);
    }
  }

  // ---- Writing the projection ------------------------------------------------------------------------

  /** Rows written per symbol, and numbers of rows of other symbols. */
  datatype Output = Output(written: map<Symbol, seq<Row>>, ignored: map<Symbol, nat>)
  {
    function Of(s: Symbol): seq<Row> {
      if s in written then written[s] else []
    }

    function Ignored(s: Symbol): nat {
      if s in ignored then ignored[s] else 0
    }
  }

  /** For every symbol: the rows so far, if it is one of the projection's, or else their number. */
  ghost predicate Accounts(o: Output, symbols: set<Symbol>, rows: Symbol -> seq<Row>) {
    forall s :: if s in symbols then o.Of(s) == rows(s) && o.Ignored(s) == 0 else o.Ignored(s) == |rows(s)| && o.Of(s) == []
  }

  /** What the groups handled so far add for a symbol. */
  function FromGroups(groups: seq<Group>, s: Symbol): seq<Row> {
    if groups == [] then []
    else if groups[|groups| - 1].symbol == s then FromGroups(groups[..|groups| - 1], s) + groups[|groups| - 1].rows else FromGroups(groups[..|groups| - 1], s)
  }

  lemma {:induction false} FromAllGroups(groups: seq<Group>, rows: seq<Row>, s: Symbol, k: nat)
    requires Grouped(groups, rows) && k <= |groups|
    ensures FromGroups(groups[..k], s) == if exists i :: 0 <= i < k && groups[i].symbol == s then Only(rows, s) else []
  {
    if k > 0 {
      FromAllGroups(groups, rows, s, k - 1);
      assert groups[..k][..k - 1] == groups[..k - 1];
      if groups[k - 1].symbol == s {
        assert forall i :: 0 <= i < k - 1 ==> groups[i].symbol != s;
      }
    }
  }

  lemma {:induction false} GroupsAreTheBatch(batch: seq<Row>, s: Symbol)
    ensures FromGroups(GroupBySymbol(batch), s) == Only(batch, s)
  {
    var groups := GroupBySymbol(batch);
    GroupingKeepsOrder(batch);
    FromAllGroups(groups, batch, s, |groups|);
    assert groups[..|groups|] == groups;
    if !exists i :: 0 <= i < |groups| && groups[i].symbol == s {
      forall i | 0 <= i < |batch|
        ensures batch[i].symbol != s
      {
        assert HasGroup(groups, batch[i].symbol);
      }
      OnlyNone(batch, s);
    }
  }

  /** The rows so far, and those of another batch, of the first batches of a file, of the first files. */
  ghost function AndBatch(rows: Symbol -> seq<Row>, batch: Batch): Symbol -> seq<Row> {
    s => rows(s) + Wanted(batch, s)
  }

  ghost function AndBatches(rows: Symbol -> seq<Row>, batches: seq<Batch>, i: nat): Symbol -> seq<Row>
    requires i <= |batches|
  {
    s => rows(s) + ScanBatches(batches[..i], s)
  }

  ghost function FirstFiles(files: seq<seq<Batch>>, i: nat): Symbol -> seq<Row>
    requires i <= |files|
  {
    s => FullScan(files[..i], s)
  }

  /** One batch: its depth rows, grouped, each group to its symbol's writer or to the ignored count. */
  method WriteBatch(o: Output, symbols: set<Symbol>, batch: Batch, ghost rows: Symbol -> seq<Row>) returns (r: Output)
    requires Accounts(o, symbols, rows)
    ensures Accounts(r, symbols, AndBatch(rows, batch))
  {
    var depth := DepthOnly(batch);
    var groups := GroupBySymbol(depth);
    hide GroupBySymbol;
    r := o;
    var i := 0;
    while i < |groups|
      invariant 0 <= i <= |groups|
      invariant Accounts(r, symbols, s => rows(s) + FromGroups(groups[..i], s))
    {
      var g := groups[i];
      ghost var before := r;
      if g.symbol !in symbols {
        r := r.(ignored := r.ignored[g.symbol := r.Ignored(g.symbol) + |g.rows|]);
      } else {
        r := r.(written := r.written[g.symbol := r.Of(g.symbol) + g.rows]);
      }
      GroupWritten(before, r, symbols, rows, groups, i);
      i := i + 1;
    }
    assert groups[..i] == groups;
    ghost var f, h := s => rows(s) + FromGroups(groups[..i], s), AndBatch(rows, batch);
    forall s
      ensures f(s) == h(s)
    {
      GroupsAreTheBatch(depth, s);
      WantedIsOnlyDepth(batch, s);
    }
    SameAccounts(r, symbols, f, h);
  }

  lemma SameAccounts(o: Output, symbols: set<Symbol>, f: Symbol -> seq<Row>, h: Symbol -> seq<Row>)
    requires Accounts(o, symbols, f) && forall s :: f(s) == h(s)
    ensures Accounts(o, symbols, h)
  {
  }

  lemma {:induction false} GroupWritten(o: Output, r: Output, symbols: set<Symbol>, rows: Symbol -> seq<Row>, groups: seq<Group>, i: nat)
    requires i < |groups| && Accounts(o, symbols, s => rows(s) + FromGroups(groups[..i], s))
    requires var g := groups[i];
             r == if g.symbol !in symbols then o.(ignored := o.ignored[g.symbol := o.Ignored(g.symbol) + |g.rows|])
                  else o.(written := o.written[g.symbol := o.Of(g.symbol) + g.rows])
    ensures Accounts(r, symbols, s => rows(s) + FromGroups(groups[..i + 1], s))
  {
    hide FromGroups;
    var f := s => rows(s) + FromGroups(groups[..i], s);
    forall s
      ensures var all := rows(s) + FromGroups(groups[..i + 1], s);
              if s in symbols then r.Of(s) == all && r.Ignored(s) == 0 else r.Ignored(s) == |all| && r.Of(s) == []
    {
      NextGroup(groups, i, s);
      assert if s in symbols then o.Of(s) == f(s) && o.Ignored(s) == 0 else o.Ignored(s) == |f(s)| && o.Of(s) == [];
    }
  }

  lemma NextGroup(groups: seq<Group>, i: nat, s: Symbol)
    requires i < |groups|
    ensures FromGroups(groups[..i + 1], s) == if groups[i].symbol == s then FromGroups(groups[..i], s) + groups[i].rows else FromGroups(groups[..i], s)
  {
    assert groups[..i + 1][..i] == groups[..i];
  }

  method WriteFile(o: Output, symbols: set<Symbol>, batches: seq<Batch>, ghost rows: Symbol -> seq<Row>) returns (r: Output)
    requires Accounts(o, symbols, rows)
    ensures Accounts(r, symbols, AndBatches(rows, batches, |batches|))
  {
    hide Accounts, AndBatch, AndBatches;
    r := o;
    var i := 0;
    NoBatches(o, symbols, rows, batches);
    while i < |batches|
      invariant 0 <= i <= |batches|
      invariant Accounts(r, symbols, AndBatches(rows, batches, i))
    {
      r := WriteBatch(r, symbols, batches[i], AndBatches(rows, batches, i));
      NextBatch(r, symbols, rows, batches, i);
      i := i + 1;
    }
  }

  lemma NoBatches(o: Output, symbols: set<Symbol>, rows: Symbol -> seq<Row>, batches: seq<Batch>)
    requires Accounts(o, symbols, rows)
    ensures Accounts(o, symbols, AndBatches(rows, batches, 0))
  {
    assert batches[..0] == [];
    SameAccounts(o, symbols, rows, AndBatches(rows, batches, 0));
  }

  lemma NextBatch(r: Output, symbols: set<Symbol>, rows: Symbol -> seq<Row>, batches: seq<Batch>, i: nat)
    requires i < |batches| && Accounts(r, symbols, AndBatch(AndBatches(rows, batches, i), batches[i]))
    ensures Accounts(r, symbols, AndBatches(rows, batches, i + 1))
  {
    assert batches[..i + 1][..i] == batches[..i];
    SameAccounts(r, symbols, AndBatch(AndBatches(rows, batches, i), batches[i]), AndBatches(rows, batches, i + 1));
  }

  lemma NextFile(r: Output, symbols: set<Symbol>, files: seq<seq<Batch>>, i: nat)
    requires i < |files| && Accounts(r, symbols, AndBatches(FirstFiles(files, i), files[i], |files[i]|))
    ensures Accounts(r, symbols, FirstFiles(files, i + 1))
  {
    assert files[..i + 1][..i] == files[..i] && files[i][..|files[i]|] == files[i];
    SameAccounts(r, symbols, AndBatches(FirstFiles(files, i), files[i], |files[i]|), FirstFiles(files, i + 1));
  }

  /**
   * The whole partition loop. Every symbol of the projection gets exactly the rows of a full scan, in order; every other
   * symbol is ignored with as many rows as a full scan has; an expected symbol without rows is an error.
   */
  method BuildInputs(files: seq<seq<Batch>>, symbols: set<Symbol>) returns (result: Result<Output, string>)
    ensures result.Err? <==> exists s :: s in symbols && FullScan(files, s) == []
    ensures result.Ok? ==> forall s :: s in symbols ==> result.value.Of(s) == FullScan(files, s)
    ensures result.Ok? ==> forall s :: s !in symbols ==> result.value.Of(s) == [] && result.value.Ignored(s) == |FullScan(files, s)|
  {
    hide AndBatches, FirstFiles, Accounts;
    var o := Output(map[], map[]);
    NoFiles(symbols, files);
    var i := 0;
    while i < |files|
      invariant 0 <= i <= |files|
      invariant Accounts(o, symbols, FirstFiles(files, i))
    {
      o := WriteFile(o, symbols, files[i], FirstFiles(files, i));
      NextFile(o, symbols, files, i);
      i := i + 1;
    }
    AllFiles(o, symbols, files);
    if exists s :: s in symbols && o.Of(s) == [] {
      return Err("symbols have no L2 input rows");
    }
    result := Ok(o);
  }

  lemma NoFiles(symbols: set<Symbol>, files: seq<seq<Batch>>)
    ensures Accounts(Output(map[], map[]), symbols, FirstFiles(files, 0))
  {
    assert files[..0] == [];
  }

  lemma AllFiles(o: Output, symbols: set<Symbol>, files: seq<seq<Batch>>)
    requires Accounts(o, symbols, FirstFiles(files, |files|))
    ensures forall s :: if s in symbols then o.Of(s) == FullScan(files, s) else o.Of(s) == [] && o.Ignored(s) == |FullScan(files, s)|
  {
    assert files[..|files|] == files;
    assert forall s :: FirstFiles(files, |files|)(s) == FullScan(files, s);
  }
}

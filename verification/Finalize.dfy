/** The day's verdict over all symbols (pipeline/quality.py). */
module Finalize {
  import opened Intervals
  import opened Ledger
  import opened Quality
  import opened Listings

  const UNIVERSE_SIZE := 60

  /** What reconstruction left for a symbol: its validity rows, and whether its checkpoint names this day and symbol. */
  datatype SymbolOutput = SymbolOutput(rows: seq<Interval>, checkpointMatches: bool)

  datatype Day = Day(start: int, end: int, windowStart: int, windowEnd: int, ledger: seq<GapEvent>, outputs: map<string, SymbolOutput>)

  datatype Outcome = NoUniverse | OtherSymbols | WindowOutsideDay | BadValidity(symbol: string) | BadCheckpoint(symbol: string)
                   | Missing(symbols: seq<string>) | Rejected(symbols: seq<string>) | Processed

  predicate WindowInDay(d: Day) {
    d.start <= d.windowStart < d.windowEnd <= d.end
  }

  ghost predicate Readable(d: Day, s: string)
    requires s in d.outputs
  {
    ProperRows(d.outputs[s].rows, d.start, d.end) && d.outputs[s].checkpointMatches
  }

  /** Valid time and invalid time, each gap's up to the next valid time, partition the window, and at least 999 per mille of it is valid. */
  ghost predicate Passes(d: Day, s: string)
    requires s in d.outputs
  {
    var valid := Points(d.outputs[s].rows, d.windowStart, d.windowEnd);
    var invalid := InvalidUntilValid(ExplicitInvalid(d.ledger, s, d.windowStart, d.windowEnd), d.outputs[s].rows, d.windowStart, d.windowEnd);
    && Partition(valid, invalid, Range(d.windowStart, d.windowEnd))
    && (d.windowEnd - d.windowStart) * 999 <= |valid| * 1000
  }

  function Absent(d: Day, symbols: seq<string>): seq<string> {
    if symbols == [] then []
    else
      var front, last := Absent(d, symbols[..|symbols| - 1]), symbols[|symbols| - 1];
      if last in d.outputs then front else front + [last]
  }

  ghost function Failing(d: Day, symbols: seq<string>): seq<string> {
    if symbols == [] then []
    else
      var front, last := Failing(d, symbols[..|symbols| - 1]), symbols[|symbols| - 1];
      if last !in d.outputs || Passes(d, last) then front else front + [last]
  }

  /** Every output that is there can be read. */
  ghost predicate AllReadable(d: Day, symbols: seq<string>) {
    forall i :: 0 <= i < |symbols| && symbols[i] in d.outputs ==> Readable(d, symbols[i])
  }

  ghost predicate Accepts(d: Day, s: string) {
    s in d.outputs && Readable(d, s) && Passes(d, s)
  }

  /** The names are listed in the order of the symbols. */
  lemma {:induction false} NamedInOrder(d: Day, symbols: seq<string>, a: string, b: string)
    ensures forall s :: s in Absent(d, symbols) <==> s in symbols && s !in d.outputs
    ensures forall s :: s in Failing(d, symbols) <==> s in symbols && s in d.outputs && !Passes(d, s)
    ensures Precedes(Absent(d, symbols), a, b) || Precedes(Failing(d, symbols), a, b) ==> Precedes(symbols, a, b)
  {
    hide Passes;
    if symbols != [] {
      var front, last := symbols[..|symbols| - 1], symbols[|symbols| - 1];
      assert symbols == front + [last];
      NamedInOrder(d, front, a, b);
      PrecedesInMore(front, Absent(d, front), last, a, b);
      PrecedesInMore(front, Failing(d, front), last, a, b);
    }
  }

  /** Taking the last name or not keeps the order. */
  lemma {:induction false} PrecedesInMore(front: seq<string>, named: seq<string>, last: string, a: string, b: string)
    requires Precedes(named, a, b) ==> Precedes(front, a, b)
    requires forall s :: s in named ==> s in front
    ensures Precedes(named, a, b) || Precedes(named + [last], a, b) ==> Precedes(front + [last], a, b)
  {
    if Precedes(named, a, b) {
      PrecedesLonger(front, last, a, b);
    }
    if Precedes(named + [last], a, b) {
      var i, j :| 0 <= i < j < |named + [last]| && (named + [last])[i] == a && (named + [last])[j] == b;
      if j < |named| {
        assert named[i] == a && named[j] == b;
        PrecedesLonger(front, last, a, b);
      } else {
        assert named[i] in front;
        var k :| 0 <= k < |front| && front[k] == a;
        assert (front + [last])[k] == a && (front + [last])[|front|] == b;
      }
    }
  }

  lemma PrecedesLonger(front: seq<string>, last: string, a: string, b: string)
    requires Precedes(front, a, b)
    ensures Precedes(front + [last], a, b)
  {
    var i, j :| 0 <= i < j < |front| && front[i] == a && front[j] == b;
    assert (front + [last])[i] == a && (front + [last])[j] == b;
  }

  lemma {:induction false} NoneLeftOut(d: Day, symbols: seq<string>)
    ensures Absent(d, symbols) == [] <==> forall i :: 0 <= i < |symbols| ==> symbols[i] in d.outputs
    ensures Failing(d, symbols) == [] <==> forall i :: 0 <= i < |symbols| && symbols[i] in d.outputs ==> Passes(d, symbols[i])
  {
    hide Passes;
    if symbols != [] {
      NoneLeftOut(d, symbols[..|symbols| - 1]);
      assert symbols == symbols[..|symbols| - 1] + [symbols[|symbols| - 1]];
    }
  }

  /**
   * A day is processed exactly when the universe is the sealed one, the window lies in the day, and every symbol has
   * readable outputs that pass. Otherwise the missing symbols are named, or else those below the contract.
   */
  method FinalizeDay(expected: seq<string>, symbols: seq<string>, d: Day) returns (outcome: Outcome)
    ensures outcome.Processed? <==>
            && |expected| == 60 && NoRepeats(expected) && multiset(symbols) == multiset(expected) && WindowInDay(d)
            && forall i :: 0 <= i < |symbols| ==> Accepts(d, symbols[i])
    ensures outcome.Missing? ==> AllReadable(d, symbols) && outcome.symbols == Absent(d, symbols) != []
    ensures outcome.Rejected? ==> AllReadable(d, symbols) && Absent(d, symbols) == [] && outcome.symbols == Failing(d, symbols) != []
    ensures outcome.BadValidity? || outcome.BadCheckpoint? ==> !AllReadable(d, symbols)
  {
    NoRepeatsSize(expected);
    if |expected| != UNIVERSE_SIZE || |Elements(expected)| != UNIVERSE_SIZE {
      return NoUniverse;
    }
    if multiset(symbols) != multiset(expected) {
      return OtherSymbols;
    }
    if !(d.start <= d.windowStart < d.windowEnd <= d.end) {
      return WindowOutsideDay;
    }
    hide Passes, Readable, NoRepeats, Absent, Failing;
    var stop, missing, rejected := AssessAll(symbols, d);
    if stop != Processed {
      return stop;
    }
    NoneLeftOut(d, symbols);
    if missing != [] {
      return Missing(missing);
    }
    outcome := if rejected != [] then Rejected(rejected) else Processed;
  }

  /** The loop over the symbols: the first unreadable output ends it. */
  method AssessAll(symbols: seq<string>, d: Day) returns (stop: Outcome, missing: seq<string>, rejected: seq<string>)
    requires WindowInDay(d)
    ensures stop.Processed? || stop.BadValidity? || stop.BadCheckpoint?
    ensures stop.Processed? <==> AllReadable(d, symbols)
    ensures stop.Processed? ==> missing == Absent(d, symbols) && rejected == Failing(d, symbols)
  {
    hide Passes, Readable, WindowInDay;
    missing, rejected := [], [];
    var i := 0;
    while i < |symbols|
      invariant 0 <= i <= |symbols|
      invariant missing == Absent(d, symbols[..i]) && rejected == Failing(d, symbols[..i])
      invariant AllReadable(d, symbols[..i])
    {
      var s := symbols[i];
      assert symbols[..i + 1] == symbols[..i] + [s] && symbols[..i + 1][..i] == symbols[..i];
      if s !in d.outputs {
        missing := missing + [s];
      } else {
        var verdict := AssessOne(d, s);
        if verdict.BadValidity? || verdict.BadCheckpoint? {
          return verdict, missing, rejected;
        }
        if verdict.Rejected? {
          rejected := rejected + [s];
        }
      }
      i := i + 1;
    }
    assert symbols[..i] == symbols;
    stop := Processed;
  }

  /** One symbol: its rows and checkpoint first, then its coverage. */
  method AssessOne(d: Day, s: string) returns (verdict: Outcome)
    requires s in d.outputs && WindowInDay(d)
    ensures verdict.BadValidity? || verdict.BadCheckpoint? || verdict == Rejected([s]) || verdict.Processed?
    ensures verdict.BadValidity? || verdict.BadCheckpoint? <==> !Readable(d, s)
    ensures Readable(d, s) ==> (verdict.Processed? <==> Passes(d, s))
  {
    var output := d.outputs[s];
    var ok := ValidateValidity(output.rows, d.start, d.end);
    if !ok {
      return BadValidity(s);
    }
    if !output.checkpointMatches {
      return BadCheckpoint(s);
    }
    var _, passes := AssessSymbol(output.rows, d.ledger, s, d.windowStart, d.windowEnd);
    verdict := if passes then Processed else Rejected([s]);
  }
}

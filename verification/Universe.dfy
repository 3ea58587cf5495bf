/** One candidate role of the universe (universe/evidence.py): keep who may stay, fill vacancies, then swap a few. */
module Universe {
  import opened Common
  import opened Wrappers
  import opened Listings

  const ROLE_SIZE := 5

  /** The preferred symbols that are not forbidden, each once, in order. */
  function Allowed(preferred: seq<Symbol>, forbidden: set<Symbol>): (r: seq<Symbol>)
    ensures NoRepeats(r) && Elements(r) == Elements(preferred) - forbidden
  {
    if preferred == [] then []
    else
      var front, last := Allowed(preferred[..|preferred| - 1], forbidden), preferred[|preferred| - 1];
      assert preferred == preferred[..|preferred| - 1] + [last];
      AppendElement(preferred[..|preferred| - 1], last);
      AppendElement(front, last);
      if last in forbidden || last in front then front else front + [last]
  }

  function Staying(current: seq<Symbol>, forbidden: set<Symbol>, inactive: set<Symbol>): (r: seq<Symbol>)
    requires NoRepeats(current)
    ensures NoRepeats(r) && Elements(r) == Elements(current) - forbidden - inactive
  {
    if current == [] then []
    else
      var front, last := Staying(current[..|current| - 1], forbidden, inactive), current[|current| - 1];
      assert current == current[..|current| - 1] + [last];
      AppendElement(current[..|current| - 1], last);
      AppendElement(front, last);
      if last in forbidden || last in inactive then front else front + [last]
  }

  /** Those who stay keep their order. */
  lemma {:induction false} StayingKeepsOrder(current: seq<Symbol>, forbidden: set<Symbol>, inactive: set<Symbol>, a: Symbol, b: Symbol)
    requires NoRepeats(current) && Precedes(Staying(current, forbidden, inactive), a, b)
    ensures Precedes(current, a, b)
  {
    var r := Staying(current, forbidden, inactive);
    var i, j :| 0 <= i < j < |r| && r[i] == a && r[j] == b;
    var n := |current| - 1;
    var front, last := current[..n], current[n];
    assert current == front + [last];
    var before := Staying(front, forbidden, inactive);
    if j < |before| {
      assert before[i] == a && before[j] == b;
      StayingKeepsOrder(front, forbidden, inactive, a, b);
      var k, l :| 0 <= k < l < |front| && front[k] == a && front[l] == b;
      assert current[k] == a && current[l] == b;
    } else {
      assert before[i] == a;
      assert a in Elements(before);
      var k :| 0 <= k < n && front[k] == a;
      assert current[k] == a && current[n] == b;
    }
  }

  function Top(preferred: seq<Symbol>): seq<Symbol> {
    if |preferred| > ROLE_SIZE then preferred[..ROLE_SIZE] else preferred
  }

  function Remove(xs: seq<Symbol>, x: Symbol): (r: seq<Symbol>)
    requires NoRepeats(xs) && x in xs
    ensures NoRepeats(r) && Elements(r) == Elements(xs) - {x} && |r| == |xs| - 1
  {
    var front, last := xs[..|xs| - 1], xs[|xs| - 1];
    assert xs == front + [last];
    AppendElement(front, last);
    if last == x then front
    else
      AppendElement(Remove(front, x), last);
      assert last !in Elements(front);
      Remove(front, x) + [last]
  }

  function Filled(staying: seq<Symbol>, preferred: seq<Symbol>): seq<Symbol> {
    if preferred == [] then staying
    else
      var r, last := Filled(staying, preferred[..|preferred| - 1]), preferred[|preferred| - 1];
      if |r| < ROLE_SIZE && last !in r then r + [last] else r
  }

  lemma {:induction false} FullStaysFull(staying: seq<Symbol>, preferred: seq<Symbol>, i: nat)
    requires i <= |preferred| && |Filled(staying, preferred[..i])| >= ROLE_SIZE
    ensures Filled(staying, preferred) == Filled(staying, preferred[..i])
  {
    if i < |preferred| {
      var front := preferred[..|preferred| - 1];
      assert front[..i] == preferred[..i];
      FullStaysFull(staying, front, i);
    } else {
      assert preferred[..i] == preferred;
    }
  }

  lemma FilledNext(staying: seq<Symbol>, preferred: seq<Symbol>, i: nat)
    requires i < |preferred|
    ensures var r := Filled(staying, preferred[..i]);
            Filled(staying, preferred[..i + 1]) == if |r| < ROLE_SIZE && preferred[i] !in r then r + [preferred[i]] else r
  {
    assert preferred[..i + 1][..i] == preferred[..i];
  }

  /** Whoever fills a vacancy, everyone preferred to them is in. */
  lemma {:induction false} BetterAreIn(staying: seq<Symbol>, preferred: seq<Symbol>, i: nat, j: nat)
    requires NoRepeats(preferred) && i < j < |preferred|
    requires preferred[j] in Filled(staying, preferred) && preferred[j] !in staying
    ensures preferred[i] in Filled(staying, preferred)
  {
    var n := |preferred| - 1;
    var front := preferred[..n];
    if j < n {
      OnlyPreferred(staying, front);
      assert preferred[j] != preferred[n];
      BetterAreIn(staying, front, i, j);
    } else {
      OnlyPreferred(staying, front);
      assert preferred[n] !in front;
      RoomMeansAll(staying, front, i);
    }
  }

  lemma {:induction false} OnlyPreferred(staying: seq<Symbol>, preferred: seq<Symbol>)
    ensures forall s :: s in Filled(staying, preferred) ==> s in staying || s in preferred
  {
    if preferred != [] {
      OnlyPreferred(staying, preferred[..|preferred| - 1]);
    }
  }

  lemma {:induction false} RoomMeansAll(staying: seq<Symbol>, preferred: seq<Symbol>, i: nat)
    requires i < |preferred| && |Filled(staying, preferred)| < ROLE_SIZE
    ensures preferred[i] in Filled(staying, preferred)
  {
    if i < |preferred| - 1 {
      RoomMeansAll(staying, preferred[..|preferred| - 1], i);
    }
  }

  /** Vacancies are filled in order of preference. */
  method FillVacancies(staying: seq<Symbol>, preferred: seq<Symbol>) returns (result: seq<Symbol>)
    requires NoRepeats(staying)
    ensures NoRepeats(result) && Elements(staying) <= Elements(result) <= Elements(staying) + Elements(preferred)
    ensures |staying| <= ROLE_SIZE ==> |result| <= ROLE_SIZE
    ensures |staying| >= ROLE_SIZE ==> result == staying
    ensures |result| < ROLE_SIZE ==> Elements(preferred) <= Elements(result)
    ensures result == Filled(staying, preferred)
  {
    result := staying;
    var i := 0;
    while i < |preferred| && |result| < ROLE_SIZE
      invariant 0 <= i <= |preferred|
      invariant NoRepeats(result) && Elements(staying) <= Elements(result) <= Elements(staying) + Elements(preferred)
      invariant |staying| <= ROLE_SIZE ==> |result| <= ROLE_SIZE
      invariant |staying| >= ROLE_SIZE ==> result == staying
      invariant Elements(preferred[..i]) <= Elements(result) && result == Filled(staying, preferred[..i])
    {
      hide Filled, NoRepeats;
      FilledNext(staying, preferred, i);
      assert preferred[..i + 1] == preferred[..i] + [preferred[i]];
      if preferred[i] !in result {
        AppendElement(result, preferred[i]);
        result := result + [preferred[i]];
      }
      i := i + 1;
    }
    assert i == |preferred| ==> preferred[..i] == preferred;
    if |result| >= ROLE_SIZE {
      FullStaysFull(staying, preferred, i);
    }
  }

  function LastSwappable(result: seq<Symbol>, top: seq<Symbol>, dwelled: Symbol -> bool): (found: Option<Symbol>)
    ensures found.Some? ==> found.value in result && found.value !in top && dwelled(found.value)
  {
    if result == [] then None
    else
      var last := result[|result| - 1];
      if last !in top && dwelled(last) then Some(last) else LastSwappable(result[..|result| - 1], top, dwelled)
  }

  ghost predicate NoneMayGo(result: seq<Symbol>, top: seq<Symbol>, dwelled: Symbol -> bool) {
    forall s :: s in result ==> s in top || !dwelled(s)
  }

  /** The member may go, and nobody behind it may. */
  ghost predicate LastToGo(result: seq<Symbol>, top: seq<Symbol>, dwelled: Symbol -> bool, s: Symbol) {
    exists i :: 0 <= i < |result| && result[i] == s && s !in top && dwelled(s) && forall k :: i < k < |result| ==> result[k] in top || !dwelled(result[k])
  }

  lemma {:induction false} NoneSwappable(result: seq<Symbol>, top: seq<Symbol>, dwelled: Symbol -> bool)
    ensures LastSwappable(result, top, dwelled).None? <==> NoneMayGo(result, top, dwelled)
  {
    if result != [] {
      var front, last := result[..|result| - 1], result[|result| - 1];
      assert result == front + [last];
      NoneSwappable(front, top, dwelled);
    }
  }

  /** The last member that may be swapped out: not among the five preferred, and long enough in. */
  method LastRemovable(result: seq<Symbol>, top: seq<Symbol>, dwelled: Symbol -> bool) returns (found: Option<Symbol>)
    ensures found.Some? ==> found.value in result && found.value !in top && dwelled(found.value)
    ensures found.None? ==> NoneMayGo(result, top, dwelled)
    ensures found.Some? ==> LastToGo(result, top, dwelled, found.value)
    ensures found == LastSwappable(result, top, dwelled)
  {
    found := None;
    var i := |result|;
    assert result[..i] == result;
    while i > 0 && found.None?
      invariant 0 <= i <= |result|
      invariant found.Some? ==> found.value in result && found.value !in top && dwelled(found.value) && LastToGo(result, top, dwelled, found.value)
      invariant found.None? ==> forall k :: i <= k < |result| ==> result[k] in top || !dwelled(result[k])
      invariant LastSwappable(result, top, dwelled) == if found.Some? then found else LastSwappable(result[..i], top, dwelled)
    {
      i := i - 1;
      assert result[..i + 1][..i] == result[..i];
      if result[i] !in top && dwelled(result[i]) {
        found := Some(result[i]);
      }
    }
  }

  /** Members lost since a starting list were swappable, and no more than some number of them are gone. */
  ghost predicate SwappedFrom(start: set<Symbol>, result: seq<Symbol>, preferred: seq<Symbol>, dwelled: Symbol -> bool, changes: nat) {
    && NoRepeats(result) && |result| == |start|
    && Elements(result) <= start + Elements(preferred)
    && (forall s :: s in start && s !in result ==> dwelled(s) && s !in Top(preferred))
    && |start - Elements(result)| <= changes
  }

  lemma {:induction false} OneMoreGone(start: set<Symbol>, was: set<Symbol>, leaving: Symbol, joining: Symbol)
    ensures |start - (was - {leaving} + {joining})| <= |start - was| + 1
  {
    var gone := start - (was - {leaving} + {joining});
    SmallerSet(gone, (start - was) + {leaving});
  }

  lemma {:induction false} OneMoreSwapped(start: set<Symbol>, result: seq<Symbol>, preferred: seq<Symbol>, dwelled: Symbol -> bool, changes: nat, leaving: Symbol, joining: Symbol)
    requires SwappedFrom(start, result, preferred, dwelled, changes)
    requires leaving in result && leaving !in Top(preferred) && dwelled(leaving) && joining in preferred && joining !in result
    ensures NoRepeats(result) && SwappedFrom(start, Remove(result, leaving) + [joining], preferred, dwelled, changes + 1)
  {
    var kept := Remove(result, leaving);
    var r := kept + [joining];
    AppendElement(kept, joining);
    var was := Elements(result);
    hide Remove, Top, NoRepeats;
    assert joining !in Elements(kept);
    assert Elements(r) == was - {leaving} + {joining};
    OneMoreGone(start, was, leaving, joining);
    forall s | s in start && s !in r
      ensures dwelled(s) && s !in Top(preferred)
    {
      assert s !in Elements(r);
      if s != leaving {
        assert s !in was;
        assert s !in result;
      }
    }
    hide Elements;
    assert Elements(r) <= start + Elements(preferred) by {
      assert joining in Elements(preferred) by {
        InElements(preferred, joining);
      }
    }
  }

  lemma InElements(xs: seq<Symbol>, x: Symbol)
    requires x in xs
    ensures x in Elements(xs)
  {
  }

  lemma {:induction false} SmallerSet(a: set<Symbol>, b: set<Symbol>)
    requires a <= b
    ensures |a| <= |b|
  {
    assert b == a + (b - a);
  }

  /** A preferred symbol that is not in yet takes the place of the last member that may go, up to the limit. */
  function SwapIn(members: seq<Symbol>, changes: nat, joining: Symbol, top: seq<Symbol>, dwelled: Symbol -> bool, limit: nat): (r: (seq<Symbol>, nat))
    requires NoRepeats(members)
    ensures NoRepeats(r.0)
  {
    var leaving := LastSwappable(members, top, dwelled);
    if joining in members || changes >= limit || leaving.None? then (members, changes)
    else
      AppendElement(Remove(members, leaving.value), joining);
      AppendElement(members, joining);
      (Remove(members, leaving.value) + [joining], changes + 1)
  }

  function SwappedBy(start: seq<Symbol>, preferred: seq<Symbol>, top: seq<Symbol>, dwelled: Symbol -> bool, limit: nat): (r: (seq<Symbol>, nat))
    requires NoRepeats(start)
    ensures NoRepeats(r.0)
  {
    if preferred == [] then (start, 0)
    else
      var (members, changes) := SwappedBy(start, preferred[..|preferred| - 1], top, dwelled, limit);
      SwapIn(members, changes, preferred[|preferred| - 1], top, dwelled, limit)
  }

  lemma SwappedNext(start: seq<Symbol>, preferred: seq<Symbol>, i: nat, top: seq<Symbol>, dwelled: Symbol -> bool, limit: nat)
    requires NoRepeats(start) && i < |preferred|
    ensures var (members, changes) := SwappedBy(start, preferred[..i], top, dwelled, limit);
            SwappedBy(start, preferred[..i + 1], top, dwelled, limit) == SwapIn(members, changes, preferred[i], top, dwelled, limit)
  {
    hide SwapIn;
    assert preferred[..i + 1][..i] == preferred[..i];
  }

  lemma {:induction false} SwapInKeeps(start: set<Symbol>, members: seq<Symbol>, changes: nat, joining: Symbol, preferred: seq<Symbol>,
                                       dwelled: Symbol -> bool, limit: nat)
    requires NoRepeats(members) && SwappedFrom(start, members, preferred, dwelled, changes) && joining in preferred
    ensures var (r, n) := SwapIn(members, changes, joining, Top(preferred), dwelled, limit);
            SwappedFrom(start, r, preferred, dwelled, n) && (changes <= limit ==> n <= limit)
  {
    hide SwappedFrom, NoRepeats, Remove, Top;
    var leaving := LastSwappable(members, Top(preferred), dwelled);
    if joining !in members && changes < limit && leaving.Some? {
      OneMoreSwapped(start, members, preferred, dwelled, changes, leaving.value, joining);
    }
  }

  method SwapOne(members: seq<Symbol>, changes: nat, joining: Symbol, top: seq<Symbol>, dwelled: Symbol -> bool, limit: nat)
    returns (r: seq<Symbol>, n: nat)
    requires NoRepeats(members)
    ensures (r, n) == SwapIn(members, changes, joining, top, dwelled, limit)
  {
    hide NoRepeats, LastSwappable, Remove;
    r, n := members, changes;
    if joining !in members && changes < limit {
      var leaving := LastRemovable(members, top, dwelled);
      if leaving.Some? {
        r, n := Remove(members, leaving.value) + [joining], changes + 1;
      }
    }
  }

  lemma NothingSwapped(start: seq<Symbol>, preferred: seq<Symbol>, top: seq<Symbol>, dwelled: Symbol -> bool, limit: nat)
    requires NoRepeats(start)
    ensures SwappedFrom(Elements(start), start, preferred, dwelled, 0) && (start, 0) == SwappedBy(start, preferred[..0], top, dwelled, limit)
  {
    NoRepeatsSize(start);
  }

  method SwapSome(start: seq<Symbol>, preferred: seq<Symbol>, dwelled: Symbol -> bool, limit: nat) returns (result: seq<Symbol>, changes: nat)
    requires NoRepeats(start)
    ensures SwappedFrom(Elements(start), result, preferred, dwelled, changes) && changes <= limit
    ensures (result, changes) == SwappedBy(start, preferred, Top(preferred), dwelled, limit)
  {
    hide *;
    NothingSwapped(start, preferred, Top(preferred), dwelled, limit);
    result := start;
    changes := 0;
    var i := 0;
    while i < |preferred|
      invariant 0 <= i <= |preferred| && changes <= limit
      invariant SwappedFrom(Elements(start), result, preferred, dwelled, changes)
      invariant (result, changes) == SwappedBy(start, preferred[..i], Top(preferred), dwelled, limit)
    {
      SwappedNext(start, preferred, i, Top(preferred), dwelled, limit);
      SwapInKeeps(Elements(start), result, changes, preferred[i], preferred, dwelled, limit);
      result, changes := SwapOne(result, changes, preferred[i], Top(preferred), dwelled, limit);
      i := i + 1;
    }
    assert preferred[..i] == preferred;
  }

  // ---- When swaps stop -----------------------------------------------------------------------------

  /** Why no more members are swapped: the limit is reached, the preferred are all in, or nobody is left who may go. */
  ghost predicate SwapsEnded(start: seq<Symbol>, result: seq<Symbol>, preferred: seq<Symbol>, dwelled: Symbol -> bool, limit: nat) {
    || |Elements(start) - Elements(result)| >= limit
    || (forall s :: s in Top(preferred) ==> s in result)
    || NoneMayGo(result, Top(preferred), dwelled)
  }

  /** While the top preferences are tried, only they come in, and each change is the loss of another member. */
  ghost predicate TopTried(start: seq<Symbol>, members: seq<Symbol>, changes: nat, top: seq<Symbol>, i: nat, dwelled: Symbol -> bool, limit: nat) {
    && i <= |top| && |Elements(start) - Elements(members)| == changes
    && (forall s :: s in members ==> s in start || s in top)
    && (forall s :: s in start && s !in members ==> s !in top)
    && (changes >= limit || (forall k :: 0 <= k < i ==> top[k] in members) || NoneMayGo(members, top, dwelled))
  }

  /** An exchange of a member that may go for a top preference loses one member more. */
  lemma {:induction false} OneMoreLost(start: seq<Symbol>, members: seq<Symbol>, r: seq<Symbol>, top: seq<Symbol>, leaving: Symbol, joining: Symbol)
    requires forall s :: s in r <==> (s in members && s != leaving) || s == joining
    requires forall s :: s in start && s !in members ==> s !in top
    requires leaving in members && leaving in start && leaving !in top && joining in top
    ensures |Elements(start) - Elements(r)| == |Elements(start) - Elements(members)| + 1
  {
    var lost, gone := Elements(start) - Elements(r), Elements(start) - Elements(members);
    forall s
      ensures s in lost <==> s in gone || s == leaving
    {
      assert s in lost <==> s in start && s !in r;
      assert s in gone <==> s in start && s !in members;
    }
    assert leaving !in gone;
    hide Elements;
    assert lost == gone + {leaving};
  }

  lemma {:induction false} OneMoreTried(start: seq<Symbol>, members: seq<Symbol>, changes: nat, top: seq<Symbol>, i: nat, dwelled: Symbol -> bool, limit: nat)
    requires NoRepeats(members) && TopTried(start, members, changes, top, i, dwelled, limit) && i < |top|
    ensures var (r, n) := SwapIn(members, changes, top[i], top, dwelled, limit); TopTried(start, r, n, top, i + 1, dwelled, limit)
  {
    hide Remove, NoRepeats, LastSwappable, Elements;
    NoneSwappable(members, top, dwelled);
    var leaving := LastSwappable(members, top, dwelled);
    if top[i] !in members && changes < limit && leaving.Some? {
      var r := Remove(members, leaving.value) + [top[i]];
      SwappedMembers(members, leaving.value, top[i]);
      OneMoreLost(start, members, r, top, leaving.value, top[i]);
      assert forall k :: 0 <= k < i ==> top[k] in members && top[k] != leaving.value;
    }
  }

  lemma {:induction false} SwappedMembers(members: seq<Symbol>, leaving: Symbol, joining: Symbol)
    requires NoRepeats(members) && leaving in members && joining !in members
    ensures forall s :: s in Remove(members, leaving) + [joining] <==> (s in members && s != leaving) || s == joining
  {
    var kept := Remove(members, leaving);
    forall s
      ensures s in kept <==> s in members && s != leaving
    {
      assert s in kept <==> s in Elements(kept);
      assert s in members <==> s in Elements(members);
    }
  }

  lemma {:induction false} TopIsTried(start: seq<Symbol>, preferred: seq<Symbol>, i: nat, dwelled: Symbol -> bool, limit: nat)
    requires NoRepeats(start) && i <= |Top(preferred)|
    ensures var (r, n) := SwappedBy(start, preferred[..i], Top(preferred), dwelled, limit);
            NoRepeats(r) && TopTried(start, r, n, Top(preferred), i, dwelled, limit)
  {
    var top := Top(preferred);
    if i == 0 {
      assert Elements(start) - Elements(start) == {};
    } else {
      TopIsTried(start, preferred, i - 1, dwelled, limit);
      SwappedNext(start, preferred, i - 1, top, dwelled, limit);
      var (members, changes) := SwappedBy(start, preferred[..i - 1], top, dwelled, limit);
      OneMoreTried(start, members, changes, top, i - 1, dwelled, limit);
      assert top[i - 1] == preferred[i - 1];
    }
  }

  /** Once the top preferences are tried, later ones do not undo that. */
  ghost predicate Ended(start: seq<Symbol>, members: seq<Symbol>, changes: nat, top: seq<Symbol>, dwelled: Symbol -> bool, limit: nat) {
    || (changes >= limit && |Elements(start) - Elements(members)| >= limit)
    || (forall s :: s in top ==> s in members)
    || NoneMayGo(members, top, dwelled)
  }

  lemma {:induction false} StaysEnded(start: seq<Symbol>, members: seq<Symbol>, changes: nat, joining: Symbol, top: seq<Symbol>, dwelled: Symbol -> bool, limit: nat)
    requires NoRepeats(members) && Ended(start, members, changes, top, dwelled, limit)
    ensures var (r, n) := SwapIn(members, changes, joining, top, dwelled, limit); Ended(start, r, n, top, dwelled, limit)
  {
    hide Remove, NoRepeats, LastSwappable, Elements;
    NoneSwappable(members, top, dwelled);
    var leaving := LastSwappable(members, top, dwelled);
    if joining !in members && changes < limit && leaving.Some? {
      SwappedMembers(members, leaving.value, joining);
    }
  }

  lemma {:induction false} AllTried(start: seq<Symbol>, preferred: seq<Symbol>, i: nat, dwelled: Symbol -> bool, limit: nat)
    requires NoRepeats(start) && |Top(preferred)| <= i <= |preferred|
    ensures var (r, n) := SwappedBy(start, preferred[..i], Top(preferred), dwelled, limit); Ended(start, r, n, Top(preferred), dwelled, limit)
  {
    var top := Top(preferred);
    if i == |top| {
      TopIsTried(start, preferred, i, dwelled, limit);
      hide SwappedBy, Elements;
      var (r, n) := SwappedBy(start, preferred[..i], top, dwelled, limit);
      if forall k :: 0 <= k < i ==> top[k] in r {
        forall s | s in top
          ensures s in r
        {
          var k :| 0 <= k < |top| && top[k] == s;
        }
      }
    } else {
      AllTried(start, preferred, i - 1, dwelled, limit);
      SwappedNext(start, preferred, i - 1, top, dwelled, limit);
      var (members, changes) := SwappedBy(start, preferred[..i - 1], top, dwelled, limit);
      StaysEnded(start, members, changes, preferred[i - 1], top, dwelled, limit);
    }
  }

  /** Swaps end only where they should. */
  lemma {:induction false} SwapsEndWhereTheyShould(start: seq<Symbol>, preferred: seq<Symbol>, dwelled: Symbol -> bool, limit: nat)
    requires NoRepeats(start)
    ensures SwapsEnded(start, SwappedBy(start, preferred, Top(preferred), dwelled, limit).0, preferred, dwelled, limit)
  {
    AllTried(start, preferred, |preferred|, dwelled, limit);
    assert preferred[..|preferred|] == preferred;
  }

  /** What a reconciled role is: who is in it, who left it, how many did, and why no more did. */
  ghost predicate Reconciled(r: seq<Symbol>, current: seq<Symbol>, preferred: seq<Symbol>, forbidden: set<Symbol>, inactive: set<Symbol>,
                             dwelled: Symbol -> bool, limit: nat)
    requires NoRepeats(current)
  {
    var allowed, staying := Allowed(preferred, forbidden), Staying(current, forbidden, inactive);
    && NoRepeats(r) && |r| == ROLE_SIZE
    && Elements(r) <= Elements(staying) + Elements(allowed)
    && (forall s :: s in staying && s !in r ==> dwelled(s) && s !in Top(allowed))
    && |Elements(current) - Elements(r)| <= |Elements(current) - Elements(staying)| + limit
    && SwapsEnded(Filled(staying, allowed), r, allowed, dwelled, limit)
  }

  /** The members that a role ends with: those that stay, vacancies filled, then some swapped. */
  function RoleChoice(current: seq<Symbol>, preferred: seq<Symbol>, forbidden: set<Symbol>, inactive: set<Symbol>,
                      dwelled: Symbol -> bool, limit: nat): seq<Symbol>
    requires NoRepeats(current)
  {
    var allowed := Allowed(preferred, forbidden);
    var filled := Filled(Staying(current, forbidden, inactive), allowed);
    FilledDistinct(Staying(current, forbidden, inactive), allowed);
    SwappedBy(filled, allowed, Top(allowed), dwelled, limit).0
  }

  lemma {:induction false} FilledDistinct(staying: seq<Symbol>, preferred: seq<Symbol>)
    requires NoRepeats(staying)
    ensures NoRepeats(Filled(staying, preferred))
  {
    if preferred != [] {
      FilledDistinct(staying, preferred[..|preferred| - 1]);
      AppendElement(Filled(staying, preferred[..|preferred| - 1]), preferred[|preferred| - 1]);
    }
  }

  /**
   * The whole of _reconcile_bucket for a role of five. Of its two errors the second never happens, and the first exactly
   * when the members that may stay and the allowed candidates together are fewer than five.
   */
  method ReconcileBucket(current: seq<Symbol>, preferred: seq<Symbol>, forbidden: set<Symbol>, inactive: set<Symbol>,
                         dwelled: Symbol -> bool, limit: nat) returns (r: Result<seq<Symbol>, string>)
    requires NoRepeats(current) && |current| == ROLE_SIZE
    ensures r.Err? <==> |Elements(Staying(current, forbidden, inactive)) + Elements(Allowed(preferred, forbidden))| < ROLE_SIZE
    ensures r.Err? ==> r.error == "not enough qualified instruments to fill candidate role"
    ensures r.Ok? ==> Reconciled(r.value, current, preferred, forbidden, inactive, dwelled, limit)
    ensures r.Ok? ==> r.value == RoleChoice(current, preferred, forbidden, inactive, dwelled, limit)
  {
    var allowed, staying := Allowed(preferred, forbidden), Staying(current, forbidden, inactive);
    NoRepeatsSize(current);
    NoRepeatsSize(staying);
    SmallerSet(Elements(staying), Elements(current));
    var filled := FillVacancies(staying, allowed);
    NoRepeatsSize(filled);
    if |filled| < ROLE_SIZE {
      assert Elements(filled) == Elements(staying) + Elements(allowed);
    } else {
      SmallerSet(Elements(filled), Elements(staying) + Elements(allowed));
    }
    var result, changes := SwapSome(filled, allowed, dwelled, limit);
    SwapsEndWhereTheyShould(filled, allowed, dwelled, limit);
    if |result| != ROLE_SIZE {
      return Err("not enough qualified instruments to fill candidate role");
    }
    ReconciledBySwaps(current, staying, filled, result, changes);
    NoForcedVacancy(current, staying);
    if |staying| == ROLE_SIZE && |Elements(current) - Elements(result)| > limit {
      return Err("candidate replacement limit exceeded");
    }
    assert forall s :: s in staying ==> s in Elements(filled);
    r := Ok(result);
  }

  lemma {:induction false} ReconciledBySwaps(current: seq<Symbol>, staying: seq<Symbol>, filled: seq<Symbol>, result: seq<Symbol>, changes: nat)
    requires Elements(staying) <= Elements(filled) && |Elements(filled) - Elements(result)| <= changes
    ensures |Elements(current) - Elements(result)| <= |Elements(current) - Elements(staying)| + changes
  {
    var gone, a, b := Elements(current) - Elements(result), Elements(current) - Elements(staying), Elements(filled) - Elements(result);
    assert gone <= a + b;
    SmallerSet(gone, a + b);
    assert |a + b| <= |a| + |b|;
  }

  lemma {:induction false} NoForcedVacancy(current: seq<Symbol>, staying: seq<Symbol>)
    requires NoRepeats(current) && NoRepeats(staying) && Elements(staying) <= Elements(current)
    ensures |staying| == |current| ==> Elements(current) - Elements(staying) == {}
  {
    NoRepeatsSize(current);
    NoRepeatsSize(staying);
    var gone := Elements(current) - Elements(staying);
    assert Elements(current) == Elements(staying) + gone;
    assert |Elements(current)| == |Elements(staying)| + |gone|;
  }
}

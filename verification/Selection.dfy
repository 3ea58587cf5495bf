/** The rolling universe (universe/selection.py): 50 core, 5 boundary and 5 probe symbols from ranked pools. */
module Selection {
  import opened Common
  import opened Wrappers
  import opened Sorting
  import opened Listings
  import opened Universe

  const UNRANKED := 1_000_000_000
  const CORE_SIZE := 50
  const MATURE_RESERVE := 55

  datatype Policy = Policy(coreEntryRank: int, coreRetainRank: int, coreWeeklyReplacements: int, boundaryRetainRank: int, candidateDailyReplacements: int)

  datatype Members = Members(core: seq<Symbol>, boundary: seq<Symbol>, probe: seq<Symbol>)

  /** Why the active universe is preserved. */
  datatype Reason = EvidenceIncomplete | ReserveIncomplete | ChangesFrozen | ProbeReserveIncomplete | BoundaryReserveIncomplete

  datatype Selection = Preserved(reason: Reason) | Selected(members: Members)

  /** What discovery and the clock say: ranked pools, who is inactive, what is frozen, whose dwell time is over. */
  datatype Evidence = Evidence(
    mature: seq<Symbol>,
    probePool: seq<Symbol>,
    inactive: set<Symbol>,
    activeIncomplete: bool,
    allowNormalChanges: bool,
    monday: bool,
    coreDwelled: Symbol -> bool,
    memberDwelled: Symbol -> bool)

  predicate Disjoint(a: seq<Symbol>, b: set<Symbol>) {
    forall s :: s in a ==> s !in b
  }

  /** Sixty different symbols, 50 + 5 + 5. */
  ghost predicate WellFormed(m: Members) {
    && |m.core| == CORE_SIZE && |m.boundary| == ROLE_SIZE && |m.probe| == ROLE_SIZE
    && NoRepeats(m.core) && NoRepeats(m.boundary) && NoRepeats(m.probe)
    && Disjoint(m.boundary, Elements(m.core)) && Disjoint(m.probe, Elements(m.core)) && Disjoint(m.probe, Elements(m.boundary))
  }

  /** Pools are built from eligible symbols, each once; an inactive one is not eligible. */
  ghost predicate Pooled(e: Evidence) {
    NoRepeats(e.mature) && NoRepeats(e.probePool) && Disjoint(e.mature, e.inactive) && Disjoint(e.probePool, e.inactive)
  }

  function RankIn(pool: seq<Symbol>, s: Symbol): (r: int)
    ensures s !in pool ==> r == UNRANKED
    ensures s in pool ==> 1 <= r <= |pool| && pool[r - 1] == s
    decreases |pool|
  {
    if pool == [] then UNRANKED
    else if s in pool[..|pool| - 1] then RankIn(pool[..|pool| - 1], s)
    else if pool[|pool| - 1] == s then |pool|
    else UNRANKED
  }

  function Filtered(pool: seq<Symbol>, out: set<Symbol>): (r: seq<Symbol>)
    requires NoRepeats(pool)
    ensures NoRepeats(r) && Elements(r) == Elements(pool) - out
  {
    Staying(pool, out, {})
  }

  // ---- The core ------------------------------------------------------------------------------------

  function FirstFree(values: seq<Symbol>, forbidden: seq<Symbol>): Option<Symbol> {
    if values == [] then None else if values[0] !in forbidden then Some(values[0]) else FirstFree(values[1..], forbidden)
  }

  method TakeFirst(values: seq<Symbol>, forbidden: seq<Symbol>) returns (found: Option<Symbol>)
    ensures found == FirstFree(values, forbidden)
    ensures found.Some? ==> found.value in values && found.value !in forbidden
    ensures found.None? ==> forall s :: s in values ==> s in forbidden
  {
    var i := 0;
    assert values[0..] == values;
    while i < |values|
      invariant 0 <= i <= |values|
      invariant forall k :: 0 <= k < i ==> values[k] in forbidden
      invariant FirstFree(values, forbidden) == FirstFree(values[i..], forbidden)
    {
      assert values[i..][1..] == values[i + 1..];
      if values[i] !in forbidden {
        return Some(values[i]);
      }
      i := i + 1;
    }
    found := None;
  }

  lemma {:induction false} ReplaceElement(xs: seq<Symbol>, i: nat, x: Symbol)
    requires NoRepeats(xs) && i < |xs| && x !in xs
    ensures NoRepeats(xs[i := x]) && Elements(xs[i := x]) == Elements(xs) - {xs[i]} + {x}
  {
    var r := xs[i := x];
    forall s
      ensures s in r <==> s == x || (s in xs && s != xs[i])
    {
      if s in xs && s != xs[i] {
        var k :| 0 <= k < |xs| && xs[k] == s;
        assert r[k] == s;
      }
      if s == x {
        assert r[i] == x;
      }
    }
  }

  /** The core when its first places have been looked at: who went, and the pool symbols that came in. */
  ghost predicate ReplacedUpTo(core: seq<Symbol>, now: seq<Symbol>, i: nat, pool: seq<Symbol>, inactive: set<Symbol>, gone: set<Symbol>, used: set<Symbol>) {
    && i <= |core| == |now| && NoRepeats(now)
    && (forall k :: i <= k < |core| ==> now[k] == core[k])
    && (forall k :: 0 <= k < i ==> (core[k] in inactive <==> core[k] in gone))
    && gone <= Elements(core) * inactive && used <= Elements(pool)
    && Elements(now) == Elements(core) - gone + used
    && |used| == |gone|
  }

  /** Set arithmetic of one replacement. */
  lemma {:induction false} ExchangeInSets(core: set<Symbol>, now: set<Symbol>, gone: set<Symbol>, used: set<Symbol>, c: Symbol, x: Symbol)
    requires now == core - gone + used && c in core && c in now && c !in used && x !in now
    ensures now - {c} + {x} == core - (gone + {c}) + (used + {x})
    ensures |gone + {c}| == |gone| + 1 && |used + {x}| == |used| + 1
  {
  }

  lemma {:induction false} GoneMarks(core: seq<Symbol>, i: nat, inactive: set<Symbol>, gone: set<Symbol>)
    requires NoRepeats(core) && i < |core| && core[i] in inactive
    requires forall k :: 0 <= k < i ==> (core[k] in inactive <==> core[k] in gone)
    ensures forall k :: 0 <= k < i + 1 ==> (core[k] in inactive <==> core[k] in gone + {core[i]})
  {
  }

  lemma NotAmong(xs: seq<Symbol>, x: Symbol)
    requires x !in xs
    ensures x !in Elements(xs)
  {
  }

  lemma {:induction false} ReplaceNext(core: seq<Symbol>, now: seq<Symbol>, i: nat, pool: seq<Symbol>, inactive: set<Symbol>, gone: set<Symbol>, used: set<Symbol>, x: Symbol)
    requires NoRepeats(core) && Disjoint(pool, Elements(core))
    requires ReplacedUpTo(core, now, i, pool, inactive, gone, used) && i < |core| && core[i] in inactive
    requires x in pool && x !in now
    ensures ReplacedUpTo(core, now[i := x], i + 1, pool, inactive, gone + {core[i]}, used + {x})
  {
    hide Elements, NoRepeats, Disjoint;
    GoneMarks(core, i, inactive, gone);
    ReplaceElement(now, i, x);
    PlaceFacts(core, now, i, pool);
    InElements(pool, x);
    NotAmong(now, x);
    ExchangeInSets(Elements(core), Elements(now), gone, used, core[i], x);
  }

  lemma PlaceFacts(core: seq<Symbol>, now: seq<Symbol>, i: nat, pool: seq<Symbol>)
    requires i < |core| == |now| && now[i] == core[i] && Disjoint(pool, Elements(core))
    ensures core[i] in Elements(core) && core[i] in Elements(now) && core[i] !in Elements(pool)
  {
  }

  lemma {:induction false} AllReplaced(core: seq<Symbol>, now: seq<Symbol>, pool: seq<Symbol>, inactive: set<Symbol>, gone: set<Symbol>, used: set<Symbol>)
    requires ReplacedUpTo(core, now, |core|, pool, inactive, gone, used) && Disjoint(pool, inactive)
    ensures |now| == |core| && NoRepeats(now) && Disjoint(now, inactive)
    ensures Elements(core) - inactive <= Elements(now) <= Elements(core) - inactive + Elements(pool)
  {
    forall s | s in core
      ensures s in inactive <==> s in gone
    {
      var k :| 0 <= k < |core| && core[k] == s;
    }
    forall s | s in now
      ensures s !in inactive
    {
      assert s in Elements(now);
      if s in used {
        assert s in pool;
      } else {
        assert s in core;
      }
    }
  }

  /** The core once its first places are looked at: an inactive member gives way to the best of the pool not yet in. */
  function ForcedCore(core: seq<Symbol>, i: nat, pool: seq<Symbol>, inactive: set<Symbol>): (r: Option<seq<Symbol>>)
    requires i <= |core|
    ensures r.Some? ==> |r.value| == |core|
  {
    if i == 0 then Some(core)
    else
      match ForcedCore(core, i - 1, pool, inactive)
      case None => None
      case Some(now) =>
        if core[i - 1] !in inactive then Some(now)
        else
          match FirstFree(pool, now)
          case None => None
          case Some(replacement) => Some(now[i - 1 := replacement])
  }

  lemma ForcedNext(core: seq<Symbol>, i: nat, pool: seq<Symbol>, inactive: set<Symbol>, now: seq<Symbol>)
    requires i < |core| == |now| && ForcedCore(core, i, pool, inactive) == Some(now)
    ensures ForcedCore(core, i + 1, pool, inactive) ==
            if core[i] !in inactive then Some(now)
            else match FirstFree(pool, now)
                 case None => None
                 case Some(replacement) => Some(now[i := replacement])
  {
    hide FirstFree;
  }

  lemma {:induction false} NoneStaysNone(core: seq<Symbol>, i: nat, pool: seq<Symbol>, inactive: set<Symbol>)
    requires i <= |core| && ForcedCore(core, i, pool, inactive).None?
    ensures ForcedCore(core, |core|, pool, inactive).None?
    decreases |core| - i
  {
    if i < |core| {
      NoneStaysNone(core, i + 1, pool, inactive);
    }
  }

  /** What the replacements have done so far; they fail only when the pool has fewer symbols than the core inactive members. */
  lemma {:induction false} ForcedSoFar(core: seq<Symbol>, i: nat, pool: seq<Symbol>, inactive: set<Symbol>) returns (gone: set<Symbol>, used: set<Symbol>)
    requires NoRepeats(core) && NoRepeats(pool) && Disjoint(pool, Elements(core)) && i <= |core|
    ensures var r := ForcedCore(core, i, pool, inactive);
            if r.Some? then ReplacedUpTo(core, r.value, i, pool, inactive, gone, used) else |pool| < |Elements(core) * inactive|
  {
    hide ReplacedUpTo, NoRepeats, Disjoint, Elements;
    if i == 0 {
      NothingReplaced(core, pool, inactive);
      return {}, {};
    }
    gone, used := ForcedSoFar(core, i - 1, pool, inactive);
    var before := ForcedCore(core, i - 1, pool, inactive);
    if before.Some? {
      var now := before.value;
      if core[i - 1] in inactive {
        FirstFreeFacts(pool, now);
        var replacement := FirstFree(pool, now);
        hide FirstFree;
        if replacement.None? {
          PoolUsedUp(core, pool, inactive, i - 1, gone, used, now);
        } else {
          ReplaceNext(core, now, i - 1, pool, inactive, gone, used, replacement.value);
          gone, used := gone + {core[i - 1]}, used + {replacement.value};
        }
      } else {
        KeepNext(core, now, i - 1, pool, inactive, gone, used);
      }
    }
  }

  lemma {:induction false} FirstFreeFacts(values: seq<Symbol>, forbidden: seq<Symbol>)
    ensures var found := FirstFree(values, forbidden);
            if found.Some? then found.value in values && found.value !in forbidden else forall s :: s in values ==> s in forbidden
  {
    if values != [] && values[0] in forbidden {
      FirstFreeFacts(values[1..], forbidden);
      assert values == [values[0]] + values[1..];
    }
  }

  lemma ForcedFirst(core: seq<Symbol>, pool: seq<Symbol>, inactive: set<Symbol>)
    ensures ForcedCore(core, 0, pool, inactive) == Some(core)
  {
  }

  /** Inactive core members give way, place by place, to the best of the pool; the rest stay where they are. */
  method ReplaceInactive(core: seq<Symbol>, pool: seq<Symbol>, inactive: set<Symbol>) returns (r: Result<seq<Symbol>, string>)
    requires NoRepeats(core) && NoRepeats(pool) && Disjoint(pool, Elements(core)) && Disjoint(pool, inactive)
    ensures r.Err? ==> |pool| < |Elements(core) * inactive|
    ensures ForcedCore(core, |core|, pool, inactive) == if r.Ok? then Some(r.value) else None
    ensures r.Ok? ==> |r.value| == |core| && NoRepeats(r.value) && Disjoint(r.value, inactive)
    ensures r.Ok? ==> Elements(core) - inactive <= Elements(r.value) <= Elements(core) - inactive + Elements(pool)
  {
    hide *;
    var now := core;
    var i := 0;
    ForcedFirst(core, pool, inactive);
    ghost var gone, used := ForcedSoFar(core, |core|, pool, inactive);
    while i < |core|
      invariant 0 <= i <= |core| == |now|
      invariant ForcedCore(core, i, pool, inactive) == Some(now)
    {
      ForcedNext(core, i, pool, inactive, now);
      if core[i] in inactive {
        var replacement := TakeFirst(pool, now);
        if replacement.None? {
          NoneStaysNone(core, i + 1, pool, inactive);
          return Err("not enough mature instruments to replace inactive core");
        }
        now := now[i := replacement.value];
      }
      i := i + 1;
    }
    AllReplaced(core, now, pool, inactive, gone, used);
    r := Ok(now);
  }

  lemma KeepNext(core: seq<Symbol>, now: seq<Symbol>, i: nat, pool: seq<Symbol>, inactive: set<Symbol>, gone: set<Symbol>, used: set<Symbol>)
    requires ReplacedUpTo(core, now, i, pool, inactive, gone, used) && i < |core| && core[i] !in inactive
    ensures ReplacedUpTo(core, now, i + 1, pool, inactive, gone, used)
  {
  }

  lemma NothingReplaced(core: seq<Symbol>, pool: seq<Symbol>, inactive: set<Symbol>)
    requires NoRepeats(core)
    ensures ReplacedUpTo(core, core, 0, pool, inactive, {}, {})
  {
  }

  lemma {:induction false} PrefixDistinct(xs: seq<Symbol>, i: nat)
    requires NoRepeats(xs) && i < |xs|
    ensures xs[i] !in Elements(xs[..i]) && Elements(xs[..i]) <= Elements(xs) && xs[i] in Elements(xs)
  {
  }

  /** If no candidate is left, all were used, and one more member is inactive. */
  lemma {:induction false} PoolUsedUp(core: seq<Symbol>, pool: seq<Symbol>, inactive: set<Symbol>, i: nat, gone: set<Symbol>, used: set<Symbol>, now: seq<Symbol>)
    requires NoRepeats(pool) && Disjoint(pool, Elements(core)) && i < |core| && core[i] in inactive
    requires ReplacedUpTo(core, now, i, pool, inactive, gone, used)
    requires forall s :: s in pool ==> s in now
    ensures |pool| < |Elements(core) * inactive|
  {
    forall s | s in Elements(pool)
      ensures s in used
    {
      assert s in pool;
      assert s in Elements(now);
    }
    assert used == Elements(pool);
    NoRepeatsSize(pool);
    assert core[i] in Elements(now) by {
      assert now[i] == core[i];
    }
    assert core[i] in Elements(core) && core[i] !in used;
    assert core[i] !in gone;
    SmallerSet(gone + {core[i]}, Elements(core) * inactive);
  }

  function Worst(members: seq<Symbol>, mature: seq<Symbol>): (worst: Symbol)
    requires members != []
    ensures worst in members
  {
    if |members| == 1 then members[0]
    else
      var front, last := Worst(members[..|members| - 1], mature), members[|members| - 1];
      if RankIn(mature, last) > RankIn(mature, front) then last else front
  }

  lemma {:induction false} WorstIsWorst(members: seq<Symbol>, mature: seq<Symbol>)
    requires members != []
    ensures forall s :: s in members ==> RankIn(mature, s) <= RankIn(mature, Worst(members, mature))
  {
    hide RankIn;
    if |members| > 1 {
      var front, last := members[..|members| - 1], members[|members| - 1];
      assert members == front + [last];
      WorstIsWorst(front, mature);
    }
  }

  lemma WorstNext(members: seq<Symbol>, i: nat, mature: seq<Symbol>)
    requires 1 <= i < |members|
    ensures var worst := Worst(members[..i], mature);
            Worst(members[..i + 1], mature) == if RankIn(mature, members[i]) > RankIn(mature, worst) then members[i] else worst
  {
    hide RankIn;
    assert members[..i + 1][..i] == members[..i];
  }

  /** The worst ranked of some members; of equals the first. */
  method WorstRanked(members: seq<Symbol>, mature: seq<Symbol>) returns (worst: Symbol)
    requires members != []
    ensures worst == Worst(members, mature)
    ensures worst in members && forall s :: s in members ==> RankIn(mature, s) <= RankIn(mature, worst)
  {
    worst := members[0];
    var i := 1;
    WorstIsWorst(members, mature);
    hide RankIn;
    assert worst == Worst(members[..1], mature);
    hide Worst;
    while i < |members|
      invariant 1 <= i <= |members| && worst == Worst(members[..i], mature)
    {
      WorstNext(members, i, mature);
      if RankIn(mature, members[i]) > RankIn(mature, worst) {
        worst := members[i];
      }
      i := i + 1;
    }
    assert members[..i] == members;
  }

  function Removable(core: seq<Symbol>, mature: seq<Symbol>, retain: int, dwelled: Symbol -> bool): (r: seq<Symbol>)
    ensures forall s :: s in r <==> s in core && RankIn(mature, s) > retain && dwelled(s)
  {
    if core == [] then []
    else
      var front, last := core[..|core| - 1], core[|core| - 1];
      assert core == front + [last];
      Removable(front, mature, retain, dwelled) + if RankIn(mature, last) > retain && dwelled(last) then [last] else []
  }

  function RankSum(core: seq<Symbol>, mature: seq<Symbol>): int {
    if core == [] then 0 else RankSum(core[..|core| - 1], mature) + RankIn(mature, core[|core| - 1])
  }

  lemma {:induction false} RankSumUpdate(core: seq<Symbol>, mature: seq<Symbol>, i: nat, x: Symbol)
    requires i < |core|
    ensures RankSum(core[i := x], mature) == RankSum(core, mature) - RankIn(mature, core[i]) + RankIn(mature, x)
    decreases |core|
  {
    hide RankIn;
    var n := |core| - 1;
    if i < n {
      RankSumUpdate(core[..n], mature, i, x);
      assert core[i := x][..n] == core[..n][i := x];
    } else {
      assert core[i := x][..n] == core[..n];
    }
  }

  /** What promotions may do to a core: who left, who came, how many, and that each step improved the ranks. */
  ghost predicate Promoted(before: seq<Symbol>, after: seq<Symbol>, mature: seq<Symbol>, candidates: set<Symbol>, p: Policy, dwelled: Symbol -> bool, swaps: nat) {
    && NoRepeats(after) && |after| == |before|
    && (forall s :: s in before && s !in after ==> RankIn(mature, s) > p.coreRetainRank && dwelled(s))
    && (forall s :: s in after && s !in before ==> s in candidates && RankIn(mature, s) <= p.coreEntryRank)
    && |Elements(before) - Elements(after)| <= swaps
    && RankSum(after, mature) + swaps <= RankSum(before, mature)
  }

  lemma {:induction false} OneMorePromotion(before: seq<Symbol>, core: seq<Symbol>, mature: seq<Symbol>, candidates: set<Symbol>, p: Policy, dwelled: Symbol -> bool,
                                            swaps: nat, i: nat, challenger: Symbol)
    requires Promoted(before, core, mature, candidates, p, dwelled, swaps) && i < |core|
    requires challenger in candidates && challenger !in core && RankIn(mature, challenger) <= p.coreEntryRank
    requires RankIn(mature, core[i]) > p.coreRetainRank && dwelled(core[i]) && RankIn(mature, challenger) < RankIn(mature, core[i])
    ensures Promoted(before, core[i := challenger], mature, candidates, p, dwelled, swaps + 1)
  {
    var r := core[i := challenger];
    hide RankIn, RankSum;
    RankSumUpdate(core, mature, i, challenger);
    ReplaceElement(core, i, challenger);
    OneMoreGone(Elements(before), Elements(core), core[i], challenger);
    forall s | s in before && s !in r
      ensures RankIn(mature, s) > p.coreRetainRank && dwelled(s)
    {
      assert s !in Elements(r);
      if s != core[i] {
        assert s !in Elements(core);
        assert s !in core;
      }
    }
    forall s | s in r && s !in before
      ensures s in candidates && RankIn(mature, s) <= p.coreEntryRank
    {
      assert s in Elements(r);
      if s != challenger {
        assert s in Elements(core);
        assert s in core;
      }
    }
  }

  function IndexIn(xs: seq<Symbol>, x: Symbol): (i: nat)
    requires x in xs
    ensures i < |xs| && xs[i] == x
  {
    if xs[0] == x then 0 else 1 + IndexIn(xs[1..], x)
  }

  /** A candidate takes the place of the worst member that may go, if that improves the ranks. */
  function PromoteOne(core: seq<Symbol>, challenger: Symbol, mature: seq<Symbol>, p: Policy, dwelled: Symbol -> bool): Option<seq<Symbol>> {
    var removable := Removable(core, mature, p.coreRetainRank, dwelled);
    if removable == [] || RankIn(mature, challenger) >= RankIn(mature, Worst(removable, mature)) then None
    else Some(core[IndexIn(core, Worst(removable, mature)) := challenger])
  }

  /** The best candidates first, while that improves and is allowed. */
  function PromoteFrom(core: seq<Symbol>, promotable: seq<Symbol>, mature: seq<Symbol>, p: Policy, dwelled: Symbol -> bool, changes: int): seq<Symbol>
    decreases |promotable|
  {
    if promotable == [] || changes >= p.coreWeeklyReplacements then core
    else
      match PromoteOne(core, promotable[0], mature, p, dwelled)
      case None => core
      case Some(next) => PromoteFrom(next, promotable[1..], mature, p, dwelled, changes + 1)
  }

  lemma PromoteNext(core: seq<Symbol>, promotable: seq<Symbol>, i: nat, mature: seq<Symbol>, p: Policy, dwelled: Symbol -> bool, changes: int)
    requires i <= |promotable|
    ensures i == |promotable| || changes >= p.coreWeeklyReplacements ==> PromoteFrom(core, promotable[i..], mature, p, dwelled, changes) == core
    ensures i < |promotable| && changes < p.coreWeeklyReplacements ==>
      PromoteFrom(core, promotable[i..], mature, p, dwelled, changes)
      == match PromoteOne(core, promotable[i], mature, p, dwelled)
         case None => core
         case Some(next) => PromoteFrom(next, promotable[i + 1..], mature, p, dwelled, changes + 1)
  {
    hide PromoteOne;
    if i < |promotable| {
      assert promotable[i..][0] == promotable[i] && promotable[i..][1..] == promotable[i + 1..];
    }
  }

  method TryPromotion(core: seq<Symbol>, challenger: Symbol, mature: seq<Symbol>, p: Policy, dwelled: Symbol -> bool) returns (next: Option<seq<Symbol>>)
    ensures next == PromoteOne(core, challenger, mature, p, dwelled)
  {
    hide RankIn, Worst, IndexIn;
    var removable := Removable(core, mature, p.coreRetainRank, dwelled);
    if removable == [] {
      return None;
    }
    var incumbent := WorstRanked(removable, mature);
    if RankIn(mature, challenger) >= RankIn(mature, incumbent) {
      return None;
    }
    var at := IndexOf(core, incumbent);
    next := Some(core[at := challenger]);
  }

  lemma {:induction false} PromotionKeeps(before: seq<Symbol>, core: seq<Symbol>, promotable: seq<Symbol>, i: nat, mature: seq<Symbol>, p: Policy,
                                          dwelled: Symbol -> bool, swaps: nat)
    requires Promoted(before, core, mature, Elements(promotable), p, dwelled, swaps)
    requires NoRepeats(promotable) && i < |promotable| && Disjoint(promotable, Elements(before))
    requires RankIn(mature, promotable[i]) <= p.coreEntryRank
    requires Elements(core) <= Elements(before) + Elements(promotable[..i])
    ensures var next := PromoteOne(core, promotable[i], mature, p, dwelled);
            next.Some? ==>
              && Promoted(before, next.value, mature, Elements(promotable), p, dwelled, swaps + 1)
              && Elements(next.value) <= Elements(before) + Elements(promotable[..i + 1])
  {
    var challenger, next := promotable[i], PromoteOne(core, promotable[i], mature, p, dwelled);
    hide RankIn, RankSum, Promoted, NoRepeats, Worst, IndexIn;
    PrefixDistinct(promotable, i);
    assert promotable[..i + 1] == promotable[..i] + [challenger];
    AppendElement(promotable[..i], challenger);
    NotYetIn(before, core, promotable, i);
    if next.Some? {
      var at := IndexIn(core, Worst(Removable(core, mature, p.coreRetainRank, dwelled), mature));
      OneMorePromotion(before, core, mature, Elements(promotable), p, dwelled, swaps, at, challenger);
      PromotedDistinct(before, core, mature, Elements(promotable), p, dwelled, swaps);
      ReplaceElement(core, at, challenger);
    }
  }

  /** Who went was never better than a removable member that stays, and the candidates came in their order. */
  ghost predicate BestForWorst(before: seq<Symbol>, core: seq<Symbol>, promotable: seq<Symbol>, i: nat, mature: seq<Symbol>, p: Policy, dwelled: Symbol -> bool) {
    && i <= |promotable|
    && (forall s, r :: s in before && s !in core && r in before && r in core && RankIn(mature, r) > p.coreRetainRank && dwelled(r) ==>
          RankIn(mature, r) <= RankIn(mature, s))
    && (p.coreEntryRank <= p.coreRetainRank ==> forall k :: 0 <= k < i ==> promotable[k] in core)
  }

  /** Why no more candidates are promoted: none is left, no change is, or the next one is no better than any who may go. */
  ghost predicate NoneShouldFollow(core: seq<Symbol>, promotable: seq<Symbol>, i: nat, changes: int, mature: seq<Symbol>, p: Policy, dwelled: Symbol -> bool)
    requires i <= |promotable|
  {
    || i == |promotable| || changes >= p.coreWeeklyReplacements
    || forall s :: s in core && RankIn(mature, s) > p.coreRetainRank && dwelled(s) ==> RankIn(mature, s) <= RankIn(mature, promotable[i])
  }

  lemma NoneBetter(core: seq<Symbol>, promotable: seq<Symbol>, i: nat, changes: int, mature: seq<Symbol>, p: Policy, dwelled: Symbol -> bool)
    requires i < |promotable| && PromoteOne(core, promotable[i], mature, p, dwelled).None?
    ensures NoneShouldFollow(core, promotable, i, changes, mature, p, dwelled)
  {
    hide RankIn;
    var removable := Removable(core, mature, p.coreRetainRank, dwelled);
    if removable != [] {
      WorstIsWorst(removable, mature);
    }
  }

  lemma {:induction false} PromotionIsBestForWorst(before: seq<Symbol>, core: seq<Symbol>, promotable: seq<Symbol>, i: nat, mature: seq<Symbol>, p: Policy,
                                                   dwelled: Symbol -> bool)
    requires BestForWorst(before, core, promotable, i, mature, p, dwelled) && i < |promotable| && NoRepeats(core)
    requires NoRepeats(promotable) && Elements(core) <= Elements(before) + Elements(promotable[..i])
    requires Disjoint(promotable, Elements(before)) && forall s :: s in promotable ==> RankIn(mature, s) <= p.coreEntryRank
    ensures var next := PromoteOne(core, promotable[i], mature, p, dwelled);
            next.Some? ==> BestForWorst(before, next.value, promotable, i + 1, mature, p, dwelled)
  {
    var next := PromoteOne(core, promotable[i], mature, p, dwelled);
    hide RankIn, Worst, IndexIn;
    if next.Some? {
      var removable := Removable(core, mature, p.coreRetainRank, dwelled);
      var gone := Worst(removable, mature);
      WorstIsWorst(removable, mature);
      var at := IndexIn(core, gone);
      PrefixDistinct(promotable, i);
      NotYetIn(before, core, promotable, i);
      ReplaceElement(core, at, promotable[i]);
      MembersAfter(core, next.value, gone, promotable[i]);
      assert promotable[i] in promotable && promotable[i] !in Elements(before);
      assert promotable[i] !in before;
      forall k | 0 <= k < i + 1 && p.coreEntryRank <= p.coreRetainRank
        ensures promotable[k] in next.value
      {
        assert promotable[k] in promotable;
        assert gone in removable;
        assert k < i ==> promotable[k] in core && promotable[k] != gone;
      }
    }
  }

  lemma MembersAfter(core: seq<Symbol>, next: seq<Symbol>, gone: Symbol, come: Symbol)
    requires Elements(next) == Elements(core) - {gone} + {come}
    ensures forall s :: s in next <==> (s in core && s != gone) || s == come
  {
    forall s
      ensures s in next <==> (s in core && s != gone) || s == come
    {
      assert s in next <==> s in Elements(next);
      assert s in core <==> s in Elements(core);
    }
  }

  lemma NotYetIn(before: seq<Symbol>, core: seq<Symbol>, promotable: seq<Symbol>, i: nat)
    requires i < |promotable| && promotable[i] !in Elements(promotable[..i]) && Disjoint(promotable, Elements(before))
    requires Elements(core) <= Elements(before) + Elements(promotable[..i])
    ensures promotable[i] !in core && promotable[i] in Elements(promotable)
  {
    var x := promotable[i];
    assert x in promotable && x !in Elements(before);
    assert x !in Elements(before) + Elements(promotable[..i]);
    assert x in core ==> x in Elements(core);
  }

  lemma NoPrefix(xs: seq<Symbol>)
    ensures xs[0..] == xs && Elements(xs[..0]) == {}
  {
  }

  /** The Monday promotions: the best candidates against the worst removable members, while that improves and is allowed. */
  method PromoteCore(core0: seq<Symbol>, promotable: seq<Symbol>, mature: seq<Symbol>, p: Policy, dwelled: Symbol -> bool, changes0: int)
    returns (core: seq<Symbol>, swaps: nat)
    requires NoRepeats(core0) && NoRepeats(promotable) && Disjoint(promotable, Elements(core0))
    requires forall s :: s in promotable ==> RankIn(mature, s) <= p.coreEntryRank
    ensures core == PromoteFrom(core0, promotable, mature, p, dwelled, changes0)
    ensures Promoted(core0, core, mature, Elements(promotable), p, dwelled, swaps)
    ensures BestForWorst(core0, core, promotable, swaps, mature, p, dwelled)
    ensures NoneShouldFollow(core, promotable, swaps, changes0 + swaps, mature, p, dwelled)
    ensures swaps == 0 || changes0 + swaps <= p.coreWeeklyReplacements
  {
    hide *;
    core := core0;
    swaps := 0;
    NoPromotion(core0, mature, Elements(promotable), p, dwelled);
    NoneWentYet(core0, promotable, mature, p, dwelled);
    NoPrefix(promotable);
    var changes := changes0;
    var i := 0;
    while i < |promotable| && changes < p.coreWeeklyReplacements
      invariant 0 <= i == swaps <= |promotable| && changes == changes0 + swaps && (swaps == 0 || changes <= p.coreWeeklyReplacements)
      invariant Promoted(core0, core, mature, Elements(promotable), p, dwelled, swaps)
      invariant BestForWorst(core0, core, promotable, i, mature, p, dwelled)
      invariant Elements(core) <= Elements(core0) + Elements(promotable[..i])
      invariant PromoteFrom(core0, promotable, mature, p, dwelled, changes0) == PromoteFrom(core, promotable[i..], mature, p, dwelled, changes)
    {
      PromoteNext(core, promotable, i, mature, p, dwelled, changes);
      PromotionKeeps(core0, core, promotable, i, mature, p, dwelled, swaps);
      PromotedDistinct(core0, core, mature, Elements(promotable), p, dwelled, swaps);
      PromotionIsBestForWorst(core0, core, promotable, i, mature, p, dwelled);
      var next := TryPromotion(core, promotable[i], mature, p, dwelled);
      if next.None? {
        NoneBetter(core, promotable, i, changes, mature, p, dwelled);
        return;
      }
      core := next.value;
      changes := changes + 1;
      swaps := swaps + 1;
      i := i + 1;
    }
    PromoteNext(core, promotable, i, mature, p, dwelled, changes);
    NoneLeft(core, promotable, i, changes, mature, p, dwelled);
  }

  lemma NoneLeft(core: seq<Symbol>, promotable: seq<Symbol>, i: nat, changes: int, mature: seq<Symbol>, p: Policy, dwelled: Symbol -> bool)
    requires i <= |promotable| && (i == |promotable| || changes >= p.coreWeeklyReplacements)
    ensures NoneShouldFollow(core, promotable, i, changes, mature, p, dwelled)
  {
  }

  lemma NoneWentYet(core: seq<Symbol>, promotable: seq<Symbol>, mature: seq<Symbol>, p: Policy, dwelled: Symbol -> bool)
    ensures BestForWorst(core, core, promotable, 0, mature, p, dwelled)
  {
  }

  lemma NoPromotion(core: seq<Symbol>, mature: seq<Symbol>, candidates: set<Symbol>, p: Policy, dwelled: Symbol -> bool)
    requires NoRepeats(core)
    ensures Promoted(core, core, mature, candidates, p, dwelled, 0)
  {
    assert Elements(core) - Elements(core) == {};
  }

  lemma PromotedDistinct(before: seq<Symbol>, after: seq<Symbol>, mature: seq<Symbol>, candidates: set<Symbol>, p: Policy, dwelled: Symbol -> bool, swaps: nat)
    requires Promoted(before, after, mature, candidates, p, dwelled, swaps)
    ensures NoRepeats(after)
  {
  }

  method IndexOf(xs: seq<Symbol>, x: Symbol) returns (i: nat)
    requires x in xs
    ensures i == IndexIn(xs, x)
  {
    i := 0;
    assert xs[0..] == xs;
    while xs[i] != x
      invariant 0 <= i < |xs| && x in xs[i..] && IndexIn(xs, x) == i + IndexIn(xs[i..], x)
      decreases |xs| - i
    {
      assert xs[i..] == [xs[i]] + xs[i + 1..];
      assert xs[i..][1..] == xs[i + 1..];
      i := i + 1;
    }
  }

  // ---- The whole core ------------------------------------------------------------------------------

  /** The pool always has more symbols than there are inactive core members. */
  lemma {:induction false} PoolSuffices(core: seq<Symbol>, mature: seq<Symbol>, inactive: set<Symbol>)
    requires NoRepeats(core) && NoRepeats(mature) && |core| == CORE_SIZE && |mature| >= MATURE_RESERVE && Disjoint(mature, inactive)
    ensures |Elements(core) * inactive| <= |Filtered(mature, Elements(core))|
  {
    var pool := Filtered(mature, Elements(core));
    NoRepeatsSize(core);
    NoRepeatsSize(mature);
    NoRepeatsSize(pool);
    var both, gone := Elements(mature) * Elements(core), Elements(core) * inactive;
    assert Elements(mature) == Elements(pool) + both;
    assert both !! gone by {
      forall s | s in both
        ensures s !in inactive
      {
        assert s in mature;
      }
    }
    SmallerSet(both + gone, Elements(core));
  }

  function Promotable(pool: seq<Symbol>, core: seq<Symbol>, mature: seq<Symbol>, entry: int): (r: seq<Symbol>)
    requires NoRepeats(pool)
    ensures NoRepeats(r) && forall s :: s in r <==> s in pool && s !in core && RankIn(mature, s) <= entry
  {
    if pool == [] then []
    else
      var front, last := pool[..|pool| - 1], pool[|pool| - 1];
      assert pool == front + [last];
      AppendElement(front, last);
      var r := Promotable(front, core, mature, entry);
      if last !in core && RankIn(mature, last) <= entry then
        AppendElement(r, last);
        r + [last]
      else r
  }

  /** Members that came in from beyond the entry rank. */
  function BeyondEntry(was: seq<Symbol>, now: seq<Symbol>, mature: seq<Symbol>, entry: int): set<Symbol> {
    set s | s in now && s !in was && RankIn(mature, s) > entry
  }

  /**
   * Who may leave the core and how many do, who may come, and that nobody in it is inactive. Only as many newcomers may
   * rank beyond the entry rank as members were inactive.
   */
  ghost predicate CoreRule(was: seq<Symbol>, now: seq<Symbol>, e: Evidence, p: Policy) {
    && NoRepeats(now) && |now| == |was| && Disjoint(now, e.inactive)
    && (forall s :: s in was && s !in e.inactive && s !in now ==>
          e.allowNormalChanges && e.monday && RankIn(e.mature, s) > p.coreRetainRank && e.coreDwelled(s))
    && (forall s :: s in now && s !in was ==> s in e.mature)
    && |Elements(was) - Elements(now)| <= Max(|Elements(was) * e.inactive|, p.coreWeeklyReplacements)
    && |BeyondEntry(was, now, e.mature, p.coreEntryRank)| <= |Elements(was) * e.inactive|
  }

  /** As many come in as go. */
  lemma {:induction false} ComeAndGo(was: seq<Symbol>, now: seq<Symbol>)
    requires NoRepeats(was) && NoRepeats(now) && |now| == |was|
    ensures |Elements(now) - Elements(was)| == |Elements(was) - Elements(now)|
  {
    NoRepeatsSize(was);
    NoRepeatsSize(now);
    var a, b := Elements(was), Elements(now);
    hide Elements, NoRepeats;
    assert a == (a - b) + a * b && b == (b - a) + a * b;
    assert |a| == |a - b| + |a * b|;
    assert |b| == |b - a| + |a * b|;
  }

  lemma {:induction false} ForcedBeyondEntry(was: seq<Symbol>, now: seq<Symbol>, e: Evidence, entry: int)
    requires NoRepeats(was) && NoRepeats(now) && |now| == |was| && |Elements(was) - Elements(now)| <= |Elements(was) * e.inactive|
    ensures |BeyondEntry(was, now, e.mature, entry)| <= |Elements(was) * e.inactive|
  {
    ComeAndGo(was, now);
    hide RankIn, NoRepeats;
    SmallerSet(BeyondEntry(was, now, e.mature, entry), Elements(now) - Elements(was));
  }

  lemma {:induction false} ForcedCoreRule(was: seq<Symbol>, now: seq<Symbol>, e: Evidence, p: Policy, pool: seq<Symbol>)
    requires NoRepeats(was) && NoRepeats(now) && |now| == |was| && Disjoint(now, e.inactive)
    requires Elements(was) - e.inactive <= Elements(now) <= Elements(was) - e.inactive + Elements(pool)
    requires Elements(pool) <= Elements(e.mature)
    ensures CoreRule(was, now, e, p)
    ensures |Elements(was) - Elements(now)| <= |Elements(was) * e.inactive|
  {
    SmallerSet(Elements(was) - Elements(now), Elements(was) * e.inactive);
    ForcedBeyondEntry(was, now, e, p.coreEntryRank);
    forall s
      ensures s in now <==> s in Elements(now)
      ensures s in was <==> s in Elements(was)
      ensures s in e.mature <==> s in Elements(e.mature)
    {
    }
    hide Elements, RankIn, BeyondEntry, NoRepeats;
  }

  lemma {:induction false} PromotedBeyondEntry(was: seq<Symbol>, forced: seq<Symbol>, now: seq<Symbol>, e: Evidence, p: Policy, candidates: set<Symbol>, swaps: nat)
    requires Promoted(forced, now, e.mature, candidates, p, e.coreDwelled, swaps)
    ensures |BeyondEntry(was, now, e.mature, p.coreEntryRank)| <= |BeyondEntry(was, forced, e.mature, p.coreEntryRank)|
  {
    hide RankIn, RankSum, NoRepeats, Elements;
    SmallerSet(BeyondEntry(was, now, e.mature, p.coreEntryRank), BeyondEntry(was, forced, e.mature, p.coreEntryRank));
  }

  lemma {:induction false} LostInTwoSteps(was: set<Symbol>, middle: set<Symbol>, now: set<Symbol>)
    ensures |was - now| <= |was - middle| + |middle - now|
  {
    var a, b := was - middle, middle - now;
    SmallerSet(was - now, a + b);
    assert |a + b| <= |a| + |b|;
  }

  /** Members of a promoted core are active, and new ones mature. */
  lemma {:induction false} PromotedAreMature(was: seq<Symbol>, forced: seq<Symbol>, now: seq<Symbol>, e: Evidence, p: Policy, candidates: seq<Symbol>, swaps: nat)
    requires CoreRule(was, forced, e, p) && Promoted(forced, now, e.mature, Elements(candidates), p, e.coreDwelled, swaps)
    requires forall s :: s in candidates ==> s in e.mature && s !in e.inactive
    ensures Disjoint(now, e.inactive) && forall s :: s in now && s !in was ==> s in e.mature
  {
    hide RankIn, RankSum, NoRepeats;
    forall s | s in now
      ensures s !in e.inactive
      ensures s !in was ==> s in e.mature
    {
      if s !in forced {
        assert s in Elements(candidates);
        assert s in candidates;
      }
    }
  }

  lemma {:induction false} PromotedCoreRule(was: seq<Symbol>, forced: seq<Symbol>, now: seq<Symbol>, e: Evidence, p: Policy, candidates: seq<Symbol>, swaps: nat)
    requires CoreRule(was, forced, e, p) && e.allowNormalChanges && e.monday
    requires |Elements(was) - Elements(forced)| <= |Elements(was) * e.inactive|
    requires Promoted(forced, now, e.mature, Elements(candidates), p, e.coreDwelled, swaps)
    requires swaps == 0 || |Elements(was) - Elements(forced)| + swaps <= p.coreWeeklyReplacements
    requires forall s :: s in candidates ==> s in e.mature && s !in e.inactive
    ensures CoreRule(was, now, e, p)
  {
    LostInTwoSteps(Elements(was), Elements(forced), Elements(now));
    PromotedAreMature(was, forced, now, e, p, candidates, swaps);
    PromotedBeyondEntry(was, forced, now, e, p, Elements(candidates), swaps);
    hide BeyondEntry, RankIn, RankSum, NoRepeats, Disjoint, Elements;
  }

  /** The core as the day's evidence leaves it; a core that cannot be repaired never arises. */
  function CoreChoice(was: seq<Symbol>, e: Evidence, p: Policy): seq<Symbol>
    requires NoRepeats(e.mature)
  {
    var pool := Filtered(e.mature, Elements(was));
    match ForcedCore(was, |was|, pool, e.inactive)
    case None => was
    case Some(forced) =>
      if !e.allowNormalChanges || !e.monday then forced
      else PromoteFrom(forced, Promotable(pool, forced, e.mature, p.coreEntryRank), e.mature, p, e.coreDwelled, |Elements(was) - Elements(forced)|)
  }

  /** The promotions of a day: some of the candidates in their order, on a Monday that is not frozen as many as should, else none. */
  ghost predicate MondayRule(forced: seq<Symbol>, now: seq<Symbol>, promotable: seq<Symbol>, lost: nat, e: Evidence, p: Policy) {
    if e.allowNormalChanges && e.monday then
      exists swaps :: PromotedSo(forced, now, promotable, lost, e, p, swaps)
    else
      now == forced
  }

  ghost predicate PromotedSo(forced: seq<Symbol>, now: seq<Symbol>, promotable: seq<Symbol>, lost: nat, e: Evidence, p: Policy, swaps: nat) {
    && swaps <= |promotable|
    && Promoted(forced, now, e.mature, Elements(promotable), p, e.coreDwelled, swaps)
    && BestForWorst(forced, now, promotable, swaps, e.mature, p, e.coreDwelled)
    && NoneShouldFollow(now, promotable, swaps, lost + swaps, e.mature, p, e.coreDwelled)
  }

  /** The core with inactive members replaced, and what is promoted over it. */
  ghost predicate CoreSettled(was: seq<Symbol>, now: seq<Symbol>, e: Evidence, p: Policy)
    requires NoRepeats(e.mature)
  {
    var pool := Filtered(e.mature, Elements(was));
    var forced := ForcedCore(was, |was|, pool, e.inactive);
    forced.Some?
    && MondayRule(forced.value, now, Promotable(pool, forced.value, e.mature, p.coreEntryRank), |Elements(was) - Elements(forced.value)|, e, p)
  }

  method SelectCore(was: seq<Symbol>, e: Evidence, p: Policy) returns (r: Result<seq<Symbol>, string>)
    requires NoRepeats(was) && |was| == CORE_SIZE && Pooled(e) && |e.mature| >= MATURE_RESERVE
    ensures r.Ok? && CoreRule(was, r.value, e, p) && CoreSettled(was, r.value, e, p) && r.value == CoreChoice(was, e, p)
  {
    hide RankIn, RankSum, Promoted, CoreRule, NoRepeats, ForcedCore, PromoteFrom, Promotable, Filtered, BestForWorst, NoneShouldFollow;
    var pool := Filtered(e.mature, Elements(was));
    PoolSuffices(was, e.mature, e.inactive);
    PoolIsMature(pool, was, e);
    r := ReplaceInactive(was, pool, e.inactive);
    if r.Err? {
      return;
    }
    var forced := r.value;
    ForcedCoreRule(was, forced, e, p, pool);
    if e.allowNormalChanges && e.monday {
      var promotable := Promotable(pool, forced, e.mature, p.coreEntryRank);
      ForeignTo(promotable, forced);
      var core, swaps := PromoteCore(forced, promotable, e.mature, p, e.coreDwelled, |Elements(was) - Elements(forced)|);
      PromotedCoreRule(was, forced, core, e, p, promotable, swaps);
      assert PromotedSo(forced, core, promotable, |Elements(was) - Elements(forced)|, e, p, swaps) by {
        SwapsAreCandidates(forced, core, promotable, swaps, e.mature, p, e.coreDwelled);
      }
      r := Ok(core);
    }
  }

  lemma SwapsAreCandidates(forced: seq<Symbol>, core: seq<Symbol>, promotable: seq<Symbol>, swaps: nat, mature: seq<Symbol>, p: Policy, dwelled: Symbol -> bool)
    requires BestForWorst(forced, core, promotable, swaps, mature, p, dwelled)
    ensures swaps <= |promotable|
  {
  }

  lemma PoolIsMature(pool: seq<Symbol>, was: seq<Symbol>, e: Evidence)
    requires Elements(pool) == Elements(e.mature) - Elements(was) && Disjoint(e.mature, e.inactive)
    ensures Disjoint(pool, Elements(was)) && Disjoint(pool, e.inactive)
    ensures forall s :: s in pool ==> s in e.mature && s !in e.inactive
  {
    forall s | s in pool
      ensures s in e.mature && s !in Elements(was)
    {
      assert s in Elements(pool);
    }
  }

  lemma ForeignTo(xs: seq<Symbol>, ys: seq<Symbol>)
    requires forall s :: s in xs ==> s !in ys
    ensures Disjoint(xs, Elements(ys))
  {
  }

  // ---- The candidate roles -------------------------------------------------------------------------

  /** Five allowed candidates are always enough, so a role can always be filled. */
  lemma {:induction false} RoleCanBeFilled(current: seq<Symbol>, preferred: seq<Symbol>, forbidden: set<Symbol>, inactive: set<Symbol>, enough: seq<Symbol>)
    requires NoRepeats(current) && NoRepeats(enough) && |enough| >= ROLE_SIZE
    requires Disjoint(enough, forbidden) && forall s :: s in enough ==> s in preferred
    ensures |Elements(Staying(current, forbidden, inactive)) + Elements(Allowed(preferred, forbidden))| >= ROLE_SIZE
  {
    NoRepeatsSize(enough);
    var all := Elements(Staying(current, forbidden, inactive)) + Elements(Allowed(preferred, forbidden));
    forall s | s in Elements(enough)
      ensures s in all
    {
      assert s in enough;
      assert s in Elements(preferred);
    }
    SmallerSet(Elements(enough), all);
  }

  /** A candidate role after selection, forced by who is inactive and by the symbols taken by roles before it. */
  ghost predicate RoleRule(was: seq<Symbol>, now: seq<Symbol>, pool: seq<Symbol>, taken: set<Symbol>, e: Evidence, limit: nat) {
    && NoRepeats(now) && |now| == ROLE_SIZE && Disjoint(now, taken) && Disjoint(now, e.inactive)
    && (forall s :: s in now && s !in was ==> s in pool)
    && (forall s :: s in was && s !in taken && s !in e.inactive && s !in now ==> e.memberDwelled(s))
    && |Elements(was) - Elements(now)| <= |Elements(was) * (taken + e.inactive)| + limit
  }

  lemma {:induction false} ReconciledRole(was: seq<Symbol>, now: seq<Symbol>, preferred: seq<Symbol>, taken: set<Symbol>, e: Evidence, limit: nat)
    requires NoRepeats(was) && Reconciled(now, was, preferred, taken, e.inactive, e.memberDwelled, limit) && Disjoint(preferred, e.inactive)
    ensures RoleRule(was, now, preferred, taken, e, limit)
  {
    var allowed, staying := Allowed(preferred, taken), Staying(was, taken, e.inactive);
    assert Elements(was) - Elements(staying) == Elements(was) * (taken + e.inactive);
    forall s | s in now
      ensures s !in taken && s !in e.inactive && (s !in was ==> s in preferred)
    {
      assert s in Elements(now);
      if s in Elements(allowed) {
        assert s in preferred;
      }
    }
    forall s | s in was && s !in taken && s !in e.inactive && s !in now
      ensures e.memberDwelled(s)
    {
      assert s in Elements(staying);
      assert s in staying;
    }
  }

  function ProbeLimit(e: Evidence): nat {
    if e.allowNormalChanges then 1 else 0
  }

  function ProbeChoice(was: seq<Symbol>, core: seq<Symbol>, e: Evidence): seq<Symbol>
    requires NoRepeats(was) && NoRepeats(e.probePool)
  {
    RoleChoice(was, Filtered(e.probePool, Elements(core)), Elements(core), e.inactive, e.memberDwelled, ProbeLimit(e))
  }

  /** The probe role: the best of the pool outside the core, with one change at most unless members are forced out. */
  ghost predicate ProbeRule(was: seq<Symbol>, now: seq<Symbol>, taken: set<Symbol>, e: Evidence)
    requires NoRepeats(was) && NoRepeats(e.probePool)
  {
    && RoleRule(was, now, e.probePool, taken, e, if e.allowNormalChanges then 1 else 0)
    && Reconciled(now, was, Filtered(e.probePool, taken), taken, e.inactive, e.memberDwelled, if e.allowNormalChanges then 1 else 0)
  }

  method SelectProbe(was: seq<Symbol>, core: seq<Symbol>, e: Evidence) returns (r: Option<Result<seq<Symbol>, string>>)
    requires NoRepeats(was) && |was| == ROLE_SIZE && Pooled(e)
    ensures r.None? <==> |Elements(e.probePool) - Elements(core)| < ROLE_SIZE
    ensures r.Some? ==> r.value.Ok? && ProbeRule(was, r.value.value, Elements(core), e)
    ensures r.Some? ==> r.value.value == ProbeChoice(was, core, e)
  {
    var preferred := Filtered(e.probePool, Elements(core));
    NoRepeatsSize(preferred);
    if |preferred| < ROLE_SIZE {
      return None;
    }
    hide Reconciled, RoleRule, Staying, Allowed, RoleChoice;
    FilteredFacts(e.probePool, Elements(core), e.inactive);
    RoleCanBeFilled(was, preferred, Elements(core), e.inactive, preferred);
    var limit := ProbeLimit(e);
    var probe := ReconcileBucket(was, preferred, Elements(core), e.inactive, e.memberDwelled, limit);
    ReconciledRole(was, probe.value, preferred, Elements(core), e, limit);
    WiderPool(was, probe.value, preferred, e.probePool, Elements(core), e, limit);
    r := Some(probe);
  }

  lemma FilteredFacts(pool: seq<Symbol>, out: set<Symbol>, inactive: set<Symbol>)
    requires NoRepeats(pool) && Disjoint(pool, inactive)
    ensures var r := Filtered(pool, out); Disjoint(r, out) && Disjoint(r, inactive) && forall s :: s in r ==> s in pool
  {
    var r := Filtered(pool, out);
    forall s | s in r
      ensures s in pool && s !in out
    {
      assert s in Elements(r);
    }
  }

  lemma WiderPool(was: seq<Symbol>, now: seq<Symbol>, narrow: seq<Symbol>, wide: seq<Symbol>, taken: set<Symbol>, e: Evidence, limit: nat)
    requires RoleRule(was, now, narrow, taken, e, limit) && forall s :: s in narrow ==> s in wide
    ensures RoleRule(was, now, wide, taken, e, limit)
  {
  }

  /** Boundary members that keep a high enough rank, best first. */
  function Protected(was: seq<Symbol>, ranked: seq<Symbol>, retain: int): (r: seq<Symbol>)
    requires NoRepeats(was)
    ensures NoRepeats(r) && |r| <= |was| && forall s :: s in r <==> s in was && RankIn(ranked, s) <= retain
  {
    if was == [] then []
    else
      var front, last := was[..|was| - 1], was[|was| - 1];
      assert was == front + [last];
      AppendElement(front, last);
      var r := Protected(front, ranked, retain);
      if RankIn(ranked, last) <= retain then
        AppendElement(r, last);
        r + [last]
      else r
  }

  function ByRank(ranked: seq<Symbol>): (Symbol, Symbol) -> bool {
    (a, b) => RankIn(ranked, a) <= RankIn(ranked, b)
  }

  function SortedByRank(xs: seq<Symbol>, ranked: seq<Symbol>): seq<Symbol> {
    StableSort(xs, ByRank(ranked))
  }

  lemma {:induction false} SortedByRankFacts(xs: seq<Symbol>, ranked: seq<Symbol>)
    requires NoRepeats(xs)
    ensures var r := SortedByRank(xs, ranked); NoRepeats(r) && |r| == |xs| && forall s :: s in r <==> s in xs
    ensures forall i, j :: 0 <= i < j < |xs| ==> RankIn(ranked, SortedByRank(xs, ranked)[i]) <= RankIn(ranked, SortedByRank(xs, ranked)[j])
  {
    var r := SortedByRank(xs, ranked);
    SameElements(r, xs);
    SortOrders(xs, ByRank(ranked));
    assert forall i, j :: 0 <= i < j < |r| ==> ByRank(ranked)(r[i], r[j]);
    NoRepeatsSize(xs);
    NoRepeatsSize(r);
    assert Elements(r) == Elements(xs);
  }

  /** A list of allowed symbols heads the allowed list that it heads. */
  lemma {:induction false} HeadsAllowed(head: seq<Symbol>, rest: seq<Symbol>, forbidden: set<Symbol>)
    requires NoRepeats(head) && Disjoint(head, forbidden)
    ensures var r := Allowed(head + rest, forbidden); |head| <= |r| && r[..|head|] == head
  {
    if rest != [] {
      var front := rest[..|rest| - 1];
      HeadsAllowed(head, front, forbidden);
      assert (head + rest)[..|head + rest| - 1] == head + front;
    } else {
      assert head + rest == head;
      AllAllowed(head, forbidden);
    }
  }

  lemma {:induction false} AllAllowed(xs: seq<Symbol>, forbidden: set<Symbol>)
    requires NoRepeats(xs) && Disjoint(xs, forbidden)
    ensures Allowed(xs, forbidden) == xs
  {
    if xs != [] {
      var front, last := xs[..|xs| - 1], xs[|xs| - 1];
      assert xs == front + [last];
      AppendElement(front, last);
      AllAllowed(front, forbidden);
    }
  }

  lemma {:induction false} ShieldedIsTop(shielded: seq<Symbol>, rest: seq<Symbol>, taken: set<Symbol>, s: Symbol)
    requires NoRepeats(shielded) && Disjoint(shielded, taken) && |shielded| <= ROLE_SIZE && s in shielded
    ensures s in Top(Allowed(shielded + rest, taken))
  {
    HeadsAllowed(shielded, rest, taken);
    var allowed := Allowed(shielded + rest, taken);
    hide Allowed, NoRepeats, Disjoint;
    var i :| 0 <= i < |shielded| && shielded[i] == s;
    assert allowed[..|shielded|][i] == s;
    assert Top(allowed)[i] == s;
  }

  lemma StayingMember(was: seq<Symbol>, taken: set<Symbol>, inactive: set<Symbol>, s: Symbol)
    requires NoRepeats(was) && s in was && s !in taken && s !in inactive
    ensures s in Staying(was, taken, inactive)
  {
    assert s in Elements(Staying(was, taken, inactive));
  }

  /** Up to five members at the head of the preferences are never swapped out. */
  lemma {:induction false} ProtectedStay(was: seq<Symbol>, now: seq<Symbol>, shielded: seq<Symbol>, rest: seq<Symbol>, taken: set<Symbol>, e: Evidence, limit: nat, s: Symbol)
    requires NoRepeats(was) && Reconciled(now, was, shielded + rest, taken, e.inactive, e.memberDwelled, limit)
    requires NoRepeats(shielded) && Disjoint(shielded, taken) && |shielded| <= ROLE_SIZE
    requires s in shielded && s in was && s !in taken && s !in e.inactive
    ensures s in now
  {
    hide NoRepeats, Disjoint, Allowed, Staying, Top, Elements;
    ShieldedIsTop(shielded, rest, taken, s);
    StayingMember(was, taken, e.inactive, s);
  }

  function BoundaryLimit(e: Evidence, p: Policy): nat {
    if e.allowNormalChanges then Max(1, p.candidateDailyReplacements - 1) else 0
  }

  /** The boundary's preferences: the protected members by rank, then the ranked symbols. */
  function BoundaryPreferences(was: seq<Symbol>, taken: set<Symbol>, e: Evidence, p: Policy): seq<Symbol>
    requires NoRepeats(was) && NoRepeats(e.mature)
  {
    var ranked := Filtered(e.mature, taken);
    SortedByRank(Protected(Staying(was, taken, e.inactive), ranked, p.boundaryRetainRank), ranked) + ranked
  }

  /**
   * The boundary: the usual rule, with one change less than a day allows but one at least, unless members are forced out;
   * and no active member within the retain rank is lost.
   */
  ghost predicate BoundaryRule(was: seq<Symbol>, now: seq<Symbol>, taken: set<Symbol>, e: Evidence, p: Policy)
    requires NoRepeats(was) && NoRepeats(e.mature)
  {
    var limit := if !e.allowNormalChanges then 0 else if p.candidateDailyReplacements >= 2 then p.candidateDailyReplacements - 1 else 1;
    && RoleRule(was, now, e.mature, taken, e, limit)
    && Reconciled(now, was, BoundaryPreferences(was, taken, e, p), taken, e.inactive, e.memberDwelled, limit)
    && (forall s :: s in was && s !in taken && s !in e.inactive && RankIn(Filtered(e.mature, taken), s) <= p.boundaryRetainRank ==> s in now)
  }


  function BoundaryChoice(was: seq<Symbol>, taken: set<Symbol>, e: Evidence, p: Policy): seq<Symbol>
    requires NoRepeats(was) && NoRepeats(e.mature)
  {
    RoleChoice(was, BoundaryPreferences(was, taken, e, p), taken, e.inactive, e.memberDwelled, BoundaryLimit(e, p))
  }

  method SelectBoundary(was: seq<Symbol>, taken: set<Symbol>, e: Evidence, p: Policy) returns (r: Option<Result<seq<Symbol>, string>>)
    requires NoRepeats(was) && |was| == ROLE_SIZE && Pooled(e) && p.boundaryRetainRank < UNRANKED
    ensures r.None? <==> |Elements(e.mature) - taken| < ROLE_SIZE
    ensures r.Some? ==> r.value.Ok? && BoundaryRule(was, r.value.value, taken, e, p)
    ensures r.Some? ==> r.value.value == BoundaryChoice(was, taken, e, p)
  {
    hide RankIn, StableSort, NoRepeats, Disjoint, RoleChoice, SortedByRank, Protected;
    var ranked := Filtered(e.mature, taken);
    NoRepeatsSize(ranked);
    if |ranked| < ROLE_SIZE {
      return None;
    }
    var remaining := Staying(was, taken, e.inactive);
    RemainingFew(was, remaining);
    var shielded := Protected(remaining, ranked, p.boundaryRetainRank);
    var best := SortedByRank(shielded, ranked);
    SortedByRankFacts(shielded, ranked);
    FilteredFacts(e.mature, taken, e.inactive);
    ProtectedFacts(was, remaining, shielded, best, ranked, taken, e, p);
    var preferred := best + ranked;
    RoleCanBeFilled(was, preferred, taken, e.inactive, ranked);
    var boundary := FillBoundary(was, best, ranked, taken, e, p);
    r := Some(boundary);
  }

  lemma RemainingFew(was: seq<Symbol>, remaining: seq<Symbol>)
    requires NoRepeats(was) && NoRepeats(remaining) && Elements(remaining) <= Elements(was)
    ensures |remaining| <= |was|
  {
    NoRepeatsSize(was);
    NoRepeatsSize(remaining);
    SmallerSet(Elements(remaining), Elements(was));
  }

  /** The protected members, sorted: ranked, not taken, not inactive, and all of them. */
  lemma {:induction false} ProtectedFacts(was: seq<Symbol>, remaining: seq<Symbol>, shielded: seq<Symbol>, best: seq<Symbol>, ranked: seq<Symbol>,
                                          taken: set<Symbol>, e: Evidence, p: Policy)
    requires p.boundaryRetainRank < UNRANKED && Elements(remaining) == Elements(was) - taken - e.inactive
    requires forall s :: s in shielded <==> s in remaining && RankIn(ranked, s) <= p.boundaryRetainRank
    requires forall s :: s in best <==> s in shielded
    requires forall s :: s in ranked ==> s in e.mature
    ensures Disjoint(best, taken) && Disjoint(best, e.inactive) && forall s :: s in best ==> s in ranked
    ensures forall s :: s in was && s !in taken && s !in e.inactive && RankIn(ranked, s) <= p.boundaryRetainRank ==> s in best
  {
    forall s
      ensures s in remaining <==> s in was && s !in taken && s !in e.inactive
    {
      assert s in remaining <==> s in Elements(remaining);
      assert s in was <==> s in Elements(was);
    }
    forall s | s in best
      ensures s in ranked
    {
      assert RankIn(ranked, s) < UNRANKED;
    }
  }

  method FillBoundary(was: seq<Symbol>, best: seq<Symbol>, ranked: seq<Symbol>, taken: set<Symbol>, e: Evidence, p: Policy) returns (r: Result<seq<Symbol>, string>)
    requires NoRepeats(was) && |was| == ROLE_SIZE && Pooled(e) && ranked == Filtered(e.mature, taken)
    requires NoRepeats(best) && |best| <= ROLE_SIZE && Disjoint(best, taken) && Disjoint(best, e.inactive) && Disjoint(ranked, e.inactive)
    requires forall s :: s in ranked ==> s in e.mature
    requires forall s :: s in best ==> s in ranked
    requires forall s :: s in was && s !in taken && s !in e.inactive && RankIn(ranked, s) <= p.boundaryRetainRank ==> s in best
    requires |Elements(Staying(was, taken, e.inactive)) + Elements(Allowed(best + ranked, taken))| >= ROLE_SIZE
    requires best + ranked == BoundaryPreferences(was, taken, e, p)
    ensures r.Ok? && BoundaryRule(was, r.value, taken, e, p)
    ensures r.value == RoleChoice(was, best + ranked, taken, e.inactive, e.memberDwelled, BoundaryLimit(e, p))
  {
    hide RankIn, Reconciled, RoleRule, NoRepeats, Staying, Allowed, Filtered, RoleChoice, BoundaryRule, BoundaryPreferences, BoundaryLimit;
    var preferred, limit := best + ranked, BoundaryLimit(e, p);
    r := ReconcileBucket(was, preferred, taken, e.inactive, e.memberDwelled, limit);
    ReconciledRole(was, r.value, preferred, taken, e, limit);
    WiderPool(was, r.value, preferred, e.mature, taken, e, limit);
    forall s | s in was && s !in taken && s !in e.inactive && RankIn(ranked, s) <= p.boundaryRetainRank
      ensures s in r.value
    {
      ProtectedStay(was, r.value, best, ranked, taken, e, limit, s);
    }
    BoundaryRuleHolds(was, r.value, taken, e, p);
  }

  lemma BoundaryRuleHolds(was: seq<Symbol>, now: seq<Symbol>, taken: set<Symbol>, e: Evidence, p: Policy)
    requires NoRepeats(was) && NoRepeats(e.mature) && RoleRule(was, now, e.mature, taken, e, BoundaryLimit(e, p))
    requires Reconciled(now, was, BoundaryPreferences(was, taken, e, p), taken, e.inactive, e.memberDwelled, BoundaryLimit(e, p))
    requires forall s :: s in was && s !in taken && s !in e.inactive && RankIn(Filtered(e.mature, taken), s) <= p.boundaryRetainRank ==> s in now
    ensures BoundaryRule(was, now, taken, e, p)
  {
    hide RankIn, Reconciled, RoleRule, NoRepeats, BoundaryPreferences;
  }

  // ---- The decision --------------------------------------------------------------------------------

  ghost predicate SelectionRule(active: Members, now: Members, e: Evidence, p: Policy)
    requires WellFormed(active) && Pooled(e)
  {
    && WellFormed(now)
    && CoreRule(active.core, now.core, e, p) && CoreSettled(active.core, now.core, e, p)
    && ProbeRule(active.probe, now.probe, Elements(now.core), e)
    && BoundaryRule(active.boundary, now.boundary, Elements(now.core) + Elements(now.probe), e, p)
  }

  /** The roles as the day's evidence leaves them, one after the other. */
  function Chosen(active: Members, e: Evidence, p: Policy): Members
    requires WellFormed(active) && Pooled(e)
  {
    var core := CoreChoice(active.core, e, p);
    var probe := ProbeChoice(active.probe, core, e);
    Members(core, BoundaryChoice(active.boundary, Elements(core) + Elements(probe), e, p), probe)
  }

  /** Enough candidates are left for the probe role after the core is chosen, and for the boundary role after both. */
  predicate ReservesLeft(m: Members, e: Evidence)
    requires Pooled(e)
  {
    && |Elements(e.probePool) - Elements(m.core)| >= ROLE_SIZE
    && |Elements(e.mature) - (Elements(m.core) + Elements(m.probe))| >= ROLE_SIZE
  }

  /** The first reason to change nothing; the last one if there is no other. */
  function Obstacle(active: Members, e: Evidence, p: Policy): Reason
    requires WellFormed(active) && Pooled(e)
  {
    if e.activeIncomplete then EvidenceIncomplete
    else if |e.mature| < MATURE_RESERVE || |e.probePool| < ROLE_SIZE then ReserveIncomplete
    else if !e.allowNormalChanges && e.inactive == {} then ChangesFrozen
    else if |Elements(e.probePool) - Elements(Chosen(active, e, p).core)| < ROLE_SIZE then ProbeReserveIncomplete
    else BoundaryReserveIncomplete
  }

  /**
   * The daily decision. It never raises: each of the three errors in the source is out of reach. It preserves the active
   * universe exactly when nothing may change or too few candidates are left for a role; otherwise it selects sixty
   * different active symbols that obey the rules of each role.
   */
  method SelectRollingUniverse(active: Members, e: Evidence, p: Policy) returns (r: Result<Selection, string>)
    requires WellFormed(active) && Pooled(e) && p.boundaryRetainRank < UNRANKED
    ensures r.Ok?
    ensures r.value.Preserved? <==>
            || e.activeIncomplete || |e.mature| < 55 || |e.probePool| < 5 || (!e.allowNormalChanges && e.inactive == {})
            || !ReservesLeft(Chosen(active, e, p), e)
    ensures r.value.Preserved? ==> r.value.reason == Obstacle(active, e, p)
    ensures r.value.Selected? ==> r.value.members == Chosen(active, e, p) && SelectionRule(active, r.value.members, e, p)
    ensures !e.activeIncomplete && (e.allowNormalChanges || e.inactive != {}) && |e.mature| >= 60 && |e.probePool| >= 55 ==> r.value.Selected?
  {
    if e.activeIncomplete {
      return Ok(Preserved(EvidenceIncomplete));
    }
    if |e.mature| < MATURE_RESERVE || |e.probePool| < ROLE_SIZE {
      return Ok(Preserved(ReserveIncomplete));
    }
    if !e.allowNormalChanges && e.inactive == {} {
      return Ok(Preserved(ChangesFrozen));
    }
    hide CoreRule, CoreSettled, ProbeRule, BoundaryRule, NoRepeats, Elements, CoreChoice, ProbeChoice, BoundaryChoice;
    var core := SelectCore(active.core, e, p);
    SizeAfter(e.probePool, Elements(core.value), CORE_SIZE) by {
      CoreSize(active.core, core.value, e, p);
    }
    var probe := SelectProbe(active.probe, core.value, e);
    if probe.None? {
      return Ok(Preserved(ProbeReserveIncomplete));
    }
    var taken := Elements(core.value) + Elements(probe.value.value);
    SizeAfter(e.mature, taken, CORE_SIZE + ROLE_SIZE) by {
      CoreSize(active.core, core.value, e, p);
      ProbeSize(active.probe, probe.value.value, Elements(core.value), e);
    }
    var boundary := SelectBoundary(active.boundary, taken, e, p);
    if boundary.None? {
      return Ok(Preserved(BoundaryReserveIncomplete));
    }
    var members := Members(core.value, boundary.value.value, probe.value.value);
    SixtyDistinct(active, members, e, p);
    r := Ok(Selected(members));
  }

  lemma {:induction false} SizeAfter(pool: seq<Symbol>, taken: set<Symbol>, most: nat)
    requires NoRepeats(pool) && |taken| <= most
    ensures |Elements(pool) - taken| >= |pool| - most
  {
    NoRepeatsSize(pool);
    hide NoRepeats, Elements;
    var left, both := Elements(pool) - taken, Elements(pool) * taken;
    SmallerSet(both, taken);
    assert Elements(pool) == left + both;
  }

  lemma CoreSize(was: seq<Symbol>, now: seq<Symbol>, e: Evidence, p: Policy)
    requires CoreRule(was, now, e, p)
    ensures |Elements(now)| <= |was|
  {
    NoRepeatsSize(now);
  }

  lemma ProbeSize(was: seq<Symbol>, now: seq<Symbol>, taken: set<Symbol>, e: Evidence)
    requires NoRepeats(was) && NoRepeats(e.probePool) && ProbeRule(was, now, taken, e)
    ensures |Elements(now)| <= ROLE_SIZE
  {
    hide Reconciled;
    NoRepeatsSize(now);
  }

  lemma {:induction false} SixtyDistinct(active: Members, m: Members, e: Evidence, p: Policy)
    requires WellFormed(active) && Pooled(e)
    requires CoreRule(active.core, m.core, e, p)
    requires ProbeRule(active.probe, m.probe, Elements(m.core), e)
    requires BoundaryRule(active.boundary, m.boundary, Elements(m.core) + Elements(m.probe), e, p)
    ensures WellFormed(m)
  {
    hide RankIn, NoRepeats, Filtered, Reconciled, BoundaryPreferences;
    forall s | s in m.boundary
      ensures s !in Elements(m.core) && s !in m.probe
    {
      assert s !in Elements(m.probe);
    }
    forall s | s in m.probe
      ensures s !in Elements(m.boundary)
    {
    }
  }

  /** Sixty different symbols, none of them inactive. */
  lemma {:induction false} SelectedIsSixtyActive(active: Members, m: Members, e: Evidence, p: Policy)
    requires WellFormed(active) && Pooled(e) && SelectionRule(active, m, e, p)
    ensures |Elements(m.core) + Elements(m.boundary) + Elements(m.probe)| == 60
    ensures Disjoint(m.core, e.inactive) && Disjoint(m.boundary, e.inactive) && Disjoint(m.probe, e.inactive)
  {
    hide RankIn, CoreRule, RoleRule, BoundaryRule, NoRepeats;
    NoRepeatsSize(m.core);
    NoRepeatsSize(m.boundary);
    NoRepeatsSize(m.probe);
    Apart(m.boundary, m.core);
    Apart(m.probe, m.core);
    Apart(m.probe, m.boundary);
    hide Elements, Disjoint;
    var both := Elements(m.core) + Elements(m.boundary);
    assert both * Elements(m.probe) == {};
    assert Elements(m.core) !! Elements(m.boundary) && both !! Elements(m.probe);
    assert |both| == |Elements(m.core)| + |Elements(m.boundary)|;
    assert |both + Elements(m.probe)| == |both| + |Elements(m.probe)|;
    SelectedIsActive(active, m, e, p);
  }

  lemma Apart(a: seq<Symbol>, b: seq<Symbol>)
    requires Disjoint(a, Elements(b))
    ensures Elements(a) * Elements(b) == {}
  {
    forall s | s in Elements(a)
      ensures s !in Elements(b)
    {
      assert s in a;
    }
  }

  lemma SelectedIsActive(active: Members, m: Members, e: Evidence, p: Policy)
    requires WellFormed(active) && Pooled(e) && SelectionRule(active, m, e, p)
    ensures Disjoint(m.core, e.inactive) && Disjoint(m.boundary, e.inactive) && Disjoint(m.probe, e.inactive)
  {
    hide RankIn, NoRepeats;
  }
}

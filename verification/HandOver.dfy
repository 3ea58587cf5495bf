/**
 * Live hand-over between routes (collector/sources.py): every route first takes on its new symbols, and only when all
 * have does any route drop its old ones. Updates complete in any order, and any of them may fail.
 */
module HandOver {
  import opened Common
  import opened Wrappers

  /** What a route is taken to hold, and what it shall hold. */
  datatype Plan = Plan(current: set<Symbol>, target: set<Symbol>)
  {
    function Expanded(): set<Symbol> {
      current + target
    }
  }

  datatype UpdateError = ExpansionFailed | RemovalIncomplete

  datatype Phase = Expanding | RollingBack | Removing | Failed(error: UpdateError) | Done(changed: bool)

  /** A call in progress: the updates still out, and whether one of this phase has failed. */
  datatype Call = Call(plans: seq<Plan>, routes: seq<set<Symbol>>, phase: Phase, pending: set<nat>, failed: bool)

  /** Plans that change something and add something. */
  function Additions(plans: seq<Plan>): set<nat> {
    set i | 0 <= i < |plans| && plans[i].current != plans[i].target && plans[i].Expanded() != plans[i].current
  }

  function Removals(plans: seq<Plan>): set<nat> {
    set i | 0 <= i < |plans| && plans[i].current != plans[i].target && plans[i].target != plans[i].Expanded()
  }

  predicate Unchanged(plans: seq<Plan>) {
    forall i :: 0 <= i < |plans| ==> plans[i].current == plans[i].target
  }

  function BeginRemoving(plans: seq<Plan>, routes: seq<set<Symbol>>): Call {
    if Removals(plans) == {} then Call(plans, routes, Done(true), {}, false)
    else Call(plans, routes, Removing, Removals(plans), false)
  }

  function Begin(plans: seq<Plan>, routes: seq<set<Symbol>>): Call {
    if Unchanged(plans) then Call(plans, routes, Done(false), {}, false)
    else if Additions(plans) == {} then BeginRemoving(plans, routes)
    else Call(plans, routes, Expanding, Additions(plans), false)
  }

  /** One update completes; a failed one leaves its route as it was. */
  function Resolve(c: Call, i: nat, ok: bool): Call
    requires i in c.pending && i < |c.plans| == |c.routes|
    requires c.phase.Expanding? || c.phase.RollingBack? || c.phase.Removing?
  {
    var value := match c.phase
      case Expanding => c.plans[i].Expanded()
      case RollingBack => c.plans[i].current
      case _ => c.plans[i].target;
    var routes := if ok then c.routes[i := value] else c.routes;
    var failed, pending := c.failed || !ok, c.pending - {i};
    if pending != {} then Call(c.plans, routes, c.phase, pending, failed)
    else match c.phase
      case Expanding => if failed then Call(c.plans, routes, RollingBack, Additions(c.plans), false) else BeginRemoving(c.plans, routes)
      case RollingBack => Call(c.plans, routes, Failed(ExpansionFailed), {}, false)
      case _ => Call(c.plans, routes, if failed then Failed(RemovalIncomplete) else Done(true), {}, false)
  }

  datatype Outcome = Outcome(route: nat, ok: bool)

  predicate CanResolve(c: Call, o: Outcome) {
    o.route in c.pending && o.route < |c.plans| == |c.routes| && (c.phase.Expanding? || c.phase.RollingBack? || c.phase.Removing?)
  }

  /** The call after some updates have completed; nothing if the sequence is not one that can happen. */
  function After(c: Call, outcomes: seq<Outcome>): Option<Call> {
    if outcomes == [] then Some(c)
    else
      var before, o := After(c, outcomes[..|outcomes| - 1]), outcomes[|outcomes| - 1];
      if before.Some? && CanResolve(before.value, o) then Some(Resolve(before.value, o.route, o.ok)) else None
  }

  /** A call that is done says that it changed something if and only if some plan does. */
  lemma {:induction false} DoneSaysWhetherChanged(plans: seq<Plan>, routes: seq<set<Symbol>>, outcomes: seq<Outcome>)
    requires After(Begin(plans, routes), outcomes).Some?
    ensures var c := After(Begin(plans, routes), outcomes).value;
            && c.plans == plans && (Unchanged(plans) ==> c.phase.Done?)
            && (c.phase.Done? ==> (c.phase.changed <==> exists i :: 0 <= i < |plans| && plans[i].current != plans[i].target))
  {
    if outcomes != [] {
      DoneSaysWhetherChanged(plans, routes, outcomes[..|outcomes| - 1]);
    }
  }

  // ---- What every run keeps ------------------------------------------------------------------------

  // One call can mix routes of several kinds (public, market, poller), and a symbol needs a route of each: what follows
  // holds for any part of the plans, whether or not the others know what their routes hold.

  /** Each route of a part whose plan takes it to hold a symbol does. */
  predicate Holds(plans: seq<Plan>, routes: seq<set<Symbol>>, part: set<nat>, s: Symbol) {
    |routes| == |plans| && forall i :: i in part && i < |plans| ==> s in plans[i].current ==> s in routes[i]
  }

  /** Each route of a part that shall hold a symbol does. */
  predicate Reached(plans: seq<Plan>, routes: seq<set<Symbol>>, part: set<nat>, s: Symbol) {
    |routes| == |plans| && forall i :: i in part && i < |plans| ==> s in plans[i].target ==> s in routes[i]
  }

  ghost predicate Sound(c: Call, part: set<nat>, s: Symbol) {
    && |c.routes| == |c.plans|
    && (forall i :: i in c.pending ==> i < |c.plans|)
    && (c.phase.Expanding? ==> Holds(c.plans, c.routes, part, s) && c.pending <= Additions(c.plans))
    && (c.phase.Expanding? && !c.failed ==> forall i :: i in Additions(c.plans) && i !in c.pending ==> c.routes[i] == c.plans[i].Expanded())
    && (c.phase.RollingBack? ==> Holds(c.plans, c.routes, part, s))
    && (c.phase.Removing? || c.phase.Done? ==> Reached(c.plans, c.routes, part, s))
    && (c.phase.Failed? ==> Holds(c.plans, c.routes, part, s) || Reached(c.plans, c.routes, part, s))
  }

  /** Once nothing is left to add, or everything was added, each route holds its target. */
  lemma {:induction false} RemovingIsSound(plans: seq<Plan>, routes: seq<set<Symbol>>, part: set<nat>, s: Symbol)
    requires Holds(plans, routes, part, s)
    requires forall i :: i in Additions(plans) ==> routes[i] == plans[i].Expanded()
    ensures Sound(BeginRemoving(plans, routes), part, s)
  {
    forall i | i in part && i < |plans| && s in plans[i].target
      ensures s in routes[i]
    {
      if i !in Additions(plans) && plans[i].current != plans[i].target {
        assert plans[i].Expanded() == plans[i].current;
        assert s in plans[i].Expanded();
      }
    }
  }

  lemma {:induction false} BeginIsSound(plans: seq<Plan>, routes: seq<set<Symbol>>, part: set<nat>, s: Symbol)
    requires Holds(plans, routes, part, s)
    ensures Sound(Begin(plans, routes), part, s)
  {
    if !Unchanged(plans) && Additions(plans) == {} {
      RemovingIsSound(plans, routes, part, s);
    }
  }

  lemma {:induction false} ResolveIsSound(c: Call, o: Outcome, part: set<nat>, s: Symbol)
    requires Sound(c, part, s) && CanResolve(c, o)
    ensures Sound(Resolve(c, o.route, o.ok), part, s)
  {
    var r := Resolve(c, o.route, o.ok);
    if c.phase.Expanding? {
      var routes := if o.ok then c.routes[o.route := c.plans[o.route].Expanded()] else c.routes;
      assert Holds(c.plans, routes, part, s);
      if c.pending - {o.route} == {} && !c.failed && o.ok {
        forall i | i in Additions(c.plans)
          ensures routes[i] == c.plans[i].Expanded()
        {
          if i != o.route {
            assert i !in c.pending - {o.route};
          }
        }
        RemovingIsSound(c.plans, routes, part, s);
      }
    }
  }

  lemma {:induction false} EveryRunIsSound(c: Call, outcomes: seq<Outcome>, part: set<nat>, s: Symbol)
    requires Sound(c, part, s) && After(c, outcomes).Some?
    ensures Sound(After(c, outcomes).value, part, s) && After(c, outcomes).value.plans == c.plans
  {
    hide Sound, Resolve, CanResolve;
    if outcomes != [] {
      EveryRunIsSound(c, outcomes[..|outcomes| - 1], part, s);
      var before, o := After(c, outcomes[..|outcomes| - 1]).value, outcomes[|outcomes| - 1];
      ResolveIsSound(before, o, part, s);
      SamePlans(before, o);
    }
  }

  lemma SamePlans(c: Call, o: Outcome)
    requires CanResolve(c, o)
    ensures Resolve(c, o.route, o.ok).plans == c.plans && |Resolve(c, o.route, o.ok).routes| == |c.routes|
  {
  }

  /** Some route of a part holds a symbol. */
  ghost predicate Covered(routes: seq<set<Symbol>>, part: set<nat>, s: Symbol) {
    exists i :: i in part && i < |routes| && s in routes[i]
  }

  ghost predicate InOldAndNew(plans: seq<Plan>, part: set<nat>, s: Symbol) {
    (exists i :: i in part && i < |plans| && s in plans[i].current) && (exists j :: j in part && j < |plans| && s in plans[j].target)
  }

  /**
   * Whatever completes or fails, and in whatever order, a symbol of the old and the new assignment of a part, such as
   * the public routes, is never without a route of that part.
   */
  lemma {:induction false} SharedSymbolsStayCovered(plans: seq<Plan>, routes: seq<set<Symbol>>, outcomes: seq<Outcome>, part: set<nat>, s: Symbol)
    requires Holds(plans, routes, part, s) && InOldAndNew(plans, part, s) && After(Begin(plans, routes), outcomes).Some?
    ensures Covered(After(Begin(plans, routes), outcomes).value.routes, part, s)
  {
    BeginIsSound(plans, routes, part, s);
    EveryRunIsSound(Begin(plans, routes), outcomes, part, s);
    var c := After(Begin(plans, routes), outcomes).value;
    hide After;
    assert c.plans == plans;
    var i :| i in part && i < |plans| && s in plans[i].current;
    var j :| j in part && j < |plans| && s in plans[j].target;
    if Holds(plans, c.routes, part, s) {
      assert s in c.routes[i];
    } else {
      assert s in c.routes[j];
    }
  }

  /** No route of a part drops a symbol before every route of that part that shall hold it does. */
  lemma {:induction false} RemovalWaitsForExpansion(plans: seq<Plan>, routes: seq<set<Symbol>>, outcomes: seq<Outcome>, part: set<nat>, s: Symbol)
    requires Holds(plans, routes, part, s) && After(Begin(plans, routes), outcomes).Some?
    ensures var c := After(Begin(plans, routes), outcomes).value;
            && (c.phase.Removing? ==> Reached(plans, c.routes, part, s))
            && (c.phase.Expanding? || c.phase.RollingBack? ==> Holds(plans, c.routes, part, s))
  {
    BeginIsSound(plans, routes, part, s);
    EveryRunIsSound(Begin(plans, routes), outcomes, part, s);
  }

  // ---- Failure-free calls ------------------------------------------------------------------------

  predicate NoFailure(outcomes: seq<Outcome>) {
    forall k :: 0 <= k < |outcomes| ==> outcomes[k].ok
  }

  /** Without failures so far: changed routes are where their phase has brought them, the others as they were. */
  ghost predicate Underway(c: Call, start: seq<set<Symbol>>) {
    && |c.routes| == |c.plans| == |start| && !c.failed && !c.phase.Failed? && !c.phase.RollingBack?
    && (forall i :: 0 <= i < |c.plans| && c.plans[i].current == c.plans[i].target ==> c.routes[i] == start[i])
    && (c.phase.Expanding? ==> c.pending <= Additions(c.plans) && c.pending != {})
    && (c.phase.Expanding? ==> forall i :: i in Additions(c.plans) && i !in c.pending ==> c.routes[i] == c.plans[i].Expanded())
    && (c.phase.Removing? ==> c.pending <= Removals(c.plans) && c.pending != {} && forall i :: 0 <= i < |c.plans| ==>
          c.plans[i].current != c.plans[i].target && i !in c.pending ==> c.routes[i] == c.plans[i].target)
    && (c.phase.Done? ==> forall i :: 0 <= i < |c.plans| && c.plans[i].current != c.plans[i].target ==> c.routes[i] == c.plans[i].target)
  }

  lemma {:induction false} RemovingUnderway(plans: seq<Plan>, routes: seq<set<Symbol>>, start: seq<set<Symbol>>)
    requires |routes| == |plans| == |start|
    requires forall i :: 0 <= i < |plans| && plans[i].current == plans[i].target ==> routes[i] == start[i]
    requires forall i :: i in Additions(plans) ==> routes[i] == plans[i].Expanded()
    ensures Underway(BeginRemoving(plans, routes), start)
  {
    forall i | 0 <= i < |plans| && plans[i].current != plans[i].target && i !in Removals(plans)
      ensures routes[i] == plans[i].target
    {
      assert plans[i].target == plans[i].Expanded();
      assert i in Additions(plans);
    }
  }

  lemma {:induction false} BeginUnderway(plans: seq<Plan>, routes: seq<set<Symbol>>)
    requires |routes| == |plans|
    ensures Underway(Begin(plans, routes), routes)
  {
    if !Unchanged(plans) && Additions(plans) == {} {
      RemovingUnderway(plans, routes, routes);
    }
  }

  lemma {:induction false} SuccessStaysUnderway(c: Call, i: nat, start: seq<set<Symbol>>)
    requires Underway(c, start) && CanResolve(c, Outcome(i, true))
    ensures Underway(Resolve(c, i, true), start)
  {
    if c.phase.Expanding? && c.pending - {i} == {} {
      var routes := c.routes[i := c.plans[i].Expanded()];
      forall k | k in Additions(c.plans)
        ensures routes[k] == c.plans[k].Expanded()
      {
        if k != i {
          assert k !in c.pending - {i};
        }
      }
      RemovingUnderway(c.plans, routes, start);
    }
    if c.phase.Removing? && c.pending - {i} == {} {
      forall k | 0 <= k < |c.plans| && k != i
        ensures k !in c.pending
      {
        assert k !in c.pending - {i};
      }
    }
  }

  lemma {:induction false} RunUnderway(c: Call, outcomes: seq<Outcome>, start: seq<set<Symbol>>)
    requires Underway(c, start) && NoFailure(outcomes) && After(c, outcomes).Some?
    ensures Underway(After(c, outcomes).value, start) && After(c, outcomes).value.plans == c.plans
  {
    hide Underway, Resolve, CanResolve;
    if outcomes != [] {
      RunUnderway(c, outcomes[..|outcomes| - 1], start);
      var before, o := After(c, outcomes[..|outcomes| - 1]).value, outcomes[|outcomes| - 1];
      assert o == Outcome(o.route, true);
      SuccessStaysUnderway(before, o.route, start);
      SamePlans(before, o);
    }
  }

  /** A call without failures ends with a route at its target if and only if its plan changes something or it was there. */
  lemma {:induction false} ChangedRoutesReachTarget(plans: seq<Plan>, routes: seq<set<Symbol>>, outcomes: seq<Outcome>, i: nat)
    requires |routes| == |plans| && i < |plans| && NoFailure(outcomes)
    requires After(Begin(plans, routes), outcomes).Some? && After(Begin(plans, routes), outcomes).value.phase.Done?
    ensures var c := After(Begin(plans, routes), outcomes).value;
            |c.routes| == |plans| && (c.routes[i] == plans[i].target <==> plans[i].current != plans[i].target || routes[i] == plans[i].target)
  {
    BeginUnderway(plans, routes);
    RunUnderway(Begin(plans, routes), outcomes, routes);
  }

  /** Plans that lead from the routes as they are to an assignment. */
  function PlansTo(routes: seq<set<Symbol>>, assignment: seq<set<Symbol>>): (plans: seq<Plan>)
    requires |routes| == |assignment|
    ensures |plans| == |routes| && forall i :: 0 <= i < |plans| ==> plans[i] == Plan(routes[i], assignment[i])
  {
    seq(|routes|, (i: nat) requires i < |routes| => Plan(routes[i], assignment[i]))
  }

  /** Whatever earlier failures left behind, a reconcile without failures ends at the committed assignment. */
  lemma {:induction false} ReconcileRestores(routes: seq<set<Symbol>>, committed: seq<set<Symbol>>, outcomes: seq<Outcome>)
    requires |routes| == |committed| && NoFailure(outcomes)
    requires After(Begin(PlansTo(routes, committed), routes), outcomes).Some?
    ensures var c := After(Begin(PlansTo(routes, committed), routes), outcomes).value;
            && (c.pending == {} <==> c.phase.Done?)
            && (c.phase.Done? ==> c.routes == committed)
  {
    var plans := PlansTo(routes, committed);
    var c := After(Begin(plans, routes), outcomes).value;
    BeginUnderway(plans, routes);
    RunUnderway(Begin(plans, routes), outcomes, routes);
    EveryCallIdles(Begin(plans, routes), outcomes);
    BeginIdles(plans, routes);
    if c.phase.Done? {
      forall i | 0 <= i < |plans|
        ensures c.routes[i] == committed[i]
      {
        ChangedRoutesReachTarget(plans, routes, outcomes, i);
      }
    }
  }

  predicate Idles(c: Call) {
    c.phase.Done? || c.phase.Failed? ==> c.pending == {}
  }

  lemma BeginIdles(plans: seq<Plan>, routes: seq<set<Symbol>>)
    ensures Idles(Begin(plans, routes)) && Begin(plans, routes).plans == plans
  {
  }

  lemma {:induction false} EveryCallIdles(c: Call, outcomes: seq<Outcome>)
    requires After(c, outcomes).Some?
    ensures Idles(c) ==> Idles(After(c, outcomes).value)
  {
    if outcomes != [] {
      EveryCallIdles(c, outcomes[..|outcomes| - 1]);
    }
  }

  // ---- What every call leaves behind ---------------------------------------------------------------

  /** One of a route's updates in a phase failed. */
  ghost predicate FailedWhile(c: Call, outcomes: seq<Outcome>, phase: Phase, i: nat) {
    exists k :: 0 <= k < |outcomes| && outcomes[k] == Outcome(i, false)
                && After(c, outcomes[..k]).Some? && After(c, outcomes[..k]).value.phase == phase
  }

  /** What a route holds at each point of a call whose plan starts from what the route holds. */
  ghost predicate Exact(c: Call, i: nat, rollbackFailed: bool, removalFailed: bool)
    requires i < |c.plans| == |c.routes|
  {
    var p, r := c.plans[i], c.routes[i];
    match c.phase
    case Expanding =>
      && (r == p.current || (i in Additions(c.plans) && i !in c.pending && r == p.Expanded()))
      && (i in Additions(c.plans) && i !in c.pending && !c.failed ==> r == p.Expanded())
    case RollingBack => r == p.current || (i in Additions(c.plans) && r == p.Expanded() && (i in c.pending || rollbackFailed))
    case Removing =>
      && (r == p.target || (i in Removals(c.plans) && r == p.Expanded() && (i in c.pending || (c.failed && removalFailed))))
    case Failed(ExpansionFailed) => r == p.current || (r == p.Expanded() && rollbackFailed)
    case Failed(RemovalIncomplete) => r == p.target || (r == p.Expanded() && removalFailed)
    case Done(_) => r == p.target
  }

  lemma {:induction false} RemovingIsExact(plans: seq<Plan>, routes: seq<set<Symbol>>, i: nat, rollbackFailed: bool, removalFailed: bool)
    requires i < |plans| == |routes|
    requires if i in Additions(plans) then routes[i] == plans[i].Expanded() else routes[i] == plans[i].current
    ensures Exact(BeginRemoving(plans, routes), i, rollbackFailed, removalFailed)
  {
    if plans[i].current == plans[i].target {
      assert plans[i].Expanded() == plans[i].current;
    }
    assert i !in Removals(plans) ==> routes[i] == plans[i].target;
  }

  lemma {:induction false} BeginIsExact(plans: seq<Plan>, routes: seq<set<Symbol>>, i: nat)
    requires i < |plans| == |routes| && routes[i] == plans[i].current
    ensures Exact(Begin(plans, routes), i, false, false)
  {
    if !Unchanged(plans) && Additions(plans) == {} {
      RemovingIsExact(plans, routes, i, false, false);
    }
  }

  /** A phase waits for updates of its own routes only: those that gain symbols, or, when removing, those that lose some. */
  ghost predicate WellPending(c: Call) {
    && |c.routes| == |c.plans|
    && (c.phase.Expanding? || c.phase.RollingBack? ==> c.pending <= Additions(c.plans))
    && (c.phase.Removing? ==> c.pending <= Removals(c.plans))
  }

  lemma {:induction false} ResolveIsExact(c: Call, o: Outcome, i: nat, rollbackFailed: bool, removalFailed: bool)
    requires WellPending(c) && CanResolve(c, o) && i < |c.plans| && Exact(c, i, rollbackFailed, removalFailed)
    ensures WellPending(Resolve(c, o.route, o.ok))
    ensures Exact(Resolve(c, o.route, o.ok), i, rollbackFailed || (c.phase.RollingBack? && o == Outcome(i, false)),
                  removalFailed || (c.phase.Removing? && o == Outcome(i, false)))
  {
    var routes := Resolve(c, o.route, o.ok).routes;
    if c.phase.Expanding? && c.pending - {o.route} == {} && !c.failed && o.ok {
      assert i != o.route ==> i !in c.pending - {o.route};
      RemovingIsExact(c.plans, c.routes[o.route := c.plans[o.route].Expanded()], i, rollbackFailed, removalFailed);
    }
    if c.pending - {o.route} == {} {
      assert i != o.route ==> i !in c.pending - {o.route};
    }
  }

  lemma {:induction false} FailedWhileGrows(c: Call, outcomes: seq<Outcome>, phase: Phase, i: nat)
    requires outcomes != []
    ensures FailedWhile(c, outcomes[..|outcomes| - 1], phase, i) ==> FailedWhile(c, outcomes, phase, i)
    ensures var n := |outcomes| - 1;
            outcomes[n] == Outcome(i, false) && After(c, outcomes[..n]).Some? && After(c, outcomes[..n]).value.phase == phase
            ==> FailedWhile(c, outcomes, phase, i)
  {
    hide After;
    var n := |outcomes| - 1;
    if FailedWhile(c, outcomes[..n], phase, i) {
      var k :| 0 <= k < n && outcomes[..n][k] == Outcome(i, false)
               && After(c, outcomes[..n][..k]).Some? && After(c, outcomes[..n][..k]).value.phase == phase;
      assert outcomes[..n][..k] == outcomes[..k] && outcomes[k] == Outcome(i, false);
    }
  }

  lemma ExactIsMonotone(c: Call, i: nat, a: bool, b: bool, a': bool, b': bool)
    requires i < |c.plans| == |c.routes| && Exact(c, i, a, b) && (a ==> a') && (b ==> b')
    ensures Exact(c, i, a', b')
  {
  }

  /** At every point of every call, whatever fails: which of the three sets a route holds, and why. */
  lemma {:induction false} EveryCallIsExact(plans: seq<Plan>, routes: seq<set<Symbol>>, outcomes: seq<Outcome>, i: nat)
    requires i < |plans| == |routes| && routes[i] == plans[i].current
    requires After(Begin(plans, routes), outcomes).Some?
    ensures var b, c := Begin(plans, routes), After(Begin(plans, routes), outcomes).value;
            && WellPending(c) && c.plans == plans
            && Exact(c, i, FailedWhile(b, outcomes, RollingBack, i), FailedWhile(b, outcomes, Removing, i))
  {
    var b := Begin(plans, routes);
    BeginIsExact(plans, routes, i);
    if outcomes == [] {
      ExactIsMonotone(b, i, false, false, FailedWhile(b, outcomes, RollingBack, i), FailedWhile(b, outcomes, Removing, i));
    } else {
      var front, o := outcomes[..|outcomes| - 1], outcomes[|outcomes| - 1];
      EveryCallIsExact(plans, routes, front, i);
      var before := After(b, front).value;
      FailedWhileGrows(b, outcomes, RollingBack, i);
      FailedWhileGrows(b, outcomes, Removing, i);
      SamePlans(before, o);
      hide Exact, FailedWhile, Begin, Resolve, CanResolve, WellPending;
      var x, y := FailedWhile(b, front, RollingBack, i), FailedWhile(b, front, Removing, i);
      ResolveIsExact(before, o, i, x, y);
      ExactIsMonotone(Resolve(before, o.route, o.ok), i, x || (before.phase.RollingBack? && o == Outcome(i, false)),
                      y || (before.phase.Removing? && o == Outcome(i, false)),
                      FailedWhile(b, outcomes, RollingBack, i), FailedWhile(b, outcomes, Removing, i));
    }
  }

  /**
   * How a failed call ends, when its plans start from what the routes hold. A failed expansion leaves each route as it
   * was, or with its old and new symbols when its own rollback failed; a failed removal leaves each at its target, or
   * with its old and new symbols when its own removal failed.
   */
  lemma {:induction false} FailedCallsEndExactly(plans: seq<Plan>, routes: seq<set<Symbol>>, outcomes: seq<Outcome>, i: nat)
    requires i < |plans| == |routes| && routes[i] == plans[i].current
    requires After(Begin(plans, routes), outcomes).Some? && After(Begin(plans, routes), outcomes).value.phase.Failed?
    ensures var b, c := Begin(plans, routes), After(Begin(plans, routes), outcomes).value;
            |c.routes| == |routes| && match c.phase.error
            case ExpansionFailed => c.routes[i] == routes[i] || (c.routes[i] == plans[i].Expanded() && FailedWhile(b, outcomes, RollingBack, i))
            case RemovalIncomplete => c.routes[i] == plans[i].target || (c.routes[i] == plans[i].Expanded() && FailedWhile(b, outcomes, Removing, i))
  {
    hide After, Begin, FailedWhile;
    EveryCallIsExact(plans, routes, outcomes, i);
  }

  lemma {:induction false} RoutesStay(c: Call, outcomes: seq<Outcome>)
    requires After(c, outcomes).Some?
    ensures |After(c, outcomes).value.routes| == |c.routes|
  {
    hide Resolve, CanResolve;
    if outcomes != [] {
      RoutesStay(c, outcomes[..|outcomes| - 1]);
      SamePlans(After(c, outcomes[..|outcomes| - 1]).value, outcomes[|outcomes| - 1]);
    }
  }

  /** A call whose expansion failed and whose rollbacks all succeeded changes nothing. */
  lemma {:induction false} RollbackRestores(plans: seq<Plan>, routes: seq<set<Symbol>>, outcomes: seq<Outcome>)
    requires |plans| == |routes| && forall i :: 0 <= i < |plans| ==> routes[i] == plans[i].current
    requires After(Begin(plans, routes), outcomes).Some? && After(Begin(plans, routes), outcomes).value.phase == Failed(ExpansionFailed)
    requires forall i :: 0 <= i < |plans| ==> !FailedWhile(Begin(plans, routes), outcomes, RollingBack, i)
    ensures After(Begin(plans, routes), outcomes).value.routes == routes
  {
    assert |Begin(plans, routes).routes| == |routes|;
    RoutesStay(Begin(plans, routes), outcomes);
    hide After, Begin, FailedWhile;
    forall i | 0 <= i < |plans|
      ensures After(Begin(plans, routes), outcomes).value.routes[i] == routes[i]
    {
      FailedCallsEndExactly(plans, routes, outcomes, i);
    }
  }

  // ---- Plans that do not know their route ----------------------------------------------------------

  /**
   * Plans need not start from what their routes hold: the market and poller plans start from the committed instruments.
   * Still, a symbol of a plan's old and new assignment that its route holds stays on it, whatever fails.
   */
  lemma {:induction false} HeldSymbolsStay(plans: seq<Plan>, routes: seq<set<Symbol>>, outcomes: seq<Outcome>, i: nat, s: Symbol)
    requires |routes| == |plans| && i < |plans| && s in plans[i].current && s in plans[i].target && s in routes[i]
    requires After(Begin(plans, routes), outcomes).Some?
    ensures var c := After(Begin(plans, routes), outcomes).value; c.plans == plans && |c.routes| == |plans| && s in c.routes[i]
  {
    if outcomes != [] {
      HeldSymbolsStay(plans, routes, outcomes[..|outcomes| - 1], i, s);
    }
  }

  /** The public route follows its own instruments, the market route the committed ones: public-0 first, market-0 second. */
  function InstrumentPlans(routes: seq<set<Symbol>>, committed: set<Symbol>, instruments: set<Symbol>): seq<Plan>
    requires |routes| == 2
  {
    [Plan(routes[0], instruments), Plan(committed, instruments)]
  }

  /**
   * A removal that fails on the public route only leaves the market route at the new instruments while the old ones stay
   * committed. Going back to the old ones then changes nothing on the market route: it never takes on symbol 2 again,
   * which is in the committed and in the wanted instruments.
   */
  lemma {:induction false} StalePlanLeavesSymbolOut()
    ensures var before := [{1, 2}, {1, 2}];
            var first := After(Begin(InstrumentPlans(before, {1, 2}, {1, 3}), before),
                               [Outcome(0, true), Outcome(1, true), Outcome(1, true), Outcome(0, false)]);
            && first.Some? && first.value.phase == Failed(RemovalIncomplete) && first.value.routes == [{1, 2, 3}, {1, 3}]
            && var plans := InstrumentPlans(first.value.routes, {1, 2}, {1, 2});
            var second := After(Begin(plans, first.value.routes), [Outcome(0, true)]);
            && second.Some? && second.value.phase == Done(true) && second.value.routes == [{1, 2}, {1, 3}]
            && 2 in plans[1].current && 2 in plans[1].target && 2 !in second.value.routes[1]
  {
    var p := Plan({1, 2}, {1, 3});
    assert p.Expanded() == {1, 2, 3};
    StaleFirst(p);
    StaleSecond();
  }

  lemma {:induction false} OneMoreOutcome(c: Call, outcomes: seq<Outcome>, o: Outcome)
    requires After(c, outcomes).Some? && CanResolve(After(c, outcomes).value, o)
    ensures After(c, outcomes + [o]) == Some(Resolve(After(c, outcomes).value, o.route, o.ok))
  {
    assert (outcomes + [o])[..|outcomes|] == outcomes;
  }

  lemma {:induction false} StaleFirst(p: Plan)
    requires p == Plan({1, 2}, {1, 3}) && p.Expanded() == {1, 2, 3}
    ensures var c := After(Begin([p, p], [{1, 2}, {1, 2}]), [Outcome(0, true), Outcome(1, true), Outcome(1, true), Outcome(0, false)]);
            c == Some(Call([p, p], [{1, 2, 3}, {1, 3}], Failed(RemovalIncomplete), {}, false))
  {
    var plans, wide := [p, p], {1, 2, 3};
    assert 3 in p.target && 3 !in p.current && 2 in wide && 2 !in p.target;
    assert Additions(plans) == {0, 1} && Removals(plans) == {0, 1};
    assert plans[0].current != plans[0].target;
    var c0 := Call(plans, [{1, 2}, {1, 2}], Expanding, {0, 1}, false);
    assert Begin(plans, [{1, 2}, {1, 2}]) == c0;
    var c1 := Call(plans, [wide, {1, 2}], Expanding, {1}, false);
    assert {0, 1} - {0} == {1} && {1} - {1} == {};
    assert Resolve(c0, 0, true) == c1;
    var c2 := Call(plans, [wide, wide], Removing, {0, 1}, false);
    assert Resolve(c1, 1, true) == c2;
    var c3 := Call(plans, [wide, {1, 3}], Removing, {0}, false);
    assert {0, 1} - {1} == {0};
    assert Resolve(c2, 1, true) == c3;
    var c4 := Call(plans, [wide, {1, 3}], Failed(RemovalIncomplete), {}, false);
    assert {0} - {0} == {};
    assert Resolve(c3, 0, false) == c4;
    hide Resolve, Additions, Removals;
    OneMoreOutcome(c0, [], Outcome(0, true));
    OneMoreOutcome(c0, [] + [Outcome(0, true)], Outcome(1, true));
    OneMoreOutcome(c0, [] + [Outcome(0, true)] + [Outcome(1, true)], Outcome(1, true));
    OneMoreOutcome(c0, [] + [Outcome(0, true)] + [Outcome(1, true)] + [Outcome(1, true)], Outcome(0, false));
    assert [] + [Outcome(0, true)] + [Outcome(1, true)] + [Outcome(1, true)] + [Outcome(0, false)]
        == [Outcome(0, true), Outcome(1, true), Outcome(1, true), Outcome(0, false)];
  }

  lemma {:induction false} StaleSecond()
    ensures var plans, routes := InstrumentPlans([{1, 2, 3}, {1, 3}], {1, 2}, {1, 2}), [{1, 2, 3}, {1, 3}];
            After(Begin(plans, routes), [Outcome(0, true)]) == Some(Call(plans, [{1, 2}, {1, 3}], Done(true), {}, false))
  {
    var p, q := Plan({1, 2, 3}, {1, 2}), Plan({1, 2}, {1, 2});
    var plans, routes := [p, q], [{1, 2, 3}, {1, 3}];
    assert p.Expanded() == p.current && 3 in p.current && 3 !in p.target;
    assert Additions(plans) == {} && Removals(plans) == {0};
    assert plans[0].current != plans[0].target;
    var c0 := Call(plans, routes, Removing, {0}, false);
    assert Begin(plans, routes) == c0;
    assert {0} - {0} == {};
    assert Resolve(c0, 0, true) == Call(plans, [{1, 2}, {1, 3}], Done(true), {}, false);
    OneMoreOutcome(c0, [], Outcome(0, true));
    assert [] + [Outcome(0, true)] == [Outcome(0, true)];
  }

  // ---- Any number of calls -------------------------------------------------------------------------

  /** Calls one after another, each planned from the routes as it finds them. */
  datatype Attempt = Attempt(assignment: seq<set<Symbol>>, outcomes: seq<Outcome>)

  function AfterAttempts(routes: seq<set<Symbol>>, attempts: seq<Attempt>): Option<seq<set<Symbol>>> {
    if attempts == [] then Some(routes)
    else
      var before, a := AfterAttempts(routes, attempts[..|attempts| - 1]), attempts[|attempts| - 1];
      if before.None? || |before.value| != |a.assignment| then None
      else
        var c := After(Begin(PlansTo(before.value, a.assignment), before.value), a.outcomes);
        if c.Some? then Some(c.value.routes) else None
  }

  /** Rebalancing never leaves a symbol without a route of a part: whatever fails, and wherever each attempt stops. */
  lemma {:induction false} RebalancingNeverUncovers(routes: seq<set<Symbol>>, attempts: seq<Attempt>, part: set<nat>, s: Symbol)
    requires AfterAttempts(routes, attempts).Some? && Covered(routes, part, s)
    requires forall k :: 0 <= k < |attempts| ==> Covered(attempts[k].assignment, part, s)
    ensures Covered(AfterAttempts(routes, attempts).value, part, s)
  {
    if attempts != [] {
      var n := |attempts| - 1;
      RebalancingNeverUncovers(routes, attempts[..n], part, s);
      var before, a := AfterAttempts(routes, attempts[..n]).value, attempts[n];
      assert Covered(a.assignment, part, s);
      var plans := PlansTo(before, a.assignment);
      var i :| i in part && i < |before| && s in before[i];
      var j :| j in part && j < |a.assignment| && s in a.assignment[j];
      assert s in plans[i].current && s in plans[j].target;
      assert Holds(plans, before, part, s);
      hide After, Begin, AfterAttempts;
      SharedSymbolsStayCovered(plans, before, a.outcomes, part, s);
    }
  }
}

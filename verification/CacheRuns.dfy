/**
 Safety of the cache-pass classifier over whole runs (crates/mc-core/src/lib.rs).
 */
module CacheRuns {
  import opened CachePass

  // The state before pass i of a run; state |passes| is the final one.
  function At(st: State, passes: seq<Pass>, i: nat): State
    requires i <= |passes|
  {
    if i == 0 then st else Step(At(st, passes, i - 1), passes[i - 1])
  }

  function PlanAt(st: State, passes: seq<Pass>, i: nat): PassPlan
    requires i < |passes|
  {
    PlanFor(At(st, passes, i), passes[i])
  }

  // ----- Frozen shapes -----

  predicate Steady(st: State) {
    st.initialized && ValidM0M1Shape(st)
  }

  // The shapes the classifier knows how to carry forward.
  predicate Recognized(st: State) {
    !st.initialized || IsLegacyBaseline(st) || CachedM1Missing(st) || ValidM0M1Shape(st)
  }

  // From a recognized state, in particular from a fresh session, every later state has exactly one
  // m0, one m1 and otherwise only reductions, so neither the destructive migration nor the
  // rejection can happen again.
  lemma {:induction false} ShapeIsInvariant(st: State, passes: seq<Pass>, i: nat)
    requires Recognized(st) && 1 <= i <= |passes|
    ensures Steady(At(st, passes, i))
    ensures i < |passes| ==> !PlanAt(st, passes, i).MigrateHard? && !PlanAt(st, passes, i).Reject?
  {
    if 1 < i {
      ShapeIsInvariant(st, passes, i - 1);
    } else {
      assert At(st, passes, 0) == st;
    }
  }

  // An unrecognized state is rejected on every pass and never changes: nothing is cleared.
  lemma {:induction false} UnknownShapeIsNeverCleared(st: State, passes: seq<Pass>, i: nat)
    requires !Recognized(st) && i <= |passes|
    ensures At(st, passes, i) == st
    ensures i < |passes| ==> PlanAt(st, passes, i).Reject?
  {
    if 0 < i {
      UnknownShapeIsNeverCleared(st, passes, i - 1);
    }
  }

  lemma MigrationStep(st: State, pass: Pass)
    requires st.initialized && IsLegacyBaseline(st)
    ensures Step(st, pass) == Step(FRESH, pass)
  {
  }

  lemma MigratesFromLegacy(st: State, pass: Pass)
    ensures PlanFor(st, pass).MigrateHard? <==> st.initialized && IsLegacyBaseline(st)
  {
  }

  lemma NotLegacyAfterAPass(st: State, pass: Pass)
    ensures Step(st, pass).initialized ==> !IsLegacyBaseline(Step(st, pass))
  {
  }

  // The clear-then-fold migration happens at most once in any run, from any state at all: on the first
  // pass, and exactly when the run starts from the legacy baseline. All it discards is that baseline:
  // from then on the run is that of a fresh session.
  lemma {:induction false} MigrationIsAFreshStart(st: State, passes: seq<Pass>, i: nat)
    requires i <= |passes|
    ensures i < |passes| ==> (PlanAt(st, passes, i).MigrateHard? <==> i == 0 && st.initialized && IsLegacyBaseline(st))
    ensures st.initialized && IsLegacyBaseline(st) && 1 <= i ==> At(st, passes, i) == At(FRESH, passes, i)
  {
    hide Step, PlanFor, IsLegacyBaseline;
    if i < |passes| {
      MigratesFromLegacy(At(st, passes, i), passes[i]);
    }
    if 0 < i {
      NotLegacyAfterAPass(At(st, passes, i - 1), passes[i - 1]);
      if st.initialized && IsLegacyBaseline(st) {
        if i == 1 {
          assert At(st, passes, 0) == st && At(FRESH, passes, 0) == FRESH;
          MigrationStep(st, passes[0]);
        } else {
          MigrationIsAFreshStart(st, passes, i - 1);
        }
      }
    }
  }

  // Which frozen sets are which. A pass of an initialized session is rejected exactly when it finds
  // neither the lone legacy baseline with nothing pending nor one m0, at most one m1 and otherwise only
  // reductions; it migrates on the former.
  lemma ShapesInFields(st: State, pass: Pass)
    ensures PlanFor(st, pass).Reject? <==>
              && st.initialized
              && !(st.frozen == FrozenSet([], [], map[], ["baseline"]) && !st.hasPendingChanges)
              && !(|st.frozen.m0| == 1 && |st.frozen.m1| <= 1 && st.frozen.others == [])
    ensures PlanFor(st, pass).MigrateHard? <==>
              st.initialized && st.frozen == FrozenSet([], [], map[], ["baseline"]) && !st.hasPendingChanges
    ensures st.initialized && |st.frozen.m0| == 1 && st.frozen.m1 == [] && st.frozen.others == [] ==>
              PlanFor(st, pass).Hard?
    ensures !st.initialized ==> PlanFor(st, pass).Hard?
    ensures PlanFor(st, pass).Reject? ==> PlanFor(st, pass).reason == "unknown frozen-set shape"
  {
  }

  // ----- One pass from a steady state -----

  predicate Triggered(st: State, pass: Pass) {
    pass.renderConfig != st.renderConfig || pass.hardFoldRequested
  }

  predicate DeltaStands(st: State, pass: Pass) {
    M1RevisionChanged(st, pass) || ReductionsPending(st, pass)
  }

  // A hard fold happens exactly on a trigger or when a lost boundary stays lost; it leaves nothing
  // to trigger, reconcile or deliver again on the same inputs.
  lemma HardExactlyWhenDue(st: State, pass: Pass)
    requires Steady(st)
    ensures PlanFor(st, pass).Hard? <==> Triggered(st, pass) || (st.reconcilePending && !pass.boundaryPresent)
    ensures PlanFor(st, pass).Hard? ==>
              var st' := Step(st, pass);
              !DeltaStands(st', pass) && !st'.reconcilePending && st'.renderConfig == pass.renderConfig
  {
    var st' := Step(st, pass);
    if PlanFor(st, pass).Hard? {
      assert NewReductions(st', pass) == map[];
    }
  }

  // ----- The reconcile flag -----

  predicate AbsentDefer(st: State, pass: Pass) {
    PlanFor(st, pass).Defer? && !pass.boundaryPresent
  }

  // After a pass from a steady state the flag is set exactly when that pass deferred without its
  // boundary, and then it was not set before.
  lemma FlagRecordsOnePass(st: State, pass: Pass)
    requires Steady(st)
    ensures Step(st, pass).reconcilePending <==> AbsentDefer(st, pass)
    ensures AbsentDefer(st, pass) ==> !st.reconcilePending
  {
  }

  // While the flag is set no delta is frozen: the pass is a hard fold or a defer with the boundary
  // back, and either way the flag is gone after it.
  lemma {:induction false} ReconcileNeverStrands(st: State, passes: seq<Pass>, i: nat)
    requires Steady(st) && i < |passes| && At(st, passes, i).reconcilePending
    ensures PlanAt(st, passes, i).Hard? || (PlanAt(st, passes, i).Defer? && passes[i].boundaryPresent)
    ensures PlanAt(st, passes, i).Defer? ==> At(st, passes, i + 1).frozen == At(st, passes, i).frozen
    ensures !At(st, passes, i + 1).reconcilePending
    ensures 0 < i ==> AbsentDefer(At(st, passes, i - 1), passes[i - 1])
  {
    SteadyThroughout(st, passes, i);
    FlagRecordsOnePass(At(st, passes, i), passes[i]);
    if 0 < i {
      SteadyThroughout(st, passes, i - 1);
      FlagRecordsOnePass(At(st, passes, i - 1), passes[i - 1]);
    }
  }

  lemma SteadyThroughout(st: State, passes: seq<Pass>, i: nat)
    requires Steady(st) && i <= |passes|
    ensures Steady(At(st, passes, i))
  {
    if 0 < i {
      ShapeIsInvariant(st, passes, i);
    }
  }

  // ----- When frozen bytes change -----

  function Count(b: bool): nat {
    if b then 1 else 0
  }

  // The passes of a run up to n that satisfy the condition of each kind.
  function Rewrites(st: State, passes: seq<Pass>, n: nat): nat
    requires n <= |passes|
  {
    if n == 0 then 0
    else Rewrites(st, passes, n - 1) + Count(At(st, passes, n).frozen != At(st, passes, n - 1).frozen)
  }

  function Triggers(st: State, passes: seq<Pass>, n: nat): nat
    requires n <= |passes|
  {
    if n == 0 then 0
    else Triggers(st, passes, n - 1) + Count(Triggered(At(st, passes, n - 1), passes[n - 1]))
  }

  function Opportunities(passes: seq<Pass>, n: nat): nat
    requires n <= |passes|
  {
    if n == 0 then 0
    else Opportunities(passes, n - 1) + Count(passes[n - 1].bustOpportunity && passes[n - 1].boundaryPresent)
  }

  function Absences(passes: seq<Pass>, n: nat): nat
    requires n <= |passes|
  {
    if n == 0 then 0 else Absences(passes, n - 1) + Count(!passes[n - 1].boundaryPresent)
  }

  lemma CountedNext(earlier: set<nat>, all: set<nat>, n: nat, b: bool)
    requires n !in earlier && all == earlier + (if b then {n} else {})
    ensures |all| == |earlier| + Count(b)
  {
  }

  predicate RewritesAt(st: State, passes: seq<Pass>, i: nat)
    requires i < |passes|
  {
    At(st, passes, i + 1).frozen != At(st, passes, i).frozen
  }

  predicate TriggeredAt(st: State, passes: seq<Pass>, i: nat)
    requires i < |passes|
  {
    passes[i].renderConfig != At(st, passes, i).renderConfig || passes[i].hardFoldRequested
  }

  predicate OpportunityAt(passes: seq<Pass>, i: nat)
    requires i < |passes|
  {
    passes[i].bustOpportunity && passes[i].boundaryPresent
  }

  predicate AbsentAt(passes: seq<Pass>, i: nat)
    requires i < |passes|
  {
    !passes[i].boundaryPresent
  }

  // What is counted: the passes that change the frozen bytes, ...
  lemma RewritesUnfold(st: State, passes: seq<Pass>, n: nat)
    requires n <= |passes|
    ensures Rewrites(st, passes, 0) == 0
    ensures 0 < n ==> Rewrites(st, passes, n) == Rewrites(st, passes, n - 1) + Count(RewritesAt(st, passes, n - 1))
  {
    hide Step;
  }

  lemma {:induction false} RewritesAre(st: State, passes: seq<Pass>, n: nat)
    requires n <= |passes|
    ensures Rewrites(st, passes, n) == |set i: nat | i < n && RewritesAt(st, passes, i)|
  {
    hide *;
    var all := set i: nat | i < n && RewritesAt(st, passes, i);
    RewritesUnfold(st, passes, n);
    if n == 0 {
      assert all == {};
    } else {
      var k := n - 1;
      RewritesAre(st, passes, k);
      var earlier := set i: nat | i < k && RewritesAt(st, passes, i);
      CountedNext(earlier, all, k, RewritesAt(st, passes, k));
    }
  }

  // ... those with another render config than the one in force or a requested fold, ...
  lemma TriggersUnfold(st: State, passes: seq<Pass>, n: nat)
    requires n <= |passes|
    ensures Triggers(st, passes, 0) == 0
    ensures 0 < n ==> Triggers(st, passes, n) == Triggers(st, passes, n - 1) + Count(TriggeredAt(st, passes, n - 1))
  {
    hide Step;
  }

  lemma {:induction false} TriggersAre(st: State, passes: seq<Pass>, n: nat)
    requires n <= |passes|
    ensures Triggers(st, passes, n) == |set i: nat | i < n && TriggeredAt(st, passes, i)|
  {
    hide *;
    var all := set i: nat | i < n && TriggeredAt(st, passes, i);
    TriggersUnfold(st, passes, n);
    if n == 0 {
      assert all == {};
    } else {
      var k := n - 1;
      TriggersAre(st, passes, k);
      var earlier := set i: nat | i < k && TriggeredAt(st, passes, i);
      CountedNext(earlier, all, k, TriggeredAt(st, passes, k));
    }
  }

  // ... those with a bust opportunity and the boundary, ...
  lemma OpportunitiesUnfold(passes: seq<Pass>, n: nat)
    requires n <= |passes|
    ensures Opportunities(passes, 0) == 0
    ensures 0 < n ==> Opportunities(passes, n) == Opportunities(passes, n - 1) + Count(OpportunityAt(passes, n - 1))
  {
  }

  lemma {:induction false} OpportunitiesAre(passes: seq<Pass>, n: nat)
    requires n <= |passes|
    ensures Opportunities(passes, n) == |set i: nat | i < n && OpportunityAt(passes, i)|
  {
    hide *;
    var all := set i: nat | i < n && OpportunityAt(passes, i);
    OpportunitiesUnfold(passes, n);
    if n == 0 {
      assert all == {};
    } else {
      var k := n - 1;
      OpportunitiesAre(passes, k);
      var earlier := set i: nat | i < k && OpportunityAt(passes, i);
      CountedNext(earlier, all, k, OpportunityAt(passes, k));
    }
  }

  // ... and those without the boundary.
  lemma AbsencesUnfold(passes: seq<Pass>, n: nat)
    requires n <= |passes|
    ensures Absences(passes, 0) == 0
    ensures 0 < n ==> Absences(passes, n) == Absences(passes, n - 1) + Count(AbsentAt(passes, n - 1))
  {
  }

  lemma {:induction false} AbsencesAre(passes: seq<Pass>, n: nat)
    requires n <= |passes|
    ensures Absences(passes, n) == |set i: nat | i < n && AbsentAt(passes, i)|
  {
    hide *;
    var all := set i: nat | i < n && AbsentAt(passes, i);
    AbsencesUnfold(passes, n);
    if n == 0 {
      assert all == {};
    } else {
      var k := n - 1;
      AbsencesAre(passes, k);
      var earlier := set i: nat | i < k && AbsentAt(passes, i);
      CountedNext(earlier, all, k, AbsentAt(passes, k));
    }
  }

  lemma PassIsAccountedFor(st: State, pass: Pass)
    requires Steady(st)
    ensures 2 * Count(Step(st, pass).frozen != st.frozen) + Count(Step(st, pass).reconcilePending)
         <= 2 * Count(Triggered(st, pass)) + 2 * Count(pass.bustOpportunity && pass.boundaryPresent)
          + Count(!pass.boundaryPresent) + Count(st.reconcilePending)
  {
  }

  // Every rewrite of the frozen bytes is paid for: by a hard trigger, by an independent bust
  // opportunity with the boundary present, or by two passes without the boundary. A flag left over
  // from before the run stands for one such pass.
  lemma {:induction false} RewritesAreAccountedFor(st: State, passes: seq<Pass>, n: nat)
    requires Steady(st) && n <= |passes|
    ensures 2 * Rewrites(st, passes, n) + Count(At(st, passes, n).reconcilePending)
         <= 2 * Triggers(st, passes, n) + 2 * Opportunities(passes, n)
          + Absences(passes, n) + Count(st.reconcilePending)
  {
    hide Step, Steady, Triggered;
    if 0 < n {
      RewritesAreAccountedFor(st, passes, n - 1);
      SteadyThroughout(st, passes, n - 1);
      PassIsAccountedFor(At(st, passes, n - 1), passes[n - 1]);
    }
  }

  lemma AbsentPass(st: State, pass: Pass)
    requires Steady(st) && pass.renderConfig == st.renderConfig && !pass.hardFoldRequested && !pass.boundaryPresent
    ensures PlanFor(st, pass) == if st.reconcilePending then Hard else Defer
    ensures Step(st, pass).reconcilePending == !st.reconcilePending && Step(st, pass).renderConfig == st.renderConfig
  {
  }

  // A boundary that never comes back costs a fold on every second pass and no more.
  lemma {:induction false} AbsentBoundaryAlternates(st: State, passes: seq<Pass>, i: nat)
    requires Steady(st) && !st.reconcilePending && i < |passes|
    requires forall k :: 0 <= k < |passes| ==>
      passes[k].renderConfig == st.renderConfig && !passes[k].hardFoldRequested && !passes[k].boundaryPresent
    ensures PlanAt(st, passes, i) == if i % 2 == 0 then Defer else Hard
    ensures At(st, passes, i).reconcilePending <==> i % 2 == 1
    ensures At(st, passes, i).renderConfig == st.renderConfig
  {
    hide Step, PlanFor, Steady, Triggered;
    SteadyThroughout(st, passes, i);
    if 0 < i {
      AbsentBoundaryAlternates(st, passes, i - 1);
      SteadyThroughout(st, passes, i - 1);
      AbsentPass(At(st, passes, i - 1), passes[i - 1]);
    }
    AbsentPass(At(st, passes, i), passes[i]);
  }

  // ----- Quiet stretches -----

  // Passes i..j bring no hard trigger, no config change and the boundary.
  ghost predicate Quiet(st: State, passes: seq<Pass>, i: nat, j: nat)
    requires i <= j <= |passes|
  {
    forall k :: i <= k < j ==>
      && passes[k].renderConfig == At(st, passes, i).renderConfig
      && !passes[k].hardFoldRequested
      && passes[k].boundaryPresent
  }

  lemma QuietPass(st: State, pass: Pass)
    requires Steady(st)
    requires pass.renderConfig == st.renderConfig && !pass.hardFoldRequested && pass.boundaryPresent
    ensures PlanFor(st, pass).Soft? || PlanFor(st, pass).Defer?
    ensures PlanFor(st, pass).Soft? ==> pass.bustOpportunity && DeltaStands(st, pass)
    ensures PlanFor(st, pass).Defer? ==>
              Step(st, pass).frozen == st.frozen && Step(st, pass).m1Revision == st.m1Revision
    ensures Step(st, pass).frozen.m0 == st.frozen.m0 && Step(st, pass).renderConfig == st.renderConfig
    ensures !Step(st, pass).reconcilePending
  {
  }

  // During a quiet stretch m0 is never rewritten and a reconcile flag does not outlive the first pass.
  lemma {:induction false} QuietState(st: State, passes: seq<Pass>, i: nat, j: nat)
    requires Steady(st) && i <= j <= |passes| && Quiet(st, passes, i, j)
    ensures At(st, passes, j).frozen.m0 == At(st, passes, i).frozen.m0
    ensures At(st, passes, j).renderConfig == At(st, passes, i).renderConfig
    ensures (i < j || !At(st, passes, i).reconcilePending) ==> !At(st, passes, j).reconcilePending
    decreases j
  {
    hide Step, Steady;
    if i < j {
      QuietState(st, passes, i, j - 1);
      SteadyThroughout(st, passes, j - 1);
      QuietPass(At(st, passes, j - 1), passes[j - 1]);
    }
  }

  // A flag set before the stretch is still set at its first pass and at no other.
  lemma QuietFlag(st: State, passes: seq<Pass>, i: nat, k: nat)
    requires Steady(st) && i <= k <= |passes| && Quiet(st, passes, i, k)
    ensures At(st, passes, k).reconcilePending <==> i == k && At(st, passes, i).reconcilePending
  {
    QuietState(st, passes, i, k);
  }

  lemma QuietSoft(st: State, pass: Pass)
    requires Steady(st)
    requires pass.renderConfig == st.renderConfig && !pass.hardFoldRequested && pass.boundaryPresent
    ensures PlanFor(st, pass).Soft? <==>
              && !st.reconcilePending && pass.bustOpportunity
              && (pass.m1Revision != st.m1Revision ||
                  exists target :: target in pass.decisions && target in pass.tail &&
                                   target !in st.frozen.reductions)
  {
    if target :| target in pass.decisions && target in pass.tail && target !in st.frozen.reductions {
      assert target in NewReductions(st, pass);
    }
    if ReductionsPending(st, pass) {
      var target :| target in NewReductions(st, pass);
    }
  }

  // No pass of it is a hard fold, and a pass is Soft exactly if it has a bust opportunity and a real
  // delta, a new revision or a reduction not yet frozen; every other pass replays the frozen bytes.
  lemma QuietPlan(st: State, passes: seq<Pass>, i: nat, j: nat, k: nat)
    requires Steady(st) && i <= k < j <= |passes| && Quiet(st, passes, i, j)
    ensures PlanAt(st, passes, k).Soft? || PlanAt(st, passes, k).Defer?
    ensures PlanAt(st, passes, k).Soft? ==> passes[k].bustOpportunity && DeltaStands(At(st, passes, k), passes[k])
    ensures PlanAt(st, passes, k).Soft? <==>
              && (i < k || !At(st, passes, i).reconcilePending) && passes[k].bustOpportunity
              && (passes[k].m1Revision != At(st, passes, k).m1Revision ||
                  exists target :: target in passes[k].decisions && target in passes[k].tail &&
                                   target !in At(st, passes, k).frozen.reductions)
    ensures PlanAt(st, passes, k).Defer? ==> At(st, passes, k + 1).frozen == At(st, passes, k).frozen
  {
    hide Step, Steady, DeltaStands, PlanFor;
    assert Quiet(st, passes, i, k);
    QuietState(st, passes, i, k);
    QuietFlag(st, passes, i, k);
    SteadyThroughout(st, passes, k);
    QuietPass(At(st, passes, k), passes[k]);
    QuietSoft(At(st, passes, k), passes[k]);
  }

  // Between two Softs of a quiet stretch every pass emits identical frozen bytes.
  lemma {:induction false} IdenticalBetweenSofts(st: State, passes: seq<Pass>, i: nat, j: nat)
    requires Steady(st) && i <= j <= |passes| && Quiet(st, passes, i, j)
    requires forall k :: i <= k < j ==> !PlanAt(st, passes, k).Soft?
    ensures At(st, passes, j).frozen == At(st, passes, i).frozen
    ensures At(st, passes, j).m1Revision == At(st, passes, i).m1Revision
    decreases j
  {
    forall k | i <= k < j
      ensures PlanAt(st, passes, k).Defer?
    {
      QuietPlan(st, passes, i, j, k);
    }
    DefersKeepFrozen(st, passes, i, j);
  }

  // In a quiet run the rewrites number at most the bust opportunities.
  lemma QuietRunRewrites(st: State, passes: seq<Pass>)
    requires Steady(st) && Quiet(st, passes, 0, |passes|)
    ensures Rewrites(st, passes, |passes|) <= Opportunities(passes, |passes|)
  {
    RewritesAreAccountedFor(st, passes, |passes|);
    QuietCounts(st, passes, |passes|);
  }

  lemma {:induction false} QuietCounts(st: State, passes: seq<Pass>, n: nat)
    requires Steady(st) && n <= |passes| && Quiet(st, passes, 0, |passes|)
    ensures Triggers(st, passes, n) == 0 && Absences(passes, n) == 0
  {
    hide Step, Steady;
    if 0 < n {
      QuietCounts(st, passes, n - 1);
      assert Quiet(st, passes, 0, n - 1);
      QuietState(st, passes, 0, n - 1);
      assert passes[n - 1].renderConfig == At(st, passes, 0).renderConfig;
    }
  }

  // ----- Deltas -----

  // In a quiet stretch with no reconcile pending, a delta that keeps standing changes nothing until
  // the first bust opportunity, at pass k, and lands there: the changed m1 and every pending
  // reduction together.
  lemma StandingDeltaLands(st: State, passes: seq<Pass>, i: nat, k: nat)
    requires Steady(st) && i <= k < |passes| && Quiet(st, passes, i, k + 1)
    requires !At(st, passes, i).reconcilePending
    requires forall m :: i <= m < k ==> !passes[m].bustOpportunity
    requires passes[k].bustOpportunity && DeltaStands(At(st, passes, i), passes[k])
    ensures At(st, passes, k).frozen == At(st, passes, i).frozen
    ensures PlanAt(st, passes, k).Soft?
    ensures At(st, passes, k + 1).m1Revision == passes[k].m1Revision
    ensures passes[k].m1Revision != At(st, passes, i).m1Revision ==>
              At(st, passes, k + 1).frozen.m1 == [passes[k].m1Delta]
    ensures forall target :: target in passes[k].decisions && target in passes[k].tail ==>
              && target in At(st, passes, k + 1).frozen.reductions
              && (target !in At(st, passes, i).frozen.reductions ==>
                    At(st, passes, k + 1).frozen.reductions[target] == passes[k].decisions[target])
    ensures At(st, passes, k + 1).frozen.m0 == At(st, passes, i).frozen.m0
  {
    assert Quiet(st, passes, i, k);
    QuietState(st, passes, i, k);
    QuietState(st, passes, i, k + 1);
    forall m | i <= m < k
      ensures !PlanAt(st, passes, m).Soft?
    {
      QuietPlan(st, passes, i, k, m);
    }
    IdenticalBetweenSofts(st, passes, i, k);
    SteadyThroughout(st, passes, k);
  }

  lemma OpportunityOnce(st: State, pass: Pass)
    requires Steady(st) && pass.bustOpportunity && pass.boundaryPresent
    ensures DeltaStands(Step(st, pass), pass) <==>
            DeltaStands(st, pass) && !Triggered(st, pass) && st.reconcilePending
    ensures !Step(st, pass).reconcilePending
  {
    var st' := Step(st, pass);
    if !PlanFor(st, pass).Defer? {
      assert NewReductions(st', pass) == map[];
    }
  }

  // In any run a bust opportunity with the boundary present leaves a delta standing exactly when it has
  // to clear a reconcile flag first, and then the next such opportunity does not: two in a row deliver
  // everything.
  lemma NoDeltaOutlivesTwoOpportunities(st: State, passes: seq<Pass>, i: nat)
    requires Steady(st) && i < |passes| && passes[i].bustOpportunity && passes[i].boundaryPresent
    ensures DeltaStands(At(st, passes, i + 1), passes[i]) <==>
              && DeltaStands(At(st, passes, i), passes[i]) && !Triggered(At(st, passes, i), passes[i])
              && At(st, passes, i).reconcilePending
    ensures i + 1 < |passes| && passes[i + 1].bustOpportunity && passes[i + 1].boundaryPresent ==>
              !DeltaStands(At(st, passes, i + 2), passes[i + 1])
  {
    hide Step, Steady, DeltaStands, Triggered;
    SteadyThroughout(st, passes, i);
    SteadyThroughout(st, passes, i + 1);
    OpportunityOnce(At(st, passes, i), passes[i]);
    if i + 1 < |passes| && passes[i + 1].bustOpportunity && passes[i + 1].boundaryPresent {
      OpportunityOnce(At(st, passes, i + 1), passes[i + 1]);
    }
  }

  // One Soft drains both deltas.
  lemma SoftDrains(st: State, pass: Pass)
    requires PlanFor(st, pass).Soft?
    ensures !DeltaStands(Step(st, pass), pass)
  {
    var st' := Step(st, pass);
    assert NewReductions(st', pass) == map[];
  }

  // Hence a Soft is followed by another, with only defers between them, only for a delta that the
  // first one's pass did not have.
  lemma ConsecutiveSoftsNeedANewDelta(st: State, passes: seq<Pass>, i: nat, j: nat)
    requires Steady(st) && i < j < |passes|
    requires PlanAt(st, passes, i).Soft? && PlanAt(st, passes, j).Soft?
    requires forall k :: i < k < j ==> PlanAt(st, passes, k).Defer?
    ensures passes[j].m1Revision != passes[i].m1Revision
         || exists target :: target in passes[j].decisions && target in passes[j].tail
                          && !(target in passes[i].decisions && target in passes[i].tail)
  {
    hide Step, PlanFor;
    assert At(st, passes, i + 1) == Step(At(st, passes, i), passes[i]);
    DefersKeepFrozen(st, passes, i + 1, j);
    SoftSucceeds(At(st, passes, i), passes[i], At(st, passes, j), passes[j]);
  }

  lemma SoftSucceeds(st: State, pass: Pass, later: State, pass': Pass)
    requires PlanFor(st, pass).Soft? && PlanFor(later, pass').Soft?
    requires later.frozen == Step(st, pass).frozen && later.m1Revision == Step(st, pass).m1Revision
    ensures pass'.m1Revision != pass.m1Revision
         || exists target :: target in pass'.decisions && target in pass'.tail
                          && !(target in pass.decisions && target in pass.tail)
  {
    if pass'.m1Revision == pass.m1Revision {
      var pending := NewReductions(later, pass');
      assert pending != map[];
      var target :| target in pending;
      assert target in pass'.decisions && target in pass'.tail;
    }
  }

  lemma DeferPass(st: State, pass: Pass)
    requires PlanFor(st, pass).Defer?
    ensures Step(st, pass).frozen == st.frozen && Step(st, pass).m1Revision == st.m1Revision
  {
  }

  lemma {:induction false} DefersKeepFrozen(st: State, passes: seq<Pass>, i: nat, j: nat)
    requires i <= j <= |passes|
    requires forall k :: i <= k < j ==> PlanAt(st, passes, k).Defer?
    ensures At(st, passes, j).frozen == At(st, passes, i).frozen
    ensures At(st, passes, j).m1Revision == At(st, passes, i).m1Revision
    decreases j
  {
    hide Step, PlanFor;
    if i < j {
      DefersKeepFrozen(st, passes, i, j - 1);
      assert PlanAt(st, passes, j - 1).Defer?;
      DeferPass(At(st, passes, j - 1), passes[j - 1]);
    }
  }

  // ----- Whose bytes are frozen -----

  predicate FoldsAt(st: State, passes: seq<Pass>, i: nat)
    requires i < |passes|
  {
    PlanAt(st, passes, i).Hard? || PlanAt(st, passes, i).MigrateHard?
  }

  // Pass i is a Soft that brings another m1 revision than the one frozen.
  predicate RefreshesM1At(st: State, passes: seq<Pass>, i: nat)
    requires i < |passes|
  {
    PlanAt(st, passes, i).Soft? && passes[i].m1Revision != At(st, passes, i).m1Revision
  }

  // The last pass before n that folds, and the last that refreshes m1; -1 if there is none.
  function LastFold(st: State, passes: seq<Pass>, n: nat): (k: int)
    requires n <= |passes|
    ensures -1 <= k < n
  {
    if n == 0 then -1 else if FoldsAt(st, passes, n - 1) then n - 1 else LastFold(st, passes, n - 1)
  }

  function LastRefresh(st: State, passes: seq<Pass>, n: nat): (k: int)
    requires n <= |passes|
    ensures -1 <= k < n
  {
    if n == 0 then -1 else if RefreshesM1At(st, passes, n - 1) then n - 1 else LastRefresh(st, passes, n - 1)
  }

  lemma LastUnfold(st: State, passes: seq<Pass>, n: nat)
    requires n <= |passes|
    ensures LastFold(st, passes, 0) == -1 && LastRefresh(st, passes, 0) == -1
    ensures 0 < n ==> LastFold(st, passes, n) ==
                      if FoldsAt(st, passes, n - 1) then n - 1 else LastFold(st, passes, n - 1)
    ensures 0 < n ==> LastRefresh(st, passes, n) ==
                      if RefreshesM1At(st, passes, n - 1) then n - 1 else LastRefresh(st, passes, n - 1)
  {
    hide Step, PlanFor;
  }

  lemma {:induction false} LastAreLast(st: State, passes: seq<Pass>, n: nat)
    requires n <= |passes|
    ensures var k := LastFold(st, passes, n);
            (0 <= k ==> FoldsAt(st, passes, k)) && forall i :: k < i < n ==> !FoldsAt(st, passes, i)
    ensures var k := LastRefresh(st, passes, n);
            (0 <= k ==> RefreshesM1At(st, passes, k)) && forall i :: k < i < n ==> !RefreshesM1At(st, passes, i)
  {
    hide *;
    LastUnfold(st, passes, n);
    if 0 < n {
      LastAreLast(st, passes, n - 1);
    }
  }

  // What one pass does to the baselines and to what they were rendered under.
  lemma BaselineStep(st: State, pass: Pass)
    ensures PlanFor(st, pass).Hard? || PlanFor(st, pass).MigrateHard? ==>
              var st' := Step(st, pass);
              && st'.frozen.m0 == [pass.m0Folded] && st'.frozen.m1 == [pass.m1Folded]
              && st'.renderConfig == pass.renderConfig && st'.m1Revision == pass.m1Revision
              && st'.initialized && !st'.hasPendingChanges
    ensures PlanFor(st, pass).Soft? ==>
              var st' := Step(st, pass);
              && st'.frozen.m0 == st.frozen.m0 && st'.renderConfig == st.renderConfig
              && st'.frozen.m1 == (if pass.m1Revision != st.m1Revision then [pass.m1Delta] else st.frozen.m1)
              && st'.m1Revision == pass.m1Revision
              && st'.initialized == st.initialized && st'.hasPendingChanges == st.hasPendingChanges
    ensures PlanFor(st, pass).Defer? || PlanFor(st, pass).Reject? ==>
              var st' := Step(st, pass);
              && st'.frozen == st.frozen && st'.renderConfig == st.renderConfig && st'.m1Revision == st.m1Revision
              && st'.initialized == st.initialized && st'.hasPendingChanges == st.hasPendingChanges
  {
  }

  // In any run, from any state: m0, its render config and the first m1 under it are those of the last
  // hard fold, or of the start if there is none; and m1 is the delta of the last Soft since then that
  // brought a new revision.
  lemma {:induction false} BaselinesAreTheLastOnes(st: State, passes: seq<Pass>, n: nat)
    requires n <= |passes|
    ensures var k := LastFold(st, passes, n);
            && At(st, passes, n).frozen.m0 == (if k < 0 then st.frozen.m0 else [passes[k].m0Folded])
            && At(st, passes, n).renderConfig == (if k < 0 then st.renderConfig else passes[k].renderConfig)
            && At(st, passes, n).initialized == (k >= 0 || st.initialized)
            && At(st, passes, n).hasPendingChanges == (k < 0 && st.hasPendingChanges)
    ensures var k, j := LastFold(st, passes, n), LastRefresh(st, passes, n);
            && At(st, passes, n).frozen.m1 ==
                 (if k < j then [passes[j].m1Delta] else if k < 0 then st.frozen.m1 else [passes[k].m1Folded])
            && At(st, passes, n).m1Revision ==
                 (if k < j then passes[j].m1Revision else if k < 0 then st.m1Revision else passes[k].m1Revision)
  {
    hide Step, PlanFor;
    if 0 < n {
      BaselinesAreTheLastOnes(st, passes, n - 1);
      BaselineStep(At(st, passes, n - 1), passes[n - 1]);
    }
  }

  // ----- The life of a reduction -----

  predicate Holds(st: State, target: string, bytes: string) {
    target in st.frozen.reductions && st.frozen.reductions[target] == bytes
  }

  // The reduction of a target is frozen with these bytes in every state from i to j.
  ghost predicate HeldThroughout(st: State, passes: seq<Pass>, i: nat, j: nat, target: string, bytes: string)
    requires i <= j <= |passes|
  {
    forall k :: i <= k <= j ==> Holds(At(st, passes, k), target, bytes)
  }

  predicate DropsAt(st: State, passes: seq<Pass>, k: nat, target: string)
    requires k < |passes|
  {
    PlanAt(st, passes, k).Hard? && target !in passes[k].tail
  }

  lemma ReductionStep(st: State, pass: Pass, target: string, bytes: string)
    requires Holds(st, target, bytes)
    ensures Holds(Step(st, pass), target, bytes) <==> !(PlanFor(st, pass).Hard? && target !in pass.tail)
  {
  }

  // Once frozen, a reduction keeps its bytes for exactly as long as its target is in the live tail of
  // every hard fold.
  lemma {:induction false} ReductionIsHeldIff(
      st: State, passes: seq<Pass>, i: nat, j: nat, target: string, bytes: string)
    requires i <= j <= |passes| && Holds(At(st, passes, i), target, bytes)
    ensures HeldThroughout(st, passes, i, j, target, bytes) <==>
            forall k :: i <= k < j ==> !DropsAt(st, passes, k, target)
    decreases j
  {
    hide Step, Holds, PlanFor;
    if i < j {
      ReductionIsHeldIff(st, passes, i, j - 1, target, bytes);
      if Holds(At(st, passes, j - 1), target, bytes) {
        ReductionStep(At(st, passes, j - 1), passes[j - 1], target, bytes);
        assert Holds(At(st, passes, j), target, bytes) <==> !DropsAt(st, passes, j - 1, target);
      }
    }
  }

  // Pass k freezes a reduction for a target that has none, with the bytes decided for that pass.
  predicate FreezesAt(st: State, passes: seq<Pass>, k: nat, target: string, bytes: string)
    requires k < |passes|
  {
    && target !in At(st, passes, k).frozen.reductions
    && target in passes[k].tail && target in passes[k].decisions && passes[k].decisions[target] == bytes
    && !PlanAt(st, passes, k).Defer? && !PlanAt(st, passes, k).Reject?
    && Holds(At(st, passes, k + 1), target, bytes)
  }

  lemma FrozenByStep(st: State, pass: Pass, target: string, bytes: string)
    requires Holds(Step(st, pass), target, bytes)
    ensures Holds(st, target, bytes) ||
            (target !in st.frozen.reductions && target in pass.tail && target in pass.decisions &&
             pass.decisions[target] == bytes && !PlanFor(st, pass).Defer? && !PlanFor(st, pass).Reject?)
  {
  }

  // Every frozen reduction goes back, unchanged on the way, to the start of the run or to the decision
  // of a pass that was not a defer.
  lemma {:induction false} FrozenBytesWereDecided(st: State, passes: seq<Pass>, j: nat, target: string, bytes: string)
    requires j <= |passes| && Holds(At(st, passes, j), target, bytes)
    ensures HeldThroughout(st, passes, 0, j, target, bytes) ||
            exists k: nat :: k < j && FreezesAt(st, passes, k, target, bytes) &&
                             HeldThroughout(st, passes, k + 1, j, target, bytes)
    decreases j
  {
    hide Step, Holds, PlanFor;
    if 0 < j {
      FrozenByStep(At(st, passes, j - 1), passes[j - 1], target, bytes);
      if Holds(At(st, passes, j - 1), target, bytes) {
        FrozenBytesWereDecided(st, passes, j - 1, target, bytes);
        if !HeldThroughout(st, passes, 0, j - 1, target, bytes) {
          var k: nat :| k < j - 1 && FreezesAt(st, passes, k, target, bytes) &&
                        HeldThroughout(st, passes, k + 1, j - 1, target, bytes);
          assert HeldThroughout(st, passes, k + 1, j, target, bytes);
        }
      } else {
        assert FreezesAt(st, passes, j - 1, target, bytes);
        assert HeldThroughout(st, passes, j - 1 + 1, j, target, bytes);
      }
    }
  }

  // In particular reductions only accumulate between hard folds, and a frozen one keeps its bytes.
  lemma ReductionsOnlyGrow(st: State, passes: seq<Pass>, i: nat, j: nat, target: string)
    requires i <= j <= |passes|
    requires forall k :: i <= k < j ==> !PlanAt(st, passes, k).Hard? && !PlanAt(st, passes, k).MigrateHard?
    requires target in At(st, passes, i).frozen.reductions
    ensures target in At(st, passes, j).frozen.reductions
    ensures At(st, passes, j).frozen.reductions[target] == At(st, passes, i).frozen.reductions[target]
  {
    var bytes := At(st, passes, i).frozen.reductions[target];
    ReductionIsHeldIff(st, passes, i, j, target, bytes);
    hide PlanFor;
    forall k | i <= k < j
      ensures !DropsAt(st, passes, k, target)
    {
      assert !PlanAt(st, passes, k).Hard?;
    }
    assert Holds(At(st, passes, j), target, bytes);
  }
}

/**
 The cache-pass classifier (crates/mc-core/src/lib.rs) and the effect of one pass on the durable
 state.

 The effects are those the classifier's documentation gives: a soft pass emits the active deltas and
 leaves the reconcile flag alone; a defer replays the frozen bytes and sets the flag exactly when the
 boundary is absent; a reject changes nothing. A hard fold rebuilds the baseline and clears the flag,
 which the documentation leaves implicit and the module's tests assert
 (crates/mc-module/src/transform.rs).
 */
module CachePass {

  datatype ClassifierInput = ClassifierInput(
    initialized: bool,
    isLegacyBaseline: bool,
    validM0M1Shape: bool,
    cachedM1Missing: bool,
    renderConfigChanged: bool,
    hardFoldRequested: bool,
    boundaryPresent: bool,
    reconcilePending: bool,
    m1RevisionChanged: bool,
    reductionsPending: bool,
    bustOpportunity: bool)

  datatype PassPlan = Hard | MigrateHard | Soft | Defer | Reject(reason: string)

  // First match wins.
  function Classify(input: ClassifierInput): PassPlan {
    if !input.initialized then Hard
    else if input.isLegacyBaseline then MigrateHard
    else if input.cachedM1Missing then Hard
    else if !input.validM0M1Shape then Reject("unknown frozen-set shape")
    else if input.renderConfigChanged then Hard
    else if input.hardFoldRequested then Hard
    else if input.reconcilePending && !input.boundaryPresent then Hard
    else if input.reconcilePending then Defer
    else if input.boundaryPresent && input.bustOpportunity
         && (input.m1RevisionChanged || input.reductionsPending) then Soft
    else Defer
  }

  // ----- Durable state -----

  // The frozen units by key: the payloads under "m0" and "m1", the tail reductions by target, and
  // the keys of any other units.
  datatype FrozenSet = FrozenSet(m0: seq<string>, m1: seq<string>, reductions: map<string, string>, others: seq<string>)

  datatype State = State(
    frozen: FrozenSet,
    hasPendingChanges: bool,
    reconcilePending: bool,
    initialized: bool,
    renderConfig: string,
    m1Revision: int)

  // Everything a pass brings with it. The decisions are the reductions selected for this pass, the
  // tail the ids of the live items behind the boundary; the three renderings are what the composer
  // would produce on a hard fold (m0, m1) and on a soft pass (m1).
  datatype Pass = Pass(
    renderConfig: string,
    hardFoldRequested: bool,
    boundaryPresent: bool,
    bustOpportunity: bool,
    m1Revision: int,
    decisions: map<string, string>,
    tail: set<string>,
    m0Folded: string,
    m1Folded: string,
    m1Delta: string)

  const FRESH: State := State(FrozenSet([], [], map[], []), false, false, false, "", 0)

  predicate IsLegacyBaseline(st: State) {
    st.frozen == FrozenSet([], [], map[], ["baseline"]) && !st.hasPendingChanges
  }

  predicate ValidM0M1Shape(st: State) {
    |st.frozen.m0| == 1 && |st.frozen.m1| == 1 && st.frozen.others == []
  }

  predicate CachedM1Missing(st: State) {
    |st.frozen.m0| == 1 && st.frozen.m1 == [] && st.frozen.others == []
  }

  predicate M1RevisionChanged(st: State, pass: Pass) {
    pass.m1Revision != st.m1Revision
  }

  // The decisions whose target is in the live tail and not yet frozen.
  function NewReductions(st: State, pass: Pass): map<string, string> {
    map target | target in pass.decisions && target in pass.tail && target !in st.frozen.reductions ::
      pass.decisions[target]
  }

  predicate ReductionsPending(st: State, pass: Pass) {
    NewReductions(st, pass) != map[]
  }

  function InputOf(st: State, pass: Pass): ClassifierInput {
    ClassifierInput(
      st.initialized,
      IsLegacyBaseline(st),
      ValidM0M1Shape(st),
      CachedM1Missing(st),
      pass.renderConfig != st.renderConfig,
      pass.hardFoldRequested,
      pass.boundaryPresent,
      st.reconcilePending,
      M1RevisionChanged(st, pass),
      ReductionsPending(st, pass),
      pass.bustOpportunity)
  }

  function PlanFor(st: State, pass: Pass): PassPlan {
    Classify(InputOf(st, pass))
  }

  // ----- Effects -----

  // Rebuilds the frozen set: both baselines anew, and of the reductions those still in the tail.
  function HardFold(st: State, pass: Pass): State {
    var effective := pass.decisions + st.frozen.reductions;
    var surviving := map target | target in effective && target in pass.tail :: effective[target];
    State(FrozenSet([pass.m0Folded], [pass.m1Folded], surviving, []),
          false, false, true, pass.renderConfig, pass.m1Revision)
  }

  function ClearFrozen(st: State): State {
    st.(frozen := FrozenSet([], [], map[], []), hasPendingChanges := false)
  }

  function SoftDelta(st: State, pass: Pass): State {
    var m1 := if M1RevisionChanged(st, pass) then [pass.m1Delta] else st.frozen.m1;
    st.(frozen := st.frozen.(m1 := m1, reductions := NewReductions(st, pass) + st.frozen.reductions),
        m1Revision := pass.m1Revision)
  }

  function Replay(st: State, pass: Pass): State {
    st.(reconcilePending := !pass.boundaryPresent)
  }

  function Step(st: State, pass: Pass): State {
    match PlanFor(st, pass)
    case Hard => HardFold(st, pass)
    case MigrateHard => HardFold(ClearFrozen(st), pass)
    case Soft => SoftDelta(st, pass)
    case Defer => Replay(st, pass)
    case Reject(_) => st
  }
}

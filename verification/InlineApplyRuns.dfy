/** Putting runs of the inline apply together. */
module InlineApplyRuns {
  import opened OwnerReferences
  import opened InlineApply
  import opened InlineApplySafety
  import opened InlineApplyAlone

  /** Nothing but calls of run `i`. */
  ghost predicate CallsOf(actions: seq<Action>, i: nat) {
    forall a | a in actions :: a.Advance? && a.run == i
  }

  ghost predicate NoStart(actions: seq<Action>) {
    forall a | a in actions :: !a.Start?
  }

  /** The seconds at which the applies of a run start. */
  function Starts(actions: seq<Action>): seq<nat> {
    if actions == [] then []
    else (if actions[0].Start? then [actions[0].unix] else []) + Starts(actions[1..])
  }

  lemma {:induction false} StartsTogether(first: seq<Action>, second: seq<Action>)
    ensures Starts(first + second) == Starts(first) + Starts(second)
  {
    if first == [] {
      assert first + second == second;
    } else {
      StartsTogether(first[1..], second);
      assert (first + second)[1..] == first[1..] + second;
    }
  }

  ghost predicate SteadyClock(actions: seq<Action>) {
    var seconds := Starts(actions);
    forall i, j | 0 <= i < j < |seconds| :: seconds[i] <= seconds[j]
  }

  lemma {:induction false} NoStartNoSeconds(actions: seq<Action>)
    requires NoStart(actions)
    ensures Starts(actions) == []
  {
    if actions != [] {
      assert actions[0] in actions;
      assert forall a | a in actions[1..] :: a in actions;
      NoStartNoSeconds(actions[1..]);
    }
  }

  lemma ReachesStep(cfg: Config, s: State, a: Action, rest: seq<Action>, t: State)
    requires Enabled(cfg, s, a) && Reaches(cfg, Next(cfg, s, a), rest, t)
    ensures Reaches(cfg, s, [a] + rest, t)
  {
    assert ([a] + rest)[1..] == rest;
  }

  lemma {:induction false} ReachesTogether(
      cfg: Config, s: State, first: seq<Action>, t: State, second: seq<Action>, u: State)
    requires Reaches(cfg, s, first, t) && Reaches(cfg, t, second, u)
    ensures Reaches(cfg, s, first + second, u)
    decreases |first|
  {
    if first == [] {
      assert first + second == second;
    } else {
      ReachesTogether(cfg, Next(cfg, s, first[0]), first[1..], t, second, u);
      ReachesStep(cfg, s, first[0], first[1..] + second, u);
      assert [first[0]] + (first[1..] + second) == first + second;
    }
  }

  /** Undisturbed calls are a run, and they leave the other runs alone. */
  lemma {:induction false} AloneReaches(cfg: Config, s: State, i: nat, n: nat) returns (actions: seq<Action>)
    requires i < |s.runs|
    ensures Reaches(cfg, s, actions, Alone(cfg, s, i, n)) && CallsOf(actions, i)
    ensures |Alone(cfg, s, i, n).runs| == |s.runs|
    ensures forall j: nat | j < |s.runs| && j != i :: Alone(cfg, s, i, n).runs[j] == s.runs[j]
    decreases n
  {
    actions := [];
    if n > 0 {
      RunStepFrame(cfg, s, i, true);
      var rest := AloneReaches(cfg, RunStep(cfg, s, i, true), i, n - 1);
      ReachesStep(cfg, s, Advance(i, true), rest, Alone(cfg, s, i, n));
      actions := [Advance(i, true)] + rest;
    }
  }

  /** An apply brings itself to the creation of its release. */
  lemma ReadyToCreate(cfg: Config, s: State, i: nat) returns (actions: seq<Action>, t: State)
    requires i < |s.runs| && s.runs[i].pc == CheckApp && MayApply(cfg, s)
    requires !CurrentAlreadyHasBundle(cfg, s, s.runs[i].bundle)
    ensures Reaches(cfg, s, actions, t) && CallsOf(actions, i) && |t.runs| == |s.runs|
    ensures t.runs[i] == s.runs[i].(oldRef := CurrentRef(s), pc := ReleaseCreate)
    ensures forall j: nat | j < |s.runs| && j != i :: t.runs[j] == s.runs[j]
    ensures t.store.releases == s.store.releases && t.store.configMaps == s.store.configMaps
    ensures t.store.app.Some? && !t.store.app.value.contract && CurrentRef(t) == CurrentRef(s)
    ensures t.store.app.value.configMapRef == SnapshotName(s.runs[i].name)
    ensures t.store.stage.Some? && Acceptable(t.store.stage.value.owners, ControllerOwner(cfg))
  {
    var u, m := FirstCalls(cfg, s, i);
    var n;
    t, n := MiddleCalls(cfg, u, i);
    var first := AloneReaches(cfg, s, i, m);
    var second := AloneReaches(cfg, u, i, n);
    ReachesTogether(cfg, s, first, u, second, t);
    actions := first + second;
  }
}

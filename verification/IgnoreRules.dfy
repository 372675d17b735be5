/**
  Adding and removing ignore-difference pointers: a merge per scope (group, kind, name,
  namespace) over a list of rules.
*/
module IgnoreRules {
  import opened Common

  datatype Scope = Scope(group: string, kind: string, name: string, namespace: string)

  datatype IgnoreDiff = IgnoreDiff(
    scope: Scope,
    pointers: seq<string>,
    reason: string,
    createdBy: string,
    createdAt: Option<int>)

  datatype RuleInput = RuleInput(
    scope: Scope,
    pointers: seq<string>,
    reason: string,
    createdBy: string,
    createdAt: int,
    remove: bool)

  // ---------------------------------------------------------------- pointer lists

  /** The order-preserving filter that removal stands for. */
  function Without(values: seq<string>, drop: seq<string>): (r: seq<string>)
    ensures forall v :: v in r <==> v in values && v !in drop
    ensures |r| <= |values|
  {
    if values == [] then []
    else
      var last := values[|values| - 1];
      Without(values[..|values| - 1], drop) + (if last in drop then [] else [last])
  }

  lemma WithoutStep(values: seq<string>, i: nat, drop: seq<string>)
    requires i < |values|
    ensures Without(values[..i + 1], drop) ==
            Without(values[..i], drop) + (if values[i] in drop then [] else [values[i]])
  {
    assert values[..i + 1][..i] == values[..i];
  }

  /** Compacts the slice in place: the kept values move to the front, in order, and what lies
      behind them keeps its old contents. */
  method RemoveStrings(dst: array<string>, drop: seq<string>) returns (n: nat)
    modifies dst
    ensures n <= dst.Length && dst[..n] == Without(old(dst[..]), drop)
    ensures dst[n..] == old(dst[n..])
  {
    n := 0;
    ghost var before := dst[..];
    for i := 0 to dst.Length
      invariant n <= i
      invariant dst[..n] == Without(before[..i], drop)
      invariant forall k | n <= k < dst.Length :: dst[k] == before[k]
    {
      WithoutStep(before, i, drop);
      if dst[i] !in drop {
        ghost var kept := dst[..n];
        dst[n] := dst[i];
        assert dst[..n] == kept;
        n := n + 1;
        assert dst[..n] == kept + [before[i]];
      }
    }
    assert before[..dst.Length] == before;
    assert dst[n..] == before[n..];
  }

  /** Appends the values that are not there yet, each once. */
  function Appended(dst: seq<string>, values: seq<string>): (r: seq<string>)
    ensures dst <= r
    ensures forall v :: v in r <==> v in dst || v in values
    decreases |values|
  {
    if values == [] then dst
    else
      var front := Appended(dst, values[..|values| - 1]);
      var last := values[|values| - 1];
      if last in front then front else front + [last]
  }

  method AppendUnique(dst: seq<string>, values: seq<string>) returns (r: seq<string>)
    ensures r == Appended(dst, values)
  {
    var seen: set<string> := {};
    for i := 0 to |dst|
      invariant forall v :: v in seen <==> v in dst[..i]
    {
      seen := seen + {dst[i]};
    }
    r := dst;
    for i := 0 to |values|
      invariant r == Appended(dst, values[..i])
      invariant forall v :: v in seen <==> v in r
    {
      assert values[..i + 1][..i] == values[..i];
      if values[i] !in seen {
        r := r + [values[i]];
        seen := seen + {values[i]};
      }
    }
    assert values[..|values|] == values;
  }

  predicate NoRepeats(s: seq<string>) {
    forall i, j | 0 <= i < j < |s| :: s[i] != s[j]
  }

  lemma {:induction false} AppendedNoRepeats(dst: seq<string>, values: seq<string>)
    requires NoRepeats(dst)
    ensures NoRepeats(Appended(dst, values))
    decreases |values|
  {
    if values != [] {
      AppendedNoRepeats(dst, values[..|values| - 1]);
    }
  }

  lemma {:induction false} WithoutNoRepeats(values: seq<string>, drop: seq<string>)
    requires NoRepeats(values)
    ensures NoRepeats(Without(values, drop))
  {
    if values != [] {
      var front := values[..|values| - 1];
      WithoutNoRepeats(front, drop);
      var kept := Without(front, drop);
      assert forall i | 0 <= i < |kept| :: kept[i] in front;
    }
  }

  lemma {:induction false} AppendedNothingNew(dst: seq<string>, values: seq<string>)
    requires forall v | v in values :: v in dst
    ensures Appended(dst, values) == dst
    decreases |values|
  {
    if values != [] {
      AppendedNothingNew(dst, values[..|values| - 1]);
      assert values[|values| - 1] in values;
    }
  }

  lemma {:induction false} WithoutNothingGone(values: seq<string>, drop: seq<string>)
    requires forall v | v in values :: v !in drop
    ensures Without(values, drop) == values
  {
    if values != [] {
      WithoutNothingGone(values[..|values| - 1], drop);
      assert values == values[..|values| - 1] + [values[|values| - 1]];
    }
  }

  // ---------------------------------------------------------------- rules

  /** What the merge makes of one rule. */
  function Updated(rule: IgnoreDiff, input: RuleInput): IgnoreDiff {
    if rule.scope != input.scope then rule
    else if input.remove then rule.(pointers := Without(rule.pointers, input.pointers))
    else rule.(pointers := Appended(rule.pointers, input.pointers),
               reason := input.reason, createdBy := input.createdBy, createdAt := Some(input.createdAt))
  }

  function Kept(rules: seq<IgnoreDiff>, input: RuleInput): seq<IgnoreDiff> {
    if rules == [] then []
    else
      var rule := Updated(rules[|rules| - 1], input);
      Kept(rules[..|rules| - 1], input) + (if rule.pointers == [] then [] else [rule])
  }

  predicate HasScope(rules: seq<IgnoreDiff>, scope: Scope) {
    exists i :: 0 <= i < |rules| && rules[i].scope == scope
  }

  function NewRule(input: RuleInput): IgnoreDiff {
    IgnoreDiff(input.scope, input.pointers, input.reason, input.createdBy, Some(input.createdAt))
  }

  /** The merged rules: the kept ones, and a new rule when an addition found no rule of its scope. */
  function Merged(rules: seq<IgnoreDiff>, input: RuleInput): seq<IgnoreDiff> {
    Kept(rules, input) + (if HasScope(rules, input.scope) || input.remove then [] else [NewRule(input)])
  }

  lemma HasScopeSplit(front: seq<IgnoreDiff>, last: IgnoreDiff, scope: Scope)
    ensures HasScope(front + [last], scope) <==> HasScope(front, scope) || last.scope == scope
  {
    if HasScope(front, scope) {
      var i :| 0 <= i < |front| && front[i].scope == scope;
      assert (front + [last])[i].scope == scope;
    }
    if last.scope == scope {
      assert (front + [last])[|front|].scope == scope;
    }
  }

  /** The loop body: one rule, its pointers changed when it has the request's scope. */
  method UpdateRule(rule: IgnoreDiff, input: RuleInput) returns (r: IgnoreDiff)
    ensures r == Updated(rule, input)
  {
    if rule.scope != input.scope {
      return rule;
    }
    if input.remove {
      var slice := new string[|rule.pointers|](k requires 0 <= k < |rule.pointers| => rule.pointers[k]);
      assert slice[..] == rule.pointers;
      var n := RemoveStrings(slice, input.pointers);
      return rule.(pointers := slice[..n]);
    }
    var pointers := AppendUnique(rule.pointers, input.pointers);
    return rule.(pointers := pointers, reason := input.reason, createdBy := input.createdBy,
                 createdAt := Some(input.createdAt));
  }

  method MergeIgnoreDiffRule(rules: seq<IgnoreDiff>, input: RuleInput) returns (out: seq<IgnoreDiff>)
    ensures out == Merged(rules, input)
  {
    out := [];
    var merged := false;
    for i := 0 to |rules|
      invariant out == Kept(rules[..i], input)
      invariant merged <==> HasScope(rules[..i], input.scope)
    {
      assert rules[..i + 1][..i] == rules[..i] && rules[..i + 1] == rules[..i] + [rules[i]];
      HasScopeSplit(rules[..i], rules[i], input.scope);
      if rules[i].scope == input.scope {
        merged := true;
      }
      var r := UpdateRule(rules[i], input);
      if |r.pointers| > 0 {
        out := out + [r];
      }
    }
    assert rules[..|rules|] == rules;
    if !merged && !input.remove {
      out := out + [NewRule(input)];
    }
  }

  // ---------------------------------------------------------------- what a merge does

  /** `p` is ignored within the scope by some rule. */
  predicate Ignores(rules: seq<IgnoreDiff>, scope: Scope, p: string) {
    exists i :: 0 <= i < |rules| && rules[i].scope == scope && p in rules[i].pointers
  }

  /** The non-empty rules of other scopes, in order. */
  function Others(rules: seq<IgnoreDiff>, scope: Scope): seq<IgnoreDiff> {
    if rules == [] then []
    else
      var last := rules[|rules| - 1];
      Others(rules[..|rules| - 1], scope) + (if last.scope == scope || last.pointers == [] then [] else [last])
  }

  lemma {:induction false} IgnoresSplit(a: seq<IgnoreDiff>, b: seq<IgnoreDiff>, scope: Scope, p: string)
    ensures Ignores(a + b, scope, p) <==> Ignores(a, scope, p) || Ignores(b, scope, p)
  {
    if Ignores(a, scope, p) {
      var i :| 0 <= i < |a| && a[i].scope == scope && p in a[i].pointers;
      assert (a + b)[i] == a[i];
    }
    if Ignores(b, scope, p) {
      var i :| 0 <= i < |b| && b[i].scope == scope && p in b[i].pointers;
      assert (a + b)[|a| + i] == b[i];
    }
  }

  lemma {:induction false} KeptIgnores(rules: seq<IgnoreDiff>, input: RuleInput, p: string)
    ensures Ignores(Kept(rules, input), input.scope, p) <==>
      if input.remove then Ignores(rules, input.scope, p) && p !in input.pointers
      else Ignores(rules, input.scope, p) || (HasScope(rules, input.scope) && p in input.pointers)
  {
    if rules != [] {
      var front, last := rules[..|rules| - 1], rules[|rules| - 1];
      KeptIgnores(front, input, p);
      var rule := Updated(last, input);
      var tail := if rule.pointers == [] then [] else [rule];
      IgnoresSplit(Kept(front, input), tail, input.scope, p);
      IgnoresSplit(front, [last], input.scope, p);
      assert rules == front + [last];
      assert Ignores([last], input.scope, p) <==> last.scope == input.scope && p in last.pointers by {
        assert [last][0] == last;
      }
      assert Ignores(tail, input.scope, p) <==> rule.scope == input.scope && p in rule.pointers by {
        if rule.pointers != [] {
          assert tail[0] == rule;
        }
      }
      HasScopeSplit(front, last, input.scope);
    }
  }

  /** Set algebra per scope: an addition is a union and a removal a difference, over all rules
      of the scope together. */
  lemma MergeIsSetAlgebra(rules: seq<IgnoreDiff>, input: RuleInput, p: string)
    ensures Ignores(Merged(rules, input), input.scope, p) <==>
      if input.remove then Ignores(rules, input.scope, p) && p !in input.pointers
      else Ignores(rules, input.scope, p) || p in input.pointers
  {
    KeptIgnores(rules, input, p);
    if !(HasScope(rules, input.scope) || input.remove) {
      IgnoresSplit(Kept(rules, input), [NewRule(input)], input.scope, p);
      assert Ignores([NewRule(input)], input.scope, p) <==> p in input.pointers by {
        assert [NewRule(input)][0] == NewRule(input);
      }
    } else {
      assert Merged(rules, input) == Kept(rules, input);
    }
  }

  lemma {:induction false} OthersAppend(rules: seq<IgnoreDiff>, last: IgnoreDiff, scope: Scope)
    ensures Others(rules + [last], scope) ==
            Others(rules, scope) + (if last.scope == scope || last.pointers == [] then [] else [last])
  {
    assert (rules + [last])[..|rules|] == rules;
  }

  lemma {:induction false} KeptOthers(rules: seq<IgnoreDiff>, input: RuleInput)
    ensures Others(Kept(rules, input), input.scope) == Others(rules, input.scope)
  {
    if rules != [] {
      var front, last := rules[..|rules| - 1], rules[|rules| - 1];
      KeptOthers(front, input);
      var rule := Updated(last, input);
      if rule.pointers == [] {
        assert Kept(rules, input) == Kept(front, input);
      } else {
        OthersAppend(Kept(front, input), rule, input.scope);
      }
    }
  }

  /** Rules of other scopes keep their content and order; only empty ones go. */
  lemma OtherScopesUntouched(rules: seq<IgnoreDiff>, input: RuleInput)
    ensures Others(Merged(rules, input), input.scope) == Others(rules, input.scope)
  {
    KeptOthers(rules, input);
    if !(HasScope(rules, input.scope) || input.remove) {
      OthersAppend(Kept(rules, input), NewRule(input), input.scope);
    } else {
      assert Merged(rules, input) == Kept(rules, input);
    }
  }

  predicate AllNonEmpty(rules: seq<IgnoreDiff>) {
    forall i | 0 <= i < |rules| :: rules[i].pointers != []
  }

  lemma {:induction false} KeptNonEmpty(rules: seq<IgnoreDiff>, input: RuleInput)
    ensures AllNonEmpty(Kept(rules, input))
  {
    if rules != [] {
      KeptNonEmpty(rules[..|rules| - 1], input);
    }
  }

  /** No empty rule survives, with one exception: adding no pointers to an unknown scope stores
      an empty rule. The request handler rejects an empty list before it gets here. */
  lemma NoEmptyRuleSurvivesIff(rules: seq<IgnoreDiff>, input: RuleInput)
    ensures AllNonEmpty(Merged(rules, input)) <==>
            input.remove || HasScope(rules, input.scope) || input.pointers != []
  {
    KeptNonEmpty(rules, input);
    if !(HasScope(rules, input.scope) || input.remove) {
      assert Merged(rules, input)[|Kept(rules, input)|] == NewRule(input);
    }
  }

  predicate AllDistinct(rules: seq<IgnoreDiff>) {
    forall i | 0 <= i < |rules| :: NoRepeats(rules[i].pointers)
  }

  lemma {:induction false} KeptDistinct(rules: seq<IgnoreDiff>, input: RuleInput)
    requires AllDistinct(rules)
    ensures AllDistinct(Kept(rules, input))
  {
    if rules != [] {
      var last := rules[|rules| - 1];
      KeptDistinct(rules[..|rules| - 1], input);
      AppendedNoRepeats(last.pointers, input.pointers);
      WithoutNoRepeats(last.pointers, input.pointers);
    }
  }

  /** Pointer lists stay free of repeats except through a new rule, which takes the request's
      list as it is. */
  lemma DeduplicatedIff(rules: seq<IgnoreDiff>, input: RuleInput)
    requires AllDistinct(rules)
    ensures AllDistinct(Merged(rules, input)) <==>
            input.remove || HasScope(rules, input.scope) || NoRepeats(input.pointers)
  {
    KeptDistinct(rules, input);
    if !(HasScope(rules, input.scope) || input.remove) {
      assert Merged(rules, input)[|Kept(rules, input)|] == NewRule(input);
    }
  }

  /** The same request, perhaps by somebody else, for another reason and at another time. */
  predicate SameRequest(a: RuleInput, b: RuleInput) {
    a.scope == b.scope && a.pointers == b.pointers && a.remove == b.remove
  }

  lemma {:induction false} KeptTwice(rules: seq<IgnoreDiff>, input: RuleInput, again: RuleInput)
    requires SameRequest(input, again)
    ensures Kept(Kept(rules, input), again) == Kept(rules, again)
  {
    if rules != [] {
      var front, last := rules[..|rules| - 1], rules[|rules| - 1];
      KeptTwice(front, input, again);
      var rule := Updated(last, input);
      AppendedNothingNew(Appended(last.pointers, input.pointers), input.pointers);
      WithoutNothingGone(Without(last.pointers, input.pointers), input.pointers);
      assert Updated(rule, again) == Updated(last, again);
      if rule.pointers == [] {
        assert Kept(rules, input) == Kept(front, input);
      } else {
        KeptAppend(Kept(front, input), rule, again);
      }
    }
  }

  lemma KeptAppend(rules: seq<IgnoreDiff>, last: IgnoreDiff, input: RuleInput)
    ensures Kept(rules + [last], input) ==
            Kept(rules, input) + (if Updated(last, input).pointers == [] then [] else [Updated(last, input)])
  {
    assert (rules + [last])[..|rules|] == rules;
  }

  lemma {:induction false} KeptScope(rules: seq<IgnoreDiff>, input: RuleInput)
    requires !input.remove && input.pointers != []
    ensures HasScope(rules, input.scope) <==> HasScope(Kept(rules, input), input.scope)
  {
    if rules != [] {
      var front, last := rules[..|rules| - 1], rules[|rules| - 1];
      KeptScope(front, input);
      HasScopeSplit(front, last, input.scope);
      assert rules == front + [last];
      var rule := Updated(last, input);
      assert last.scope == input.scope ==> input.pointers[0] in rule.pointers;
      if rule.pointers == [] {
        assert Kept(rules, input) == Kept(front, input);
      } else {
        HasScopeSplit(Kept(front, input), rule, input.scope);
      }
    }
  }

  /** `rule` carries the record of some rule of its scope in `rules`. */
  predicate RecordFrom(rules: seq<IgnoreDiff>, rule: IgnoreDiff) {
    exists i :: 0 <= i < |rules| && rules[i].scope == rule.scope && rules[i].reason == rule.reason
                && rules[i].createdBy == rule.createdBy && rules[i].createdAt == rule.createdAt
  }

  lemma {:induction false} KeptRecords(rules: seq<IgnoreDiff>, input: RuleInput)
    ensures !input.remove ==> forall rule | rule in Kept(rules, input) && rule.scope == input.scope ::
      rule.reason == input.reason && rule.createdBy == input.createdBy && rule.createdAt == Some(input.createdAt)
    ensures forall rule | rule in Kept(rules, input) && (input.remove || rule.scope != input.scope) ::
      RecordFrom(rules, rule)
  {
    if rules != [] {
      var front, last := rules[..|rules| - 1], rules[|rules| - 1];
      KeptRecords(front, input);
      forall rule | rule in Kept(rules, input) && (input.remove || rule.scope != input.scope)
        ensures RecordFrom(rules, rule)
      {
        if rule in Kept(front, input) {
          var i :| 0 <= i < |front| && front[i].scope == rule.scope && front[i].reason == rule.reason
                   && front[i].createdBy == rule.createdBy && front[i].createdAt == rule.createdAt;
          assert rules[i] == front[i];
        } else {
          assert rules[|rules| - 1].scope == rule.scope;
        }
      }
    }
  }

  /** Who is on record: after an addition every rule of the scope names the request's author,
      reason and time; a removal, and any rule of another scope, keeps the record it had. */
  lemma MergeRecords(rules: seq<IgnoreDiff>, input: RuleInput)
    ensures !input.remove ==> forall rule | rule in Merged(rules, input) && rule.scope == input.scope ::
      rule.reason == input.reason && rule.createdBy == input.createdBy && rule.createdAt == Some(input.createdAt)
    ensures forall rule | rule in Merged(rules, input) && (input.remove || rule.scope != input.scope) ::
      RecordFrom(rules, rule)
  {
    KeptRecords(rules, input);
  }

  /** Repeating a request leaves what the repetition alone would have left: the pointers do not
      change again, and an addition carries the last author, reason and time. With the very
      same author, reason and time nothing changes at all. */
  lemma MergeIsIdempotent(rules: seq<IgnoreDiff>, input: RuleInput, again: RuleInput)
    requires input.pointers != [] && SameRequest(input, again)
    ensures Merged(Merged(rules, input), again) == Merged(rules, again)
  {
    KeptTwice(rules, input, again);
    if input.remove {
      assert Merged(rules, input) == Kept(rules, input);
    } else {
      KeptScope(rules, input);
      if HasScope(rules, input.scope) {
        assert Merged(rules, input) == Kept(rules, input);
      } else {
        AppendedNothingNew(input.pointers, input.pointers);
        assert Updated(NewRule(input), again) == NewRule(again);
        KeptAppend(Kept(rules, input), NewRule(input), again);
        HasScopeSplit(Kept(rules, input), NewRule(input), input.scope);
      }
    }
  }
}

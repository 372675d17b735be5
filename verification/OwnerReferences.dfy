/**
  Owner references of a Stage: the identity test, the preflight check and the
  in-place repair that an inline apply performs before it writes anything else.
*/
module OwnerReferences {

  import opened Common

  datatype OwnerReference = OwnerReference(
    apiVersion: string,
    kind: string,
    name: string,
    uid: string,
    controller: Option<bool>,
    blockOwnerDeletion: Option<bool>)

  datatype OwnerError = MultipleControllers | ControlledByAnother

  predicate IsController(ref: OwnerReference) {
    ref.controller == Some(true)
  }

  /** Same kind and name, and the same API group whatever the version. */
  predicate SameIdentity(left: OwnerReference, right: OwnerReference) {
    if left.kind != right.kind || left.name != right.name then false
    else if left.apiVersion == right.apiVersion then true
    else
      var (leftGroup, _, leftHasVersion) := Cut(left.apiVersion, '/');
      var (rightGroup, _, rightHasVersion) := Cut(right.apiVersion, '/');
      leftHasVersion && rightHasVersion && leftGroup == rightGroup
  }

  ghost predicate SameGroup(left: string, right: string, group: string, leftVersion: string, rightVersion: string) {
    '/' !in group && left == group + "/" + leftVersion && right == group + "/" + rightVersion
  }

  lemma CutGroup(apiVersion: string, group: string, version: string)
    requires '/' !in group && apiVersion == group + "/" + version
    ensures Cut(apiVersion, '/') == (group, version, true)
  {
    assert apiVersion == group + ['/'] + version;
    CutJoined(group, '/', version);
  }

  /** What the identity test accepts: the kind and the name are the same, and the API versions
      are the same text or name versions of the same group. */
  lemma SameIdentityIff(left: OwnerReference, right: OwnerReference)
    ensures SameIdentity(left, right) <==>
      && left.kind == right.kind && left.name == right.name
      && (left.apiVersion == right.apiVersion
          || exists g, v, w :: SameGroup(left.apiVersion, right.apiVersion, g, v, w))
  {
    var (g, v, _) := Cut(left.apiVersion, '/');
    var (h, w, _) := Cut(right.apiVersion, '/');
    if SameIdentity(left, right) && left.apiVersion != right.apiVersion {
      assert SameGroup(left.apiVersion, right.apiVersion, g, v, w);
    }
    if exists g, v, w :: SameGroup(left.apiVersion, right.apiVersion, g, v, w) {
      var g, v, w :| SameGroup(left.apiVersion, right.apiVersion, g, v, w);
      CutGroup(left.apiVersion, g, v);
      CutGroup(right.apiVersion, g, w);
    }
  }

  /** The identity test is an equivalence relation, although it has two different ways to say yes. */
  lemma SameIdentityIsEquivalence(a: OwnerReference, b: OwnerReference, c: OwnerReference)
    ensures SameIdentity(a, a)
    ensures SameIdentity(a, b) <==> SameIdentity(b, a)
    ensures SameIdentity(a, b) && SameIdentity(b, c) ==> SameIdentity(a, c)
  {
  }

  /** Controllers among `refs`, in order. */
  function Controllers(refs: seq<OwnerReference>): seq<OwnerReference> {
    if refs == [] then []
    else (if IsController(refs[0]) then [refs[0]] else []) + Controllers(refs[1..])
  }

  /** The references that do not have the identity of `desired`, in order. */
  function Unrelated(refs: seq<OwnerReference>, desired: OwnerReference): seq<OwnerReference> {
    if refs == [] then []
    else (if SameIdentity(refs[0], desired) then [] else [refs[0]]) + Unrelated(refs[1..], desired)
  }

  /** What an acceptable Stage looks like: at most one controller, and it is the desired one. */
  ghost predicate Acceptable(refs: seq<OwnerReference>, desired: OwnerReference) {
    && |Controllers(refs)| <= 1
    && forall c | c in Controllers(refs) :: SameIdentity(c, desired)
  }

  /** The references after a repair: the first one with the desired identity becomes
      `desired`, its later duplicates go, and `desired` is appended when there was none. */
  function Replacement(refs: seq<OwnerReference>, desired: OwnerReference): seq<OwnerReference> {
    if refs == [] then [desired]
    else if SameIdentity(refs[0], desired) then [desired] + Unrelated(refs[1..], desired)
    else [refs[0]] + Replacement(refs[1..], desired)
  }

  /** The repair as a function of the references; `Ok((refs, changed))` on success. */
  ghost function Repair(refs: seq<OwnerReference>, desired: OwnerReference)
    : Result<(seq<OwnerReference>, bool), OwnerError>
  {
    if |Controllers(refs)| > 1 then Err(MultipleControllers)
    else if !Acceptable(refs, desired) then Err(ControlledByAnother)
    else Ok((Replacement(refs, desired), Replacement(refs, desired) != refs))
  }

  lemma {:induction false} ControllersAppend(a: seq<OwnerReference>, b: seq<OwnerReference>)
    ensures Controllers(a + b) == Controllers(a) + Controllers(b)
  {
    if a == [] {
      assert a + b == b;
    } else {
      assert (a + b)[1..] == a[1..] + b;
      ControllersAppend(a[1..], b);
    }
  }

  lemma {:induction false} ControllersMembers(refs: seq<OwnerReference>)
    ensures forall c :: c in Controllers(refs) <==> c in refs && IsController(c)
  {
    if refs != [] {
      ControllersMembers(refs[1..]);
      assert refs == [refs[0]] + refs[1..];
    }
  }

  /** Preflight: reads the Stage's references and decides whether the apply may proceed. */
  method PreflightOwner(refs: seq<OwnerReference>, desired: OwnerReference)
    returns (r: Result<bool, OwnerError>)
    ensures r.Ok? <==> Acceptable(refs, desired)
    ensures r == Err(ControlledByAnother) <==>
      exists ref :: ref in refs && ref.controller == Some(true) && !SameIdentity(ref, desired)
  {
    ControllersMembers(refs);
    var controllers := 0;
    for i := 0 to |refs|
      invariant controllers == |Controllers(refs[..i])|
      invariant forall c | c in Controllers(refs[..i]) :: SameIdentity(c, desired)
    {
      assert refs[..i + 1] == refs[..i] + [refs[i]];
      ControllersAppend(refs[..i], [refs[i]]);
      if IsController(refs[i]) {
        controllers := controllers + 1;
        if !SameIdentity(refs[i], desired) {
          assert refs[i] in Controllers(refs);
          return Err(ControlledByAnother);
        }
      }
    }
    assert refs[..|refs|] == refs;
    if controllers > 1 {
      return Err(MultipleControllers);
    }
    return Ok(true);
  }

  /** First pass of the repair: finds the controller, refusing a Stage that has two. */
  method FindController(refs: seq<OwnerReference>) returns (r: Result<Option<OwnerReference>, OwnerError>)
    ensures r.Err? <==> |Controllers(refs)| > 1
    ensures r.Err? ==> r.error == MultipleControllers
    ensures r.Ok? ==> Controllers(refs) == if r.value.Some? then [r.value.value] else []
  {
    var found: Option<OwnerReference> := None;
    for i := 0 to |refs|
      invariant Controllers(refs[..i]) == if found.Some? then [found.value] else []
    {
      assert refs[..i + 1] == refs[..i] + [refs[i]];
      ControllersAppend(refs[..i], [refs[i]]);
      if IsController(refs[i]) {
        if found.Some? {
          ControllersAppend(refs[..i + 1], refs[i + 1..]);
          assert refs == refs[..i + 1] + refs[i + 1..];
          return Err(MultipleControllers);
        }
        found := Some(refs[i]);
      }
    }
    assert refs[..|refs|] == refs;
    return Ok(found);
  }

  /** What the second pass still has to add for the unread references. */
  function Rest(refs: seq<OwnerReference>, desired: OwnerReference, inserted: bool): seq<OwnerReference> {
    if inserted then Unrelated(refs, desired) else Replacement(refs, desired)
  }

  lemma RestStep(done: seq<OwnerReference>, refs: seq<OwnerReference>, desired: OwnerReference, inserted: bool)
    requires refs != []
    ensures done + Rest(refs, desired, inserted) ==
            if SameIdentity(refs[0], desired) then
              (if inserted then done else done + [desired]) + Rest(refs[1..], desired, true)
            else
              (done + [refs[0]]) + Rest(refs[1..], desired, inserted)
  {
  }

  /** Second pass of the repair: rebuilds the list around the desired reference. */
  method BuildReplacement(refs: seq<OwnerReference>, desired: OwnerReference)
    returns (replacement: seq<OwnerReference>)
    ensures replacement == Replacement(refs, desired)
  {
    replacement := [];
    var inserted := false;
    for i := 0 to |refs|
      invariant Replacement(refs, desired) == replacement + Rest(refs[i..], desired, inserted)
    {
      RestStep(replacement, refs[i..], desired, inserted);
      assert refs[i..][1..] == refs[i + 1..];
      if SameIdentity(refs[i], desired) {
        if !inserted {
          replacement := replacement + [desired];
          inserted := true;
        }
      } else {
        replacement := replacement + [refs[i]];
      }
    }
    if !inserted {
      replacement := replacement + [desired];
    }
  }

  class Stage {
    var ownerReferences: seq<OwnerReference>

    constructor (refs: seq<OwnerReference>)
      ensures ownerReferences == refs
    {
      ownerReferences := refs;
    }

    /** Repairs the controller owner in place; an error leaves the Stage alone. */
    method RepairControllerOwner(desired: OwnerReference) returns (r: Result<bool, OwnerError>)
      modifies this
      ensures r.Err? ==> ownerReferences == old(ownerReferences)
      ensures r.Err? ==> Repair(old(ownerReferences), desired) == Err(r.error)
      ensures r.Ok? ==> Repair(old(ownerReferences), desired) == Ok((ownerReferences, r.value))
    {
      var controller := FindController(ownerReferences);
      if controller.Err? {
        return Err(controller.error);
      }
      if controller.value.Some? && !SameIdentity(controller.value.value, desired) {
        assert controller.value.value in Controllers(ownerReferences);
        return Err(ControlledByAnother);
      }
      var replacement := BuildReplacement(ownerReferences, desired);
      if ownerReferences == replacement {
        return Ok(false);
      }
      ownerReferences := replacement;
      return Ok(true);
    }
  }

  lemma {:induction false} ReplacementShape(refs: seq<OwnerReference>, desired: OwnerReference)
    ensures Unrelated(Replacement(refs, desired), desired) == Unrelated(refs, desired)
    ensures Unrelated(Unrelated(refs, desired), desired) == Unrelated(refs, desired)
    ensures desired in Replacement(refs, desired)
  {
    if refs != [] {
      ReplacementShape(refs[1..], desired);
      if SameIdentity(refs[0], desired) {
        assert ([desired] + Unrelated(refs[1..], desired))[1..] == Unrelated(refs[1..], desired);
        assert Unrelated(refs, desired) == Unrelated(refs[1..], desired);
      } else {
        assert ([refs[0]] + Replacement(refs[1..], desired))[1..] == Replacement(refs[1..], desired);
        assert ([refs[0]] + Unrelated(refs[1..], desired))[1..] == Unrelated(refs[1..], desired);
      }
    }
  }

  lemma {:induction false} ReplacementStable(refs: seq<OwnerReference>, desired: OwnerReference)
    ensures Replacement(Replacement(refs, desired), desired) == Replacement(refs, desired)
  {
    if refs == [] {
    } else if SameIdentity(refs[0], desired) {
      ReplacementShape(refs[1..], desired);
      assert ([desired] + Unrelated(refs[1..], desired))[1..] == Unrelated(refs[1..], desired);
    } else {
      assert ([refs[0]] + Replacement(refs[1..], desired))[1..] == Replacement(refs[1..], desired);
      ReplacementStable(refs[1..], desired);
    }
  }

  lemma {:induction false} UnrelatedHasNoController(refs: seq<OwnerReference>, desired: OwnerReference)
    requires forall c | c in Controllers(refs) :: SameIdentity(c, desired)
    ensures Controllers(Unrelated(refs, desired)) == []
  {
    if refs != [] {
      UnrelatedHasNoController(refs[1..], desired);
      ControllersAppend(if SameIdentity(refs[0], desired) then [] else [refs[0]], Unrelated(refs[1..], desired));
    }
  }

  lemma {:induction false} ReplacementControllers(refs: seq<OwnerReference>, desired: OwnerReference)
    requires IsController(desired)
    requires forall c | c in Controllers(refs) :: SameIdentity(c, desired)
    ensures Controllers(Replacement(refs, desired)) == [desired]
  {
    if refs == [] {
    } else if SameIdentity(refs[0], desired) {
      UnrelatedHasNoController(refs[1..], desired);
      ControllersAppend([desired], Unrelated(refs[1..], desired));
    } else {
      ReplacementControllers(refs[1..], desired);
      ControllersAppend([refs[0]], Replacement(refs[1..], desired));
    }
  }

  /** The references that satisfy `keep`, in order. */
  function Filtered(refs: seq<OwnerReference>, keep: OwnerReference -> bool): seq<OwnerReference> {
    if refs == [] then []
    else (if keep(refs[0]) then [refs[0]] else []) + Filtered(refs[1..], keep)
  }

  lemma {:induction false} FilteredAppend(a: seq<OwnerReference>, b: seq<OwnerReference>, keep: OwnerReference -> bool)
    ensures Filtered(a + b, keep) == Filtered(a, keep) + Filtered(b, keep)
  {
    if a == [] {
      assert a + b == b;
    } else {
      assert (a + b)[1..] == a[1..] + b;
      FilteredAppend(a[1..], b, keep);
    }
  }

  /** A repair neither drops nor moves references that a test tells apart from `desired`. */
  lemma {:induction false} RepairKeepsFiltered(refs: seq<OwnerReference>, desired: OwnerReference, keep: OwnerReference -> bool)
    requires forall ref | SameIdentity(ref, desired) :: !keep(ref)
    ensures Filtered(Replacement(refs, desired), keep) == Filtered(refs, keep)
    ensures Filtered(Unrelated(refs, desired), keep) == Filtered(refs, keep)
  {
    SameIdentityIsEquivalence(desired, desired, desired);
    if refs != [] {
      RepairKeepsFiltered(refs[1..], desired, keep);
      FilteredAppend([refs[0]], Replacement(refs[1..], desired), keep);
      FilteredAppend([desired], Unrelated(refs[1..], desired), keep);
      FilteredAppend(if SameIdentity(refs[0], desired) then [] else [refs[0]], Unrelated(refs[1..], desired), keep);
    }
  }

  predicate OtherResource(ref: OwnerReference, kind: string, name: string) {
    ref.kind != kind || ref.name != name
  }

  /** A Stage is acceptable exactly when no two of its references carry the controller flag and
      the one that does has the kind, the name and the API group of `desired`. */
  lemma AcceptableIff(refs: seq<OwnerReference>, desired: OwnerReference)
    ensures Acceptable(refs, desired) <==>
      && (forall i, j | 0 <= i < j < |refs| :: refs[i].controller != Some(true) || refs[j].controller != Some(true))
      && (forall ref | ref in refs && ref.controller == Some(true) ::
            && ref.kind == desired.kind && ref.name == desired.name
            && (ref.apiVersion == desired.apiVersion
                || exists g, v, w :: SameGroup(ref.apiVersion, desired.apiVersion, g, v, w)))
  {
    ControllersMembers(refs);
    AtMostOneController(refs);
    forall ref | ref in refs && ref.controller == Some(true)
      ensures SameIdentity(ref, desired) <==>
        && ref.kind == desired.kind && ref.name == desired.name
        && (ref.apiVersion == desired.apiVersion
            || exists g, v, w :: SameGroup(ref.apiVersion, desired.apiVersion, g, v, w))
    {
      SameIdentityIff(ref, desired);
    }
  }

  lemma {:induction false} AtMostOneController(refs: seq<OwnerReference>)
    ensures |Controllers(refs)| == 0 <==> forall i | 0 <= i < |refs| :: refs[i].controller != Some(true)
    ensures |Controllers(refs)| <= 1 <==>
      forall i, j | 0 <= i < j < |refs| :: refs[i].controller != Some(true) || refs[j].controller != Some(true)
  {
    if refs != [] {
      var rest := refs[1..];
      AtMostOneController(rest);
      assert forall i | 1 <= i < |refs| :: refs[i] == rest[i - 1];
      if forall i, j | 0 <= i < j < |refs| :: refs[i].controller != Some(true) || refs[j].controller != Some(true) {
        assert forall i, j | 0 <= i < j < |rest| :: rest[i] == refs[i + 1] && rest[j] == refs[j + 1];
        if IsController(refs[0]) {
          assert forall j | 0 <= j < |rest| :: rest[j] == refs[j + 1];
        }
      }
      if |Controllers(refs)| <= 1 {
        forall i, j | 0 <= i < j < |refs| ensures refs[i].controller != Some(true) || refs[j].controller != Some(true) {
          assert refs[j] == rest[j - 1];
          if i > 0 {
            assert refs[i] == rest[i - 1];
          }
        }
      }
    }
  }

  /** Where the desired reference ends up: in place of the first one of its identity, whose
      later duplicates go, and at the end when there was none. */
  lemma {:induction false} ReplacementPlace(refs: seq<OwnerReference>, desired: OwnerReference, k: nat)
    requires k <= |refs| && forall i | 0 <= i < k :: !SameIdentity(refs[i], desired)
    requires k < |refs| ==> SameIdentity(refs[k], desired)
    ensures Replacement(refs, desired) ==
      if k < |refs| then refs[..k] + [desired] + Filtered(refs[k + 1..], ref => !SameIdentity(ref, desired))
      else refs + [desired]
  {
    if k == 0 {
      if refs != [] {
        UnrelatedIsFiltered(refs[1..], desired);
      }
    } else {
      ReplacementPlace(refs[1..], desired, k - 1);
      assert refs == [refs[0]] + refs[1..];
      if k < |refs| {
        assert refs[1..][k..] == refs[k + 1..];
        assert refs[..k] == [refs[0]] + refs[1..][..k - 1];
      }
    }
  }

  lemma {:induction false} UnrelatedIsFiltered(refs: seq<OwnerReference>, desired: OwnerReference)
    ensures Unrelated(refs, desired) == Filtered(refs, ref => !SameIdentity(ref, desired))
  {
    if refs != [] {
      UnrelatedIsFiltered(refs[1..], desired);
    }
  }

  /** The repair's promises, together: it succeeds exactly when preflight accepts, it leaves
      exactly one controller, it keeps every unrelated reference in value and order, those of
      another kind or name among them, and a second repair finds nothing to change. */
  lemma RepairTheorem(refs: seq<OwnerReference>, desired: OwnerReference)
    requires IsController(desired)
    ensures Repair(refs, desired).Ok? <==> Acceptable(refs, desired)
    ensures Repair(refs, desired).Ok? ==>
      var (after, changed) := Repair(refs, desired).value;
      && Controllers(after) == [desired]
      && Unrelated(after, desired) == Unrelated(refs, desired)
      && (forall ref | ref in after && SameIdentity(ref, desired) :: ref == desired)
      && (forall ref | ref in after :: ref.controller == Some(true) <==> ref == desired)
      && Filtered(after, ref => OtherResource(ref, desired.kind, desired.name)) ==
         Filtered(refs, ref => OtherResource(ref, desired.kind, desired.name))
      && (changed <==> after != refs)
      && Repair(after, desired) == Ok((after, false))
  {
    if Acceptable(refs, desired) {
      forall ref | SameIdentity(ref, desired) ensures !OtherResource(ref, desired.kind, desired.name) {
        SameIdentityIff(ref, desired);
      }
      RepairKeepsFiltered(refs, desired, ref => OtherResource(ref, desired.kind, desired.name));
      ControllersMembers(Replacement(refs, desired));
      ReplacementControllers(refs, desired);
      ReplacementShape(refs, desired);
      ReplacementStable(refs, desired);
      ReplacementIdentity(refs, desired);
    }
  }

  /** Two controllers are reported before a foreign one is looked at, unlike in the preflight. */
  lemma RepairErrors(refs: seq<OwnerReference>, desired: OwnerReference)
    ensures Repair(refs, desired) == Err(MultipleControllers) <==>
      exists i, j :: 0 <= i < j < |refs| && refs[i].controller == Some(true) && refs[j].controller == Some(true)
    ensures Repair(refs, desired) == Err(ControlledByAnother) <==>
      && (forall i, j | 0 <= i < j < |refs| :: refs[i].controller != Some(true) || refs[j].controller != Some(true))
      && (exists ref :: ref in refs && ref.controller == Some(true) && !SameIdentity(ref, desired))
  {
    AtMostOneController(refs);
    ControllersMembers(refs);
  }

  lemma {:induction false} ReplacementIdentity(refs: seq<OwnerReference>, desired: OwnerReference)
    ensures forall ref | ref in Replacement(refs, desired) && SameIdentity(ref, desired) :: ref == desired
    ensures forall ref | ref in Unrelated(refs, desired) :: !SameIdentity(ref, desired)
  {
    if refs != [] {
      ReplacementIdentity(refs[1..], desired);
    }
  }

  /** The preflight's reference has no UID or controller flag; only identity matters, so it
      decides the same as the full reference the repair is given later. */
  lemma PreflightAgreesWithRepair(refs: seq<OwnerReference>, desired: OwnerReference)
    ensures Acceptable(refs, desired) <==>
            Acceptable(refs, OwnerReference(desired.apiVersion, desired.kind, desired.name, "", None, None))
  {
    var bare := OwnerReference(desired.apiVersion, desired.kind, desired.name, "", None, None);
    forall c: OwnerReference
      ensures SameIdentity(c, desired) <==> SameIdentity(c, bare)
    {
      SameIdentityIsEquivalence(c, bare, desired);
      SameIdentityIsEquivalence(c, desired, bare);
    }
  }
}

/** Which step sequences proposed by the planner model are ever run:
    hex-executor-console-backend/src/planner/planValidator.ts (validation against the
    static plan), planDiff.ts (adoption) and plannerProvider.ts (fallback).
 */
module PlanAdoption {
  import opened Common
  import opened EditDistance
  import opened Texts
  import opened WorkflowTypes

  datatype PlannerStep = PlannerStep(name: Text, usesCapability: Text)
  datatype PlannerPlan = PlannerPlan(goalId: Text, steps: seq<PlannerStep>)

  function Ids(steps: seq<WorkflowStep>): seq<Text> {
    seq(|steps|, i requires 0 <= i < |steps| => steps[i].id)
  }

  function Caps(steps: seq<PlannerStep>): seq<Text> {
    seq(|steps|, i requires 0 <= i < |steps| => Trim(steps[i].usesCapability))
  }

  // ----- Validation -----

  datatype Fault =
    | GoalMismatch
    | EmptySteps
    | WrongLength
    | UnknownCapability(cap: Text)
    | DuplicateCapability(cap: Text)
    | UnmappedCapability(cap: Text)
    | MissingCapability(cap: Text)

  datatype Validation = Valid(plan: WorkflowPlan) | Invalid(fault: Fault)

  /** The keyed view of the static steps; a repeated id keeps its last step. */
  function StepMeta(steps: seq<WorkflowStep>): map<Text, WorkflowStep> {
    if steps == [] then map[] else StepMeta(Front(steps))[Last(steps).id := Last(steps)]
  }

  lemma {:induction false} StepMetaSound(steps: seq<WorkflowStep>, id: Text)
    ensures id in StepMeta(steps) <==> id in Ids(steps)
    ensures id in StepMeta(steps) ==> StepMeta(steps)[id] in steps && StepMeta(steps)[id].id == id
  {
    if steps != [] {
      StepMetaSound(Front(steps), id);
      assert Ids(steps) == Ids(Front(steps)) + [Last(steps).id];
    }
  }

  /** The first `n` proposed steps each name an allowed, known capability not named before. */
  ghost predicate CleanUpTo(caps: seq<Text>, allowed: set<Text>, known: seq<Text>, n: nat)
    requires n <= |caps|
  {
    && (forall i :: 0 <= i < n ==> caps[i] in allowed && caps[i] in known)
    && Distinct(caps[..n])
  }

  ghost predicate FirstFaultAt(caps: seq<Text>, allowed: set<Text>, known: seq<Text>, n: nat, cap: Text) {
    n < |caps| && caps[n] == cap && CleanUpTo(caps, allowed, known, n)
  }

  ghost predicate WellSized(plan: PlannerPlan, goal: Text, reference: WorkflowPlan) {
    plan.goalId == goal && plan.steps != [] && |plan.steps| == |reference.steps|
  }

  /** What a plan must be like for the validator to blame `fault`. */
  ghost predicate Blames(plan: PlannerPlan, allowed: set<Text>, goal: Text, reference: WorkflowPlan, fault: Fault) {
    var caps, known := Caps(plan.steps), Ids(reference.steps);
    match fault
    case GoalMismatch => plan.goalId != goal
    case EmptySteps => plan.goalId == goal && plan.steps == []
    case WrongLength => plan.goalId == goal && plan.steps != [] && |plan.steps| != |reference.steps|
    case UnknownCapability(cap) =>
      && WellSized(plan, goal, reference) && cap !in allowed
      && exists n: nat :: FirstFaultAt(caps, allowed, known, n, cap)
    case DuplicateCapability(cap) =>
      && WellSized(plan, goal, reference) && cap in allowed
      && exists n: nat :: FirstFaultAt(caps, allowed, known, n, cap) && cap in caps[..n]
    case UnmappedCapability(cap) =>
      && WellSized(plan, goal, reference) && cap in allowed && cap !in known
      && exists n: nat :: FirstFaultAt(caps, allowed, known, n, cap) && cap !in caps[..n]
    case MissingCapability(cap) =>
      && WellSized(plan, goal, reference) && CleanUpTo(caps, allowed, known, |caps|)
      && cap in known && cap !in caps
  }

  ghost predicate Acceptable(plan: PlannerPlan, allowed: set<Text>, goal: Text, reference: WorkflowPlan) {
    var caps, known := Caps(plan.steps), Ids(reference.steps);
    && WellSized(plan, goal, reference)
    && CleanUpTo(caps, allowed, known, |caps|)
    && Elements(known) <= Elements(caps)
  }

  /** The workflow step made from a proposed step: id and retry limit are the static plan's. */
  ghost predicate Realises(step: WorkflowStep, proposed: PlannerStep, reference: WorkflowPlan) {
    && step.id == Trim(proposed.usesCapability)
    && (exists s :: s in reference.steps && FilledFrom(step, proposed, s))
  }

  predicate FilledFrom(step: WorkflowStep, proposed: PlannerStep, s: WorkflowStep) {
    && s.id == step.id && step.maxAttempts == s.maxAttempts
    && step.description == if Trim(proposed.name) != [] then Trim(proposed.name) else s.description
  }

  ghost predicate RealisesAll(steps: seq<WorkflowStep>, proposed: seq<PlannerStep>, reference: WorkflowPlan) {
    |steps| == |proposed| && forall i :: 0 <= i < |steps| ==> Realises(steps[i], proposed[i], reference)
  }

  method Validate(plan: PlannerPlan, allowed: set<Text>, goal: Text, reference: WorkflowPlan)
    returns (r: Validation)
    ensures r.Valid? <==> Acceptable(plan, allowed, goal, reference)
    ensures r.Valid? ==> r.plan.goalId == reference.goalId && RealisesAll(r.plan.steps, plan.steps, reference)
    ensures r.Invalid? ==> Blames(plan, allowed, goal, reference, r.fault)
  {
    if plan.goalId != goal { return Invalid(GoalMismatch); }
    if |plan.steps| == 0 { return Invalid(EmptySteps); }
    if |plan.steps| != |reference.steps| { return Invalid(WrongLength); }

    var meta := StepMeta(reference.steps);
    ghost var caps, known := Caps(plan.steps), Ids(reference.steps);
    var steps: seq<WorkflowStep> := [];
    var seen: set<Text> := {};
    for i := 0 to |plan.steps|
      invariant CleanUpTo(caps, allowed, known, i)
      invariant seen == Elements(caps[..i])
      invariant RealisesAll(steps, plan.steps[..i], reference)
    {
      var ps := plan.steps[i];
      var cap := Trim(ps.usesCapability);
      assert caps[i] == cap;
      StepMetaSound(reference.steps, cap);
      if cap !in allowed {
        assert FirstFaultAt(caps, allowed, known, i, cap);
        return Invalid(UnknownCapability(cap));
      }
      if cap in seen {
        assert FirstFaultAt(caps, allowed, known, i, cap);
        DuplicateSpoils(caps, i);
        return Invalid(DuplicateCapability(cap));
      }
      if cap !in meta {
        assert FirstFaultAt(caps, allowed, known, i, cap);
        return Invalid(UnmappedCapability(cap));
      }
      OneMoreClean(caps, allowed, known, i);
      seen := seen + {cap};
      var m := meta[cap];
      var step := WorkflowStep(cap, if Trim(ps.name) != [] then Trim(ps.name) else m.description, m.maxAttempts);
      assert FilledFrom(step, ps, m);
      OneMoreRealised(steps, plan.steps, reference, step, m);
      steps := steps + [step];
    }
    assert caps[..|caps|] == caps && plan.steps[..|plan.steps|] == plan.steps;

    var missing := FirstMissing(Elements(Ids(reference.steps)), seen);
    if missing.Some? {
      return Invalid(MissingCapability(missing.value));
    }
    return Valid(WorkflowPlan(reference.goalId, steps));
  }

  /** The last check of the validator: an expected id that was not seen. */
  method FirstMissing(expected: set<Text>, seen: set<Text>) returns (missing: Option<Text>)
    ensures missing.None? <==> expected <= seen
    ensures missing.Some? ==> missing.value in expected && missing.value !in seen
  {
    var todo := expected;
    while todo != {}
      invariant todo <= expected
      invariant expected - todo <= seen
    {
      var id :| id in todo;
      if id !in seen {
        return Some(id);
      }
      todo := todo - {id};
    }
    return None;
  }

  lemma OneMoreRealised(steps: seq<WorkflowStep>, proposed: seq<PlannerStep>, reference: WorkflowPlan, step: WorkflowStep, m: WorkflowStep)
    requires |steps| < |proposed| && RealisesAll(steps, proposed[..|steps|], reference)
    requires m in reference.steps && FilledFrom(step, proposed[|steps|], m)
    requires step.id == Trim(proposed[|steps|].usesCapability)
    ensures RealisesAll(steps + [step], proposed[..|steps| + 1], reference)
  {
    assert Realises(step, proposed[|steps|], reference);
    assert proposed[..|steps| + 1] == proposed[..|steps|] + [proposed[|steps|]];
  }

  /** One more allowed, known and new name. */
  lemma OneMoreClean(caps: seq<Text>, allowed: set<Text>, known: seq<Text>, i: nat)
    requires i < |caps| && CleanUpTo(caps, allowed, known, i)
    requires caps[i] in allowed && caps[i] in known && caps[i] !in Elements(caps[..i])
    ensures CleanUpTo(caps, allowed, known, i + 1)
    ensures Elements(caps[..i + 1]) == Elements(caps[..i]) + {caps[i]}
  {
    assert caps[..i + 1] == caps[..i] + [caps[i]];
    forall k | 0 <= k < i
      ensures caps[k] != caps[i]
    {
      assert caps[..i][k] in Elements(caps[..i]);
    }
  }

  lemma DuplicateSpoils(caps: seq<Text>, i: nat)
    requires i < |caps| && caps[i] in caps[..i]
    ensures !Distinct(caps)
  {
    var j :| 0 <= j < i && caps[j] == caps[i];
  }

  // ----- The pigeonhole behind the validator -----

  lemma {:induction false} DistinctCount<T>(s: seq<T>)
    ensures |Elements(s)| <= |s|
    ensures Distinct(s) <==> |Elements(s)| == |s|
  {
    if s != [] {
      var f, x := Front(s), Last(s);
      DistinctCount(f);
      assert s == f + [x];
      assert Elements(s) == Elements(f) + {x};
      if x in f {
        var j :| 0 <= j < |f| && f[j] == x;
        assert s[j] == s[|s| - 1];
        assert Elements(s) == Elements(f);
      } else if Distinct(f) {
        assert Distinct(s);
      } else {
        var i, j :| 0 <= i < j < |f| && f[i] == f[j];
        assert s[i] == s[j];
      }
    }
  }

  lemma SubsetOfEqualSize<T>(a: set<T>, b: set<T>)
    requires a <= b && |b| <= |a|
    ensures a == b
  {
    assert |b - a| == |b| - |a|;
  }

  /** Distinct known names, as many as the static plan has steps, are all of them and the static ids are distinct. */
  lemma CleanPlansCover(caps: seq<Text>, known: seq<Text>)
    requires |caps| == |known| && Distinct(caps)
    requires forall c :: c in caps ==> c in known
    ensures Elements(caps) == Elements(known) && Distinct(known)
  {
    DistinctCount(caps);
    DistinctCount(known);
    SubsetOfEqualSize(Elements(caps), Elements(known));
  }

  /** The validator's last check, for a missing capability, can never fire. */
  lemma MissingCapabilityNeverBlamed(plan: PlannerPlan, allowed: set<Text>, goal: Text, reference: WorkflowPlan, cap: Text)
    ensures !Blames(plan, allowed, goal, reference, MissingCapability(cap))
  {
    var caps, known := Caps(plan.steps), Ids(reference.steps);
    assert caps[..|caps|] == caps;
    if WellSized(plan, goal, reference) && CleanUpTo(caps, allowed, known, |caps|) {
      CleanPlansCover(caps, known);
      assert cap in known <==> cap in Elements(known);
      assert cap in caps <==> cap in Elements(caps);
    }
  }

  // ----- The family of sequences within tolerance -----

  function Swap<T>(a: seq<T>, i: nat, j: nat): seq<T>
    requires i < |a| && j < |a|
  {
    a[i := a[j]][j := a[i]]
  }

  function Without<T>(a: seq<T>, i: nat): seq<T>
    requires i < |a|
  {
    a[..i] + a[i + 1..]
  }

  function With<T>(a: seq<T>, i: nat, x: T): seq<T>
    requires i <= |a|
  {
    a[..i] + [x] + a[i..]
  }

  /** `a` with its element at `i` taken out and put back so that it ends up at `j`. */
  function Move<T>(a: seq<T>, i: nat, j: nat): seq<T>
    requires i < |a| && j < |a|
  {
    With(Without(a, i), j, a[i])
  }

  ghost predicate Interior<T>(a: seq<T>, i: nat) {
    0 < i < |a| - 1
  }

  ghost predicate InteriorSwap<T>(a: seq<T>, b: seq<T>) {
    exists i: nat, j: nat :: Interior(a, i) && Interior(a, j) && b == Swap(a, i, j)
  }

  ghost predicate InteriorMove<T>(a: seq<T>, b: seq<T>) {
    exists i: nat, j: nat :: Interior(a, i) && Interior(a, j) && b == Move(a, i, j)
  }

  ghost predicate SomeSwap<T>(a: seq<T>, b: seq<T>) {
    exists i: nat, j: nat :: i < |a| && j < |a| && b == Swap(a, i, j)
  }

  ghost predicate SomeMove<T>(a: seq<T>, b: seq<T>) {
    exists i: nat, j: nat :: i < |a| && j < |a| && b == Move(a, i, j)
  }

  /** Two distinct sequences over the same names. */
  ghost predicate Rearranges<T>(a: seq<T>, b: seq<T>) {
    && |a| == |b| && Distinct(a) && Distinct(b)
    && forall x :: x in b ==> x in a
  }

  // One or two edits between rearrangements, by kind.

  lemma OneSubstitution<T>(a: seq<T>, b: seq<T>, p: nat, x: T)
    requires Rearranges(a, b) && p < |a| && b == a[p := x]
    ensures b == a
  {
    forall k | 0 <= k < |a| && k != p
      ensures a[k] != x
    {
      assert b[k] != b[p];
    }
    assert b[p] in b;
  }

  lemma TwoSubstitutions<T>(a: seq<T>, b: seq<T>, p: nat, x: T, q: nat, y: T)
    requires Rearranges(a, b) && p < |a| && q < |a| && b == a[p := x][q := y]
    ensures SomeSwap(a, b)
  {
    if p == q {
      assert b == a[p := y];
      OneSubstitution(a, b, p, y);
      assert b == Swap(a, p, p);
    } else {
      forall k | 0 <= k < |a| && k != p && k != q
        ensures a[k] != x && a[k] != y
      {
        assert b[k] != b[p] && b[k] != b[q];
      }
      assert b[p] in b && b[q] in b;
      if a[p] == x {
        assert b == Swap(a, p, p);
      } else {
        assert b == Swap(a, p, q);
      }
    }
  }

  lemma InsertedIsNew<T>(s: seq<T>, q: nat, x: T)
    requires q <= |s| && Distinct(With(s, q, x))
    ensures x !in s
  {
    forall r | 0 <= r < |s|
      ensures s[r] != x
    {
      assert With(s, q, x)[q] == x;
      assert With(s, q, x)[if r < q then r else r + 1] == s[r];
    }
  }

  lemma OthersStay<T>(a: seq<T>, p: nat, k: nat)
    requires p < |a| && k < |a| && k != p
    ensures a[k] in Without(a, p)
  {
    assert Without(a, p)[if k < p then k else k - 1] == a[k];
  }

  lemma DeleteThenInsert<T>(a: seq<T>, b: seq<T>, p: nat, q: nat, x: T)
    requires Rearranges(a, b) && p < |a| && q < |a| && b == With(Without(a, p), q, x)
    ensures SomeMove(a, b)
  {
    InsertedIsNew(Without(a, p), q, x);
    forall k: nat | k < |a| && k != p
      ensures a[k] != x
    {
      OthersStay(a, p, k);
    }
    assert b[q] == x && x in b;
    assert b == Move(a, p, q);
  }

  /** Taking out at `q` after putting in at `p` is putting in after taking out. */
  lemma InsertDeleteSame<T>(a: seq<T>, p: nat, x: T)
    requires p <= |a|
    ensures Without(With(a, p, x), p) == a
  {
    var w := With(a, p, x);
    assert w[..p] == a[..p] && w[p + 1..] == a[p..];
    assert a[..p] + a[p..] == a;
  }

  lemma InsertDeleteBefore<T>(a: seq<T>, p: nat, x: T, q: nat)
    requires q < p <= |a|
    ensures Without(With(a, p, x), q) == With(Without(a, q), p - 1, x)
  {
    var w, o := With(a, p, x), Without(a, q);
    var left, right := Without(w, q), With(o, p - 1, x);
    forall k | 0 <= k < |left|
      ensures left[k] == right[k]
    {
      assert left[k] == w[if k < q then k else k + 1];
      assert k < p - 1 ==> right[k] == o[k];
      assert k > p - 1 ==> right[k] == o[k - 1];
    }
  }

  lemma InsertDeleteAfter<T>(a: seq<T>, p: nat, x: T, q: nat)
    requires p < q <= |a|
    ensures Without(With(a, p, x), q) == With(Without(a, q - 1), p, x)
  {
    var w, o := With(a, p, x), Without(a, q - 1);
    var left, right := Without(w, q), With(o, p, x);
    forall k | 0 <= k < |left|
      ensures left[k] == right[k]
    {
      assert left[k] == w[if k < q then k else k + 1];
      assert k < p ==> right[k] == o[k];
      assert k > p ==> right[k] == o[k - 1];
    }
  }

  lemma InsertThenDelete<T>(a: seq<T>, b: seq<T>, p: nat, x: T, q: nat)
    requires Rearranges(a, b) && p <= |a| && q <= |a| && b == Without(With(a, p, x), q)
    ensures b == a || SomeMove(a, b)
  {
    if q == p {
      InsertDeleteSame(a, p, x);
    } else if q < p {
      InsertDeleteBefore(a, p, x, q);
      DeleteThenInsert(a, b, q, p - 1, x);
    } else {
      InsertDeleteAfter(a, p, x, q);
      DeleteThenInsert(a, b, q - 1, p, x);
    }
  }

  /** Any script of at most two edits between rearrangements is a swap or a move. */
  lemma ShortScripts<T>(a: seq<T>, script: seq<Edit<T>>, b: seq<T>)
    requires Rearranges(a, b) && Turns(a, script, b) && |script| <= 2
    ensures b == a || SomeSwap(a, b) || SomeMove(a, b)
    ensures |script| == 1 ==> b == a
  {
    if |script| == 1 {
      var e := script[0];
      assert Turns(Apply(a, e), [], b);
      if e.Substitute? {
        OneSubstitution(a, b, e.at, e.item);
      }
    } else if |script| == 2 {
      assert script[1..][0] == script[1];
      assert Turns(Apply(Apply(a, script[0]), script[1]), script[1..][1..], b);
      TwoEdits(a, script[0], script[1], b);
    }
  }

  lemma TwoEdits<T>(a: seq<T>, e: Edit<T>, f: Edit<T>, b: seq<T>)
    requires Rearranges(a, b)
    requires Applicable(a, e) && Applicable(Apply(a, e), f) && b == Apply(Apply(a, e), f)
    ensures b == a || SomeSwap(a, b) || SomeMove(a, b)
  {
    match (e, f)
    case (Substitute(p, x), Substitute(q, y)) => TwoSubstitutions(a, b, p, x, q, y);
    case (Delete(p), Insert(q, x)) => DeleteThenInsert(a, b, p, q, x);
    case (Insert(p, x), Delete(q)) => InsertThenDelete(a, b, p, x, q);
    case _ =>
  }

  /** A rearrangement is never at distance one. */
  lemma NeverDistanceOne<T>(a: seq<T>, b: seq<T>)
    requires Rearranges(a, b)
    ensures Distance(a, b) != 1
  {
    var script := ShortestScript(a, b);
    if |script| == 1 {
      ShortScripts(a, script, b);
      DistanceZeroIffEqual(a, b);
    }
  }

  lemma SwapWithinTwo<T>(a: seq<T>, i: nat, j: nat)
    requires i < |a| && j < |a|
    ensures Distance(a, Swap(a, i, j)) <= 2
  {
    var script := [Substitute(i, a[j]), Substitute(j, a[i])];
    assert Turns(Apply(Apply(a, script[0]), script[1]), script[1..][1..], Swap(a, i, j));
    assert Turns(a, script, Swap(a, i, j));
    NoShorterScript(a, script, Swap(a, i, j));
  }

  lemma MoveWithinTwo<T>(a: seq<T>, i: nat, j: nat)
    requires i < |a| && j < |a|
    ensures Distance(a, Move(a, i, j)) <= 2
  {
    var script := [Delete(i), Insert(j, a[i])];
    assert Turns(Apply(Apply(a, script[0]), script[1]), script[1..][1..], Move(a, i, j));
    assert Turns(a, script, Move(a, i, j));
    NoShorterScript(a, script, Move(a, i, j));
  }

  ghost predicate SameEnds<T>(a: seq<T>, b: seq<T>) {
    |a| == |b| > 0 && b[0] == a[0] && b[|b| - 1] == a[|a| - 1]
  }

  /** With the ends fixed, a swap or move that changes anything happens in the interior. */
  lemma EndsForceInteriorSwap<T>(a: seq<T>, b: seq<T>, i: nat, j: nat)
    requires Distinct(a) && SameEnds(a, b) && b != a
    requires i < |a| && j < |a| && b == Swap(a, i, j)
    ensures InteriorSwap(a, b)
  {
    assert i != j;
    assert Interior(a, i) && Interior(a, j);
  }

  lemma MoveAtEnds<T>(a: seq<T>, i: nat, j: nat)
    requires i < |a| && j < |a|
    ensures i == j ==> Move(a, i, j) == a
    ensures Move(a, i, j)[j] == a[i]
    ensures i == 0 && j > 0 ==> Move(a, i, j)[0] == a[1]
    ensures i == |a| - 1 && j < i ==> Move(a, i, j)[|a| - 1] == a[|a| - 2]
  {
  }

  lemma EndsForceInteriorMove<T>(a: seq<T>, b: seq<T>, i: nat, j: nat)
    requires Distinct(a) && SameEnds(a, b) && b != a
    requires i < |a| && j < |a| && b == Move(a, i, j)
    ensures InteriorMove(a, b)
  {
    MoveAtEnds(a, i, j);
    assert Interior(a, i) && Interior(a, j);
  }

  lemma EndsForceInterior<T>(a: seq<T>, b: seq<T>)
    requires Distinct(a) && SameEnds(a, b) && b != a
    ensures SomeSwap(a, b) ==> InteriorSwap(a, b)
    ensures SomeMove(a, b) ==> InteriorMove(a, b)
  {
    if SomeSwap(a, b) {
      var i: nat, j: nat :| i < |a| && j < |a| && b == Swap(a, i, j);
      EndsForceInteriorSwap(a, b, i, j);
    }
    if SomeMove(a, b) {
      var i: nat, j: nat :| i < |a| && j < |a| && b == Move(a, i, j);
      EndsForceInteriorMove(a, b, i, j);
    }
  }

  // ----- Adoption -----

  /** The adoption rule over step ids: the same sequence, or distance at most 2 with both ends kept. */
  ghost predicate Adopts<T>(a: seq<T>, b: seq<T>) {
    |a| == |b| && (a == b || (Distance(a, b) <= 2 && SameEnds(a, b)))
  }

  /** Exactly the static sequence, an interior swap of it, or an interior move of it. */
  ghost predicate InFamily<T>(a: seq<T>, b: seq<T>) {
    b == a || InteriorSwap(a, b) || InteriorMove(a, b)
  }

  lemma AdoptedInFamily<T>(a: seq<T>, b: seq<T>)
    requires Rearranges(a, b) && Adopts(a, b)
    ensures InFamily(a, b)
  {
    if b != a {
      var script := ShortestScript(a, b);
      ShortScripts(a, script, b);
      EndsForceInterior(a, b);
    }
  }

  lemma InteriorKeepsEnds<T>(a: seq<T>, i: nat, j: nat)
    requires Interior(a, i) && Interior(a, j)
    ensures SameEnds(a, Swap(a, i, j)) && SameEnds(a, Move(a, i, j))
  {
  }

  lemma FamilyAdopted<T>(a: seq<T>, b: seq<T>)
    requires InFamily(a, b)
    ensures Adopts(a, b)
  {
    if InteriorSwap(a, b) {
      var i: nat, j: nat :| Interior(a, i) && Interior(a, j) && b == Swap(a, i, j);
      InteriorKeepsEnds(a, i, j);
      SwapWithinTwo(a, i, j);
    } else if InteriorMove(a, b) {
      var i: nat, j: nat :| Interior(a, i) && Interior(a, j) && b == Move(a, i, j);
      InteriorKeepsEnds(a, i, j);
      MoveWithinTwo(a, i, j);
    }
  }

  /** Among rearrangements of distinct ids, adoption is membership in the family. */
  lemma AdoptionIsFamily<T>(a: seq<T>, b: seq<T>)
    requires Rearranges(a, b)
    ensures Adopts(a, b) <==> InFamily(a, b)
  {
    if Adopts(a, b) {
      AdoptedInFamily(a, b);
    }
    if InFamily(a, b) {
      FamilyAdopted(a, b);
    }
  }

  method ShouldAdopt(proposed: WorkflowPlan, reference: WorkflowPlan) returns (adopt: bool)
    ensures adopt <==> Adopts(Ids(reference.steps), Ids(proposed.steps))
  {
    var a, b := Ids(reference.steps), Ids(proposed.steps);
    if |a| != |b| { return false; }
    if forall i :: 0 <= i < |a| ==> a[i] == b[i] {
      assert a == b;
      return true;
    }
    var dist := Levenshtein(a, b);
    var endsOk := b[0] == a[0] && b[|b| - 1] == a[|a| - 1];
    return dist <= 2 && endsOk;
  }

  // ----- The whole resolution -----

  datatype PlanSource = Static | Llm | LlmFallback
  datatype Resolution = Resolution(plan: WorkflowPlan, source: PlanSource)

  /** A validated plan realises its capability names one for one. */
  lemma RealisedIds(steps: seq<WorkflowStep>, proposed: seq<PlannerStep>, reference: WorkflowPlan)
    requires RealisesAll(steps, proposed, reference)
    ensures Ids(steps) == Caps(proposed)
  {
  }

  lemma AcceptableRearranges(plan: PlannerPlan, allowed: set<Text>, goal: Text, reference: WorkflowPlan)
    requires Acceptable(plan, allowed, goal, reference)
    ensures Rearranges(Ids(reference.steps), Caps(plan.steps))
  {
    var caps, known := Caps(plan.steps), Ids(reference.steps);
    assert caps[..|caps|] == caps;
    CleanPlansCover(caps, known);
  }

  /** The plan that is run.  `reply` is the parsed answer of the planner model, if there was one.
      The model's plan is run exactly when its capability names, all of them allowed, are the
      static sequence, an interior swap of it or an interior move of it; its steps then keep the
      static retry limits.  In every other case the static plan is run unchanged. */
  method Resolve(llmEnabled: bool, userGoal: Text, reply: Option<PlannerPlan>,
                 allowed: set<Text>, goal: Text, reference: WorkflowPlan)
    returns (r: Resolution)
    ensures r.source == Llm <==>
            && llmEnabled && Trim(userGoal) != [] && reply.Some?
            && Acceptable(reply.value, allowed, goal, reference)
            && InFamily(Ids(reference.steps), Caps(reply.value.steps))
    ensures r.source == Llm ==> r.plan.goalId == reference.goalId && RealisesAll(r.plan.steps, reply.value.steps, reference)
    ensures r.source == Llm ==> InFamily(Ids(reference.steps), Ids(r.plan.steps))
    ensures r.source != Llm ==> r.plan == reference
    ensures r.source == Static <==> !llmEnabled || Trim(userGoal) == []
  {
    if !llmEnabled || Trim(userGoal) == [] {
      return Resolution(reference, Static);
    }
    if reply.None? {
      return Resolution(reference, LlmFallback);
    }
    var v := Validate(reply.value, allowed, goal, reference);
    if v.Invalid? {
      return Resolution(reference, LlmFallback);
    }
    RealisedIds(v.plan.steps, reply.value.steps, reference);
    AcceptableRearranges(reply.value, allowed, goal, reference);
    AdoptionIsFamily(Ids(reference.steps), Ids(v.plan.steps));
    var adopt := ShouldAdopt(v.plan, reference);
    if !adopt {
      return Resolution(reference, LlmFallback);
    }
    return Resolution(v.plan, Llm);
  }
}

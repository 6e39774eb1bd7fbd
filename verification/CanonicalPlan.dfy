/** hex-executor-console-backend/src/safekeep/canonicalPlan.ts: the canonical text of a JSON
    value, the canonical plan, and the approval hash over it.
 */
module CanonicalPlan {
  import opened Texts
  import opened Json

  // ----- Sorting object keys -----

  ghost predicate DistinctKeys(fs: seq<Field>) {
    forall i, j :: 0 <= i < j < |fs| ==> fs[i].key != fs[j].key
  }

  ghost predicate KeysAscend(fs: seq<Field>) {
    forall i, j :: 0 <= i < j < |fs| ==> Before(fs[i].key, fs[j].key)
  }

  function PutField(f: Field, fs: seq<Field>): seq<Field> {
    if fs == [] then [f]
    else if AtMost(f.key, fs[0].key) then [f] + fs
    else [fs[0]] + PutField(f, fs[1..])
  }

  function SortFields(fs: seq<Field>): seq<Field> {
    if fs == [] then [] else PutField(fs[0], SortFields(fs[1..]))
  }

  /** Objects have each key once, at every level. */
  ghost predicate WellFormed(v: Value)
    decreases v
  {
    match v
    case Arr(items) => forall i :: 0 <= i < |items| ==> WellFormed(items[i])
    case Obj(fields) =>
      && DistinctKeys(fields)
      && forall i :: 0 <= i < |fields| ==> WellFormed(fields[i].value)
    case _ => true
  }

  // ----- The canonical text -----

  /** The value whose plain printing is the canonical text: keys sorted at every level, and the
      host language's `undefined` replaced by the word. */
  function Normal(v: Value): Value
    decreases v
  {
    match v
    case Undefined => Str(Lit("undefined"))
    case Arr(items) => Arr(seq(|items|, i requires 0 <= i < |items| => Normal(items[i])))
    case Obj(fields) =>
      Obj(SortFields(seq(|fields|, i requires 0 <= i < |fields| => Field(fields[i].key, Normal(fields[i].value)))))
    case _ => v
  }

  function Canonical(v: Value): Text {
    Print(Normal(v))
  }

  // ----- Equality up to key order -----

  function Plain(v: Value): Value {
    if v.Undefined? then Str(Lit("undefined")) else v
  }

  ghost predicate SameKeys(fs: seq<Field>, gs: seq<Field>) {
    && (forall i :: 0 <= i < |fs| ==> HasKey(gs, fs[i].key))
    && (forall j :: 0 <= j < |gs| ==> HasKey(fs, gs[j].key))
  }

  ghost predicate HasKey(fs: seq<Field>, key: Text) {
    exists i :: 0 <= i < |fs| && fs[i].key == key
  }

  /** Equal up to the order of object keys; `undefined` counts as the word "undefined". */
  ghost predicate Same(v: Value, w: Value)
    decreases v
  {
    match (v, w)
    case (Arr(xs), Arr(ys)) => |xs| == |ys| && forall i :: 0 <= i < |xs| ==> Same(xs[i], ys[i])
    case (Obj(fs), Obj(gs)) =>
      && SameKeys(fs, gs)
      && forall i, j :: 0 <= i < |fs| && 0 <= j < |gs| && fs[i].key == gs[j].key ==> Same(fs[i].value, gs[j].value)
    case _ => Plain(v) == Plain(w)
  }

  // ----- Sorting facts -----

  ghost function FieldSet(fs: seq<Field>): set<Field> {
    set f | f in fs
  }

  lemma {:induction false} PutFieldSorts(f: Field, fs: seq<Field>)
    requires KeysAscend(fs) && forall i :: 0 <= i < |fs| ==> fs[i].key != f.key
    ensures KeysAscend(PutField(f, fs)) && FieldSet(PutField(f, fs)) == FieldSet(fs) + {f}
  {
    if fs == [] {
    } else if AtMost(f.key, fs[0].key) {
      forall j | 0 <= j < |fs|
        ensures Before(f.key, fs[j].key)
      {
        if j > 0 {
          BeforeTransitive(f.key, fs[0].key, fs[j].key);
        }
      }
    } else {
      var t := PutField(f, fs[1..]);
      PutFieldSorts(f, fs[1..]);
      BeforeTotal(f.key, fs[0].key);
      assert fs == [fs[0]] + fs[1..];
      assert FieldSet(fs) == FieldSet(fs[1..]) + {fs[0]};
      forall j | 0 <= j < |t|
        ensures Before(fs[0].key, t[j].key)
      {
        assert t[j] in FieldSet(t);
      }
      assert FieldSet([fs[0]] + t) == {fs[0]} + FieldSet(t);
    }
  }

  lemma {:induction false} SortFieldsSorts(fs: seq<Field>)
    requires DistinctKeys(fs)
    ensures KeysAscend(SortFields(fs)) && FieldSet(SortFields(fs)) == FieldSet(fs)
  {
    if fs != [] {
      var rest := SortFields(fs[1..]);
      SortFieldsSorts(fs[1..]);
      forall i | 0 <= i < |rest|
        ensures rest[i].key != fs[0].key
      {
        assert rest[i] in FieldSet(fs[1..]);
      }
      PutFieldSorts(fs[0], rest);
      assert fs == [fs[0]] + fs[1..];
      assert FieldSet(fs) == FieldSet(fs[1..]) + {fs[0]};
    }
  }

  lemma HeadIsLeast(fs: seq<Field>, f: Field)
    requires KeysAscend(fs) && fs != [] && f in FieldSet(fs)
    ensures AtMost(fs[0].key, f.key) && (f.key == fs[0].key ==> f == fs[0])
  {
    var i :| 0 <= i < |fs| && fs[i] == f;
    BeforeIrreflexive(f.key);
  }

  lemma {:induction false} AscendingFieldsUnique(fs: seq<Field>, gs: seq<Field>)
    requires KeysAscend(fs) && KeysAscend(gs) && FieldSet(fs) == FieldSet(gs)
    ensures fs == gs
  {
    assert gs == [] || gs[0] in FieldSet(gs);
    if fs != [] {
      assert fs[0] in FieldSet(fs);
      HeadIsLeast(fs, gs[0]);
      HeadIsLeast(gs, fs[0]);
      BeforeTotal(fs[0].key, gs[0].key);
      assert fs[0] == gs[0];
      TailSet(fs);
      TailSet(gs);
      AscendingFieldsUnique(fs[1..], gs[1..]);
    }
  }

  lemma TailSet(fs: seq<Field>)
    requires KeysAscend(fs) && fs != []
    ensures FieldSet(fs[1..]) == FieldSet(fs) - {fs[0]}
  {
    assert fs == [fs[0]] + fs[1..];
    BeforeIrreflexive(fs[0].key);
  }

  /** The same keys carry the same values. */
  ghost predicate Agree(fs: seq<Field>, gs: seq<Field>) {
    && SameKeys(fs, gs)
    && forall i, j :: 0 <= i < |fs| && 0 <= j < |gs| && fs[i].key == gs[j].key ==> fs[i].value == gs[j].value
  }

  lemma AgreeingIncluded(fs: seq<Field>, gs: seq<Field>)
    requires Agree(fs, gs)
    ensures FieldSet(fs) <= FieldSet(gs)
  {
    forall f | f in FieldSet(fs)
      ensures f in FieldSet(gs)
    {
      var i :| 0 <= i < |fs| && fs[i] == f;
      var j :| 0 <= j < |gs| && gs[j].key == fs[i].key;
      assert gs[j] == f;
    }
  }

  /** With distinct keys, equal as sets of fields iff the same keys carry the same values. */
  lemma FieldSetsEqual(fs: seq<Field>, gs: seq<Field>)
    requires DistinctKeys(fs) && DistinctKeys(gs)
    ensures FieldSet(fs) == FieldSet(gs) <==> Agree(fs, gs)
  {
    if FieldSet(fs) == FieldSet(gs) {
      forall i | 0 <= i < |fs|
        ensures fs[i] in gs
      {
        assert fs[i] in FieldSet(gs);
      }
      forall j | 0 <= j < |gs|
        ensures gs[j] in fs
      {
        assert gs[j] in FieldSet(fs);
      }
    }
    if Agree(fs, gs) {
      AgreeingIncluded(fs, gs);
      AgreeingIncluded(gs, fs);
    }
  }

  /** Two values normalise alike iff they are the same up to key order. */
  lemma {:induction false} NormalIffSame(v: Value, w: Value)
    requires WellFormed(v) && WellFormed(w)
    ensures Normal(v) == Normal(w) <==> Same(v, w)
    decreases v
  {
    match (v, w)
    case (Arr(xs), Arr(ys)) =>
      forall i | 0 <= i < |xs| && i < |ys|
        ensures Normal(xs[i]) == Normal(ys[i]) <==> Same(xs[i], ys[i])
      {
        NormalIffSame(xs[i], ys[i]);
      }
      ArraysNormalise(xs, ys);
    case (Obj(fs), Obj(gs)) =>
      forall i, j | 0 <= i < |fs| && 0 <= j < |gs|
        ensures Normal(fs[i].value) == Normal(gs[j].value) <==> Same(fs[i].value, gs[j].value)
      {
        NormalIffSame(fs[i].value, gs[j].value);
      }
      ObjectsNormalise(fs, gs);
    case _ =>
  }

  function NormalFields(fs: seq<Field>): (r: seq<Field>)
    ensures |r| == |fs| && forall i :: 0 <= i < |fs| ==> r[i] == Field(fs[i].key, Normal(fs[i].value))
  {
    seq(|fs|, i requires 0 <= i < |fs| => Field(fs[i].key, Normal(fs[i].value)))
  }

  lemma ArraysNormalise(xs: seq<Value>, ys: seq<Value>)
    ensures Normal(Arr(xs)) == Normal(Arr(ys)) <==>
            |xs| == |ys| && forall i :: 0 <= i < |xs| ==> Normal(xs[i]) == Normal(ys[i])
  {
    var a, b := Normal(Arr(xs)).items, Normal(Arr(ys)).items;
    assert |a| == |xs| && forall i :: 0 <= i < |xs| ==> a[i] == Normal(xs[i]);
    assert |b| == |ys| && forall i :: 0 <= i < |ys| ==> b[i] == Normal(ys[i]);
  }

  lemma SortedAgree(f: seq<Field>, g: seq<Field>)
    requires DistinctKeys(f) && DistinctKeys(g)
    ensures SortFields(f) == SortFields(g) <==> Agree(f, g)
  {
    SortFieldsSorts(f);
    SortFieldsSorts(g);
    FieldSetsEqual(f, g);
    if FieldSet(f) == FieldSet(g) {
      AscendingFieldsUnique(SortFields(f), SortFields(g));
    }
  }

  lemma ObjectsNormalise(fs: seq<Field>, gs: seq<Field>)
    requires DistinctKeys(fs) && DistinctKeys(gs)
    ensures Normal(Obj(fs)) == Normal(Obj(gs)) <==>
            && SameKeys(fs, gs)
            && forall i, j :: 0 <= i < |fs| && 0 <= j < |gs| && fs[i].key == gs[j].key ==>
                 Normal(fs[i].value) == Normal(gs[j].value)
  {
    var f, g := NormalFields(fs), NormalFields(gs);
    assert Normal(Obj(fs)) == Obj(SortFields(f)) && Normal(Obj(gs)) == Obj(SortFields(g));
    SortedAgree(f, g);
    NormalKeys(fs, gs);
  }

  lemma NormalKeys(fs: seq<Field>, gs: seq<Field>)
    ensures SameKeys(fs, gs) <==> SameKeys(NormalFields(fs), NormalFields(gs))
  {
    var f, g := NormalFields(fs), NormalFields(gs);
    forall k: Text
      ensures HasKey(fs, k) <==> HasKey(f, k)
      ensures HasKey(gs, k) <==> HasKey(g, k)
    {
      if HasKey(fs, k) { var i :| 0 <= i < |fs| && fs[i].key == k; assert f[i].key == k; }
      if HasKey(gs, k) { var i :| 0 <= i < |gs| && gs[i].key == k; assert g[i].key == k; }
    }
    assert forall i :: 0 <= i < |fs| ==> fs[i].key == f[i].key;
    assert forall j :: 0 <= j < |gs| ==> gs[j].key == g[j].key;
  }

  lemma {:induction false} NormalDefined(v: Value)
    requires WellFormed(v)
    ensures Defined(Normal(v))
    decreases v
  {
    match v
    case Arr(items) =>
      forall i | 0 <= i < |items|
        ensures Defined(Normal(items[i]))
      {
        NormalDefined(items[i]);
      }
    case Obj(fields) =>
      var f := NormalFields(fields);
      forall i | 0 <= i < |fields|
        ensures Defined(f[i].value)
      {
        NormalDefined(fields[i].value);
      }
      SortFieldsSorts(f);
      var s := SortFields(f);
      assert Normal(v) == Obj(s);
      forall i | 0 <= i < |s|
        ensures Defined(s[i].value)
      {
        assert s[i] in FieldSet(f);
      }
    case _ =>
  }

  /** The canonical text is a faithful name: two values print alike exactly when they are equal
      up to the order of object keys. */
  lemma CanonicalIffSame(v: Value, w: Value)
    requires WellFormed(v) && WellFormed(w)
    ensures Canonical(v) == Canonical(w) <==> Same(v, w)
  {
    NormalDefined(v);
    NormalDefined(w);
    PrintInjective(Normal(v), Normal(w));
    NormalIffSame(v, w);
  }

  /** What is printed for an object: each of its keys once, in ascending order, with its value made
      canonical. */
  lemma CanonicalObject(fields: seq<Field>)
    requires DistinctKeys(fields)
    ensures var sorted := SortFields(NormalFields(fields));
            && Canonical(Obj(fields)) == Print(Obj(sorted)) && KeysAscend(sorted)
            && forall f :: f in sorted <==> exists i :: 0 <= i < |fields| && f == Field(fields[i].key, Normal(fields[i].value))
  {
    var normal := NormalFields(fields);
    var sorted := SortFields(normal);
    SortFieldsSorts(normal);
    assert Normal(Obj(fields)) == Obj(sorted);
    forall f
      ensures f in sorted <==> exists i :: 0 <= i < |fields| && f == Field(fields[i].key, Normal(fields[i].value))
    {
      assert f in sorted <==> f in FieldSet(sorted);
      assert f in normal <==> f in FieldSet(normal);
      if i :| 0 <= i < |fields| && f == Field(fields[i].key, Normal(fields[i].value)) {
        assert normal[i] == f;
      }
    }
  }

  /** Where the clause about `undefined` bites: the host value and the word print alike. */
  lemma UndefinedCollides()
    ensures Canonical(Undefined) == Canonical(Str(Lit("undefined"))) && Undefined != Str(Lit("undefined"))
  {
  }

  // ----- The canonical plan -----

  datatype Action = Action(
    category: Text,
    intent: Text,
    mutationKind: Text,
    isMutating: bool,
    requiresApproval: bool,
    internalHighRisk: bool)

  datatype PreviewParts = PreviewParts(
    affectedPaths: seq<Text>,
    fileCount: int,
    totalBytes: int,
    overwriteTargets: seq<Text>)

  datatype CanonicalPlan = CanonicalPlan(
    category: Text,
    intent: Text,
    mutationKind: Text,
    affectedPaths: seq<Text>,
    overwriteTargets: seq<Text>,
    fileCount: int,
    totalBytes: int,
    requiresApproval: bool,
    internalHighRisk: bool,
    workspaceRoot: Text)

  /** `n | 0`: the low 32 bits, read as a signed number. */
  function ToInt32(n: int): (r: int)
    ensures -0x8000_0000 <= r < 0x8000_0000
  {
    (n + 0x8000_0000) % 0x1_0000_0000 - 0x8000_0000
  }

  function Normalised(norm: Text -> Text, paths: seq<Text>): seq<Text> {
    seq(|paths|, i requires 0 <= i < |paths| => norm(paths[i]))
  }

  /** `norm` is the path normalisation of the platform. */
  function BuildCanonicalPlan(norm: Text -> Text, action: Action, parts: PreviewParts, workspaceRoot: Text): CanonicalPlan {
    CanonicalPlan(
      action.category,
      action.intent,
      action.mutationKind,
      Sort(Normalised(norm, parts.affectedPaths)),
      Sort(Normalised(norm, parts.overwriteTargets)),
      ToInt32(parts.fileCount),
      ToInt32(parts.totalBytes),
      action.requiresApproval,
      action.internalHighRisk,
      norm(workspaceRoot))
  }

  const PLAN_KEYS: seq<Text> := [
    Lit("category"), Lit("intent"), Lit("mutationKind"), Lit("affectedPaths"), Lit("overwriteTargets"),
    Lit("fileCount"), Lit("totalBytes"), Lit("requiresApproval"), Lit("internalHighRisk"), Lit("workspaceRoot")]

  function PlanJson(p: CanonicalPlan): Value {
    Obj([
      Field(PLAN_KEYS[0], Str(p.category)),
      Field(PLAN_KEYS[1], Str(p.intent)),
      Field(PLAN_KEYS[2], Str(p.mutationKind)),
      Field(PLAN_KEYS[3], Strings(p.affectedPaths)),
      Field(PLAN_KEYS[4], Strings(p.overwriteTargets)),
      Field(PLAN_KEYS[5], Num(p.fileCount)),
      Field(PLAN_KEYS[6], Num(p.totalBytes)),
      Field(PLAN_KEYS[7], Bool(p.requiresApproval)),
      Field(PLAN_KEYS[8], Bool(p.internalHighRisk)),
      Field(PLAN_KEYS[9], Str(p.workspaceRoot))])
  }

  function PlanText(p: CanonicalPlan): Text {
    Canonical(PlanJson(p))
  }

  function PlanHash(h: Text -> Text, norm: Text -> Text, action: Action, parts: PreviewParts, workspaceRoot: Text): Text {
    h(PlanText(BuildCanonicalPlan(norm, action, parts, workspaceRoot)))
  }

  /** The ten entries of a canonical plan, by name: which part of action, preview and workspace each
      one holds. */
  lemma PlanEntries(norm: Text -> Text, action: Action, parts: PreviewParts, ws: Text)
    ensures var fs := PlanJson(BuildCanonicalPlan(norm, action, parts, ws)).fields;
            && |fs| == 10
            && fs[0] == Field(Lit("category"), Str(action.category)) && fs[1] == Field(Lit("intent"), Str(action.intent))
            && fs[2] == Field(Lit("mutationKind"), Str(action.mutationKind))
            && fs[5] == Field(Lit("fileCount"), Num(ToInt32(parts.fileCount)))
            && fs[6] == Field(Lit("totalBytes"), Num(ToInt32(parts.totalBytes)))
            && fs[7] == Field(Lit("requiresApproval"), Bool(action.requiresApproval))
            && fs[8] == Field(Lit("internalHighRisk"), Bool(action.internalHighRisk))
            && fs[9] == Field(Lit("workspaceRoot"), Str(norm(ws)))
    ensures exists affected, overwritten ::
              && PlanJson(BuildCanonicalPlan(norm, action, parts, ws)).fields[3] == Field(Lit("affectedPaths"), Strings(affected))
              && PlanJson(BuildCanonicalPlan(norm, action, parts, ws)).fields[4] == Field(Lit("overwriteTargets"), Strings(overwritten))
              && Ascending(affected) && multiset(affected) == multiset(Normalised(norm, parts.affectedPaths))
              && Ascending(overwritten) && multiset(overwritten) == multiset(Normalised(norm, parts.overwriteTargets))
  {
    SortSorts(Normalised(norm, parts.affectedPaths));
    SortSorts(Normalised(norm, parts.overwriteTargets));
  }

  // ----- What the approval hash binds -----

  /** Length and first unit tell the ten keys apart. */
  lemma PlanKeysApart()
    ensures forall i, j :: 0 <= i < j < |PLAN_KEYS| ==> PLAN_KEYS[i] != PLAN_KEYS[j]
  {
    var ks := PLAN_KEYS;
    assert forall i :: 0 <= i < 10 ==> |ks[i]| == [8, 6, 12, 13, 16, 9, 10, 16, 16, 13][i];
    assert ks[3][0] == 'a' as int && ks[9][0] == 'w' as int;
    assert ks[4][0] == 'o' as int && ks[7][0] == 'r' as int && ks[8][0] == 'i' as int;
  }

  lemma PlanKeysInPlace(p: CanonicalPlan)
    ensures PlanJson(p).Obj? && |PlanJson(p).fields| == |PLAN_KEYS|
    ensures forall i :: 0 <= i < |PLAN_KEYS| ==> PlanJson(p).fields[i].key == PLAN_KEYS[i]
  {
  }

  lemma PlanKeysDistinct(p: CanonicalPlan)
    ensures WellFormed(PlanJson(p))
  {
    PlanKeysApart();
    PlanKeysInPlace(p);
  }

  lemma SameStrings(s: seq<Text>, t: seq<Text>)
    requires Same(Strings(s), Strings(t))
    ensures s == t
  {
    var a, b := Strings(s).items, Strings(t).items;
    forall i | 0 <= i < |s|
      ensures s[i] == t[i]
    {
      assert a[i] == Str(s[i]) && b[i] == Str(t[i]);
      assert Same(a[i], b[i]);
    }
  }

  /** Different canonical plans never share a text. */
  lemma PlanTextIdentifies(p: CanonicalPlan, q: CanonicalPlan)
    ensures PlanText(p) == PlanText(q) <==> p == q
  {
    PlanKeysDistinct(p);
    PlanKeysDistinct(q);
    CanonicalIffSame(PlanJson(p), PlanJson(q));
    if Same(PlanJson(p), PlanJson(q)) {
      SamePlans(p, q);
    }
  }

  lemma PlansSameAt(p: CanonicalPlan, q: CanonicalPlan)
    requires Same(PlanJson(p), PlanJson(q))
    ensures forall i :: 0 <= i < 10 ==> SameAt(PlanJson(p), PlanJson(q), i)
  {
    PlanKeysInPlace(p);
    PlanKeysInPlace(q);
    SameFieldValues(PlanJson(p), PlanJson(q), PLAN_KEYS);
  }

  lemma SamePlans(p: CanonicalPlan, q: CanonicalPlan)
    requires Same(PlanJson(p), PlanJson(q))
    ensures p == q
  {
    PlansSameAt(p, q);
    SameTextValues(p, q);
    SameOtherValues(p, q);
  }

  ghost predicate SameAt(v: Value, w: Value, i: nat) {
    v.Obj? && w.Obj? && i < |v.fields| && i < |w.fields| && Same(v.fields[i].value, w.fields[i].value)
  }

  /** Objects with the same keys in the same places that are the same have the same values there. */
  lemma SameFieldValues(v: Value, w: Value, keys: seq<Text>)
    requires v.Obj? && w.Obj? && Same(v, w)
    requires |v.fields| == |keys| && forall i :: 0 <= i < |keys| ==> v.fields[i].key == keys[i]
    requires |w.fields| == |keys| && forall i :: 0 <= i < |keys| ==> w.fields[i].key == keys[i]
    ensures forall i :: 0 <= i < |keys| ==> SameAt(v, w, i)
  {
  }

  lemma SameTextValues(p: CanonicalPlan, q: CanonicalPlan)
    requires forall i :: 0 <= i < 10 ==> SameAt(PlanJson(p), PlanJson(q), i)
    ensures p.category == q.category && p.intent == q.intent && p.mutationKind == q.mutationKind
    ensures p.workspaceRoot == q.workspaceRoot
  {
    var v, w := PlanJson(p), PlanJson(q);
    assert SameAt(v, w, 0) && SameAt(v, w, 1) && SameAt(v, w, 2) && SameAt(v, w, 9);
  }

  lemma SameOtherValues(p: CanonicalPlan, q: CanonicalPlan)
    requires forall i :: 0 <= i < 10 ==> SameAt(PlanJson(p), PlanJson(q), i)
    ensures p.affectedPaths == q.affectedPaths && p.overwriteTargets == q.overwriteTargets
    ensures p.fileCount == q.fileCount && p.totalBytes == q.totalBytes
    ensures p.requiresApproval == q.requiresApproval && p.internalHighRisk == q.internalHighRisk
  {
    var v, w := PlanJson(p), PlanJson(q);
    assert SameAt(v, w, 3) && SameAt(v, w, 4);
    SameStrings(p.affectedPaths, q.affectedPaths);
    SameStrings(p.overwriteTargets, q.overwriteTargets);
    assert SameAt(v, w, 5) && SameAt(v, w, 6) && SameAt(v, w, 7) && SameAt(v, w, 8);
  }

  /** What two approvals share when they share a hash: everything but the order of the paths and
      the bits of the two counters beyond the 32 kept. */
  ghost predicate SameApproval(norm: Text -> Text, a: Action, p: PreviewParts, ws: Text, b: Action, q: PreviewParts, xs: Text) {
    && a.category == b.category && a.intent == b.intent && a.mutationKind == b.mutationKind
    && a.requiresApproval == b.requiresApproval && a.internalHighRisk == b.internalHighRisk
    && multiset(Normalised(norm, p.affectedPaths)) == multiset(Normalised(norm, q.affectedPaths))
    && multiset(Normalised(norm, p.overwriteTargets)) == multiset(Normalised(norm, q.overwriteTargets))
    && ToInt32(p.fileCount) == ToInt32(q.fileCount) && ToInt32(p.totalBytes) == ToInt32(q.totalBytes)
    && norm(ws) == norm(xs)
  }

  lemma ApprovalHashBinds(h: Text -> Text, norm: Text -> Text,
                          a: Action, p: PreviewParts, ws: Text, b: Action, q: PreviewParts, xs: Text)
    requires Ideal(h)
    ensures PlanHash(h, norm, a, p, ws) == PlanHash(h, norm, b, q, xs) <==> SameApproval(norm, a, p, ws, b, q, xs)
  {
    var c, d := BuildCanonicalPlan(norm, a, p, ws), BuildCanonicalPlan(norm, b, q, xs);
    PlanTextIdentifies(c, d);
    SortIsOrderBlind(Normalised(norm, p.affectedPaths), Normalised(norm, q.affectedPaths));
    SortIsOrderBlind(Normalised(norm, p.overwriteTargets), Normalised(norm, q.overwriteTargets));
    assert h(PlanText(c)) == h(PlanText(d)) <==> PlanText(c) == PlanText(d);
  }

  /** Listing the same paths in another order never changes the hash. */
  lemma PathOrderIrrelevant(h: Text -> Text, norm: Text -> Text, a: Action, p: PreviewParts, q: PreviewParts, ws: Text)
    requires multiset(p.affectedPaths) == multiset(q.affectedPaths)
    requires multiset(p.overwriteTargets) == multiset(q.overwriteTargets)
    requires p.fileCount == q.fileCount && p.totalBytes == q.totalBytes
    ensures PlanHash(h, norm, a, p, ws) == PlanHash(h, norm, a, q, ws)
  {
    NormalisedBag(norm, p.affectedPaths, q.affectedPaths);
    NormalisedBag(norm, p.overwriteTargets, q.overwriteTargets);
    SortIsOrderBlind(Normalised(norm, p.affectedPaths), Normalised(norm, q.affectedPaths));
    SortIsOrderBlind(Normalised(norm, p.overwriteTargets), Normalised(norm, q.overwriteTargets));
  }

  lemma {:induction false} NormalisedBag(norm: Text -> Text, s: seq<Text>, t: seq<Text>)
    requires multiset(s) == multiset(t)
    ensures multiset(Normalised(norm, s)) == multiset(Normalised(norm, t))
    decreases |s|
  {
    if s == [] {
      assert |multiset(t)| == |t|;
      assert t == [];
    } else {
      var k := IndexIn(s[0], s, t);
      NormalisedTakenOut(norm, s, 0);
      NormalisedTakenOut(norm, t, k);
      NormalisedBag(norm, TakenOut(s, 0), TakenOut(t, k));
    }
  }

  lemma IndexIn(x: Text, s: seq<Text>, t: seq<Text>) returns (k: nat)
    requires multiset(s) == multiset(t) && x in s
    ensures k < |t| && t[k] == x
  {
    assert x in multiset(t);
    k :| 0 <= k < |t| && t[k] == x;
  }

  function TakenOut(t: seq<Text>, k: nat): (rest: seq<Text>)
    requires k < |t|
    ensures multiset(rest) == multiset(t) - multiset{t[k]} && |rest| == |t| - 1
  {
    assert t == t[..k] + [t[k]] + t[k + 1..];
    t[..k] + t[k + 1..]
  }

  lemma NormalisedTakenOut(norm: Text -> Text, t: seq<Text>, k: nat)
    requires k < |t|
    ensures multiset(Normalised(norm, t)) == multiset(Normalised(norm, TakenOut(t, k))) + multiset{norm(t[k])}
  {
    var all := Normalised(norm, t);
    assert TakenOut(all, k) == Normalised(norm, TakenOut(t, k));
    assert all[k] in multiset(all);
  }

  /** Truncation to 32 bits loses nothing exactly below 2^31. */
  lemma TruncationLossless(n: nat)
    ensures ToInt32(n) == n <==> n < 0x8000_0000
  {
  }

  /** Below 2^32 it still tells two counters apart. */
  lemma TruncationInjective(m: nat, n: nat)
    requires m < 0x1_0000_0000 && n < 0x1_0000_0000
    ensures ToInt32(m) == ToInt32(n) <==> m == n
  {
  }

  /** Beyond that two different byte totals are approved by one hash. */
  lemma TruncatedTotalsCollide(h: Text -> Text, norm: Text -> Text, a: Action, p: PreviewParts, ws: Text)
    ensures PlanHash(h, norm, a, p, ws) ==
            PlanHash(h, norm, a, p.(totalBytes := p.totalBytes + 0x1_0000_0000), ws)
  {
    assert ToInt32(p.totalBytes + 0x1_0000_0000) == ToInt32(p.totalBytes);
  }
}

/** The edit distance of hex-executor-console-backend/src/planner/planDiff.ts.

    `Levenshtein` is the nested-loop table.  It is proved to return the length of a
    shortest script of single-element insertions, deletions and substitutions that turns
    one sequence into the other; the recurrence `Distance` is only the bridge.
 */
module EditDistance {

  // ----- Scripts: what the distance counts -----

  datatype Edit<T> = Insert(at: nat, item: T) | Delete(at: nat) | Substitute(at: nat, item: T)

  predicate Applicable<T>(s: seq<T>, e: Edit<T>) {
    match e
    case Insert(at, _) => at <= |s|
    case Delete(at) => at < |s|
    case Substitute(at, _) => at < |s|
  }

  function Apply<T>(s: seq<T>, e: Edit<T>): seq<T>
    requires Applicable(s, e)
  {
    match e
    case Insert(at, x) => s[..at] + [x] + s[at..]
    case Delete(at) => s[..at] + s[at + 1..]
    case Substitute(at, x) => s[at := x]
  }

  /** `script` applies to `a`, one edit after the other, and ends in `b`. */
  predicate Turns<T(==)>(a: seq<T>, script: seq<Edit<T>>, b: seq<T>)
    decreases |script|
  {
    if script == [] then a == b
    else Applicable(a, script[0]) && Turns(Apply(a, script[0]), script[1..], b)
  }

  // ----- The recurrence the table tabulates -----

  function Min3(x: nat, y: nat, z: nat): nat {
    if x <= y && x <= z then x else if y <= z then y else z
  }

  function Cost<T(==)>(x: T, y: T): nat {
    if x == y then 0 else 1
  }

  function Front<T>(s: seq<T>): seq<T>
    requires s != []
  {
    s[..|s| - 1]
  }

  function Last<T>(s: seq<T>): T
    requires s != []
  {
    s[|s| - 1]
  }

  function Distance<T(==)>(a: seq<T>, b: seq<T>): nat
    decreases |a| + |b|
  {
    if a == [] then |b|
    else if b == [] then |a|
    else Min3(Distance(Front(a), b) + 1,
              Distance(a, Front(b)) + 1,
              Distance(Front(a), Front(b)) + Cost(Last(a), Last(b)))
  }

  // ----- A script of that length exists -----

  lemma EditIgnoresTail<T>(a: seq<T>, e: Edit<T>, tail: seq<T>)
    requires Applicable(a, e)
    ensures Applicable(a + tail, e) && Apply(a + tail, e) == Apply(a, e) + tail
  {
  }

  /** A script that works on `a` works on `a + tail` and leaves the tail alone. */
  lemma {:induction false} ScriptIgnoresTail<T>(a: seq<T>, script: seq<Edit<T>>, b: seq<T>, tail: seq<T>)
    requires Turns(a, script, b)
    ensures Turns(a + tail, script, b + tail)
    decreases |script|
  {
    if script != [] {
      var next := Apply(a, script[0]);
      EditIgnoresTail(a, script[0], tail);
      ScriptIgnoresTail(next, script[1..], b, tail);
    }
  }

  lemma {:induction false} ScriptThen<T>(a: seq<T>, script: seq<Edit<T>>, b: seq<T>, e: Edit<T>)
    requires Turns(a, script, b) && Applicable(b, e)
    ensures Turns(a, script + [e], Apply(b, e))
    decreases |script|
  {
    if script == [] {
      assert Turns(Apply(a, e), [], Apply(b, e));
    } else {
      ScriptThen(Apply(a, script[0]), script[1..], b, e);
      assert (script + [e])[1..] == script[1..] + [e];
    }
  }

  /** Prolonging a script from `a` to `b` by the three last edits the recurrence chooses from. */
  lemma ThenInsertLast<T>(a: seq<T>, s: seq<Edit<T>>, b: seq<T>) returns (script: seq<Edit<T>>)
    requires b != [] && Turns(a, s, Front(b))
    ensures Turns(a, script, b) && |script| == |s| + 1
  {
    var e := Insert(|b| - 1, Last(b));
    script := s + [e];
    ScriptThen(a, s, Front(b), e);
    assert Apply(Front(b), e) == b;
  }

  lemma FirstDeleteLast<T>(a: seq<T>, s: seq<Edit<T>>, b: seq<T>) returns (script: seq<Edit<T>>)
    requires a != [] && Turns(Front(a), s, b)
    ensures Turns(a, script, b) && |script| == |s| + 1
  {
    var e: Edit<T> := Delete(|a| - 1);
    script := [e] + s;
    assert Apply(a, e) == Front(a);
    assert script[1..] == s;
  }

  lemma ThenMatchLast<T>(a: seq<T>, s: seq<Edit<T>>, b: seq<T>) returns (script: seq<Edit<T>>)
    requires a != [] && b != [] && Turns(Front(a), s, Front(b))
    ensures Turns(a, script, b) && |script| == |s| + Cost(Last(a), Last(b))
  {
    var x, y := Last(a), Last(b);
    var mid := Front(b) + [x];
    assert Front(a) + [x] == a && Front(b) + [y] == b;
    ScriptIgnoresTail(Front(a), s, Front(b), [x]);
    script := s;
    if x != y {
      var e := Substitute(|b| - 1, y);
      assert Apply(mid, e) == b;
      ScriptThen(a, s, mid, e);
      script := s + [e];
    }
  }

  /** The recurrence is achieved: some script of exactly that many edits turns `a` into `b`. */
  lemma {:induction false} ShortestScript<T>(a: seq<T>, b: seq<T>) returns (script: seq<Edit<T>>)
    ensures Turns(a, script, b) && |script| == Distance(a, b)
    decreases |a| + |b|
  {
    if a == [] && b == [] {
      script := [];
    } else if b == [] || (a != [] && Distance(a, b) == Distance(Front(a), b) + 1) {
      var s := ShortestScript(Front(a), b);
      script := FirstDeleteLast(a, s, b);
    } else if a == [] || Distance(a, b) == Distance(a, Front(b)) + 1 {
      var s := ShortestScript(a, Front(b));
      script := ThenInsertLast(a, s, b);
    } else {
      var s := ShortestScript(Front(a), Front(b));
      script := ThenMatchLast(a, s, b);
    }
  }

  // ----- Metric laws -----

  /** The distance lies between the difference of the lengths and the longer length. */
  lemma {:induction false} DistanceBounds<T>(a: seq<T>, b: seq<T>)
    ensures |a| <= |b| + Distance(a, b) && |b| <= |a| + Distance(a, b)
    ensures Distance(a, b) <= |a| || Distance(a, b) <= |b|
    decreases |a| + |b|
  {
    if a != [] && b != [] {
      DistanceBounds(Front(a), b);
      DistanceBounds(a, Front(b));
      DistanceBounds(Front(a), Front(b));
    }
  }

  lemma {:induction false} DistanceSymmetric<T>(a: seq<T>, b: seq<T>)
    ensures Distance(a, b) == Distance(b, a)
    decreases |a| + |b|
  {
    if a != [] && b != [] {
      DistanceSymmetric(Front(a), b);
      DistanceSymmetric(a, Front(b));
      DistanceSymmetric(Front(a), Front(b));
    }
  }

  lemma {:induction false} DistanceZeroIffEqual<T>(a: seq<T>, b: seq<T>)
    ensures Distance(a, b) == 0 <==> a == b
    decreases |a| + |b|
  {
    if a != [] && b != [] {
      DistanceZeroIffEqual(Front(a), Front(b));
      assert a == Front(a) + [Last(a)] && b == Front(b) + [Last(b)];
    }
  }

  /** Never more than one edit further than on the fronts, and no further on equal last elements. */
  lemma DistanceUpper<T>(a: seq<T>, b: seq<T>)
    ensures a != [] ==> Distance(a, b) <= Distance(Front(a), b) + 1
    ensures b != [] ==> Distance(a, b) <= Distance(a, Front(b)) + 1
    ensures a != [] && b != [] ==> Distance(a, b) <= Distance(Front(a), Front(b)) + Cost(Last(a), Last(b))
  {
  }

  lemma {:induction false} TriangleInequality<T>(a: seq<T>, b: seq<T>, c: seq<T>)
    ensures Distance(a, c) <= Distance(a, b) + Distance(b, c)
    decreases |a| + |b| + |c|
  {
    if a == [] || b == [] || c == [] {
      DistanceBounds(a, b);
      DistanceBounds(b, c);
      DistanceBounds(a, c);
    } else {
      DistanceUpper(a, c);
      if Distance(a, b) == Distance(Front(a), b) + 1 {
        TriangleInequality(Front(a), b, c);
      } else if Distance(b, c) == Distance(b, Front(c)) + 1 {
        TriangleInequality(a, b, Front(c));
      } else if Distance(a, b) == Distance(a, Front(b)) + 1 {
        if Distance(b, c) == Distance(Front(b), c) + 1 {
          TriangleInequality(a, Front(b), c);
        } else {
          TriangleInequality(a, Front(b), Front(c));
        }
      } else if Distance(b, c) == Distance(Front(b), c) + 1 {
        TriangleInequality(Front(a), Front(b), c);
      } else {
        TriangleInequality(Front(a), Front(b), Front(c));
      }
    }
  }

  // ----- No script is shorter -----

  lemma LastKept<T>(s: seq<T>, t: seq<T>)
    requires s != [] && t != [] && Last(s) == Last(t)
    ensures Distance(s, t) <= Distance(Front(s), Front(t))
  {
    DistanceUpper(s, t);
  }

  /** One edit moves a sequence by at most one. */
  lemma {:induction false} OneEdit<T>(s: seq<T>, e: Edit<T>)
    requires Applicable(s, e)
    ensures Distance(s, Apply(s, e)) <= 1
    decreases |s|
  {
    var t := Apply(s, e);
    if e.at < |s| - 1 || (e.Insert? && e.at == |s| - 1) {
      assert Front(t) == Apply(Front(s), e) && Last(t) == Last(s);
      OneEdit(Front(s), e);
      LastKept(s, t);
    } else {
      EditAtEnd(s, e);
    }
  }

  /** Sequences that differ at most in their last element, or in having one more. */
  lemma DifferAtEnd<T>(s: seq<T>, t: seq<T>)
    requires t != []
    ensures Front(t) == s ==> Distance(s, t) <= 1 && Distance(t, s) <= 1
    ensures s != [] && Front(s) == Front(t) ==> Distance(s, t) <= 1
  {
    DistanceZeroIffEqual(Front(t), Front(t));
    DistanceUpper(s, t);
    DistanceUpper(t, s);
  }

  lemma EditAtEnd<T>(s: seq<T>, e: Edit<T>)
    requires Applicable(s, e) && e.at == if e.Insert? then |s| else |s| - 1
    ensures Distance(s, Apply(s, e)) <= 1
  {
    var t := Apply(s, e);
    if e.Delete? {
      assert Front(s) == t;
      DifferAtEnd(t, s);
    } else {
      assert Front(t) == if e.Insert? then s else Front(s);
      DifferAtEnd(s, t);
    }
  }

  /** Every script is at least as long as the recurrence says. */
  lemma {:induction false} NoShorterScript<T>(a: seq<T>, script: seq<Edit<T>>, b: seq<T>)
    requires Turns(a, script, b)
    ensures Distance(a, b) <= |script|
    decreases |script|
  {
    if script == [] {
      DistanceZeroIffEqual(a, b);
    } else {
      var next := Apply(a, script[0]);
      OneEdit(a, script[0]);
      NoShorterScript(next, script[1..], b);
      TriangleInequality(a, next, b);
    }
  }

  // ----- The table -----

  /** The recurrence over prefix lengths, as the table holds it. */
  ghost function Cell<T>(a: seq<T>, b: seq<T>, i: nat, j: nat): nat
    requires i <= |a| && j <= |b|
  {
    if i == 0 then j
    else if j == 0 then i
    else Min3(Cell(a, b, i - 1, j) + 1, Cell(a, b, i, j - 1) + 1, Cell(a, b, i - 1, j - 1) + Cost(a[i - 1], b[j - 1]))
  }

  ghost function PrefixDistance<T>(a: seq<T>, b: seq<T>, i: nat, j: nat): nat
    requires i <= |a| && j <= |b|
  {
    Distance(a[..i], b[..j])
  }

  lemma PrefixStep<T>(a: seq<T>, b: seq<T>, i: nat, j: nat)
    requires 0 < i <= |a| && 0 < j <= |b|
    ensures PrefixDistance(a, b, i, j) ==
            Min3(PrefixDistance(a, b, i - 1, j) + 1,
                 PrefixDistance(a, b, i, j - 1) + 1,
                 PrefixDistance(a, b, i - 1, j - 1) + Cost(a[i - 1], b[j - 1]))
  {
    assert Front(a[..i]) == a[..i - 1] && Front(b[..j]) == b[..j - 1];
  }

  lemma PrefixBorder<T>(a: seq<T>, b: seq<T>, i: nat, j: nat)
    requires i <= |a| && j <= |b| && (i == 0 || j == 0)
    ensures Distance(a[..i], b[..j]) == i + j
  {
    assert i == 0 ==> a[..i] == [];
    assert j == 0 ==> b[..j] == [];
  }

  lemma {:induction false} CellIsDistance<T>(a: seq<T>, b: seq<T>, i: nat, j: nat)
    requires i <= |a| && j <= |b|
    ensures Cell(a, b, i, j) == PrefixDistance(a, b, i, j)
  {
    if i == 0 || j == 0 {
      PrefixBorder(a, b, i, j);
    } else {
      CellIsDistance(a, b, i - 1, j);
      CellIsDistance(a, b, i, j - 1);
      CellIsDistance(a, b, i - 1, j - 1);
      PrefixStep(a, b, i, j);
    }
  }

  ghost predicate RowFilled<T>(dp: array2<nat>, a: seq<T>, b: seq<T>, i: nat, upTo: nat)
    requires dp.Length0 == |a| + 1 && dp.Length1 == |b| + 1
    requires i <= |a| && upTo <= |b| + 1
    reads dp
  {
    forall l :: 0 <= l < upTo ==> dp[i, l] == Cell(a, b, i, l)
  }

  /** `Distance` is the length of a shortest script. */
  lemma DistanceIsShortest<T>(a: seq<T>, b: seq<T>)
    ensures exists script :: Turns(a, script, b) && |script| == Distance(a, b)
    ensures forall script :: Turns(a, script, b) ==> Distance(a, b) <= |script|
  {
    var best := ShortestScript(a, b);
    forall script | Turns(a, script, b)
      ensures Distance(a, b) <= |script|
    {
      NoShorterScript(a, script, b);
    }
  }

  /** The borders of the table: row 0 and column 0 count up. */
  method InitBorders(dp: array2<nat>)
    requires dp.Length0 > 0 && dp.Length1 > 0
    modifies dp
    ensures forall k :: 0 <= k < dp.Length0 ==> dp[k, 0] == k
    ensures forall k :: 0 <= k < dp.Length1 ==> dp[0, k] == k
  {
    for i := 0 to dp.Length0
      invariant forall k :: 0 <= k < i ==> dp[k, 0] == k
    {
      dp[i, 0] := i;
    }
    for j := 0 to dp.Length1
      invariant forall k :: 0 <= k < dp.Length0 ==> dp[k, 0] == k
      invariant forall k :: 0 <= k < j ==> dp[0, k] == k
    {
      dp[0, j] := j;
    }
  }

  /** One pass of the inner loop: row `i` from row `i - 1`. */
  method FillRow<T(==)>(dp: array2<nat>, a: seq<T>, b: seq<T>, i: nat)
    requires dp.Length0 == |a| + 1 && dp.Length1 == |b| + 1
    requires 0 < i <= |a|
    requires RowFilled(dp, a, b, i - 1, |b| + 1)
    requires dp[i, 0] == i
    modifies dp
    ensures RowFilled(dp, a, b, i, |b| + 1)
    ensures forall k :: i < k <= |a| ==> dp[k, 0] == old(dp[k, 0])
  {
    for j := 1 to |b| + 1
      invariant forall k :: i < k <= |a| ==> dp[k, 0] == old(dp[k, 0])
      invariant RowFilled(dp, a, b, i - 1, |b| + 1)
      invariant RowFilled(dp, a, b, i, j)
    {
      var cost := if a[i - 1] == b[j - 1] then 0 else 1;
      dp[i, j] := Min3(dp[i - 1, j] + 1, dp[i, j - 1] + 1, dp[i - 1, j - 1] + cost);
    }
  }

  /** The nested-loop table: the result is the length of a shortest edit script. */
  method Levenshtein<T(==)>(a: seq<T>, b: seq<T>) returns (d: nat)
    ensures exists script :: Turns(a, script, b) && |script| == d
    ensures forall script :: Turns(a, script, b) ==> d <= |script|
    ensures d == Distance(a, b)
  {
    var m, n := |a|, |b|;
    var dp := new nat[m + 1, n + 1]((_, _) => 0);
    InitBorders(dp);
    for i := 1 to m + 1
      invariant forall k :: i <= k <= m ==> dp[k, 0] == k
      invariant RowFilled(dp, a, b, i - 1, n + 1)
    {
      FillRow(dp, a, b, i);
    }
    d := dp[m, n];
    CellIsDistance(a, b, m, n);
    assert a[..m] == a && b[..n] == b;
    DistanceIsShortest(a, b);
  }
}

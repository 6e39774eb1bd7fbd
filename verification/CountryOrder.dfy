/** The country order of a batch: agent/executor_country.py, G20 members first, then the rest of
    the ISO table in ascending order.
 */
module CountryOrder {
  import opened Common
  import opened Texts

  const G20: seq<Text> := [
    Lit("US"), Lit("CN"), Lit("JP"), Lit("DE"), Lit("GB"), Lit("FR"), Lit("IT"), Lit("CA"), Lit("KR"), Lit("RU"),
    Lit("AU"), Lit("BR"), Lit("MX"), Lit("IN"), Lit("ID"), Lit("SA"), Lit("TR"), Lit("AR"), Lit("ZA")]

  /** The members of `order` that are in `iso`, each at its first place. */
  function Present(order: seq<Text>, iso: set<Text>): seq<Text> {
    if order == [] then []
    else
      var k := |order| - 1;
      var front := Present(order[..k], iso);
      if order[k] in iso && order[k] !in front then front + [order[k]] else front
  }

  ghost predicate StrictlyAscending(s: seq<Text>) {
    forall i, j :: 0 <= i < j < |s| ==> Before(s[i], s[j])
  }

  /** The promised order over the codes `iso`: the preferred members present, in their order, then
      every other code, strictly ascending. */
  ghost predicate PreferredThenAscending(codes: seq<Text>, order: seq<Text>, iso: set<Text>) {
    var first := Present(order, iso);
    && first <= codes
    && StrictlyAscending(codes[|first|..])
    && Elements(codes[|first|..]) == iso - Elements(first)
  }

  lemma {:induction false} PresentMembers(order: seq<Text>, iso: set<Text>)
    ensures Elements(Present(order, iso)) == iso * Elements(order) && Distinct(Present(order, iso))
  {
    if order != [] {
      var k := |order| - 1;
      PresentMembers(order[..k], iso);
      assert order == order[..k] + [order[k]];
      assert Elements(order) == Elements(order[..k]) + {order[k]};
      var front := Present(order[..k], iso);
      assert Elements(front + [order[k]]) == Elements(front) + {order[k]};
    }
  }

  /** The first place of a code in the preferred order. */
  function FirstAt(order: seq<Text>, c: Text): (i: nat)
    requires c in order
    ensures i < |order| && order[i] == c && c !in order[..i]
  {
    var k := |order| - 1;
    if c in order[..k] then
      assert order[..k][..FirstAt(order[..k], c)] == order[..FirstAt(order[..k], c)];
      FirstAt(order[..k], c)
    else k
  }

  /** The members present come in the preferred order. */
  lemma {:induction false} PresentInOrder(order: seq<Text>, iso: set<Text>)
    ensures forall c :: c in Present(order, iso) ==> c in order
    ensures var first := Present(order, iso);
            forall i, j :: 0 <= i < j < |first| ==> FirstAt(order, first[i]) < FirstAt(order, first[j])
  {
    if order != [] {
      var k := |order| - 1;
      var front := Present(order[..k], iso);
      PresentInOrder(order[..k], iso);
      PresentMembers(order[..k], iso);
      forall c | c in front
        ensures c in order && FirstAt(order, c) == FirstAt(order[..k], c) < k
      {
      }
      if order[k] in iso && order[k] !in front {
        var c := order[k];
        assert c in Elements(order[..k]) <==> c in order[..k];
        assert c in Elements(front) <==> c in front;
        assert FirstAt(order, order[k]) == k;
      }
    }
  }

  /** An ascending sequence without repeats ascends strictly. */
  lemma AscendsStrictly(s: seq<Text>)
    requires Ascending(s) && Distinct(s)
    ensures StrictlyAscending(s)
  {
  }

  lemma {:induction false} StrictUnique(s: seq<Text>, t: seq<Text>)
    requires StrictlyAscending(s) && StrictlyAscending(t) && Elements(s) == Elements(t)
    ensures s == t
  {
    assert s == [] || s[0] in Elements(s);
    assert t == [] || t[0] in Elements(t);
    if s != [] {
      HeadLeast(s, t[0]);
      HeadLeast(t, s[0]);
      BeforeTotal(s[0], t[0]);
      RestCodes(s);
      RestCodes(t);
      StrictUnique(s[1..], t[1..]);
    }
  }

  lemma HeadLeast(s: seq<Text>, c: Text)
    requires StrictlyAscending(s) && s != [] && c in Elements(s)
    ensures AtMost(s[0], c)
  {
  }

  lemma RestCodes(s: seq<Text>)
    requires StrictlyAscending(s) && s != []
    ensures Elements(s[1..]) == Elements(s) - {s[0]}
  {
    assert s == [s[0]] + s[1..];
    BeforeIrreflexive(s[0]);
  }

  /** The order is determined: one sequence answers to it, with each code exactly once. */
  lemma OrderDetermined(a: seq<Text>, b: seq<Text>, order: seq<Text>, iso: set<Text>)
    requires PreferredThenAscending(a, order, iso) && PreferredThenAscending(b, order, iso)
    ensures a == b && Elements(a) == iso && Distinct(a)
  {
    var first := Present(order, iso);
    var n := |first|;
    PresentMembers(order, iso);
    StrictUnique(a[n..], b[n..]);
    assert a == first + a[n..] && b == first + b[n..];
    StrictDistinct(a[n..]);
    DistinctConcat(first, a[n..]);
  }

  lemma StrictDistinct(s: seq<Text>)
    requires StrictlyAscending(s)
    ensures Distinct(s)
  {
    forall i, j | 0 <= i < j < |s|
      ensures s[i] != s[j]
    {
      BeforeIrreflexive(s[i]);
    }
  }

  lemma DistinctConcat<T>(s: seq<T>, t: seq<T>)
    requires Distinct(s) && Distinct(t) && Elements(s) !! Elements(t)
    ensures Distinct(s + t) && Elements(s + t) == Elements(s) + Elements(t)
  {
    forall i, j | 0 <= i < |s| && 0 <= j < |t|
      ensures s[i] != t[j]
    {
      assert s[i] in Elements(s) && t[j] in Elements(t);
    }
  }

  /** The elements of a set, in some order. */
  method Listed(s: set<Text>) returns (r: seq<Text>)
    ensures Distinct(r) && Elements(r) == s
  {
    r := [];
    var todo := s;
    while todo != {}
      invariant todo <= s && Distinct(r) && Elements(r) == s - todo
    {
      var c :| c in todo;
      assert c !in Elements(r);
      assert Elements(r + [c]) == Elements(r) + {c};
      r := r + [c];
      todo := todo - {c};
    }
  }

  lemma SortKeeps(s: seq<Text>)
    requires Distinct(s)
    ensures StrictlyAscending(Sort(s)) && Elements(Sort(s)) == Elements(s)
  {
    SortSorts(s);
    var t := Sort(s);
    forall c
      ensures c in s <==> c in t
    {
      assert c in s <==> c in multiset(s);
      assert c in t <==> c in multiset(t);
    }
    OncePerCode(s);
    NoRepeatsFromBag(t);
    AscendsStrictly(t);
  }

  lemma {:induction false} OncePerCode(s: seq<Text>)
    requires Distinct(s)
    ensures forall c :: multiset(s)[c] <= 1
  {
    if s != [] {
      var k := |s| - 1;
      OncePerCode(s[..k]);
      assert s == s[..k] + [s[k]];
      assert s[k] !in s[..k];
      assert s[k] !in multiset(s[..k]);
    }
  }

  lemma NoRepeatsFromBag(t: seq<Text>)
    requires forall c :: multiset(t)[c] <= 1
    ensures Distinct(t)
  {
    forall i, j | 0 <= i < j < |t|
      ensures t[i] != t[j]
    {
      var a, b := t[..j], t[j..];
      assert t == a + b && a[i] == t[i] && b[0] == t[j];
      assert a[i] in multiset(a) && b[0] in multiset(b);
      assert multiset(t) == multiset(a) + multiset(b);
      assert multiset(t)[t[j]] == multiset(a)[t[j]] + multiset(b)[t[j]];
    }
  }

  method BuildG20ThenIso(table: seq<Text>) returns (codes: seq<Text>)
    ensures PreferredThenAscending(codes, G20, Elements(table))
  {
    var iso := Elements(table);
    var seen: set<Text> := {};
    var first: seq<Text> := [];
    for i := 0 to |G20|
      invariant first == Present(G20[..i], iso) && seen == Elements(first)
    {
      var code := G20[i];
      assert G20[..i + 1][..i] == G20[..i];
      if code in iso && code !in seen {
        first := first + [code];
        seen := seen + {code};
      }
    }
    assert G20[..|G20|] == G20;
    var others := Listed(iso - seen);
    SortKeeps(others);
    var rest := Sort(others);
    codes := first + rest;
    assert codes[|first|..] == rest;
  }

  /** A batch run: the whole list, or the prefix a limit asks for; a negative limit asks for none. */
  method ResolveBatch(table: seq<Text>, countryLimit: Option<int>) returns (codes: seq<Text>)
    ensures exists full ::
      && PreferredThenAscending(full, G20, Elements(table)) && codes <= full
      && |codes| == match countryLimit
                    case None => |full|
                    case Some(n) => if n < 0 then 0 else if n < |full| then n else |full|
  {
    var full := BuildG20ThenIso(table);
    codes := full;
    if countryLimit.Some? {
      var n := if countryLimit.value < 0 then 0 else countryLimit.value;
      if n < |full| {
        codes := full[..n];
      }
    }
  }
}

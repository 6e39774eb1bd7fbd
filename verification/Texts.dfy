/** Strings as the host language stores them, sequences of UTF-16 code units, with the
    order its `sort()` uses, decimal numerals, and the one assumption made about SHA-256.
 */
module Texts {

  type CodeUnit = u: int | 0 <= u < 0x1_0000
  type Text = seq<CodeUnit>

  /** The code units of a literal of this model. */
  function Lit(s: string): (t: Text)
    ensures |t| == |s|
  {
    seq(|s|, i requires 0 <= i < |s| => if s[i] as int < 0x1_0000 then s[i] as int else 0xFFFD)
  }

  // ----- Trimming -----

  /** White space and line terminators of ECMA-262, sections 12.2 and 12.3. */
  predicate IsSpace(u: CodeUnit) {
    9 <= u <= 13 || u == 0x20 || u == 0xA0 || u == 0x1680 || 0x2000 <= u <= 0x200A ||
    u == 0x2028 || u == 0x2029 || u == 0x202F || u == 0x205F || u == 0x3000 || u == 0xFEFF
  }

  function Trim(t: Text): Text {
    if t == [] then t
    else if IsSpace(t[0]) then Trim(t[1..])
    else if IsSpace(t[|t| - 1]) then Trim(t[..|t| - 1])
    else t
  }

  ghost predicate SpaceBetween(t: Text, i: nat, j: nat) {
    j <= |t| && forall k :: i <= k < j ==> IsSpace(t[k])
  }

  /** Trimming takes the white space off both ends, all of it and nothing else; of a blank text it
      leaves nothing. */
  lemma {:induction false} TrimSplits(t: Text) returns (i: nat, j: nat)
    ensures i <= j <= |t| && Trim(t) == t[i..j]
    ensures SpaceBetween(t, 0, i) && SpaceBetween(t, j, |t|)
    ensures i < j ==> !IsSpace(t[i]) && !IsSpace(t[j - 1])
    decreases |t|
  {
    if t != [] && IsSpace(t[0]) {
      i, j := TrimSplits(t[1..]);
      assert t[1..][i..j] == t[i + 1..j + 1];
      assert forall k :: 0 < k < |t| ==> t[k] == t[1..][k - 1];
      i, j := i + 1, j + 1;
    } else if t != [] && IsSpace(t[|t| - 1]) {
      i, j := TrimSplits(t[..|t| - 1]);
      assert t[..|t| - 1][i..j] == t[i..j];
    } else {
      i, j := 0, |t|;
    }
  }

  // ----- Hashing -----

  const GENESIS := Lit("genesis")

  const BAR: CodeUnit := '|' as int

  predicate HexDigit(u: CodeUnit) {
    '0' as int <= u <= '9' as int || 'a' as int <= u <= 'f' as int
  }

  /** SHA-256 in lower-case hexadecimal, idealised: no two inputs collide, and a digest is a
      nonempty run of hexadecimal digits (so it is never the word `genesis`, and holds no
      separator or blank). */
  ghost predicate Ideal(h: Text -> Text) {
    && (forall x, y :: h(x) == h(y) ==> x == y)
    && (forall x :: h(x) != [] && forall i :: 0 <= i < |h(x)| ==> HexDigit(h(x)[i]))
  }

  lemma DigestIsNotGenesis(h: Text -> Text, x: Text)
    requires Ideal(h)
    ensures h(x) != GENESIS
  {
    assert GENESIS[0] == 'g' as int;
    assert HexDigit(h(x)[0]);
  }

  // ----- Splitting a text at the end of a run -----

  ghost predicate AllOf(p: CodeUnit -> bool, t: Text) {
    forall i :: 0 <= i < |t| ==> p(t[i])
  }

  /** `t` does not go on with a unit of kind `p`. */
  predicate StopsFor(p: CodeUnit -> bool, t: Text) {
    t != [] ==> !p(t[0])
  }

  lemma {:induction false} RunSplitsUniquely(p: CodeUnit -> bool, a: Text, r: Text, b: Text, q: Text)
    requires AllOf(p, a) && AllOf(p, b) && StopsFor(p, r) && StopsFor(p, q)
    requires a + r == b + q
    ensures a == b && r == q
  {
    var w := a + r;
    assert a == [] ==> w == r;
    assert b == [] ==> w == q;
    assert a != [] ==> w != [] && p(w[0]) && w[1..] == a[1..] + r;
    assert b != [] ==> w != [] && p(w[0]) && w[1..] == b[1..] + q;
    if a != [] && b != [] {
      assert a[0] == w[0] == b[0];
      RunSplitsUniquely(p, a[1..], r, b[1..], q);
    }
  }

  // ----- Decimal numerals -----

  predicate Digit(u: CodeUnit) {
    '0' as int <= u <= '9' as int
  }

  function Digits(n: nat): (t: Text)
    ensures t != [] && forall i :: 0 <= i < |t| ==> Digit(t[i])
  {
    if n < 10 then ['0' as int + n] else Digits(n / 10) + ['0' as int + n % 10]
  }

  function NumeralValue(t: Text): int {
    if t == [] then 0 else NumeralValue(t[..|t| - 1]) * 10 + (t[|t| - 1] - '0' as int)
  }

  lemma {:induction false} DigitsValue(n: nat)
    ensures NumeralValue(Digits(n)) == n
  {
    if n >= 10 {
      DigitsValue(n / 10);
      assert Digits(n)[..|Digits(n)| - 1] == Digits(n / 10);
    }
  }

  /** A numeral has no leading zero. */
  lemma {:induction false} NoLeadingZero(n: nat)
    ensures Digits(n)[0] == '0' as int <==> n == 0
    ensures |Digits(n)| == 1 <==> n < 10
  {
    if n >= 10 {
      NoLeadingZero(n / 10);
      assert Digits(n)[0] == Digits(n / 10)[0];
    }
  }

  /** `String(i).padStart(width, "0")`. */
  function Padded(n: nat, width: nat): Text
  {
    PadTo(Digits(n), width)
  }

  function PadTo(t: Text, width: nat): Text
    decreases width - |t|
  {
    if |t| >= width then t else PadTo(['0' as int] + t, width)
  }

  lemma {:induction false} LeadingZero(t: Text)
    ensures NumeralValue(['0' as int] + t) == NumeralValue(t)
  {
    if t != [] {
      var s := ['0' as int] + t;
      assert s[..|s| - 1] == ['0' as int] + t[..|t| - 1];
      LeadingZero(t[..|t| - 1]);
    }
  }

  lemma {:induction false} PadKeepsValue(t: Text, width: nat)
    requires AllOf(Digit, t)
    ensures NumeralValue(PadTo(t, width)) == NumeralValue(t) && AllOf(Digit, PadTo(t, width))
    decreases width - |t|
  {
    if |t| < width {
      LeadingZero(t);
      PadKeepsValue(['0' as int] + t, width);
    }
  }

  lemma {:induction false} PadToWidth(t: Text, width: nat)
    ensures |PadTo(t, width)| == if |t| < width then width else |t|
    decreases width - |t|
  {
    if |t| < width {
      PadToWidth(['0' as int] + t, width);
    }
  }

  lemma PaddedNumeral(n: nat, width: nat)
    ensures NumeralValue(Padded(n, width)) == n && AllOf(Digit, Padded(n, width))
  {
    DigitsValue(n);
    PadKeepsValue(Digits(n), width);
  }

  /** A numeral followed by anything that is not a digit is read back in one way only. */
  lemma NumeralsSplit(n: nat, r: Text, m: nat, q: Text)
    requires StopsFor(Digit, r) && StopsFor(Digit, q)
    requires Digits(n) + r == Digits(m) + q
    ensures n == m && r == q
  {
    RunSplitsUniquely(Digit, Digits(n), r, Digits(m), q);
    DigitsValue(n);
    DigitsValue(m);
  }

  // ----- The order of code units, and sorting by it -----

  predicate Before(a: Text, b: Text) {
    b != [] && (a == [] || a[0] < b[0] || (a[0] == b[0] && Before(a[1..], b[1..])))
  }

  /** The texts agree up to `k`, and there `a` ends or has the smaller unit. */
  ghost predicate DivergesAt(a: Text, b: Text, k: nat) {
    k <= |a| && k < |b| && a[..k] == b[..k] && (k == |a| || a[k] < b[k])
  }

  /** The order is that of the first code unit in which two texts differ, a prefix coming first. */
  lemma {:induction false} BeforeIff(a: Text, b: Text)
    ensures Before(a, b) <==> exists k: nat :: DivergesAt(a, b, k)
    decreases |b|
  {
    if b != [] && a != [] && a[0] == b[0] {
      BeforeIff(a[1..], b[1..]);
      assert a == [a[0]] + a[1..] && b == [b[0]] + b[1..];
      if k: nat :| DivergesAt(a[1..], b[1..], k) {
        assert a[..k + 1] == [a[0]] + a[1..][..k] && b[..k + 1] == [b[0]] + b[1..][..k];
        assert DivergesAt(a, b, k + 1);
      }
      if k: nat :| DivergesAt(a, b, k) {
        assert k > 0;
        assert a[1..][..k - 1] == a[..k][1..] && b[1..][..k - 1] == b[..k][1..];
        assert DivergesAt(a[1..], b[1..], k - 1);
      }
    } else if Before(a, b) {
      assert DivergesAt(a, b, 0);
    } else {
      forall k: nat | 0 < k <= |a| && k < |b|
        ensures a[..k] != b[..k]
      {
        assert a[..k][0] == a[0] && b[..k][0] == b[0];
      }
    }
  }

  lemma {:induction false} BeforeTotal(a: Text, b: Text)
    ensures a == b || Before(a, b) || Before(b, a)
    ensures !(Before(a, b) && Before(b, a)) && !Before(a, a)
    decreases |a| + |b|
  {
    if a != [] {
      if |a| > 0 { BeforeIrreflexive(a); }
    }
    if a != [] && b != [] && a[0] == b[0] {
      BeforeTotal(a[1..], b[1..]);
      assert a == [a[0]] + a[1..] && b == [b[0]] + b[1..];
    }
  }

  lemma {:induction false} BeforeIrreflexive(a: Text)
    ensures !Before(a, a)
  {
    if a != [] {
      BeforeIrreflexive(a[1..]);
    }
  }

  lemma {:induction false} BeforeTransitive(a: Text, b: Text, c: Text)
    requires Before(a, b) && Before(b, c)
    ensures Before(a, c)
  {
    if a != [] && a[0] == b[0] == c[0] {
      BeforeTransitive(a[1..], b[1..], c[1..]);
    }
  }

  predicate AtMost(a: Text, b: Text) {
    a == b || Before(a, b)
  }

  ghost predicate Ascending(s: seq<Text>) {
    forall i, j :: 0 <= i < j < |s| ==> AtMost(s[i], s[j])
  }

  function Put(x: Text, s: seq<Text>): seq<Text> {
    if s == [] then [x]
    else if AtMost(x, s[0]) then [x] + s
    else [s[0]] + Put(x, s[1..])
  }

  /** `[...s].sort()` */
  function Sort(s: seq<Text>): seq<Text> {
    if s == [] then [] else Put(s[0], Sort(s[1..]))
  }

  lemma FromBag(t: seq<Text>, s: seq<Text>, x: Text, j: nat)
    requires multiset(t) == multiset(s) + multiset{x} && j < |t|
    ensures t[j] == x || t[j] in s
  {
    assert t[j] in multiset(t);
  }

  lemma {:induction false} PutSorts(x: Text, s: seq<Text>)
    requires Ascending(s)
    ensures Ascending(Put(x, s)) && multiset(Put(x, s)) == multiset(s) + multiset{x}
  {
    if s == [] {
    } else if AtMost(x, s[0]) {
      forall j | 0 <= j < |s|
        ensures AtMost(x, s[j])
      {
        if j > 0 && x != s[0] && s[0] != s[j] {
          BeforeTransitive(x, s[0], s[j]);
        }
      }
    } else {
      var t := Put(x, s[1..]);
      PutSorts(x, s[1..]);
      BeforeTotal(x, s[0]);
      assert s == [s[0]] + s[1..];
      forall j | 0 <= j < |t|
        ensures AtMost(s[0], t[j])
      {
        FromBag(t, s[1..], x, j);
      }
    }
  }

  lemma {:induction false} SortSorts(s: seq<Text>)
    ensures Ascending(Sort(s)) && multiset(Sort(s)) == multiset(s)
  {
    if s != [] {
      SortSorts(s[1..]);
      PutSorts(s[0], Sort(s[1..]));
      assert s == [s[0]] + s[1..];
    }
  }

  lemma BagTail(s: seq<Text>)
    requires s != []
    ensures multiset(s[1..]) == multiset(s) - multiset{s[0]} && s[0] in multiset(s)
  {
    assert s == [s[0]] + s[1..];
  }

  lemma LeastFirst(s: seq<Text>, x: Text)
    requires Ascending(s) && x in multiset(s)
    ensures s != [] && AtMost(s[0], x)
  {
    var k :| 0 <= k < |s| && s[k] == x;
  }

  /** An ascending sequence is determined by its elements. */
  lemma {:induction false} AscendingUnique(s: seq<Text>, t: seq<Text>)
    requires Ascending(s) && Ascending(t) && multiset(s) == multiset(t)
    ensures s == t
  {
    assert |multiset(s)| == |s| && |multiset(t)| == |t|;
    if s != [] {
      BagTail(s);
      BagTail(t);
      LeastFirst(s, t[0]);
      LeastFirst(t, s[0]);
      BeforeTotal(s[0], t[0]);
      AscendingUnique(s[1..], t[1..]);
    }
  }

  /** Two sequences sort to the same sequence exactly when one is a reordering of the other. */
  lemma SortIsOrderBlind(s: seq<Text>, t: seq<Text>)
    ensures Sort(s) == Sort(t) <==> multiset(s) == multiset(t)
  {
    SortSorts(s);
    SortSorts(t);
    if multiset(s) == multiset(t) {
      AscendingUnique(Sort(s), Sort(t));
    }
  }
}

/** JSON values and their text: the printing of
    hex-executor-console-backend/src/safekeep/canonicalPlan.ts with keys in field order, and
    the proof that a printed value can be read back in one way only.  String escapes follow
    ECMA-262, section 25.5.2.3 (QuoteJSONString).
 */
module Json {
  import opened Texts

  /** `Undefined` is the host language's value, not JSON.  An object keeps its insertion order. */
  datatype Value =
    | Undefined
    | Null
    | Bool(b: bool)
    | Num(n: int)
    | Str(s: Text)
    | Arr(items: seq<Value>)
    | Obj(fields: seq<Field>)

  datatype Field = Field(key: Text, value: Value)

  // ----- Strings -----

  const QUOTE: CodeUnit := '"' as int
  const BACKSLASH: CodeUnit := '\\' as int
  const COMMA: CodeUnit := ',' as int
  const COLON: CodeUnit := ':' as int
  const LBRACKET: CodeUnit := '[' as int
  const RBRACKET: CodeUnit := ']' as int
  const LBRACE: CodeUnit := '{' as int
  const RBRACE: CodeUnit := '}' as int
  const MINUS: CodeUnit := '-' as int

  predicate HighSurrogate(u: CodeUnit) { 0xD800 <= u < 0xDC00 }
  predicate LowSurrogate(u: CodeUnit) { 0xDC00 <= u < 0xE000 }

  function HexDigitOf(d: nat): CodeUnit
    requires d < 16
  {
    if d < 10 then '0' as int + d else 'a' as int + d - 10
  }

  function UnicodeEscape(u: CodeUnit): (t: Text)
    ensures |t| == 6
  {
    [BACKSLASH, 'u' as int, HexDigitOf(u / 4096), HexDigitOf(u / 256 % 16), HexDigitOf(u / 16 % 16), HexDigitOf(u % 16)]
  }

  /** The text of one code unit that is not part of a surrogate pair. */
  function Escaped(u: CodeUnit): (t: Text)
    ensures t != []
  {
    if u == 8 then [BACKSLASH, 'b' as int]
    else if u == 9 then [BACKSLASH, 't' as int]
    else if u == 10 then [BACKSLASH, 'n' as int]
    else if u == 12 then [BACKSLASH, 'f' as int]
    else if u == 13 then [BACKSLASH, 'r' as int]
    else if u == QUOTE || u == BACKSLASH then [BACKSLASH, u]
    else if u < 0x20 || HighSurrogate(u) || LowSurrogate(u) then UnicodeEscape(u)
    else [u]
  }

  predicate StartsWithPair(s: Text) {
    |s| >= 2 && HighSurrogate(s[0]) && LowSurrogate(s[1])
  }

  /** The inside of the quotes, closing quote included. */
  function QuotedRest(s: Text): (t: Text)
    ensures t != []
  {
    if s == [] then [QUOTE]
    else if StartsWithPair(s) then s[..2] + QuotedRest(s[2..])
    else Escaped(s[0]) + QuotedRest(s[1..])
  }

  function Quote(s: Text): (t: Text)
    ensures t != [] && t[0] == QUOTE
  {
    [QUOTE] + QuotedRest(s)
  }

  lemma UnicodeEscapeUnique(u: CodeUnit, w: CodeUnit)
    requires UnicodeEscape(u) == UnicodeEscape(w)
    ensures u == w
  {
    var a, b := UnicodeEscape(u), UnicodeEscape(w);
    assert a[2] == b[2] && a[3] == b[3] && a[4] == b[4] && a[5] == b[5];
    HexDigitUnique(u / 4096, w / 4096);
    HexDigitUnique(u / 256 % 16, w / 256 % 16);
    HexDigitUnique(u / 16 % 16, w / 16 % 16);
    HexDigitUnique(u % 16, w % 16);
    Nibbles(u);
    Nibbles(w);
  }

  lemma HexDigitUnique(d: nat, e: nat)
    requires d < 16 && e < 16 && HexDigitOf(d) == HexDigitOf(e)
    ensures d == e
  {
  }

  lemma Nibbles(u: nat)
    ensures u == u / 4096 * 4096 + u / 256 % 16 * 256 + u / 16 % 16 * 16 + u % 16
  {
    var a := u / 16;
    var b := a / 16;
    assert b == u / 256 && b / 16 == u / 4096;
    assert u == a * 16 + u % 16 && a == b * 16 + a % 16 && b == b / 16 * 16 + b % 16;
  }

  lemma Assoc(a: Text, b: Text, c: Text)
    ensures (a + b) + c == a + (b + c)
  {
  }

  lemma Head(a: Text, b: Text)
    requires a != []
    ensures a + b != [] && (a + b)[0] == a[0]
  {
  }

  lemma FixedUnique(a: Text, r: Text, q: Text)
    requires a + r == a + q
    ensures r == q
  {
    assert r == (a + r)[|a|..] && q == (a + q)[|a|..];
  }

  lemma EscapedUnique(u: CodeUnit, r: Text, w: CodeUnit, q: Text)
    requires Escaped(u) + r == Escaped(w) + q
    ensures u == w && r == q
  {
    var a, b := Escaped(u) + r, Escaped(w) + q;
    assert a[0] == Escaped(u)[0] && b[0] == Escaped(w)[0];
    assert |Escaped(u)| >= 2 ==> a[1] == Escaped(u)[1];
    assert |Escaped(w)| >= 2 ==> b[1] == Escaped(w)[1];
    assert |Escaped(u)| == |Escaped(w)|;
    assert Escaped(u) == a[..|Escaped(u)|] == b[..|Escaped(w)|] == Escaped(w);
    assert r == a[|Escaped(u)|..] == b[|Escaped(w)|..] == q;
    if |Escaped(u)| == 6 {
      UnicodeEscapeUnique(u, w);
    }
  }

  lemma QuotedHead(s: Text)
    ensures QuotedRest(s)[0] == QUOTE <==> s == []
    ensures HighSurrogate(QuotedRest(s)[0]) <==> StartsWithPair(s)
  {
  }

  /** `QuotedRest(s) + r`, one token peeled off. */
  lemma QuotedPeel(s: Text, r: Text)
    ensures s == [] ==> QuotedRest(s) + r == [QUOTE] + r
    ensures s != [] && !StartsWithPair(s) ==> QuotedRest(s) + r == Escaped(s[0]) + (QuotedRest(s[1..]) + r)
    ensures StartsWithPair(s) ==> QuotedRest(s) + r == s[..2] + (QuotedRest(s[2..]) + r)
    ensures (QuotedRest(s) + r)[0] == QuotedRest(s)[0]
  {
    if StartsWithPair(s) {
      Assoc(s[..2], QuotedRest(s[2..]), r);
    } else if s != [] {
      Assoc(Escaped(s[0]), QuotedRest(s[1..]), r);
    }
  }

  lemma PairUnique(a: Text, r: Text, b: Text, q: Text)
    requires |a| == |b| && a + r == b + q
    ensures a == b && r == q
  {
    assert a == (a + r)[..|a|] && b == (b + q)[..|b|];
    FixedUnique(a, r, q);
  }

  lemma {:induction false} QuotedUnique(s: Text, r: Text, t: Text, q: Text)
    requires QuotedRest(s) + r == QuotedRest(t) + q
    ensures s == t && r == q
  {
    QuotedHead(s);
    QuotedHead(t);
    QuotedPeel(s, r);
    QuotedPeel(t, q);
    if s == [] {
      FixedUnique([QUOTE], r, q);
    } else if StartsWithPair(s) {
      PairUnique(s[..2], QuotedRest(s[2..]) + r, t[..2], QuotedRest(t[2..]) + q);
      QuotedUnique(s[2..], r, t[2..], q);
      assert s == s[..2] + s[2..] && t == t[..2] + t[2..];
    } else {
      EscapedUnique(s[0], QuotedRest(s[1..]) + r, t[0], QuotedRest(t[1..]) + q);
      QuotedUnique(s[1..], r, t[1..], q);
      assert s == [s[0]] + s[1..] && t == [t[0]] + t[1..];
    }
  }

  // ----- Values -----

  function Numeral(n: int): (t: Text)
    ensures t != []
  {
    if n < 0 then [MINUS] + Digits(-n) else Digits(n)
  }

  /** The text of a value, object fields in the order they are stored. */
  function Print(v: Value): (t: Text)
    ensures t != []
    decreases v, 1
  {
    match v
    case Undefined => Quote(Lit("undefined"))
    case Null => Lit("null")
    case Bool(b) => if b then Lit("true") else Lit("false")
    case Num(n) => Numeral(n)
    case Str(s) => Quote(s)
    case Arr(items) =>
      if items == [] then [LBRACKET, RBRACKET] else [LBRACKET] + Print(items[0]) + MoreItems(items[1..])
    case Obj(fields) =>
      if fields == [] then [LBRACE, RBRACE]
      else [LBRACE] + PrintField(fields[0]) + MoreFields(fields[1..])
  }

  function MoreItems(items: seq<Value>): (t: Text)
    ensures t != []
    decreases items, 0
  {
    if items == [] then [RBRACKET] else [COMMA] + Print(items[0]) + MoreItems(items[1..])
  }

  function PrintField(f: Field): (t: Text)
    ensures t != [] && t[0] == QUOTE
    decreases f, 0
  {
    Quote(f.key) + [COLON] + Print(f.value)
  }

  function MoreFields(fields: seq<Field>): (t: Text)
    ensures t != []
    decreases fields, 0
  {
    if fields == [] then [RBRACE] else [COMMA] + PrintField(fields[0]) + MoreFields(fields[1..])
  }

  function Strings(ts: seq<Text>): Value {
    Arr(seq(|ts|, i requires 0 <= i < |ts| => Str(ts[i])))
  }

  // ----- The shape of the text -----

  /** The parts with commas between them. */
  function Separated(parts: seq<Text>): Text {
    if parts == [] then []
    else if |parts| == 1 then parts[0]
    else parts[0] + (Lit(",") + Separated(parts[1..]))
  }

  function ItemTexts(items: seq<Value>): seq<Text> {
    if items == [] then [] else [Print(items[0])] + ItemTexts(items[1..])
  }

  function FieldTexts(fields: seq<Field>): seq<Text> {
    if fields == [] then [] else [Quote(fields[0].key) + (Lit(":") + Print(fields[0].value))] + FieldTexts(fields[1..])
  }

  lemma {:induction false} MoreItemsAre(items: seq<Value>)
    ensures MoreItems(items) == if items == [] then Lit("]") else Lit(",") + (Separated(ItemTexts(items)) + Lit("]"))
  {
    if items != [] {
      var rest, first := items[1..], Print(items[0]);
      MoreItemsAre(rest);
      assert ItemTexts(items)[1..] == ItemTexts(rest);
      if rest != [] {
        Assoc(first, Lit(",") + Separated(ItemTexts(rest)), Lit("]"));
        Assoc(Lit(","), Separated(ItemTexts(rest)), Lit("]"));
        assert |ItemTexts(items)| > 1;
      }
      Assoc([COMMA], first, MoreItems(rest));
      assert Lit(",") == [COMMA];
    }
  }

  /** An array is its items' texts between brackets, with commas between them. */
  lemma ArrayText(items: seq<Value>)
    ensures Print(Arr(items)) == Lit("[") + (Separated(ItemTexts(items)) + Lit("]"))
  {
    assert Lit("[") == [LBRACKET] && Lit("]") == [RBRACKET] && Lit(",") == [COMMA];
    if items != [] {
      MoreItemsAre(items);
      assert [COMMA] + (Print(items[0]) + MoreItems(items[1..])) == [COMMA] + (Separated(ItemTexts(items)) + [RBRACKET]) by {
        Assoc([COMMA], Print(items[0]), MoreItems(items[1..]));
      }
      FixedUnique([COMMA], Print(items[0]) + MoreItems(items[1..]), Separated(ItemTexts(items)) + [RBRACKET]);
      Assoc([LBRACKET], Print(items[0]), MoreItems(items[1..]));
    }
  }

  lemma {:induction false} MoreFieldsAre(fields: seq<Field>)
    ensures MoreFields(fields) == if fields == [] then Lit("}") else Lit(",") + (Separated(FieldTexts(fields)) + Lit("}"))
  {
    if fields != [] {
      var rest, first := fields[1..], PrintField(fields[0]);
      MoreFieldsAre(rest);
      FieldText(fields[0]);
      assert FieldTexts(fields)[1..] == FieldTexts(rest) && FieldTexts(fields)[0] == first;
      if rest != [] {
        Assoc(first, Lit(",") + Separated(FieldTexts(rest)), Lit("}"));
        Assoc(Lit(","), Separated(FieldTexts(rest)), Lit("}"));
        assert |FieldTexts(fields)| > 1;
      }
      Assoc([COMMA], first, MoreFields(rest));
      assert Lit(",") == [COMMA];
    }
  }

  lemma FieldText(f: Field)
    ensures PrintField(f) == Quote(f.key) + (Lit(":") + Print(f.value))
  {
    assert Lit(":") == [COLON];
    Assoc(Quote(f.key), [COLON], Print(f.value));
  }

  /** An object is its fields between braces: quoted key, colon, value, with commas between them. */
  lemma ObjectText(fields: seq<Field>)
    ensures Print(Obj(fields)) == Lit("{") + (Separated(FieldTexts(fields)) + Lit("}"))
  {
    assert Lit("{") == [LBRACE] && Lit("}") == [RBRACE] && Lit(",") == [COMMA];
    if fields != [] {
      MoreFieldsAre(fields);
      assert [COMMA] + (PrintField(fields[0]) + MoreFields(fields[1..])) == [COMMA] + (Separated(FieldTexts(fields)) + [RBRACE]) by {
        Assoc([COMMA], PrintField(fields[0]), MoreFields(fields[1..]));
      }
      FixedUnique([COMMA], PrintField(fields[0]) + MoreFields(fields[1..]), Separated(FieldTexts(fields)) + [RBRACE]);
      Assoc([LBRACE], PrintField(fields[0]), MoreFields(fields[1..]));
    }
  }

  /** A unit that stands for itself inside quotes. */
  predicate PlainUnit(u: CodeUnit) {
    u >= 0x20 && u != '"' as int && u != '\\' as int && !HighSurrogate(u) && !LowSurrogate(u)
  }

  /** A text of such units is quoted as it is; the others have the escapes of the standard. */
  lemma {:induction false} PlainQuoted(s: Text)
    requires AllOf(PlainUnit, s)
    ensures QuotedRest(s) == s + Lit("\"") && Quote(s) == Lit("\"") + (s + Lit("\""))
  {
    assert Lit("\"") == [QUOTE];
    if s != [] {
      PlainQuoted(s[1..]);
      assert s == [s[0]] + s[1..];
      Assoc([s[0]], s[1..], [QUOTE]);
    }
  }

  lemma EscapeTable(u: CodeUnit)
    ensures Escaped(8) == Lit("\\b") && Escaped(9) == Lit("\\t") && Escaped(10) == Lit("\\n")
    ensures Escaped(12) == Lit("\\f") && Escaped(13) == Lit("\\r")
    ensures Escaped('"' as int) == Lit("\\\"") && Escaped('\\' as int) == Lit("\\\\")
    ensures u < 0x20 && u !in {8, 9, 10, 12, 13} ==>
              Escaped(u) == Lit("\\u00") + [HexDigitOf(u / 16), HexDigitOf(u % 16)]
    ensures PlainUnit(u) ==> Escaped(u) == [u]
  {
  }

  /** No `undefined` anywhere inside. */
  predicate Defined(v: Value)
    decreases v
  {
    match v
    case Undefined => false
    case Arr(items) => forall i :: 0 <= i < |items| ==> Defined(items[i])
    case Obj(fields) => forall i :: 0 <= i < |fields| ==> Defined(fields[i].value)
    case _ => true
  }

  /** What may follow a value inside a printed array or object. */
  predicate Delimited(t: Text) {
    t == [] || t[0] in {COMMA, RBRACKET, RBRACE}
  }

  lemma NumeralHead(n: int)
    ensures Numeral(n)[0] == MINUS || Digit(Numeral(n)[0])
    ensures Numeral(n)[0] == MINUS <==> n < 0
  {
  }

  /** The first unit of a printed value tells its constructor. */
  lemma PrintHead(v: Value)
    requires Defined(v)
    ensures var c := Print(v)[0];
            && (v.Null? <==> c == 'n' as int)
            && (v == Bool(true) <==> c == 't' as int)
            && (v == Bool(false) <==> c == 'f' as int)
            && (v.Num? <==> c == MINUS || Digit(c))
            && (v.Str? <==> c == QUOTE)
            && (v.Arr? <==> c == LBRACKET)
            && (v.Obj? <==> c == LBRACE)
            && c !in {COMMA, RBRACKET, RBRACE}
  {
    if v.Num? {
      NumeralHead(v.n);
    }
  }

  lemma NumeralUnique(n: int, r: Text, m: int, q: Text)
    requires Delimited(r) && Delimited(q)
    requires Numeral(n) + r == Numeral(m) + q
    ensures n == m && r == q
  {
    NumeralHead(n);
    NumeralHead(m);
    Head(Numeral(n), r);
    Head(Numeral(m), q);
    if n < 0 {
      Assoc([MINUS], Digits(-n), r);
      Assoc([MINUS], Digits(-m), q);
      FixedUnique([MINUS], Digits(-n) + r, Digits(-m) + q);
      NumeralsSplit(-n, r, -m, q);
    } else {
      NumeralsSplit(n, r, m, q);
    }
  }

  // The printed forms with the remainder to the right of every concatenation.

  lemma ArrayPeel(xs: seq<Value>, r: Text)
    ensures Print(Arr(xs)) + r ==
            [LBRACKET] + (if xs == [] then [RBRACKET] + r else Print(xs[0]) + (MoreItems(xs[1..]) + r))
  {
    if xs != [] {
      Assoc([LBRACKET], Print(xs[0]), MoreItems(xs[1..]));
      Assoc([LBRACKET], Print(xs[0]) + MoreItems(xs[1..]), r);
      Assoc(Print(xs[0]), MoreItems(xs[1..]), r);
    }
  }

  lemma ItemsPeel(xs: seq<Value>, r: Text)
    ensures MoreItems(xs) + r ==
            if xs == [] then [RBRACKET] + r else [COMMA] + (Print(xs[0]) + (MoreItems(xs[1..]) + r))
    ensures Delimited(MoreItems(xs) + r)
  {
    if xs != [] {
      Assoc([COMMA], Print(xs[0]), MoreItems(xs[1..]));
      Assoc([COMMA], Print(xs[0]) + MoreItems(xs[1..]), r);
      Assoc(Print(xs[0]), MoreItems(xs[1..]), r);
    }
  }

  lemma ObjectPeel(xs: seq<Field>, r: Text)
    ensures Print(Obj(xs)) + r ==
            [LBRACE] + (if xs == [] then [RBRACE] + r else PrintField(xs[0]) + (MoreFields(xs[1..]) + r))
  {
    if xs != [] {
      Assoc([LBRACE], PrintField(xs[0]), MoreFields(xs[1..]));
      Assoc([LBRACE], PrintField(xs[0]) + MoreFields(xs[1..]), r);
      Assoc(PrintField(xs[0]), MoreFields(xs[1..]), r);
    }
  }

  lemma FieldsPeel(xs: seq<Field>, r: Text)
    ensures MoreFields(xs) + r ==
            if xs == [] then [RBRACE] + r else [COMMA] + (PrintField(xs[0]) + (MoreFields(xs[1..]) + r))
    ensures Delimited(MoreFields(xs) + r)
  {
    if xs != [] {
      Assoc([COMMA], PrintField(xs[0]), MoreFields(xs[1..]));
      Assoc([COMMA], PrintField(xs[0]) + MoreFields(xs[1..]), r);
      Assoc(PrintField(xs[0]), MoreFields(xs[1..]), r);
    }
  }

  lemma FieldPeel(f: Field, r: Text)
    ensures PrintField(f) + r == [QUOTE] + (QuotedRest(f.key) + ([COLON] + (Print(f.value) + r)))
  {
    var k, v := QuotedRest(f.key), Print(f.value);
    Assoc([QUOTE], k, [COLON]);
    Assoc([QUOTE], k + [COLON], v);
    Assoc([QUOTE], k + [COLON] + v, r);
    Assoc(k, [COLON], v);
    Assoc(k, [COLON] + v, r);
    Assoc([COLON], v, r);
  }

  /** Unique decoding: a printed value followed by a delimiter determines value and remainder. */
  lemma {:induction false} PrintUnique(v: Value, r: Text, w: Value, q: Text)
    requires Defined(v) && Defined(w) && Delimited(r) && Delimited(q)
    requires Print(v) + r == Print(w) + q
    ensures v == w && r == q
    decreases v, 1
  {
    PrintHead(v);
    PrintHead(w);
    Head(Print(v), r);
    Head(Print(w), q);
    match v
    case Null => FixedUnique(Print(v), r, q);
    case Bool(b) => FixedUnique(Print(v), r, q);
    case Num(n) => NumeralUnique(n, r, w.n, q);
    case Str(s) =>
      Assoc([QUOTE], QuotedRest(s), r);
      Assoc([QUOTE], QuotedRest(w.s), q);
      FixedUnique([QUOTE], QuotedRest(s) + r, QuotedRest(w.s) + q);
      QuotedUnique(s, r, w.s, q);
    case Arr(items) =>
      ArrayPeel(items, r);
      ArrayPeel(w.items, q);
      ArrayUnique(items, r, w.items, q);
    case Obj(fields) =>
      ObjectPeel(fields, r);
      ObjectPeel(w.fields, q);
      ObjectUnique(fields, r, w.fields, q);
  }

  function ArrayInside(xs: seq<Value>, r: Text): Text {
    if xs == [] then [RBRACKET] + r else Print(xs[0]) + (MoreItems(xs[1..]) + r)
  }

  lemma ArrayInsideHead(xs: seq<Value>, r: Text)
    requires Defined(Arr(xs))
    ensures ArrayInside(xs, r) != [] && (ArrayInside(xs, r)[0] == RBRACKET <==> xs == [])
  {
    if xs != [] {
      PrintHead(xs[0]);
      Head(Print(xs[0]), MoreItems(xs[1..]) + r);
    }
  }

  lemma {:induction false} ArrayUnique(xs: seq<Value>, r: Text, ys: seq<Value>, q: Text)
    requires Defined(Arr(xs)) && Defined(Arr(ys)) && Delimited(r) && Delimited(q)
    requires [LBRACKET] + ArrayInside(xs, r) == [LBRACKET] + ArrayInside(ys, q)
    ensures xs == ys && r == q
    decreases xs, 2
  {
    FixedUnique([LBRACKET], ArrayInside(xs, r), ArrayInside(ys, q));
    ArrayInsideHead(xs, r);
    ArrayInsideHead(ys, q);
    if xs == [] {
      FixedUnique([RBRACKET], r, q);
    } else {
      ItemsUnique(xs, r, ys, q);
    }
  }

  /** Nonempty item lists. */
  lemma {:induction false} ItemsUnique(xs: seq<Value>, r: Text, ys: seq<Value>, q: Text)
    requires Defined(Arr(xs)) && Defined(Arr(ys)) && Delimited(r) && Delimited(q)
    requires xs != [] && ys != []
    requires Print(xs[0]) + (MoreItems(xs[1..]) + r) == Print(ys[0]) + (MoreItems(ys[1..]) + q)
    ensures xs == ys && r == q
    decreases xs, 1
  {
    var xt, yt := xs[1..], ys[1..];
    ItemsPeel(xt, r);
    ItemsPeel(yt, q);
    PrintUnique(xs[0], MoreItems(xt) + r, ys[0], MoreItems(yt) + q);
    MoreItemsUnique(xt, r, yt, q);
    assert xs == [xs[0]] + xt && ys == [ys[0]] + yt;
  }

  lemma {:induction false} MoreItemsUnique(xs: seq<Value>, r: Text, ys: seq<Value>, q: Text)
    requires Defined(Arr(xs)) && Defined(Arr(ys)) && Delimited(r) && Delimited(q)
    requires MoreItems(xs) + r == MoreItems(ys) + q
    ensures xs == ys && r == q
    decreases xs, 2
  {
    ItemsPeel(xs, r);
    ItemsPeel(ys, q);
    if xs == [] {
      assert ys == [];
      FixedUnique([RBRACKET], r, q);
    } else {
      FixedUnique([COMMA], Print(xs[0]) + (MoreItems(xs[1..]) + r), Print(ys[0]) + (MoreItems(ys[1..]) + q));
      ItemsUnique(xs, r, ys, q);
    }
  }

  lemma {:induction false} FieldUnique(f: Field, r: Text, g: Field, q: Text)
    requires Defined(f.value) && Defined(g.value) && Delimited(r) && Delimited(q)
    requires PrintField(f) + r == PrintField(g) + q
    ensures f == g && r == q
    decreases f, 0
  {
    var fr, gq := [COLON] + (Print(f.value) + r), [COLON] + (Print(g.value) + q);
    FieldPeel(f, r);
    FieldPeel(g, q);
    FixedUnique([QUOTE], QuotedRest(f.key) + fr, QuotedRest(g.key) + gq);
    QuotedUnique(f.key, fr, g.key, gq);
    FixedUnique([COLON], Print(f.value) + r, Print(g.value) + q);
    PrintUnique(f.value, r, g.value, q);
  }

  function ObjectInside(xs: seq<Field>, r: Text): Text {
    if xs == [] then [RBRACE] + r else PrintField(xs[0]) + (MoreFields(xs[1..]) + r)
  }

  lemma {:induction false} ObjectUnique(xs: seq<Field>, r: Text, ys: seq<Field>, q: Text)
    requires Defined(Obj(xs)) && Defined(Obj(ys)) && Delimited(r) && Delimited(q)
    requires [LBRACE] + ObjectInside(xs, r) == [LBRACE] + ObjectInside(ys, q)
    ensures xs == ys && r == q
    decreases xs, 2
  {
    FixedUnique([LBRACE], ObjectInside(xs, r), ObjectInside(ys, q));
    if xs != [] { Head(PrintField(xs[0]), MoreFields(xs[1..]) + r); }
    if ys != [] { Head(PrintField(ys[0]), MoreFields(ys[1..]) + q); }
    assert xs == [] <==> ObjectInside(xs, r)[0] == RBRACE;
    assert ys == [] <==> ObjectInside(ys, q)[0] == RBRACE;
    if xs == [] {
      FixedUnique([RBRACE], r, q);
    } else {
      FieldsUnique(xs, r, ys, q);
    }
  }

  /** Nonempty field lists. */
  lemma {:induction false} FieldsUnique(xs: seq<Field>, r: Text, ys: seq<Field>, q: Text)
    requires Defined(Obj(xs)) && Defined(Obj(ys)) && Delimited(r) && Delimited(q)
    requires xs != [] && ys != []
    requires PrintField(xs[0]) + (MoreFields(xs[1..]) + r) == PrintField(ys[0]) + (MoreFields(ys[1..]) + q)
    ensures xs == ys && r == q
    decreases xs, 1
  {
    var xt, yt := xs[1..], ys[1..];
    FieldsPeel(xt, r);
    FieldsPeel(yt, q);
    FieldUnique(xs[0], MoreFields(xt) + r, ys[0], MoreFields(yt) + q);
    MoreFieldsUnique(xt, r, yt, q);
    assert xs == [xs[0]] + xt && ys == [ys[0]] + yt;
  }

  lemma {:induction false} MoreFieldsUnique(xs: seq<Field>, r: Text, ys: seq<Field>, q: Text)
    requires Defined(Obj(xs)) && Defined(Obj(ys)) && Delimited(r) && Delimited(q)
    requires MoreFields(xs) + r == MoreFields(ys) + q
    ensures xs == ys && r == q
    decreases xs, 2
  {
    FieldsPeel(xs, r);
    FieldsPeel(ys, q);
    if xs == [] {
      assert ys == [];
      FixedUnique([RBRACE], r, q);
    } else {
      FixedUnique([COMMA], PrintField(xs[0]) + (MoreFields(xs[1..]) + r), PrintField(ys[0]) + (MoreFields(ys[1..]) + q));
      FieldsUnique(xs, r, ys, q);
    }
  }

  /** Printing in field order is injective. */
  lemma PrintInjective(v: Value, w: Value)
    requires Defined(v) && Defined(w)
    ensures Print(v) == Print(w) <==> v == w
  {
    if Print(v) == Print(w) {
      assert Print(v) + [] == Print(w) + [];
      PrintUnique(v, [], w, []);
    }
  }

  // ----- What is hashed is well-formed UTF-16 -----

  /** Surrogates occur only as pairs, so that encoding the text in UTF-8 loses nothing. */
  predicate WellFormedUtf16(t: Text) {
    t == [] ||
    (if StartsWithPair(t) then WellFormedUtf16(t[2..])
     else !HighSurrogate(t[0]) && !LowSurrogate(t[0]) && WellFormedUtf16(t[1..]))
  }

  lemma {:induction false} WellFormedConcat(a: Text, b: Text)
    requires WellFormedUtf16(a) && WellFormedUtf16(b)
    ensures WellFormedUtf16(a + b)
  {
    if a == [] {
      assert a + b == b;
    } else if StartsWithPair(a) {
      WellFormedConcat(a[2..], b);
      assert (a + b)[2..] == a[2..] + b;
    } else {
      WellFormedConcat(a[1..], b);
      assert (a + b)[1..] == a[1..] + b;
    }
  }

  predicate NoSurrogate(t: Text) {
    forall i :: 0 <= i < |t| ==> t[i] < 0xD800
  }

  lemma {:induction false} NoSurrogateWellFormed(t: Text)
    requires NoSurrogate(t)
    ensures WellFormedUtf16(t)
  {
    if t != [] {
      NoSurrogateWellFormed(t[1..]);
    }
  }

  lemma EscapedWellFormed(u: CodeUnit)
    ensures WellFormedUtf16(Escaped(u))
  {
    if Escaped(u) == [u] {
      assert !HighSurrogate(u) && !LowSurrogate(u) && [u][1..] == [];
    } else {
      NoSurrogateWellFormed(Escaped(u));
    }
  }

  lemma {:induction false} QuotedWellFormed(s: Text)
    ensures WellFormedUtf16(QuotedRest(s))
  {
    if s == [] {
      NoSurrogateWellFormed([QUOTE]);
    } else if StartsWithPair(s) {
      QuotedWellFormed(s[2..]);
      assert (s[..2] + QuotedRest(s[2..]))[2..] == QuotedRest(s[2..]);
    } else {
      EscapedWellFormed(s[0]);
      QuotedWellFormed(s[1..]);
      WellFormedConcat(Escaped(s[0]), QuotedRest(s[1..]));
    }
  }

  lemma QuoteWellFormed(s: Text)
    ensures WellFormedUtf16(Quote(s))
  {
    NoSurrogateWellFormed([QUOTE]);
    QuotedWellFormed(s);
    WellFormedConcat([QUOTE], QuotedRest(s));
  }

  /** Whatever the strings inside, the printed text is well formed: lone surrogates are escaped. */
  lemma {:induction false} PrintWellFormed(v: Value)
    ensures WellFormedUtf16(Print(v))
    decreases v, 1
  {
    match v
    case Undefined => QuoteWellFormed(Lit("undefined"));
    case Null => NoSurrogateWellFormed(Print(v));
    case Bool(_) => NoSurrogateWellFormed(Print(v));
    case Num(n) => NoSurrogateWellFormed(Numeral(n));
    case Str(s) => QuoteWellFormed(s);
    case Arr(items) =>
      NoSurrogateWellFormed([LBRACKET]);
      if items == [] {
        NoSurrogateWellFormed(Print(v));
      } else {
        PrintWellFormed(items[0]);
        MoreItemsWellFormed(items[1..]);
        WellFormedConcat([LBRACKET], Print(items[0]));
        WellFormedConcat([LBRACKET] + Print(items[0]), MoreItems(items[1..]));
      }
    case Obj(fields) =>
      NoSurrogateWellFormed([LBRACE]);
      if fields == [] {
        NoSurrogateWellFormed(Print(v));
      } else {
        FieldWellFormed(fields[0]);
        MoreFieldsWellFormed(fields[1..]);
        WellFormedConcat([LBRACE], PrintField(fields[0]));
        WellFormedConcat([LBRACE] + PrintField(fields[0]), MoreFields(fields[1..]));
      }
  }

  lemma {:induction false} MoreItemsWellFormed(items: seq<Value>)
    ensures WellFormedUtf16(MoreItems(items))
    decreases items, 0
  {
    NoSurrogateWellFormed([COMMA]);
    NoSurrogateWellFormed([RBRACKET]);
    if items != [] {
      PrintWellFormed(items[0]);
      MoreItemsWellFormed(items[1..]);
      WellFormedConcat([COMMA], Print(items[0]));
      WellFormedConcat([COMMA] + Print(items[0]), MoreItems(items[1..]));
    }
  }

  lemma {:induction false} FieldWellFormed(f: Field)
    ensures WellFormedUtf16(PrintField(f))
    decreases f, 0
  {
    QuoteWellFormed(f.key);
    NoSurrogateWellFormed([COLON]);
    PrintWellFormed(f.value);
    WellFormedConcat(Quote(f.key), [COLON]);
    WellFormedConcat(Quote(f.key) + [COLON], Print(f.value));
  }

  lemma {:induction false} MoreFieldsWellFormed(fields: seq<Field>)
    ensures WellFormedUtf16(MoreFields(fields))
    decreases fields, 0
  {
    NoSurrogateWellFormed([COMMA]);
    NoSurrogateWellFormed([RBRACE]);
    if fields != [] {
      FieldWellFormed(fields[0]);
      MoreFieldsWellFormed(fields[1..]);
      WellFormedConcat([COMMA], PrintField(fields[0]));
      WellFormedConcat([COMMA] + PrintField(fields[0]), MoreFields(fields[1..]));
    }
  }
}

/** What an audit line says of the record it was written for, and which file it goes to:
    hex-executor-console-backend/src/safekeep/audit.ts.
 */
module AuditRecords {
  import opened Common
  import opened Texts
  import opened Json
  import opened AuditChain

  // ----- Looking a key up -----

  ghost predicate FirstWith(fields: seq<Field>, i: nat, key: Text) {
    i < |fields| && fields[i].key == key && forall j :: 0 <= j < i ==> fields[j].key != key
  }

  lemma {:induction false} GetFirst(fields: seq<Field>, i: nat, key: Text)
    requires FirstWith(fields, i, key)
    ensures Get(fields, key) == fields[i].value
  {
    if i > 0 {
      GetFirst(fields[1..], i - 1, key);
    }
  }

  lemma {:induction false} GetNone(fields: seq<Field>, key: Text)
    requires forall j :: 0 <= j < |fields| ==> fields[j].key != key
    ensures Get(fields, key) == Undefined
  {
    if fields != [] {
      GetNone(fields[1..], key);
    }
  }

  function Slot(t: Option<Text>): nat {
    if t.Some? then 1 else 0
  }

  /** Where each field of a record lies. */
  lemma Places(r: AuditRecord)
    ensures var fs, p, q := RecordFields(r), Slot(r.restorePointId), Slot(r.detail);
            && |fs| == 9 + p + q + Slot(r.eventType)
            && fs[0] == Field(Lit("timestamp"), Str(r.timestamp)) && fs[1] == Field(Lit("user"), Str(r.user))
            && fs[2] == Field(Lit("commandId"), Str(r.commandId)) && fs[3] == Field(Lit("category"), Str(r.category))
            && fs[4] == Field(Lit("intent"), Str(r.intent)) && fs[5] == Field(Lit("isMutating"), Bool(r.isMutating))
            && fs[6] == Field(Lit("backupStatus"), Str(r.backupStatus))
            && (r.restorePointId.Some? ==> fs[7] == Field(Lit("restorePointId"), Str(r.restorePointId.value)))
            && fs[7 + p] == Field(Lit("affectedPaths"), Strings(r.affectedPaths))
            && fs[8 + p] == Field(Lit("result"), Str(r.result))
            && (r.detail.Some? ==> fs[9 + p] == Field(Lit("detail"), Str(r.detail.value)))
            && (r.eventType.Some? ==> fs[9 + p + q] == Field(Lit("eventType"), Str(r.eventType.value)))
  {
  }

  /** The number of a key among the twelve, by its length and first unit. */
  function KeyNo(key: Text): int {
    if |key| == 9 then (if key[0] == 't' as int then 0 else if key[0] == 'c' as int then 2 else 11)
    else if |key| == 4 then 1
    else if |key| == 8 then 3
    else if |key| == 6 then (if key[0] == 'i' as int then 4 else if key[0] == 'r' as int then 9 else 10)
    else if |key| == 10 then 5
    else if |key| == 12 then 6
    else if |key| == 14 then 7
    else if |key| == 13 then 8
    else -1
  }

  function NumberAt(i: nat, p: nat, q: nat): int {
    if i < 7 then i
    else if i == 7 && p == 1 then 7
    else if i == 7 + p then 8
    else if i == 8 + p then 9
    else if i == 9 + p && q == 1 then 10
    else 11
  }

  lemma KeyNumbers()
    ensures KeyNo(Lit("timestamp")) == 0 && KeyNo(Lit("user")) == 1 && KeyNo(Lit("commandId")) == 2
    ensures KeyNo(Lit("category")) == 3 && KeyNo(Lit("intent")) == 4 && KeyNo(Lit("isMutating")) == 5
    ensures KeyNo(Lit("backupStatus")) == 6 && KeyNo(Lit("restorePointId")) == 7 && KeyNo(Lit("affectedPaths")) == 8
    ensures KeyNo(Lit("result")) == 9 && KeyNo(Lit("detail")) == 10 && KeyNo(Lit("eventType")) == 11
  {
  }

  lemma KeysApart(r: AuditRecord)
    ensures forall i, j :: 0 <= i < j < |RecordFields(r)| ==> RecordFields(r)[i].key != RecordFields(r)[j].key
  {
    var fs, p, q := RecordFields(r), Slot(r.restorePointId), Slot(r.detail);
    Places(r);
    KeyNumbers();
    forall i | 0 <= i < |fs|
      ensures KeyNo(fs[i].key) == NumberAt(i, p, q)
    {
    }
    forall i, j | 0 <= i < j < |fs|
      ensures fs[i].key != fs[j].key
    {
      assert NumberAt(i, p, q) < NumberAt(j, p, q);
    }
  }

  lemma GetAt(r: AuditRecord, i: nat)
    requires i < |RecordFields(r)|
    ensures Get(RecordFields(r), RecordFields(r)[i].key) == RecordFields(r)[i].value
  {
    KeysApart(r);
    GetFirst(RecordFields(r), i, RecordFields(r)[i].key);
  }

  lemma NoOther(r: AuditRecord, key: Text)
    requires (KeyNo(key) == 7 && r.restorePointId.None?) || (KeyNo(key) == 10 && r.detail.None?) || (KeyNo(key) == 11 && r.eventType.None?)
    ensures Get(RecordFields(r), key) == Undefined
  {
    var fs, p, q := RecordFields(r), Slot(r.restorePointId), Slot(r.detail);
    Places(r);
    KeyNumbers();
    forall i | 0 <= i < |fs|
      ensures fs[i].key != key
    {
      assert KeyNo(fs[i].key) == NumberAt(i, p, q);
    }
    GetNone(fs, key);
  }

  function Maybe(t: Option<Text>): Value {
    if t.Some? then Str(t.value) else Undefined
  }

  /** What a line is asked for under a key is what the record says there. */
  ghost predicate ReadsAs(fields: seq<Field>, r: AuditRecord) {
    && Get(fields, Lit("timestamp")) == Str(r.timestamp) && Get(fields, Lit("user")) == Str(r.user)
    && Get(fields, Lit("commandId")) == Str(r.commandId) && Get(fields, Lit("category")) == Str(r.category)
    && Get(fields, Lit("intent")) == Str(r.intent) && Get(fields, Lit("isMutating")) == Bool(r.isMutating)
    && Get(fields, Lit("backupStatus")) == Str(r.backupStatus) && Get(fields, Lit("restorePointId")) == Maybe(r.restorePointId)
    && Get(fields, Lit("affectedPaths")) == Strings(r.affectedPaths) && Get(fields, Lit("result")) == Str(r.result)
    && Get(fields, Lit("detail")) == Maybe(r.detail) && Get(fields, Lit("eventType")) == Maybe(r.eventType)
  }

  lemma OptionalFields(r: AuditRecord)
    ensures Get(RecordFields(r), Lit("restorePointId")) == Maybe(r.restorePointId)
    ensures Get(RecordFields(r), Lit("detail")) == Maybe(r.detail)
    ensures Get(RecordFields(r), Lit("eventType")) == Maybe(r.eventType)
  {
    var p, q := Slot(r.restorePointId), Slot(r.detail);
    Places(r);
    KeyNumbers();
    if r.restorePointId.Some? { GetAt(r, 7); } else { NoOther(r, Lit("restorePointId")); }
    if r.detail.Some? { GetAt(r, 9 + p); } else { NoOther(r, Lit("detail")); }
    if r.eventType.Some? { GetAt(r, 9 + p + q); } else { NoOther(r, Lit("eventType")); }
  }

  /** The payload read back from a line names every field of the record it was written for. */
  lemma RecordReads(r: AuditRecord)
    ensures ReadsAs(RecordFields(r), r)
  {
    var p := Slot(r.restorePointId);
    Places(r);
    GetAt(r, 0);
    GetAt(r, 1);
    GetAt(r, 2);
    GetAt(r, 3);
    GetAt(r, 4);
    GetAt(r, 5);
    GetAt(r, 6);
    GetAt(r, 7 + p);
    GetAt(r, 8 + p);
    OptionalFields(r);
  }

  lemma StringsUnique(s: seq<Text>, t: seq<Text>)
    requires Strings(s) == Strings(t)
    ensures s == t
  {
    var a, b := Strings(s).items, Strings(t).items;
    forall i | 0 <= i < |s|
      ensures s[i] == t[i]
    {
      assert a[i] == Str(s[i]) && b[i] == Str(t[i]);
    }
  }

  /** So equal payloads are of equal records. */
  lemma PayloadNamesRecord(a: AuditRecord, b: AuditRecord)
    ensures RecordFields(a) == RecordFields(b) <==> a == b
  {
    if RecordFields(a) == RecordFields(b) {
      RecordReads(a);
      RecordReads(b);
      StringsUnique(a.affectedPaths, b.affectedPaths);
    }
  }

  /** What the entry hash of a line is taken of: the head before it, a bar, and the record's text. */
  lemma HashedText(h: Text -> Text, prev: Text, r: AuditRecord)
    ensures HasHashes(LineOf(h, prev, r))
    ensures EntryHash(LineOf(h, prev, r)) == h(prev + (Lit("|") + Print(Obj(RecordFields(r)))))
  {
    LineReadsBack(h, prev, r);
    assert Lit("|") == [BAR];
    Assoc(prev, [BAR], Print(Obj(RecordFields(r))));
  }

  /** An entry hash names the head before it and the record. */
  lemma DigestNamesRecord(h: Text -> Text, p: Text, a: AuditRecord, q: Text, b: AuditRecord)
    requires Ideal(h) && AllOf(NotBar, p) && AllOf(NotBar, q)
    requires DigestOf(h, p, RecordFields(a)) == DigestOf(h, q, RecordFields(b))
    ensures p == q && a == b
  {
    DigestNamesPayload(h, p, a, q, b);
    PayloadNamesRecord(a, b);
  }

  lemma DigestNamesPayload(h: Text -> Text, p: Text, a: AuditRecord, q: Text, b: AuditRecord)
    requires Ideal(h) && AllOf(NotBar, p) && AllOf(NotBar, q)
    requires DigestOf(h, p, RecordFields(a)) == DigestOf(h, q, RecordFields(b))
    ensures p == q && RecordFields(a) == RecordFields(b)
  {
    RecordKeys(a);
    RecordKeys(b);
    DigestBinds(h, p, RecordFields(a), q, RecordFields(b));
  }

  lemma HeadPeel(h: Text -> Text, records: seq<AuditRecord>) returns (before: Text, last: AuditRecord)
    requires Ideal(h) && records != []
    ensures last == records[|records| - 1] && before == HeadAfter(h, GENESIS, records[..|records| - 1])
    ensures HeadAfter(h, GENESIS, records) == DigestOf(h, before, RecordFields(last)) && AllOf(NotBar, before)
  {
    before, last := HeadAfter(h, GENESIS, records[..|records| - 1]), records[|records| - 1];
    HeadHasNoBar(h, records[..|records| - 1]);
  }

  /** The stored head pins the whole history begun at `genesis`: two histories that lead to the same
      head are the same, record by record. */
  lemma {:induction false} HeadPinsHistory(h: Text -> Text, a: seq<AuditRecord>, b: seq<AuditRecord>)
    requires Ideal(h) && HeadAfter(h, GENESIS, a) == HeadAfter(h, GENESIS, b)
    ensures a == b
    decreases |a|
  {
    HeadsTellLength(h, a, b);
    if a != [] {
      var p, r := HeadPeel(h, a);
      var q, s := HeadPeel(h, b);
      DigestNamesRecord(h, p, r, q, s);
      HeadPinsHistory(h, a[..|a| - 1], b[..|b| - 1]);
      assert a == a[..|a| - 1] + [r] && b == b[..|b| - 1] + [s];
    }
  }

  // ----- The file of a day, and the head -----

  const HYPHEN: CodeUnit := '-' as int

  /** The text begins with a date of year, month and day. */
  ghost predicate Dated(t: Text) {
    && |t| >= 10 && t[4] == HYPHEN && t[7] == HYPHEN
    && forall i :: 0 <= i < 10 && i != 4 && i != 7 ==> t[i] != HYPHEN
  }

  lemma {:induction false} HyphenOut(a: Text, b: Text)
    requires forall i :: 0 <= i < |a| ==> a[i] != HYPHEN
    ensures WithoutHyphens(a + b) == a + WithoutHyphens(b)
  {
    if a == [] {
      assert a + b == b;
    } else {
      HyphenOut(a[1..], b);
      assert (a + b)[1..] == a[1..] + b;
    }
  }

  /** A dated record goes to the file named by its date without hyphens, so two of them go to the same
      file exactly when they are of the same day. */
  lemma DayNamesDate(t: Text)
    requires Dated(t)
    ensures DayOf(t) == t[..4] + t[5..7] + t[8..10]
  {
    var y, m, d := t[..4], t[5..7], t[8..10];
    assert t[..10] == y + ([HYPHEN] + (m + ([HYPHEN] + d)));
    HyphenOut(y, [HYPHEN] + (m + ([HYPHEN] + d)));
    assert ([HYPHEN] + (m + ([HYPHEN] + d)))[1..] == m + ([HYPHEN] + d);
    HyphenOut(m, [HYPHEN] + d);
    assert ([HYPHEN] + d)[1..] == d + [];
    HyphenOut(d, []);
    assert d + [] == d;
  }

  lemma SameFileIff(s: Text, t: Text)
    requires Dated(s) && Dated(t)
    ensures DayOf(s) == DayOf(t) <==> s[..10] == t[..10]
  {
    DayNamesDate(s);
    DayNamesDate(t);
    if DayOf(s) == DayOf(t) {
      var x, y := DayOf(s), DayOf(t);
      assert x[..4] == s[..4] && y[..4] == t[..4];
      assert x[4..6] == s[5..7] && y[4..6] == t[5..7];
      assert x[6..8] == s[8..10] && y[6..8] == t[8..10];
      assert s[..10] == s[..4] + [HYPHEN] + s[5..7] + [HYPHEN] + s[8..10];
      assert t[..10] == t[..4] + [HYPHEN] + t[5..7] + [HYPHEN] + t[8..10];
    }
    if s[..10] == t[..10] {
      assert s[..4] == s[..10][..4] && s[5..7] == s[..10][5..7] && s[8..10] == s[..10][8..10];
      assert t[..4] == t[..10][..4] && t[5..7] == t[..10][5..7] && t[8..10] == t[..10][8..10];
    }
  }

  /** The chain begins at `genesis` exactly without a head file, with a blank one, or with that word in
      it; otherwise it goes on from what the file holds between white space. */
  lemma HeadRead(head: Option<Text>) returns (i: nat, j: nat)
    ensures head.None? ==> EffectiveHead(head) == Lit("genesis")
    ensures head.Some? ==>
      && i <= j <= |head.value| && SpaceBetween(head.value, 0, i) && SpaceBetween(head.value, j, |head.value|)
      && (i < j ==> !IsSpace(head.value[i]) && !IsSpace(head.value[j - 1]))
      && EffectiveHead(head) == if i == j then Lit("genesis") else head.value[i..j]
  {
    i, j := 0, 0;
    if head.Some? {
      i, j := TrimSplits(head.value);
    }
  }
}

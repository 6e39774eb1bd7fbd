/** The hash-chained audit log: hex-executor-console-backend/src/safekeep/audit.ts appends,
    auditVerify.ts checks one day file.
 */
module AuditChain {
  import opened Common
  import opened Texts
  import opened Json

  datatype AuditRecord = AuditRecord(
    timestamp: Text,
    user: Text,
    commandId: Text,
    category: Text,
    intent: Text,
    isMutating: bool,
    backupStatus: Text,
    restorePointId: Option<Text>,
    affectedPaths: seq<Text>,
    result: Text,
    detail: Option<Text>,
    eventType: Option<Text>)

  /** What the JSON parser makes of one line of a log file. */
  datatype Line = Unparsable | Parsed(value: Value)

  const PREV_HASH := Lit("prevHash")
  const ENTRY_HASH := Lit("entryHash")

  // ----- Records as JSON objects -----

  function Optional(key: Text, t: Option<Text>): seq<Field> {
    if t.Some? then [Field(key, Str(t.value))] else []
  }

  /** The enumerable fields of a record: absent optional fields are not serialised. */
  function RecordFields(r: AuditRecord): seq<Field> {
    [ Field(Lit("timestamp"), Str(r.timestamp)),
      Field(Lit("user"), Str(r.user)),
      Field(Lit("commandId"), Str(r.commandId)),
      Field(Lit("category"), Str(r.category)),
      Field(Lit("intent"), Str(r.intent)),
      Field(Lit("isMutating"), Bool(r.isMutating)),
      Field(Lit("backupStatus"), Str(r.backupStatus)) ]
    + Optional(Lit("restorePointId"), r.restorePointId)
    + [ Field(Lit("affectedPaths"), Strings(r.affectedPaths)),
        Field(Lit("result"), Str(r.result)) ]
    + Optional(Lit("detail"), r.detail)
    + Optional(Lit("eventType"), r.eventType)
  }

  function DigestOf(h: Text -> Text, prev: Text, payload: seq<Field>): Text {
    h(prev + [BAR] + Print(Obj(payload)))
  }

  /** The line appended for `r` when the chain head is `prev`. */
  function LineOf(h: Text -> Text, prev: Text, r: AuditRecord): Line {
    Parsed(Obj(RecordFields(r) + [
      Field(PREV_HASH, Str(prev)),
      Field(ENTRY_HASH, Str(DigestOf(h, prev, RecordFields(r))))]))
  }

  // ----- Reading a line back -----

  /** Property lookup on a parsed object; `Undefined` when the key is absent. */
  function Get(fields: seq<Field>, key: Text): Value {
    if fields == [] then Undefined
    else if fields[0].key == key then fields[0].value
    else Get(fields[1..], key)
  }

  /** The rest of the object after `prevHash` and `entryHash` are taken out. */
  function Payload(fields: seq<Field>): seq<Field> {
    if fields == [] then []
    else if fields[0].key == PREV_HASH || fields[0].key == ENTRY_HASH then Payload(fields[1..])
    else [fields[0]] + Payload(fields[1..])
  }

  predicate HasHashes(line: Line) {
    line.Parsed? && line.value.Obj? && Get(line.value.fields, PREV_HASH).Str? && Get(line.value.fields, ENTRY_HASH).Str?
  }

  function PrevHash(line: Line): Text
    requires HasHashes(line)
  {
    Get(line.value.fields, PREV_HASH).s
  }

  function EntryHash(line: Line): Text
    requires HasHashes(line)
  {
    Get(line.value.fields, ENTRY_HASH).s
  }

  function Entry(line: Line): seq<Field>
    requires HasHashes(line)
  {
    Payload(line.value.fields)
  }

  // ----- Valid chains -----

  ghost predicate Links(h: Text -> Text, prev: Text, line: Line) {
    HasHashes(line) && PrevHash(line) == prev && EntryHash(line) == DigestOf(h, prev, Entry(line))
  }

  function LastHash(lines: seq<Line>): Text {
    if lines != [] && HasHashes(lines[|lines| - 1]) then EntryHash(lines[|lines| - 1]) else GENESIS
  }

  /** Every line names the hash of the line before it (`genesis` for the first) and carries the
      hash of that and of its own payload. */
  ghost predicate ValidChain(h: Text -> Text, lines: seq<Line>) {
    lines == [] ||
    (ValidChain(h, lines[..|lines| - 1]) && Links(h, LastHash(lines[..|lines| - 1]), lines[|lines| - 1]))
  }

  /** A JSON text never yields the host value `undefined`. */
  ghost predicate FromJson(lines: seq<Line>) {
    forall i :: 0 <= i < |lines| && lines[i].Parsed? ==> Defined(lines[i].value)
  }

  // ----- The verifier -----

  datatype Fault =
    | ParseFailed
    | HashesMissing
    | PrevHashMismatch(expected: Text, actual: Text)
    | EntryHashMismatch(expected: Text, actual: Text)

  datatype Verdict =
    | Accepted(linesVerified: nat)
    | Broken(linesVerified: nat, brokenAtLine: nat, fault: Fault)
    | Thrown(brokenAtLine: nat)

  /** The fault is the first one of `line`, checked against the hash `prev` before it. */
  predicate FaultOf(h: Text -> Text, prev: Text, line: Line, fault: Fault) {
    match fault
    case ParseFailed => line.Unparsable?
    case HashesMissing => line.Parsed? && !line.value.Null? && !HasHashes(line)
    case PrevHashMismatch(expected, actual) =>
      HasHashes(line) && expected == prev && actual == PrevHash(line) && expected != actual
    case EntryHashMismatch(expected, actual) =>
      && HasHashes(line) && PrevHash(line) == prev
      && expected == DigestOf(h, prev, Entry(line)) && actual == EntryHash(line) && expected != actual
  }

  /** The loop over the lines.  A literal `null` line makes the destructuring throw. */
  method VerifyChainLines(h: Text -> Text, lines: seq<Line>) returns (r: Verdict)
    ensures r.Accepted? <==> ValidChain(h, lines)
    ensures r.Accepted? ==> r.linesVerified == |lines|
    ensures !r.Accepted? ==>
      && 1 <= r.brokenAtLine <= |lines|
      && ValidChain(h, lines[..r.brokenAtLine - 1])
      && !Links(h, LastHash(lines[..r.brokenAtLine - 1]), lines[r.brokenAtLine - 1])
    ensures r.Broken? ==>
      && r.linesVerified == r.brokenAtLine - 1
      && FaultOf(h, LastHash(lines[..r.brokenAtLine - 1]), lines[r.brokenAtLine - 1], r.fault)
    ensures !r.Accepted? ==> (r.Thrown? <==> lines[r.brokenAtLine - 1] == Parsed(Null))
  {
    var prev := GENESIS;
    for i := 0 to |lines|
      invariant ValidChain(h, lines[..i])
      invariant prev == LastHash(lines[..i])
    {
      var lineNo := i + 1;
      var line := lines[i];
      assert lines[..i + 1][..i] == lines[..i];
      if !Links(h, prev, line) {
        BrokenForGood(h, lines, lineNo);
      }
      if line.Unparsable? {
        return Broken(lineNo - 1, lineNo, ParseFailed);
      }
      if line.value.Null? {
        return Thrown(lineNo);
      }
      if !HasHashes(line) {
        return Broken(lineNo - 1, lineNo, HashesMissing);
      }
      if PrevHash(line) != prev {
        return Broken(lineNo - 1, lineNo, PrevHashMismatch(prev, PrevHash(line)));
      }
      var expected := h(PrevHash(line) + [BAR] + Print(Obj(Payload(line.value.fields))));
      if expected != EntryHash(line) {
        return Broken(lineNo - 1, lineNo, EntryHashMismatch(expected, EntryHash(line)));
      }
      prev := EntryHash(line);
    }
    assert lines[..|lines|] == lines;
    return Accepted(|lines|);
  }

  /** A chain broken at some line stays broken however it goes on. */
  lemma {:induction false} BrokenForGood(h: Text -> Text, lines: seq<Line>, n: nat)
    requires 1 <= n <= |lines|
    requires !Links(h, LastHash(lines[..n - 1]), lines[n - 1])
    ensures !ValidChain(h, lines)
    decreases |lines|
  {
    var front := lines[..|lines| - 1];
    if n < |lines| {
      assert front[..n - 1] == lines[..n - 1];
      BrokenForGood(h, front, n);
    }
  }

  // ----- Appending -----

  /** The lines written for `records`, one after the other, when the head is first `start`. */
  function ChainOf(h: Text -> Text, start: Text, records: seq<AuditRecord>): seq<Line> {
    if records == [] then []
    else
      var k := |records| - 1;
      ChainOf(h, start, records[..k]) + [LineOf(h, HeadAfter(h, start, records[..k]), records[k])]
  }

  function HeadAfter(h: Text -> Text, start: Text, records: seq<AuditRecord>): Text {
    if records == [] then start
    else
      var k := |records| - 1;
      DigestOf(h, HeadAfter(h, start, records[..k]), RecordFields(records[k]))
  }

  /** The file of `day` after the appends `records`, of whatever days, when the head is first `start`. */
  function FileOf(h: Text -> Text, start: Text, records: seq<AuditRecord>, day: Text): seq<Line> {
    if records == [] then []
    else
      var k := |records| - 1;
      FileOf(h, start, records[..k], day) +
      (if DayOf(records[k].timestamp) == day then [LineOf(h, HeadAfter(h, start, records[..k]), records[k])] else [])
  }

  function DayOf(timestamp: Text): Text {
    var d := if |timestamp| < 10 then timestamp else timestamp[..10];
    WithoutHyphens(d)
  }

  function WithoutHyphens(t: Text): Text {
    if t == [] then []
    else if t[0] == '-' as int then WithoutHyphens(t[1..])
    else [t[0]] + WithoutHyphens(t[1..])
  }

  /** The content of the head file, if it exists, as the appender reads it. */
  function EffectiveHead(head: Option<Text>): Text {
    if head.None? || Trim(head.value) == [] then GENESIS else Trim(head.value)
  }

  lemma DigestsAreTrim(h: Text -> Text, x: Text)
    requires Ideal(h)
    ensures EffectiveHead(Some(h(x))) == h(x)
  {
    var d := h(x);
    assert HexDigit(d[0]) && HexDigit(d[|d| - 1]);
  }

  datatype AppendResult = Appended(entryHash: Text) | NothingWritten | HeadNotWritten

  /** An append that wrote its line: it went through, or it failed to write the head, whose file then
      holds `left`. */
  datatype Append = Completed(record: AuditRecord) | Torn(record: AuditRecord, left: Option<Text>)

  /** The head that the next append finds after `appends`, when it is first `start`. */
  function HeadLeft(h: Text -> Text, start: Text, appends: seq<Append>): Text {
    if appends == [] then start
    else
      var k := |appends| - 1;
      match appends[k]
      case Completed(r) => DigestOf(h, HeadLeft(h, start, appends[..k]), RecordFields(r))
      case Torn(_, left) => EffectiveHead(left)
  }

  /** The file of `day` after `appends`. */
  function FileLeft(h: Text -> Text, start: Text, appends: seq<Append>, day: Text): seq<Line> {
    if appends == [] then []
    else
      var k := |appends| - 1;
      var r := appends[k].record;
      FileLeft(h, start, appends[..k], day) +
      (if DayOf(r.timestamp) == day then [LineOf(h, HeadLeft(h, start, appends[..k]), r)] else [])
  }

  lemma OneMoreAppend(h: Text -> Text, start: Text, appends: seq<Append>, made: Append, day: Text)
    ensures FileLeft(h, start, appends + [made], day) == FileLeft(h, start, appends, day) +
              (if DayOf(made.record.timestamp) == day then [LineOf(h, HeadLeft(h, start, appends), made.record)] else [])
    ensures HeadLeft(h, start, appends + [made]) ==
              if made.Torn? then EffectiveHead(made.left) else DigestOf(h, HeadLeft(h, start, appends), RecordFields(made.record))
  {
    assert (appends + [made])[..|appends|] == appends;
  }

  class AuditStore {
    const h: Text -> Text
    var head: Option<Text>
    var logs: map<Text, seq<Line>>

    constructor (h: Text -> Text)
      ensures this.h == h && head == None && logs == map[]
      ensures Holds(GENESIS, [])
    {
      this.h := h;
      head := None;
      logs := map[];
    }

    function Log(day: Text): seq<Line>
      reads this
    {
      if day in logs then logs[day] else []
    }

    /** The store is what `appends`, one after the other, have made of an empty one whose head was
        `start`. */
    ghost predicate Holds(start: Text, appends: seq<Append>)
      reads this
    {
      && (forall day :: Log(day) == FileLeft(h, start, appends, day))
      && EffectiveHead(head) == HeadLeft(h, start, appends)
    }

    /** An append goes through, or fails before anything is written, or fails between the log and
        the head, which then holds anything. */
    method AppendAudit(record: AuditRecord) returns (r: AppendResult)
      requires Ideal(h)
      modifies this
      ensures forall day :: day != DayOf(record.timestamp) ==> Log(day) == old(Log(day))
      ensures r.NothingWritten? ==> Log(DayOf(record.timestamp)) == old(Log(DayOf(record.timestamp))) && head == old(head)
      ensures !r.NothingWritten? ==>
        Log(DayOf(record.timestamp)) ==
        old(Log(DayOf(record.timestamp))) + [LineOf(h, old(EffectiveHead(head)), record)]
      ensures r.Appended? ==>
        && r.entryHash == DigestOf(h, old(EffectiveHead(head)), RecordFields(record))
        && head == Some(r.entryHash)
      ensures !r.NothingWritten? ==>
        forall start, appends :: old(Holds(start, appends)) ==>
          Holds(start, appends + [if r.Appended? then Completed(record) else Torn(record, head)])
    {
      var logFails: bool, headFails: bool := *, *;
      if logFails {
        return NothingWritten;
      }
      var day := DayOf(record.timestamp);
      var prevHash := EffectiveHead(head);
      var entryHash := h(prevHash + [BAR] + Print(Obj(RecordFields(record))));
      var chained := Parsed(Obj(RecordFields(record) + [Field(PREV_HASH, Str(prevHash)), Field(ENTRY_HASH, Str(entryHash))]));
      logs := logs[day := Log(day) + [chained]];
      if headFails {
        head := *;
        r := HeadNotWritten;
      } else {
        head := Some(entryHash);
        r := Appended(entryHash);
        DigestsAreTrim(h, prevHash + [BAR] + Print(Obj(RecordFields(record))));
      }
      ghost var made := if r.Appended? then Completed(record) else Torn(record, head);
      forall start, appends | old(Holds(start, appends))
        ensures Holds(start, appends + [made])
      {
        forall d
          ensures Log(d) == FileLeft(h, start, appends + [made], d)
        {
          OneMoreAppend(h, start, appends, made, d);
        }
        OneMoreAppend(h, start, appends, made, day);
      }
    }
  }

  // ----- A line reads back as its record -----

  /** None of the fields is one of the two hash fields. */
  ghost predicate NoHashKeys(fields: seq<Field>) {
    forall i :: 0 <= i < |fields| ==> fields[i].key != PREV_HASH && fields[i].key != ENTRY_HASH
  }

  lemma RecordKeys(r: AuditRecord)
    ensures NoHashKeys(RecordFields(r))
    ensures Defined(Obj(RecordFields(r)))
  {
    assert PREV_HASH[0] == 'p' as int && ENTRY_HASH[0] == 'e' as int && ENTRY_HASH[1] == 'n' as int;
    assert |PREV_HASH| == 8 && |ENTRY_HASH| == 9;
    var fs := RecordFields(r);
    forall i | 0 <= i < |fs|
      ensures fs[i].key != PREV_HASH && fs[i].key != ENTRY_HASH && Defined(fs[i].value)
    {
      var k := fs[i].key;
      assert |k| !in {8, 9} || k[0] in {'t' as int, 'c' as int} || (k[0] == 'e' as int && k[1] == 'v' as int);
    }
  }

  lemma {:induction false} PayloadOf(fields: seq<Field>, tail: seq<Field>)
    requires NoHashKeys(fields)
    ensures Payload(fields + tail) == fields + Payload(tail)
    ensures Get(fields + tail, PREV_HASH) == Get(tail, PREV_HASH)
    ensures Get(fields + tail, ENTRY_HASH) == Get(tail, ENTRY_HASH)
  {
    var all := fields + tail;
    if fields == [] {
      assert all == tail;
    } else {
      assert all[1..] == fields[1..] + tail;
      PayloadOf(fields[1..], tail);
    }
  }

  lemma LineReadsBack(h: Text -> Text, prev: Text, r: AuditRecord)
    ensures HasHashes(LineOf(h, prev, r))
    ensures PrevHash(LineOf(h, prev, r)) == prev
    ensures EntryHash(LineOf(h, prev, r)) == DigestOf(h, prev, RecordFields(r))
    ensures Entry(LineOf(h, prev, r)) == RecordFields(r)
  {
    var tail := [Field(PREV_HASH, Str(prev)), Field(ENTRY_HASH, Str(DigestOf(h, prev, RecordFields(r))))];
    RecordKeys(r);
    PayloadOf(RecordFields(r), tail);
    assert |PREV_HASH| == 8 && |ENTRY_HASH| == 9;
    assert tail[1..] == [tail[1]] && tail[1..][1..] == [];
    assert Payload(tail[1..]) == [];
  }

  // ----- What a chain proves -----

  lemma {:induction false} ChainEndsInHead(h: Text -> Text, records: seq<AuditRecord>)
    ensures |ChainOf(h, GENESIS, records)| == |records|
    ensures ValidChain(h, ChainOf(h, GENESIS, records))
    ensures LastHash(ChainOf(h, GENESIS, records)) == HeadAfter(h, GENESIS, records)
  {
    if records != [] {
      var k := |records| - 1;
      ChainEndsInHead(h, records[..k]);
      OneMoreLine(h, ChainOf(h, GENESIS, records[..k]), HeadAfter(h, GENESIS, records[..k]), records[k]);
    }
  }

  lemma DigestFacts(h: Text -> Text, x: Text)
    requires Ideal(h)
    ensures h(x) != GENESIS && AllOf(NotBar, h(x))
  {
    DigestIsNotGenesis(h, x);
    forall i | 0 <= i < |h(x)|
      ensures NotBar(h(x)[i])
    {
      assert HexDigit(h(x)[i]);
    }
  }

  lemma ChainEnd(h: Text -> Text, lines: seq<Line>)
    requires ValidChain(h, lines) && Ideal(h)
    ensures lines != [] ==> HasHashes(lines[|lines| - 1])
    ensures lines == [] <==> LastHash(lines) == GENESIS
    ensures AllOf(NotBar, LastHash(lines))
  {
    if lines != [] {
      var k := |lines| - 1;
      DigestFacts(h, LastHash(lines[..k]) + [BAR] + Print(Obj(Entry(lines[k]))));
    }
  }

  predicate NotBar(u: CodeUnit) { u != BAR }

  lemma {:induction false} PayloadDefined(fields: seq<Field>)
    requires Defined(Obj(fields))
    ensures Defined(Obj(Payload(fields)))
  {
    if fields != [] {
      assert Defined(Obj(fields[1..]));
      PayloadDefined(fields[1..]);
      var rest := Payload(fields[1..]);
      assert forall i :: 0 <= i < |rest| ==> Defined(rest[i].value);
    }
  }

  lemma DigestBinds(h: Text -> Text, prev: Text, payload: seq<Field>, prev2: Text, payload2: seq<Field>)
    requires Ideal(h) && AllOf(NotBar, prev) && AllOf(NotBar, prev2)
    requires Defined(Obj(payload)) && Defined(Obj(payload2))
    requires DigestOf(h, prev, payload) == DigestOf(h, prev2, payload2)
    ensures prev == prev2 && payload == payload2
  {
    var t, t2 := Print(Obj(payload)), Print(Obj(payload2));
    assert prev + [BAR] + t == prev + ([BAR] + t) && prev2 + [BAR] + t2 == prev2 + ([BAR] + t2);
    RunSplitsUniquely(NotBar, prev, [BAR] + t, prev2, [BAR] + t2);
    FixedUnique([BAR], t, t2);
    PrintInjective(Obj(payload), Obj(payload2));
  }

  /** Two lines hold the same record and the same hashes. */
  ghost predicate SameEntry(a: Line, b: Line) {
    && HasHashes(a) && HasHashes(b) && Entry(a) == Entry(b)
    && PrevHash(a) == PrevHash(b) && EntryHash(a) == EntryHash(b)
  }

  ghost predicate SameEntries(a: seq<Line>, b: seq<Line>) {
    |a| == |b| && forall i :: 0 <= i < |a| ==> SameEntry(a[i], b[i])
  }

  lemma SameEntriesExtend(a: seq<Line>, b: seq<Line>)
    requires a != [] && b != []
    requires SameEntries(a[..|a| - 1], b[..|b| - 1]) && SameEntry(a[|a| - 1], b[|b| - 1])
    ensures SameEntries(a, b)
  {
    forall k | 0 <= k < |a| - 1
      ensures SameEntry(a[k], b[k])
    {
      assert SameEntry(a[..|a| - 1][k], b[..|b| - 1][k]);
    }
  }

  /** The last hash pins the whole log: two accepted logs that end in the same hash hold the
      same records, in the same order, with the same hashes. */
  lemma {:induction false} LastHashPinsLog(h: Text -> Text, a: seq<Line>, b: seq<Line>)
    requires Ideal(h) && FromJson(a) && FromJson(b)
    requires ValidChain(h, a) && ValidChain(h, b)
    requires LastHash(a) == LastHash(b)
    ensures SameEntries(a, b)
  {
    ChainEnd(h, a);
    ChainEnd(h, b);
    if a != [] {
      var i, j := |a| - 1, |b| - 1;
      LastLinesAgree(h, a, b);
      LastHashPinsLog(h, a[..i], b[..j]);
      SameEntriesExtend(a, b);
    }
  }

  lemma LastLinesAgree(h: Text -> Text, a: seq<Line>, b: seq<Line>)
    requires Ideal(h) && FromJson(a) && FromJson(b)
    requires a != [] && b != [] && ValidChain(h, a) && ValidChain(h, b)
    requires LastHash(a) == LastHash(b)
    ensures SameEntry(a[|a| - 1], b[|b| - 1])
    ensures LastHash(a[..|a| - 1]) == LastHash(b[..|b| - 1])
  {
    var i, j := |a| - 1, |b| - 1;
    ChainEnd(h, a[..i]);
    ChainEnd(h, b[..j]);
    PayloadDefined(a[i].value.fields);
    PayloadDefined(b[j].value.fields);
    DigestBinds(h, LastHash(a[..i]), Entry(a[i]), LastHash(b[..j]), Entry(b[j]));
  }

  // ----- When the file of a day verifies -----

  /** The records of `day` are exactly the first `n` of the history. */
  ghost predicate FirstAre(records: seq<AuditRecord>, day: Text, n: nat) {
    n <= |records| && forall i :: 0 <= i < |records| ==> (DayOf(records[i].timestamp) == day <==> i < n)
  }

  ghost predicate NoneOf(records: seq<AuditRecord>, day: Text) {
    forall i :: 0 <= i < |records| ==> DayOf(records[i].timestamp) != day
  }

  /** The day has no record, or the store began without a head and with a block of that day's
      records that no other day interrupts and that is never resumed. */
  ghost predicate OpeningBlock(start: Text, records: seq<AuditRecord>, day: Text) {
    NoneOf(records, day) || (start == GENESIS && exists n :: FirstAre(records, day, n))
  }

  /** The file of a day whose records come first is their chain. */
  lemma {:induction false} BlockIsChain(h: Text -> Text, start: Text, records: seq<AuditRecord>, day: Text, n: nat)
    requires FirstAre(records, day, n)
    ensures FileOf(h, start, records, day) == ChainOf(h, start, records[..n])
    decreases |records|
  {
    if records == [] {
      assert records[..n] == [];
    } else {
      var k := |records| - 1;
      var front := records[..k];
      if n == |records| {
        assert records[..n] == records;
        BlockIsChain(h, start, front, day, k);
        assert front[..k] == front;
      } else {
        BlockIsChain(h, start, front, day, n);
        assert front[..n] == records[..n];
      }
    }
  }

  lemma {:induction false} NoFile(h: Text -> Text, start: Text, records: seq<AuditRecord>, day: Text)
    ensures FileOf(h, start, records, day) == [] <==> NoneOf(records, day)
  {
    if records != [] {
      NoFile(h, start, records[..|records| - 1], day);
    }
  }

  lemma HeadHasNoBar(h: Text -> Text, records: seq<AuditRecord>)
    requires Ideal(h)
    ensures AllOf(NotBar, HeadAfter(h, GENESIS, records))
    ensures HeadAfter(h, GENESIS, records) == GENESIS <==> records == []
  {
    if records != [] {
      var k := |records| - 1;
      DigestFacts(h, HeadAfter(h, GENESIS, records[..k]) + [BAR] + Print(Obj(RecordFields(records[k]))));
    }
  }

  /** A history that went on does not come back to an earlier head. */
  lemma {:induction false} HeadsTellLength(h: Text -> Text, a: seq<AuditRecord>, b: seq<AuditRecord>)
    requires Ideal(h) && HeadAfter(h, GENESIS, a) == HeadAfter(h, GENESIS, b)
    ensures |a| == |b|
  {
    HeadHasNoBar(h, a);
    HeadHasNoBar(h, b);
    if a != [] {
      var i, j := |a| - 1, |b| - 1;
      HeadHasNoBar(h, a[..i]);
      HeadHasNoBar(h, b[..j]);
      RecordKeys(a[i]);
      RecordKeys(b[j]);
      DigestBinds(h, HeadAfter(h, GENESIS, a[..i]), RecordFields(a[i]), HeadAfter(h, GENESIS, b[..j]), RecordFields(b[j]));
      HeadsTellLength(h, a[..i], b[..j]);
    }
  }

  lemma BlockHeadIff(h: Text -> Text, records: seq<AuditRecord>, day: Text, n: nat)
    requires Ideal(h) && FirstAre(records, day, n)
    ensures LastHash(FileOf(h, GENESIS, records, day)) == HeadAfter(h, GENESIS, records) <==> n == |records|
  {
    BlockIsChain(h, GENESIS, records, day, n);
    ChainEndsInHead(h, records[..n]);
    if n == |records| {
      assert records[..n] == records;
    } else if HeadAfter(h, GENESIS, records[..n]) == HeadAfter(h, GENESIS, records) {
      HeadsTellLength(h, records[..n], records);
    }
  }

  lemma ForeignHead(h: Text -> Text, start: Text, records: seq<AuditRecord>, day: Text)
    requires Ideal(h) && NoneOf(records, day) && start != GENESIS
    ensures LastHash(FileOf(h, start, records, day)) != HeadAfter(h, start, records)
  {
    NoFile(h, start, records, day);
    if records != [] {
      var k := |records| - 1;
      DigestIsNotGenesis(h, HeadAfter(h, start, records[..k]) + [BAR] + Print(Obj(RecordFields(records[k]))));
    }
  }

  /** The head is the last hash of the day's file exactly as long as every record was of that day
      and the store began without a head. */
  lemma HeadInFileIff(h: Text -> Text, start: Text, records: seq<AuditRecord>, day: Text)
    requires Ideal(h) && OpeningBlock(start, records, day)
    ensures LastHash(FileOf(h, start, records, day)) == HeadAfter(h, start, records) <==>
            start == GENESIS && FirstAre(records, day, |records|)
  {
    if start != GENESIS {
      ForeignHead(h, start, records, day);
    } else {
      assert NoneOf(records, day) ==> FirstAre(records, day, 0);
      var n :| FirstAre(records, day, n);
      BlockHeadIff(h, records, day, n);
      SameLength(records, day, n);
    }
  }

  lemma SameLength(records: seq<AuditRecord>, day: Text, n: nat)
    requires FirstAre(records, day, n)
    ensures FirstAre(records, day, |records|) <==> n == |records|
  {
    if n < |records| {
      assert DayOf(records[n].timestamp) != day;
    }
  }

  /** One more record of the day: everything before it must have been of that day. */
  lemma SameDayGrows(start: Text, records: seq<AuditRecord>, day: Text)
    requires records != [] && DayOf(records[|records| - 1].timestamp) == day
    ensures var k := |records| - 1;
            OpeningBlock(start, records, day) <==> start == GENESIS && FirstAre(records[..k], day, k)
  {
    var k := |records| - 1;
    assert DayOf(records[k].timestamp) == day;
    if FirstAre(records[..k], day, k) {
      assert FirstAre(records, day, k + 1);
    }
    if exists n :: FirstAre(records, day, n) {
      var n :| FirstAre(records, day, n);
      assert DayOf(records[k].timestamp) == day <==> k < n;
    }
  }

  /** One more record of another day changes nothing for this one. */
  lemma OtherDayKeeps(start: Text, records: seq<AuditRecord>, day: Text)
    requires records != [] && DayOf(records[|records| - 1].timestamp) != day
    ensures OpeningBlock(start, records, day) <==> OpeningBlock(start, records[..|records| - 1], day)
  {
    var front := records[..|records| - 1];
    forall n
      ensures FirstAre(records, day, n) <==> FirstAre(front, day, n)
    {
      assert FirstAre(records, day, n) ==> (DayOf(records[|front|].timestamp) == day <==> |front| < n);
    }
  }

  /** Over any history of appends, of records of any days in any order: the file of a day verifies
      exactly when it is empty, or the store began without a head (or with the word `genesis`) and
      that day's records are one block at the very beginning of the history. */
  lemma {:induction false} DayFileVerifiesIff(h: Text -> Text, start: Text, records: seq<AuditRecord>, day: Text)
    requires Ideal(h)
    ensures ValidChain(h, FileOf(h, start, records, day)) <==> OpeningBlock(start, records, day)
  {
    if records != [] {
      var k := |records| - 1;
      var front, r := records[..k], records[k];
      DayFileVerifiesIff(h, start, front, day);
      if DayOf(r.timestamp) == day {
        SameDayGrows(start, records, day);
        OneMoreLine(h, FileOf(h, start, front, day), HeadAfter(h, start, front), r);
        assert start == GENESIS && FirstAre(front, day, k) ==> OpeningBlock(start, front, day);
        if OpeningBlock(start, front, day) {
          HeadInFileIff(h, start, front, day);
        }
      } else {
        OtherDayKeeps(start, records, day);
        assert FileOf(h, start, records, day) == FileOf(h, start, front, day);
      }
    }
  }

  /** A line appended with head `prev` keeps a file valid exactly when `prev` is its last hash. */
  lemma OneMoreLine(h: Text -> Text, lines: seq<Line>, prev: Text, r: AuditRecord)
    ensures ValidChain(h, lines + [LineOf(h, prev, r)]) <==> ValidChain(h, lines) && LastHash(lines) == prev
    ensures LastHash(lines + [LineOf(h, prev, r)]) == DigestOf(h, prev, RecordFields(r))
  {
    var all := lines + [LineOf(h, prev, r)];
    LineReadsBack(h, prev, r);
    assert all[..|all| - 1] == lines;
  }

  function AllCompleted(records: seq<AuditRecord>): (appends: seq<Append>) {
    seq(|records|, i requires 0 <= i < |records| => Completed(records[i]))
  }

  /** A history without torn appends. */
  lemma {:induction false} CompletedHistory(h: Text -> Text, start: Text, records: seq<AuditRecord>, day: Text)
    ensures HeadLeft(h, start, AllCompleted(records)) == HeadAfter(h, start, records)
    ensures FileLeft(h, start, AllCompleted(records), day) == FileOf(h, start, records, day)
  {
    if records != [] {
      var k := |records| - 1;
      assert AllCompleted(records)[..k] == AllCompleted(records[..k]);
      CompletedHistory(h, start, records[..k], day);
    }
  }

  /** So it is for the store itself, whatever appends have gone through since it was empty. */
  lemma StoreVerifiesIff(store: AuditStore, start: Text, records: seq<AuditRecord>, day: Text)
    requires Ideal(store.h) && store.Holds(start, AllCompleted(records))
    ensures ValidChain(store.h, store.Log(day)) <==> OpeningBlock(start, records, day)
  {
    DayFileVerifiesIff(store.h, start, records, day);
    CompletedHistory(store.h, start, records, day);
    assert store.Log(day) == FileLeft(store.h, start, AllCompleted(records), day);
  }

  /** The smallest history that spoils a file begun at `genesis`: another day in between. */
  lemma InterruptedDay(h: Text -> Text, a: AuditRecord, b: AuditRecord, c: AuditRecord)
    requires Ideal(h) && DayOf(a.timestamp) == DayOf(c.timestamp) != DayOf(b.timestamp)
    ensures !ValidChain(h, FileOf(h, GENESIS, [a, b, c], DayOf(a.timestamp)))
  {
    var rs, day := [a, b, c], DayOf(a.timestamp);
    DayFileVerifiesIff(h, GENESIS, rs, day);
    assert DayOf(rs[0].timestamp) == day && DayOf(rs[1].timestamp) != day && DayOf(rs[2].timestamp) == day;
  }

  // ----- Appends that fail between the log and the head -----

  /** Every append of the day found, as the head, the hash that the day's file ended in. */
  ghost predicate FoundLastHash(h: Text -> Text, start: Text, appends: seq<Append>, day: Text) {
    forall i :: 0 <= i < |appends| && DayOf(appends[i].record.timestamp) == day ==> FoundAt(h, start, appends, day, i)
  }

  ghost predicate FoundAt(h: Text -> Text, start: Text, appends: seq<Append>, day: Text, i: nat)
    requires i <= |appends|
  {
    HeadLeft(h, start, appends[..i]) == LastHash(FileLeft(h, start, appends[..i], day))
  }

  lemma FoundBefore(h: Text -> Text, start: Text, front: seq<Append>, appends: seq<Append>, day: Text, i: nat)
    requires i <= |front| && front <= appends
    ensures FoundAt(h, start, front, day, i) <==> FoundAt(h, start, appends, day, i)
  {
    assert front[..i] == appends[..i];
  }

  lemma OneMoreFound(h: Text -> Text, start: Text, front: seq<Append>, made: Append, day: Text)
    ensures FoundLastHash(h, start, front + [made], day) <==>
            FoundLastHash(h, start, front, day) &&
            (DayOf(made.record.timestamp) == day ==> FoundAt(h, start, front, day, |front|))
  {
    var all := front + [made];
    FoundBefore(h, start, front, all, day, |front|);
    if FoundLastHash(h, start, all, day) {
      assert all[|front|] == made;
      forall i | 0 <= i < |front| && DayOf(front[i].record.timestamp) == day
        ensures FoundAt(h, start, front, day, i)
      {
        assert all[i] == front[i];
        FoundBefore(h, start, front, all, day, i);
      }
    } else {
      var i :| 0 <= i < |all| && DayOf(all[i].record.timestamp) == day && !FoundAt(h, start, all, day, i);
      FoundBefore(h, start, front, all, day, i);
    }
  }

  /** Over any history of appends, each complete or torn with anything left as the head: the file of
      a day verifies exactly when every append of that day found the file's last hash as the head. */
  lemma {:induction false} TornFileVerifiesIff(h: Text -> Text, start: Text, appends: seq<Append>, day: Text)
    ensures ValidChain(h, FileLeft(h, start, appends, day)) <==> FoundLastHash(h, start, appends, day)
  {
    if appends != [] {
      var k := |appends| - 1;
      var front, r := appends[..k], appends[k].record;
      TornFileVerifiesIff(h, start, front, day);
      assert appends == front + [appends[k]] && front[..k] == front;
      OneMoreFound(h, start, front, appends[k], day);
      if DayOf(r.timestamp) == day {
        OneMoreLine(h, FileLeft(h, start, front, day), HeadLeft(h, start, front), r);
      } else {
        assert FileLeft(h, start, appends, day) == FileLeft(h, start, front, day);
      }
    }
  }

  /** So it is for the store, after any appends that wrote their line. */
  lemma TornStoreVerifiesIff(store: AuditStore, start: Text, appends: seq<Append>, day: Text)
    requires store.Holds(start, appends)
    ensures ValidChain(store.h, store.Log(day)) <==> FoundLastHash(store.h, start, appends, day)
  {
    TornFileVerifiesIff(store.h, start, appends, day);
    assert store.Log(day) == FileLeft(store.h, start, appends, day);
  }

  /** After such a failure the file itself still verifies; the next line in it keeps it so exactly
      when the head left behind is the hash of the line the failure left.  A head that stayed as it
      was therefore breaks the file for good. */
  lemma InterruptedAppend(h: Text -> Text, lines: seq<Line>, r: AuditRecord, left: Option<Text>, next: AuditRecord)
    requires Ideal(h) && FromJson(lines) && ValidChain(h, lines)
    ensures var torn := lines + [LineOf(h, LastHash(lines), r)];
            && ValidChain(h, torn)
            && (ValidChain(h, torn + [LineOf(h, EffectiveHead(left), next)]) <==>
                  EffectiveHead(left) == DigestOf(h, LastHash(lines), RecordFields(r)))
            && (EffectiveHead(left) == LastHash(lines) ==>
                  !ValidChain(h, torn + [LineOf(h, EffectiveHead(left), next)]))
  {
    var line := LineOf(h, LastHash(lines), r);
    var torn := lines + [line];
    LineReadsBack(h, LastHash(lines), r);
    OneMoreLine(h, lines, LastHash(lines), r);
    OneMoreLine(h, torn, EffectiveHead(left), next);
    if LastHash(torn) == LastHash(lines) {
      LineFromJson(h, LastHash(lines), r);
      LastHashPinsLog(h, torn, lines);
    }
  }

  lemma LineFromJson(h: Text -> Text, prev: Text, r: AuditRecord)
    ensures LineOf(h, prev, r).Parsed? && Defined(LineOf(h, prev, r).value)
  {
    RecordKeys(r);
  }
}

/**
 * Tamper-evidence primitives of the audit log: canonical payloads, digests,
 * links and signatures, and the verdict that re-walking a store gives.
 *
 * SHA-256 and HMAC are parameters.
 */
module AuditChain {
  import opened Wrappers
  import CanonicalJson
  import opened Numerals
  import opened HashChain

  // ----- Stored values -----

  // A column read back from SQLite: NULL, an INTEGER or a TEXT.
  datatype Value = Null | Int(n: int) | Text(s: string)

  // DIGEST_COLUMNS, by position.
  const DIGEST_COLUMN_COUNT := 26

  function DigestColumn(i: nat): string {
    match i
    case 0 => "timestamp" case 1 => "session_id"
    case 2 => "request_id" case 3 => "user_input"
    case 4 => "intent" case 5 => "selected_tool"
    case 6 => "tool_arguments" case 7 => "risk_level"
    case 8 => "confirmation_required" case 9 => "executed"
    case 10 => "execution_result" case 11 => "final_response"
    case 12 => "rule_hits" case 13 => "duration_ms"
    case 14 => "risk_score" case 15 => "risk_level_text"
    case 16 => "legacy_risk_level" case 17 => "security_decision"
    case 18 => "security_reason" case 19 => "matched_rules"
    case 20 => "actual_command" case 21 => "executor_user"
    case 22 => "execution_success" case 23 => "stdout_summary"
    case 24 => "stderr_summary" case 25 => "full_trace_json"
    case _ => ""
  }

  // str(value), with None and a missing column both read as the empty text.
  function Coerced(values: map<string, Value>, column: string): string {
    if column !in values then ""
    else match values[column]
      case Null => ""
      case Int(n) => Printed(n)
      case Text(s) => s
  }

  function Ordered(values: map<string, Value>): seq<CanonicalJson.Pair> {
    seq(DIGEST_COLUMN_COUNT, i requires 0 <= i => (DigestColumn(i), Coerced(values, DigestColumn(i))))
  }

  function CanonicalPayload(values: map<string, Value>): string {
    CanonicalJson.Dumps(Ordered(values))
  }

  // ----- Keyed and unkeyed hashing -----

  // key == "" stands for an unset AUDIT_HMAC_KEY.
  datatype Crypto = Crypto(sha: Digester, mac: (string, string) -> string, key: string)

  function PayloadDigest(c: Crypto, values: map<string, Value>): string {
    c.sha(CanonicalPayload(values))
  }

  function Sign(c: Crypto, entryHash: string): string {
    if c.key == "" then "" else c.mac(c.key, entryHash)
  }

  predicate SignatureMatches(c: Crypto, entryHash: string, signature: string) {
    c.key != "" && Sign(c, entryHash) == signature
  }

  // ----- What the digest covers -----

  // The columns whose content the log promises to protect.
  const PROTECTED_COLUMNS: set<string> := {
    "actual_command", "confirmation_required", "duration_ms", "executed", "execution_result", "execution_success",
    "executor_user", "final_response", "full_trace_json", "intent", "legacy_risk_level", "matched_rules",
    "request_id", "risk_level", "risk_level_text", "risk_score", "rule_hits", "security_decision",
    "security_reason", "selected_tool", "session_id", "stderr_summary", "stdout_summary", "timestamp",
    "tool_arguments", "user_input"}

  // What a record holds in a column.
  function Stored(values: map<string, Value>, column: string): Value {
    if column in values then values[column] else Null
  }

  // Values that no reading path may tell apart: equal ones, an integer and its numeral as text,
  // and the empty text and no value.
  predicate Alike(v: Value, w: Value) {
    match (v, w)
    case (Null, Null) => true
    case (Null, Text(s)) => s == ""
    case (Text(s), Null) => s == ""
    case (Int(m), Int(n)) => m == n
    case (Text(s), Text(t)) => s == t
    case (Int(n), Text(s)) => Numeral(s) && ReadInt(s) == Some(n)
    case (Text(s), Int(n)) => Numeral(s) && ReadInt(s) == Some(n)
    case _ => false
  }

  lemma {:induction false} CoercedAlike(v: map<string, Value>, w: map<string, Value>, column: string)
    ensures Coerced(v, column) == Coerced(w, column) <==> Alike(Stored(v, column), Stored(w, column))
  {
    hide Printed, ReadInt, Numeral;
    var a, b := Stored(v, column), Stored(w, column);
    if a.Int? {
      PrintedExactly(a.n, Coerced(w, column));
      PrintedReads(a.n);
      NotNumeral();
    }
    if b.Int? {
      PrintedExactly(b.n, Coerced(v, column));
      PrintedReads(b.n);
      NotNumeral();
    }
  }

  lemma {:induction false} NotNumeral()
    ensures !Numeral("")
  {
  }

  lemma {:induction false} ColumnsAreProtected()
    ensures forall i :: 0 <= i < DIGEST_COLUMN_COUNT ==> DigestColumn(i) in PROTECTED_COLUMNS
    ensures forall column :: column in PROTECTED_COLUMNS ==>
              exists i :: 0 <= i < DIGEST_COLUMN_COUNT && DigestColumn(i) == column
  {
    ProtectedAreDigested();
  }

  lemma {:induction false} ProtectedAreDigested()
    ensures forall column :: column in PROTECTED_COLUMNS ==>
              exists i :: 0 <= i < DIGEST_COLUMN_COUNT && DigestColumn(i) == column
  {
    forall column | column in PROTECTED_COLUMNS
      ensures exists i :: 0 <= i < DIGEST_COLUMN_COUNT && DigestColumn(i) == column
    {
      assert exists i :: 0 <= i < DIGEST_COLUMN_COUNT && DigestColumn(i) == column by {
        assert DigestColumn(0) == "timestamp" && DigestColumn(1) == "session_id" && DigestColumn(2) == "request_id";
        assert DigestColumn(3) == "user_input" && DigestColumn(4) == "intent" && DigestColumn(5) == "selected_tool";
        assert DigestColumn(6) == "tool_arguments" && DigestColumn(7) == "risk_level";
        assert DigestColumn(8) == "confirmation_required" && DigestColumn(9) == "executed";
        assert DigestColumn(10) == "execution_result" && DigestColumn(11) == "final_response";
        assert DigestColumn(12) == "rule_hits" && DigestColumn(13) == "duration_ms";
        assert DigestColumn(14) == "risk_score" && DigestColumn(15) == "risk_level_text";
        assert DigestColumn(16) == "legacy_risk_level" && DigestColumn(17) == "security_decision";
        assert DigestColumn(18) == "security_reason" && DigestColumn(19) == "matched_rules";
        assert DigestColumn(20) == "actual_command" && DigestColumn(21) == "executor_user";
        assert DigestColumn(22) == "execution_success" && DigestColumn(23) == "stdout_summary";
        assert DigestColumn(24) == "stderr_summary" && DigestColumn(25) == "full_trace_json";
      }
    }
  }

  // Two records hash the same text exactly when every digest column coerces to the same text.
  lemma {:induction false} PayloadByColumns(v: map<string, Value>, w: map<string, Value>)
    ensures CanonicalPayload(v) == CanonicalPayload(w) <==>
            forall i :: 0 <= i < DIGEST_COLUMN_COUNT ==> Coerced(v, DigestColumn(i)) == Coerced(w, DigestColumn(i))
  {
    hide DigestColumn, Coerced, CanonicalJson.Dumps;
    var ps, qs := Ordered(v), Ordered(w);
    CanonicalJson.DumpsInjective(ps, qs);
    if ps == qs {
      forall i | 0 <= i < DIGEST_COLUMN_COUNT
        ensures Coerced(v, DigestColumn(i)) == Coerced(w, DigestColumn(i))
      {
        assert ps[i] == qs[i];
      }
    }
  }

  /** Two records hash the same text exactly when they hold alike values in each of the 26 protected columns. */
  lemma {:induction false} PayloadUnambiguous(v: map<string, Value>, w: map<string, Value>)
    ensures CanonicalPayload(v) == CanonicalPayload(w) <==>
            forall column :: column in PROTECTED_COLUMNS ==> Alike(Stored(v, column), Stored(w, column))
  {
    hide DigestColumn, Coerced, CanonicalPayload, Alike, Stored, PROTECTED_COLUMNS;
    PayloadByColumns(v, w);
    ColumnsAreProtected();
    forall column ensures Coerced(v, column) == Coerced(w, column) <==> Alike(Stored(v, column), Stored(w, column)) {
      CoercedAlike(v, w, column);
    }
  }

  // ----- Rows and the verification walk -----

  datatype Row = Row(
    id: nat,
    columns: map<string, Value>,
    payloadDigest: Option<string>,
    prevHash: Option<string>,
    entryHash: Option<string>,
    signature: Option<string>)

  // A row together with the day table it was read from.
  datatype Entry = Entry(table: string, row: Row)

  datatype Reason =
    | FieldsRemoved
    | BrokenLink
    | ContentModified
    | EntryMismatch
    | SignatureMismatch

  datatype Break = RowBreak(reason: Reason, table: string, id: nat) | HeadBreak

  datatype Authenticity = NoKey | Verified | Failed | Unsigned

  datatype Report = Report(
    integrityOk: bool,
    authenticity: Authenticity,
    records: nat,
    chained: nat,
    unchainedLegacy: nat,
    firstBreak: Option<Break>)

  datatype Scan = Scan(report: Report, expectedPrev: string, seenChained: bool)

  function OrEmpty(s: Option<string>): string {
    if s.Some? then s.value else ""
  }

  predicate Legacy(row: Row) {
    OrEmpty(row.entryHash) == ""
  }

  // Only the first failure is kept.
  function Fail(report: Report, broken: Break): Report {
    if report.firstBreak.None?
    then report.(integrityOk := false, firstBreak := Some(broken))
    else report
  }

  predicate Forged(c: Crypto, row: Row) {
    c.key != "" && !SignatureMatches(c, OrEmpty(row.entryHash), OrEmpty(row.signature))
  }

  // The first check that a chained row fails, in the order the checks are made.
  function RowProblem(c: Crypto, prev: string, row: Row): Option<Reason> {
    var digest := PayloadDigest(c, row.columns);
    if row.prevHash != Some(prev) then Some(BrokenLink)
    else if row.payloadDigest != Some(digest) then Some(ContentModified)
    else if Link(c.sha, OrEmpty(row.prevHash), digest) != OrEmpty(row.entryHash) then Some(EntryMismatch)
    else if Forged(c, row) then Some(SignatureMismatch)
    else None
  }

  function Note(report: Report, problem: Option<Reason>, e: Entry): Report {
    if problem.None? then report else Fail(report, RowBreak(problem.value, e.table, e.row.id))
  }

  function CountLegacy(r: Report, legacy: bool): Report {
    r.(records := r.records + 1, unchainedLegacy := r.unchainedLegacy + if legacy then 1 else 0)
  }

  function CountChained(r: Report, forged: bool): Report {
    r.(records := r.records + 1, chained := r.chained + 1,
       authenticity := if forged then Failed else r.authenticity)
  }

  function ScanRow(c: Crypto, s: Scan, e: Entry): Scan {
    if Legacy(e.row) then
      Scan(Note(CountLegacy(s.report, !s.seenChained), if s.seenChained then Some(FieldsRemoved) else None, e),
           s.expectedPrev, s.seenChained)
    else
      Scan(Note(CountChained(s.report, Forged(c, e.row)), RowProblem(c, s.expectedPrev, e.row), e),
           OrEmpty(e.row.entryHash), true)
  }

  function Start(c: Crypto): Scan {
    Scan(Report(true, if c.key == "" then NoKey else Verified, 0, 0, 0, None), GENESIS, false)
  }

  function ScanAll(c: Crypto, es: seq<Entry>): Scan {
    if es == [] then Start(c) else ScanRow(c, ScanAll(c, es[..|es| - 1]), es[|es| - 1])
  }

  function Conclude(c: Crypto, s: Scan, head: string): Report {
    var r := if s.seenChained && head != s.expectedPrev then Fail(s.report, HeadBreak) else s.report;
    if r.chained > 0 && c.key == "" then r.(authenticity := Unsigned) else r
  }

  /** The report on rows `es`, in walk order, and a stored head. */
  function Verdict(c: Crypto, es: seq<Entry>, head: string): Report {
    Conclude(c, ScanAll(c, es), head)
  }

  // ----- What a clean verdict means, declaratively -----

  function LegacyPrefix(es: seq<Entry>): (n: nat)
    ensures n <= |es|
    ensures forall i :: 0 <= i < n ==> Legacy(es[i].row)
    ensures n < |es| ==> !Legacy(es[n].row)
  {
    if es == [] || !Legacy(es[0].row) then 0 else 1 + LegacyPrefix(es[1..])
  }

  // The rows from the first chained one on.
  function Chained(es: seq<Entry>): seq<Entry> {
    es[LegacyPrefix(es)..]
  }

  predicate RowOk(c: Crypto, prev: string, row: Row) {
    && !Legacy(row)
    && row.prevHash == Some(prev)
    && row.payloadDigest == Some(PayloadDigest(c, row.columns))
    && row.entryHash == Some(Link(c.sha, prev, PayloadDigest(c, row.columns)))
    && (c.key != "" ==> SignatureMatches(c, row.entryHash.value, OrEmpty(row.signature)))
  }

  function EntryBefore(es: seq<Entry>, i: nat): string
    requires i <= |es|
  {
    if i == 0 then GENESIS else OrEmpty(es[i - 1].row.entryHash)
  }

  // Every row commits to its own content and to the row before it.
  predicate Linked(c: Crypto, es: seq<Entry>) {
    es == [] || (Linked(c, es[..|es| - 1]) && RowOk(c, EntryBefore(es, |es| - 1), es[|es| - 1].row))
  }

  lemma {:induction false} LinkedAt(c: Crypto, es: seq<Entry>, i: nat)
    requires Linked(c, es) && i < |es|
    ensures RowOk(c, EntryBefore(es, i), es[i].row)
  {
    hide CanonicalPayload;
    if i < |es| - 1 {
      LinkedAt(c, es[..|es| - 1], i);
    }
  }

  lemma {:induction false} RowOkMeaning(c: Crypto, prev: string, row: Row)
    ensures RowOk(c, prev, row) <==> !Legacy(row) && RowProblem(c, prev, row).None?
  {
    hide CanonicalPayload;
  }

  predicate Clean(c: Crypto, es: seq<Entry>, head: string) {
    && Linked(c, Chained(es))
    && (Chained(es) != [] ==> head == EntryBefore(Chained(es), |Chained(es)|))
  }

  lemma {:induction false} LegacyPrefixAt(es: seq<Entry>, n: nat)
    requires n <= |es| && (forall i :: 0 <= i < n ==> Legacy(es[i].row)) && (n < |es| ==> !Legacy(es[n].row))
    ensures LegacyPrefix(es) == n
  {
    hide CanonicalPayload;
    if n > 0 {
      LegacyPrefixAt(es[1..], n - 1);
    }
  }

  lemma {:induction false} LegacyPrefixOfInit(es: seq<Entry>)
    requires es != []
    ensures var n := LegacyPrefix(es[..|es| - 1]);
            LegacyPrefix(es) == if n < |es| - 1 || !Legacy(es[|es| - 1].row) then n else |es|
  {
    hide CanonicalPayload;
    hide LegacyPrefix, Legacy;
    var init, n := es[..|es| - 1], LegacyPrefix(es[..|es| - 1]);
    var m := if n < |init| || !Legacy(es[|es| - 1].row) then n else |es|;
    forall i | 0 <= i < m
      ensures Legacy(es[i].row)
    {
      if i < n { assert init[i] == es[i]; }
    }
    if n < |init| { assert init[n] == es[n]; }
    LegacyPrefixAt(es, m);
  }

  lemma {:induction false} ChainedOfInit(es: seq<Entry>)
    requires es != []
    ensures var init := Chained(es[..|es| - 1]);
            Chained(es) == if init == [] && Legacy(es[|es| - 1].row) then [] else init + [es[|es| - 1]]
  {
    hide CanonicalPayload;
    LegacyPrefixOfInit(es);
  }

  // What the walk knows after the chained rows `ch`.
  ghost predicate Knows(c: Crypto, ch: seq<Entry>, s: Scan) {
    && s.seenChained == (ch != [])
    && (s.report.chained > 0) == (ch != [])
    && s.report.integrityOk == s.report.firstBreak.None?
    && (s.report.firstBreak.None? <==> Linked(c, ch))
    && (s.report.firstBreak.None? ==> s.expectedPrev == EntryBefore(ch, |ch|) && s.report.chained == |ch|)
  }

  lemma {:induction false} KnowsNext(c: Crypto, ch: seq<Entry>, s: Scan, e: Entry)
    requires Knows(c, ch, s)
    requires !(ch == [] && Legacy(e.row))
    ensures Knows(c, ch + [e], ScanRow(c, s, e))
  {
    hide CanonicalPayload;
    var all := ch + [e];
    assert all[..|all| - 1] == ch;
    assert EntryBefore(all, |all| - 1) == EntryBefore(ch, |ch|);
    RowOkMeaning(c, EntryBefore(ch, |ch|), e.row);
  }

  /** Integrity is reported exactly when the rows after the legacy prefix are linked. */
  lemma {:induction false} ScanCharacterised(c: Crypto, es: seq<Entry>)
    ensures Knows(c, Chained(es), ScanAll(c, es))
  {
    hide CanonicalPayload;
    if es != [] {
      var init, e := es[..|es| - 1], es[|es| - 1];
      ScanCharacterised(c, init);
      ChainedOfInit(es);
      if !(Chained(init) == [] && Legacy(e.row)) {
        KnowsNext(c, Chained(init), ScanAll(c, init), e);
      }
    }
  }

  lemma {:induction false} CountsNext(c: Crypto, s: Scan, e: Entry)
    ensures var r, r' := s.report, ScanRow(c, s, e).report;
            && r'.records == r.records + 1
            && r'.unchainedLegacy == r.unchainedLegacy + (if Legacy(e.row) && !s.seenChained then 1 else 0)
            && (r'.firstBreak.None? ==> r.firstBreak.None? && r'.authenticity == r.authenticity)
  {
    hide CanonicalPayload;
  }

  lemma {:induction false} ScanCounts(c: Crypto, es: seq<Entry>)
    ensures var r := ScanAll(c, es).report;
            && r.records == |es|
            && r.unchainedLegacy == LegacyPrefix(es)
            && (r.firstBreak.None? ==> r.authenticity == Start(c).report.authenticity)
  {
    hide CanonicalPayload;
    if es != [] {
      var init, e := es[..|es| - 1], es[|es| - 1];
      ScanCounts(c, init);
      CountsNext(c, ScanAll(c, init), e);
      LegacyPrefixOfInit(es);
      assert ScanAll(c, init).seenChained == (LegacyPrefix(init) < |init|) by {
        ScanCharacterised(c, init);
      }
    }
  }

  /**
   * "Integrity OK" means: the chain is linked from genesis after a legacy
   * prefix, and the stored head is the last entry.  The counters are then exact.
   */
  lemma {:induction false} VerdictCharacterised(c: Crypto, es: seq<Entry>, head: string)
    ensures var r := Verdict(c, es, head);
            && (r.integrityOk <==> Clean(c, es, head))
            && (r.integrityOk <==> r.firstBreak.None?)
            && r.records == |es|
            && r.unchainedLegacy == LegacyPrefix(es)
            && (r.integrityOk ==>
                  && r.chained == |Chained(es)|
                  && r.authenticity == (if c.key != "" then Verified
                                        else if Chained(es) == [] then NoKey else Unsigned))
  {
    hide CanonicalPayload;
    ScanCharacterised(c, es);
    ScanCounts(c, es);
  }

  // ----- Where the first break is -----

  lemma {:induction false} BreakKept(c: Crypto, s: Scan, e: Entry)
    ensures s.report.firstBreak.Some? ==> ScanRow(c, s, e).report.firstBreak == s.report.firstBreak
  {
    hide CanonicalPayload;
  }

  lemma {:induction false} BreakSticks(c: Crypto, es: seq<Entry>, k: nat)
    requires k <= |es|
    requires ScanAll(c, es[..k]).report.firstBreak.Some?
    ensures ScanAll(c, es).report.firstBreak == ScanAll(c, es[..k]).report.firstBreak
  {
    hide CanonicalPayload;
    if k == |es| {
      assert es[..k] == es;
    } else {
      var init := es[..|es| - 1];
      assert init[..k] == es[..k];
      BreakSticks(c, init, k);
      BreakKept(c, ScanAll(c, init), es[|es| - 1]);
    }
  }

  /** A break first caused at row `k` is the one reported, whatever follows and whatever the head is. */
  lemma {:induction false} FirstBreakAt(c: Crypto, es: seq<Entry>, k: nat, head: string, broken: Break)
    requires k < |es|
    requires ScanRow(c, ScanAll(c, es[..k]), es[k]).report.firstBreak == Some(broken)
    ensures Verdict(c, es, head).firstBreak == Some(broken)
    ensures !Verdict(c, es, head).integrityOk
  {
    hide CanonicalPayload;
    assert es[..k + 1][..k] == es[..k] && es[..k + 1][k] == es[k];
    BreakSticks(c, es, k + 1);
    VerdictCharacterised(c, es, head);
  }
}

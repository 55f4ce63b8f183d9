/**
 * The audit logger: an append-only store of day tables and a stored head.
 *
 * `log` and `verify_chain` are methods of a class over mutable state, proved
 * against value functions; whole runs of `log` are then reasoned about on the
 * functions.  Main results: `HonestRunVerifies` and `CleanExactlyWhenOrdered`.
 */
module AuditLogger {
  import opened Wrappers
  import opened HashChain
  import opened AuditChain
  import opened AuditHistory
  import opened DayTables

  type Values = map<string, Value>

  // The store: its day tables and the single row of audit_chain_head, if present.
  datatype Store = Store(tables: seq<Table>, head: Option<string>)

  function ReadHead(s: Store): string {
    if s.head.Some? then s.head.value else GENESIS
  }

  // How far one call of `log` gets before an error, if any.
  datatype Outcome = NoTable | RolledBack | Committed

  datatype Call = Call(today: string, values: Values, outcome: Outcome)

  function MakeRow(c: Crypto, id: nat, values: Values, prev: string): Row {
    var digest := PayloadDigest(c, values);
    var entry := Link(c.sha, prev, digest);
    Row(id, values, Some(digest), Some(prev), Some(entry), Some(Sign(c, entry)))
  }

  // The row that a committed call inserts.
  function StepRow(c: Crypto, s: Store, call: Call): Row {
    MakeRow(c, NextId(Ensure(s.tables, call.today), call.today), call.values, ReadHead(s))
  }

  // One call: the table is created first, then the row and the head are written in one transaction.
  function LogStep(c: Crypto, s: Store, call: Call): Store {
    if call.outcome.NoTable? then s
    else
      var ts := Ensure(s.tables, call.today);
      if call.outcome.RolledBack? then Store(ts, s.head)
      else
        var row := StepRow(c, s, call);
        Store(Append(ts, call.today, row), row.entryHash)
  }

  class Logger {
    const c: Crypto
    var tables: seq<Table>
    var head: Option<string>

    function State(): Store
      reads this
    {
      Store(tables, head)
    }

    constructor (c: Crypto)
      ensures this.c == c && State() == Store([], None)
    {
      this.c := c;
      tables, head := [], None;
    }

    method EnsureTable(name: string)
      modifies this
      ensures tables == Ensure(old(tables), name) && head == old(head)
    {
      if !Has(tables, name) {
        tables := tables + [Table(name, 1, [])];
      }
    }

    /** Any step may fail; the store is then as the failed step left it.  `reach` says how far the call gets. */
    method Log(today: string, values: Values, reach: Outcome) returns (ok: bool)
      modifies this
      ensures ok <==> reach.Committed?
      ensures State() == LogStep(c, old(State()), Call(today, values, reach))
      ensures !ok ==> head == old(head) && (tables == old(tables) || tables == old(tables) + [Table(today, 1, [])])
    {
      if reach.NoTable? { return false; }
      EnsureTable(today);
      if reach.RolledBack? { return false; }
      var digest := PayloadDigest(c, values);
      var prev := ReadHead(State());
      var entry := Link(c.sha, prev, digest);
      var row := Row(NextId(tables, today), values, Some(digest), Some(prev), Some(entry), Some(Sign(c, entry)));
      tables := Append(tables, today, row);
      head := Some(entry);
      return true;
    }

    /** Re-walks every table, keeping the first break and the running expected link. */
    method VerifyChain() returns (report: Report)
      ensures report == Verdict(c, Walk(tables), ReadHead(State()))
    {
      hide ScanRow, CanonicalPayload, Sort, Flatten;
      report := Report(true, if c.key == "" then NoKey else Verified, 0, 0, 0, None);
      var expectedPrev, seenChained := GENESIS, false;
      var sorted := Sort(tables);
      ghost var done: seq<Entry> := [];
      for i := 0 to |sorted|
        invariant done + Flatten(sorted[i..]) == Walk(tables)
        invariant Scan(report, expectedPrev, seenChained) == ScanAll(c, done)
      {
        var t := sorted[i];
        report, expectedPrev, seenChained := VerifyTable(t, report, expectedPrev, seenChained, done);
        FlattenStep(sorted, i);
        done := done + RowsOf(t.name, t.rows);
      }
      if seenChained && ReadHead(State()) != expectedPrev {
        report := Fail(report, HeadBreak);
      }
      if report.chained > 0 && c.key == "" {
        report := report.(authenticity := Unsigned);
      }
      assert done + Flatten(sorted[|sorted|..]) == done by { FlattenNothing(sorted); }
    }

    method VerifyTable(t: Table, before: Report, prev: string, seen: bool, ghost done: seq<Entry>)
      returns (report: Report, expectedPrev: string, seenChained: bool)
      requires Scan(before, prev, seen) == ScanAll(c, done)
      ensures Scan(report, expectedPrev, seenChained) == ScanAll(c, done + RowsOf(t.name, t.rows))
    {
      hide ScanRow, CanonicalPayload;
      report, expectedPrev, seenChained := before, prev, seen;
      ghost var es := RowsOf(t.name, t.rows);
      assert done + es[..0] == done;
      for j := 0 to |t.rows|
        invariant Scan(report, expectedPrev, seenChained) == ScanAll(c, done + es[..j])
      {
        report, expectedPrev, seenChained := VerifyRow(t.name, t.rows[j], report, expectedPrev, seenChained);
        ghost var next := done + es[..j + 1];
        assert next[..|next| - 1] == done + es[..j];
      }
      assert es[..|t.rows|] == es;
    }

    method VerifyRow(table: string, row: Row, before: Report, prev: string, seen: bool)
      returns (report: Report, expectedPrev: string, seenChained: bool)
      ensures Scan(report, expectedPrev, seenChained) == ScanRow(c, Scan(before, prev, seen), Entry(table, row))
    {
      hide CanonicalPayload, Link, SignatureMatches;
      report, expectedPrev, seenChained := before.(records := before.records + 1), prev, seen;
      if OrEmpty(row.entryHash) == "" {
        if seenChained {
          report := Fail(report, RowBreak(FieldsRemoved, table, row.id));
        } else {
          report := report.(unchainedLegacy := report.unchainedLegacy + 1);
        }
        return;
      }
      seenChained := true;
      report := report.(chained := report.chained + 1);
      report := FailIf(row.prevHash != Some(expectedPrev), report, RowBreak(BrokenLink, table, row.id));
      var digest := PayloadDigest(c, row.columns);
      report := FailIf(row.payloadDigest != Some(digest), report, RowBreak(ContentModified, table, row.id));
      report := FailIf(Link(c.sha, OrEmpty(row.prevHash), digest) != OrEmpty(row.entryHash), report,
                       RowBreak(EntryMismatch, table, row.id));
      var forged := c.key != "" && !SignatureMatches(c, OrEmpty(row.entryHash), OrEmpty(row.signature));
      report := if forged then report.(authenticity := Failed) else report;
      report := FailIf(forged, report, RowBreak(SignatureMismatch, table, row.id));
      expectedPrev := OrEmpty(row.entryHash);
    }
  }

  function FailIf(condition: bool, report: Report, broken: Break): Report {
    if condition then Fail(report, broken) else report
  }

  lemma {:induction false} FlattenNothing(ts: seq<Table>)
    ensures Flatten(ts[|ts|..]) == []
  {
  }

  // ----- Whole runs -----

  function Run(c: Crypto, s: Store, calls: seq<Call>): Store {
    if calls == [] then s else LogStep(c, Run(c, s, calls[..|calls| - 1]), calls[|calls| - 1])
  }

  // The calls whose transaction went through.
  function Kept(calls: seq<Call>): seq<Call> {
    if calls == [] then []
    else Kept(calls[..|calls| - 1]) + (if calls[|calls| - 1].outcome.Committed? then [calls[|calls| - 1]] else [])
  }

  function PayloadsOf(calls: seq<Call>): (ps: seq<string>)
    ensures |ps| == |calls|
  {
    if calls == [] then []
    else PayloadsOf(calls[..|calls| - 1]) + [CanonicalPayload(calls[|calls| - 1].values)]
  }

  // The rows a run writes, in the order it writes them.
  function Written(c: Crypto, s: Store, calls: seq<Call>): seq<Entry> {
    if calls == [] then []
    else
      var init, call := calls[..|calls| - 1], calls[|calls| - 1];
      Written(c, s, init) +
      (if call.outcome.Committed? then [Entry(call.today, StepRow(c, Run(c, s, init), call))] else [])
  }

  // One more call, unfolded once for all the inductions below.
  lemma {:induction false} RunNext(c: Crypto, s: Store, calls: seq<Call>, call: Call)
    ensures Run(c, s, calls + [call]) == LogStep(c, Run(c, s, calls), call)
    ensures call.outcome.Committed? ==>
              && Kept(calls + [call]) == Kept(calls) + [call]
              && Written(c, s, calls + [call]) ==
                 Written(c, s, calls) + [Entry(call.today, StepRow(c, Run(c, s, calls), call))]
    ensures !call.outcome.Committed? ==>
              && Kept(calls + [call]) == Kept(calls)
              && Written(c, s, calls + [call]) == Written(c, s, calls)
  {
    hide LogStep, StepRow;
    var all := calls + [call];
    assert all[..|all| - 1] == calls;
  }

  lemma {:induction false} PayloadsNext(calls: seq<Call>, call: Call)
    ensures PayloadsOf(calls + [call]) == PayloadsOf(calls) + [CanonicalPayload(call.values)]
  {
    hide CanonicalPayload;
    assert (calls + [call])[..|calls|] == calls;
  }

  ghost predicate Ascending(calls: seq<Call>) {
    forall i, j :: 0 <= i < j < |calls| ==> LexLe(calls[i].today, calls[j].today)
  }

  // Every row already present is from no later day than any of the calls.
  ghost predicate After(es: seq<Entry>, calls: seq<Call>) {
    forall i :: 0 <= i < |calls| ==> NoneAfter(es, calls[i].today)
  }

  lemma {:induction false} MakeRowRecorded(c: Crypto, id: nat, values: Values, ps: seq<string>)
    ensures var qs := ps + [CanonicalPayload(values)];
            && Recorded(c, MakeRow(c, id, values, Head(c.sha, ps)), qs, |ps|)
            && MakeRow(c, id, values, Head(c.sha, ps)).entryHash == Some(Head(c.sha, qs))
  {
    hide CanonicalPayload, Link, Sign;
    var qs := ps + [CanonicalPayload(values)];
    assert qs[..|ps|] == ps && qs[..|ps| + 1] == qs;
  }

  lemma {:induction false} StepRecorded(c: Crypto, s: Store, call: Call, ps: seq<string>)
    requires ReadHead(s) == Head(c.sha, ps) && call.outcome.Committed?
    ensures var qs := ps + [CanonicalPayload(call.values)];
            && Recorded(c, StepRow(c, s, call), qs, |ps|)
            && ReadHead(LogStep(c, s, call)) == Head(c.sha, qs)
  {
    hide CanonicalPayload, Ensure, NextId, Append, MakeRow, Recorded, Head;
    MakeRowRecorded(c, NextId(Ensure(s.tables, call.today), call.today), call.values, ps);
  }

  lemma {:induction false} RecordedExtend(c: Crypto, ws: seq<Entry>, ps: seq<string>, e: Entry, p: string)
    requires |ws| == |ps| && AllRecorded(c, ws, ps) && Recorded(c, e.row, ps + [p], |ps|)
    ensures AllRecorded(c, ws + [e], ps + [p])
  {
    hide Recorded;
    assert (ps + [p])[..|ws|] == ps;
    AllRecordedIn(c, ws, ps, ps + [p]);
  }

  ghost predicate RunIsRecorded(c: Crypto, s: Store, calls: seq<Call>) {
    var ps, ws := PayloadsOf(Kept(calls)), Written(c, s, calls);
    && ReadHead(Run(c, s, calls)) == Head(c.sha, ps)
    && |ws| == |Kept(calls)|
    && AllRecorded(c, ws, ps)
    && forall i :: 0 <= i < |ws| ==> ws[i].table == Kept(calls)[i].today
  }

  lemma {:induction false} RunIsRecordedNext(c: Crypto, s: Store, calls: seq<Call>, call: Call)
    requires RunIsRecorded(c, s, calls) && call.outcome.Committed?
    ensures RunIsRecorded(c, s, calls + [call])
  {
    hide CanonicalPayload, AllRecorded, Recorded, Head, StepRow, LogStep, Run, Kept, Written, PayloadsOf;
    RunNext(c, s, calls, call);
    PayloadsNext(Kept(calls), call);
    StepRecorded(c, Run(c, s, calls), call, PayloadsOf(Kept(calls)));
    RecordedExtend(c, Written(c, s, calls), PayloadsOf(Kept(calls)),
                   Entry(call.today, StepRow(c, Run(c, s, calls), call)), CanonicalPayload(call.values));
  }

  lemma {:induction false} StepUncommitted(c: Crypto, s: Store, call: Call)
    requires !call.outcome.Committed?
    ensures ReadHead(LogStep(c, s, call)) == ReadHead(s)
  {
  }

  /** The head after a run is the head of the committed payloads, and the rows written record them in order. */
  lemma {:induction false} RunRecords(c: Crypto, s: Store, calls: seq<Call>)
    requires ReadHead(s) == GENESIS
    ensures RunIsRecorded(c, s, calls)
  {
    if calls == [] {
      HeadOfNothing(c.sha);
    } else {
      hide Run, Kept, Written, PayloadsOf, AllRecorded, LogStep, StepRow;
      var init, call := calls[..|calls| - 1], calls[|calls| - 1];
      assert calls == init + [call];
      RunRecords(c, s, init);
      if call.outcome.Committed? {
        RunIsRecordedNext(c, s, init, call);
      } else {
        RunNext(c, s, init, call);
        StepUncommitted(c, Run(c, s, init), call);
      }
    }
  }

  lemma {:induction false} StepDistinct(c: Crypto, s: Store, call: Call)
    requires Distinct(s.tables)
    ensures Distinct(LogStep(c, s, call).tables)
  {
    hide StepRow, Distinct, Append, Ensure, Walk;
    EnsureKeepsWalk(s.tables, call.today);
    AppendDistinct(Ensure(s.tables, call.today), call.today, StepRow(c, s, call));
  }

  lemma {:induction false} AppendDistinct(ts: seq<Table>, name: string, row: Row)
    requires Distinct(ts)
    ensures Distinct(Append(ts, name, row))
  {
    AppendNames(ts, name, row);
  }

  lemma {:induction false} RunDistinct(c: Crypto, s: Store, calls: seq<Call>)
    requires Distinct(s.tables)
    ensures Distinct(Run(c, s, calls).tables)
  {
    hide LogStep, Distinct;
    if calls != [] {
      RunDistinct(c, s, calls[..|calls| - 1]);
      StepDistinct(c, Run(c, s, calls[..|calls| - 1]), calls[|calls| - 1]);
    }
  }

  lemma {:induction false} StepRising(c: Crypto, s: Store, call: Call)
    requires Distinct(s.tables) && AllRising(s.tables)
    ensures AllRising(LogStep(c, s, call).tables)
  {
    hide Distinct, AllRising, Append, Ensure, NextId, PayloadDigest, Link, Sign;
    EnsureRising(s.tables, call.today);
    EnsureKeepsWalk(s.tables, call.today);
    if call.outcome.Committed? {
      AppendRising(Ensure(s.tables, call.today), call.today, StepRow(c, s, call));
    }
  }

  /** No run, failed calls included, gives two rows of one table the same number. */
  lemma {:induction false} RunRising(c: Crypto, s: Store, calls: seq<Call>)
    requires Distinct(s.tables) && AllRising(s.tables)
    ensures var ts := Run(c, s, calls).tables;
            Distinct(ts) && AllRising(ts)
    ensures var es := Walk(Run(c, s, calls).tables);
            forall i, j :: 0 <= i < |es| && 0 <= j < |es| && es[i].table == es[j].table && es[i].row.id == es[j].row.id
                           ==> i == j
  {
    hide LogStep, Distinct, AllRising, Walk;
    RunDistinct(c, s, calls);
    if calls != [] {
      var init := calls[..|calls| - 1];
      RunDistinct(c, s, init);
      RunRising(c, s, init);
      StepRising(c, Run(c, s, init), calls[|calls| - 1]);
    }
    var ts := Run(c, s, calls).tables;
    var es := Walk(ts);
    forall i, j | 0 <= i < |es| && 0 <= j < |es| && es[i].table == es[j].table && es[i].row.id == es[j].row.id
      ensures i == j
    {
      RowsIdentified(ts, i, j);
    }
  }

  lemma {:induction false} StepWalk(c: Crypto, s: Store, call: Call)
    requires Distinct(s.tables) && (call.outcome.Committed? ==> NoneAfter(Walk(s.tables), call.today))
    ensures Walk(LogStep(c, s, call).tables) ==
            Walk(s.tables) + (if call.outcome.Committed? then [Entry(call.today, StepRow(c, s, call))] else [])
  {
    hide StepRow, Walk, Distinct, NoneAfter, Ensure, Append;
    EnsureKeepsWalk(s.tables, call.today);
    if call.outcome.Committed? {
      AppendExtendsWalk(Ensure(s.tables, call.today), call.today, StepRow(c, s, call));
    }
  }

  lemma {:induction false} OrderedPrefix(es: seq<Entry>, k: seq<Call>, call: Call)
    requires Ascending(k + [call]) && After(es, k + [call])
    ensures Ascending(k) && After(es, k) && NoneAfter(es, call.today)
  {
    hide LexLe, NoneAfter;
    assert (k + [call])[|k|] == call;
    assert forall i :: 0 <= i < |k| ==> (k + [call])[i] == k[i];
  }

  lemma {:induction false} RunWalkNext(c: Crypto, s: Store, calls: seq<Call>, call: Call)
    requires Distinct(s.tables) && ReadHead(s) == GENESIS
    requires Walk(Run(c, s, calls).tables) == Walk(s.tables) + Written(c, s, calls)
    requires call.outcome.Committed? ==> Ascending(Kept(calls) + [call]) && NoneAfter(Walk(s.tables), call.today)
    ensures Walk(Run(c, s, calls + [call]).tables) == Walk(s.tables) + Written(c, s, calls + [call])
  {
    hide LogStep, StepRow, Walk, AllRecorded, Distinct, NoneAfter, Ascending, Run, Kept, Written, PayloadsOf, Head;
    RunNext(c, s, calls, call);
    RunDistinct(c, s, calls);
    if call.outcome.Committed? {
      RunRecords(c, s, calls);
      NoneAfterWritten(Walk(s.tables), Written(c, s, calls), Kept(calls), call);
    }
    StepWalk(c, Run(c, s, calls), call);
  }

  // Where the committed days never go back, each row written is the last of the walk.
  lemma {:induction false} RunWalk(c: Crypto, s: Store, calls: seq<Call>)
    requires Distinct(s.tables) && ReadHead(s) == GENESIS
    requires Ascending(Kept(calls)) && After(Walk(s.tables), Kept(calls))
    ensures Walk(Run(c, s, calls).tables) == Walk(s.tables) + Written(c, s, calls)
  {
    if calls != [] {
      hide *;
      var init, call := calls[..|calls| - 1], calls[|calls| - 1];
      assert calls == init + [call];
      RunNext(c, s, init, call);
      if call.outcome.Committed? {
        OrderedPrefix(Walk(s.tables), Kept(init), call);
      }
      RunWalk(c, s, init);
      RunWalkNext(c, s, init, call);
    }
  }

  lemma {:induction false} NoneAfterWritten(es: seq<Entry>, ws: seq<Entry>, k: seq<Call>, call: Call)
    requires Ascending(k + [call]) && NoneAfter(es, call.today)
    requires |ws| == |k| && forall i :: 0 <= i < |ws| ==> ws[i].table == k[i].today
    ensures NoneAfter(es + ws, call.today)
  {
    hide LexLe;
    var all := k + [call];
    forall i | 0 <= i < |es + ws|
      ensures LexLe((es + ws)[i].table, call.today)
    {
      if i >= |es| {
        assert all[i - |es|].today == ws[i - |es|].table && all[|k|] == call;
      }
    }
  }

  lemma {:induction false} StepMembers(c: Crypto, s: Store, call: Call, e: Entry)
    requires Distinct(s.tables)
    ensures e in Walk(LogStep(c, s, call).tables) <==>
            e in Walk(s.tables) || (call.outcome.Committed? && e == Entry(call.today, StepRow(c, s, call)))
  {
    hide StepRow, Walk, Distinct, Ensure, Append;
    EnsureKeepsWalk(s.tables, call.today);
    if call.outcome.Committed? {
      AppendMembers(Ensure(s.tables, call.today), call.today, StepRow(c, s, call), e);
    }
  }

  /** Whatever the days, the walk after a run holds the rows present before and the rows written. */
  lemma {:induction false} RunMembers(c: Crypto, s: Store, calls: seq<Call>, e: Entry)
    requires Distinct(s.tables)
    ensures e in Walk(Run(c, s, calls).tables) <==> e in Walk(s.tables) || e in Written(c, s, calls)
  {
    hide LogStep, StepRow, Walk, Distinct;
    if calls != [] {
      var init, call := calls[..|calls| - 1], calls[|calls| - 1];
      assert calls == init + [call];
      RunNext(c, s, init, call);
      RunMembers(c, s, init, e);
      RunDistinct(c, s, init);
      StepMembers(c, Run(c, s, init), call, e);
    }
  }

  lemma {:induction false} ChainedAfterLegacy(es: seq<Entry>, ws: seq<Entry>)
    requires forall i :: 0 <= i < |es| ==> Legacy(es[i].row)
    requires ws != [] ==> !Legacy(ws[0].row)
    ensures LegacyPrefix(es + ws) == |es| && Chained(es + ws) == ws
  {
    LegacyPrefixAt(es + ws, |es|);
  }

  /**
   * Completeness.  From any store of legacy rows, every run of `log` calls -
   * failed ones included - whose committed days never go back and are no
   * earlier than a legacy row's verifies clean, with one chained row per
   * committed call.
   */
  lemma {:induction false} HonestRunVerifies(c: Crypto, texts: set<string>, s: Store, calls: seq<Call>)
    requires Distinct(s.tables) && ReadHead(s) == GENESIS
    requires forall i :: 0 <= i < |Walk(s.tables)| ==> Legacy(Walk(s.tables)[i].row)
    requires Ascending(Kept(calls)) && After(Walk(s.tables), Kept(calls))
    requires Secure(c.sha, texts) && Hashed(c.sha, texts, PayloadsOf(Kept(calls)))
    ensures var s' := Run(c, s, calls);
            var r := Verdict(c, Walk(s'.tables), ReadHead(s'));
            && r.integrityOk && r.firstBreak.None?
            && r.chained == |Kept(calls)|
            && r.unchainedLegacy == |Walk(s.tables)|
            && r.authenticity == (if c.key != "" then Verified else if Kept(calls) == [] then NoKey else Unsigned)
  {
    hide Walk, Recorded, Hashed, Secure, Verdict, RowOk, Head, Run, Kept, Written, Linked, Distinct, Ascending, After;
    var ps, ws, s' := PayloadsOf(Kept(calls)), Written(c, s, calls), Run(c, s, calls);
    RunWalk(c, s, calls);
    RunRecords(c, s, calls);
    RecordedIsLinked(c, texts, ws, ps);
    assert ps[..|ps|] == ps;
    if ws != [] {
      LinkedAt(c, ws, 0);
      RowOkIsChained(c, EntryBefore(ws, 0), ws[0].row);
    }
    ChainedAfterLegacy(Walk(s.tables), ws);
    VerdictCharacterised(c, Walk(s'.tables), ReadHead(s'));
  }

  lemma {:induction false} RowOkIsChained(c: Crypto, prev: string, row: Row)
    requires RowOk(c, prev, row)
    ensures !Legacy(row)
  {
  }

  lemma {:induction false} RecordedNotLegacy(c: Crypto, texts: set<string>, row: Row, ps: seq<string>, i: nat)
    requires Secure(c.sha, texts) && Hashed(c.sha, texts, ps) && i < |ps| && Recorded(c, row, ps, i)
    ensures !Legacy(row)
  {
    hide CanonicalPayload, Head, Hashed, Secure;
    HashedPrefix(c.sha, texts, ps, i + 1);
    HeadNotGenesis(c.sha, texts, ps[..i + 1]);
  }

  // A row is recorded at one place of the history only.
  lemma {:induction false} RecordedOnce(c: Crypto, texts: set<string>, row: Row, ps: seq<string>, i: nat, k: nat)
    requires Secure(c.sha, texts) && Hashed(c.sha, texts, ps) && i < |ps| && k < |ps|
    requires Recorded(c, row, ps, i) && Recorded(c, row, ps, k)
    ensures i == k
  {
    hide CanonicalPayload, Head, Hashed, Secure;
    HeadsDistinct(c.sha, texts, ps, k + 1, i + 1);
  }

  // A recorded row in the walk of a run is the row that the run wrote at that place in the history.
  lemma {:induction false} RecordedIsWritten(c: Crypto, texts: set<string>, s: Store, calls: seq<Call>, e: Entry,
                                             i: nat)
    requires Distinct(s.tables) && ReadHead(s) == GENESIS
    requires forall k :: 0 <= k < |Walk(s.tables)| ==> Legacy(Walk(s.tables)[k].row)
    requires var ps := PayloadsOf(Kept(calls));
             Secure(c.sha, texts) && Hashed(c.sha, texts, ps) && i < |ps| && Recorded(c, e.row, ps, i)
    requires e in Walk(Run(c, s, calls).tables)
    ensures e.table == Kept(calls)[i].today
  {
    hide Walk, Secure, Hashed, Recorded, Legacy, Head, Distinct, Run, Written, Kept;
    var ps, ws := PayloadsOf(Kept(calls)), Written(c, s, calls);
    RunMembers(c, s, calls, e);
    RunRecords(c, s, calls);
    RecordedNotLegacy(c, texts, e.row, ps, i);
    var k :| 0 <= k < |ws| && ws[k] == e;
    RecordedOnce(c, texts, e.row, ps, i, k);
  }

  /**
   * The order of days is exactly what completeness needs: from a store of
   * legacy rows, a run verifies clean if and only if the days of its committed
   * calls never go back, and no legacy row is from a later day than any of them.
   */
  lemma {:induction false} CleanExactlyWhenOrdered(c: Crypto, texts: set<string>, s: Store, calls: seq<Call>)
    requires Distinct(s.tables) && ReadHead(s) == GENESIS
    requires forall i :: 0 <= i < |Walk(s.tables)| ==> Legacy(Walk(s.tables)[i].row)
    requires Secure(c.sha, texts) && Hashed(c.sha, texts, PayloadsOf(Kept(calls)))
    requires Hashed(c.sha, texts, Payloads(Chained(Walk(Run(c, s, calls).tables))))
    ensures var s' := Run(c, s, calls);
            Verdict(c, Walk(s'.tables), ReadHead(s')).integrityOk <==>
            Ascending(Kept(calls)) && After(Walk(s.tables), Kept(calls))
  {
    hide *;
    var s' := Run(c, s, calls);
    if Verdict(c, Walk(s'.tables), ReadHead(s')).integrityOk {
      CleanIsOrdered(c, texts, s, calls);
      CleanIsAfterLegacy(c, texts, s, calls);
    } else if Ascending(Kept(calls)) && After(Walk(s.tables), Kept(calls)) {
      HonestRunVerifies(c, texts, s, calls);
    }
  }

  // In a clean walk each committed call's row stands at its place after the legacy prefix.
  lemma {:induction false} CleanPlaces(c: Crypto, texts: set<string>, s: Store, calls: seq<Call>, i: nat)
    requires Distinct(s.tables) && ReadHead(s) == GENESIS
    requires forall i :: 0 <= i < |Walk(s.tables)| ==> Legacy(Walk(s.tables)[i].row)
    requires Secure(c.sha, texts) && Hashed(c.sha, texts, PayloadsOf(Kept(calls)))
    requires Hashed(c.sha, texts, Payloads(Chained(Walk(Run(c, s, calls).tables))))
    requires var s' := Run(c, s, calls); Verdict(c, Walk(s'.tables), ReadHead(s')).integrityOk
    requires i < |Kept(calls)|
    ensures var es := Walk(Run(c, s, calls).tables);
            var l := LegacyPrefix(es);
            |es| == l + |Kept(calls)| && es[l + i].table == Kept(calls)[i].today && !Legacy(es[l + i].row)
  {
    hide Walk, Secure, Hashed, Recorded, CanonicalPayload, Head, Run, Kept, Verdict, Distinct, Payloads, Legacy,
         LegacyPrefix, PayloadsOf, Written;
    var ps, es := PayloadsOf(Kept(calls)), Walk(Run(c, s, calls).tables);
    var ch, l := Chained(es), LegacyPrefix(es);
    RunRecords(c, s, calls);
    UnkeyedSoundness(c, texts, es, ps);
    WrittenIsChained(c, texts, s, calls);
    assert ch[i] == es[l + i] && ch[i] in es && Recorded(c, ch[i].row, ps, i);
    RecordedIsWritten(c, texts, s, calls, ch[i], i);
    RecordedNotLegacy(c, texts, ch[i].row, ps, i);
  }

  lemma {:induction false} CleanIsOrdered(c: Crypto, texts: set<string>, s: Store, calls: seq<Call>)
    requires Distinct(s.tables) && ReadHead(s) == GENESIS
    requires forall i :: 0 <= i < |Walk(s.tables)| ==> Legacy(Walk(s.tables)[i].row)
    requires Secure(c.sha, texts) && Hashed(c.sha, texts, PayloadsOf(Kept(calls)))
    requires Hashed(c.sha, texts, Payloads(Chained(Walk(Run(c, s, calls).tables))))
    requires var s' := Run(c, s, calls); Verdict(c, Walk(s'.tables), ReadHead(s')).integrityOk
    ensures Ascending(Kept(calls))
  {
    hide Walk, Secure, Hashed, Head, Run, Kept, Verdict, LexLe, Distinct, Payloads, LegacyPrefix, Chained,
         PayloadsOf, ReadHead, Legacy;
    var k, l := Kept(calls), LegacyPrefix(Walk(Run(c, s, calls).tables));
    forall i, j | 0 <= i < j < |k|
      ensures LexLe(k[i].today, k[j].today)
    {
      CleanPlaces(c, texts, s, calls, i);
      CleanPlaces(c, texts, s, calls, j);
      WalkSorted(c, s, calls, l + i, l + j);
    }
  }

  // A legacy row of a day after a committed call's would be read behind its chained row.
  lemma {:induction false} CleanIsAfterLegacy(c: Crypto, texts: set<string>, s: Store, calls: seq<Call>)
    requires Distinct(s.tables) && ReadHead(s) == GENESIS
    requires forall i :: 0 <= i < |Walk(s.tables)| ==> Legacy(Walk(s.tables)[i].row)
    requires Secure(c.sha, texts) && Hashed(c.sha, texts, PayloadsOf(Kept(calls)))
    requires Hashed(c.sha, texts, Payloads(Chained(Walk(Run(c, s, calls).tables))))
    requires var s' := Run(c, s, calls); Verdict(c, Walk(s'.tables), ReadHead(s')).integrityOk
    ensures After(Walk(s.tables), Kept(calls))
  {
    hide Walk, Secure, Hashed, Head, Run, Kept, Verdict, LexLe, Distinct, Payloads, LegacyPrefix, Chained,
         PayloadsOf, ReadHead, Legacy;
    var k, before := Kept(calls), Walk(s.tables);
    forall i, m | 0 <= i < |k| && 0 <= m < |before|
      ensures LexLe(before[m].table, k[i].today)
    {
      LegacyStaysBefore(c, texts, s, calls, i, m);
    }
  }

  lemma {:induction false} LegacyStaysBefore(c: Crypto, texts: set<string>, s: Store, calls: seq<Call>, i: nat, m: nat)
    requires Distinct(s.tables) && ReadHead(s) == GENESIS
    requires forall i :: 0 <= i < |Walk(s.tables)| ==> Legacy(Walk(s.tables)[i].row)
    requires Secure(c.sha, texts) && Hashed(c.sha, texts, PayloadsOf(Kept(calls)))
    requires Hashed(c.sha, texts, Payloads(Chained(Walk(Run(c, s, calls).tables))))
    requires var s' := Run(c, s, calls); Verdict(c, Walk(s'.tables), ReadHead(s')).integrityOk
    requires i < |Kept(calls)| && m < |Walk(s.tables)|
    ensures LexLe(Walk(s.tables)[m].table, Kept(calls)[i].today)
  {
    hide Walk, Secure, Hashed, Head, Run, Kept, Verdict, LexLe, Distinct, Payloads, LegacyPrefix, Chained,
         PayloadsOf, ReadHead, Legacy, Written;
    var es, e := Walk(Run(c, s, calls).tables), Walk(s.tables)[m];
    var l := LegacyPrefix(es);
    RunMembers(c, s, calls, e);
    var n :| 0 <= n < |es| && es[n] == e;
    CleanPlaces(c, texts, s, calls, i);
    if n >= l {
      CleanPlaces(c, texts, s, calls, n - l);
    }
    WalkSorted(c, s, calls, n, l + i);
  }

  lemma {:induction false} WalkSorted(c: Crypto, s: Store, calls: seq<Call>, i: nat, j: nat)
    requires Distinct(s.tables)
    requires i < j < |Walk(Run(c, s, calls).tables)|
    ensures var es := Walk(Run(c, s, calls).tables); LexLe(es[i].table, es[j].table)
  {
    hide LexLe;
    RunDistinct(c, s, calls);
    SortSorts(Run(c, s, calls).tables);
    FlattenSorted(Sort(Run(c, s, calls).tables), i, j);
  }

  // If anything was committed, the walk sees a chained row.
  lemma {:induction false} WrittenIsChained(c: Crypto, texts: set<string>, s: Store, calls: seq<Call>)
    requires Distinct(s.tables) && ReadHead(s) == GENESIS
    requires Secure(c.sha, texts) && Hashed(c.sha, texts, PayloadsOf(Kept(calls)))
    ensures Kept(calls) != [] ==> Chained(Walk(Run(c, s, calls).tables)) != []
  {
    hide Walk, Secure, CanonicalPayload, Head, Run, Hashed;
    var ps, ws, es := PayloadsOf(Kept(calls)), Written(c, s, calls), Walk(Run(c, s, calls).tables);
    RunRecords(c, s, calls);
    if Kept(calls) != [] {
      RunMembers(c, s, calls, ws[0]);
      HashedPrefix(c.sha, texts, ps, 1);
      HeadNotGenesis(c.sha, texts, ps[..1]);
      assert Recorded(c, ws[0].row, ps, 0) && !Legacy(ws[0].row);
      var i :| 0 <= i < |es| && es[i] == ws[0];
    }
  }
}

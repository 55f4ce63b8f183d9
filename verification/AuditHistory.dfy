/**
 * What a clean report of the audit chain proves about history: soundness with
 * and without a signing key, and the position of the first break.
 *
 * Histories are lists of canonical payload texts; `PayloadUnambiguous` says
 * what equality of two such texts means for the stored columns.
 */
module AuditHistory {
  import opened Wrappers
  import opened HashChain
  import opened AuditChain

  function Payloads(es: seq<Entry>): (ps: seq<string>)
    ensures |ps| == |es|
  {
    if es == [] then []
    else Payloads(es[..|es| - 1]) + [CanonicalPayload(es[|es| - 1].row.columns)]
  }

  // Row `row` stores exactly what honestly logging payload `ps[i]` after `ps[..i]` stores.
  predicate Recorded(c: Crypto, row: Row, ps: seq<string>, i: nat)
    requires i < |ps|
  {
    && CanonicalPayload(row.columns) == ps[i]
    && row.payloadDigest == Some(c.sha(ps[i]))
    && row.prevHash == Some(Head(c.sha, ps[..i]))
    && row.entryHash == Some(Head(c.sha, ps[..i + 1]))
    && (c.key != "" ==> OrEmpty(row.signature) == Sign(c, Head(c.sha, ps[..i + 1])))
  }

  // The rows are the first |es| honest records of `ps`, in order.
  predicate AllRecorded(c: Crypto, es: seq<Entry>, ps: seq<string>) {
    |es| <= |ps| && forall i :: 0 <= i < |es| ==> Recorded(c, es[i].row, ps, i)
  }

  lemma {:induction false} RecordedIn(c: Crypto, row: Row, ps: seq<string>, qs: seq<string>, i: nat)
    requires i < |ps| && i < |qs| && ps[..i + 1] == qs[..i + 1]
    ensures Recorded(c, row, ps, i) <==> Recorded(c, row, qs, i)
  {
    hide CanonicalPayload;
    assert ps[..i] == ps[..i + 1][..i] == qs[..i + 1][..i] == qs[..i];
    assert ps[i] == ps[..i + 1][i] == qs[..i + 1][i] == qs[i];
  }

  lemma {:induction false} AllRecordedIn(c: Crypto, es: seq<Entry>, ps: seq<string>, qs: seq<string>)
    requires AllRecorded(c, es, ps) && |es| <= |qs| && ps[..|es|] == qs[..|es|]
    ensures AllRecorded(c, es, qs)
  {
    hide CanonicalPayload;
    forall i | 0 <= i < |es|
      ensures Recorded(c, es[i].row, qs, i)
    {
      assert ps[..i + 1] == ps[..|es|][..i + 1] == qs[..|es|][..i + 1] == qs[..i + 1];
      RecordedIn(c, es[i].row, ps, qs, i);
    }
  }

  lemma {:induction false} HeadNext(sha: Digester, ps: seq<string>, i: nat)
    requires i < |ps|
    ensures Head(sha, ps[..i + 1]) == Link(sha, Head(sha, ps[..i]), sha(ps[i]))
  {
    hide CanonicalPayload;
    assert ps[..i + 1][..i] == ps[..i];
  }

  // A row accepted after the head of `ps[..i]` is the record of its own payload.
  lemma {:induction false} AcceptedIsRecorded(c: Crypto, row: Row, ps: seq<string>, i: nat)
    requires i < |ps| && CanonicalPayload(row.columns) == ps[i]
    requires RowOk(c, Head(c.sha, ps[..i]), row)
    ensures Recorded(c, row, ps, i) && OrEmpty(row.entryHash) == Head(c.sha, ps[..i + 1])
  {
    hide CanonicalPayload;
    HeadNext(c.sha, ps, i);
  }

  lemma {:induction false} RecordedIsAccepted(c: Crypto, row: Row, ps: seq<string>, i: nat)
    requires i < |ps| && Recorded(c, row, ps, i) && Head(c.sha, ps[..i + 1]) != ""
    ensures RowOk(c, Head(c.sha, ps[..i]), row) && OrEmpty(row.entryHash) == Head(c.sha, ps[..i + 1])
  {
    hide CanonicalPayload;
    HeadNext(c.sha, ps, i);
  }

  lemma {:induction false} HeadOfNothing(sha: Digester)
    ensures Head(sha, []) == GENESIS
  {
  }

  /** A linked chain records its own payloads, and ends in their head. */
  lemma {:induction false} LinkedIsRecorded(c: Crypto, es: seq<Entry>)
    requires Linked(c, es)
    ensures AllRecorded(c, es, Payloads(es)) && EntryBefore(es, |es|) == Head(c.sha, Payloads(es))
  {
    hide CanonicalPayload, RowOk, Recorded, Head;
    if es == [] {
      HeadOfNothing(c.sha);
    } else {
      var n, init, ps := |es| - 1, es[..|es| - 1], Payloads(es);
      LinkedIsRecorded(c, init);
      assert ps[..n] == Payloads(init) && ps[..n + 1] == ps;
      AcceptedIsRecorded(c, es[n].row, ps, n);
      AllRecordedIn(c, init, Payloads(init), ps);
      forall i | 0 <= i < n
        ensures Recorded(c, es[i].row, ps, i)
      {
        assert init[i] == es[i];
      }
    }
  }

  lemma {:induction false} RecordedIsLinked(c: Crypto, texts: set<string>, es: seq<Entry>, ps: seq<string>)
    requires Secure(c.sha, texts) && Hashed(c.sha, texts, ps) && AllRecorded(c, es, ps)
    ensures Linked(c, es) && EntryBefore(es, |es|) == Head(c.sha, ps[..|es|])
  {
    hide CanonicalPayload, RowOk, Recorded, Hashed, Secure, Head;
    if es == [] {
      HeadOfNothing(c.sha);
    } else {
      var n, init := |es| - 1, es[..|es| - 1];
      assert forall i :: 0 <= i < n ==> init[i] == es[i];
      RecordedIsLinked(c, texts, init, ps);
      HashedPrefix(c.sha, texts, ps, n + 1);
      HeadNotGenesis(c.sha, texts, ps[..n + 1]);
      assert Recorded(c, es[n].row, ps, n);
      RecordedIsAccepted(c, es[n].row, ps, n);
    }
  }

  lemma {:induction false} RecordedPayloads(c: Crypto, es: seq<Entry>, ps: seq<string>)
    requires AllRecorded(c, es, ps)
    ensures Payloads(es) == ps[..|es|]
  {
    hide CanonicalPayload;
    if es != [] {
      var n, init := |es| - 1, es[..|es| - 1];
      assert forall i :: 0 <= i < n ==> init[i] == es[i];
      RecordedPayloads(c, init, ps);
      assert ps[..|es|] == ps[..n] + [ps[n]];
    }
  }

  // ----- Soundness -----

  // Links that honest calls produced are the only ones that were ever signed.
  ghost predicate Unforged(c: Crypto, es: seq<Entry>, ps: seq<string>) {
    forall i :: 0 <= i < |es| && OrEmpty(es[i].row.signature) == c.mac(c.key, OrEmpty(es[i].row.entryHash)) ==>
      exists j :: 0 < j <= |ps| && OrEmpty(es[i].row.entryHash) == Head(c.sha, ps[..j])
  }

  /** A linked chain whose last link was honestly signed is a prefix of the history. */
  lemma {:induction false} SignedIsPrefix(c: Crypto, texts: set<string>, es: seq<Entry>, ps: seq<string>)
    requires Secure(c.sha, texts) && Hashed(c.sha, texts, ps) && Hashed(c.sha, texts, Payloads(es))
    requires c.key != "" && Linked(c, es) && Unforged(c, es, ps)
    ensures AllRecorded(c, es, ps)
  {
    hide CanonicalPayload;
    LinkedIsRecorded(c, es);
    if es != [] {
      LinkedAt(c, es, |es| - 1);
      var j :| 0 < j <= |ps| && OrEmpty(es[|es| - 1].row.entryHash) == Head(c.sha, ps[..j]);
      HashedPrefix(c.sha, texts, ps, j);
      SameHead(c.sha, texts, Payloads(es), ps[..j]);
      AllRecordedIn(c, es, Payloads(es), ps);
    }
  }

  /**
   * Signed history is a prefix.  Whatever was done to rows and head, if only
   * honest calls ever signed, the report is clean exactly when the rows after
   * the legacy prefix are, in order, the first honest records and the head is
   * the last of them.
   */
  lemma {:induction false} KeyedSoundness(c: Crypto, texts: set<string>, es: seq<Entry>, head: string, ps: seq<string>)
    requires Secure(c.sha, texts) && Hashed(c.sha, texts, ps) && Hashed(c.sha, texts, Payloads(Chained(es)))
    requires c.key != "" && Unforged(c, Chained(es), ps)
    ensures var ch := Chained(es);
            Verdict(c, es, head).integrityOk <==>
            AllRecorded(c, ch, ps) && (ch != [] ==> head == Head(c.sha, ps[..|ch|]))
  {
    hide CanonicalPayload;
    var ch := Chained(es);
    VerdictCharacterised(c, es, head);
    if Linked(c, ch) {
      SignedIsPrefix(c, texts, ch, ps);
    }
    if AllRecorded(c, ch, ps) {
      RecordedIsLinked(c, texts, ch, ps);
    }
  }

  /**
   * Unkeyed soundness.  With the head an honest run left, the report is clean
   * exactly when every chained row is the honest record at its place and none
   * is missing - or when no chained row is left at all, because the head is
   * compared only if some chained row was seen.
   */
  lemma {:induction false} UnkeyedSoundness(c: Crypto, texts: set<string>, es: seq<Entry>, ps: seq<string>)
    requires Secure(c.sha, texts) && Hashed(c.sha, texts, ps) && Hashed(c.sha, texts, Payloads(Chained(es)))
    ensures var ch := Chained(es);
            Verdict(c, es, Head(c.sha, ps)).integrityOk <==>
            ch == [] || (|ch| == |ps| && AllRecorded(c, ch, ps))
  {
    hide CanonicalPayload;
    var ch, head := Chained(es), Head(c.sha, ps);
    VerdictCharacterised(c, es, head);
    assert ps[..|ps|] == ps;
    if Linked(c, ch) && EntryBefore(ch, |ch|) == head {
      LinkedIsRecorded(c, ch);
      SameHead(c.sha, texts, Payloads(ch), ps);
    }
    if |ch| == |ps| && AllRecorded(c, ch, ps) {
      RecordedIsLinked(c, texts, ch, ps);
    }
  }

  // ----- Where tampering shows -----

  lemma {:induction false} LinkedPrefix(c: Crypto, es: seq<Entry>, n: nat)
    requires Linked(c, es) && n <= |es|
    ensures Linked(c, es[..n])
  {
    hide CanonicalPayload;
    if n < |es| {
      LinkedPrefix(c, es[..|es| - 1], n);
      assert es[..|es| - 1][..n] == es[..n];
    } else {
      assert es[..n] == es;
    }
  }

  // Scanning up to chained row `k` of a clean store finds nothing and expects the entry before it.
  lemma {:induction false} ScanToChained(c: Crypto, es: seq<Entry>, k: nat)
    requires Linked(c, Chained(es)) && LegacyPrefix(es) <= k < |es|
    ensures var s := ScanAll(c, es[..k]); var j := k - LegacyPrefix(es);
            && s.report.firstBreak.None?
            && s.expectedPrev == EntryBefore(Chained(es), j)
            && s.seenChained == (j > 0)
            && RowOk(c, s.expectedPrev, es[k].row)
  {
    hide CanonicalPayload;
    hide ScanAll, RowOk, Linked, LegacyPrefix;
    var l, ch, pre := LegacyPrefix(es), Chained(es), es[..k];
    LegacyPrefixAt(pre, l);
    assert Chained(pre) == ch[..k - l];
    LinkedPrefix(c, ch, k - l);
    ScanCharacterised(c, pre);
    assert EntryBefore(ch[..k - l], k - l) == EntryBefore(ch, k - l);
    LinkedAt(c, ch, k - l);
  }

  /** Editing any protected column of one chained row is reported at that row, as modified content. */
  lemma {:induction false} EditIsLocated(c: Crypto, texts: set<string>, es: seq<Entry>, k: nat,
                                         columns: map<string, Value>, column: string, head: string)
    requires Linked(c, Chained(es)) && LegacyPrefix(es) <= k < |es|
    requires Secure(c.sha, texts) && CanonicalPayload(columns) in texts && CanonicalPayload(es[k].row.columns) in texts
    requires column in PROTECTED_COLUMNS && !Alike(Stored(columns, column), Stored(es[k].row.columns, column))
    ensures var edited := es[k := es[k].(row := es[k].row.(columns := columns))];
            Verdict(c, edited, head).firstBreak == Some(RowBreak(ContentModified, es[k].table, es[k].row.id))
  {
    hide CanonicalPayload, Alike, Stored, PROTECTED_COLUMNS;
    PayloadUnambiguous(columns, es[k].row.columns);
    var edited := es[k := es[k].(row := es[k].row.(columns := columns))];
    ScanToChained(c, es, k);
    assert edited[..k] == es[..k];
    FirstBreakAt(c, edited, k, head, RowBreak(ContentModified, es[k].table, es[k].row.id));
  }

  // A good row read where its predecessor is not expected is a broken link.
  lemma {:induction false} MisplacedRow(c: Crypto, s: Scan, e: Entry, prev: string)
    requires s.report.firstBreak.None? && RowOk(c, prev, e.row) && prev != s.expectedPrev
    ensures ScanRow(c, s, e).report.firstBreak == Some(RowBreak(BrokenLink, e.table, e.row.id))
  {
    hide CanonicalPayload;
  }

  /** Deleting a chained row that is not the last is reported at the row after it, as a broken link. */
  lemma {:induction false} DeletionIsLocated(c: Crypto, texts: set<string>, es: seq<Entry>, k: nat, head: string)
    requires Linked(c, Chained(es)) && LegacyPrefix(es) <= k < |es| - 1
    requires Secure(c.sha, texts) && Hashed(c.sha, texts, Payloads(Chained(es)))
    ensures var cut := es[..k] + es[k + 1..];
            Verdict(c, cut, head).firstBreak == Some(RowBreak(BrokenLink, es[k + 1].table, es[k + 1].row.id))
  {
    hide CanonicalPayload;
    hide ScanRow, ScanAll, RowOk, Linked, EntryBefore, Conclude, LegacyPrefix, Payloads, Secure, Hashed;
    var cut, ch, j := es[..k] + es[k + 1..], Chained(es), k - LegacyPrefix(es);
    ScanToChained(c, es, k);
    ScanToChained(c, es, k + 1);
    EntriesDistinct(c, texts, ch, j, j + 1);
    assert cut[..k] == es[..k] && cut[k] == es[k + 1];
    MisplacedRow(c, ScanAll(c, es[..k]), es[k + 1], EntryBefore(ch, j + 1));
    FirstBreakAt(c, cut, k, head, RowBreak(BrokenLink, es[k + 1].table, es[k + 1].row.id));
  }

  lemma {:induction false} EntriesDistinct(c: Crypto, texts: set<string>, ch: seq<Entry>, i: nat, j: nat)
    requires Linked(c, ch) && i < j <= |ch|
    requires Secure(c.sha, texts) && Hashed(c.sha, texts, Payloads(ch))
    ensures EntryBefore(ch, i) != EntryBefore(ch, j)
  {
    hide CanonicalPayload;
    LinkedIsRecorded(c, ch);
    var ps := Payloads(ch);
    assert EntryBefore(ch, i) == Head(c.sha, ps[..i]) by {
      if i > 0 { assert Recorded(c, ch[i - 1].row, ps, i - 1); } else { assert ps[..0] == []; }
    }
    assert EntryBefore(ch, j) == Head(c.sha, ps[..j]) by {
      assert Recorded(c, ch[j - 1].row, ps, j - 1);
    }
    if EntryBefore(ch, i) == EntryBefore(ch, j) {
      HeadsDistinct(c.sha, texts, ps, i, j);
    }
  }

  /** Cutting off the last chained rows, but not all of them, is reported at the head. */
  lemma {:induction false} TruncationIsLocated(c: Crypto, texts: set<string>, es: seq<Entry>, k: nat, head: string)
    requires Clean(c, es, head) && LegacyPrefix(es) < k < |es|
    requires Secure(c.sha, texts) && Hashed(c.sha, texts, Payloads(Chained(es)))
    ensures Verdict(c, es[..k], head).firstBreak == Some(HeadBreak)
  {
    hide CanonicalPayload, ScanAll, RowOk, Linked, EntryBefore, Conclude;
    var ch, j := Chained(es), k - LegacyPrefix(es);
    ScanToChained(c, es, k);
    EntriesDistinct(c, texts, ch, j, |ch|);
    HeadDiffers(c, ScanAll(c, es[..k]), head);
  }

  lemma {:induction false} HeadDiffers(c: Crypto, s: Scan, head: string)
    requires s.report.firstBreak.None? && s.seenChained && head != s.expectedPrev
    ensures Conclude(c, s, head).firstBreak == Some(HeadBreak)
  {
  }

  lemma {:induction false} LegacyRowSkipped(c: Crypto, es: seq<Entry>, k: nat)
    requires k < |es| && Legacy(es[k].row) && !ScanAll(c, es[..k]).seenChained
    ensures var s, s' := ScanAll(c, es[..k]), ScanAll(c, es[..k + 1]);
            s'.report.firstBreak == s.report.firstBreak && s'.expectedPrev == s.expectedPrev
  {
    hide CanonicalPayload, Legacy;
    assert es[..k + 1][..k] == es[..k] && es[..k + 1][k] == es[k];
  }

  /** Blanking the chain fields of a chained row is reported: at that row, or for the first one at the row after it. */
  lemma {:induction false} StrippingIsLocated(c: Crypto, texts: set<string>, es: seq<Entry>, k: nat, row: Row,
                                              head: string)
    requires Linked(c, Chained(es)) && LegacyPrefix(es) <= k < |es| && Legacy(row) && row.id == es[k].row.id
    requires Secure(c.sha, texts) && Hashed(c.sha, texts, Payloads(Chained(es)))
    ensures var stripped := es[k := es[k].(row := row)];
            && (k > LegacyPrefix(es) ==>
                  Verdict(c, stripped, head).firstBreak == Some(RowBreak(FieldsRemoved, es[k].table, es[k].row.id)))
            && (k == LegacyPrefix(es) && k + 1 < |es| ==>
                  Verdict(c, stripped, head).firstBreak ==
                  Some(RowBreak(BrokenLink, es[k + 1].table, es[k + 1].row.id)))
  {
    hide CanonicalPayload;
    hide ScanAll, RowOk, Linked;
    var stripped, ch := es[k := es[k].(row := row)], Chained(es);
    ScanToChained(c, es, k);
    assert stripped[..k] == es[..k];
    if k > LegacyPrefix(es) {
      FirstBreakAt(c, stripped, k, head, RowBreak(FieldsRemoved, es[k].table, es[k].row.id));
    } else if k + 1 < |es| {
      ScanToChained(c, es, k + 1);
      EntriesDistinct(c, texts, ch, 0, 1);
      LegacyRowSkipped(c, stripped, k);
      MisplacedRow(c, ScanAll(c, stripped[..k + 1]), es[k + 1], EntryBefore(ch, 1));
      FirstBreakAt(c, stripped, k + 1, head, RowBreak(BrokenLink, es[k + 1].table, es[k + 1].row.id));
    }
  }
}

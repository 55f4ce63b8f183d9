/**
 * One-time confirmation tokens: minted for a dry run, consumed at most once,
 * swept when expired.
 *
 * `Mint`, `Consume` and `Sweep` say what the locked operations do to the table;
 * the methods of `Store` are proved to do just that.
 */
module Confirmations {
  import opened Wrappers
  import opened RiskScore

  datatype Record = Record(toolName: string, arguments: Arguments, score: nat, level: Level, decision: Decision,
                           expiresAt: real, used: bool)
  type Table = map<string, Record>

  datatype Answer = Granted(record: Record) | Invalid | Used | Expired | NotConfirmable

  predicate Confirmable(r: Record) {
    r.decision.Confirm? && !r.level.Forbidden? && r.score < 100
  }

  // Expired records go, except the one about to be judged.
  function Sweep(t: Table, now: real, exclude: Option<string>): Table {
    map token | token in t && (exclude == Some(token) || t[token].expiresAt >= now) :: t[token]
  }

  function Consume(t: Table, token: string, now: real): (Table, Answer) {
    var swept := Sweep(t, now, Some(token));
    if token !in swept then (swept, Invalid)
    else if swept[token].used then (swept, Used)
    else if swept[token].expiresAt < now then (swept - {token}, Expired)
    else
      var spent := swept[token := swept[token].(used := true)];
      (spent, if Confirmable(swept[token]) then Granted(swept[token]) else NotConfirmable)
  }

  function Mint(t: Table, token: string, record: Record, sweepAt: real): Table {
    Sweep(t, sweepAt, None)[token := record]
  }

  class Store {
    var confirmations: Table

    constructor ()
      ensures confirmations == map[]
    {
      confirmations := map[];
    }

    method CleanupConfirmations(current: real, exclude: Option<string>)
      modifies this
      ensures confirmations == Sweep(old(confirmations), current, exclude)
    {
      var expired := set token |
        token in confirmations && exclude != Some(token) && confirmations[token].expiresAt < current;
      confirmations := confirmations - expired;
    }

    /** Validates and consumes a token; an answer other than a grant authorises nothing. */
    method ConsumeConfirmation(token: string, now: real) returns (answer: Answer)
      modifies this
      ensures (confirmations, answer) == Consume(old(confirmations), token, now)
      ensures answer.Granted? <==>
        token in old(confirmations) && !old(confirmations)[token].used && old(confirmations)[token].expiresAt >= now
        && old(confirmations)[token].decision.Confirm? && !old(confirmations)[token].level.Forbidden?
        && old(confirmations)[token].score < 100
      ensures answer.Invalid? <==> token !in old(confirmations)
      ensures answer.Used? <==> token in old(confirmations) && old(confirmations)[token].used
      ensures answer.Expired? <==>
        token in old(confirmations) && !old(confirmations)[token].used && old(confirmations)[token].expiresAt < now
      ensures answer.Granted? || answer.NotConfirmable? ==>
        token in confirmations && confirmations[token] == old(confirmations)[token].(used := true)
      ensures answer.Granted? ==> answer.record == old(confirmations)[token]
      ensures forall other :: other != token ==>
        (other in confirmations <==> other in old(confirmations) && old(confirmations)[other].expiresAt >= now)
        && (other in confirmations ==> confirmations[other] == old(confirmations)[other])
      ensures old(token in confirmations && confirmations[token].used) ==> !answer.Granted?
    {
      CleanupConfirmations(now, Some(token));
      if token !in confirmations {
        return Invalid;
      }
      var record := confirmations[token];
      if record.used {
        return Used;
      }
      if record.expiresAt < now {
        confirmations := confirmations - {token};
        return Expired;
      }
      if !record.decision.Confirm? || record.level.Forbidden? || record.score >= 100 {
        confirmations := confirmations[token := record.(used := true)];
        return NotConfirmable;
      }
      confirmations := confirmations[token := record.(used := true)];
      return Granted(record);
    }

    method CreateConfirmation(token: string, toolName: string, arguments: Arguments, a: Assessment, sweepAt: real,
                              now: real, ttl: real)
      modifies this
      ensures confirmations == Mint(old(confirmations), token, NewRecord(toolName, arguments, a, now + ttl), sweepAt)
      ensures token in confirmations
        && confirmations[token] == Record(toolName, arguments, a.score, a.level, a.decision, now + ttl, false)
      ensures forall other :: other != token ==>
        (other in confirmations <==> other in old(confirmations) && old(confirmations)[other].expiresAt >= sweepAt)
        && (other in confirmations ==> confirmations[other] == old(confirmations)[other])
    {
      CleanupConfirmations(sweepAt, None);
      confirmations := confirmations[token := NewRecord(toolName, arguments, a, now + ttl)];
    }
  }

  function NewRecord(toolName: string, arguments: Arguments, a: Assessment, expiresAt: real): Record {
    Record(toolName, arguments, a.score, a.level, a.decision, expiresAt, false)
  }

  /** A sweep leaves every unexpired record, and the one excluded, as it was, and no other. */
  lemma {:induction false} SweepExactly(t: Table, now: real, exclude: Option<string>, token: string)
    ensures var swept := Sweep(t, now, exclude);
            && (token in swept <==> token in t && (t[token].expiresAt >= now || exclude == Some(token)))
            && (token in swept ==> swept[token] == t[token])
  {
  }

  // ----- Over any operations on the table -----

  datatype Op =
    | SweepOp(now: real, exclude: Option<string>)
    | ConsumeOp(token: string, now: real)
    | MintOp(token: string, record: Record, sweepAt: real)

  function Apply(t: Table, op: Op): Table {
    match op
    case SweepOp(now, exclude) => Sweep(t, now, exclude)
    case ConsumeOp(token, now) => Consume(t, token, now).0
    case MintOp(token, record, sweepAt) => Mint(t, token, record, sweepAt)
  }

  function ApplyAll(t: Table, ops: seq<Op>): Table
    decreases |ops|
  {
    if ops == [] then t else ApplyAll(Apply(t, ops[0]), ops[1..])
  }

  // A token that is gone, or used, stays so unless it is minted anew.
  lemma {:induction false} StaysSpent(t: Table, token: string, ops: seq<Op>)
    requires token in t ==> t[token].used
    requires forall i :: 0 <= i < |ops| && ops[i].MintOp? ==> ops[i].token != token
    ensures var after := ApplyAll(t, ops); token in after ==> after[token].used
    decreases |ops|
  {
    hide Confirmable;
    if ops != [] {
      assert ops[0].MintOp? ==> ops[0].token != token;
      StaysSpent(Apply(t, ops[0]), token, ops[1..]);
    }
  }

  /** A token once granted is refused ever after, whatever happens to the table in between. */
  lemma {:induction false} GrantedOnce(t: Table, token: string, now: real, ops: seq<Op>, later: real)
    requires Consume(t, token, now).1.Granted?
    requires forall i :: 0 <= i < |ops| && ops[i].MintOp? ==> ops[i].token != token
    ensures !Consume(ApplyAll(Consume(t, token, now).0, ops), token, later).1.Granted?
  {
    hide ApplyAll;
    StaysSpent(Consume(t, token, now).0, token, ops);
  }

  // An operation that reads the clock no later than `until`, and neither spends nor mints `token`.
  predicate Spares(op: Op, token: string, until: real) {
    match op
    case SweepOp(now, _) => now <= until
    case ConsumeOp(other, now) => other != token && now <= until
    case MintOp(other, _, sweepAt) => other != token && sweepAt <= until
  }

  /** A token minted is granted once, with the call it was minted for, after any other operations until it expires. */
  lemma {:induction false} MintedIsGranted(t: Table, token: string, record: Record, sweepAt: real, ops: seq<Op>,
                                           now: real)
    requires record.decision.Confirm? && !record.level.Forbidden? && record.score < 100 && !record.used
    requires now <= record.expiresAt && forall i :: 0 <= i < |ops| ==> Spares(ops[i], token, record.expiresAt)
    ensures Consume(ApplyAll(Mint(t, token, record, sweepAt), ops), token, now).1 == Granted(record)
  {
    hide ApplyAll;
    StaysThere(Mint(t, token, record, sweepAt), token, record, ops);
  }

  lemma {:induction false} StaysThere(t: Table, token: string, record: Record, ops: seq<Op>)
    requires token in t && t[token] == record
    requires forall i :: 0 <= i < |ops| ==> Spares(ops[i], token, record.expiresAt)
    ensures var after := ApplyAll(t, ops); token in after && after[token] == record
    decreases |ops|
  {
    hide Confirmable;
    if ops != [] {
      assert Spares(ops[0], token, record.expiresAt);
      StaysThere(Apply(t, ops[0]), token, record, ops[1..]);
    }
  }
}

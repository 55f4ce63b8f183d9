/**
 * What the three entry points answer, given how the checks, the audit
 * preflight, the tool and the final log write turn out.
 *
 * Main results: the contracts of `CallTool`, `ConfirmTool` and `Chat`; in
 * particular exactly when an answer says "reject" or "unavailable" although a
 * tool has run.
 */
module RequestHandlers {
  import opened Wrappers
  import opened RiskScore
  import opened Confirmations
  import opened ExecutionGate
  import PlanLoop

  datatype Reason =
    | ToolNotFound | InvalidArguments | BlockedByGuardrail | ConfirmationRequired | ToolException
    | BlockedOutput | ExecutedReason | TokenRefused

  datatype Response =
    | Unavailable                      // 503, or the audit error escaping from the final log write
    | Answered(success: bool, decision: Decision, reason: Reason, executed: bool, score: nat)

  // The world's part in one request: preflight, tool, and the final log write.
  datatype World = World(preflight: bool, attempt: PlanLoop.Attempt, logged: bool)

  function Logged(w: World, r: Response): Response {
    if w.logged then r else Unavailable
  }

  function Checks(g: Guard, input: Check, toolName: string, arguments: Arguments): Request {
    Request([input, g.toolCheck(toolName), g.argCheck(toolName, arguments)], toolName, arguments, [])
  }

  // After the tool: its output decides between an allowed answer and a rejected one.
  function AfterTool(g: Guard, input: Check, toolName: string, arguments: Arguments, a: PlanLoop.Attempt,
                     before: nat): Response {
    match a
    case Raises => Answered(false, Reject, ToolException, false, before)
    case Returns(status, output) =>
      var r := Checks(g, input, toolName, arguments);
      var score := ScoreOf(r.(checks := r.checks + [output]));
      if !output.passed then Answered(false, Reject, BlockedOutput, status.Success?, score)
      else Answered(status.Success?, Allow, ExecutedReason, status.Success?, score)
  }

  // The answer to be given after a call: the output's check decides, and joins the score.
  function Answer(rq: Request, a: PlanLoop.Attempt): Response {
    if a.Raises? then Answered(false, Reject, ToolException, false, ScoreOf(rq))
    else
      var score := ScoreOf(Request(rq.checks + [a.output], rq.toolName, rq.arguments, rq.extraFactors));
      var ran := a.status == PlanLoop.Success;
      if a.output.passed then Answered(ran, Allow, ExecutedReason, ran, score)
      else Answered(false, Reject, BlockedOutput, ran, 100)
  }

  /**
   * /tools/call.  The tool runs exactly when the gate's route is to run and the
   * audit log is writable: it is registered, its arguments are valid, and nothing
   * in the call reaches 70.  "reject" and "executed" meet exactly when the tool
   * succeeded and its output was blocked.
   */
  method CallTool(store: Store, registry: set<string>, g: Guard, input: Check, toolName: string, arguments: Arguments,
                  token: string, sweepAt: real, now: real, ttl: real, w: World)
    returns (r: Response, called: bool)
    modifies store
    ensures called <==> CallRoute(registry, g, input, toolName, arguments).MayRun? && w.preflight
    ensures called <==>
      && toolName in registry && g.validArgs(toolName, arguments) && w.preflight
      && !Reaches(Request([input, g.toolCheck(toolName), g.argCheck(toolName, arguments)], toolName, arguments, []), 70)
    ensures var rq := Request([input, g.toolCheck(toolName), g.argCheck(toolName, arguments)], toolName, arguments, []);
            CallRoute(registry, g, input, toolName, arguments).NeedsConfirmation? <==>
            toolName in registry && g.validArgs(toolName, arguments) && Reaches(rq, 70) && !Forbidding(rq)
    ensures var rq := Request([input, g.toolCheck(toolName), g.argCheck(toolName, arguments)], toolName, arguments, []);
            w.logged && !called ==>
              r == if toolName !in registry then Answered(false, Reject, ToolNotFound, false, 100)
                   else if !g.validArgs(toolName, arguments) then Answered(false, Reject, InvalidArguments, false, 100)
                   else if Forbidding(rq) then Answered(false, Reject, BlockedByGuardrail, false, 100)
                   else if Reaches(rq, 70) then Answered(false, Confirm, ConfirmationRequired, false, ScoreOf(rq))
                   else Unavailable
    ensures var rq := Request([input, g.toolCheck(toolName), g.argCheck(toolName, arguments)], toolName, arguments, []);
            w.logged && called ==> r == Answer(rq, w.attempt)
    ensures store.confirmations ==
      match CallRoute(registry, g, input, toolName, arguments)
      case NeedsConfirmation(a) =>
        Mint(old(store.confirmations), token, NewRecord(toolName, arguments, a, now + ttl), sweepAt)
      case _ => old(store.confirmations)
    ensures r.Unavailable? <==>
            !w.logged || (CallRoute(registry, g, input, toolName, arguments).MayRun? && !w.preflight)
    ensures r.Answered? && r.executed ==> called && w.attempt.Returns? && w.attempt.status.Success?
    ensures r.Answered? ==>
              (r.success <==>
                 called && w.attempt.Returns? && w.attempt.status.Success? && w.attempt.output.passed)
    ensures r.Answered? ==> (r.decision.Allow? <==> called && w.attempt.Returns? && w.attempt.output.passed)
    ensures r.Answered? ==>
              (r.decision.Confirm? <==> CallRoute(registry, g, input, toolName, arguments).NeedsConfirmation?)
    ensures r.Answered? ==>
      (r.decision.Reject? && r.executed <==>
       called && w.attempt.Returns? && w.attempt.status.Success? && !w.attempt.output.passed)
    ensures r.Answered? && called && w.attempt.Returns? && !w.attempt.output.passed ==> r.score == 100
  {
    hide ScoreOf, SomeFailed, MatchedRules, Mint, TOOL_BASE_SCORE, Reaches, Forbidding;
    called := false;
    RouteExactly(registry, g, input, toolName, arguments);
    if toolName !in registry {
      var a := Score(Request([], "", [], ["tool_not_found:" + toolName]));
      SchematicRejected("tool_not_found:" + toolName, Request([], "", [], ["tool_not_found:" + toolName]));
      return Logged(w, Answered(false, a.decision, ToolNotFound, false, a.score)), false;
    }
    if !g.validArgs(toolName, arguments) {
      var error := "schema_validation:";
      var request := Request([], toolName, arguments, [error]);
      var a := Score(request);
      SchematicRejected(error, request);
      return Logged(w, Answered(false, a.decision, InvalidArguments, false, a.score)), false;
    }
    var first := Score(Checks(g, input, toolName, arguments));
    if first.decision.Confirm? {
      store.CreateConfirmation(token, toolName, arguments, first, sweepAt, now, ttl);
      return Logged(w, Answered(false, Confirm, ConfirmationRequired, false, first.score)), false;
    }
    if !first.decision.Allow? {
      return Logged(w, Answered(false, Reject, BlockedByGuardrail, false, first.score)), false;
    }
    if !w.preflight {
      return Unavailable, false;
    }
    called := true;
    BlockedScores(g, input, toolName, arguments, w.attempt);
    r := Logged(w, AfterTool(g, input, toolName, arguments, w.attempt, first.score));
  }

  lemma {:induction false} RouteExactly(registry: set<string>, g: Guard, input: Check, toolName: string,
                                        arguments: Arguments)
    ensures var rq := Request([input, g.toolCheck(toolName), g.argCheck(toolName, arguments)], toolName, arguments, []);
            var route := CallRoute(registry, g, input, toolName, arguments);
            && rq == Checks(g, input, toolName, arguments)
            && (route.MayRun? <==> toolName in registry && g.validArgs(toolName, arguments) && !Reaches(rq, 70))
            && (route.NeedsConfirmation? <==>
                toolName in registry && g.validArgs(toolName, arguments) && Reaches(rq, 70) && !Forbidding(rq))
            && (Forbidding(rq) ==> ScoreOf(rq) == 100) && (Assess(rq).decision.Reject? <==> Forbidding(rq))
            && (Assess(rq).decision.Allow? <==> !Reaches(rq, 70))
  {
    hide ScoreOf, MatchedRules, SomeFailed, Reaches, Forbidding;
    var rq := Request([input, g.toolCheck(toolName), g.argCheck(toolName, arguments)], toolName, arguments, []);
    AllowedExactly(rq);
    RejectedExactly(rq);
    ScoreBounded(rq);
  }

  lemma {:induction false} SchematicRejected(factor: string, r: Request)
    requires r.extraFactors == [factor]
    requires "schema_validation" <= factor || "tool_not_found" <= factor
    ensures Assess(r).decision.Reject? && Assess(r).score == 100
  {
    hide ScoreOf, TOOL_BASE_SCORE;
    assert Schematic(r.extraFactors[0]);
    RejectedExactly(r);
    ScoreBounded(r);
  }

  lemma {:induction false} BlockedScores(g: Guard, input: Check, toolName: string, arguments: Arguments,
                                         a: PlanLoop.Attempt)
    ensures a.Returns? && !a.output.passed ==>
      var r := Checks(g, input, toolName, arguments); ScoreOf(r.(checks := r.checks + [a.output])) == 100
  {
    hide ScoreOf;
    if a.Returns? { FurtherCheckRaises(Checks(g, input, toolName, arguments), a.output); }
  }

  // A token that may be confirmed at this time.
  predicate Usable(t: Table, token: string, now: real) {
    && token in t && !t[token].used && now <= t[token].expiresAt
    && t[token].decision.Confirm? && !t[token].level.Forbidden? && t[token].score < 100
  }

  // The token grants this call, and the call is still permitted.
  predicate ConfirmedRun(t: Table, registry: set<string>, g: Guard, input: Check, token: string, now: real) {
    var answer := Consume(t, token, now).1;
    answer.Granted? && answer.record.toolName in registry
    && StillPermitted(g, input, answer.record.toolName, answer.record.arguments)
  }

  /**
   * /tools/confirm.  The token's own tool and arguments run, exactly when the
   * token is known, unused, unexpired and confirmable, the tool is registered, the
   * arguments are valid, nothing in the call forbids it, checked anew, and the
   * audit log is writable; the token is gone or used afterwards whatever happens.
   */
  method ConfirmTool(store: Store, registry: set<string>, g: Guard, input: Check, token: string, now: real, w: World)
    returns (r: Response, called: Option<(string, Arguments)>)
    modifies store
    ensures store.confirmations == Consume(old(store.confirmations), token, now).0
    ensures token in store.confirmations ==> store.confirmations[token].used
    ensures called.Some? <==> ConfirmedRun(old(store.confirmations), registry, g, input, token, now) && w.preflight
    ensures called.Some? <==>
      && Usable(old(store.confirmations), token, now) && w.preflight
      && var rec := old(store.confirmations)[token];
         && rec.toolName in registry && g.validArgs(rec.toolName, rec.arguments)
         && !Forbidding(Request([input, g.toolCheck(rec.toolName), g.argCheck(rec.toolName, rec.arguments)],
                                rec.toolName, rec.arguments, []))
    ensures called.Some? ==>
      var rec := old(store.confirmations)[token];
      input.passed && g.toolCheck(rec.toolName).passed && g.argCheck(rec.toolName, rec.arguments).passed
    ensures w.logged && !Usable(old(store.confirmations), token, now) ==>
      r == Answered(false, Reject, TokenRefused, false, 100)
    ensures w.logged && Usable(old(store.confirmations), token, now) ==>
      var rec := old(store.confirmations)[token];
      var rq := Request([input, g.toolCheck(rec.toolName), g.argCheck(rec.toolName, rec.arguments)],
                        rec.toolName, rec.arguments, []);
      r == if rec.toolName !in registry || !g.validArgs(rec.toolName, rec.arguments) then
             Answered(false, Reject, InvalidArguments, false, rec.score)
           else if Forbidding(rq) then Answered(false, Reject, BlockedByGuardrail, false, 100)
           else if !w.preflight then Unavailable
           else Answer(rq, w.attempt)
    ensures called.Some? ==>
      && token in old(store.confirmations)
      && called == Some((old(store.confirmations)[token].toolName, old(store.confirmations)[token].arguments))
      && !old(store.confirmations)[token].used && now <= old(store.confirmations)[token].expiresAt
    ensures r.Unavailable? <==>
      !w.logged || (ConfirmedRun(old(store.confirmations), registry, g, input, token, now) && !w.preflight)
    ensures r.Answered? ==> !r.decision.Confirm?
    ensures r.Answered? ==>
              (r.success <==>
                 called.Some? && w.attempt.Returns? && w.attempt.status.Success? && w.attempt.output.passed)
    ensures r.Answered? ==>
      (r.decision.Reject? && r.executed <==>
       called.Some? && w.attempt.Returns? && w.attempt.status.Success? && !w.attempt.output.passed)
  {
    hide ScoreOf, SomeFailed, MatchedRules, TOOL_BASE_SCORE, Reaches, Forbidding;
    called := None;
    var answer := store.ConsumeConfirmation(token, now);
    if !answer.Granted? {
      return Logged(w, Answered(false, Reject, TokenRefused, false, 100)), None;
    }
    var toolName, arguments := answer.record.toolName, answer.record.arguments;
    if toolName !in registry || !g.validArgs(toolName, arguments) {
      return Logged(w, Answered(false, Reject, InvalidArguments, false, answer.record.score)), None;
    }
    RouteExactly(registry, g, input, toolName, arguments);
    PermittedExactly(g, input, toolName, arguments, token);
    if StillPermitted(g, input, toolName, arguments) { LetThroughPassed(g, input, toolName, arguments, Some(token)); }
    BlockedScores(g, input, toolName, arguments, w.attempt);
    var again := Score(Checks(g, input, toolName, arguments));
    if again.decision.Reject? || again.level.Forbidden? {
      return Logged(w, Answered(false, again.decision, BlockedByGuardrail, false, again.score)), None;
    }
    if !w.preflight {
      return Unavailable, None;
    }
    called := Some((toolName, arguments));
    r := Logged(w, AfterTool(g, input, toolName, arguments, w.attempt, again.score));
  }

  datatype ChatResponse =
    | ChatUnavailable
    | Stopped(decision: Decision)      // by the check of the message itself
    | NothingToDo
    | Carried(result: PlanLoop.Result)

  /**
   * /chat.  A rejected answer has `executed` unset; the answer that the audit log
   * is unavailable and nothing was executed is untrue exactly when the log write
   * fails after a tool was asked to run.
   */
  method Chat(g: Guard, input: Check, names: PlanLoop.Names, raw: PlanLoop.RawPlan, attempts: seq<PlanLoop.Attempt>,
              preflight: bool, logged: bool)
    returns (r: ChatResponse, plan: seq<PlanLoop.Entry>, called: seq<bool>)
    requires |attempts| >= PlanLoop.MAX_CHAT_TOOL_PLAN
    ensures |called| == |plan| <= PlanLoop.MAX_CHAT_TOOL_PLAN
    ensures forall i :: 0 <= i < |called| ==>
      (called[i] <==> MessageAllowed(input) && preflight && PlanLoop.Called(input, g, plan[i]))
    ensures forall i :: 0 <= i < |called| && called[i] ==>
      plan[i].toolName in TOOL_BASE_SCORE && TOOL_BASE_SCORE[plan[i].toolName] < 70
    ensures var allowed := !Reaches(Request([input], "", [], []), 70);
            var proposed := PlanLoop.PlanOf(names, PlanLoop.FirstThree(PlanLoop.ItemsOf(names, raw)));
            && plan == (if allowed then proposed else [])
            && r == if !logged then ChatUnavailable
                    else if !allowed then Stopped(Assess(Request([input], "", [], [])).decision)
                    else if plan == [] then NothingToDo
                    else if !preflight then ChatUnavailable
                    else Carried(PlanLoop.Outcome(input, g, plan, attempts[..|plan|]))
    ensures r.Carried? && r.result.decision.Rejected? ==> !r.result.executed
    ensures r.Stopped? ==> !r.decision.Allow? && true !in called
    ensures r.ChatUnavailable? && true in called <==>
      !logged && MessageAllowed(input) && preflight && exists i :: 0 <= i < |plan| && PlanLoop.Called(input, g, plan[i])
  {
    hide ScoreOf, SomeFailed, MatchedRules, TOOL_BASE_SCORE, PlanLoop.Called, PlanLoop.Outcome, Reaches, Forbidding,
         PlanLoop.PlanOf, PlanLoop.ItemsOf, PlanLoop.FirstThree;
    plan, called := [], [];
    AllowedExactly(Request([input], "", [], []));
    var check := Score(Request([input], "", [], []));
    if !check.decision.Allow? {
      r := if logged then Stopped(check.decision) else ChatUnavailable;
      return;
    }
    plan := PlanLoop.ExtractToolPlan(names, raw);
    if plan == [] {
      r := if logged then NothingToDo else ChatUnavailable;
      return;
    }
    if !preflight {
      r := ChatUnavailable;
      called := seq(|plan|, _ => false);
      return;
    }
    var result;
    result, called := PlanLoop.ExecuteToolPlan(input, g, plan, attempts[..|plan|]);
    forall i | 0 <= i < |called| && called[i]
      ensures plan[i].toolName in TOOL_BASE_SCORE && TOOL_BASE_SCORE[plan[i].toolName] < 70
    {
      PlanLoop.CalledToolsAreReadOnly(input, g, plan[i]);
    }
    PlanLoop.PlanRejectedExactly(input, g, plan, attempts[..|plan|]);
    r := if logged then Carried(result) else ChatUnavailable;
  }
}

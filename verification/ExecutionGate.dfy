/**
 * Every way a tool can come to run: `/chat`, `/tools/call` and
 * `/tools/confirm`, as steps that any number of requests interleave.
 *
 * Main results: `EveryRunIsSafe`, the invariant holds after any sequence of
 * steps, and `CallsAreAuthorised`, what it means for each tool that ran.
 */
module ExecutionGate {
  import opened Wrappers
  import opened RiskScore
  import opened Confirmations
  import PlanLoop

  type Guard = PlanLoop.Guard

  // ----- What a request is let do -----

  datatype Route = Refuse | NeedsConfirmation(a: Assessment) | MayRun

  // The checks of /tools/call up to its preflight.
  function CallRoute(registry: set<string>, g: Guard, input: Check, toolName: string, arguments: Arguments): Route {
    if toolName !in registry || !g.validArgs(toolName, arguments) then Refuse
    else
      var checks := [input, g.toolCheck(toolName), g.argCheck(toolName, arguments)];
      var a := Assess(Request(checks, toolName, arguments, []));
      match a.decision
      case Allow => MayRun
      case Confirm => NeedsConfirmation(a)
      case Reject => Refuse
  }

  // A confirmed call is assessed anew, and runs unless it has become forbidden.
  predicate StillPermitted(g: Guard, input: Check, toolName: string, arguments: Arguments) {
    g.validArgs(toolName, arguments) &&
    var a := Assess(Request([input, g.toolCheck(toolName), g.argCheck(toolName, arguments)], toolName, arguments, []));
    !a.decision.Reject? && !a.level.Forbidden?
  }

  // The check of a chat message itself.
  predicate MessageAllowed(input: Check) {
    Assess(Request([input], "", [], [])).decision.Allow?
  }

  // ----- What has happened -----

  type Id = nat

  datatype Event =
    | Issued(token: string, toolName: string, arguments: Arguments, expiresAt: real)
    | Consumed(request: Id, token: string, now: real)
    | Checked(request: Id, g: Guard, input: Check, toolName: string, arguments: Arguments, via: Option<string>)
    | Preflighted(request: Id)
    | ToolCalled(request: Id, toolName: string, arguments: Arguments, via: Option<string>)

  datatype Issue = Issue(toolName: string, arguments: Arguments, expiresAt: real)
  // A call that its checks have let through, for one request and perhaps on a token.
  datatype Passed = Passed(request: Id, toolName: string, arguments: Arguments, via: Option<string>)
  datatype Facts = Facts(
    issued: map<string, Issue>,
    consumed: map<string, Id>,
    passed: set<Passed>,
    preflighted: set<Id>,
    spent: set<string>
  )

  function Note(f: Facts, e: Event): Facts {
    match e
    case Issued(t, tool, args, exp) => f.(issued := f.issued[t := Issue(tool, args, exp)])
    case Consumed(r, t, _) => f.(consumed := f.consumed[t := r])
    case Checked(r, _, _, tool, args, via) => f.(passed := f.passed + {Passed(r, tool, args, via)})
    case Preflighted(r) => f.(preflighted := f.preflighted + {r})
    case ToolCalled(_, _, _, via) => if via.Some? then f.(spent := f.spent + {via.value}) else f
  }

  function FactsOf(trace: seq<Event>): Facts {
    if trace == [] then Facts(map[], map[], {}, {}, {}) else Note(FactsOf(trace[..|trace| - 1]), trace[|trace| - 1])
  }

  // The request holds a consumed, unspent token for exactly this tool and these arguments.
  predicate HoldsToken(f: Facts, r: Id, toolName: string, arguments: Arguments, token: string) {
    && token in f.issued && f.issued[token].toolName == toolName && f.issued[token].arguments == arguments
    && token in f.consumed && f.consumed[token] == r && token !in f.spent
  }

  predicate Authorised(f: Facts, r: Id, toolName: string, arguments: Arguments, via: Option<string>) {
    && toolName in TOOL_BASE_SCORE && Passed(r, toolName, arguments, via) in f.passed
    && (via.None? ==> TOOL_BASE_SCORE[toolName] < 70)
    && (via.Some? ==> HoldsToken(f, r, toolName, arguments, via.value))
  }

  // The checks of a call on its own: nothing reaches 70.  On a token: nothing forbids.
  predicate LetThrough(g: Guard, input: Check, toolName: string, arguments: Arguments, via: Option<string>) {
    && g.validArgs(toolName, arguments)
    && var r := Request([input, g.toolCheck(toolName), g.argCheck(toolName, arguments)], toolName, arguments, []);
       if via.None? then !Reaches(r, 70) else !Forbidding(r)
  }

  // The event may follow a history with these facts.
  predicate Justified(f: Facts, e: Event) {
    match e
    case Issued(t, tool, _, _) => t !in f.issued && tool in TOOL_BASE_SCORE
    case Consumed(_, t, now) => t in f.issued && t !in f.consumed && now <= f.issued[t].expiresAt
    case Checked(r, g, input, tool, args, via) =>
      LetThrough(g, input, tool, args, via) && (via.Some? ==> HoldsToken(f, r, tool, args, via.value))
    case Preflighted(_) => true
    case ToolCalled(r, tool, args, via) => r in f.preflighted && Authorised(f, r, tool, args, via)
  }

  predicate Safe(trace: seq<Event>) {
    trace == [] || (Safe(trace[..|trace| - 1]) && Justified(FactsOf(trace[..|trace| - 1]), trace[|trace| - 1]))
  }

  // ----- The state machine -----

  datatype Phase =
    | AwaitsToken(toolName: string, arguments: Arguments, a: Assessment)
    | HoldsGrant(toolName: string, arguments: Arguments, token: string)
    | AwaitsPreflight(toolName: string, arguments: Arguments, via: Option<string>)
    | Ready(toolName: string, arguments: Arguments, via: Option<string>)
    | PlanAwaitsPreflight(input: Check, g: Guard, plan: seq<PlanLoop.Entry>)
    | PlanReady(input: Check, g: Guard, plan: seq<PlanLoop.Entry>, at: nat)
    | Done

  datatype State = State(registry: set<string>, ttl: real, table: Table, phases: map<Id, Phase>, trace: seq<Event>)

  // Each step is one locked operation, or work on one request's own variables.
  datatype Step =
    | CallArrives(r: Id, toolName: string, arguments: Arguments, g: Guard, input: Check)
    | TokenIssued(r: Id, token: string, sweepAt: real, now: real)
    | ConfirmArrives(r: Id, token: string, now: real)
    | Revalidated(r: Id, g: Guard, input: Check)
    | ChatArrives(r: Id, g: Guard, input: Check, plan: seq<PlanLoop.Entry>)
    | PreflightAnswers(r: Id, writable: bool)
    | ToolRuns(r: Id)
    | PlanAdvances(r: Id)
    | TableSwept(now: real, exclude: Option<string>)

  function Goes(s: State, r: Id, p: Phase): State {
    s.(phases := s.phases[r := p])
  }

  function Happens(s: State, e: Event): State {
    s.(trace := s.trace + [e])
  }

  function At(s: State, r: Id): Phase {
    if r in s.phases then s.phases[r] else Done
  }

  // A step out of turn changes nothing; a fresh token is one never issued before.
  function Next(s: State, step: Step): State {
    match step
    case CallArrives(r, tool, args, g, input) =>
      if r in s.phases then s
      else (match CallRoute(s.registry, g, input, tool, args)
            case Refuse => Goes(s, r, Done)
            case NeedsConfirmation(a) => Goes(s, r, AwaitsToken(tool, args, a))
            case MayRun =>
              Goes(Happens(s, Checked(r, g, input, tool, args, None)), r, AwaitsPreflight(tool, args, None)))
    case TokenIssued(r, token, sweepAt, now) =>
      if !At(s, r).AwaitsToken? || token in FactsOf(s.trace).issued then s
      else IssueToken(s, r, At(s, r), token, sweepAt, now)
    case ConfirmArrives(r, token, now) =>
      if r in s.phases then s else UseToken(s, r, token, now)
    case Revalidated(r, g, input) =>
      var p := At(s, r);
      if !p.HoldsGrant? then s
      else if p.toolName in s.registry && StillPermitted(g, input, p.toolName, p.arguments) then
        Goes(Happens(s, Checked(r, g, input, p.toolName, p.arguments, Some(p.token))), r,
             AwaitsPreflight(p.toolName, p.arguments, Some(p.token)))
      else Goes(s, r, Done)
    case ChatArrives(r, g, input, plan) =>
      if r in s.phases then s
      else if !MessageAllowed(input) || plan == [] then Goes(s, r, Done)
      else Goes(s, r, PlanAwaitsPreflight(input, g, plan))
    case PreflightAnswers(r, writable) =>
      (match At(s, r)
       case AwaitsPreflight(tool, args, via) =>
         if writable then Goes(Happens(s, Preflighted(r)), r, Ready(tool, args, via)) else Goes(s, r, Done)
       case PlanAwaitsPreflight(input, g, plan) =>
         if writable then Goes(Happens(s, Preflighted(r)), r, PlanReady(input, g, plan, 0)) else Goes(s, r, Done)
       case _ => s)
    case ToolRuns(r) =>
      var p := At(s, r);
      if !p.Ready? then s else Goes(Happens(s, ToolCalled(r, p.toolName, p.arguments, p.via)), r, Done)
    case PlanAdvances(r) =>
      var p := At(s, r);
      if !p.PlanReady? then s
      else if p.at >= |p.plan| then Goes(s, r, Done)
      else
        var e := p.plan[p.at];
        var moved := Goes(s, r, p.(at := p.at + 1));
        if PlanLoop.Called(p.input, p.g, e) then
          Happens(Happens(moved, Checked(r, p.g, p.input, e.toolName, e.arguments, None)),
                  ToolCalled(r, e.toolName, e.arguments, None))
        else moved
    case TableSwept(now, exclude) => s.(table := Sweep(s.table, now, exclude))
  }

  function IssueToken(s: State, r: Id, p: Phase, token: string, sweepAt: real, now: real): State
    requires p.AwaitsToken?
  {
    var minted := s.(table := Mint(s.table, token, NewRecord(p.toolName, p.arguments, p.a, now + s.ttl), sweepAt));
    Goes(Happens(minted, Issued(token, p.toolName, p.arguments, now + s.ttl)), r, Done)
  }

  function UseToken(s: State, r: Id, token: string, now: real): State {
    var (table, answer) := Consume(s.table, token, now);
    var used := s.(table := table);
    if answer.Granted? then
      var grant := HoldsGrant(answer.record.toolName, answer.record.arguments, token);
      Goes(Happens(used, Consumed(r, token, now)), r, grant)
    else Goes(used, r, Done)
  }

  function Start(registry: set<string>, ttl: real): State {
    State(registry, ttl, map[], map[], [])
  }

  function Run(s: State, steps: seq<Step>): State
    decreases |steps|
  {
    if steps == [] then s else Run(Next(s, steps[0]), steps[1..])
  }

  // ----- The invariant -----

  predicate PhaseOk(f: Facts, r: Id, p: Phase) {
    match p
    case AwaitsToken(tool, _, a) =>
      tool in TOOL_BASE_SCORE && a.decision.Confirm? && !a.level.Forbidden? && a.score < 100
    case HoldsGrant(tool, args, token) => tool in TOOL_BASE_SCORE && HoldsToken(f, r, tool, args, token)
    case AwaitsPreflight(tool, args, via) => Authorised(f, r, tool, args, via)
    case Ready(tool, args, via) => r in f.preflighted && Authorised(f, r, tool, args, via)
    case PlanAwaitsPreflight(_, _, _) => true
    case PlanReady(_, _, _, _) => r in f.preflighted
    case Done => true
  }

  // A token of the table is as issued, confirmable, and marked used once consumed.
  predicate RecordOk(f: Facts, token: string, rec: Record) {
    && token in f.issued && f.issued[token] == Issue(rec.toolName, rec.arguments, rec.expiresAt)
    && Confirmable(rec) && (token in f.consumed ==> rec.used) && rec.toolName in TOOL_BASE_SCORE
  }

  predicate TokensOk(f: Facts) {
    forall t :: t in f.spent ==> t in f.consumed
  }

  predicate Invariant(s: State) {
    && "" !in s.registry
    && Safe(s.trace)
    && TokensOk(FactsOf(s.trace))
    && (forall t :: t in s.table ==> RecordOk(FactsOf(s.trace), t, s.table[t]))
    && (forall r :: r in s.phases ==> PhaseOk(FactsOf(s.trace), r, s.phases[r]))
  }

  lemma {:induction false} TraceStep(trace: seq<Event>, e: Event)
    ensures FactsOf(trace + [e]) == Note(FactsOf(trace), e)
    ensures Safe(trace + [e]) <==> Safe(trace) && Justified(FactsOf(trace), e)
  {
    assert (trace + [e])[..|trace + [e]| - 1] == trace;
  }

  // A new event leaves every other request's standing as it was.
  lemma {:induction false} PhaseKept(f: Facts, e: Event, r: Id, p: Phase)
    requires PhaseOk(f, r, p) && Justified(f, e)
    requires e.ToolCalled? && e.via.Some? ==> e.request != r
    ensures PhaseOk(Note(f, e), r, p)
  {
    hide TOOL_BASE_SCORE;
  }

  lemma {:induction false} RecordKept(f: Facts, e: Event, token: string, rec: Record)
    requires RecordOk(f, token, rec) && Justified(f, e)
    requires e.Consumed? ==> e.token != token
    ensures RecordOk(Note(f, e), token, rec)
  {
    hide TOOL_BASE_SCORE, Confirmable;
  }

  lemma {:induction false} TokensKept(f: Facts, e: Event)
    requires TokensOk(f) && Justified(f, e)
    ensures TokensOk(Note(f, e))
  {
    hide TOOL_BASE_SCORE;
  }

  // A request moves on without anything happening that others could see.
  lemma {:induction false} GoesKeeps(s: State, r: Id, p: Phase)
    requires Invariant(s) && PhaseOk(FactsOf(s.trace), r, p)
    ensures Invariant(Goes(s, r, p))
  {
    hide PhaseOk, RecordOk, FactsOf, Safe, TokensOk;
  }

  // A request moves on with an event of its own.
  lemma {:induction false} HappensKeeps(s: State, e: Event, r: Id, p: Phase)
    requires Invariant(s) && Justified(FactsOf(s.trace), e) && !e.Consumed?
    requires e.ToolCalled? ==> e.request == r
    requires PhaseOk(Note(FactsOf(s.trace), e), r, p)
    ensures Invariant(Goes(Happens(s, e), r, p))
  {
    hide PhaseOk, RecordOk, FactsOf, Safe, TokensOk, Justified, Note;
    var f := FactsOf(s.trace);
    TraceStep(s.trace, e);
    TokensKept(f, e);
    forall t | t in s.table ensures RecordOk(Note(f, e), t, s.table[t]) { RecordKept(f, e, t, s.table[t]); }
    forall q | q in s.phases && q != r ensures PhaseOk(Note(f, e), q, s.phases[q]) { PhaseKept(f, e, q, s.phases[q]); }
  }

  lemma {:induction false} SweepKeeps(s: State, now: real, exclude: Option<string>)
    requires Invariant(s)
    ensures Invariant(s.(table := Sweep(s.table, now, exclude)))
  {
    hide PhaseOk, RecordOk, FactsOf, Safe, TokensOk;
  }

  lemma {:induction false} RouteOk(registry: set<string>, g: Guard, input: Check, toolName: string,
                                   arguments: Arguments)
    requires "" !in registry
    ensures var route := CallRoute(registry, g, input, toolName, arguments);
            && (route.MayRun? ==> toolName in TOOL_BASE_SCORE && TOOL_BASE_SCORE[toolName] < 70
                                  && LetThrough(g, input, toolName, arguments, None))
            && (route.NeedsConfirmation? ==> toolName in TOOL_BASE_SCORE && route.a.decision.Confirm?
                                             && !route.a.level.Forbidden? && route.a.score < 100)
  {
    hide TOOL_BASE_SCORE, ScoreOf, MatchedRules, SomeFailed, Reaches, Forbidding;
    if toolName != "" {
      var r := Request([input, g.toolCheck(toolName), g.argCheck(toolName, arguments)], toolName, arguments, []);
      ToolsGuarded(r);
      AllowedExactly(r);
    }
  }

  lemma {:induction false} CallArrivesKeeps(s: State, r: Id, toolName: string, arguments: Arguments, g: Guard,
                                            input: Check)
    requires Invariant(s) && r !in s.phases
    ensures Invariant(Next(s, CallArrives(r, toolName, arguments, g, input)))
  {
    hide Invariant, CallRoute, TOOL_BASE_SCORE, FactsOf, LetThrough;
    assert "" !in s.registry by { Registered(s); }
    RouteOk(s.registry, g, input, toolName, arguments);
    match CallRoute(s.registry, g, input, toolName, arguments)
    case Refuse => GoesKeeps(s, r, Done);
    case NeedsConfirmation(a) => GoesKeeps(s, r, AwaitsToken(toolName, arguments, a));
    case MayRun =>
      HappensKeeps(s, Checked(r, g, input, toolName, arguments, None), r, AwaitsPreflight(toolName, arguments, None));
  }

  lemma {:induction false} Registered(s: State)
    requires Invariant(s)
    ensures "" !in s.registry
  {
  }

  lemma {:induction false} PhaseIsOk(s: State, r: Id)
    requires Invariant(s)
    ensures PhaseOk(FactsOf(s.trace), r, At(s, r))
  {
    hide Safe, FactsOf, RecordOk, TokensOk;
  }

  lemma {:induction false} IssueKeeps(s: State, r: Id, token: string, sweepAt: real, now: real)
    requires Invariant(s) && At(s, r).AwaitsToken? && token !in FactsOf(s.trace).issued
    ensures Invariant(IssueToken(s, r, At(s, r), token, sweepAt, now))
  {
    hide FactsOf, Safe, PhaseOk, TokensOk, TOOL_BASE_SCORE;
    var p, f := At(s, r), FactsOf(s.trace);
    var e := Issued(token, p.toolName, p.arguments, now + s.ttl);
    assert p.toolName in TOOL_BASE_SCORE && p.a.decision.Confirm? && !p.a.level.Forbidden? && p.a.score < 100 by {
      PhaseIsOk(s, r);
      AwaitingOk(f, r, p);
    }
    var swept := s.(table := Sweep(s.table, sweepAt, None));
    SweepKeeps(s, sweepAt, None);
    assert PhaseOk(Note(f, e), r, Done) by { DoneOk(Note(f, e), r); }
    assert Justified(f, e);
    HappensKeeps(swept, e, r, Done);
    var plain := Goes(Happens(swept, e), r, Done);
    TraceStep(s.trace, e);
    var record := NewRecord(p.toolName, p.arguments, p.a, now + s.ttl);
    assert RecordOk(FactsOf(plain.trace), token, record) by {
      Unconsumed(s, token);
    }
    TableKeeps(plain, token, record);
    assert IssueToken(s, r, p, token, sweepAt, now) == plain.(table := plain.table[token := record]);
  }

  lemma {:induction false} AwaitingOk(f: Facts, r: Id, p: Phase)
    requires p.AwaitsToken? && PhaseOk(f, r, p)
    ensures p.toolName in TOOL_BASE_SCORE && p.a.decision.Confirm? && !p.a.level.Forbidden? && p.a.score < 100
  {
  }

  lemma {:induction false} DoneOk(f: Facts, r: Id)
    ensures PhaseOk(f, r, Done)
  {
  }

  // Only issued tokens are consumed.
  lemma {:induction false} ConsumedWereIssued(trace: seq<Event>)
    requires Safe(trace)
    ensures forall t :: t in FactsOf(trace).consumed ==> t in FactsOf(trace).issued
  {
    hide TOOL_BASE_SCORE;
    if trace != [] { ConsumedWereIssued(trace[..|trace| - 1]); }
  }

  lemma {:induction false} Unconsumed(s: State, token: string)
    requires Invariant(s) && token !in FactsOf(s.trace).issued
    ensures token !in FactsOf(s.trace).consumed
  {
    hide FactsOf, PhaseOk, RecordOk;
    ConsumedWereIssued(s.trace);
  }

  lemma {:induction false} TableKeeps(s: State, token: string, record: Record)
    requires Invariant(s) && RecordOk(FactsOf(s.trace), token, record)
    ensures Invariant(s.(table := s.table[token := record]))
  {
    hide FactsOf, PhaseOk, RecordOk, Safe, TokensOk;
  }

  lemma {:induction false} UseKeeps(s: State, r: Id, token: string, now: real)
    requires Invariant(s) && r !in s.phases
    ensures Invariant(UseToken(s, r, token, now))
  {
    hide FactsOf, PhaseOk, RecordOk, Safe, TokensOk, TOOL_BASE_SCORE;
    var swept := s.(table := Sweep(s.table, now, Some(token)));
    SweepKeeps(s, now, Some(token));
    var f, answer := FactsOf(s.trace), Consume(s.table, token, now).1;
    DoneOk(f, r);
    if answer.Granted? {
      GrantKeeps(swept, r, token, now);
    } else if answer.Invalid? || answer.Used? {
      GoesKeeps(swept, r, Done);
    } else if answer.Expired? {
      var without := swept.(table := swept.table - {token});
      assert Invariant(without);
      GoesKeeps(without, r, Done);
    } else {
      assert RecordOk(f, token, swept.table[token]);
      RecordFacts(f, token, swept.table[token]);
      assert false;
    }
  }

  lemma {:induction false} RecordFacts(f: Facts, token: string, rec: Record)
    requires RecordOk(f, token, rec)
    ensures Confirmable(rec) && rec.toolName in TOOL_BASE_SCORE
    ensures token in f.issued && f.issued[token] == Issue(rec.toolName, rec.arguments, rec.expiresAt)
    ensures token in f.consumed ==> rec.used
    ensures RecordOk(Note(f, Consumed(0, token, 0.0)), token, rec.(used := true))
  {
  }

  // The grant itself: the record is marked used as the token counts as consumed.
  lemma {:induction false} GrantKeeps(s: State, r: Id, token: string, now: real)
    requires Invariant(s) && r !in s.phases
    requires token in s.table && !s.table[token].used && s.table[token].expiresAt >= now
    ensures var rec := s.table[token];
            Invariant(Goes(Happens(s.(table := s.table[token := rec.(used := true)]), Consumed(r, token, now)),
                           r, HoldsGrant(rec.toolName, rec.arguments, token)))
  {
    hide FactsOf, PhaseOk, RecordOk, Safe, TokensOk, TOOL_BASE_SCORE, Confirmable;
    var f, rec, e := FactsOf(s.trace), s.table[token], Consumed(r, token, now);
    RecordFacts(f, token, rec);
    TraceStep(s.trace, e);
    TokensKept(f, e);
    ConsumedRecord(f, r, token, now, rec);
    forall t | t in s.table && t != token ensures RecordOk(Note(f, e), t, s.table[t]) {
      RecordKept(f, e, t, s.table[t]);
    }
    forall q | q in s.phases ensures PhaseOk(Note(f, e), q, s.phases[q]) { PhaseKept(f, e, q, s.phases[q]); }
    GrantHeld(f, r, token, now, rec, s);
  }

  lemma {:induction false} ConsumedRecord(f: Facts, r: Id, token: string, now: real, rec: Record)
    requires RecordOk(f, token, rec)
    ensures RecordOk(Note(f, Consumed(r, token, now)), token, rec.(used := true))
  {
  }

  lemma {:induction false} GrantHeld(f: Facts, r: Id, token: string, now: real, rec: Record, s: State)
    requires f == FactsOf(s.trace) && TokensOk(f) && RecordOk(f, token, rec) && !rec.used
    ensures PhaseOk(Note(f, Consumed(r, token, now)), r, HoldsGrant(rec.toolName, rec.arguments, token))
  {
    hide FactsOf, TOOL_BASE_SCORE, Confirmable;
  }

  lemma {:induction false} PreflightKeeps(s: State, r: Id, writable: bool)
    requires Invariant(s)
    ensures Invariant(Next(s, PreflightAnswers(r, writable)))
  {
    hide FactsOf, Invariant, Safe, TokensOk, TOOL_BASE_SCORE;
    var f, e := FactsOf(s.trace), Preflighted(r);
    PhaseIsOk(s, r);
    match At(s, r)
    case AwaitsPreflight(tool, args, via) =>
      if writable { HappensKeeps(s, e, r, Ready(tool, args, via)); } else { GoesKeeps(s, r, Done); }
    case PlanAwaitsPreflight(input, g, plan) =>
      if writable { HappensKeeps(s, e, r, PlanReady(input, g, plan, 0)); } else { GoesKeeps(s, r, Done); }
    case _ =>
  }

  lemma {:induction false} ToolRunsKeeps(s: State, r: Id)
    requires Invariant(s)
    ensures Invariant(Next(s, ToolRuns(r)))
  {
    hide FactsOf, Invariant, Safe, TokensOk, TOOL_BASE_SCORE;
    PhaseIsOk(s, r);
    var p := At(s, r);
    if p.Ready? {
      HappensKeeps(s, ToolCalled(r, p.toolName, p.arguments, p.via), r, Done);
    }
  }

  lemma {:induction false} PlanAdvancesKeeps(s: State, r: Id)
    requires Invariant(s)
    ensures Invariant(Next(s, PlanAdvances(r)))
  {
    hide FactsOf, Invariant, Safe, TokensOk, TOOL_BASE_SCORE, PlanLoop.Called, PlanLoop.CHAT_READONLY_TOOLS, Reaches;
    PhaseIsOk(s, r);
    var p := At(s, r);
    if p.PlanReady? {
      if p.at >= |p.plan| {
        GoesKeeps(s, r, Done);
      } else {
        var e, on := p.plan[p.at], p.(at := p.at + 1);
        if PlanLoop.Called(p.input, p.g, e) {
          PlanLoop.CalledToolsAreReadOnly(p.input, p.g, e);
          PlanLoop.CalledExactly(p.input, p.g, e);
          PlanEntryRuns(s, r, p.input, p.g, e, on);
        } else {
          GoesKeeps(s, r, on);
        }
      }
    }
  }

  lemma {:induction false} PlanEntryRuns(s: State, r: Id, input: Check, g: Guard, e: PlanLoop.Entry, on: Phase)
    requires Invariant(s) && PhaseOk(FactsOf(s.trace), r, on) && on.PlanReady?
    requires LetThrough(g, input, e.toolName, e.arguments, None)
    requires e.toolName in TOOL_BASE_SCORE && TOOL_BASE_SCORE[e.toolName] < 70
    ensures var checked := Happens(Goes(s, r, on), Checked(r, g, input, e.toolName, e.arguments, None));
            Invariant(Happens(checked, ToolCalled(r, e.toolName, e.arguments, None)))
  {
    hide FactsOf, Invariant, Safe, TokensOk, TOOL_BASE_SCORE, LetThrough;
    var check, run := Checked(r, g, input, e.toolName, e.arguments, None), ToolCalled(r, e.toolName, e.arguments, None);
    HappensKeeps(s, check, r, on);
    TraceStep(s.trace, check);
    var t := Goes(Happens(s, check), r, on);
    assert t == Happens(Goes(s, r, on), check);
    HappensKeeps(t, run, r, on);
    assert Goes(Happens(t, run), r, on) == Happens(t, run);
  }

  lemma {:induction false} PermittedExactly(g: Guard, input: Check, toolName: string, arguments: Arguments,
                                            token: string)
    ensures StillPermitted(g, input, toolName, arguments) <==> LetThrough(g, input, toolName, arguments, Some(token))
  {
    hide ScoreOf, MatchedRules, SomeFailed, Forbidding;
    RejectedExactly(
      Request([input, g.toolCheck(toolName), g.argCheck(toolName, arguments)], toolName, arguments, []));
  }

  lemma {:induction false} RevalidatedKeeps(s: State, r: Id, g: Guard, input: Check)
    requires Invariant(s)
    ensures Invariant(Next(s, Revalidated(r, g, input)))
  {
    hide FactsOf, Invariant, Safe, TokensOk, TOOL_BASE_SCORE, StillPermitted, LetThrough;
    PhaseIsOk(s, r);
    var p := At(s, r);
    if p.HoldsGrant? {
      DoneOk(FactsOf(s.trace), r);
      GoesKeeps(s, r, Done);
      PermittedExactly(g, input, p.toolName, p.arguments, p.token);
      if StillPermitted(g, input, p.toolName, p.arguments) {
        HappensKeeps(s, Checked(r, g, input, p.toolName, p.arguments, Some(p.token)), r,
                     AwaitsPreflight(p.toolName, p.arguments, Some(p.token)));
      }
    }
  }

  /** Every step keeps the invariant. */
  lemma {:induction false} StepKeeps(s: State, step: Step)
    requires Invariant(s)
    ensures Invariant(Next(s, step))
  {
    hide Invariant, FactsOf, CallRoute, StillPermitted, MessageAllowed, PhaseOk, IssueToken, UseToken, Sweep,
         PlanLoop.Called;
    match step
    case CallArrives(r, tool, args, g, input) => if r !in s.phases { CallArrivesKeeps(s, r, tool, args, g, input); }
    case TokenIssued(r, token, sweepAt, now) =>
      if At(s, r).AwaitsToken? && token !in FactsOf(s.trace).issued { IssueKeeps(s, r, token, sweepAt, now); }
    case ConfirmArrives(r, token, now) => if r !in s.phases { UseKeeps(s, r, token, now); }
    case Revalidated(r, g, input) => RevalidatedKeeps(s, r, g, input);
    case ChatArrives(r, g, input, plan) =>
      DoneOk(FactsOf(s.trace), r);
      PlanOk(FactsOf(s.trace), r, PlanAwaitsPreflight(input, g, plan));
      GoesKeeps(s, r, Done);
      GoesKeeps(s, r, PlanAwaitsPreflight(input, g, plan));
    case PreflightAnswers(r, writable) => PreflightKeeps(s, r, writable);
    case ToolRuns(r) => ToolRunsKeeps(s, r);
    case PlanAdvances(r) => PlanAdvancesKeeps(s, r);
    case TableSwept(now, exclude) => SweepKeeps(s, now, exclude);
  }

  lemma {:induction false} PlanOk(f: Facts, r: Id, p: Phase)
    requires p.PlanAwaitsPreflight?
    ensures PhaseOk(f, r, p)
  {
  }

  /** Whatever requests arrive and however their steps interleave, the history stays safe. */
  lemma {:induction false} EveryRunIsSafe(s: State, steps: seq<Step>)
    requires Invariant(s)
    ensures Invariant(Run(s, steps))
    decreases |steps|
  {
    hide Invariant, Next;
    if steps != [] {
      StepKeeps(s, steps[0]);
      EveryRunIsSafe(Next(s, steps[0]), steps[1..]);
    }
  }

  lemma {:induction false} StartIsSafe(registry: set<string>, ttl: real)
    requires "" !in registry
    ensures Invariant(Start(registry, ttl))
  {
  }

  // ----- What a safe history says of each tool that ran -----

  lemma {:induction false} PrefixJustified(trace: seq<Event>, k: nat)
    requires Safe(trace) && k < |trace|
    ensures Safe(trace[..k]) && Justified(FactsOf(trace[..k]), trace[k])
  {
    hide Justified, FactsOf;
    if k < |trace| - 1 {
      PrefixJustified(trace[..|trace| - 1], k);
      assert trace[..|trace| - 1][..k] == trace[..k];
    }
  }

  function IssueEvent(t: string, i: Issue): Event {
    Issued(t, i.toolName, i.arguments, i.expiresAt)
  }

  // Each fact goes back to the event that made it so.
  lemma {:induction false} IssueHappened(trace: seq<Event>, t: string) returns (i: nat)
    requires t in FactsOf(trace).issued
    ensures i < |trace| && trace[i] == IssueEvent(t, FactsOf(trace).issued[t])
  {
    var n := |trace| - 1;
    if trace[n].Issued? && trace[n].token == t {
      i := n;
    } else {
      i := IssueHappened(trace[..n], t);
    }
  }

  lemma {:induction false} PreflightHappened(trace: seq<Event>, r: Id) returns (p: nat)
    requires r in FactsOf(trace).preflighted
    ensures p < |trace| && trace[p] == Preflighted(r)
  {
    var n := |trace| - 1;
    if trace[n] == Preflighted(r) {
      p := n;
    } else {
      p := PreflightHappened(trace[..n], r);
    }
  }

  lemma {:induction false} ConsumptionFound(trace: seq<Event>, t: string) returns (j: nat)
    requires t in FactsOf(trace).consumed
    ensures j < |trace| && trace[j].Consumed? && trace[j].token == t && trace[j].request == FactsOf(trace).consumed[t]
  {
    var n := |trace| - 1;
    if trace[n].Consumed? && trace[n].token == t {
      j := n;
    } else {
      j := ConsumptionFound(trace[..n], t);
    }
  }

  // Facts only grow, and a token keeps what it was issued for.
  lemma {:induction false} FactsGrow(trace: seq<Event>, k: nat)
    requires Safe(trace) && k <= |trace|
    ensures var f, g := FactsOf(trace[..k]), FactsOf(trace);
            && f.spent <= g.spent
            && (forall t :: t in f.issued ==> t in g.issued && g.issued[t] == f.issued[t])
    decreases |trace|
  {
    hide TOOL_BASE_SCORE, Authorised;
    if k < |trace| {
      FactsGrow(trace[..|trace| - 1], k);
      assert trace[..|trace| - 1][..k] == trace[..k];
    } else {
      assert trace[..k] == trace;
    }
  }

  /**
   * Any tool that ran is in the score table and ran after a preflight of its
   * own request and after checks, made for that request and those arguments, that
   * let it through.  With a base score of 70 or more it ran on a token issued
   * earlier for that tool and those arguments, which the same request consumed
   * before it expired, and before those checks were made.
   */
  lemma {:induction false} CallsAreAuthorised(trace: seq<Event>, k: nat) returns (i: nat, j: nat, q: nat, p: nat)
    requires Safe(trace) && k < |trace| && trace[k].ToolCalled?
    ensures trace[k].toolName in TOOL_BASE_SCORE
    ensures p < k && trace[p] == Preflighted(trace[k].request)
    ensures q < k && Clears(trace, q, k)
    ensures TOOL_BASE_SCORE[trace[k].toolName] >= 70 ==> trace[k].via.Some?
    ensures trace[k].via.Some? ==> i < j < q && Backs(trace, i, j, k)
  {
    hide TOOL_BASE_SCORE, FactsOf, Safe, LetThrough;
    var before := trace[..k];
    PrefixJustified(trace, k);
    p := PreflightHappened(before, trace[k].request);
    q := CheckHappened(before, Passed(trace[k].request, trace[k].toolName, trace[k].arguments, trace[k].via));
    PrefixJustified(trace, q);
    LetThroughPassed(trace[q].g, trace[q].input, trace[k].toolName, trace[k].arguments, trace[k].via);
    i, j := 0, 0;
    if trace[k].via.Some? {
      i, j := TokenHistory(trace[..q], trace[k].via.value);
    }
  }

  lemma {:induction false} CheckHappened(trace: seq<Event>, x: Passed) returns (q: nat)
    requires x in FactsOf(trace).passed
    ensures q < |trace| && trace[q].Checked?
    ensures x == Passed(trace[q].request, trace[q].toolName, trace[q].arguments, trace[q].via)
  {
    hide TOOL_BASE_SCORE;
    var n := |trace| - 1;
    if trace[n].Checked? && x == Passed(trace[n].request, trace[n].toolName, trace[n].arguments, trace[n].via) {
      q := n;
    } else {
      q := CheckHappened(trace[..n], x);
    }
  }

  // Where a consumed token was consumed, and where it was issued.
  lemma {:induction false} TokenHistory(trace: seq<Event>, t: string) returns (i: nat, j: nat)
    requires Safe(trace) && t in FactsOf(trace).consumed && t in FactsOf(trace).issued
    ensures i < j < |trace|
    ensures trace[i] == IssueEvent(t, FactsOf(trace).issued[t])
    ensures trace[j].Consumed? && trace[j].token == t && trace[j].request == FactsOf(trace).consumed[t]
    ensures trace[j].now <= trace[i].expiresAt
  {
    hide TOOL_BASE_SCORE, FactsOf, Safe;
    j := ConsumptionFound(trace, t);
    PrefixJustified(trace, j);
    FactsGrow(trace, j);
    i := IssueHappened(trace[..j], t);
  }

  lemma {:induction false} SpentWhenCalled(trace: seq<Event>, k: nat)
    requires Safe(trace) && k < |trace| && trace[k].ToolCalled? && trace[k].via.Some?
    ensures trace[k].via.value in FactsOf(trace).spent
  {
    hide TOOL_BASE_SCORE, Safe;
    assert trace[..k + 1][..k] == trace[..k];
    FactsGrow(trace, k + 1);
  }

  /** A token authorises at most one call. */
  lemma {:induction false} OneCallPerToken(trace: seq<Event>, k: nat, l: nat)
    requires Safe(trace) && k < l < |trace| && trace[k].ToolCalled? && trace[l].ToolCalled?
    requires trace[k].via.Some?
    ensures trace[l].via != trace[k].via
  {
    hide TOOL_BASE_SCORE, FactsOf, Safe;
    PrefixJustified(trace, l);
    SpentWhenCalled(trace[..l], k);
  }

  /** From an empty start, every call in every run is authorised and no token serves twice. */
  lemma {:induction false} ConfirmationSafety(registry: set<string>, ttl: real, steps: seq<Step>, k: nat)
    requires "" !in registry
    requires var trace := Run(Start(registry, ttl), steps).trace; k < |trace| && trace[k].ToolCalled?
    ensures var trace := Run(Start(registry, ttl), steps).trace;
            && trace[k].toolName in TOOL_BASE_SCORE
            && (exists p :: 0 <= p < k && trace[p] == Preflighted(trace[k].request))
            && (exists q :: 0 <= q < k && Clears(trace, q, k))
            && (TOOL_BASE_SCORE[trace[k].toolName] >= 70 ==> trace[k].via.Some?)
            && (trace[k].via.Some? ==>
                  exists i, j, q :: 0 <= i < j < q < k && Backs(trace, i, j, k) && Clears(trace, q, k))
            && (trace[k].via.Some? ==>
                forall l :: 0 <= l < |trace| && l != k && trace[l].ToolCalled? ==> trace[l].via != trace[k].via)
  {
    hide TOOL_BASE_SCORE, FactsOf, Safe, Run, Start, Clears;
    StartIsSafe(registry, ttl);
    EveryRunIsSafe(Start(registry, ttl), steps);
    var trace := Run(Start(registry, ttl), steps).trace;
    var i, j, q, p := CallsAreAuthorised(trace, k);
    if trace[k].via.Some? {
      assert Backs(trace, i, j, k);
      forall l | 0 <= l < |trace| && l != k && trace[l].ToolCalled? ensures trace[l].via != trace[k].via {
        if l < k {
          if trace[l].via.Some? { OneCallPerToken(trace, l, k); }
        } else {
          OneCallPerToken(trace, k, l);
        }
      }
    }
  }

  // The checks made at `q`, for the request and the arguments of call `k`, let it through: those of
  // input, tool and arguments all passed, and nothing in it forbids or, without a token, reaches 70.
  predicate Clears(trace: seq<Event>, q: nat, k: nat)
    requires q < k < |trace| && trace[k].ToolCalled?
  {
    var e, c := trace[q], trace[k];
    && e.Checked? && e.request == c.request && e.toolName == c.toolName && e.arguments == c.arguments && e.via == c.via
    && e.input.passed && e.g.toolCheck(c.toolName).passed && e.g.argCheck(c.toolName, c.arguments).passed
    && LetThrough(e.g, e.input, c.toolName, c.arguments, c.via)
  }

  lemma {:induction false} LetThroughPassed(g: Guard, input: Check, toolName: string, arguments: Arguments,
                                            via: Option<string>)
    requires LetThrough(g, input, toolName, arguments, via)
    ensures input.passed && g.toolCheck(toolName).passed && g.argCheck(toolName, arguments).passed
  {
    hide Forbidding, Reaches;
    var r := Request([input, g.toolCheck(toolName), g.argCheck(toolName, arguments)], toolName, arguments, []);
    if !input.passed { FailedForbids(r, 0); }
    if !g.toolCheck(toolName).passed { FailedForbids(r, 1); }
    if !g.argCheck(toolName, arguments).passed { FailedForbids(r, 2); }
  }

  // The token of call `k` was issued at `i` for the same tool and arguments, and consumed at `j` in time.
  predicate Backs(trace: seq<Event>, i: nat, j: nat, k: nat)
    requires i < j < k < |trace| && trace[k].ToolCalled? && trace[k].via.Some?
  {
    && trace[i].Issued? && trace[i].token == trace[k].via.value
    && trace[i].toolName == trace[k].toolName && trace[i].arguments == trace[k].arguments
    && trace[j].Consumed? && trace[j].token == trace[k].via.value && trace[j].request == trace[k].request
    && trace[j].now <= trace[i].expiresAt
  }

  // ----- What is let through does run -----

  /** A call whose checks reach no 70 runs, once the log is writable. */
  lemma {:induction false} AllowedCallRuns(s: State, r: Id, toolName: string, arguments: Arguments, g: Guard,
                                           input: Check)
    requires r !in s.phases && toolName in s.registry && LetThrough(g, input, toolName, arguments, None)
    ensures var steps := [CallArrives(r, toolName, arguments, g, input), PreflightAnswers(r, true), ToolRuns(r)];
            Run(s, steps).trace == s.trace + [Checked(r, g, input, toolName, arguments, None), Preflighted(r),
                                              ToolCalled(r, toolName, arguments, None)]
  {
    hide LetThrough, CallRoute, Next;
    RouteRuns(s.registry, g, input, toolName, arguments);
    var first, second, third := CallArrives(r, toolName, arguments, g, input), PreflightAnswers(r, true), ToolRuns(r);
    var s1 := Goes(Happens(s, Checked(r, g, input, toolName, arguments, None)), r,
                   AwaitsPreflight(toolName, arguments, None));
    CallAccepted(s, r, toolName, arguments, g, input);
    ThenRuns(s1, r, toolName, arguments, None);
    assert [first, second, third][1..] == [second, third];
  }

  lemma {:induction false} RouteRuns(registry: set<string>, g: Guard, input: Check, toolName: string,
                                     arguments: Arguments)
    requires toolName in registry && LetThrough(g, input, toolName, arguments, None)
    ensures CallRoute(registry, g, input, toolName, arguments) == MayRun
  {
    hide ScoreOf, MatchedRules, SomeFailed, Reaches;
    AllowedExactly(
      Request([input, g.toolCheck(toolName), g.argCheck(toolName, arguments)], toolName, arguments, []));
  }

  lemma {:induction false} CallAccepted(s: State, r: Id, toolName: string, arguments: Arguments, g: Guard, input: Check)
    requires r !in s.phases && CallRoute(s.registry, g, input, toolName, arguments) == MayRun
    ensures Next(s, CallArrives(r, toolName, arguments, g, input)) ==
            Goes(Happens(s, Checked(r, g, input, toolName, arguments, None)), r,
                 AwaitsPreflight(toolName, arguments, None))
  {
    hide CallRoute;
  }

  // From its preflight on, a call runs.
  lemma {:induction false} ThenRuns(s: State, r: Id, toolName: string, arguments: Arguments, via: Option<string>)
    requires At(s, r) == AwaitsPreflight(toolName, arguments, via)
    ensures Run(s, [PreflightAnswers(r, true), ToolRuns(r)]).trace ==
            s.trace + [Preflighted(r), ToolCalled(r, toolName, arguments, via)]
  {
    var steps := [PreflightAnswers(r, true), ToolRuns(r)];
    assert steps[1..] == [ToolRuns(r)] && steps[1..][1..] == [];
    var t := Next(s, steps[0]);
    assert Run(s, steps) == Run(Next(t, ToolRuns(r)), []);
  }

  /** A usable token's call runs, where the checks made anew forbid nothing and the log is writable. */
  lemma {:induction false} ConfirmedCallRuns(s: State, r: Id, token: string, now: real, g: Guard, input: Check)
    requires r !in s.phases && token in s.table && !s.table[token].used && now <= s.table[token].expiresAt
    requires Confirmable(s.table[token]) && s.table[token].toolName in s.registry
    requires LetThrough(g, input, s.table[token].toolName, s.table[token].arguments, Some(token))
    ensures var rec := s.table[token];
            var steps := [ConfirmArrives(r, token, now), Revalidated(r, g, input), PreflightAnswers(r, true),
                          ToolRuns(r)];
            Run(s, steps).trace ==
            s.trace + [Consumed(r, token, now), Checked(r, g, input, rec.toolName, rec.arguments, Some(token)),
                       Preflighted(r), ToolCalled(r, rec.toolName, rec.arguments, Some(token))]
  {
    hide LetThrough, StillPermitted, Confirmable;
    var rec := s.table[token];
    PermittedExactly(g, input, rec.toolName, rec.arguments, token);
    var steps := [ConfirmArrives(r, token, now), Revalidated(r, g, input), PreflightAnswers(r, true), ToolRuns(r)];
    var s1 := Next(s, steps[0]);
    assert At(s1, r) == HoldsGrant(rec.toolName, rec.arguments, token) && s1.registry == s.registry;
    var s2 := Next(s1, steps[1]);
    assert s2.trace == s1.trace + [Checked(r, g, input, rec.toolName, rec.arguments, Some(token))];
    ThenRuns(s2, r, rec.toolName, rec.arguments, Some(token));
    assert steps[1..][0] == steps[1] && steps[1..][1..] == [PreflightAnswers(r, true), ToolRuns(r)];
  }

  /** A call that demands a confirmation, and that nothing forbids, is given a token for itself. */
  lemma {:induction false} TokenIsGiven(s: State, r: Id, toolName: string, arguments: Arguments, g: Guard, input: Check,
                                        token: string, sweepAt: real, now: real)
    requires r !in s.phases && toolName in s.registry && g.validArgs(toolName, arguments)
    requires var checks := [input, g.toolCheck(toolName), g.argCheck(toolName, arguments)];
             var rq := Request(checks, toolName, arguments, []);
             Reaches(rq, 70) && !Forbidding(rq)
    requires token !in FactsOf(s.trace).issued
    ensures var steps := [CallArrives(r, toolName, arguments, g, input), TokenIssued(r, token, sweepAt, now)];
            var t := Run(s, steps);
            && token in t.table && t.table[token].toolName == toolName && t.table[token].arguments == arguments
            && !t.table[token].used && t.table[token].expiresAt == now + s.ttl && Confirmable(t.table[token])
            && t.trace == s.trace + [Issued(token, toolName, arguments, now + s.ttl)]
  {
    hide ScoreOf, MatchedRules, SomeFailed, Reaches, Forbidding, FactsOf, Sweep;
    var rq := Request([input, g.toolCheck(toolName), g.argCheck(toolName, arguments)], toolName, arguments, []);
    AllowedExactly(rq);
    RejectedExactly(rq);
    ScoreReaches(rq, 100);
    ForbiddingReaches(rq);
    var steps := [CallArrives(r, toolName, arguments, g, input), TokenIssued(r, token, sweepAt, now)];
    var s1 := Next(s, steps[0]);
    assert At(s1, r).AwaitsToken? && s1.trace == s.trace;
    assert steps[1..] == [steps[1]] && steps[1..][1..] == [];
    assert Run(s, steps) == Run(Next(s1, steps[1]), []);
  }
}

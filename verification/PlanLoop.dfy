/**
 * The loop that carries out a chat plan, with its separately kept maxima and
 * flags.
 *
 * Main results: `ExecuteToolPlan`, each entry settles as its own checks and
 * tool result say, and every accumulator agrees with the settled plan;
 * `StatusMeaning`, what each overall status says of the entries;
 * `PlanRejectedExactly`, which plans are rejected, a rejected one having `executed`
 * unset although its tools may have run.
 */
module PlanLoop {
  import opened Numerals
  import opened RiskScore
  import opened Wrappers

  const CHAT_READONLY_TOOLS: set<string> := {
    "get_memory_status", "disk_usage", "process_list", "network_status", "get_port_usage", "get_service_status",
    "journal_query", "large_file_scan", "get_cpu_status", "safe_cleanup_scan", "safe_cleanup_plan",
    "config_drift_check", "zombie_process_check", "disk_io_analysis", "impact_analysis"}
  const MAX_CHAT_TOOL_PLAN := 3

  datatype ToolStatus = Success | CommandFailed | NoOutput | ParseWarning | CapabilityMissing
  datatype EntryStatus = Planned | Blocked | Failed | Ran(result: ToolStatus)
  datatype Entry = Entry(toolName: string, arguments: Arguments, status: EntryStatus, score: Option<nat>)

  // What calling the tool would come to: an exception, or a result and the check of its output.
  datatype Attempt = Raises | Returns(status: ToolStatus, output: Check)

  // The registry's schema check and the guardrail's checks of tool and arguments.
  datatype Guard = Guard(validArgs: (string, Arguments) -> bool,
                         toolCheck: string -> Check,
                         argCheck: (string, Arguments) -> Check)

  datatype Status = AllDone | Partial | PlanBlocked | EnvironmentLimited | PlanFailed | NotExecuted
  datatype ChatDecision = Allowed | Partly | Rejected | FailedPlan | NoAction
  datatype Result = Result(plan: seq<Entry>, riskScore: nat, riskLevel: Level, legacyLevel: nat,
                           status: Status, decision: ChatDecision, executed: bool)

  // ----- The plan a planner proposes -----

  datatype RawItem = NotADict | Item(toolName: string, arguments: Option<Arguments>)
  datatype RawPlan =
    | Absent(toolName: string, arguments: Option<Arguments>)
    | Single(item: RawItem)
    | Listed(items: seq<RawItem>)
    | Unusable

  // str.strip and str.lower.
  datatype Names = Names(strip: string -> string, lower: string -> string)

  predicate NoActionTool(names: Names, toolName: string) {
    var n := names.lower(names.strip(toolName));
    n == "" || n == "none" || n == "null" || n == "no_tool" || n == "clarify" || n == "unknown"
  }

  predicate Actionable(names: Names, item: RawItem) {
    item.Item? && !NoActionTool(names, names.strip(item.toolName))
  }

  function PlannedEntry(names: Names, item: RawItem): Entry
    requires item.Item?
  {
    Entry(names.strip(item.toolName), if item.arguments.Some? then item.arguments.value else [], Planned, None)
  }

  function PlanOf(names: Names, items: seq<RawItem>): seq<Entry> {
    if items == [] then []
    else
      var last := items[|items| - 1];
      PlanOf(names, items[..|items| - 1]) + if Actionable(names, last) then [PlannedEntry(names, last)] else []
  }

  function ItemsOf(names: Names, raw: RawPlan): seq<RawItem> {
    match raw
    case Absent(tool, arguments) => if NoActionTool(names, tool) then [] else [Item(tool, arguments)]
    case Single(item) => [item]
    case Listed(items) => items
    case Unusable => []
  }

  function FirstThree(items: seq<RawItem>): (r: seq<RawItem>)
    ensures r <= items && |r| == if |items| < 3 then |items| else 3
  {
    if |items| <= MAX_CHAT_TOOL_PLAN then items else items[..MAX_CHAT_TOOL_PLAN]
  }

  /** The actionable ones among the first three proposals, as planned entries in their order. */
  method ExtractToolPlan(names: Names, raw: RawPlan) returns (plan: seq<Entry>)
    ensures plan == PlanOf(names, FirstThree(ItemsOf(names, raw)))
    ensures |plan| <= MAX_CHAT_TOOL_PLAN
    ensures forall i :: 0 <= i < |plan| ==> plan[i].status.Planned? && !NoActionTool(names, plan[i].toolName)
  {
    hide NoActionTool;
    var items := FirstThree(ItemsOf(names, raw));
    plan := [];
    for i := 0 to |items|
      invariant plan == PlanOf(names, items[..i]) && |plan| <= i
      invariant forall k :: 0 <= k < |plan| ==> plan[k].status.Planned? && !NoActionTool(names, plan[k].toolName)
    {
      assert items[..i + 1][..i] == items[..i];
      if Actionable(names, items[i]) {
        plan := plan + [PlannedEntry(names, items[i])];
      } else {
        assert plan + [] == plan;
      }
    }
    assert items[..|items|] == items;
  }

  /** What each form of plan proposes: the items of a list, the one item, or the tool named beside the plan. */
  lemma {:induction false} ProposalsOf(names: Names, raw: RawPlan)
    ensures raw.Listed? ==> ItemsOf(names, raw) == raw.items
    ensures raw.Single? ==> ItemsOf(names, raw) == [raw.item]
    ensures raw.Unusable? ==> ItemsOf(names, raw) == []
    ensures raw.Absent? ==>
      ItemsOf(names, raw) ==
      if names.lower(names.strip(raw.toolName)) in {"", "none", "null", "no_tool", "clarify", "unknown"} then []
      else [Item(raw.toolName, raw.arguments)]
  {
  }

  // Where the entries of a plan were proposed.
  ghost predicate PlannedFrom(names: Names, items: seq<RawItem>, plan: seq<Entry>, at: seq<nat>) {
    && |at| == |plan|
    && (forall k :: 0 <= k < |at| ==>
          && at[k] < |items| && Wanted(names, items[at[k]])
          && plan[k].toolName == names.strip(items[at[k]].toolName)
          && plan[k].arguments == (if items[at[k]].arguments.Some? then items[at[k]].arguments.value else [])
          && plan[k].status.Planned? && plan[k].score.None?)
    && (forall j, k :: 0 <= j < k < |at| ==> at[j] < at[k])
    && (forall i :: 0 <= i < |items| && Wanted(names, items[i]) ==> i in at)
  }

  // An item that names a tool.
  predicate Wanted(names: Names, item: RawItem) {
    && item.Item?
    && names.lower(names.strip(names.strip(item.toolName))) !in {"", "none", "null", "no_tool", "clarify", "unknown"}
  }

  /** A plan holds exactly the items that name a tool, in their order, with the name stripped. */
  lemma {:induction false} PlanExactly(names: Names, items: seq<RawItem>) returns (at: seq<nat>)
    ensures PlannedFrom(names, items, PlanOf(names, items), at)
  {
    if items == [] {
      at := [];
    } else {
      hide PlannedFrom, Wanted, Actionable;
      var init, last := items[..|items| - 1], items[|items| - 1];
      at := PlanExactly(names, init);
      WantedExactly(names, last);
      PlannedNext(names, init, PlanOf(names, init), at, last);
      assert items == init + [last];
      if Actionable(names, last) {
        at := at + [|init|];
      } else {
        assert PlanOf(names, init) + [] == PlanOf(names, init);
      }
    }
  }

  lemma {:induction false} WantedExactly(names: Names, item: RawItem)
    ensures Actionable(names, item) <==> Wanted(names, item)
    ensures Wanted(names, item) ==> item.Item?
  {
  }

  lemma {:induction false} PlannedNext(names: Names, items: seq<RawItem>, plan: seq<Entry>, at: seq<nat>, last: RawItem)
    requires PlannedFrom(names, items, plan, at) && (Wanted(names, last) ==> last.Item?)
    ensures !Wanted(names, last) ==> PlannedFrom(names, items + [last], plan, at)
    ensures Wanted(names, last) ==>
      PlannedFrom(names, items + [last], plan + [PlannedEntry(names, last)], at + [|items|])
  {
    hide Wanted;
    var more := items + [last];
    assert more[|items|] == last && forall i :: 0 <= i < |items| ==> more[i] == items[i];
  }

  // ----- One entry on its own -----

  function ToolRequest(input: Check, g: Guard, e: Entry): Request {
    Request([input, g.toolCheck(e.toolName), g.argCheck(e.toolName, e.arguments)], e.toolName, e.arguments, [])
  }

  function OutputRequest(input: Check, g: Guard, e: Entry, output: Check): Request {
    var r := ToolRequest(input, g, e);
    r.(checks := r.checks + [output])
  }

  // Neither of the two refusals that come before any scoring.
  predicate Scored(g: Guard, e: Entry) {
    e.toolName in CHAT_READONLY_TOOLS && g.validArgs(e.toolName, e.arguments)
  }

  // The registry is asked to run this entry's tool.
  predicate Called(input: Check, g: Guard, e: Entry) {
    Scored(g, e) && Assess(ToolRequest(input, g, e)).decision.Allow?
  }

  function Settled(input: Check, g: Guard, e: Entry, a: Attempt): Entry {
    if !Scored(g, e) then e.(status := Blocked, score := Some(100))
    else
      var first := Assess(ToolRequest(input, g, e));
      if !first.decision.Allow? then e.(status := Blocked, score := Some(first.score))
      else if a.Raises? then e.(status := Failed, score := Some(first.score))
      else if !a.output.passed then
        e.(status := Blocked, score := Some(ScoreOf(OutputRequest(input, g, e, a.output))))
      else e.(status := Ran(a.status), score := Some(first.score))
  }

  // The highest score this entry brings up.
  function EntryRisk(input: Check, g: Guard, e: Entry, a: Attempt): nat {
    if !Scored(g, e) then 100
    else if Called(input, g, e) && a.Returns? then
      Larger(ScoreOf(ToolRequest(input, g, e)), ScoreOf(OutputRequest(input, g, e, a.output)))
    else ScoreOf(ToolRequest(input, g, e))
  }

  function PlanRisk(input: Check, g: Guard, plan: seq<Entry>, world: seq<Attempt>): nat
    requires |world| == |plan|
  {
    if plan == [] then 10
    else
      var n := |plan| - 1;
      Larger(PlanRisk(input, g, plan[..n], world[..n]), EntryRisk(input, g, plan[n], world[n]))
  }

  // ----- Levels kept by maxima -----

  function Rank(l: Level): nat {
    match l case Low => 1 case Medium => 2 case High => 3 case Forbidden => 4
  }

  function MaxRiskLevel(current: Level, incoming: Level): Level {
    if Rank(incoming) > Rank(current) then incoming else current
  }

  lemma {:induction false} LevelsFollow(a: nat, b: nat)
    ensures MaxRiskLevel(LevelOf(a), LevelOf(b)) == LevelOf(Larger(a, b))
    ensures Larger(LegacyLevelOf(a), LegacyLevelOf(b)) == LegacyLevelOf(Larger(a, b))
  {
  }

  // ----- The verdict on the whole plan -----

  function ExecutionStatus(anySuccess: bool, anyCalled: bool, anyBlocked: bool, anyFailed: bool,
                           limited: bool): Status {
    if anySuccess && (anyBlocked || anyFailed || limited) then Partial
    else if anySuccess then AllDone
    else if anyBlocked && !anyCalled then PlanBlocked
    else if limited then EnvironmentLimited
    else if anyFailed then PlanFailed
    else NotExecuted
  }

  function ChatSecurityDecision(status: Status, riskScore: nat): ChatDecision {
    if riskScore >= 100 && (status.PlanBlocked? || status.NotExecuted? || status.PlanFailed?) then
      if status.PlanFailed? then FailedPlan else Rejected
    else if status.Partial? then Partly
    else if status.PlanFailed? || status.EnvironmentLimited? then FailedPlan
    else if status.PlanBlocked? || status.NotExecuted? then NoAction
    else Allowed
  }

  predicate SomeWith(plan: seq<Entry>, s: EntryStatus) {
    exists i :: 0 <= i < |plan| && plan[i].status == s
  }

  // A tool answered, but neither with success nor for lack of a capability.
  predicate Unsuccessful(s: EntryStatus) {
    s.Failed? || (s.Ran? && !s.result.Success? && !s.result.CapabilityMissing?)
  }

  predicate SomeUnsuccessful(plan: seq<Entry>) {
    exists i :: 0 <= i < |plan| && Unsuccessful(plan[i].status)
  }

  predicate SomeReturned(input: Check, g: Guard, plan: seq<Entry>, world: seq<Attempt>)
    requires |world| == |plan|
  {
    exists i :: 0 <= i < |plan| && Called(input, g, plan[i]) && world[i].Returns?
  }

  // Every flag the loop kept, read off the settled plan.
  function Verdict(done: seq<Entry>, anyCalled: bool): Status {
    ExecutionStatus(SomeWith(done, Ran(Success)), anyCalled, SomeWith(done, Blocked), SomeUnsuccessful(done),
                    SomeWith(done, Ran(CapabilityMissing)))
  }

  function SettledPlan(input: Check, g: Guard, plan: seq<Entry>, world: seq<Attempt>): (done: seq<Entry>)
    requires |world| == |plan|
    ensures |done| == |plan|
    ensures forall i :: 0 <= i < |plan| ==> done[i] == Settled(input, g, plan[i], world[i])
  {
    if plan == [] then []
    else
      var n := |plan| - 1;
      SettledPlan(input, g, plan[..n], world[..n]) + [Settled(input, g, plan[n], world[n])]
  }

  function Outcome(input: Check, g: Guard, plan: seq<Entry>, world: seq<Attempt>): Result
    requires |world| == |plan|
  {
    var done := SettledPlan(input, g, plan, world);
    var risk := PlanRisk(input, g, plan, world);
    var status := Verdict(done, SomeReturned(input, g, plan, world));
    Result(done, risk, LevelOf(risk), LegacyLevelOf(risk), status, ChatSecurityDecision(status, risk),
           SomeWith(done, Ran(Success)))
  }

  // The loop's accumulators.
  datatype Tally = Tally(riskScore: nat, riskLevel: Level, legacyLevel: nat, anySuccess: bool, anyCalled: bool,
                         anyBlocked: bool, anyFailed: bool, limited: bool)

  // The separate maxima agree with the score until a refusal before scoring sets it to 100.
  predicate LevelsAgree(t: Tally) {
    t.riskScore < 100 ==> t.riskLevel == LevelOf(t.riskScore) && t.legacyLevel == LegacyLevelOf(t.riskScore)
  }

  function Raised(t: Tally, a: Assessment): (u: Tally)
    ensures u == t.(riskScore := u.riskScore, riskLevel := u.riskLevel, legacyLevel := u.legacyLevel)
    ensures u.riskScore == Larger(t.riskScore, a.score)
    ensures LevelsAgree(t) && a.level == LevelOf(a.score) && a.legacyLevel == LegacyLevelOf(a.score) ==> LevelsAgree(u)
  {
    LevelsFollow(t.riskScore, a.score);
    t.(riskScore := Larger(t.riskScore, a.score), riskLevel := MaxRiskLevel(t.riskLevel, a.level),
       legacyLevel := Larger(t.legacyLevel, a.legacyLevel))
  }

  // A refusal before any scoring raises the score alone.
  function Refused(t: Tally): (u: Tally)
    ensures LevelsAgree(u)
    ensures u == t.(anyBlocked := true, riskScore := Larger(t.riskScore, 100))
  {
    t.(anyBlocked := true, riskScore := Larger(t.riskScore, 100))
  }

  lemma {:induction false} LargerAssoc(a: nat, b: nat, c: nat)
    ensures Larger(Larger(a, b), c) == Larger(a, Larger(b, c))
  {
  }

  // What one entry, settled as `entry`, does to the accumulators.
  predicate Advanced(before: Tally, t: Tally, input: Check, g: Guard, e: Entry, a: Attempt, entry: Entry) {
    && t.riskScore == Larger(before.riskScore, EntryRisk(input, g, e, a))
    && (LevelsAgree(before) ==> LevelsAgree(t))
    && t.anySuccess == (before.anySuccess || entry.status == Ran(Success))
    && t.anyBlocked == (before.anyBlocked || entry.status == Blocked)
    && t.limited == (before.limited || entry.status == Ran(CapabilityMissing))
    && t.anyFailed == (before.anyFailed || Unsuccessful(entry.status))
    && t.anyCalled == (before.anyCalled || (Called(input, g, e) && a.Returns?))
  }

  // What is returned after the loop.  The score is never above 100, so capping it there changes nothing.
  function Summed(t: Tally, entries: seq<Entry>): Result {
    var status := ExecutionStatus(t.anySuccess, t.anyCalled, t.anyBlocked, t.anyFailed, t.limited);
    Result(entries, if t.riskScore > 100 then 100 else t.riskScore,
           if t.riskScore >= 100 then Forbidden else t.riskLevel, if t.riskScore >= 100 then 5 else t.legacyLevel,
           status, ChatSecurityDecision(status, t.riskScore), t.anySuccess)
  }

  // The body of the loop, for one planned entry.
  method ExecuteEntry(input: Check, g: Guard, e: Entry, a: Attempt, before: Tally)
    returns (entry: Entry, t: Tally, called: bool)
    ensures entry == Settled(input, g, e, a) && called == Called(input, g, e)
    ensures Advanced(before, t, input, g, e, a, entry)
  {
    hide ScoreOf, CHAT_READONLY_TOOLS, LevelOf, LegacyLevelOf, DecisionOf, MatchedRules, Larger;
    entry, t, called := e, before, false;
    if e.toolName !in CHAT_READONLY_TOOLS {
      entry := entry.(status := Blocked, score := Some(100));
      t := Refused(t);
      return;
    }
    if !g.validArgs(e.toolName, e.arguments) {
      entry := entry.(status := Blocked, score := Some(100));
      t := Refused(t);
      return;
    }
    var first := Score(ToolRequest(input, g, e));
    entry := entry.(score := Some(first.score));
    t := Raised(t, first);
    if !first.decision.Allow? {
      entry := entry.(status := Blocked);
      t := t.(anyBlocked := true);
      return;
    }
    called := true;
    if a.Raises? {
      entry := entry.(status := Failed);
      t := t.(anyFailed := true);
      return;
    }
    t := t.(anyCalled := true);
    var second := Score(OutputRequest(input, g, e, a.output));
    t := Raised(t, second);
    LargerAssoc(before.riskScore, first.score, second.score);
    if !a.output.passed {
      entry := entry.(status := Blocked, score := Some(second.score));
      t := t.(anyBlocked := true);
      return;
    }
    entry := entry.(status := Ran(a.status));
    if a.status.Success? {
      t := t.(anySuccess := true);
    } else if a.status.CapabilityMissing? {
      t := t.(limited := true);
    } else {
      t := t.(anyFailed := true);
    }
  }

  // What the accumulators say of the entries settled so far.
  ghost predicate Tallied(t: Tally, input: Check, g: Guard, plan: seq<Entry>, world: seq<Attempt>, done: seq<Entry>)
    requires |world| == |plan|
  {
    && LevelsAgree(t)
    && t.riskScore == PlanRisk(input, g, plan, world)
    && t.anySuccess == SomeWith(done, Ran(Success))
    && t.anyBlocked == SomeWith(done, Blocked)
    && t.limited == SomeWith(done, Ran(CapabilityMissing))
    && t.anyFailed == SomeUnsuccessful(done)
    && t.anyCalled == SomeReturned(input, g, plan, world)
  }

  lemma {:induction false} SomeSnoc(done: seq<Entry>, e: Entry, s: EntryStatus)
    ensures SomeWith(done + [e], s) <==> SomeWith(done, s) || e.status == s
    ensures SomeUnsuccessful(done + [e]) <==> SomeUnsuccessful(done) || Unsuccessful(e.status)
  {
    assert (done + [e])[|done|] == e;
    assert forall i :: 0 <= i < |done| ==> (done + [e])[i] == done[i];
  }

  lemma {:induction false} ReturnedSnoc(input: Check, g: Guard, plan: seq<Entry>, world: seq<Attempt>, e: Entry,
                                        a: Attempt)
    requires |world| == |plan|
    ensures SomeReturned(input, g, plan + [e], world + [a]) <==>
            SomeReturned(input, g, plan, world) || (Called(input, g, e) && a.Returns?)
  {
    hide Called;
    assert (plan + [e])[|plan|] == e && (world + [a])[|plan|] == a;
    assert forall i :: 0 <= i < |plan| ==> (plan + [e])[i] == plan[i] && (world + [a])[i] == world[i];
  }

  lemma {:induction false} TallyStep(
    before: Tally, t: Tally, input: Check, g: Guard, plan: seq<Entry>, world: seq<Attempt>, done: seq<Entry>,
    e: Entry, a: Attempt, entry: Entry)
    requires |world| == |plan| && Tallied(before, input, g, plan, world, done)
    requires Advanced(before, t, input, g, e, a, entry)
    ensures Tallied(t, input, g, plan + [e], world + [a], done + [entry])
  {
    hide LevelsAgree, EntryRisk, Called, Unsuccessful, SomeWith, SomeUnsuccessful, SomeReturned;
    SomeSnoc(done, entry, Ran(Success));
    SomeSnoc(done, entry, Blocked);
    SomeSnoc(done, entry, Ran(CapabilityMissing));
    ReturnedSnoc(input, g, plan, world, e, a);
    assert (plan + [e])[..|plan|] == plan && (world + [a])[..|plan|] == world;
  }

  lemma {:induction false} SettledSnoc(input: Check, g: Guard, plan: seq<Entry>, world: seq<Attempt>, e: Entry,
                                       a: Attempt)
    requires |world| == |plan|
    ensures SettledPlan(input, g, plan + [e], world + [a]) ==
            SettledPlan(input, g, plan, world) + [Settled(input, g, e, a)]
  {
    assert (plan + [e])[..|plan|] == plan && (world + [a])[..|plan|] == world;
  }

  // Before entry `i`: those before it are settled and summed up, the others still as planned.
  ghost predicate LoopState(t: Tally, entries: seq<Entry>, called: seq<bool>, input: Check, g: Guard, plan: seq<Entry>,
                            world: seq<Attempt>, i: nat) {
    && i <= |plan| == |world| && |called| == i
    && entries == SettledPlan(input, g, plan[..i], world[..i]) + plan[i..]
    && Tallied(t, input, g, plan[..i], world[..i], SettledPlan(input, g, plan[..i], world[..i]))
    && forall k :: 0 <= k < i ==> called[k] == Called(input, g, plan[k])
  }

  lemma {:induction false} LoopStarts(t: Tally, input: Check, g: Guard, plan: seq<Entry>, world: seq<Attempt>)
    requires t == Tally(10, Low, 1, false, false, false, false, false) && |world| == |plan|
    ensures LoopState(t, plan, [], input, g, plan, world, 0)
  {
    hide Tallied, SettledPlan;
    NothingTallied(input, g);
    assert plan[..0] == [] && world[..0] == [];
    assert plan == [] + plan[0..];
  }

  lemma {:induction false} NextEntry(
    t: Tally, entries: seq<Entry>, called: seq<bool>, input: Check, g: Guard, plan: seq<Entry>, world: seq<Attempt>,
    i: nat)
    requires LoopState(t, entries, called, input, g, plan, world, i) && i < |plan|
    ensures |entries| == |plan| && entries[i] == plan[i]
  {
    hide Tallied, SettledPlan, Called;
  }

  lemma {:induction false} LoopEnds(
    t: Tally, entries: seq<Entry>, called: seq<bool>, input: Check, g: Guard, plan: seq<Entry>, world: seq<Attempt>)
    requires |world| == |plan| && LoopState(t, entries, called, input, g, plan, world, |plan|)
    ensures |called| == |plan| && forall i :: 0 <= i < |plan| ==> called[i] == Called(input, g, plan[i])
    ensures var r := Outcome(input, g, plan, world);
            && Summed(t, entries) == r
            && r.riskLevel == LevelOf(r.riskScore) && r.legacyLevel == LegacyLevelOf(r.riskScore)
  {
    hide Tallied, SettledPlan, Called, Outcome, Summed, LevelOf, LegacyLevelOf;
    assert plan[..|plan|] == plan && world[..|plan|] == world && plan[|plan|..] == [];
    Finished(t, input, g, plan, world, entries);
  }

  // One pass of the loop.
  lemma {:induction false} LoopStep(
    before: Tally, t: Tally, entries: seq<Entry>, called: seq<bool>, input: Check, g: Guard, plan: seq<Entry>,
    world: seq<Attempt>, i: nat, entry: Entry)
    requires LoopState(before, entries, called, input, g, plan, world, i) && i < |plan| == |entries|
    requires entry == Settled(input, g, plan[i], world[i]) && Advanced(before, t, input, g, plan[i], world[i], entry)
    ensures LoopState(t, entries[i := entry], called + [Called(input, g, plan[i])], input, g, plan, world, i + 1)
  {
    hide Settled, Tallied, SettledPlan, Advanced, Called;
    var done := SettledPlan(input, g, plan[..i], world[..i]);
    assert plan[..i + 1] == plan[..i] + [plan[i]] && world[..i + 1] == world[..i] + [world[i]];
    SettledSnoc(input, g, plan[..i], world[..i], plan[i], world[i]);
    TallyStep(before, t, input, g, plan[..i], world[..i], done, plan[i], world[i], entry);
    assert (done + plan[i..])[i := entry] == (done + [entry]) + plan[i + 1..];
  }

  lemma {:induction false} NothingTallied(input: Check, g: Guard)
    ensures SettledPlan(input, g, [], []) == []
    ensures Tallied(Tally(10, Low, 1, false, false, false, false, false), input, g, [], [], [])
  {
  }

  lemma {:induction false} Finished(
    t: Tally, input: Check, g: Guard, plan: seq<Entry>, world: seq<Attempt>, done: seq<Entry>)
    requires |world| == |plan| && done == SettledPlan(input, g, plan, world) && Tallied(t, input, g, plan, world, done)
    ensures Summed(t, done) == Outcome(input, g, plan, world)
    ensures var r := Outcome(input, g, plan, world);
            r.riskLevel == LevelOf(r.riskScore) && r.legacyLevel == LegacyLevelOf(r.riskScore)
  {
    hide SettledPlan, PlanRisk, SomeWith, SomeUnsuccessful, SomeReturned, ExecutionStatus, ChatSecurityDecision,
         LevelOf, LegacyLevelOf;
    RiskBounded(input, g, plan, world);
    TopLevel(t.riskScore);
  }

  lemma {:induction false} TopLevel(score: nat)
    ensures score >= 100 ==> LevelOf(score) == Forbidden && LegacyLevelOf(score) == 5
  {
  }

  lemma {:induction false} EntryBounded(input: Check, g: Guard, e: Entry, a: Attempt)
    ensures EntryRisk(input, g, e, a) <= 100
  {
    hide ScoreOf;
    ScoreBounded(ToolRequest(input, g, e));
    if a.Returns? { ScoreBounded(OutputRequest(input, g, e, a.output)); }
  }

  // min(100, risk_score) changes nothing.
  lemma {:induction false} RiskBounded(input: Check, g: Guard, plan: seq<Entry>, world: seq<Attempt>)
    requires |world| == |plan|
    ensures 10 <= PlanRisk(input, g, plan, world) <= 100
    decreases |plan|
  {
    hide EntryRisk;
    if plan != [] {
      var n := |plan| - 1;
      RiskBounded(input, g, plan[..n], world[..n]);
      EntryBounded(input, g, plan[n], world[n]);
    }
  }

  /**
   * Carries out a plan entry by entry.  `called` marks the entries whose tool
   * the registry was asked to run.  The two levels, kept by maxima of their own,
   * end up as those of the final score.
   */
  method ExecuteToolPlan(input: Check, g: Guard, plan: seq<Entry>, world: seq<Attempt>)
    returns (r: Result, called: seq<bool>)
    requires |world| == |plan|
    ensures |called| == |plan| && forall i :: 0 <= i < |plan| ==> called[i] == Called(input, g, plan[i])
    ensures r == Outcome(input, g, plan, world)
    ensures r.riskLevel == LevelOf(r.riskScore) && r.legacyLevel == LegacyLevelOf(r.riskScore)
  {
    hide Settled, Called, LevelOf, LegacyLevelOf, Outcome, Advanced, Summed, LoopState;
    var t := Tally(10, Low, 1, false, false, false, false, false);
    var entries := plan;
    called := [];
    LoopStarts(t, input, g, plan, world);
    for i := 0 to |plan|
      invariant LoopState(t, entries, called, input, g, plan, world, i)
    {
      NextEntry(t, entries, called, input, g, plan, world, i);
      var entry, after, calledHere := ExecuteEntry(input, g, entries[i], world[i], t);
      LoopStep(t, after, entries, called, input, g, plan, world, i, entry);
      entries := entries[i := entry];
      t := after;
      called := called + [calledHere];
    }
    LoopEnds(t, entries, called, input, g, plan, world);
    r := Summed(t, entries);
  }

  // ----- What the verdicts mean -----

  // No entry stays planned, and the four flags cover every way an entry settles.
  lemma {:induction false} SettledKinds(input: Check, g: Guard, e: Entry, a: Attempt)
    ensures var s := Settled(input, g, e, a).status;
            && !s.Planned?
            && (s == Ran(Success) || s == Blocked || s == Ran(CapabilityMissing) || Unsuccessful(s))
            && (s.Ran? || s == Blocked || Called(input, g, e))
  {
    hide Assess, ScoreOf, CHAT_READONLY_TOOLS;
  }

  predicate AllWith(plan: seq<Entry>, s: EntryStatus) {
    forall i :: 0 <= i < |plan| ==> plan[i].status == s
  }

  /** What each overall status says of the settled entries. */
  lemma {:induction false} StatusMeaning(input: Check, g: Guard, plan: seq<Entry>, world: seq<Attempt>)
    requires |world| == |plan|
    ensures var r := Outcome(input, g, plan, world);
            && (forall i :: 0 <= i < |plan| ==> !r.plan[i].status.Planned?)
            && (r.executed <==> SomeWith(r.plan, Ran(Success)))
            && (r.status.AllDone? <==> plan != [] && AllWith(r.plan, Ran(Success)))
            && (r.status.Partial? <==> SomeWith(r.plan, Ran(Success)) && !AllWith(r.plan, Ran(Success)))
            && (r.status.PlanBlocked? <==>
                !r.executed && SomeWith(r.plan, Blocked) && !SomeReturned(input, g, plan, world))
            && (r.status.NotExecuted? <==>
                plan == [] || (AllWith(r.plan, Blocked) && SomeReturned(input, g, plan, world)))
            && (r.status.EnvironmentLimited? <==>
                !r.executed && !r.status.PlanBlocked? && SomeWith(r.plan, Ran(CapabilityMissing)))
            && (r.status.PlanFailed? ==>
                exists i :: 0 <= i < |plan| && r.plan[i].status in
                  {Failed, Ran(CommandFailed), Ran(NoOutput), Ran(ParseWarning)})
  {
    hide Settled, Unsuccessful, LevelOf, LegacyLevelOf, PlanRisk, ChatSecurityDecision, SomeReturned;
    var r := Outcome(input, g, plan, world);
    forall i | 0 <= i < |plan|
      ensures var s := r.plan[i].status;
              !s.Planned? && (s == Ran(Success) || s == Blocked || s == Ran(CapabilityMissing) || Unsuccessful(s))
    {
      SettledKinds(input, g, plan[i], world[i]);
    }
    assert Unsuccessful(Blocked) == false && Unsuccessful(Ran(Success)) == false by { Distinct(); }
    if plan != [] { assert r.plan[0] == r.plan[0]; }
    NoneReturned(input, g);
    if r.status.PlanFailed? {
      var i :| 0 <= i < |plan| && Unsuccessful(r.plan[i].status);
      UnsuccessfulMeans(r.plan[i].status);
    }
  }

  lemma {:induction false} UnsuccessfulMeans(s: EntryStatus)
    requires Unsuccessful(s)
    ensures s in {Failed, Ran(CommandFailed), Ran(NoOutput), Ran(ParseWarning)}
  {
  }

  lemma {:induction false} Distinct()
    ensures !Unsuccessful(Blocked) && !Unsuccessful(Ran(Success))
  {
  }

  lemma {:induction false} NoneReturned(input: Check, g: Guard)
    ensures !SomeReturned(input, g, [], [])
  {
  }

  /** The final score is the largest that an entry brings up, or 10 where none brings up more. */
  lemma {:induction false} FinalScoreIsLargest(input: Check, g: Guard, plan: seq<Entry>, world: seq<Attempt>)
    requires |world| == |plan|
    ensures var risk := Outcome(input, g, plan, world).riskScore;
            && 10 <= risk <= 100
            && (forall i :: 0 <= i < |plan| ==> EntryRisk(input, g, plan[i], world[i]) <= risk)
            && (risk > 10 ==> exists i :: 0 <= i < |plan| && EntryRisk(input, g, plan[i], world[i]) == risk)
  {
    hide EntryRisk;
    RiskBounded(input, g, plan, world);
    RiskCovers(input, g, plan, world);
    RiskReached(input, g, plan, world);
  }

  lemma {:induction false} RiskCovers(input: Check, g: Guard, plan: seq<Entry>, world: seq<Attempt>)
    requires |world| == |plan|
    ensures forall i :: 0 <= i < |plan| ==> EntryRisk(input, g, plan[i], world[i]) <= PlanRisk(input, g, plan, world)
    decreases |plan|
  {
    hide EntryRisk;
    if plan != [] {
      var n := |plan| - 1;
      RiskCovers(input, g, plan[..n], world[..n]);
      assert forall i :: 0 <= i < n ==> plan[..n][i] == plan[i] && world[..n][i] == world[i];
    }
  }

  lemma {:induction false} RiskReached(input: Check, g: Guard, plan: seq<Entry>, world: seq<Attempt>)
    requires |world| == |plan|
    ensures var risk := PlanRisk(input, g, plan, world);
            risk > 10 ==> exists i :: 0 <= i < |plan| && EntryRisk(input, g, plan[i], world[i]) == risk
    decreases |plan|
  {
    hide EntryRisk;
    if plan != [] {
      var n := |plan| - 1;
      RiskReached(input, g, plan[..n], world[..n]);
      assert forall i :: 0 <= i < n ==> plan[..n][i] == plan[i] && world[..n][i] == world[i];
    }
  }

  // An entry blocked after its tool answered brings the score to 100.
  lemma {:induction false} BlockedOutputScores(input: Check, g: Guard, e: Entry, a: Attempt)
    requires Called(input, g, e) && a.Returns? && Settled(input, g, e, a).status.Blocked?
    ensures EntryRisk(input, g, e, a) == 100
  {
    hide ScoreOf, CHAT_READONLY_TOOLS;
    FurtherCheckRaises(ToolRequest(input, g, e), a.output);
    EntryBounded(input, g, e, a);
  }

  /**
   * How an entry ends: refused before its tool ran or by the check of its output,
   * failed, or run.  Its score is that of its request, and 100 where it was refused
   * before scoring or by the check of its output, which also counts for the plan.
   */
  lemma {:induction false} EntryExactly(input: Check, g: Guard, e: Entry, a: Attempt)
    ensures var s := Settled(input, g, e, a);
            var checks := [input, g.toolCheck(e.toolName), g.argCheck(e.toolName, e.arguments)];
            var answered := Called(input, g, e) && a.Returns?;
            && s.toolName == e.toolName && s.arguments == e.arguments
            && (s.status == Blocked <==> !Called(input, g, e) || (answered && !a.output.passed))
            && (s.status == Failed <==> Called(input, g, e) && a.Raises?)
            && (s.status.Ran? ==> answered && s.status.result == a.status)
            && s.score == Some(if !Scored(g, e) || (answered && !a.output.passed) then 100
                               else ScoreOf(Request(checks, e.toolName, e.arguments, [])))
            && EntryRisk(input, g, e, a) ==
               if !Scored(g, e) then 100
               else ScoreOf(Request(checks + if answered then [a.output] else [], e.toolName, e.arguments, []))
  {
    hide ScoreOf, CHAT_READONLY_TOOLS;
    if a.Returns? { FurtherCheckRaises(ToolRequest(input, g, e), a.output); }
    assert ToolRequest(input, g, e).checks + [] == ToolRequest(input, g, e).checks;
  }

  // The registry was asked to run some tool, whether it answered or raised.
  predicate SomeCalled(input: Check, g: Guard, plan: seq<Entry>) {
    exists i :: 0 <= i < |plan| && Called(input, g, plan[i])
  }

  // Refused before its tool ran, or by the check of its tool's output.
  predicate EndsBlocked(input: Check, g: Guard, e: Entry, a: Attempt) {
    !Called(input, g, e) || (a.Returns? && !a.output.passed)
  }

  // Refused before any scoring, or rejected by the scorer: not merely in need of confirmation.
  predicate ForbiddenEntry(input: Check, g: Guard, e: Entry) {
    !Scored(g, e) || Assess(ToolRequest(input, g, e)).decision.Reject?
  }

  predicate AllEndBlocked(input: Check, g: Guard, plan: seq<Entry>, world: seq<Attempt>)
    requires |world| == |plan|
  {
    forall i :: 0 <= i < |plan| ==> EndsBlocked(input, g, plan[i], world[i])
  }

  predicate SomeForbidden(input: Check, g: Guard, plan: seq<Entry>) {
    exists i :: 0 <= i < |plan| && ForbiddenEntry(input, g, plan[i])
  }

  /**
   * Which plans are rejected, in terms of the checks and of what the tools
   * answer: those whose tools answered but all whose entries end blocked, and
   * those without an answer that hold a forbidden entry.  In both, tools may have
   * been asked to run: in the second they raised, which a registry that turns
   * exceptions into results never does.  Only the flag `executed` is unset.
   */
  lemma {:induction false} PlanRejectedExactly(input: Check, g: Guard, plan: seq<Entry>, world: seq<Attempt>)
    requires |world| == |plan| && plan != []
    ensures var r := Outcome(input, g, plan, world);
            && (r.decision.Rejected? <==>
                if SomeReturned(input, g, plan, world) then AllEndBlocked(input, g, plan, world)
                else SomeForbidden(input, g, plan))
            && (r.decision.Rejected? ==> !r.executed)
            && (r.decision.Allowed? <==> AllWith(r.plan, Ran(Success)))
  {
    hide Settled, Unsuccessful, LevelOf, LegacyLevelOf, PlanRisk, SomeReturned, SomeWith, SomeUnsuccessful, AllWith,
         EntryRisk, Called, AllEndBlocked, SomeForbidden;
    StatusMeaning(input, g, plan, world);
    RiskBounded(input, g, plan, world);
    AllEndBlockedMeans(input, g, plan, world);
    if SomeReturned(input, g, plan, world) {
      if AllEndBlocked(input, g, plan, world) { AllBlockedIsForbidden(input, g, plan, world); }
    } else {
      NothingSucceeded(input, g, plan, world);
      SomeForbiddenScores(input, g, plan, world);
    }
  }

  /** The other decisions, in the same terms. */
  lemma {:induction false} DecisionsExactly(input: Check, g: Guard, plan: seq<Entry>, world: seq<Attempt>)
    requires |world| == |plan|
    ensures var r := Outcome(input, g, plan, world);
            && (r.decision.Allowed? <==> plan != [] && AllWith(r.plan, Ran(Success)))
            && (r.decision.Partly? <==> SomeWith(r.plan, Ran(Success)) && !AllWith(r.plan, Ran(Success)))
            && (r.decision.NoAction? <==>
                || plan == []
                || (!SomeReturned(input, g, plan, world) && SomeWith(r.plan, Blocked)
                    && !SomeForbidden(input, g, plan)))
  {
    hide Settled, Unsuccessful, LevelOf, LegacyLevelOf, PlanRisk, SomeReturned, SomeUnsuccessful, EntryRisk, Called,
         SomeForbidden;
    StatusMeaning(input, g, plan, world);
    RiskBounded(input, g, plan, world);
    if plan == [] {
      NoRisk(input, g);
    } else if SomeReturned(input, g, plan, world) {
      if AllWith(SettledPlan(input, g, plan, world), Blocked) { AllBlockedIsForbidden(input, g, plan, world); }
    } else {
      NothingSucceeded(input, g, plan, world);
      SomeForbiddenScores(input, g, plan, world);
    }
  }

  lemma {:induction false} NoRisk(input: Check, g: Guard)
    ensures PlanRisk(input, g, [], []) == 10
  {
  }

  lemma {:induction false} EndsBlockedMeans(input: Check, g: Guard, e: Entry, a: Attempt)
    ensures Settled(input, g, e, a).status == Blocked <==> EndsBlocked(input, g, e, a)
  {
    hide ScoreOf, CHAT_READONLY_TOOLS, LevelOf, LegacyLevelOf, MatchedRules;
  }

  lemma {:induction false} AllEndBlockedMeans(input: Check, g: Guard, plan: seq<Entry>, world: seq<Attempt>)
    requires |world| == |plan|
    ensures AllWith(SettledPlan(input, g, plan, world), Blocked) <==> AllEndBlocked(input, g, plan, world)
  {
    hide Settled, EndsBlocked;
    forall i | 0 <= i < |plan|
      ensures SettledPlan(input, g, plan, world)[i].status == Blocked <==> EndsBlocked(input, g, plan[i], world[i])
    {
      EndsBlockedMeans(input, g, plan[i], world[i]);
    }
  }

  // Without an answer, exactly the forbidden entries bring the score to 100, and they end blocked.
  lemma {:induction false} ForbiddenScores(input: Check, g: Guard, e: Entry, a: Attempt)
    requires !(Called(input, g, e) && a.Returns?)
    ensures EntryRisk(input, g, e, a) == 100 <==> ForbiddenEntry(input, g, e)
    ensures ForbiddenEntry(input, g, e) ==> EndsBlocked(input, g, e, a)
  {
    hide ScoreOf, CHAT_READONLY_TOOLS, MatchedRules, SomeFailed;
    if Scored(g, e) {
      RejectedExactly(ToolRequest(input, g, e));
      ScoreBounded(ToolRequest(input, g, e));
    }
  }

  lemma {:induction false} SomeForbiddenScores(input: Check, g: Guard, plan: seq<Entry>, world: seq<Attempt>)
    requires |world| == |plan| && !SomeReturned(input, g, plan, world)
    ensures PlanRisk(input, g, plan, world) == 100 <==> SomeForbidden(input, g, plan)
    ensures SomeForbidden(input, g, plan) ==> SomeWith(SettledPlan(input, g, plan, world), Blocked)
  {
    hide EntryRisk, PlanRisk, Settled, Called, EndsBlocked, ForbiddenEntry;
    RiskBounded(input, g, plan, world);
    RiskCovers(input, g, plan, world);
    RiskReached(input, g, plan, world);
    forall i | 0 <= i < |plan|
      ensures EntryRisk(input, g, plan[i], world[i]) == 100 <==> ForbiddenEntry(input, g, plan[i])
      ensures ForbiddenEntry(input, g, plan[i]) ==> SettledPlan(input, g, plan, world)[i].status == Blocked
    {
      ForbiddenScores(input, g, plan[i], world[i]);
      EndsBlockedMeans(input, g, plan[i], world[i]);
    }
  }

  /** The two ways in which a rejected plan has asked the registry to run a tool. */
  lemma {:induction false} RejectedAfterCalls(input: Check, g: Guard, plan: seq<Entry>, world: seq<Attempt>)
    requires |world| == |plan|
    ensures Outcome(input, g, plan, world).decision.Rejected? && SomeCalled(input, g, plan) <==>
            || (AllEndBlocked(input, g, plan, world) && SomeReturned(input, g, plan, world))
            || (!SomeReturned(input, g, plan, world) && SomeCalled(input, g, plan) && SomeForbidden(input, g, plan))
  {
    hide Outcome, SomeReturned, SomeCalled, AllEndBlocked, SomeForbidden;
    if plan == [] {
      NoneReturned(input, g);
      NoneCalled(input, g);
    } else {
      PlanRejectedExactly(input, g, plan, world);
      if SomeReturned(input, g, plan, world) { ReturnedWasCalled(input, g, plan, world); }
    }
  }

  lemma {:induction false} NoneCalled(input: Check, g: Guard)
    ensures !SomeCalled(input, g, [])
  {
  }

  lemma {:induction false} ReturnedWasCalled(input: Check, g: Guard, plan: seq<Entry>, world: seq<Attempt>)
    requires |world| == |plan| && SomeReturned(input, g, plan, world)
    ensures SomeCalled(input, g, plan)
  {
  }

  // Success takes a tool that answered.
  lemma {:induction false} NothingSucceeded(input: Check, g: Guard, plan: seq<Entry>, world: seq<Attempt>)
    requires |world| == |plan| && !SomeReturned(input, g, plan, world)
    ensures !SomeWith(SettledPlan(input, g, plan, world), Ran(Success))
  {
    forall i | 0 <= i < |plan| ensures SettledPlan(input, g, plan, world)[i].status != Ran(Success) {
      SuccessReturned(input, g, plan[i], world[i]);
    }
  }

  lemma {:induction false} SuccessReturned(input: Check, g: Guard, e: Entry, a: Attempt)
    ensures Settled(input, g, e, a).status == Ran(Success) ==> Called(input, g, e) && a.Returns?
  {
    hide ScoreOf, CHAT_READONLY_TOOLS, LevelOf, LegacyLevelOf, MatchedRules;
  }

  lemma {:induction false} AllBlockedIsForbidden(input: Check, g: Guard, plan: seq<Entry>, world: seq<Attempt>)
    requires |world| == |plan| && SomeReturned(input, g, plan, world)
    requires AllWith(SettledPlan(input, g, plan, world), Blocked)
    ensures PlanRisk(input, g, plan, world) == 100
  {
    hide EntryRisk, PlanRisk, Settled, Called;
    var k :| 0 <= k < |plan| && Called(input, g, plan[k]) && world[k].Returns?;
    assert SettledPlan(input, g, plan, world)[k].status == Blocked;
    BlockedOutputScores(input, g, plan[k], world[k]);
    RiskCovers(input, g, plan, world);
    RiskBounded(input, g, plan, world);
  }

  /** Every tool a plan runs is known to the scorer, read-only, and in no need of confirmation. */
  lemma {:induction false} CalledToolsAreReadOnly(input: Check, g: Guard, e: Entry)
    requires Called(input, g, e)
    ensures e.toolName in CHAT_READONLY_TOOLS && g.validArgs(e.toolName, e.arguments)
    ensures e.toolName in TOOL_BASE_SCORE && TOOL_BASE_SCORE[e.toolName] < 70
  {
    hide CHAT_READONLY_TOOLS, TOOL_BASE_SCORE, Assess;
    NoNamelessTool();
    ToolsGuarded(ToolRequest(input, g, e));
    DecisionsDiffer(Assess(ToolRequest(input, g, e)).decision);
  }

  /** The registry is asked to run exactly the listed tools with valid arguments whose checks reach no 70. */
  lemma {:induction false} CalledExactly(input: Check, g: Guard, e: Entry)
    ensures Called(input, g, e) <==>
            && e.toolName in CHAT_READONLY_TOOLS && g.validArgs(e.toolName, e.arguments)
            && !Reaches(Request([input, g.toolCheck(e.toolName), g.argCheck(e.toolName, e.arguments)], e.toolName,
                                e.arguments, []), 70)
  {
    hide CHAT_READONLY_TOOLS, Assess, Reaches;
    AllowedExactly(
      Request([input, g.toolCheck(e.toolName), g.argCheck(e.toolName, e.arguments)], e.toolName, e.arguments, []));
  }

  lemma {:induction false} NoNamelessTool()
    ensures "" !in CHAT_READONLY_TOOLS
  {
  }

  lemma {:induction false} DecisionsDiffer(d: Decision)
    ensures d.Allow? ==> !d.Reject? && !d.Confirm?
  {
  }
}

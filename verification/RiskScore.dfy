/**
 * The 0 to 100 risk score of a request and the level and decision read off it.
 *
 * Main results: `Score`, the running maximum is the largest contribution, and
 * `RejectedExactly` and `AllowedExactly`, what each decision says about the
 * request.
 */
module RiskScore {
  import opened Numerals

  datatype Check = Check(passed: bool, riskLevel: int, hits: seq<string>)
  datatype Value = Text(s: string) | Nested | Plain
  type Arguments = seq<(string, Value)>
  datatype Decision = Allow | Confirm | Reject
  datatype Level = Low | Medium | High | Forbidden
  datatype Assessment = Assessment(
    score: nat, level: Level, legacyLevel: nat, decision: Decision, matchedRules: seq<string>)

  // The checks that were made, in the order input, tool, arguments, output.
  datatype Request = Request(checks: seq<Check>, toolName: string, arguments: Arguments, extraFactors: seq<string>)

  function LevelBase(riskLevel: int): nat {
    match riskLevel
    case 1 => 10
    case 2 => 30
    case 3 => 50
    case 4 => 70
    case 5 => 95
    case _ => 10
  }

  const TOOL_BASE_SCORE: map<string, nat> := map[
    "get_memory_status" := 10, "disk_usage" := 12, "process_list" := 16, "get_port_usage" := 18,
    "network_status" := 20, "journal_query" := 22, "get_service_status" := 25, "large_file_scan" := 40,
    "get_cpu_status" := 14, "config_drift_check" := 20, "zombie_process_check" := 16, "disk_io_analysis" := 14,
    "impact_analysis" := 22, "safe_cleanup_scan" := 30, "safe_cleanup_plan" := 40,
    "safe_cleanup_quarantine" := 75, "safe_cleanup_restore" := 75]

  const RULE_WEIGHTS: seq<(string, nat)> := [
    ("delete_command", 100), ("dangerous_cmd", 100), ("shell_injection_char", 100), ("tool_not_in_whitelist", 100),
    ("schema_validation", 100), ("dangerous_path_in_arg", 75), ("dangerous_path", 70),
    ("output_contains_delete_cmd", 70), ("injection_template", 65), ("output_injection", 60),
    ("protected_credential", 100), ("path_traversal", 100)]

  predicate Contains(text: string, part: string) {
    part <= text || (text != [] && Contains(text[1..], part))
  }

  predicate RuleMatches(hit: string, prefix: string) {
    prefix <= hit || Contains(hit, ":" + prefix)
  }

  // The first rule that matches decides, in the order of the table.
  function WeightIn(hit: string, rules: seq<(string, nat)>): nat {
    if rules == [] then 0
    else if RuleMatches(hit, rules[0].0) then rules[0].1
    else WeightIn(hit, rules[1..])
  }

  function WeightOf(hit: string): nat {
    WeightIn(hit, RULE_WEIGHTS)
  }

  predicate ShellMeta(c: char) {
    c == ';' || c == '|' || c == '&' || c == '`' || c == '$' || c == '\n' || c == '\r'
  }

  predicate HasShellMeta(s: string) {
    exists i :: 0 <= i < |s| && ShellMeta(s[i])
  }

  predicate Schematic(factor: string) {
    "schema_validation" <= factor || "tool_not_found" <= factor
  }

  // ----- What each part of a request contributes -----

  function ToolContribution(toolName: string): nat {
    if toolName == "" then 0
    else if toolName in TOOL_BASE_SCORE then TOOL_BASE_SCORE[toolName] else 100
  }

  function ValueContribution(v: Value): nat {
    match v
    case Text(s) => if HasShellMeta(s) then 100 else if |s| > 512 then 50 else 10
    case Nested => 35
    case Plain => 10
  }

  function FactorContribution(factor: string): nat {
    if Schematic(factor) then 100 else 0
  }

  function MaxOfHits(hits: seq<string>): nat {
    if hits == [] then 0 else Larger(MaxOfHits(hits[..|hits| - 1]), WeightOf(hits[|hits| - 1]))
  }

  function MaxOfBases(checks: seq<Check>): nat {
    if checks == [] then 0
    else Larger(MaxOfBases(checks[..|checks| - 1]), LevelBase(checks[|checks| - 1].riskLevel))
  }

  // What a check's rules contribute, and its failing.
  function FindingContribution(c: Check): nat {
    Larger(MaxOfHits(c.hits), if c.passed then 0 else 100)
  }

  function MaxOfFindings(checks: seq<Check>): nat {
    if checks == [] then 0 else Larger(MaxOfFindings(checks[..|checks| - 1]), FindingContribution(checks[|checks| - 1]))
  }

  function MaxOfValues(arguments: Arguments): nat {
    if arguments == [] then 0
    else Larger(MaxOfValues(arguments[..|arguments| - 1]), ValueContribution(arguments[|arguments| - 1].1))
  }

  function MaxOfFactors(factors: seq<string>): nat {
    if factors == [] then 0
    else Larger(MaxOfFactors(factors[..|factors| - 1]), FactorContribution(factors[|factors| - 1]))
  }

  function ScoreOf(r: Request): nat {
    Larger(Larger(Larger(Larger(10, MaxOfBases(r.checks)), ToolContribution(r.toolName)), MaxOfFindings(r.checks)),
           Larger(MaxOfValues(r.arguments), MaxOfFactors(r.extraFactors)))
  }

  // ----- Level and decision -----

  function LevelOf(score: int): Level {
    if score >= 100 then Forbidden else if score >= 70 then High else if score >= 40 then Medium else Low
  }

  function LegacyLevelOf(score: int): nat {
    if score >= 100 then 5 else if score >= 70 then 4 else if score >= 40 then 3 else if score >= 20 then 2 else 1
  }

  predicate SomeFailed(checks: seq<Check>) {
    exists i :: 0 <= i < |checks| && !checks[i].passed
  }

  function DecisionOf(score: int, failedCheck: bool): Decision {
    if failedCheck || score >= 100 then Reject else if score >= 70 then Confirm else Allow
  }

  function AllHits(checks: seq<Check>): seq<string> {
    if checks == [] then [] else AllHits(checks[..|checks| - 1]) + checks[|checks| - 1].hits
  }

  function MatchedRules(r: Request): seq<string> {
    (if r.toolName == "" || r.toolName in TOOL_BASE_SCORE then [] else ["unclassified_tool:" + r.toolName])
    + AllHits(r.checks) + r.extraFactors
  }

  function Assess(r: Request): Assessment {
    var score := ScoreOf(r);
    Assessment(score, LevelOf(score), LegacyLevelOf(score), DecisionOf(score, SomeFailed(r.checks)), MatchedRules(r))
  }

  // ----- What the tables and text tests mean -----

  /** A check's level sets a floor that grows with it: 4 and 5 demand at least a confirmation, others do not. */
  lemma {:induction false} LevelFloors(level: int, higher: int)
    ensures LevelBase(level) == if 1 <= level <= 5 then [10, 30, 50, 70, 95][level - 1] else 10
    ensures LevelBase(level) >= 70 <==> level in {4, 5}
    ensures LevelBase(level) >= 40 <==> level in {3, 4, 5}
    ensures LevelBase(level) >= 20 <==> level in {2, 3, 4, 5}
    ensures 1 <= level < higher <= 5 ==> LevelBase(level) < LevelBase(higher) < 100
  {
  }

  /** Exactly the two tools that move files have a base score that demands a confirmation. */
  lemma {:induction false} MovingTools(toolName: string)
    requires toolName in TOOL_BASE_SCORE
    ensures TOOL_BASE_SCORE[toolName] >= 70 <==> toolName in {"safe_cleanup_quarantine", "safe_cleanup_restore"}
    ensures 10 <= TOOL_BASE_SCORE[toolName] < 100
  {
  }

  /** Which rules forbid, and which demand at least a confirmation. */
  lemma {:induction false} RuleTable(i: nat)
    requires i < |RULE_WEIGHTS|
    ensures RULE_WEIGHTS[i].1 >= 100 <==>
            RULE_WEIGHTS[i].0 in {"delete_command", "dangerous_cmd", "shell_injection_char", "tool_not_in_whitelist",
                                  "schema_validation", "protected_credential", "path_traversal"}
    ensures 70 <= RULE_WEIGHTS[i].1 < 100 <==>
            RULE_WEIGHTS[i].0 in {"dangerous_path_in_arg", "dangerous_path", "output_contains_delete_cmd"}
    ensures RULE_WEIGHTS[i].1 < 70 <==> RULE_WEIGHTS[i].0 in {"injection_template", "output_injection"}
    ensures 40 <= RULE_WEIGHTS[i].1 <= 100
  {
  }

  /** A value forbids where a shell would read it, and otherwise never demands a confirmation. */
  lemma {:induction false} ValueFloors(v: Value)
    ensures ValueContribution(v) == match v
                                    case Text(s) => if Shellish(s) then 100 else if |s| <= 512 then 10 else 50
                                    case Nested => 35
                                    case Plain => 10
    ensures ValueContribution(v) >= 70 <==> v.Text? && Shellish(v.s)
    ensures ValueContribution(v) >= 100 <==> v.Text? && Shellish(v.s)
    ensures ValueContribution(v) >= 40 <==> v.Text? && (Shellish(v.s) || |v.s| > 512)
    ensures ValueContribution(v) >= 20 <==> v.Nested? || (v.Text? && (Shellish(v.s) || |v.s| > 512))
  {
    hide HasShellMeta, Shellish;
    if v.Text? { ShellishExactly(v.s); }
  }

  /** The weight of a hit is that of the first rule of the table that matches it. */
  lemma {:induction false} WeightOfFirst(hit: string, rules: seq<(string, nat)>)
    ensures || (exists i :: 0 <= i < |rules| && RuleMatches(hit, rules[i].0) && WeightIn(hit, rules) == rules[i].1
                            && forall j :: 0 <= j < i ==> !RuleMatches(hit, rules[j].0))
            || (WeightIn(hit, rules) == 0 && forall j :: 0 <= j < |rules| ==> !RuleMatches(hit, rules[j].0))
  {
    hide RuleMatches;
    if rules != [] && !RuleMatches(hit, rules[0].0) {
      var rest := rules[1..];
      WeightOfFirst(hit, rest);
      if i :| 0 <= i < |rest| && RuleMatches(hit, rest[i].0) && WeightIn(hit, rest) == rest[i].1
              && forall j :: 0 <= j < i ==> !RuleMatches(hit, rest[j].0) {
        assert rules[i + 1] == rest[i];
        assert forall j :: 0 < j < i + 1 ==> rules[j] == rest[j - 1];
      }
    }
  }

  /** A rule matches a hit that begins with its name, or holds it after a colon. */
  lemma {:induction false} MatchesWhere(hit: string, prefix: string)
    ensures RuleMatches(hit, prefix) <==>
            || prefix <= hit
            || exists i :: 0 <= i <= |hit| && [':'] + prefix <= hit[i..]
  {
    ContainsWhere(hit, ":" + prefix);
  }

  lemma {:induction false} ContainsWhere(text: string, part: string)
    ensures Contains(text, part) <==> exists i :: 0 <= i <= |text| && part <= text[i..]
  {
    assert text[0..] == text;
    if text != [] {
      var rest := text[1..];
      ContainsWhere(rest, part);
      assert forall i :: 0 <= i <= |rest| ==> rest[i..] == text[i + 1..];
      if i :| 0 <= i <= |text| && part <= text[i..] {
        if i > 0 { assert part <= rest[i - 1..]; }
      }
    }
  }

  // ----- The scorer's loops -----

  function Clamped(score: int): int {
    if score > 100 then 100 else if score < 0 then 0 else score
  }

  /** The running maximum over checks, rules, arguments and factors. */
  method Score(r: Request) returns (a: Assessment)
    ensures a == Assess(r)
  {
    hide TOOL_BASE_SCORE, WeightOf, MaxOfHits, MaxOfBases, LevelBase, MaxOfValues, AllHits, MaxOfFindings, MaxOfFactors;
    var matchedRules: seq<string> := [];
    var score := HighestBase(r.checks);
    if r.toolName != "" {
      if r.toolName !in TOOL_BASE_SCORE {
        matchedRules := ["unclassified_tool:" + r.toolName];
      }
      score := Larger(score, ToolContribution(r.toolName));
    }
    var hits, findings, failed := Findings(r.checks, score);
    matchedRules, score := matchedRules + hits, findings;
    if r.arguments != [] {
      var argument := ArgumentScore(r.arguments);
      score := Larger(score, argument);
    } else {
      NoValues();
    }
    matchedRules, score := ExtraFactors(r.extraFactors, matchedRules, score);
    assert score == ScoreOf(r);
    ScoreBounded(r);
    var clamped := Clamped(score);
    a := Assessment(clamped, LevelOf(clamped), LegacyLevelOf(clamped), DecisionOf(clamped, failed), matchedRules);
  }

  // The factors named by the caller: each one is a matched rule, and schema and registry failures forbid.
  method ExtraFactors(factors: seq<string>, matched: seq<string>, start: nat)
    returns (matchedRules: seq<string>, score: nat)
    ensures matchedRules == matched + factors && score == Larger(start, MaxOfFactors(factors))
  {
    matchedRules, score := matched, start;
    for i := 0 to |factors|
      invariant matchedRules == matched + factors[..i] && score == Larger(start, MaxOfFactors(factors[..i]))
    {
      assert factors[..i + 1] == factors[..i] + [factors[i]];
      matchedRules := matchedRules + [factors[i]];
      if "schema_validation" <= factors[i] {
        score := Larger(score, 100);
      } else if "tool_not_found" <= factors[i] {
        score := Larger(score, 100);
      }
    }
    assert factors[..|factors|] == factors;
  }

  // max(base_scores or [10])
  method HighestBase(checks: seq<Check>) returns (score: nat)
    ensures score == Larger(10, MaxOfBases(checks))
  {
    score := 10;
    for i := 0 to |checks|
      invariant score == Larger(10, MaxOfBases(checks[..i]))
    {
      assert checks[..i + 1][..i] == checks[..i];
      score := Larger(score, LevelBase(checks[i].riskLevel));
    }
    assert checks[..|checks|] == checks;
  }

  // The rules the checks hit, the score they raise `start` to, and whether a check failed.
  method Findings(checks: seq<Check>, start: nat) returns (hits: seq<string>, score: nat, failed: bool)
    ensures hits == AllHits(checks) && score == Larger(start, MaxOfFindings(checks)) && failed == SomeFailed(checks)
  {
    hide WeightOf;
    hits, score, failed := [], start, false;
    for i := 0 to |checks|
      invariant hits == AllHits(checks[..i])
      invariant score == Larger(start, MaxOfFindings(checks[..i]))
      invariant failed <==> exists j :: 0 <= j < i && !checks[j].passed
    {
      var check := checks[i];
      assert checks[..i + 1][..i] == checks[..i];
      ghost var before := score;
      for k := 0 to |check.hits|
        invariant score == Larger(before, MaxOfHits(check.hits[..k]))
      {
        assert check.hits[..k + 1][..k] == check.hits[..k];
        score := Larger(score, WeightOf(check.hits[k]));
      }
      assert check.hits[..|check.hits|] == check.hits;
      hits := hits + check.hits;
      if !check.passed {
        score := Larger(score, 100);
        failed := true;
      }
    }
    assert checks[..|checks|] == checks;
  }

  method ArgumentScore(arguments: Arguments) returns (score: nat)
    requires arguments != []
    ensures score == MaxOfValues(arguments)
  {
    hide HasShellMeta;
    score := 10;
    for i := 0 to |arguments|
      invariant score == Larger(10, MaxOfValues(arguments[..i]))
    {
      assert arguments[..i + 1][..i] == arguments[..i];
      match arguments[i].1
      case Text(s) =>
        if |s| > 512 { score := Larger(score, 50); }
        if HasShellMeta(s) { score := Larger(score, 100); }
      case Nested => score := Larger(score, 35);
      case Plain =>
    }
    assert arguments[..|arguments|] == arguments;
  }

  lemma {:induction false} NoValues()
    ensures MaxOfValues([]) == 0
  {
  }

  // ----- What a bound on the score means -----

  lemma {:induction false} BasesReach(checks: seq<Check>, bound: nat)
    requires bound > 0
    ensures MaxOfBases(checks) >= bound <==> exists i :: 0 <= i < |checks| && LevelBase(checks[i].riskLevel) >= bound
  {
    if checks != [] {
      var rest, c := checks[..|checks| - 1], checks[|checks| - 1];
      BasesReach(rest, bound);
      assert forall i :: 0 <= i < |rest| ==> checks[i] == rest[i];
      if LevelBase(c.riskLevel) >= bound { assert checks[|checks| - 1] == c; }
    }
  }

  lemma {:induction false} HitsReach(hits: seq<string>, bound: nat)
    requires bound > 0
    ensures MaxOfHits(hits) >= bound <==> exists i :: 0 <= i < |hits| && WeightOf(hits[i]) >= bound
  {
    hide WeightOf;
    if hits != [] {
      var rest, h := hits[..|hits| - 1], hits[|hits| - 1];
      HitsReach(rest, bound);
      assert forall i :: 0 <= i < |rest| ==> hits[i] == rest[i];
      if WeightOf(h) >= bound { assert hits[|hits| - 1] == h; }
    }
  }

  // A check that failed, or one of whose rules weighs at least `bound`.
  predicate FindingReaches(c: Check, bound: nat) {
    !c.passed || exists k :: 0 <= k < |c.hits| && WeightOf(c.hits[k]) >= bound
  }

  lemma {:induction false} FindingsReach(checks: seq<Check>, bound: nat)
    requires 0 < bound <= 100
    ensures MaxOfFindings(checks) >= bound <==> exists i :: 0 <= i < |checks| && FindingReaches(checks[i], bound)
  {
    hide WeightOf, MaxOfHits;
    if checks != [] {
      var rest, c := checks[..|checks| - 1], checks[|checks| - 1];
      FindingsReach(rest, bound);
      HitsReach(c.hits, bound);
      assert forall i :: 0 <= i < |rest| ==> checks[i] == rest[i];
      if FindingReaches(c, bound) { assert checks[|checks| - 1] == c; }
    }
  }

  lemma {:induction false} ValuesReach(arguments: Arguments, bound: nat)
    requires bound > 0
    ensures MaxOfValues(arguments) >= bound <==>
            exists i :: 0 <= i < |arguments| && ValueContribution(arguments[i].1) >= bound
  {
    hide ValueContribution;
    if arguments != [] {
      var rest, a := arguments[..|arguments| - 1], arguments[|arguments| - 1];
      ValuesReach(rest, bound);
      assert forall i :: 0 <= i < |rest| ==> arguments[i] == rest[i];
      if ValueContribution(a.1) >= bound { assert arguments[|arguments| - 1] == a; }
    }
  }

  lemma {:induction false} FactorsReach(factors: seq<string>, bound: nat)
    requires 0 < bound <= 100
    ensures MaxOfFactors(factors) >= bound <==> exists i :: 0 <= i < |factors| && Schematic(factors[i])
  {
    hide Schematic;
    if factors != [] {
      var rest, f := factors[..|factors| - 1], factors[|factors| - 1];
      FactorsReach(rest, bound);
      assert forall i :: 0 <= i < |rest| ==> factors[i] == rest[i];
      if Schematic(f) { assert factors[|factors| - 1] == f; }
    }
  }

  // Some part of the request reaches `bound`.
  predicate Reaches(r: Request, bound: nat) {
    || (exists i :: 0 <= i < |r.checks| && LevelBase(r.checks[i].riskLevel) >= bound)
    || (exists i :: 0 <= i < |r.checks| && FindingReaches(r.checks[i], bound))
    || ToolContribution(r.toolName) >= bound
    || (exists i :: 0 <= i < |r.arguments| && ValueContribution(r.arguments[i].1) >= bound)
    || (exists i :: 0 <= i < |r.extraFactors| && Schematic(r.extraFactors[i]))
  }

  /** The score reaches a bound above its floor of 10 exactly when some part of the request does. */
  lemma {:induction false} ScoreReaches(r: Request, bound: nat)
    requires 10 < bound <= 100
    ensures ScoreOf(r) >= bound <==> Reaches(r, bound)
  {
    hide MaxOfBases, MaxOfFindings, MaxOfValues, MaxOfFactors, ToolContribution, FindingReaches, Schematic,
         ValueContribution;
    BasesReach(r.checks, bound);
    FindingsReach(r.checks, bound);
    ValuesReach(r.arguments, bound);
    FactorsReach(r.extraFactors, bound);
  }

  lemma {:induction false} WeightBounded(hit: string, rules: seq<(string, nat)>)
    requires forall i :: 0 <= i < |rules| ==> rules[i].1 <= 100
    ensures WeightIn(hit, rules) <= 100
  {
    hide RuleMatches;
    if rules != [] { WeightBounded(hit, rules[1..]); }
  }

  lemma {:induction false} HitsBounded(hits: seq<string>)
    ensures MaxOfHits(hits) <= 100
  {
    hide RuleMatches, WeightIn;
    if hits != [] {
      HitsBounded(hits[..|hits| - 1]);
      WeightBounded(hits[|hits| - 1], RULE_WEIGHTS);
    }
  }

  lemma {:induction false} ChecksBounded(checks: seq<Check>)
    ensures MaxOfBases(checks) <= 95 && MaxOfFindings(checks) <= 100
  {
    hide MaxOfHits;
    if checks != [] {
      ChecksBounded(checks[..|checks| - 1]);
      HitsBounded(checks[|checks| - 1].hits);
    }
  }

  lemma {:induction false} ToolBounded(toolName: string)
    ensures ToolContribution(toolName) <= 100
  {
  }

  lemma {:induction false} ValuesBounded(arguments: Arguments)
    ensures MaxOfValues(arguments) <= 100
  {
    if arguments != [] { ValuesBounded(arguments[..|arguments| - 1]); }
  }

  lemma {:induction false} FactorsBounded(factors: seq<string>)
    ensures MaxOfFactors(factors) <= 100
  {
    if factors != [] { FactorsBounded(factors[..|factors| - 1]); }
  }

  // The final clamp changes nothing.
  lemma {:induction false} ScoreBounded(r: Request)
    ensures 10 <= ScoreOf(r) <= 100
  {
    hide MaxOfBases, MaxOfFindings, MaxOfValues, MaxOfFactors, ToolContribution;
    ChecksBounded(r.checks);
    ToolBounded(r.toolName);
    ValuesBounded(r.arguments);
    FactorsBounded(r.extraFactors);
  }

  // ----- What the decisions mean -----

  // The reasons for an outright refusal.
  predicate Forbidding(r: Request) {
    || SomeFailed(r.checks)
    || (exists i, k :: 0 <= i < |r.checks| && 0 <= k < |r.checks[i].hits| && WeightOf(r.checks[i].hits[k]) >= 100)
    || (r.toolName != "" && r.toolName !in TOOL_BASE_SCORE)
    || (exists i :: 0 <= i < |r.arguments| && r.arguments[i].1.Text? && Shellish(r.arguments[i].1.s))
    || (exists i :: 0 <= i < |r.extraFactors| &&
          ("schema_validation" <= r.extraFactors[i] || "tool_not_found" <= r.extraFactors[i]))
  }

  // A text with a character that a shell gives a meaning.
  predicate Shellish(s: string) {
    exists k :: 0 <= k < |s| && s[k] in ";|&`$\n\r"
  }

  lemma {:induction false} ShellishExactly(s: string)
    ensures Shellish(s) <==> HasShellMeta(s)
  {
    if k :| 0 <= k < |s| && s[k] in ";|&`$\n\r" { assert ShellMeta(s[k]); }
    if k :| 0 <= k < |s| && ShellMeta(s[k]) { assert s[k] in ";|&`$\n\r"; }
  }

  lemma {:induction false} KnownBelow(toolName: string)
    ensures ToolContribution(toolName) >= 100 <==> toolName != "" && toolName !in TOOL_BASE_SCORE
  {
  }

  lemma {:induction false} ForbiddingReaches(r: Request)
    ensures Reaches(r, 100) <==> Forbidding(r)
  {
    hide TOOL_BASE_SCORE, ToolContribution, WeightOf, HasShellMeta, Shellish;
    KnownBelow(r.toolName);
    forall i | 0 <= i < |r.arguments| && r.arguments[i].1.Text?
      ensures Shellish(r.arguments[i].1.s) <==> HasShellMeta(r.arguments[i].1.s)
    {
      ShellishExactly(r.arguments[i].1.s);
    }
    if Forbidding(r) {
      if i, k :| 0 <= i < |r.checks| && 0 <= k < |r.checks[i].hits| && WeightOf(r.checks[i].hits[k]) >= 100 {
        assert FindingReaches(r.checks[i], 100);
      }
      if i :| 0 <= i < |r.checks| && !r.checks[i].passed {
        assert FindingReaches(r.checks[i], 100);
      }
      if i :| 0 <= i < |r.arguments| && r.arguments[i].1.Text? && HasShellMeta(r.arguments[i].1.s) {
        assert ValueContribution(r.arguments[i].1) >= 100;
      }
    }
  }

  /** Rejection, the forbidden level, legacy level 5 and a reason to forbid are one and the same. */
  lemma {:induction false} RejectedExactly(r: Request)
    ensures Assess(r).decision.Reject? <==> Forbidding(r)
    ensures Assess(r).decision.Reject? <==> Assess(r).level.Forbidden?
    ensures Assess(r).decision.Reject? <==> Assess(r).legacyLevel == 5
  {
    hide ScoreOf, MatchedRules, Reaches;
    ScoreReaches(r, 100);
    ForbiddingReaches(r);
    assert SomeFailed(r.checks) ==> Forbidding(r);
  }

  /** What demands at least a confirmation, apart from reasons to forbid. */
  lemma {:induction false} SeventyExactly(r: Request)
    ensures Reaches(r, 70) <==>
            || Forbidding(r)
            || (exists i :: 0 <= i < |r.checks| && r.checks[i].riskLevel in {4, 5})
            || (exists i, k :: 0 <= i < |r.checks| && 0 <= k < |r.checks[i].hits| &&
                               WeightOf(r.checks[i].hits[k]) >= 70)
            || r.toolName in {"safe_cleanup_quarantine", "safe_cleanup_restore"}
  {
    hide TOOL_BASE_SCORE, WeightOf, LevelBase, Forbidding, Schematic, ValueContribution;
    ForbiddingReaches(r);
    ReachesLess(r);
    ToolFloor(r.toolName);
    forall i | 0 <= i < |r.checks| ensures LevelBase(r.checks[i].riskLevel) >= 70 <==> r.checks[i].riskLevel in {4, 5} {
      LevelFloors(r.checks[i].riskLevel, 5);
    }
    forall i | 0 <= i < |r.checks|
      ensures FindingReaches(r.checks[i], 70) <==>
              !r.checks[i].passed || exists k :: 0 <= k < |r.checks[i].hits| && WeightOf(r.checks[i].hits[k]) >= 70
    {
    }
    forall i | 0 <= i < |r.arguments|
      ensures ValueContribution(r.arguments[i].1) >= 70 <==> ValueContribution(r.arguments[i].1) >= 100
    {
      ValueFloors(r.arguments[i].1);
    }
  }

  // What reaches 100 reaches 70.
  lemma {:induction false} ReachesLess(r: Request)
    ensures Reaches(r, 100) ==> Reaches(r, 70)
  {
    hide TOOL_BASE_SCORE, WeightOf, LevelBase, Schematic, ValueContribution, ToolContribution;
    forall i | 0 <= i < |r.checks| && FindingReaches(r.checks[i], 100) ensures FindingReaches(r.checks[i], 70) {
    }
  }

  lemma {:induction false} ToolFloor(toolName: string)
    ensures ToolContribution(toolName) >= 70 <==>
            || (toolName != "" && toolName !in TOOL_BASE_SCORE)
            || toolName in {"safe_cleanup_quarantine", "safe_cleanup_restore"}
  {
    NoBlankTool();
    if toolName in TOOL_BASE_SCORE { MovingTools(toolName); }
    MoversKnown();
  }

  lemma {:induction false} NoBlankTool()
    ensures "" !in TOOL_BASE_SCORE
  {
  }

  lemma {:induction false} MoversKnown()
    ensures "safe_cleanup_quarantine" in TOOL_BASE_SCORE && "safe_cleanup_restore" in TOOL_BASE_SCORE
  {
  }

  lemma {:induction false} FailedForbids(r: Request, i: nat)
    requires i < |r.checks| && !r.checks[i].passed
    ensures Forbidding(r) && Reaches(r, 70)
  {
    assert FindingReaches(r.checks[i], 70);
  }

  /** A request is allowed exactly when nothing in it reaches 70, and otherwise needs confirmation or is refused. */
  lemma {:induction false} AllowedExactly(r: Request)
    ensures Assess(r).decision.Allow? <==> !Reaches(r, 70)
    ensures Assess(r).decision.Confirm? <==> Reaches(r, 70) && !Forbidding(r)
    ensures Assess(r).decision.Confirm? <==> Assess(r).level.High?
  {
    hide ScoreOf, MatchedRules, Reaches, Forbidding;
    ScoreReaches(r, 70);
    RejectedExactly(r);
  }

  /** The four levels, and the five of the older scale, by what the request reaches. */
  lemma {:induction false} LevelsExactly(r: Request)
    ensures Assess(r).level == if Forbidding(r) then Forbidden else if Reaches(r, 70) then High
                               else if Reaches(r, 40) then Medium else Low
    ensures Assess(r).legacyLevel == if Forbidding(r) then 5 else if Reaches(r, 70) then 4
                                     else if Reaches(r, 40) then 3 else if Reaches(r, 20) then 2 else 1
  {
    hide ScoreOf, MatchedRules, Reaches, Forbidding;
    ScoreReaches(r, 100);
    ScoreReaches(r, 70);
    ScoreReaches(r, 40);
    ScoreReaches(r, 20);
    ForbiddingReaches(r);
  }

  /** A tool that changes the system is never simply allowed, and an unknown tool never at all. */
  lemma {:induction false} ToolsGuarded(r: Request)
    requires r.toolName != ""
    ensures r.toolName !in TOOL_BASE_SCORE ==> Assess(r).decision.Reject?
    ensures r.toolName in TOOL_BASE_SCORE && TOOL_BASE_SCORE[r.toolName] >= 70 ==> !Assess(r).decision.Allow?
  {
    hide TOOL_BASE_SCORE, ScoreOf, MatchedRules;
    RejectedExactly(r);
    AllowedExactly(r);
  }

  /** The rules reported: the hits of the checks and the caller's factors, all of them, and an unknown tool. */
  lemma {:induction false} MatchedExactly(r: Request, rule: string)
    ensures rule in Assess(r).matchedRules <==>
            || (exists i :: 0 <= i < |r.checks| && rule in r.checks[i].hits)
            || rule in r.extraFactors
            || (r.toolName != "" && r.toolName !in TOOL_BASE_SCORE && rule == "unclassified_tool:" + r.toolName)
  {
    hide TOOL_BASE_SCORE, ScoreOf;
    HitsAmong(r.checks, rule);
  }

  lemma {:induction false} HitsAmong(checks: seq<Check>, rule: string)
    ensures rule in AllHits(checks) <==> exists i :: 0 <= i < |checks| && rule in checks[i].hits
  {
    if checks != [] {
      var init, last := checks[..|checks| - 1], |checks| - 1;
      HitsAmong(init, rule);
      assert forall i :: 0 <= i < |init| ==> init[i] == checks[i];
      if rule in checks[last].hits { assert rule in AllHits(checks); }
    }
  }

  /** A further check, such as that of a tool's output, never lowers the score. */
  lemma {:induction false} FurtherCheckRaises(r: Request, c: Check)
    ensures ScoreOf(r.(checks := r.checks + [c])) >= ScoreOf(r)
    ensures !c.passed ==> ScoreOf(r.(checks := r.checks + [c])) == 100
  {
    hide MaxOfHits, MaxOfValues, MaxOfFactors, ToolContribution, LevelBase;
    assert (r.checks + [c])[..|r.checks + [c]| - 1] == r.checks;
    ScoreBounded(r.(checks := r.checks + [c]));
  }
}

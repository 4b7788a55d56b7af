/**
 * Use cases and their steps (internal/domain/usecase.go). Durations are
 * whole numbers of a fixed unit; `To` is a CEL value.
 */
module UseCases {
  import opened Wrappers
  import opened Cel

  datatype UseCase = UseCase(
    name: string,
    priority: int,
    node: string,
    trigger: string,
    steps: seq<Step>,
    ttl: int,
    cron: string,
    sourcePath: string)

  datatype Step = Step(
    click: string,
    longtap: string,
    action: string,
    wait: int,
    ifStep: Option<IfStep>,
    trigger: string,
    steps: seq<Step>,
    analyze: seq<AnalyzeRule>,
    setTTL: string,
    usecaseName: string,
    setPath: string,
    to: Val,
    pushUsecase: seq<PushUsecase>)

  datatype IfStep = IfStep(trigger: string, thenSteps: seq<Step>, elseSteps: seq<Step>)

  datatype AnalyzeRule = AnalyzeRule(
    name: string,
    action: string,
    text: string,
    resultType: string,
    expectedColorBg: string,
    expectedColorText: string,
    log: string,
    saveAsRegion: bool,
    pushUseCase: seq<PushUsecase>)

  datatype PushUsecase = PushUsecase(trigger: string, list: seq<UseCase>)

  /** The analysis actions the screenshot analyzer knows. */
  const ValidActions: set<string> := {"text", "exist", "color_check", "findIcon", "findText"}

  /** AnalyzeRule.Validate: None when the action is known, otherwise an error naming the action and the rule. */
  function Validate(r: AnalyzeRule): (err: Option<string>)
    ensures err.None? <==> r.action in ValidActions
    ensures err.Some? ==> err.value == "invalid action '" + r.action + "' in rule '" + r.name + "'"
  {
    match r.action
    case "text" => None
    case "exist" => None
    case "color_check" => None
    case "findIcon" => None
    case "findText" => None
    case _ => Some("invalid action '" + r.action + "' in rule '" + r.name + "'")
  }

  /** Whether a rule is accepted depends on its action alone. */
  lemma ValidateDependsOnlyOnAction(r1: AnalyzeRule, r2: AnalyzeRule)
    requires r1.action == r2.action
    ensures Validate(r1).None? == Validate(r2).None?
  {
  }

  /** The empty action and case variants of the known ones are rejected. */
  lemma ValidateRejectsVariants(r: AnalyzeRule)
    requires r.action in {"", "Text", "EXIST", "findtext", "FindIcon", "colorCheck"}
    ensures Validate(r).Some?
  {
  }

  /**
   * The JSON copy of a use case: `SourcePath` is not serialised, at any
   * depth, so the copy carries an empty one everywhere.
   */
  function Strip(u: UseCase): (r: UseCase)
    ensures r.sourcePath == ""
    ensures r.name == u.name && r.priority == u.priority && r.node == u.node
    ensures r.trigger == u.trigger && r.ttl == u.ttl && r.cron == u.cron
    ensures |r.steps| == |u.steps|
  {
    u.(steps := StripSteps(u.steps), sourcePath := "")
  }

  function StripSteps(ss: seq<Step>): (r: seq<Step>)
    ensures |r| == |ss|
  {
    if ss == [] then [] else [StripStep(ss[0])] + StripSteps(ss[1..])
  }

  function StripStep(s: Step): Step {
    s.(ifStep := if s.ifStep.Some? then Some(StripIf(s.ifStep.value)) else None,
       steps := StripSteps(s.steps),
       analyze := StripRules(s.analyze),
       pushUsecase := StripPushes(s.pushUsecase))
  }

  function StripIf(i: IfStep): IfStep {
    IfStep(i.trigger, StripSteps(i.thenSteps), StripSteps(i.elseSteps))
  }

  function StripRules(rs: seq<AnalyzeRule>): seq<AnalyzeRule> {
    if rs == [] then [] else [rs[0].(pushUseCase := StripPushes(rs[0].pushUseCase))] + StripRules(rs[1..])
  }

  function StripPushes(ps: seq<PushUsecase>): seq<PushUsecase> {
    if ps == [] then [] else [PushUsecase(ps[0].trigger, StripAll(ps[0].list))] + StripPushes(ps[1..])
  }

  function StripAll(us: seq<UseCase>): seq<UseCase> {
    if us == [] then [] else [Strip(us[0])] + StripAll(us[1..])
  }

  /** Serialising twice loses nothing more: stripping is idempotent. */
  lemma {:induction false} StripIdempotent(u: UseCase)
    ensures Strip(Strip(u)) == Strip(u)
  {
    StripStepsIdempotent(u.steps);
  }

  lemma {:induction false} StripStepsIdempotent(ss: seq<Step>)
    ensures StripSteps(StripSteps(ss)) == StripSteps(ss)
  {
    if ss != [] {
      StripStepIdempotent(ss[0]);
      StripStepsIdempotent(ss[1..]);
    }
  }

  lemma {:induction false} StripStepIdempotent(s: Step)
    ensures StripStep(StripStep(s)) == StripStep(s)
  {
    if s.ifStep.Some? {
      StripStepsIdempotent(s.ifStep.value.thenSteps);
      StripStepsIdempotent(s.ifStep.value.elseSteps);
    }
    StripStepsIdempotent(s.steps);
    StripRulesIdempotent(s.analyze);
    StripPushesIdempotent(s.pushUsecase);
  }

  lemma {:induction false} StripRulesIdempotent(rs: seq<AnalyzeRule>)
    ensures StripRules(StripRules(rs)) == StripRules(rs)
  {
    if rs != [] {
      StripPushesIdempotent(rs[0].pushUseCase);
      StripRulesIdempotent(rs[1..]);
    }
  }

  lemma {:induction false} StripPushesIdempotent(ps: seq<PushUsecase>)
    ensures StripPushes(StripPushes(ps)) == StripPushes(ps)
  {
    if ps != [] {
      StripAllIdempotent(ps[0].list);
      StripPushesIdempotent(ps[1..]);
    }
  }

  lemma {:induction false} StripAllIdempotent(us: seq<UseCase>)
    ensures StripAll(StripAll(us)) == StripAll(us)
  {
    if us != [] {
      StripIdempotent(us[0]);
      StripAllIdempotent(us[1..]);
    }
  }
}

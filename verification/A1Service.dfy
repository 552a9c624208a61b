/** Question-first generation with one bounded repair and an incumbent answer. */
module A1Service {
  import opened Prelude
  import opened Sql
  import opened ClauseCritic
  import opened RepairContract
  import opened Validation
  import opened Budgets
  import opened Ollama

  /** A candidate; `tree` is None when its text does not parse as one read query. */
  datatype SqlCandidate = SqlCandidate(text: string, tree: Option<Select>)

  datatype Evaluation = Evaluation(candidate: SqlCandidate, report: ValidationReport, policyAllowed: bool, checks: seq<Finding>)

  datatype CriticMode = CriticOff | Shadow | RepairMode
  datatype ComputePolicy = Legacy | Obligation

  datatype Settings = Settings(
    criticMode: CriticMode, correctionEnabled: bool, computePolicy: ComputePolicy, repairabilityRouting: bool,
    deterministicRepair: bool, sqlText: bool, maxRequests: int, deadline: real)

  /** A compiled contract; the planned tree is absent when it is not eligible. */
  datatype Edit = Edit(eligible: bool, planned: Option<Select>)

  const RECOVERABLE_ERRORS :=
    {SyntaxError, UnknownTable, UnknownColumn, AmbiguousColumn, TypeOrFunctionError, AggregationError, DialectError}

  // ------------------------------------------------------------------ admission

  /** `admit_repair`. */
  predicate AdmitRepair(before: seq<Finding>, after: seq<Finding>, accepted: bool, draft: Select, repair: Select) {
    var found := Contradictions(before);
    && accepted && found != {}
    && draft.order != [] && repair.order != []
    && |draft.order| == |repair.order|
    && (forall i | 0 <= i < |draft.order| :: draft.order[i].key == repair.order[i].key)
    && (RankDirection !in found ==> draft.order == repair.order)
    && draft.order[1..] == repair.order[1..]
    && (RankLimit !in found ==> draft.limit == repair.limit)
    && draft.(order := [], limit := None) == repair.(order := [], limit := None)
    && Contradictions(after) < found
    && Unknowns(after) <= Unknowns(before)
  }

  predicate RepairEnabled(s: Settings) { s.criticMode.RepairMode? && s.correctionEnabled }

  predicate Operational(d: Evaluation) {
    !d.report.accepted && d.report.errorClass.Some? && d.report.errorClass.value in RECOVERABLE_ERRORS
  }

  predicate Eligible(contract: Option<Edit>) { contract.Some? && contract.value.eligible }

  predicate Semantic(s: Settings, d: Evaluation, contract: Option<Edit>) {
    d.report.accepted && Contradictions(d.checks) != {} && (s.computePolicy.Obligation? ==> Eligible(contract))
  }

  /** The repair is the compiled edit; a draft that is not accepted has no contract. */
  predicate OnCpu(s: Settings, d: Evaluation, contract: Option<Edit>) {
    RepairEnabled(s) && Semantic(s, d, contract) && s.deterministicRepair && contract.Some?
  }

  /** The repair is one more generation. */
  predicate ByModel(s: Settings, d: Evaluation, contract: Option<Edit>) {
    RepairEnabled(s) && (Operational(d) || Semantic(s, d, contract)) && !OnCpu(s, d, contract)
  }

  /** Which rule admits a repair; a repair that does not parse is never admitted. */
  predicate Admitted(d: Evaluation, contract: Option<Edit>, r: Evaluation) {
    if Operational(d) then r.report.accepted && Contradictions(r.checks) == {}
    else
      && r.candidate.tree.Some?
      && if contract.Some? then
           contract.value.eligible && AdmitsPlanned(contract.value.planned, r.candidate.tree.value, r.report.accepted, d.checks, r.checks)
         else
           d.candidate.tree.Some?
           && AdmitRepair(d.checks, r.checks, r.report.accepted, d.candidate.tree.value, r.candidate.tree.value)
  }

  /** The answer a run keeps, given the repair it obtained, if any. */
  function Chosen(s: Settings, d: Evaluation, contract: Option<Edit>, repair: Option<Evaluation>): Evaluation {
    if RepairEnabled(s) && (Operational(d) || Semantic(s, d, contract)) && repair.Some? && Admitted(d, contract, repair.value)
    then repair.value else d
  }

  /** `route_critic`: the reasons found in the draft, and the shadow sample. */
  predicate CallCritic(s: Settings, d: Evaluation, contract: Option<Edit>, reasons: bool, sampled: bool) {
    && !s.criticMode.CriticOff? && d.report.accepted
    && if s.computePolicy.Obligation? && s.repairabilityRouting && RepairEnabled(s) then !Eligible(contract) && sampled
       else Contradictions(d.checks) != {} || reasons || sampled
  }

  datatype Status = Clarify | Unsupported | WriteBlocked | GroundingError | ModelError | Succeeded | PolicyBlocked | InvalidSql
                  | ExecutionError | ValidationFailed

  function FinalStatus(e: Evaluation): Status {
    if e.report.accepted then Succeeded
    else if e.report.errorClass == Some(PolicyViolation) then PolicyBlocked
    else if e.report.errorClass == Some(SyntaxError) then InvalidSql
    else if e.policyAllowed then ExecutionError
    else ValidationFailed
  }

  // --------------------------------------------------------------------- the run

  datatype Route = Query | ToClarify | ToUnsupported | ToWriteRequest

  function Declined(route: Route): Status {
    if route.ToClarify? then Clarify else if route.ToWriteRequest? then WriteBlocked else Unsupported
  }

  /** What a run meets: how the question is routed, whether grounding and each prompt
      succeed, the model's replies by stage and attempt, the evaluation of a candidate,
      the contract compiled for a draft, and the critic's routing facts. */
  datatype World = World(
    route: Route, grounds: bool, fits: Stage -> bool,
    replies: Stage -> nat -> Reply<SqlCandidate>, judge: SqlCandidate -> Evaluation, contract: Evaluation -> Option<Edit>,
    reasons: bool, sampled: bool)

  datatype Outcome = Outcome(
    status: Status, draft: Option<Evaluation>, repair: Option<Evaluation>, selected: Option<Evaluation>, contract: Option<Edit>,
    repairAttempted: bool)

  class A1QueryService {
    const provider: OllamaProvider
    const settings: Settings

    constructor (provider: OllamaProvider, settings: Settings)
      ensures this.provider == provider && this.settings == settings
    {
      this.provider, this.settings := provider, settings;
    }

    /** `_structured` and `_generate`: the text route asks once, and the critic is
        always structured. */
    method Generate(budget: RequestBudget, stage: Stage, w: World, clock: Clock) returns (r: Result<SqlCandidate>)
      requires budget.Valid()
      modifies provider`sent, budget`attempts, clock
      ensures budget.Valid()
      ensures provider.sent - old(provider.sent) <= |budget.attempts| - |old(budget.attempts)|
      ensures clock.count >= old(clock.count)
      ensures r.Ok? ==> exists k :: w.replies(stage)(k) == Good(r.value)
      ensures w.fits(stage) && w.replies(stage)(0).Good? && provider.configured && |old(budget.attempts)| < budget.maxRequests
              && Ample(clock, old(clock.count), budget.started, budget.deadline) ==>
                r == Ok(w.replies(stage)(0).value)
    {
      if !w.fits(stage) {
        return Err("prompt exceeds the input token budget");
      }
      if !provider.usesBudget {
        var ok := budget.Consume(stage, clock);
        if !ok {
          return Err("budget exhausted");
        }
      }
      ghost var n;
      if settings.sqlText && !stage.Critic? {
        r, n := provider.GenerateSqlText(budget, stage, w.replies(stage), clock);
      } else {
        r, n := provider.GenerateStructured(budget, stage, w.replies(stage), clock);
      }
    }

    /** `_evaluate`. */
    method Evaluate(budget: RequestBudget, candidate: SqlCandidate, w: World, clock: Clock) returns (r: Result<Evaluation>)
      modifies clock
      ensures clock.count >= old(clock.count)
      ensures r.Ok? ==> r.value == w.judge(candidate)
      ensures r.Ok? <==> clock.readings(old(clock.count)) - budget.started < budget.deadline
    {
      var ok := budget.Check(clock);
      if !ok {
        return Err("Invocation deadline exhausted");
      }
      return Ok(w.judge(candidate));
    }

    /** The critic stage: whatever it answers is kept aside. */
    method Criticize(budget: RequestBudget, d: Evaluation, contract: Option<Edit>, w: World, clock: Clock)
      requires budget.Valid()
      modifies provider`sent, budget`attempts, clock
      ensures budget.Valid()
      ensures provider.sent - old(provider.sent) <= |budget.attempts| - |old(budget.attempts)|
      ensures clock.count >= old(clock.count)
      ensures settings.criticMode.CriticOff? ==> provider.sent == old(provider.sent)
    {
      if CallCritic(settings, d, contract, w.reasons, w.sampled) {
        var can := budget.CanRequest(clock);
        if can {
          var ignored := Generate(budget, Critic, w, clock);
        }
      }
    }

    /** The one bounded repair: a compiled edit, or one more generation. */
    method TryRepair(budget: RequestBudget, d: Evaluation, contract: Option<Edit>, w: World, clock: Clock)
      returns (repair: Option<Evaluation>, attempted: bool)
      requires budget.Valid()
      modifies provider`sent, budget`attempts, clock
      ensures budget.Valid()
      ensures provider.sent - old(provider.sent) <= |budget.attempts| - |old(budget.attempts)|
      ensures attempted ==> RepairEnabled(settings) && (Operational(d) || Semantic(settings, d, contract))
      ensures repair.Some? ==> attempted && (exists c :: repair.value == w.judge(c))
      ensures OnCpu(settings, d, contract) ==>
        && provider.sent == old(provider.sent)
        && (attempted <==> contract.value.planned.Some?
                           && clock.readings(old(clock.count)) - budget.started <= budget.deadline - 1.0)
        && (repair.Some? <==> attempted && clock.readings(old(clock.count) + 1) - budget.started < budget.deadline)
        && (repair.Some? ==> repair.value == w.judge(SqlCandidate("planned", contract.value.planned)))
      ensures ByModel(settings, d, contract) ==>
        && (attempted <==> w.fits(Repair) && |old(budget.attempts)| < budget.maxRequests
                           && clock.readings(old(clock.count)) - budget.started <= budget.deadline - 1.0)
        && (attempted && provider.configured && w.replies(Repair)(0).Good?
            && Ample(clock, old(clock.count), budget.started, budget.deadline) ==>
              repair == Some(w.judge(w.replies(Repair)(0).value)))
    {
      repair, attempted := None, false;
      if !RepairEnabled(settings) || !(Operational(d) || Semantic(settings, d, contract)) {
        return;
      }
      var cpu := Semantic(settings, d, contract) && settings.deterministicRepair && contract.Some?;
      var candidate: SqlCandidate;
      if cpu {
        var remaining := budget.RemainingSeconds(clock);
        if remaining < MINIMUM_SECONDS || contract.value.planned.None? {
          return;
        }
        attempted := true;
        candidate := SqlCandidate("planned", contract.value.planned);
      } else {
        var can := budget.CanRequest(clock);
        if !can || !w.fits(Repair) {
          return;
        }
        attempted := true;
        var response := Generate(budget, Repair, w, clock);
        if response.Err? {
          return;
        }
        candidate := response.value;
      }
      var evaluated := Evaluate(budget, candidate, w, clock);
      if evaluated.Ok? {
        repair := Some(evaluated.value);
      }
    }

    /** `A1QueryService.run`.  Chat requests over draft, critic, repair and format
        retries never exceed the budget, and so never three.  Once a draft has been
        evaluated, the run ends with it or with the repair it admitted: accepted drafts
        end SUCCEEDED, a draft that violates policy is never repaired, and outside
        repair mode the draft is the answer whatever the critic says. */
    method Run(w: World, clock: Clock) returns (r: Result<Outcome>)
      modifies provider`sent, clock
      ensures r.Err? <==> !(1 <= settings.maxRequests <= 3 && settings.deadline > 0.0)
      ensures provider.sent - old(provider.sent) <= if r.Ok? then settings.maxRequests else 0
      ensures r.Ok? ==> Governed(settings, w, r.value)
      ensures r.Ok? && Ample(clock, old(clock.count), clock.readings(old(clock.count)), settings.deadline) ==>
        Completed(settings, provider.configured, w, r.value)
    {
      var started := clock.Now();
      var budget := new RequestBudget(settings.maxRequests, settings.deadline, started);
      if !budget.Admissible() {
        return Err("A1 requires 1..3 requests and a positive deadline");
      }
      if !w.route.Query? {
        return Ok(Outcome(Declined(w.route), None, None, None, None, false));
      }
      if !w.grounds || !w.fits(Draft) {
        return Ok(Outcome(GroundingError, None, None, None, None, false));
      }
      var response := Generate(budget, Draft, w, clock);
      if response.Err? {
        return Ok(Outcome(ModelError, None, None, None, None, false));
      }
      var evaluated := Evaluate(budget, response.value, w, clock);
      if evaluated.Err? {
        return Ok(Outcome(ModelError, None, None, None, None, false));
      }
      var draft := evaluated.value;
      var selected := draft;
      var contract := None;
      if settings.computePolicy.Obligation? && draft.report.accepted {
        contract := w.contract(draft);
      }
      Criticize(budget, draft, contract, w, clock);
      var repair, attempted := TryRepair(budget, draft, contract, w, clock);
      if repair.Some? && Admitted(draft, contract, repair.value) {
        selected := repair.value;
      }
      return Ok(Outcome(FinalStatus(selected), Some(draft), repair, Some(selected), contract, attempted));
    }
  }

  /** What a run does besides when every reading of the clock leaves time: a first
      answer that can be read becomes the draft, and a compiled edit is evaluated. */
  ghost predicate Completed(s: Settings, configured: bool, w: World, o: Outcome) {
    && (w.route.Query? && w.grounds && w.fits(Draft) && configured && w.replies(Draft)(0).Good? ==>
          o.draft == Some(w.judge(w.replies(Draft)(0).value)))
    && (o.draft.Some? && OnCpu(s, o.draft.value, o.contract) && o.contract.value.planned.Some? ==>
          o.repair == Some(w.judge(SqlCandidate("planned", o.contract.value.planned))))
  }

  /** What every finished run satisfies. */
  ghost predicate Governed(s: Settings, w: World, o: Outcome) {
    && (!w.route.Query? ==> o.draft.None? && o.status == Declined(w.route))
    && (w.route.Query? && !(w.grounds && w.fits(Draft)) ==> o.draft.None? && o.status.GroundingError?)
    && (w.route.Query? && w.grounds && w.fits(Draft) && o.draft.None? ==> o.status.ModelError?)
    && (o.draft.None? ==> o.selected.None? && o.repair.None? && !o.repairAttempted && !o.status.Succeeded?)
    && (o.draft.Some? ==>
          (&& DraftOf(w, o.draft.value)
           && o.contract == (if s.computePolicy.Obligation? && o.draft.value.report.accepted then w.contract(o.draft.value) else None)
           && o.selected == Some(Chosen(s, o.draft.value, o.contract, o.repair))
           && o.status == FinalStatus(o.selected.value)
           && (o.repairAttempted ==> RepairEnabled(s) && (Operational(o.draft.value) || Semantic(s, o.draft.value, o.contract)))
           && (o.repair.Some? ==> o.repairAttempted && exists c :: o.repair.value == w.judge(c))
           && (o.repair.Some? && Semantic(s, o.draft.value, o.contract) && s.deterministicRepair && o.contract.Some? ==>
                 o.repair.value == w.judge(SqlCandidate("planned", o.contract.value.planned)))))
  }

  /** The draft is the evaluation of a reply to the draft prompt. */
  ghost predicate DraftOf(w: World, d: Evaluation) { exists k, c :: w.replies(Draft)(k) == Good(c) && d == w.judge(c) }
}

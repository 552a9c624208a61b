/** What the question-first run guarantees, and how it meets the layer 4 edits. */
module A1Facts {
  import opened Prelude
  import opened Sql
  import opened ClauseCritic
  import opened RepairContract
  import opened RankRepairMeaning
  import opened RankExact
  import opened Marked
  import opened Validation
  import opened A1Service
  import Budgets

  /** An accepted draft makes the run succeed; what it answers with is accepted too, and
      is the draft or has strictly fewer contradictions and no new unknown.  A rejected draft is replaced
      only by an accepted repair without contradictions. */
  lemma IncumbentNeverWorsens(s: Settings, w: A1Service.World, o: A1Service.Outcome)
    requires Governed(s, w, o) && o.draft.Some?
    ensures var d, e := o.draft.value, o.selected.value;
      && (d.report.accepted ==> o.status.Succeeded? && e.report.accepted
                                && (e == d || (Contradictions(e.checks) < Contradictions(d.checks) && Unknowns(e.checks) <= Unknowns(d.checks))))
      && (!d.report.accepted && e != d ==> Operational(d) && o.status.Succeeded? && e.report.accepted && Contradictions(e.checks) == {})
      && (o.status.Succeeded? <==> e.report.accepted)
  {
  }

  /** A rejected draft is regenerated for any known error but these eight. */
  lemma RecoverableExactly(d: Evaluation)
    ensures Operational(d) <==>
      && !d.report.accepted && d.report.errorClass.Some?
      && d.report.errorClass.value !in [JoinError, FilterOrValueError, PolicyViolation, Timeout, EmptyResultSuspected, ResultShapeMismatch,
                                        SemanticMismatch, UnknownRuntimeError]
  {
    if d.report.errorClass.Some? {
      var c := d.report.errorClass.value;
      assert c in RECOVERABLE_ERRORS <==>
        c.SyntaxError? || c.UnknownTable? || c.UnknownColumn? || c.AmbiguousColumn? || c.TypeOrFunctionError? || c.AggregationError? || c.DialectError?;
    }
  }

  /** Only with corrections on, in repair mode, is a repair attempted: for a rejected draft
      whose error is one of these seven, or an accepted one with a contradiction -- in
      obligation mode only with an eligible contract. */
  lemma RepairsAreLicensed(s: Settings, w: A1Service.World, o: A1Service.Outcome)
    requires Governed(s, w, o) && o.repairAttempted
    ensures o.draft.Some? && s.criticMode.RepairMode? && s.correctionEnabled
    ensures var r := o.draft.value.report;
      if r.accepted then
        && (exists f :: f in o.draft.value.checks && f.outcome.Contradiction?)
        && (s.computePolicy.Obligation? ==> o.contract.Some? && o.contract.value.eligible)
      else
        && r.errorClass.Some?
        && r.errorClass.value in [SyntaxError, UnknownTable, UnknownColumn, AmbiguousColumn, TypeOrFunctionError, AggregationError, DialectError]
  {
    if o.draft.value.report.accepted {
      var c :| c in Contradictions(o.draft.value.checks);
      var f :| f in o.draft.value.checks && f.outcome.Contradiction?;
    }
  }

  /** With time at every reading of the clock, an accepted draft with a contradiction and an
      eligible contract is repaired on the CPU: the planned tree is evaluated. */
  lemma CpuRepairHappens(s: Settings, configured: bool, w: A1Service.World, o: A1Service.Outcome, t: Select)
    requires Governed(s, w, o) && Completed(s, configured, w, o)
    requires s.criticMode.RepairMode? && s.correctionEnabled && s.deterministicRepair && s.computePolicy.Obligation?
    requires o.draft.Some? && o.draft.value.report.accepted && o.contract == Some(Edit(true, Some(t)))
    requires exists f :: f in o.draft.value.checks && f.outcome.Contradiction?
    ensures o.repairAttempted && o.repair == Some(w.judge(SqlCandidate("planned", Some(t))))
  {
    var f :| f in o.draft.value.checks && f.outcome.Contradiction?;
    assert f.code in Contradictions(o.draft.value.checks);
  }

  /** What the status of a finished run tells. */
  lemma StatusTells(s: Settings, w: A1Service.World, o: A1Service.Outcome)
    requires Governed(s, w, o)
    ensures o.draft.None? ==>
      match w.route
      case ToClarify => o.status.Clarify?
      case ToUnsupported => o.status.Unsupported?
      case ToWriteRequest => o.status.WriteBlocked?
      case Query => o.status == if w.grounds && w.fits(Budgets.Draft) then ModelError else GroundingError
    ensures o.draft.Some? ==> w.route.Query? && w.grounds && w.fits(Budgets.Draft)
    ensures o.draft.Some? ==>
      var e := o.selected.value;
      match o.status
      case Succeeded => e.report.accepted
      case PolicyBlocked => !e.report.accepted && e.report.errorClass == Some(PolicyViolation)
      case InvalidSql => !e.report.accepted && e.report.errorClass == Some(SyntaxError)
      case ExecutionError => Unexplained(e.report) && e.policyAllowed
      case ValidationFailed => Unexplained(e.report) && !e.policyAllowed
      case _ => false
  {
  }

  predicate Unexplained(r: ValidationReport) {
    !r.accepted && r.errorClass != Some(PolicyViolation) && r.errorClass != Some(SyntaxError)
  }

  /** A draft that violates the policy is never repaired: no repair is attempted, and
      the run ends POLICY_BLOCKED with the draft. */
  lemma PolicyViolationIsFinal(s: Settings, w: A1Service.World, o: A1Service.Outcome)
    requires Governed(s, w, o) && o.draft.Some?
    requires !o.draft.value.report.accepted && o.draft.value.report.errorClass == Some(PolicyViolation)
    ensures !o.repairAttempted && o.repair.None? && o.selected == o.draft && o.status.PolicyBlocked?
  {
  }

  /** For one draft, the modes off and shadow, and repair mode with corrections off, select the same candidate and end with
      the same status, whatever the critic, and everything after the draft, returns. */
  lemma OffAndShadowAgree(s: Settings, v: A1Service.World, w: A1Service.World, off: A1Service.Outcome, shadow: A1Service.Outcome)
    requires Governed(s.(criticMode := CriticOff), v, off)
    requires Governed(s.(criticMode := Shadow), w, shadow) || Governed(s.(criticMode := RepairMode, correctionEnabled := false), w, shadow)
    requires off.draft == shadow.draft && off.draft.Some?
    ensures off.selected == shadow.selected == off.draft && off.status == shadow.status
  {
  }

  // -------------------------------------------------------- the legacy admission

  /** The draft with another direction of its first key or another limit, and nothing else. */
  predicate SameButRank(draft: Select, repair: Select) {
    && draft.order != [] && repair.order != []
    && repair == draft.(limit := repair.limit,
                        order := [Ordered(draft.order[0].key, repair.order[0].desc, repair.order[0].nullsFirst)] + draft.order[1..])
  }

  /** The legacy rule admits a repair if and only if it is accepted and changes nothing but
      the direction of the first key, or the limit, or both, each only where the draft
      contradicts the question, and leaves strictly fewer contradictions and no new unknown. */
  lemma AdmitsExactly(before: seq<Finding>, after: seq<Finding>, accepted: bool, draft: Select, repair: Select)
    ensures AdmitRepair(before, after, accepted, draft, repair) <==>
      && accepted && SameButRank(draft, repair)
      && (repair.order != draft.order ==> Finding(RankDirection, Contradiction) in before)
      && (repair.limit != draft.limit ==> Finding(RankLimit, Contradiction) in before)
      && Contradictions(after) < Contradictions(before) && Unknowns(after) <= Unknowns(before)
  {
    assert forall c :: c in Contradictions(before) <==> Finding(c, Contradiction) in before;
    if draft.order != [] && repair.order != [] {
      var o := Ordered(draft.order[0].key, repair.order[0].desc, repair.order[0].nullsFirst);
      if AdmitRepair(before, after, accepted, draft, repair) {
        assert repair.order[0] == o;
        assert repair.order == [repair.order[0]] + repair.order[1..];
      }
      if SameButRank(draft, repair) {
        assert repair.order == [o] + draft.order[1..];
        assert repair.order[1..] == draft.order[1..];
        forall i | 0 <= i < |draft.order| ensures draft.order[i].key == repair.order[i].key {
          if i > 0 { assert draft.order[i] == draft.order[1..][i - 1] == repair.order[i]; }
        }
      }
    }
  }

  ghost predicate SameCores(a: seq<SortKey>, b: seq<SortKey>) {
    |a| == |b| && forall i | 0 <= i < |a| :: a[i].core == b[i].core
  }

  lemma {:induction false} SameKeysSameCores(a: seq<Ordered>, b: seq<Ordered>, s: Scope, outputs: seq<Core>, aggOk: bool)
    requires |a| == |b| && forall i | 0 <= i < |a| :: a[i].key == b[i].key
    ensures ElabOrder(a, s, outputs, aggOk).None? <==> ElabOrder(b, s, outputs, aggOk).None?
    ensures ElabOrder(a, s, outputs, aggOk).Some? ==>
      SameCores(ElabOrder(a, s, outputs, aggOk).value, ElabOrder(b, s, outputs, aggOk).value)
  {
    if a != [] {
      assert forall i | 0 <= i < |a[1..]| :: a[1..][i] == a[i + 1] && b[1..][i] == b[i + 1];
      SameKeysSameCores(a[1..], b[1..], s, outputs, aggOk);
    }
  }

  /** What the legacy rule admits is the draft with another direction of its first key
      or another limit, each only where a contradiction licenses it: it prepares exactly
      when the draft does, to a plan that differs in nothing but those, and so returns
      rows of the very same population, on every database. */
  lemma AdmittedKeepsPopulation(before: seq<Finding>, after: seq<Finding>, accepted: bool, draft: Select, repair: Select, cat: Catalog)
    requires AdmitRepair(before, after, accepted, draft, repair)
    ensures Compile(draft, cat).Some? <==> Compile(repair, cat).Some?
    ensures Compile(draft, cat).Some? ==>
      var p, r := Compile(draft, cat).value, Compile(repair, cat).value;
      && r == p.(order := r.order, limit := r.limit) && SameCores(p.order, r.order)
      && (RankDirection !in Contradictions(before) ==> r.order == p.order)
      && (RankLimit !in Contradictions(before) ==> r.limit == p.limit)
      && (forall db, w :: Population(r, db, w) == Population(p, db, w))
  {
    var outputs := ElabAll(Values(draft.items), SourceScope(draft, cat), true);
    assert draft.items == repair.items && draft.sources == repair.sources && draft.where == repair.where;
    assert draft.group == repair.group && draft.having == repair.having;
    if outputs.Some? {
      var s := Scope(draft.sources, cat.tables, Aliases(draft.items, outputs.value));
      SameKeysSameCores(draft.order, repair.order, s, outputs.value, draft.group != [] || AnyFold(outputs.value));
      if Compile(draft, cat).Some? {
        forall db, w ensures Population(Compile(repair, cat).value, db, w) == Population(Compile(draft, cat).value, db, w) {
          SamePopulation(Compile(draft, cat).value, Compile(repair, cat).value, db, w);
        }
      }
    }
  }

  lemma SamePopulation(p: Plan, r: Plan, db: Database, w: Sql.World)
    requires r == p.(order := r.order, limit := r.limit) && SameCores(p.order, r.order)
    ensures Population(r, db, w) == Population(p, db, w)
  {
    assert OrderCores(r.order) == OrderCores(p.order);
    assert RawContexts(r, db, w) == RawContexts(p, db, w);
    SameHaving(p, r, RawContexts(p, db, w), w);
  }

  lemma {:induction false} SameHaving(p: Plan, r: Plan, contexts: seq<Context>, w: Sql.World)
    requires r.having == p.having && PlanFolds(r) == PlanFolds(p)
    ensures Having(r, contexts, w) == Having(p, contexts, w)
  {
    if contexts != [] { SameHaving(p, r, contexts[1..], w); }
  }

  // ------------------------------------------------ the obligation mode, end to end

  /** The run was given the layer 4 facts of draft `q`: the critic's assessment of it,
      the contract compiled from that, and the assessment of the planned statement. */
  ghost predicate RankRun(s: Settings, w: A1Service.World, o: A1Service.Outcome, question: Question, words: string -> set<string>,
                          q: Select, cat: Catalog) {
    && s.computePolicy.Obligation? && RepairEnabled(s) && s.deterministicRepair
    && o.draft.Some? && o.draft.value.report.accepted && o.draft.value.candidate.tree == Some(q)
    && o.draft.value.checks == Assessment(question, words, q, cat)
    && ContractOf(question, words, q, cat).Some? && q.sources[0].Name() != ""
    && var planned := ContractOf(question, words, q, cat).value.planned;
       (&& w.contract(o.draft.value) == Some(Edit(true, Some(planned)))
        && var e := w.judge(SqlCandidate("planned", Some(planned)));
           e.candidate.tree == Some(planned) && e.checks == Assessment(question, words, planned, cat))
  }

  /** In obligation mode with CPU repair, a run whose draft misses the asked ranking
      ends with the planned statement exactly when that was evaluated and accepted and
      either the question's two languages did not set the direction against each other
      or a wrong limit was fixed as well; otherwise it ends with the draft. */
  lemma RankRunSelects(s: Settings, w: A1Service.World, o: A1Service.Outcome, question: Question, words: string -> set<string>,
                       q: Select, cat: Catalog)
    requires Governed(s, w, o) && RankRun(s, w, o, question, words, q, cat)
    ensures var before := Assessment(question, words, q, cat);
      var settled := !(Disagree(question) && OrderAllowed(q, Contradictions(before)));
      && o.status.Succeeded?
      && o.selected == (if o.repair.Some? && o.repair.value.report.accepted
                           && (settled || Contradictions(before) == {RankDirection, RankLimit}) then o.repair else o.draft)
      && (o.repair.Some? ==> o.repair.value.candidate.tree == Some(ContractOf(question, words, q, cat).value.planned))
  {
    IncumbentNeverWorsens(s, w, o);
    FoundBefore(question, words, q, cat);
    if o.repair.Some? {
      ContractFixpoint(question, words, q, cat, ContractOf(question, words, q, cat).value.planned, o.repair.value.report.accepted);
    }
  }

  /** With time at every reading of the clock the planned statement is evaluated, and it is
      the answer when it is accepted and the ranking is settled. */
  lemma RankRunRepairs(s: Settings, configured: bool, w: A1Service.World, o: A1Service.Outcome,
                       question: Question, words: string -> set<string>, q: Select, cat: Catalog)
    requires Governed(s, w, o) && Completed(s, configured, w, o) && RankRun(s, w, o, question, words, q, cat)
    requires !Disagree(question)
    ensures var planned := w.judge(SqlCandidate("planned", Some(ContractOf(question, words, q, cat).value.planned)));
      o.repair == Some(planned) && o.selected == Some(if planned.report.accepted then planned else o.draft.value)
  {
    RankRunSelects(s, w, o, question, words, q, cat);
    FoundBefore(question, words, q, cat);
    Correctable(question, words, q, cat);
    var c :| c in Contradictions(o.draft.value.checks);
    assert Finding(c, Contradiction) in o.draft.value.checks;
    CpuRepairHappens(s, configured, w, o, ContractOf(question, words, q, cat).value.planned);
  }

  /** ... and then every answer to the run's statement is the asked top k of the draft's
      own population, on every database and however SQLite breaks ties, if and only if
      the order is the asked one, or no row is asked for, or no output shows a row. */
  lemma RankRunAnswers(s: Settings, w: A1Service.World, o: A1Service.Outcome, question: Question, words: string -> set<string>,
                       q: Select, cat: Catalog)
    requires Governed(s, w, o) && RankRun(s, w, o, question, words, q, cat)
    requires o.repair.Some? && o.selected == o.repair
    requires Compile(q, cat).Some? && DistinctTables(cat.tables)
    ensures o.status.Succeeded? && o.selected.value.candidate.tree.Some? && HasDirection(question)
    ensures var p, c := Compile(o.selected.value.candidate.tree.value, cat), ContractOf(question, words, q, cat).value;
      && p.Some? && (forall db, v :: SourceRows(p.value, db, v) == SourceRows(Compile(q, cat).value, db, v))
      && (AlwaysTopK(p.value, question.rank.value.count, q.sources[0].Name(), c.metric.1, AskedDirection(question))
          <==> OrderAsked(question, words, q, cat) || question.rank.value.count == 0 || !ShowsRows(q))
  {
    RankRunSelects(s, w, o, question, words, q, cat);
    PlannedPlan(question, words, q, cat);
    RankRepairExactly(question, words, q, cat);
  }
}

/** The rank edit contract, and its admission. */
module RepairContract {
  import opened Prelude
  import opened Sql
  import opened OutputContract
  import opened RankBinding
  import opened ClauseCritic

  datatype Field = OrderField | LimitField
  datatype Contract = Contract(targets: set<Code>, allowed: seq<Field>, metric: Owned, planned: Select)

  const RANK_CODES := {RankOrderMissing, RankDirection, RankLimit}
  const MAX_COUNT := 200

  /** The direction the compiler asks for: the English word wins. */
  function AskedDirection(question: Question): bool
    requires HasDirection(question)
  {
    if question.directions != [] then question.directions[0] else question.rank.value.high
  }

  /** The statement the contract edits, before anything is edited. */
  predicate EditableShape(q: Select) {
    !q.nested && !FindsAgg(q) && |q.sources| == 1 && q.group == [] && q.having == None && q.offset == None && !q.distinct
  }

  predicate Obliged(question: Question, q: Select, bound: Option<Owned>, codes: set<Code>) {
    && codes != {} && codes <= RANK_CODES && EditableShape(q)
    && bound.Some? && bound.value.0 == q.sources[0].table
    && question.rank.Some? && HasDirection(question) && question.rank.value.count <= MAX_COUNT
  }

  function MetricKey(q: Select, bound: Owned, descending: bool): Ordered
    requires |q.sources| == 1
  {
    Ordered(Column(q.sources[0].Name(), bound.1), descending, !descending)
  }

  /** The planned ORDER BY, or None when the existing key is not the metric. */
  function PlannedOrder(question: Question, q: Select, bound: Owned, codes: set<Code>, tables: seq<TableInfo>): Option<seq<Ordered>>
    requires |q.sources| == 1 && HasDirection(question)
  {
    var descending := AskedDirection(question);
    if q.order == [] then Some([MetricKey(q, bound, descending)])
    else if !OrderMatches(q, Some(bound), tables) then None
    else if RankDirection in codes then
      Some([q.order[0].(desc := descending, nullsFirst := !descending)] + q.order[1..])
    else Some(q.order)
  }

  function PlannedLimit(question: Question, q: Select, codes: set<Code>): Option<Expr>
    requires question.rank.Some?
  {
    if RankLimit in codes then Some(IntLit(question.rank.value.count)) else q.limit
  }

  predicate OrderAllowed(q: Select, codes: set<Code>) { q.order == [] || RankDirection in codes }

  function Allowed(q: Select, codes: set<Code>): seq<Field> {
    (if OrderAllowed(q, codes) then [OrderField] else []) + (if RankLimit in codes then [LimitField] else [])
  }

  /** `compile_repair_contract`; None when the contract is not eligible. */
  function PlanRepair(question: Question, words: string -> set<string>, q: Select, cat: Catalog, codes: set<Code>): Option<Contract> {
    var bound := BindMetric(cat.tables, question.words, words);
    if !Obliged(question, q, bound, codes) then None
    else
      var order := PlannedOrder(question, q, bound.value, codes, cat.tables);
      if order.None? || Allowed(q, codes) == [] then None
      else Some(Contract(codes, Allowed(q, codes), bound.value, q.(order := order.value, limit := PlannedLimit(question, q, codes))))
  }

  /** `compile_repair_contract`, editing a copy of the statement field by field. */
  method CompileRepairContract(question: Question, words: string -> set<string>, q: Select, cat: Catalog, codes: set<Code>)
    returns (r: Option<Contract>)
    ensures r == PlanRepair(question, words, q, cat, codes)
  {
    if codes == {} || !(codes <= RANK_CODES) || !EditableShape(q) {
      return None;
    }
    var bound := BindMetric(cat.tables, question.words, words);
    if bound.None? || bound.value.0 != q.sources[0].table {
      return None;
    }
    if question.rank.None? || !HasDirection(question) || question.rank.value.count > MAX_COUNT {
      return None;
    }
    var descending := AskedDirection(question);
    var repaired := q;
    var allowed: seq<Field> := [];
    if q.order == [] {
      repaired := repaired.(order := [MetricKey(q, bound.value, descending)]);
      allowed := allowed + [OrderField];
    } else if !OrderMatches(q, bound, cat.tables) {
      return None;
    } else if RankDirection in codes {
      repaired := repaired.(order := [q.order[0].(desc := descending, nullsFirst := !descending)] + q.order[1..]);
      allowed := allowed + [OrderField];
    }
    if RankLimit in codes {
      repaired := repaired.(limit := Some(IntLit(question.rank.value.count)));
      allowed := allowed + [LimitField];
    }
    assert allowed == Allowed(q, codes);
    if allowed == [] {
      return None;
    }
    return Some(Contract(codes, allowed, bound.value, repaired));
  }

  /** `admit_contract_repair`, given the tree an eligible contract planned. */
  predicate AdmitsPlanned(planned: Option<Select>, tree: Select, accepted: bool, before: seq<Finding>, after: seq<Finding>) {
    && planned.Some? && accepted
    && tree == planned.value
    && Contradictions(after) < Contradictions(before)
    && Unknowns(after) <= Unknowns(before)
  }

  function PlannedTree(contract: Option<Contract>): Option<Select> {
    if contract.Some? then Some(contract.value.planned) else None
  }

  /** `admit_contract_repair`; None stands for an ineligible contract. */
  predicate Admits(contract: Option<Contract>, tree: Select, accepted: bool, before: seq<Finding>, after: seq<Finding>) {
    AdmitsPlanned(PlannedTree(contract), tree, accepted, before, after)
  }

  // --------------------------------------------------------------- the fixpoint

  /** The Vietnamese and the first English direction word contradict each other. */
  predicate Disagree(question: Question) {
    question.rank.Some? && question.rank.value.Vietnamese? && question.directions != [] && question.directions[0] != question.rank.value.high
  }

  /** The contract compiled from the critic's own assessment of the statement. */
  ghost function ContractOf(question: Question, words: string -> set<string>, q: Select, cat: Catalog): Option<Contract> {
    PlanRepair(question, words, q, cat, Contradictions(Assessment(question, words, q, cat)))
  }

  const OPEN_CODES := {SemanticCoverageUnknown, OutputBindingUnknown, PopulationUnknown, EntityGrainUnknown}

  lemma CodesSplit(a: seq<Finding>, b: seq<Finding>, outcome: Outcome)
    ensures Codes(a + b, outcome) == Codes(a, outcome) + Codes(b, outcome)
  {
    forall c | c in Codes(a, outcome) + Codes(b, outcome) ensures c in Codes(a + b, outcome) {
      var f :| (f in a || f in b) && f.outcome == outcome && f.code == c;
      assert f in a + b;
    }
  }

  lemma CodesOne(f: Finding, outcome: Outcome)
    ensures Codes([f], outcome) == if f.outcome == outcome then {f.code} else {}
  {
    assert f in [f];
  }

  lemma CodesOpen()
    ensures Unknowns(OPEN_QUESTIONS) == OPEN_CODES && Contradictions(OPEN_QUESTIONS) == {}
  {
    var o := OPEN_QUESTIONS;
    assert o[0] in o && o[1] in o && o[2] in o && o[3] in o;
  }

  lemma CodesOf(question: Question, words: string -> set<string>, q: Select, cat: Catalog, outcome: Outcome)
    requires q.offset == None && !FindsAgg(q)
    ensures var a := Assessment(question, words, q, cat);
            var bound := BindMetric(cat.tables, question.words, words);
            Codes(a, outcome) == Codes(OPEN_QUESTIONS, outcome) +
              (if InScope(question, q) then Codes(OrderFindings(question, q, bound, cat.tables), outcome) + Codes(LimitFindings(question, q), outcome)
               else if outcome == Unknown then {RankIntentUnknown} else {})
  {
    var bound := BindMetric(cat.tables, question.words, words);
    if InScope(question, q) {
      var o, l := OrderFindings(question, q, bound, cat.tables), LimitFindings(question, q);
      assert Assessment(question, words, q, cat) == (o + l) + OPEN_QUESTIONS;
      CodesSplit(o + l, OPEN_QUESTIONS, outcome);
      CodesSplit(o, l, outcome);
    } else {
      assert Assessment(question, words, q, cat) == [Finding(RankIntentUnknown, Unknown)] + OPEN_QUESTIONS;
      CodesSplit([Finding(RankIntentUnknown, Unknown)], OPEN_QUESTIONS, outcome);
      CodesOne(Finding(RankIntentUnknown, Unknown), outcome);
    }
  }

  lemma OrderCodes(question: Question, q: Select, bound: Option<Owned>, tables: seq<TableInfo>, outcome: Outcome)
    requires question.rank.Some?
    ensures Codes(OrderFindings(question, q, bound, tables), outcome) ==
      if q.order == [] then (if outcome == Contradiction then {RankOrderMissing} else {})
      else if !HasDirection(question) then {}
      else if !OrderMatches(q, bound, tables) then (if outcome == Unknown then {MetricBindingUnknown} else {})
      else if outcome == (if q.order[0].desc != CriticDirection(question) then Contradiction else Supported) then {RankDirection} else {}
  {
    var o := OrderFindings(question, q, bound, tables);
    if o != [] { CodesOne(o[0], outcome); assert o == [o[0]]; }
  }

  lemma LimitCodes(question: Question, q: Select, outcome: Outcome)
    requires question.rank.Some? && q.offset == None
    ensures Codes(LimitFindings(question, q), outcome) ==
      if outcome == (if q.limit == Some(IntLit(question.rank.value.count)) then Supported else Contradiction) then {RankLimit} else {}
  {
    CodesOne(LimitFindings(question, q)[0], outcome);
  }

  // ------------------------------------------------------------- what is planned

  lemma OwnerOfSource(q: Select, bound: Owned, tables: seq<TableInfo>, descending: bool)
    requires |q.sources| == 1 && q.sources[0].Name() != "" && bound.0 == q.sources[0].table
    ensures OwnerOf(MetricKey(q, bound, descending).key, q, tables) == Some(bound)
  {
    assert AliasMap(q.sources) == map[q.sources[0].Name() := q.sources[0].table] + AliasMap(q.sources[1..]);
    assert q.sources[1..] == [];
  }

  /** The planned statement orders by the metric; its direction is the asked one if the order was touched. */
  lemma PlannedMatches(question: Question, words: string -> set<string>, q: Select, cat: Catalog, codes: set<Code>)
    requires PlanRepair(question, words, q, cat, codes).Some? && q.sources[0].Name() != ""
    ensures var c := PlanRepair(question, words, q, cat, codes).value;
      && c.planned.order != [] && OrderMatches(c.planned, Some(c.metric), cat.tables)
      && (OrderAllowed(q, codes) ==> c.planned.order[0].desc == AskedDirection(question))
      && (!OrderAllowed(q, codes) ==> c.planned.order == q.order)
      && !FindsAgg(c.planned)
  {
    var c := PlanRepair(question, words, q, cat, codes).value;
    if q.order == [] {
      OwnerOfSource(q, c.metric, cat.tables, AskedDirection(question));
    } else {
      assert forall i | 0 <= i < |c.planned.order| :: c.planned.order[i].key == q.order[i].key;
    }
  }

  /** What the critic found before an eligible contract. */
  lemma FoundBefore(question: Question, words: string -> set<string>, q: Select, cat: Catalog)
    requires ContractOf(question, words, q, cat).Some?
    ensures var a := Assessment(question, words, q, cat);
      && InScope(question, q) && OPEN_CODES <= Unknowns(a)
      && Contradictions(a) ==
           (if q.order == [] then {RankOrderMissing} else if q.order[0].desc != CriticDirection(question) then {RankDirection} else {})
           + (if q.limit == Some(IntLit(question.rank.value.count)) then {} else {RankLimit})
  {
    var bound := BindMetric(cat.tables, question.words, words);
    CodesOpen();
    CodesOf(question, words, q, cat, Contradiction);
    CodesOf(question, words, q, cat, Unknown);
    assert InScope(question, q);
    OrderCodes(question, q, bound, cat.tables, Contradiction);
    LimitCodes(question, q, Contradiction);
  }

  /** What the critic finds in a statement ordered by the metric and limited as asked. */
  lemma FoundAfter(question: Question, words: string -> set<string>, r: Select, cat: Catalog)
    requires InScope(question, r) && r.offset == None && !FindsAgg(r) && HasDirection(question) && r.order != []
    requires OrderMatches(r, BindMetric(cat.tables, question.words, words), cat.tables)
    requires r.limit == Some(IntLit(question.rank.value.count))
    ensures var a := Assessment(question, words, r, cat);
      && Unknowns(a) == OPEN_CODES
      && Contradictions(a) == if r.order[0].desc != CriticDirection(question) then {RankDirection} else {}
  {
    var bound := BindMetric(cat.tables, question.words, words);
    CodesOpen();
    CodesOf(question, words, r, cat, Contradiction);
    CodesOf(question, words, r, cat, Unknown);
    OrderCodes(question, r, bound, cat.tables, Contradiction);
    OrderCodes(question, r, bound, cat.tables, Unknown);
    LimitCodes(question, r, Contradiction);
    LimitCodes(question, r, Unknown);
  }

  /** Re-assessing the planned statement. */
  lemma Reassessed(question: Question, words: string -> set<string>, q: Select, cat: Catalog)
    requires ContractOf(question, words, q, cat).Some? && q.sources[0].Name() != ""
    ensures var codes := Contradictions(Assessment(question, words, q, cat));
            var after := Assessment(question, words, ContractOf(question, words, q, cat).value.planned, cat);
      && Contradictions(after) == (if Disagree(question) && OrderAllowed(q, codes) then {RankDirection} else {})
      && Unknowns(after) <= Unknowns(Assessment(question, words, q, cat))
  {
    var codes := Contradictions(Assessment(question, words, q, cat));
    var r := ContractOf(question, words, q, cat).value.planned;
    FoundBefore(question, words, q, cat);
    PlannedMatches(question, words, q, cat, codes);
    FoundAfter(question, words, r, cat);
  }

  /** Compile, assess, admit: the planned statement is the only one that can be
      admitted; it leaves no contradiction -- and then it is admitted whenever it
      validates -- if and only if the edit did not set a direction on which the
      two languages of the question disagree.  In that case the direction
      contradiction stays, and admission rests on the other fixes alone. */
  lemma ContractFixpoint(question: Question, words: string -> set<string>, q: Select, cat: Catalog, tree: Select, accepted: bool)
    requires ContractOf(question, words, q, cat).Some? && q.sources[0].Name() != ""
    ensures var before := Assessment(question, words, q, cat);
            var contract := ContractOf(question, words, q, cat);
            var after := Assessment(question, words, tree, cat);
            var settled := !(Disagree(question) && OrderAllowed(q, Contradictions(before)));
      && (Admits(contract, tree, accepted, before, after) <==>
            accepted && tree == contract.value.planned
            && (settled || Contradictions(before) == {RankDirection, RankLimit}))
      && (tree == contract.value.planned ==> (Contradictions(after) == {} <==> settled))
  {
    Reassessed(question, words, q, cat);
    Correctable(question, words, q, cat);
    var before := Assessment(question, words, q, cat);
    var contract := ContractOf(question, words, q, cat).value;
    AdmittedWhen(contract, tree, accepted, before, Assessment(question, words, tree, cat),
                 !(Disagree(question) && OrderAllowed(q, Contradictions(before))));
  }

  /** An eligible contract answers a contradiction on order, direction or limit. */
  lemma Correctable(question: Question, words: string -> set<string>, q: Select, cat: Catalog)
    requires ContractOf(question, words, q, cat).Some?
    ensures var codes := Contradictions(Assessment(question, words, q, cat));
      codes <= {RankOrderMissing, RankDirection, RankLimit} && codes != {} && !(RankOrderMissing in codes && RankDirection in codes)
  {
    FoundBefore(question, words, q, cat);
  }

  /** Only the planned statement can be admitted, and then by what is left to correct. */
  lemma AdmittedWhen(contract: Contract, tree: Select, accepted: bool, before: seq<Finding>, after: seq<Finding>, settled: bool)
    requires Contradictions(before) <= {RankOrderMissing, RankDirection, RankLimit} && Contradictions(before) != {}
    requires !(RankOrderMissing in Contradictions(before) && RankDirection in Contradictions(before))
    requires tree == contract.planned ==>
      && Contradictions(after) == (if settled then {} else {RankDirection})
      && Unknowns(after) <= Unknowns(before)
    ensures Admits(Some(contract), tree, accepted, before, after) <==>
      accepted && tree == contract.planned && (settled || Contradictions(before) == {RankDirection, RankLimit})
  {
    StillDirected(Contradictions(before));
    assert PlannedTree(Some(contract)) == Some(contract.planned);
  }

  lemma StillDirected(codes: set<Code>)
    requires codes <= {RankOrderMissing, RankDirection, RankLimit} && !(RankOrderMissing in codes && RankDirection in codes)
    ensures {RankDirection} < codes <==> codes == {RankDirection, RankLimit}
  {
  }
}

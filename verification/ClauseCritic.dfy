/** The clause critic: explicit ranking obligations and open questions. */
module ClauseCritic {
  import opened Prelude
  import opened Sql
  import opened OutputContract
  import opened GroupRank
  import opened RankBinding

  /** "top 3", "bottom 3" or "3 ... cao nhat", "3 ... thap nhat". */
  datatype RankPhrase = English(top: bool, count: nat) | Vietnamese(high: bool, count: nat)

  /** What is read off the question: its rank phrase, its direction words in order
      (true for highest, largest, most), whether it negates or speaks of ties. */
  datatype Question = Question(rank: Option<RankPhrase>, directions: seq<bool>, ambiguous: bool, words: set<string>)

  datatype Code =
    | RankOrderMissing | RankDirection | RankLimit
    | MetricBindingUnknown | RankOffsetUnknown | RankIntentUnknown | SiblingGrainUnknown
    | SemanticCoverageUnknown | OutputBindingUnknown | PopulationUnknown | EntityGrainUnknown
    | RequestedProjection | RequestedRanking | RequestedScalar

  datatype Outcome = Supported | Contradiction | Unknown
  datatype Finding = Finding(code: Code, outcome: Outcome)

  function Codes(findings: seq<Finding>, outcome: Outcome): set<Code> {
    set f | f in findings && f.outcome == outcome :: f.code
  }

  /** `contradictions` of an assessment. */
  function Contradictions(findings: seq<Finding>): set<Code> { Codes(findings, Contradiction) }
  function Unknowns(findings: seq<Finding>): set<Code> { Codes(findings, Unknown) }

  predicate OnePolarity(directions: seq<bool>) {
    forall i, j | 0 <= i < |directions| && 0 <= j < |directions| :: directions[i] == directions[j]
  }

  /** The direction the critic checks: the Vietnamese word wins, then the English one. */
  function CriticDirection(question: Question): bool
    requires question.rank.Some?
  {
    match question.rank.value
    case Vietnamese(high, _) => high
    case English(top, _) => if question.directions != [] then question.directions[0] else top
  }

  predicate HasDirection(question: Question) { question.directions != [] || (question.rank.Some? && question.rank.value.Vietnamese?) }

  predicate InScope(question: Question, q: Select) {
    && question.rank.Some? && !q.nested && !(FindsAgg(q) && q.group == [])
    && !question.ambiguous && OnePolarity(question.directions)
  }

  function OrderFindings(question: Question, q: Select, bound: Option<Owned>, tables: seq<TableInfo>): seq<Finding>
    requires question.rank.Some?
  {
    if q.order == [] then [Finding(RankOrderMissing, Contradiction)]
    else if HasDirection(question) && q.order[0].key.Column? && OrderMatches(q, bound, tables) then
      [Finding(RankDirection, if q.order[0].desc != CriticDirection(question) then Contradiction else Supported)]
    else if HasDirection(question) then [Finding(MetricBindingUnknown, Unknown)]
    else []
  }

  function LimitFindings(question: Question, q: Select): seq<Finding>
    requires question.rank.Some?
  {
    if q.offset.Some? then [Finding(RankOffsetUnknown, Unknown)]
    else [Finding(RankLimit, if q.limit == Some(IntLit(question.rank.value.count)) then Supported else Contradiction)]
  }

  /** Only a primary key makes columns unique. */
  predicate UniqueKey(table: TableInfo, columns: seq<string>) {
    var primary := PrimaryKey(table.columns);
    primary != [] && forall i | 0 <= i < |primary| :: primary[i] in columns
  }

  /** A possible fan-out of `parent` through `child`. */
  predicate FansOut(parent: TableInfo, child: TableInfo) {
    exists i | 0 <= i < |child.foreignKeys| ::
      child.foreignKeys[i].targetTable == parent.name && !UniqueKey(child, child.foreignKeys[i].fromColumns)
  }

  predicate IsChild(sources: seq<Source>, tables: seq<TableInfo>, i: nat, j: nat)
    requires i < |sources| && j < |sources|
  {
    var parent, child := TableNamed(tables, sources[i].table), TableNamed(tables, sources[j].table);
    i != j && parent.Some? && child.Some? && FansOut(parent.value, child.value)
  }

  /** Source `i` has two other sources that may multiply its rows. */
  ghost predicate HasSiblings(sources: seq<Source>, tables: seq<TableInfo>, i: nat)
    requires i < |sources|
  {
    exists j, k | 0 <= j < k < |sources| :: IsChild(sources, tables, i, j) && IsChild(sources, tables, i, k)
  }

  ghost predicate SiblingRisk(sources: seq<Source>, tables: seq<TableInfo>) {
    exists i | 0 <= i < |sources| :: HasSiblings(sources, tables, i)
  }

  const OPEN_QUESTIONS := [Finding(SemanticCoverageUnknown, Unknown), Finding(OutputBindingUnknown, Unknown),
                           Finding(PopulationUnknown, Unknown), Finding(EntityGrainUnknown, Unknown)]

  /** `assess_clauses`. */
  ghost function Assessment(question: Question, words: string -> set<string>, q: Select, cat: Catalog): seq<Finding> {
    var bound := BindMetric(cat.tables, question.words, words);
    (if InScope(question, q) then OrderFindings(question, q, bound, cat.tables) + LimitFindings(question, q)
     else [Finding(RankIntentUnknown, Unknown)])
    + (if !q.nested && FindsAgg(q) && SiblingRisk(q.sources, cat.tables) then [Finding(SiblingGrainUnknown, Unknown)] else [])
    + OPEN_QUESTIONS
  }

  /** The inner loop: the positions of the sources that may multiply source `i`. */
  method ChildrenOf(sources: seq<Source>, tables: seq<TableInfo>, i: nat) returns (children: seq<nat>)
    requires i < |sources|
    ensures |children| >= 2 <==> HasSiblings(sources, tables, i)
  {
    children := [];
    for j := 0 to |sources|
      invariant forall k | 0 <= k < |children| :: children[k] < j && IsChild(sources, tables, i, children[k])
      invariant forall k, l | 0 <= k < l < |children| :: children[k] < children[l]
      invariant forall b | 0 <= b < j && IsChild(sources, tables, i, b) :: b in children
    {
      if IsChild(sources, tables, i, j) {
        children := children + [j];
      }
    }
    TwoChildren(sources, tables, i, children);
  }

  lemma TwoChildren(sources: seq<Source>, tables: seq<TableInfo>, i: nat, children: seq<nat>)
    requires i < |sources|
    requires forall k | 0 <= k < |children| :: children[k] < |sources| && IsChild(sources, tables, i, children[k])
    requires forall k, l | 0 <= k < l < |children| :: children[k] < children[l]
    requires forall b | 0 <= b < |sources| && IsChild(sources, tables, i, b) :: b in children
    ensures |children| >= 2 <==> HasSiblings(sources, tables, i)
  {
    if |children| >= 2 {
      assert IsChild(sources, tables, i, children[0]) && IsChild(sources, tables, i, children[1]);
    }
    if HasSiblings(sources, tables, i) {
      var j, k :| 0 <= j < k < |sources| && IsChild(sources, tables, i, j) && IsChild(sources, tables, i, k);
      assert j in children && k in children;
    }
  }

  /** The search for sibling sources, with its early exit. */
  method FindSiblingRisk(sources: seq<Source>, tables: seq<TableInfo>) returns (risk: bool)
    ensures risk == SiblingRisk(sources, tables)
  {
    for i := 0 to |sources|
      invariant forall a | 0 <= a < i :: !HasSiblings(sources, tables, a)
    {
      var children := ChildrenOf(sources, tables, i);
      if |children| >= 2 {
        return true;
      }
    }
    return false;
  }

  /** The checks of a rank phrase in scope. */
  method AssessRank(question: Question, words: string -> set<string>, q: Select, cat: Catalog) returns (findings: seq<Finding>)
    requires question.rank.Some?
    ensures findings == OrderFindings(question, q, BindMetric(cat.tables, question.words, words), cat.tables) + LimitFindings(question, q)
  {
    findings := [];
    var bound := BindMetric(cat.tables, question.words, words);
    var descending := question.rank.value.English? && question.rank.value.top;
    if question.directions != [] {
      descending := question.directions[0];
    }
    if question.rank.value.Vietnamese? {
      descending := question.rank.value.high;
    }
    if q.order == [] {
      findings := findings + [Finding(RankOrderMissing, Contradiction)];
    } else if HasDirection(question) && q.order[0].key.Column? && OrderMatches(q, bound, cat.tables) {
      var wrong := q.order[0].desc != descending;
      findings := findings + [Finding(RankDirection, if wrong then Contradiction else Supported)];
    } else if HasDirection(question) {
      findings := findings + [Finding(MetricBindingUnknown, Unknown)];
    }
    if q.offset.Some? {
      findings := findings + [Finding(RankOffsetUnknown, Unknown)];
    } else {
      var actual := q.limit.Some? && q.limit.value.IntLit? && q.limit.value.n == question.rank.value.count;
      findings := findings + [Finding(RankLimit, if actual then Supported else Contradiction)];
    }
  }

  /** `assess_clauses`, appending findings clause by clause. */
  method AssessClauses(question: Question, words: string -> set<string>, q: Select, cat: Catalog) returns (findings: seq<Finding>)
    ensures findings == Assessment(question, words, q, cat)
  {
    findings := [];
    if InScope(question, q) {
      findings := AssessRank(question, words, q, cat);
    } else {
      findings := findings + [Finding(RankIntentUnknown, Unknown)];
    }
    if !q.nested {
      var risk := FindSiblingRisk(q.sources, cat.tables);
      if risk && FindsAgg(q) {
        findings := findings + [Finding(SiblingGrainUnknown, Unknown)];
      }
    }
    findings := findings + OPEN_QUESTIONS;
  }
}

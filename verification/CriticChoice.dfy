/** What the clause critic finds, read off the question, the statement and the catalog. */
module CriticChoice {
  import opened Prelude
  import opened Sql
  import opened OutputContract
  import opened GroupRank
  import opened RankBinding
  import opened ClauseCritic

  // ------------------------------------------------------------ the fan-out

  ghost predicate AgreeOn(r: string -> int, s: string -> int, columns: seq<string>) {
    forall n | n in columns :: r(n) == s(n)
  }

  /** Two records that agree on `columns` agree on every primary key column, and there is one. */
  ghost predicate Determines(table: TableInfo, columns: seq<string>) {
    && (exists k :: 0 <= k < |table.columns| && table.columns[k].primaryKeyPosition > 0)
    && forall r: string -> int, s: string -> int | AgreeOn(r, s, columns) ::
         forall k | 0 <= k < |table.columns| && table.columns[k].primaryKeyPosition > 0 ::
           r(table.columns[k].name) == s(table.columns[k].name)
  }

  lemma {:induction false} PrimaryKeyHas(columns: seq<ColumnInfo>, n: string)
    ensures n in PrimaryKey(columns) <==> exists k :: 0 <= k < |columns| && columns[k].primaryKeyPosition > 0 && columns[k].name == n
  {
    if columns != [] {
      PrimaryKeyHas(columns[1..], n);
      assert forall k | 0 <= k < |columns| - 1 :: columns[1..][k] == columns[k + 1];
      assert forall k | 1 <= k < |columns| :: columns[k] == columns[1..][k - 1];
    }
  }

  lemma AllPrimary(table: TableInfo)
    ensures forall n :: n in PrimaryKey(table.columns) <==>
      exists k :: 0 <= k < |table.columns| && table.columns[k].primaryKeyPosition > 0 && table.columns[k].name == n
  {
    forall n ensures n in PrimaryKey(table.columns) <==>
      exists k :: 0 <= k < |table.columns| && table.columns[k].primaryKeyPosition > 0 && table.columns[k].name == n
    {
      PrimaryKeyHas(table.columns, n);
    }
  }

  /** A primary key column outside `columns` sets two records apart that agree on them. */
  lemma KeyColumnNeeded(table: TableInfo, columns: seq<string>, k: nat)
    requires Determines(table, columns) && k < |table.columns| && table.columns[k].primaryKeyPosition > 0
    ensures table.columns[k].name in columns
  {
    var n := table.columns[k].name;
    var r: string -> int, s: string -> int := m => 0, m => if m == n then 1 else 0;
    if n !in columns {
      assert AgreeOn(r, s, columns);
    }
  }

  /** The critic takes columns for a key exactly when they determine the primary key. */
  lemma UniqueKeyMeans(table: TableInfo, columns: seq<string>)
    ensures UniqueKey(table, columns) <==> Determines(table, columns)
  {
    var primary := PrimaryKey(table.columns);
    AllPrimary(table);
    if UniqueKey(table, columns) {
      assert primary[0] in primary;
      forall k | 0 <= k < |table.columns| && table.columns[k].primaryKeyPosition > 0 ensures table.columns[k].name in columns {
        assert table.columns[k].name in primary;
      }
    }
    if Determines(table, columns) {
      var k :| 0 <= k < |table.columns| && table.columns[k].primaryKeyPosition > 0;
      var n := table.columns[k].name;
      assert n in primary;
      assert primary != [];
      forall i | 0 <= i < |primary| ensures primary[i] in columns {
        assert primary[i] in primary;
        var l :| 0 <= l < |table.columns| && table.columns[l].primaryKeyPosition > 0 && table.columns[l].name == primary[i];
        KeyColumnNeeded(table, columns, l);
      }
    }
  }

  /** Source `i` names table `t` of the catalog, its first of that name. */
  predicate NamesTable(sources: seq<Source>, tables: seq<TableInfo>, i: nat, t: nat) {
    && i < |sources| && t < |tables| && tables[t].name == sources[i].table
    && forall u | 0 <= u < t :: tables[u].name != sources[i].table
  }

  /** A foreign key of table `c` refers to table `p` by columns that determine no record of `c`. */
  ghost predicate MayMultiply(tables: seq<TableInfo>, p: nat, c: nat)
    requires p < |tables| && c < |tables|
  {
    exists f | 0 <= f < |tables[c].foreignKeys| ::
      tables[c].foreignKeys[f].targetTable == tables[p].name && !Determines(tables[c], tables[c].foreignKeys[f].fromColumns)
  }

  ghost predicate Multiplies(sources: seq<Source>, tables: seq<TableInfo>, i: nat, j: nat) {
    i != j && exists p: nat, c: nat :: NamesTable(sources, tables, i, p) && NamesTable(sources, tables, j, c) && MayMultiply(tables, p, c)
  }

  lemma {:induction false} TableNamedAt(tables: seq<TableInfo>, n: string) returns (t: nat)
    ensures TableNamed(tables, n).None? ==> forall u | 0 <= u < |tables| :: tables[u].name != n
    ensures TableNamed(tables, n).Some? ==>
      t < |tables| && tables[t].name == n && tables[t] == TableNamed(tables, n).value && forall u | 0 <= u < t :: tables[u].name != n
  {
    t := 0;
    if tables != [] && tables[0].name != n {
      t := TableNamedAt(tables[1..], n);
      t := t + 1;
      assert forall u | 1 <= u < |tables| :: tables[u] == tables[1..][u - 1];
    }
  }

  lemma ChildMeans(sources: seq<Source>, tables: seq<TableInfo>, i: nat, j: nat)
    requires i < |sources| && j < |sources|
    ensures IsChild(sources, tables, i, j) <==> Multiplies(sources, tables, i, j)
  {
    var p := TableNamedAt(tables, sources[i].table);
    var c := TableNamedAt(tables, sources[j].table);
    if TableNamed(tables, sources[i].table).Some? && TableNamed(tables, sources[j].table).Some? {
      assert NamesTable(sources, tables, i, p) && NamesTable(sources, tables, j, c);
      FansMeans(tables, p, c);
    }
    if Multiplies(sources, tables, i, j) {
      var d: nat, e: nat :| NamesTable(sources, tables, i, d) && NamesTable(sources, tables, j, e) && MayMultiply(tables, d, e);
      assert p == d && c == e;
    }
  }

  lemma FansMeans(tables: seq<TableInfo>, p: nat, c: nat)
    requires p < |tables| && c < |tables|
    ensures FansOut(tables[p], tables[c]) <==> MayMultiply(tables, p, c)
  {
    forall columns ensures UniqueKey(tables[c], columns) <==> Determines(tables[c], columns) { UniqueKeyMeans(tables[c], columns); }
  }

  /** A statement aggregates over three sources of which two may each multiply the rows of
      the third, if and only if the critic leaves its grain open. */
  lemma SiblingsExactly(question: Question, words: string -> set<string>, q: Select, cat: Catalog)
    ensures SiblingGrainUnknown in Unknowns(Assessment(question, words, q, cat)) <==>
      && !q.nested && FindsAgg(q)
      && exists i: nat, j: nat, k: nat :: j < k && Multiplies(q.sources, cat.tables, i, j) && Multiplies(q.sources, cat.tables, i, k)
  {
    RiskMeans(q.sources, cat.tables);
    AllFound(question, words, q, cat, SiblingGrainUnknown, Unknown);
  }

  lemma RiskMeans(sources: seq<Source>, tables: seq<TableInfo>)
    ensures SiblingRisk(sources, tables) <==>
      exists i: nat, j: nat, k: nat :: j < k && Multiplies(sources, tables, i, j) && Multiplies(sources, tables, i, k)
  {
    forall i: nat, j: nat | i < |sources| && j < |sources| ensures IsChild(sources, tables, i, j) <==> Multiplies(sources, tables, i, j) {
      ChildMeans(sources, tables, i, j);
    }
    if SiblingRisk(sources, tables) {
      var i :| 0 <= i < |sources| && HasSiblings(sources, tables, i);
      var j, k :| 0 <= j < k < |sources| && IsChild(sources, tables, i, j) && IsChild(sources, tables, i, k);
      assert Multiplies(sources, tables, i, j) && Multiplies(sources, tables, i, k);
    }
    if i: nat, j: nat, k: nat :| j < k && Multiplies(sources, tables, i, j) && Multiplies(sources, tables, i, k) {
      assert IsChild(sources, tables, i, j) && IsChild(sources, tables, i, k);
      assert HasSiblings(sources, tables, i);
    }
  }

  // ------------------------------------------------------------- the ranking

  /** A rank phrase over rows or groups, in one direction at most, neither negated nor tied. */
  predicate Ranks(question: Question, q: Select) {
    && question.rank.Some? && !question.ambiguous && !q.nested && (FindsAgg(q) ==> q.group != [])
    && forall i | 0 <= i < |question.directions| :: question.directions[i] == question.directions[0]
  }

  /** The last direction word that counts: the Vietnamese one, else the first English one, else "top". */
  predicate AsksHighest(question: Question)
    requires question.rank.Some?
  {
    match question.rank.value
    case Vietnamese(high, _) => high
    case English(top, _) => if question.directions == [] then top else question.directions[0]
  }

  lemma AllFound(question: Question, words: string -> set<string>, q: Select, cat: Catalog, code: Code, outcome: Outcome)
    ensures var bound := BindMetric(cat.tables, question.words, words);
      code in Codes(Assessment(question, words, q, cat), outcome) <==>
        || (if InScope(question, q) then
              Finding(code, outcome) in OrderFindings(question, q, bound, cat.tables) || Finding(code, outcome) in LimitFindings(question, q)
            else code == RankIntentUnknown && outcome == Unknown)
        || (code == SiblingGrainUnknown && outcome == Unknown && !q.nested && FindsAgg(q) && SiblingRisk(q.sources, cat.tables))
        || Finding(code, outcome) in OPEN_QUESTIONS
  {
    var a := Assessment(question, words, q, cat);
    assert code in Codes(a, outcome) <==> Finding(code, outcome) in a;
  }

  lemma ScopeMeans(question: Question, q: Select)
    ensures InScope(question, q) <==> Ranks(question, q)
  {
  }

  lemma OrderContradicts(question: Question, q: Select, bound: Option<Owned>, tables: seq<TableInfo>)
    requires question.rank.Some?
    ensures forall code :: Finding(code, Contradiction) in OrderFindings(question, q, bound, tables) <==>
      || (code.RankOrderMissing? && q.order == [])
      || (code.RankDirection? && q.order != [] && (question.directions != [] || question.rank.value.Vietnamese?)
          && OrderMatches(q, bound, tables) && q.order[0].desc != AsksHighest(question))
  {
  }

  lemma LimitContradicts(question: Question, q: Select)
    requires question.rank.Some?
    ensures forall code :: Finding(code, Contradiction) in LimitFindings(question, q) <==>
      code.RankLimit? && q.offset == None && q.limit != Some(IntLit(question.rank.value.count))
  {
  }

  /** The critic contradicts a statement, whatever its shape, for just three causes. */
  lemma ContradictsExactly(question: Question, words: string -> set<string>, q: Select, cat: Catalog)
    ensures var found := Contradictions(Assessment(question, words, q, cat));
            var bound := BindMetric(cat.tables, question.words, words);
      && found <= {RankOrderMissing, RankDirection, RankLimit}
      && (RankOrderMissing in found <==> Ranks(question, q) && q.order == [])
      && (RankDirection in found <==>
            && Ranks(question, q) && q.order != [] && (question.directions != [] || question.rank.value.Vietnamese?)
            && OrderMatches(q, bound, cat.tables) && q.order[0].desc != AsksHighest(question))
      && (RankLimit in found <==> Ranks(question, q) && q.offset == None && q.limit != Some(IntLit(question.rank.value.count)))
  {
    ScopeMeans(question, q);
    if question.rank.Some? {
      OrderContradicts(question, q, BindMetric(cat.tables, question.words, words), cat.tables);
      LimitContradicts(question, q);
    }
    forall code: Code ensures code in Contradictions(Assessment(question, words, q, cat)) <==>
        InScope(question, q) && (Finding(code, Contradiction) in OrderFindings(question, q, BindMetric(cat.tables, question.words, words), cat.tables)
                                 || Finding(code, Contradiction) in LimitFindings(question, q))
    {
      AllFound(question, words, q, cat, code, Contradiction);
    }
  }
}

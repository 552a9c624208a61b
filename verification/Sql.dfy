/**
 The SELECT statements the repository edits, and what SQLite answers to them.

 A statement is first compiled, as SQLite prepares it: every name is resolved
 against the sources and then against the output aliases, and an unresolvable
 or ambiguous name makes the statement fail to prepare.  The compiled plan is
 then given a denotation: source rows, WHERE, groups, HAVING, DISTINCT, ORDER BY,
 OFFSET, LIMIT.  SQL leaves open the order of ties, and which of several equal
 rows DISTINCT keeps, so a plan has a set of admissible answers.
 */
module Sql {
  import opened Prelude
  import opened Orders

  // ---------------------------------------------------------------- catalog

  datatype ColumnInfo = ColumnInfo(name: string, nullable: bool, primaryKeyPosition: nat)
  datatype ForeignKey = ForeignKey(fromColumns: seq<string>, targetTable: string, targetColumns: seq<string>)
  datatype TableInfo = TableInfo(name: string, kind: string, columns: seq<ColumnInfo>, foreignKeys: seq<ForeignKey>)
  datatype Catalog = Catalog(tables: seq<TableInfo>)

  function ColumnNames(columns: seq<ColumnInfo>): set<string> {
    set c | c in columns :: c.name
  }

  /** The columns SQLite finds in table `name`; none when there is no such table. */
  function ColumnsOf(tables: seq<TableInfo>, name: string): set<string> {
    if tables == [] then {}
    else if tables[0].name == name then ColumnNames(tables[0].columns)
    else ColumnsOf(tables[1..], name)
  }

  /** The columns of table `name`, in catalog order. */
  function ColumnSeq(tables: seq<TableInfo>, name: string): (r: seq<string>) {
    if tables == [] then []
    else if tables[0].name == name then seq(|tables[0].columns|, i requires 0 <= i < |tables[0].columns| => tables[0].columns[i].name)
    else ColumnSeq(tables[1..], name)
  }

  // ----------------------------------------------------------------- syntax

  datatype Value = Null | Num(number: real) | Text(chars: string)

  /** `Column("", n)` is an unqualified name; `Agg` is any aggregate function; `Star`
      is the argument of COUNT(*), and `AllColumns` the output `*`. */
  datatype Expr =
    | Column(table: string, name: string)
    | IntLit(n: nat)
    | Lit(v: Value)
    | Star
    | AllColumns
    | Call(op: string, args: seq<Expr>)
    | Agg(fn: string, arg: Expr)

  /** An output column; `alias` is empty when the item is no alias expression. */
  datatype Item = Item(value: Expr, alias: string) {
    function OutputName(): string {
      if alias != "" then alias else if value.Column? then value.name else ""
    }
  }

  datatype Ordered = Ordered(key: Expr, desc: bool, nullsFirst: bool)

  datatype Source = Source(table: string, alias: string, outer: bool, on: Option<Expr>) {
    function Name(): string { if alias != "" then alias else table }
  }

  /** An absent GROUP BY or ORDER BY is the empty sequence.  `nested` says that
      the parse tree holds a subquery, a CTE or a window. */
  datatype Select = Select(
    items: seq<Item>, sources: seq<Source>, where: Option<Expr>, group: seq<Expr>,
    having: Option<Expr>, order: seq<Ordered>, limit: Option<Expr>, offset: Option<Expr>,
    distinct: bool, nested: bool)

  predicate HasAgg(e: Expr)
  {
    match e
    case Agg(_, _) => true
    case Call(_, args) => exists i | 0 <= i < |args| :: HasAgg(args[i])
    case _ => false
  }

  predicate HasIntLit(e: Expr) {
    match e
    case IntLit(_) => true
    case Call(_, args) => exists i | 0 <= i < |args| :: HasIntLit(args[i])
    case Agg(_, a) => HasIntLit(a)
    case _ => false
  }

  /** Whether the unqualified name `n` occurs in `e`. */
  predicate Mentions(e: Expr, n: string) {
    match e
    case Column(t, m) => t == "" && m == n
    case Call(_, args) => exists i | 0 <= i < |args| :: Mentions(args[i], n)
    case Agg(_, a) => Mentions(a, n)
    case _ => false
  }

  predicate OptHasAgg(e: Option<Expr>) { e.Some? && HasAgg(e.value) }

  /** Whether an aggregate occurs anywhere in the statement. */
  predicate FindsAgg(q: Select) {
    || (exists i | 0 <= i < |q.items| :: HasAgg(q.items[i].value))
    || (exists i | 0 <= i < |q.sources| :: OptHasAgg(q.sources[i].on))
    || OptHasAgg(q.where)
    || (exists i | 0 <= i < |q.group| :: HasAgg(q.group[i]))
    || OptHasAgg(q.having)
    || (exists i | 0 <= i < |q.order| :: HasAgg(q.order[i].key))
    || OptHasAgg(q.limit) || OptHasAgg(q.offset)
  }

  // ------------------------------------------------------------ compilation

  datatype Core =
    | Src(source: string, column: string)
    | Const(v: Value)
    | Op(op: string, args: seq<Core>)
    | Fold(fn: string, arg: Core)

  predicate HasFold(c: Core) {
    match c
    case Fold(_, _) => true
    case Op(_, args) => exists i | 0 <= i < |args| :: HasFold(args[i])
    case _ => false
  }

  datatype Named = Named(alias: string, core: Core)
  datatype Scope = Scope(sources: seq<Source>, tables: seq<TableInfo>, aliases: seq<Named>)

  /** The sources that own column `n`, seen through qualifier `t` (empty: any). */
  function Owners(sources: seq<Source>, tables: seq<TableInfo>, t: string, n: string): seq<Source> {
    if sources == [] then []
    else
      var rest := Owners(sources[1..], tables, t, n);
      if (t == "" || sources[0].Name() == t) && n in ColumnsOf(tables, sources[0].table)
      then [sources[0]] + rest else rest
  }

  function FindAlias(aliases: seq<Named>, n: string): Option<Core> {
    if aliases == [] then None
    else if aliases[0].alias == n then Some(aliases[0].core)
    else FindAlias(aliases[1..], n)
  }

  /** Name resolution outside a bare ORDER BY term: sources first, then aliases. */
  function Lookup(t: string, n: string, s: Scope, aggOk: bool): Option<Core> {
    var owners := Owners(s.sources, s.tables, t, n);
    if |owners| == 1 then Some(Src(owners[0].Name(), n))
    else if |owners| > 1 || t != "" then None
    else
      var found := FindAlias(s.aliases, n);
      if found.Some? && (aggOk || !HasFold(found.value)) then found else None
  }

  /** The cells that `*` stands for. */
  function StarCells(sources: seq<Source>, tables: seq<TableInfo>): seq<Core> {
    if sources == [] then []
    else
      var names := ColumnSeq(tables, sources[0].table);
      seq(|names|, i requires 0 <= i < |names| => Src(sources[0].Name(), names[i])) + StarCells(sources[1..], tables)
  }

  /** The output `*` is one value, made by the operator "*" from all cells. */
  function Elab(e: Expr, s: Scope, aggOk: bool): Option<Core>
    decreases e, 1
  {
    match e
    case Column(t, n) => Lookup(t, n, s, aggOk)
    case IntLit(n) => Some(Const(Num(n as real)))
    case Lit(v) => Some(Const(v))
    case Star => Some(Const(Num(1.0)))
    case AllColumns => Some(Op("*", StarCells(s.sources, s.tables)))
    case Call(op, args) =>
      var cs := ElabAll(args, s, aggOk);
      if cs.None? then None else Some(Op(op, cs.value))
    case Agg(fn, a) =>
      if !aggOk then None
      else
        var c := Elab(a, s, false);
        if c.None? then None else Some(Fold(fn, c.value))
  }

  function ElabAll(es: seq<Expr>, s: Scope, aggOk: bool): (r: Option<seq<Core>>)
    ensures r.Some? ==> |r.value| == |es|
    decreases es, 0
  {
    if es == [] then Some([])
    else
      var c := Elab(es[0], s, aggOk);
      var cs := ElabAll(es[1..], s, aggOk);
      if c.None? || cs.None? then None else Some([c.value] + cs.value)
  }

  function ElabOpt(e: Option<Expr>, s: Scope, aggOk: bool): Option<Option<Core>> {
    match e
    case None => Some(None)
    case Some(x) => var c := Elab(x, s, aggOk); if c.None? then None else Some(Some(c.value))
  }

  function Ordinal(n: nat, outputs: seq<Core>): Option<Core> {
    if 1 <= n <= |outputs| then Some(outputs[n - 1]) else None
  }

  /** A bare ORDER BY term: ordinal, then alias, then an expression. */
  function ElabOrderKey(e: Expr, s: Scope, outputs: seq<Core>, aggOk: bool): Option<Core> {
    if e.IntLit? then Ordinal(e.n, outputs)
    else if e.Column? && e.table == "" && FindAlias(s.aliases, e.name).Some? then FindAlias(s.aliases, e.name)
    else Elab(e, s, aggOk)
  }

  /** A GROUP BY term: ordinal, then an expression without aggregates. */
  function ElabGroupKey(e: Expr, s: Scope, outputs: seq<Core>): Option<Core> {
    if e.IntLit? then
      var c := Ordinal(e.n, outputs);
      if c.Some? && HasFold(c.value) then None else c
    else Elab(e, s, false)
  }

  datatype SortKey = SortKey(core: Core, desc: bool, nullsFirst: bool)

  function ElabOrder(order: seq<Ordered>, s: Scope, outputs: seq<Core>, aggOk: bool): (r: Option<seq<SortKey>>)
    ensures r.Some? ==> |r.value| == |order|
  {
    if order == [] then Some([])
    else
      var c := ElabOrderKey(order[0].key, s, outputs, aggOk);
      var cs := ElabOrder(order[1..], s, outputs, aggOk);
      if c.None? || cs.None? then None
      else Some([SortKey(c.value, order[0].desc, order[0].nullsFirst)] + cs.value)
  }

  function ElabGroup(group: seq<Expr>, s: Scope, outputs: seq<Core>): (r: Option<seq<Core>>)
    ensures r.Some? ==> |r.value| == |group|
  {
    if group == [] then Some([])
    else
      var c := ElabGroupKey(group[0], s, outputs);
      var cs := ElabGroup(group[1..], s, outputs);
      if c.None? || cs.None? then None else Some([c.value] + cs.value)
  }

  datatype JoinPlan = JoinPlan(table: string, source: string, outer: bool, on: Option<Core>)

  function ElabSources(sources: seq<Source>, s: Scope): (r: Option<seq<JoinPlan>>)
    ensures r.Some? ==> |r.value| == |sources|
  {
    if sources == [] then Some([])
    else
      var c := ElabOpt(sources[0].on, s, false);
      var cs := ElabSources(sources[1..], s);
      if c.None? || cs.None? then None
      else Some([JoinPlan(sources[0].table, sources[0].Name(), sources[0].outer, c.value)] + cs.value)
  }

  function Values(items: seq<Item>): (r: seq<Expr>)
    ensures |r| == |items|
  {
    seq(|items|, i requires 0 <= i < |items| => items[i].value)
  }

  /** The aliases a later clause can refer to; an item without AS has none. */
  function Aliases(items: seq<Item>, cores: seq<Core>): seq<Named>
    requires |items| == |cores|
  {
    if items == [] then []
    else
      var rest := Aliases(items[1..], cores[1..]);
      if items[0].alias != "" then [Named(items[0].alias, cores[0])] + rest else rest
  }

  datatype Plan = Plan(
    joins: seq<JoinPlan>, where: Option<Core>, grouped: bool, group: seq<Core>, having: Option<Core>,
    distinct: bool, outputs: seq<Core>, order: seq<SortKey>, limit: Option<Expr>, offset: Option<Expr>)

  predicate AnyFold(cs: seq<Core>) { exists i | 0 <= i < |cs| :: HasFold(cs[i]) }

  function SourceScope(q: Select, cat: Catalog): Scope { Scope(q.sources, cat.tables, []) }

  /** The statement as SQLite prepares it, or None when preparing fails or the
      statement holds a subquery, a CTE or a window, which have no meaning here.
      Output expressions see only the sources; every other clause also sees the
      aliases.  Aggregates outside the outputs need a grouped or aggregated query. */
  function Compile(q: Select, cat: Catalog): Option<Plan> {
    var outputs := ElabAll(Values(q.items), SourceScope(q, cat), true);
    if q.nested || outputs.None? then None
    else CompileClauses(q, outputs.value, Scope(q.sources, cat.tables, Aliases(q.items, outputs.value)))
  }

  function CompileClauses(q: Select, outputs: seq<Core>, s: Scope): Option<Plan> {
    var aggregated := q.group != [] || AnyFold(outputs);
    var joins := ElabSources(q.sources, s);
    var where := ElabOpt(q.where, s, false);
    var group := ElabGroup(q.group, s, outputs);
    var having := ElabOpt(q.having, s, aggregated);
    var order := ElabOrder(q.order, s, outputs, aggregated);
    if joins.None? || where.None? || group.None? || having.None? || order.None? then None
    else if q.having.Some? && !aggregated then None
    else Some(Plan(joins.value, where.value, q.group != [], group.value, having.value, q.distinct, outputs, order.value, q.limit, q.offset))
  }

  // -------------------------------------------------------------- denotation

  type Row = map<(string, string), Value>
  type Context = seq<Row>
  type Record = map<string, Value>
  type Database = map<string, seq<Record>>

  /** What the model leaves to SQLite: scalar operators, aggregates other than
      COUNT, truth of a value, the value of a LIMIT or OFFSET expression, and the row of a
      group from which bare columns are read, which may depend on the aggregates
      of the statement (MIN and MAX choose the row they are attained in). */
  datatype World = World(
    op: (string, seq<Value>) -> Value, agg: (string, seq<Value>) -> Value, truth: Value -> bool,
    limit: Expr -> Option<nat>, pick: (set<Core>, Context) -> nat)

  function NonNull(vs: seq<Value>): nat {
    if vs == [] then 0 else (if vs[0].Null? then 0 else 1) + NonNull(vs[1..])
  }

  function Aggregate(fn: string, vs: seq<Value>, w: World): Value {
    if fn == "count" then Num(NonNull(vs) as real) else w.agg(fn, vs)
  }

  /** The value of `c` in a group whose bare columns are read from `bare`. */
  function Eval(c: Core, group: Context, bare: Row, w: World): Value
    decreases c, 1, 0
  {
    match c
    case Src(s, n) => if (s, n) in bare then bare[(s, n)] else Null
    case Const(v) => v
    case Op(op, args) => w.op(op, EvalAll(args, group, bare, w))
    case Fold(fn, a) => Aggregate(fn, EvalRows(a, group, w), w)
  }

  function EvalAll(cs: seq<Core>, group: Context, bare: Row, w: World): (vs: seq<Value>)
    ensures |vs| == |cs|
    decreases cs, 0, 0
  {
    if cs == [] then [] else [Eval(cs[0], group, bare, w)] + EvalAll(cs[1..], group, bare, w)
  }

  function EvalRows(c: Core, rows: Context, w: World): (vs: seq<Value>)
    ensures |vs| == |rows|
    decreases c, 2, |rows|
  {
    if rows == [] then [] else [Eval(c, [rows[0]], rows[0], w)] + EvalRows(c, rows[1..], w)
  }

  function Holds(c: Option<Core>, group: Context, bare: Row, w: World): bool {
    c.None? || w.truth(Eval(c.value, group, bare, w))
  }

  function Bind(source: string, r: Record): Row {
    map k: (string, string) | k in (set n | n in r :: (source, n)) :: r[k.1]
  }

  /** The rows of one source that join with `left`. */
  function Matches(left: Row, j: JoinPlan, records: seq<Record>, w: World): seq<Row> {
    if records == [] then []
    else
      var joined := left + Bind(j.source, records[0]);
      var rest := Matches(left, j, records[1..], w);
      if Holds(j.on, [joined], joined, w) then [joined] + rest else rest
  }

  function JoinOne(lefts: seq<Row>, j: JoinPlan, records: seq<Record>, w: World): seq<Row> {
    if lefts == [] then []
    else
      var found := Matches(lefts[0], j, records, w);
      (if found == [] && j.outer then [lefts[0]] else found) + JoinOne(lefts[1..], j, records, w)
  }

  function JoinAll(lefts: seq<Row>, joins: seq<JoinPlan>, db: Database, w: World): seq<Row>
    decreases |joins|
  {
    if joins == [] then lefts
    else
      var records := if joins[0].table in db then db[joins[0].table] else [];
      JoinAll(JoinOne(lefts, joins[0], records, w), joins[1..], db, w)
  }

  function Filter(rows: seq<Row>, c: Option<Core>, w: World): seq<Row> {
    if rows == [] then []
    else
      var rest := Filter(rows[1..], c, w);
      if Holds(c, [rows[0]], rows[0], w) then [rows[0]] + rest else rest
  }

  /** The rows that pass FROM and WHERE. */
  function SourceRows(p: Plan, db: Database, w: World): seq<Row> {
    Filter(JoinAll([map[]], p.joins, db, w), p.where, w)
  }

  function GroupKey(group: seq<Core>, r: Row, w: World): seq<Value> { EvalAll(group, [r], r, w) }

  function WithKey(rows: seq<Row>, group: seq<Core>, key: seq<Value>, equal: bool, w: World): (r: seq<Row>)
    ensures |r| <= |rows|
  {
    if rows == [] then []
    else
      var rest := WithKey(rows[1..], group, key, equal, w);
      if (GroupKey(group, rows[0], w) == key) == equal then [rows[0]] + rest else rest
  }

  function Groups(rows: seq<Row>, group: seq<Core>, w: World): seq<Context>
    decreases |rows|
  {
    if rows == [] then []
    else
      var key := GroupKey(group, rows[0], w);
      [WithKey(rows, group, key, true, w)] + Groups(WithKey(rows[1..], group, key, false, w), group, w)
  }

  function Singletons(rows: seq<Row>): (r: seq<Context>)
    ensures |r| == |rows|
  {
    seq(|rows|, i requires 0 <= i < |rows| => [rows[i]])
  }

  ghost function Folds(c: Core): set<Core> {
    match c
    case Fold(_, _) => {c}
    case Op(_, args) => set i, f | 0 <= i < |args| && f in Folds(args[i]) :: f
    case _ => {}
  }

  ghost function FoldsOf(cs: seq<Core>): set<Core> { set i, f | 0 <= i < |cs| && f in Folds(cs[i]) :: f }

  function OrderCores(order: seq<SortKey>): (r: seq<Core>)
    ensures |r| == |order|
  {
    seq(|order|, i requires 0 <= i < |order| => order[i].core)
  }

  /** Every aggregate of the statement. */
  ghost function PlanFolds(p: Plan): set<Core> {
    FoldsOf(p.outputs) + FoldsOf(OrderCores(p.order)) + (if p.having.Some? then Folds(p.having.value) else {})
  }

  predicate Aggregated(p: Plan) { p.grouped || AnyFold(p.outputs) }

  ghost function BareRow(p: Plan, group: Context, w: World): Row {
    if |group| == 0 then map[] else group[w.pick(PlanFolds(p), group) % |group|]
  }

  function RawContexts(p: Plan, db: Database, w: World): seq<Context> {
    var rows := SourceRows(p, db, w);
    if p.grouped then Groups(rows, p.group, w)
    else if Aggregated(p) then [rows]
    else Singletons(rows)
  }

  ghost function Having(p: Plan, contexts: seq<Context>, w: World): seq<Context> {
    if contexts == [] then []
    else
      var rest := Having(p, contexts[1..], w);
      if Holds(p.having, contexts[0], BareRow(p, contexts[0], w), w) then [contexts[0]] + rest else rest
  }

  /** The contexts that become result rows, before ORDER BY and LIMIT. */
  ghost function Population(p: Plan, db: Database, w: World): seq<Context> {
    Having(p, RawContexts(p, db, w), w)
  }

  /** SQLite's order on values: NULL, then numbers, then text. */
  predicate ValueLess(a: Value, b: Value) {
    match (a, b)
    case (Null, Null) => false
    case (Null, _) => true
    case (Num(_), Null) => false
    case (Num(x), Num(y)) => x < y
    case (Num(_), Text(_)) => true
    case (Text(x), Text(y)) => StringLess(x, y)
    case (Text(_), _) => false
  }

  predicate Before(k: SortKey, a: Value, b: Value) {
    if a.Null? || b.Null? then a != b && (a.Null? <==> k.nullsFirst)
    else if k.desc then ValueLess(b, a) else ValueLess(a, b)
  }

  ghost function CoreValue(p: Plan, c: Core, x: Context, w: World): Value { Eval(c, x, BareRow(p, x, w), w) }

  /** Whether `x` must precede `y` under the sort keys from position `i` on. */
  ghost predicate Precedes(p: Plan, i: nat, x: Context, y: Context, w: World)
    requires i <= |p.order|
    decreases |p.order| - i
  {
    if i == |p.order| then false
    else
      var a, b := CoreValue(p, p.order[i].core, x, w), CoreValue(p, p.order[i].core, y, w);
      Before(p.order[i], a, b) || (!Before(p.order[i], b, a) && Precedes(p, i + 1, x, y, w))
  }

  ghost function RenderRow(p: Plan, x: Context, w: World): seq<Value> { EvalAll(p.outputs, x, BareRow(p, x, w), w) }

  /** Some context in `kept` renders to the row of `x`. */
  ghost predicate Stands(p: Plan, kept: seq<Context>, x: Context, w: World) {
    exists i :: 0 <= i < |kept| && RenderRow(p, kept[i], w) == RenderRow(p, x, w)
  }

  /** `kept` holds, for every row the population renders to, one context. */
  ghost predicate Representatives(p: Plan, population: seq<Context>, w: World, kept: seq<Context>) {
    && (forall x | x in kept :: x in population)
    && (forall x | x in population :: Stands(p, kept, x, w))
    && (forall i, j | 0 <= i < j < |kept| :: RenderRow(p, kept[i], w) != RenderRow(p, kept[j], w))
  }

  /** The contexts the result is made of: the whole population, or what DISTINCT keeps. */
  ghost predicate Selected(p: Plan, population: seq<Context>, w: World, kept: seq<Context>) {
    if p.distinct then Representatives(p, population, w, kept) else multiset(kept) == multiset(population)
  }

  /** An order the engine may produce the result in. */
  ghost predicate Arrangement(p: Plan, db: Database, w: World, arranged: seq<Context>) {
    && Selected(p, Population(p, db, w), w, arranged)
    && forall i, j | 0 <= i < j < |arranged| :: !Precedes(p, 0, arranged[j], arranged[i], w)
  }

  function LimitOf(limit: Option<Expr>, w: World): Option<nat> {
    match limit
    case None => None
    case Some(e) => if e.IntLit? then Some(e.n) else w.limit(e)
  }

  /** How many rows OFFSET skips; a negative value skips none. */
  function SkipOf(offset: Option<Expr>, w: World): nat {
    var n := LimitOf(offset, w);
    if n.Some? then n.value else 0
  }

  function Skip<T>(s: seq<T>, n: nat): seq<T> { if n < |s| then s[n..] else [] }

  function TakeLimit<T>(s: seq<T>, limit: Option<nat>): seq<T> {
    if limit.Some? && limit.value < |s| then s[..limit.value] else s
  }

  ghost function Render(p: Plan, contexts: seq<Context>, w: World): (r: seq<seq<Value>>)
    ensures |r| == |contexts|
  {
    seq(|contexts|, i requires 0 <= i < |contexts| => RenderRow(p, contexts[i], w))
  }

  ghost function Returned(p: Plan, arranged: seq<Context>, w: World): seq<Context> {
    TakeLimit(Skip(arranged, SkipOf(p.offset, w)), LimitOf(p.limit, w))
  }

  /** `answer` is a result SQLite may return for plan `p`. */
  ghost predicate IsAnswer(p: Plan, db: Database, w: World, answer: seq<seq<Value>>) {
    exists arranged ::
      Arrangement(p, db, w, arranged) && answer == Render(p, Returned(p, arranged, w), w)
  }
}

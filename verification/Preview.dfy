/** The capped preview of a query, against the full result. */
module Preview {
  import opened Common
  import opened SqlAst
  import opened SqlEngine

  /** The LIMIT of the statement itself, not of a subquery. */
  function TopLimit(q: Sql<TableRef>): Option<LimitClause> {
    match q
    case Table(_) => None
    case With(_, _, body) => TopLimit(body)
    case Node(kind, kids) => if kind.Limit? && |kids| == 1 then Some(kind.clause) else None
  }

  /** A statement under WITH clauses, the first one outermost. */
  function Under(withs: seq<(string, Sql<TableRef>)>, core: Sql<TableRef>): Sql<TableRef> {
    if withs == [] then core else With(withs[0].0, withs[0].1, Under(withs[1..], core))
  }

  /** In words: what counts is the LIMIT at the top of the statement below all WITH clauses, and no
    * other. */
  lemma {:induction false} TopLimitInWords(withs: seq<(string, Sql<TableRef>)>, core: Sql<TableRef>, clause: LimitClause)
    ensures TopLimit(Under(withs, Node(Limit(clause), [core]))) == Some(clause)
    ensures !core.With? && !(core.Node? && core.kind.Limit?) ==> TopLimit(Under(withs, core)) == None
  {
    if withs != [] {
      TopLimitInWords(withs[1..], core, clause);
    }
  }

  /** The statement without its own LIMIT. */
  function Unlimited(q: Sql<TableRef>): Sql<TableRef> {
    match q
    case Table(_) => q
    case With(alias, def, body) => With(alias, def, Unlimited(body))
    case Node(kind, kids) => if kind.Limit? && |kids| == 1 then kids[0] else q
  }

  /** The statement with its own LIMIT set to `n`. */
  function WithLimit(q: Sql<TableRef>, n: nat): Sql<TableRef> {
    match q
    case Table(_) => Node(Limit(Count(n)), [q])
    case With(alias, def, body) => With(alias, def, WithLimit(body, n))
    case Node(kind, kids) => if kind.Limit? && |kids| == 1 then Node(Limit(Count(n)), kids) else Node(Limit(Count(n)), [q])
  }

  function LimitOf(clause: Option<LimitClause>, r: Result): Result {
    match clause
    case Some(c) => LimitRows(c, r)
    case None => r
  }

  lemma {:induction false} LimitsMean(q: Sql<TableRef>, n: nat, db: Database, ctes: map<string, Meaning>, frames: seq<Frame>)
    ensures Fold(WithLimit(q, n), Trino, db, ctes)(frames)
         == LimitRows(Count(n), Fold(Unlimited(q), Trino, db, ctes)(frames))
    ensures Fold(q, Trino, db, ctes)(frames) == LimitOf(TopLimit(q), Fold(Unlimited(q), Trino, db, ctes)(frames))
  {
    match q
    case Table(_) => LimitNode(Count(n), q, db, ctes, frames);
    case With(alias, def, body) =>
      var d := Fold(def, Trino, db, ctes);
      var ctes' := ctes[Lower(alias) := Bound(d)];
      LimitsMean(body, n, db, ctes', frames);
      WithMeans(alias, def, body, db, ctes, frames);
      WithMeans(alias, def, WithLimit(body, n), db, ctes, frames);
      WithMeans(alias, def, Unlimited(body), db, ctes, frames);
    case Node(kind, kids) =>
      if kind.Limit? && |kids| == 1 {
        assert q == Node(Limit(kind.clause), [kids[0]]);
        assert kids == [kids[0]];
        LimitNode(kind.clause, kids[0], db, ctes, frames);
        LimitNode(Count(n), kids[0], db, ctes, frames);
      } else {
        LimitNode(Count(n), q, db, ctes, frames);
      }
  }

  lemma LimitNode(clause: LimitClause, q: Sql<TableRef>, db: Database, ctes: map<string, Meaning>, frames: seq<Frame>)
    ensures Fold(Node(Limit(clause), [q]), Trino, db, ctes)(frames) == LimitRows(clause, Fold(q, Trino, db, ctes)(frames))
  {
    var parts := FoldNode(Limit(clause), [q], Trino, db, ctes);
    assert Arity(Limit(clause)) == Some(|parts|);
    assert Fold(Node(Limit(clause), [q]), Trino, db, ctes) == NodeMeaning(Limit(clause), parts);
    assert parts[0] == Fold([q][0], Trino, db, ctes);
  }

  lemma WithMeans(alias: string, def: Sql<TableRef>, body: Sql<TableRef>, db: Database, ctes: map<string, Meaning>,
                  frames: seq<Frame>)
    ensures var d := Fold(def, Trino, db, ctes);
      Fold(With(alias, def, body), Trino, db, ctes)(frames) ==
      if d([]).Rows? then Fold(body, Trino, db, ctes[Lower(alias) := Bound(d)])(frames) else Failed
  {
    var d := Fold(def, Trino, db, ctes);
    assert Trino.bound(d) == Bound(d);
  }

  /** Caps a statement, keeping one row more than the cap when it has no LIMIT of its own. In every
    * database the capped statement fails exactly when the statement does, and otherwise answers under
    * the same columns with the first rows of its answer; it never asks for more than one row over the cap. */
  method WrapPreview(q: Sql<TableRef>, cap: nat) returns (tree: Sql<TableRef>)
    ensures forall db :: Run(tree, db).Rows? <==> Run(q, db).Rows?
    ensures forall db :: Run(q, db).Rows? ==>
      && Run(tree, db).cols == Run(q, db).cols
      && Run(tree, db).rows == Take(if TopLimit(q).None? then cap + 1 else cap, Run(q, db).rows)
    ensures TopLimit(tree).Some? && TopLimit(tree).value.Count?
    ensures TopLimit(tree).value.n <= if TopLimit(q).None? then cap + 1 else cap
  {
    hide Run;
    forall db ensures Run(WithLimit(q, cap), db) == LimitRows(Count(cap), Run(Unlimited(q), db)) {
      WrappedMeans(q, cap, db);
    }
    forall db ensures Run(WithLimit(q, cap + 1), db) == LimitRows(Count(cap + 1), Run(Unlimited(q), db))
              ensures Run(q, db) == LimitOf(TopLimit(q), Run(Unlimited(q), db)) {
      WrappedMeans(q, cap, db);
    }
    LimitSet(q, cap);
    LimitSet(q, cap + 1);
    tree := q;
    var existing := TopLimit(q);
    match existing
    case None => tree := WithLimit(tree, cap + 1);
    case Some(Count(current)) =>
      if current > cap {
        tree := WithLimit(tree, cap);
      }
    case Some(LimitAll) => tree := WithLimit(tree, cap);
  }

  datatype Shown = Shown(cols: seq<ColumnId>, rows: seq<Row>, rowCount: nat, truncated: bool)

  /** The number of rows a caller asked for, capped; none and zero mean the configured cap. */
  function CapFor(limit: Option<nat>, rowCap: nat): nat {
    var asked := if limit.None? || limit.value == 0 then rowCap else limit.value;
    if asked < rowCap then asked else rowCap
  }

  /** What is shown of a full result of N rows: the first ones in order, as many as the smallest of N,
    * the configured cap and the number asked for (none and zero ask for nothing). The flag says that
    * rows were left out, unless the statement has a LIMIT of its own: then it is never set. */
  ghost predicate Previews(s: Shown, full: Result, limit: Option<nat>, rowCap: nat, ownLimit: bool) {
    && full.Rows?
    && s.cols == full.cols
    && s.rowCount == |s.rows| <= |full.rows|
    && s.rows == full.rows[..s.rowCount]
    && s.rowCount <= rowCap
    && ((limit == None || limit == Some(0)) ==> s.rowCount == |full.rows| || s.rowCount == rowCap)
    && (limit.Some? && limit.value > 0 ==>
          && s.rowCount <= limit.value
          && (s.rowCount == |full.rows| || s.rowCount == rowCap || s.rowCount == limit.value))
    && (s.truncated <==> s.rowCount < |full.rows| && !ownLimit)
  }

  /** Runs the capped statement and slices its rows: a preview of the full result. */
  method RunQuery(q: Sql<TableRef>, db: Database, limit: Option<nat>, rowCap: nat) returns (r: Option<Shown>)
    ensures r.Some? <==> Run(q, db).Rows?
    ensures r.Some? ==> Previews(r.value, Run(q, db), limit, rowCap, TopLimit(q).Some?)
  {
    var cap := CapFor(limit, rowCap);
    var tree := WrapPreview(q, cap);
    WrappedMeans(q, cap, db);
    var got := Run(tree, db);
    if !got.Rows? {
      return None;
    }
    hide Run;
    r := Some(Shown(got.cols, Take(cap, got.rows), |Take(cap, got.rows)|, |got.rows| > cap));
  }

  lemma WrappedMeans(q: Sql<TableRef>, cap: nat, db: Database)
    ensures Run(WithLimit(q, cap), db) == LimitRows(Count(cap), Run(Unlimited(q), db))
    ensures Run(WithLimit(q, cap + 1), db) == LimitRows(Count(cap + 1), Run(Unlimited(q), db))
    ensures Run(q, db) == LimitOf(TopLimit(q), Run(Unlimited(q), db))
  {
    LimitsMean(q, cap, db, map[], []);
    LimitsMean(q, cap + 1, db, map[], []);
  }

  lemma {:induction false} LimitSet(q: Sql<TableRef>, n: nat)
    ensures TopLimit(WithLimit(q, n)) == Some(Count(n))
  {
    match q
    case With(_, _, body) => LimitSet(body, n);
    case _ =>
  }
}

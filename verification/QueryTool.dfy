/** The query tool: the guard, the cap and the engine one after the other. */
module QueryTool {
  import opened Common
  import opened SqlAst
  import opened SqlEngine
  import opened SqlGuard
  import opened SqlMeaning
  import opened SqlColumns
  import opened Preview

  datatype Queried = Refused(why: Rejection) | QueryFailed | Previewed(shown: Shown)

  /** The rewrite does not touch the LIMIT of the statement. */
  lemma {:induction false} RewriteKeepsLimit(q: Sql<TableRef>, f: TableRef -> TableRef)
    ensures TopLimit(MapRefs(q, f)) == TopLimit(q)
  {
    match q
    case With(_, _, body) => RewriteKeepsLimit(body, f);
    case _ =>
  }

  /** Runs a tenant's query. What is shown is a preview of what the engine answers to the rewritten
    * statement; and when CTE names are used in scope and every qualifier is kept, of what the tenant's
    * own view answers to the query as it was written. */
  method RunTenantQuery(parsed: seq<Option<Tree>>, walk: seq<TableNode>, cfg: Config, g: Global, limit: Option<nat>, rowCap: nat)
    returns (r: Queried)
    requires NoDuplicates(walk) && ValidConfig(cfg)
    requires |Present(parsed)| == 1 ==> Refs(Present(parsed)[0]) == set n | n in walk
    modifies walk
    ensures r.Refused? <==> !(old(Statement(parsed, walk)).Some? && Accepts(old(Statement(parsed, walk)).value, cfg))
    ensures r.Refused? ==>
      RejectedFor(r.why, |Present(parsed)|, old(Statement(parsed, walk)), old(RefsOf(walk)), cfg)
    ensures !r.Refused? ==> ReadsOnlyPermitted(old(Statement(parsed, walk)).value, cfg)
    ensures !r.Refused? ==>
      var q := old(Statement(parsed, walk)).value;
      var own := TopLimit(q).Some?;
      var answer := Run(Rewrite(q, cfg), GlobalDatabase(g, cfg));
      var meant := Run(q, ViewDatabase(ViewOf(g, cfg), cfg));
      && (r.Previewed? <==> answer.Rows?) && (r.Previewed? ==> Previews(r.shown, answer, limit, rowCap, own))
      && (WellScoped(q) && AllKept(q, cfg) ==>
            (r.Previewed? <==> meant.Rows?) && (r.Previewed? ==> Previews(r.shown, meant, limit, rowCap, own)))
      && (!WellScoped(q) || Occurs(Lost, q, cfg) ==> r.QueryFailed?)
  {
    hide Accepts, ReadsOnlyPermitted, RejectedFor, Rewrite, Run, Snapshot, GlobalDatabase, ViewDatabase, PlacedDatabase,
         ViewOf, WellScoped, Occurs, AllKept, Undecided, RefsOf, Mentioned;
    ghost var q := Statement(parsed, walk);
    var guarded := ValidateSelect(parsed, walk, cfg);
    if guarded.Rejected? {
      return Queried.Refused(guarded.why);
    }
    RewriteMeaning(q.value, cfg, g);
    LimitOfRewrite(q.value, cfg);
    var tree := Statement(parsed, walk).value;
    var shown := RunQuery(tree, GlobalDatabase(g, cfg), limit, rowCap);
    r := match shown case Some(s) => Previewed(s) case None => QueryFailed;
  }

  lemma LimitOfRewrite(q: Sql<TableRef>, cfg: Config)
    ensures TopLimit(Rewrite(q, cfg)) == TopLimit(q)
  {
    RewriteKeepsLimit(q, Renaming(CteNames(q), cfg));
  }
}

/** What the rows of the route table must satisfy, which committed updates keep it, and runs in
    which it is lost (app/services/query_engine/dynamic_routes.py, app/schemas/dynamic_route.py). */
module RouteContracts {
  import opened Wrappers
  import opened DynamicParameters
  import opened SqlSafety
  import opened RouteSchema
  import opened RouteStore

  // ---------- The demands on a row ----------

  /** The canonical SQL passes the last checks of the validator, and its placeholders are exactly
      the names that the row defines. */
  predicate Consistent(lib: SqlLibrary, r: Route) {
    CheckCanonical(lib, r.canonicalSql, r.dialect) == Success(ValidatedSql(r.canonicalSql, Names(r.params)))
  }

  /** Each column on its own is as the request schema accepts it. */
  predicate WellFormed(lib: Library, r: Route) {
    && ValidPrefix(r.prefix) && r.prefix == AsciiLower(r.prefix) && ValidPath(r.path)
    && DistinctNames(r.params) && AllAccepted(lib, r.params)
  }

  /** Columns as accepted; SQL and definitions matching; no reserved name on a paginated route. */
  datatype Demand = Columns | Matching | Unreserved

  predicate Meets(env: Env, d: Demand, r: Route) {
    match d
    case Columns => WellFormed(env.lib, r)
    case Matching => Consistent(env.sql, r)
    case Unreserved => ReservedFree(r.paginated, Names(r.params))
  }

  /** Every request that gets past validation asks for a row that meets every demand. */
  lemma {:induction false} VettedMeets(env: Env, d: Demand, p: Payload)
    requires AcceptedPayload(env.lib, p) && VetOutcome(env, p).Vetted?
    requires d.Columns? ==> IsoReadsBack(env.lib)
    ensures Meets(env, d, VetOutcome(env, p).wanted)
  {
    var v := Validated(env.sql, p.sql, p.dialect).value;
    StoredNames(env.lib, p.params);
    match d {
      case Columns => StoredDefinitionsStayAccepted(env.lib, p.params);
      case Matching => ContractIsExact(v.parameterNames, p.params);
      case Unreserved =>
    }
  }

  // ---------- When a merged row meets them ----------

  predicate KeepsSql(loaded: Route, wanted: Route) {
    wanted.canonicalSql == loaded.canonicalSql
  }

  predicate KeepsParams(loaded: Route, wanted: Route) {
    Entries(wanted.params) == Entries(loaded.params)
  }

  /** The conditions on an update, in terms of what it changes in the row that it loaded, what it
      wants, and what the row holds when it is written. */
  predicate Fits(env: Env, d: Demand, loaded: Route, wanted: Route, current: Route) {
    match d
    case Columns => true
    case Matching => MatchingFits(env.sql, loaded, wanted, current)
    case Unreserved =>
      && (KeepsParams(loaded, wanted) && wanted.paginated && !loaded.paginated ==>
           ReservedFree(true, Names(current.params)))
      && (!KeepsParams(loaded, wanted) && wanted.paginated == loaded.paginated && current.paginated ==>
            ReservedFree(true, Names(wanted.params)))
  }

  /** SQL and definitions come from the same row, or the names are the same; and if the dialect comes
      from the other row, the SQL must pass the last checks in that dialect too. */
  predicate MatchingFits(lib: SqlLibrary, loaded: Route, wanted: Route, current: Route) {
    var sqlRow := if KeepsSql(loaded, wanted) then current else wanted;
    var paramsRow := if KeepsParams(loaded, wanted) then current else wanted;
    var dialect := if wanted.dialect == loaded.dialect then current.dialect else wanted.dialect;
    if dialect == sqlRow.dialect then Names(paramsRow.params) == Names(sqlRow.params)
    else
      var checked := CheckCanonical(lib, sqlRow.canonicalSql, dialect);
      checked.Success? && checked.value.parameterNames == Names(paramsRow.params)
  }

  /** The row that an update writes meets a demand exactly when the update fits. */
  lemma {:induction false} MergedMeetsIffFits(env: Env, d: Demand, loaded: Route, wanted: Route, current: Route)
    requires Meets(env, d, wanted) && Meets(env, d, current)
    ensures Meets(env, d, Merged(loaded, wanted, current)) <==> Fits(env, d, loaded, wanted, current)
  {
  }

  /** An update of a row whose SQL, definitions, dialect and kind of response are as it loaded them fits. */
  lemma {:induction false} UndisturbedUpdateFits(env: Env, d: Demand, loaded: Route, wanted: Route, current: Route)
    requires Meets(env, d, wanted) && Meets(env, d, current)
    requires current.canonicalSql == loaded.canonicalSql && current.params == loaded.params
    requires current.dialect == loaded.dialect && current.paginated == loaded.paginated
    ensures Fits(env, d, loaded, wanted, current)
  {
    if KeepsParams(loaded, wanted) { EntriesFixNames(wanted.params, loaded.params); }
  }

  // ---------- Over every interleaving ----------

  predicate TableMeets(env: Env, d: Demand, table: map<Id, Route>) {
    forall id :: id in table ==> Meets(env, d, table[id])
  }

  /** All tables that the run went through meet the demand. */
  predicate EveryTableMeets(env: Env, d: Demand, log: seq<(nat, Change)>) {
    forall k :: 0 <= k <= |log| ==> TableMeets(env, d, Replay(log[..k]))
  }

  /** If commit k was an update, it fitted the table it was applied to. */
  predicate CommitFits(env: Env, d: Demand, s: State, k: nat)
    requires k < |s.log|
  {
    var before := Replay(s.log[..k]);
    && At(s, s.log[k].0)
    && var r := s.requests[s.log[k].0];
       r.op.Update? ==>
         && r.loaded.Some? && VetOutcome(env, r.op.payload).Vetted? && r.op.id in before
         && Fits(env, d, r.loaded.value, VetOutcome(env, r.op.payload).wanted, before[r.op.id])
  }

  predicate EveryCommitFits(env: Env, d: Demand, s: State) {
    forall k :: 0 <= k < |s.log| ==> CommitFits(env, d, s, k)
  }

  predicate AllAsked(env: Env, s: State) {
    forall k :: 0 <= k < |s.log| ==>
      At(s, s.log[k].0) && Asked(env, s.requests[s.log[k].0], s.log[k].1, Replay(s.log[..k]))
  }

  predicate OpsAccepted(env: Env, s: State) {
    forall i :: 0 <= i < |s.requests| && !s.requests[i].op.Delete? ==>
        AcceptedPayload(env.lib, s.requests[i].op.payload)
  }

  lemma {:induction false} StepKeepsOps(env: Env, s: State, e: Event)
    requires OpsAccepted(env, s) && Enabled(env, s, e)
    ensures OpsAccepted(env, Step(env, s, e))
  {
    var t := Step(env, s, e);
    forall j | 0 <= j < |t.requests| && !t.requests[j].op.Delete?
        ensures AcceptedPayload(env.lib, t.requests[j].op.payload) {
      if At(s, j) && !(e.Commit? && e.ok) { RecordsKeepSettled(env, s, e, j); }
    }
  }

  lemma {:induction false} RunKeepsOps(env: Env, s: State, events: seq<Event>)
    requires OpsAccepted(env, s) && Run(env, s, events).Some?
    ensures OpsAccepted(env, Run(env, s, events).value)
    decreases |events|
  {
    if events == [] {
    } else {
      StepKeepsOps(env, s, events[0]);
      RunKeepsOps(env, Step(env, s, events[0]), events[1..]);
    }
  }

  lemma {:induction false} ReachableIsAsked(env: Env, events: seq<Event>)
    requires Run(env, START, events).Some?
    ensures var s := Run(env, START, events).value; AllAsked(env, s) && OpsAccepted(env, s)
  {
    RunKeepsAll(env, START, events);
    RunKeepsOps(env, START, events);
  }

  lemma {:induction false} ApplyMeets(env: Env, d: Demand, before: map<Id, Route>, c: Change)
    requires TableMeets(env, d, before)
    ensures TableMeets(env, d, Apply(before, c)) <==> c.Remove? || Meets(env, d, c.row)
  {
    if c.Put? { assert Apply(before, c)[c.id] == c.row; }
  }

  /** What an asked change writes meets the demand, or for an update, does exactly when it fits. */
  lemma {:induction false} AskedMeetsIffFits(env: Env, d: Demand, r: Request, c: Change, before: map<Id, Route>)
    requires Asked(env, r, c, before) && (!r.op.Delete? ==> AcceptedPayload(env.lib, r.op.payload))
    requires d.Columns? ==> IsoReadsBack(env.lib)
    requires TableMeets(env, d, before)
    ensures r.op.Delete? ==> c.Remove?
    ensures r.op.Create? ==> c.Put? && Meets(env, d, c.row)
    ensures r.op.Update? ==>
              c.Put? && (Meets(env, d, c.row)
                         <==> Fits(env, d, r.loaded.value, VetOutcome(env, r.op.payload).wanted, before[r.op.id]))
  {
    if !r.op.Delete? { VettedMeets(env, d, r.op.payload); }
    if r.op.Update? {
      MergedMeetsIffFits(env, d, r.loaded.value, VetOutcome(env, r.op.payload).wanted, before[r.op.id]);
    }
  }

  lemma {:induction false} ReplayNext(log: seq<(nat, Change)>, k: nat)
    requires k < |log|
    ensures Replay(log[..k + 1]) == Apply(Replay(log[..k]), log[k].1)
  {
    assert log[..k + 1][..k] == log[..k];
  }

  /** One commit, from a table that meets the demand, leads to one that does exactly when it fits. */
  lemma {:induction false} CommitMeetsIffFits(env: Env, d: Demand, s: State, k: nat)
    requires AllAsked(env, s) && OpsAccepted(env, s) && k < |s.log|
    requires d.Columns? ==> IsoReadsBack(env.lib)
    requires TableMeets(env, d, Replay(s.log[..k]))
    ensures TableMeets(env, d, Replay(s.log[..k + 1])) <==> CommitFits(env, d, s, k)
  {
    var before := Replay(s.log[..k]);
    ReplayNext(s.log, k);
    ApplyMeets(env, d, before, s.log[k].1);
    AskedMeetsIffFits(env, d, s.requests[s.log[k].0], s.log[k].1, before);
  }

  lemma {:induction false} FittingCommitsMeet(env: Env, d: Demand, s: State, k: nat)
    requires AllAsked(env, s) && OpsAccepted(env, s) && k <= |s.log| && EveryCommitFits(env, d, s)
    requires d.Columns? ==> IsoReadsBack(env.lib)
    ensures TableMeets(env, d, Replay(s.log[..k]))
  {
    if k == 0 {
      assert Replay(s.log[..0]) == map[];
    } else {
      var j := k - 1;
      FittingCommitsMeet(env, d, s, j);
      CommitMeetsIffFits(env, d, s, j);
      assert CommitFits(env, d, s, j);
      assert s.log[..j + 1] == s.log[..k];
    }
  }

  /** Over every interleaving and for each demand: every table along the run meets it exactly when
      every committed update fitted the row it was written to. */
  lemma {:induction false} TablesMeetIffCommitsFit(env: Env, d: Demand, events: seq<Event>)
    requires Run(env, START, events).Some?
    requires d.Columns? ==> IsoReadsBack(env.lib)
    ensures var s := Run(env, START, events).value;
            EveryTableMeets(env, d, s.log) <==> EveryCommitFits(env, d, s)
  {
    var s := Run(env, START, events).value;
    ReachableIsAsked(env, events);
    if EveryTableMeets(env, d, s.log) {
      forall k | 0 <= k < |s.log| ensures CommitFits(env, d, s, k) {
        assert TableMeets(env, d, Replay(s.log[..k])) && TableMeets(env, d, Replay(s.log[..k + 1]));
        CommitMeetsIffFits(env, d, s, k);
      }
    } else {
      var k :| 0 <= k <= |s.log| && !TableMeets(env, d, Replay(s.log[..k]));
      if EveryCommitFits(env, d, s) {
        FittingCommitsMeet(env, d, s, k);
      }
    }
  }

  /** The current table meets a demand when every committed update fitted. */
  lemma {:induction false} ReachableTableMeets(env: Env, d: Demand, events: seq<Event>)
    requires Run(env, START, events).Some?
    requires d.Columns? ==> IsoReadsBack(env.lib)
    ensures var s := Run(env, START, events).value;
            EveryCommitFits(env, d, s) ==> TableMeets(env, d, s.committed)
  {
    var s := Run(env, START, events).value;
    RunKeepsAll(env, START, events);
    TablesMeetIffCommitsFit(env, d, events);
    assert s.log[..|s.log|] == s.log;
  }

  lemma {:induction false} ColumnsAlwaysFit(env: Env, events: seq<Event>)
    requires Run(env, START, events).Some?
    ensures EveryCommitFits(env, Columns, Run(env, START, events).value)
  {
    var s := Run(env, START, events).value;
    ReachableIsAsked(env, events);
    forall k | 0 <= k < |s.log| ensures CommitFits(env, Columns, s, k) {
      assert Asked(env, s.requests[s.log[k].0], s.log[k].1, Replay(s.log[..k]));
    }
  }

  /** Over every interleaving, each stored row satisfies the table's constraints and has accepted
      definitions with distinct names, and no two stored rows share a URL. */
  lemma {:induction false} StoredRowsAreWellFormed(env: Env, events: seq<Event>)
    requires Run(env, START, events).Some? && IsoReadsBack(env.lib)
    ensures var table := Run(env, START, events).value.committed;
            && (forall id :: id in table ==>
                  WellFormed(env.lib, table[id]) && SatisfiesChecks(table[id].prefix, table[id].path))
            && (forall a, b :: a in table && b in table && a != b ==>
                  ApiPath(table[a].prefix, table[a].path) != ApiPath(table[b].prefix, table[b].path))
  {
    var s := Run(env, START, events).value;
    var table := s.committed;
    ColumnsAlwaysFit(env, events);
    ReachableTableMeets(env, Columns, events);
    assert forall id :: id in table ==> Meets(env, Columns, table[id]);
    forall id | id in table ensures SatisfiesChecks(table[id].prefix, table[id].path) {
      SegmentsIffChecks(table[id].path);
    }
    UniqueRoutesAndErrors(env, events);
    forall a, b | a in table && b in table && a != b
      ensures ApiPath(table[a].prefix, table[a].path) != ApiPath(table[b].prefix, table[b].path)
    {
      assert Key(table[a]) != Key(table[b]);
      ApiPathIsInjective(table[a].prefix, table[a].path, table[b].prefix, table[b].path);
    }
  }
}

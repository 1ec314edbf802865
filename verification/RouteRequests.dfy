/** What each write request does to the route table, told from its payload and from the table, over
    every interleaving (app/services/query_engine/dynamic_routes.py, app/api/v1/endpoints/dynamic_routes.py). */
module RouteRequests {
  import opened Wrappers
  import opened Strings
  import opened DynamicParameters
  import opened SqlSafety
  import opened RouteSchema
  import opened RouteStore
  import opened RouteContracts

  // ---------- What is written, column by column ----------

  /** The stored definitions are those of the payload, with their defaults as JSON keeps them. */
  predicate HoldsDefinitions(lib: Library, stored: Definitions, defs: Definitions) {
    && |stored| == |defs|
    && forall i :: 0 <= i < |defs| ==>
         && stored[i].0 == defs[i].0
         && stored[i].1.kind == defs[i].1.kind
         && stored[i].1.required == defs[i].1.required
         && stored[i].1.description == defs[i].1.description
         && stored[i].1.default == Stored(lib, defs[i].1.default)
  }

  lemma {:induction false} StoredHoldsDefinitions(lib: Library, defs: Definitions, stored: Definitions)
    ensures HoldsDefinitions(lib, stored, defs) <==> stored == StoredDefinitions(lib, defs)
  {
    if HoldsDefinitions(lib, stored, defs) {
      forall i | 0 <= i < |defs| ensures stored[i] == StoredDefinitions(lib, defs)[i] {
      }
    }
  }

  /** The SQL of the payload validates, and its placeholders are the names of its definitions. */
  predicate PassesChecks(env: Env, p: Payload) {
    && Validated(env.sql, p.sql, p.dialect).Success?
    && Validated(env.sql, p.sql, p.dialect).value.parameterNames == Names(p.params)
    && forall i :: 0 <= i < |p.params| ==> IsName(p.params[i].0)
  }

  lemma {:induction false} VettedIffPasses(env: Env, p: Payload)
    ensures VetOutcome(env, p).Vetted? <==> PassesChecks(env, p)
  {
    var v := Validated(env.sql, p.sql, p.dialect);
    if v.Success? {
      ContractIsExact(v.value.parameterNames, p.params);
      if v.value.parameterNames == Names(p.params) {
        forall i | 0 <= i < |p.params| ensures p.params[i].0 in Names(p.params) {
        }
      }
    }
  }

  /** Over every interleaving: a create that was committed had passed the checks and stored, under a new
      id, each column of its payload, with the canonical text of its SQL. */
  lemma {:induction false} CreateWritesPayload(env: Env, events: seq<Event>, k: nat)
    requires Run(env, START, events).Some? && k < |Run(env, START, events).value.log|
    requires var s := Run(env, START, events).value; At(s, s.log[k].0) && s.requests[s.log[k].0].op.Create?
    ensures var s := Run(env, START, events).value;
            var p, c := s.requests[s.log[k].0].op.payload, s.log[k].1;
            && PassesChecks(env, p) && c.Put? && c.id !in Replay(s.log[..k])
            && c.row.prefix == p.prefix && c.row.path == p.path && c.row.description == p.description
            && c.row.originalSql == p.sql && c.row.dialect == p.dialect
            && c.row.piiColumn == p.piiColumn && c.row.paginated == p.paginated
            && c.row.canonicalSql == Validated(env.sql, p.sql, p.dialect).value.canonicalSql
            && HoldsDefinitions(env.lib, c.row.params, p.params)
  {
    CommittedChangesAreAsked(env, events, k);
    var s := Run(env, START, events).value;
    var p := s.requests[s.log[k].0].op.payload;
    VettedIffPasses(env, p);
    StoredHoldsDefinitions(env.lib, p.params, s.log[k].1.row.params);
  }

  /** A column is written where the payload differs from what the request had loaded, and kept else. */
  predicate Writes<T(==)>(loaded: T, asked: T, current: T, after: T) {
    if asked == loaded then after == current else after == asked
  }

  /** Over every interleaving: an update that was committed had passed the checks and, in each column,
      wrote its payload where that differs from the row it had loaded, and kept the table's value else. */
  lemma {:induction false} UpdateWritesPayload(env: Env, events: seq<Event>, k: nat)
    requires Run(env, START, events).Some? && k < |Run(env, START, events).value.log|
    requires var s := Run(env, START, events).value; At(s, s.log[k].0) && s.requests[s.log[k].0].op.Update?
    ensures var s := Run(env, START, events).value;
            var r, c, before := s.requests[s.log[k].0], s.log[k].1, Replay(s.log[..k]);
            var p, id := r.op.payload, r.op.id;
            && PassesChecks(env, p) && c.Put? && c.id == id && id in before && r.loaded.Some?
            && Writes(r.loaded.value.prefix, p.prefix, before[id].prefix, c.row.prefix)
            && Writes(r.loaded.value.path, p.path, before[id].path, c.row.path)
            && Writes(r.loaded.value.description, p.description, before[id].description, c.row.description)
            && Writes(r.loaded.value.originalSql, p.sql, before[id].originalSql, c.row.originalSql)
            && Writes(r.loaded.value.canonicalSql, Validated(env.sql, p.sql, p.dialect).value.canonicalSql,
                      before[id].canonicalSql, c.row.canonicalSql)
            && Writes(r.loaded.value.dialect, p.dialect, before[id].dialect, c.row.dialect)
            && Writes(r.loaded.value.piiColumn, p.piiColumn, before[id].piiColumn, c.row.piiColumn)
            && Writes(r.loaded.value.paginated, p.paginated, before[id].paginated, c.row.paginated)
            && (if Entries(StoredDefinitions(env.lib, p.params)) == Entries(r.loaded.value.params)
                then c.row.params == before[id].params else HoldsDefinitions(env.lib, c.row.params, p.params))
  {
    CommittedChangesAreAsked(env, events, k);
    var s := Run(env, START, events).value;
    var r := s.requests[s.log[k].0];
    VettedIffPasses(env, r.op.payload);
    StoredHoldsDefinitions(env.lib, r.op.payload.params, StoredDefinitions(env.lib, r.op.payload.params));
  }

  // ---------- What a request has loaded ----------

  /** The row was in the table under this id after some of the commits. */
  predicate WasStored(log: seq<(nat, Change)>, id: Id, row: Route) {
    exists m :: 0 <= m <= |log| && id in Replay(log[..m]) && Replay(log[..m])[id] == row
  }

  predicate LoadedInv(s: State) {
    && s.committed == Replay(s.log)
    && forall i :: 0 <= i < |s.requests| && s.requests[i].loaded.Some? ==>
         !s.requests[i].op.Create? && WasStored(s.log, s.requests[i].op.id, s.requests[i].loaded.value)
  }

  lemma {:induction false} StoredStays(log: seq<(nat, Change)>, more: seq<(nat, Change)>, id: Id, row: Route)
    requires WasStored(log, id, row) && log <= more
    ensures WasStored(more, id, row)
  {
    var m :| 0 <= m <= |log| && id in Replay(log[..m]) && Replay(log[..m])[id] == row;
    assert more[..m] == log[..m];
  }

  /** Only a load changes what is loaded, to the row that the table then holds. */
  lemma {:induction false} LoadedOf(env: Env, s: State, e: Event, i: nat)
    requires Enabled(env, s, e) && i < |Step(env, s, e).requests|
    ensures var r := Step(env, s, e).requests[i];
            if i >= |s.requests| then r.loaded.None?
            else r.op == s.requests[i].op
                 && (r.loaded == s.requests[i].loaded
                     || (e == Load(i) && r.op.id in s.committed && r.loaded == Some(s.committed[r.op.id])))
  {
    if i < |s.requests| && (e.Receive? || e.i != i) { OthersUntouched(env, s, e, i); }
  }

  lemma {:induction false} LogOnlyGrows(env: Env, s: State, e: Event)
    requires Inv(s) && Enabled(env, s, e)
    ensures s.log <= Step(env, s, e).log
  {
    if !(e.Commit? && e.ok) { OtherStepsKeepTable(env, s, e); }
  }

  lemma {:induction false} StepKeepsLoaded(env: Env, s: State, e: Event)
    requires Inv(s) && LogInv(s) && LoadedInv(s) && Enabled(env, s, e)
    ensures LoadedInv(Step(env, s, e))
  {
    var t := Step(env, s, e);
    StepKeepsLog(env, s, e);
    LogOnlyGrows(env, s, e);
    forall i | 0 <= i < |t.requests| && t.requests[i].loaded.Some?
      ensures !t.requests[i].op.Create? && WasStored(t.log, t.requests[i].op.id, t.requests[i].loaded.value)
    {
      LoadedOf(env, s, e, i);
      var id, row := t.requests[i].op.id, t.requests[i].loaded.value;
      if t.requests[i].loaded != s.requests[i].loaded {
        assert s.log[..|s.log|] == s.log;
      }
      assert WasStored(s.log, id, row);
      StoredStays(s.log, t.log, id, row);
    }
  }

  lemma {:induction false} RunKeepsLoaded(env: Env, s: State, events: seq<Event>)
    requires Inv(s) && LogInv(s) && LoadedInv(s) && Run(env, s, events).Some?
    ensures LoadedInv(Run(env, s, events).value)
    decreases |events|
  {
    if events == [] {
    } else {
      StepKeepsInv(env, s, events[0]);
      StepKeepsLog(env, s, events[0]);
      StepKeepsLoaded(env, s, events[0]);
      RunKeepsLoaded(env, Step(env, s, events[0]), events[1..]);
    }
  }

  /** Over every interleaving: what an update or a delete has loaded is a row that was in the table under
      its id. */
  lemma {:induction false} LoadedRowsWereStored(env: Env, events: seq<Event>, i: nat)
    requires Run(env, START, events).Some?
    requires var s := Run(env, START, events).value; At(s, i) && s.requests[i].loaded.Some?
    ensures var s := Run(env, START, events).value;
            !s.requests[i].op.Create? && WasStored(s.log, s.requests[i].op.id, s.requests[i].loaded.value)
  {
    RunKeepsLoaded(env, START, events);
  }

  // ---------- Why requests fail ----------

  /** Another stored route than `except` has this prefix and path. */
  predicate HasRoute(table: map<Id, Route>, prefix: string, path: string, except: Option<Id>) {
    exists id :: id in table && Some(id) != except && table[id].prefix == prefix && table[id].path == path
  }

  /** The validator's error comes first, then the check of the names; nothing else is refused here. */
  lemma {:induction false} VettingFailsFor(env: Env, s: State, i: nat)
    requires Enabled(env, s, Vet(i))
    ensures var p, after := s.requests[i].op.payload, Step(env, s, Vet(i)).requests[i].stage;
            var v := Validated(env.sql, p.sql, p.dialect);
            && (after.Failed? || after.RejectedSql? <==> !PassesChecks(env, p))
            && (after.RejectedSql? <==> v.Failure?) && (v.Failure? ==> after == RejectedSql(v.error))
            && (after.Failed? ==> after == Failed(ContractRejected))
  {
    VettedIffPasses(env, s.requests[i].op.payload);
  }

  /** Over every interleaving, the failures of the steps before the flush and their causes, told from the
      payload and the table: an unknown id, SQL that the validator rejects, names that do not match, a
      route that exists, a failed lab test; and what fails from there on. */
  lemma {:induction false} FailuresHaveTheirCause(env: Env, events: seq<Event>, e: Event)
    requires Run(env, START, events).Some? && Enabled(env, Run(env, START, events).value, e) && !e.Receive?
    ensures var s := Run(env, START, events).value;
            var r, after := s.requests[e.i], Step(env, s, e).requests[e.i].stage;
            && (e.Load? ==> (after == Failed(NotFound) <==> r.op.id !in s.committed))
            && (e.Vet? ==> (after.Failed? || after.RejectedSql? <==> !PassesChecks(env, r.op.payload)))
            && (e.Lookup? ==>
                  && !r.op.Delete?
                  && (after == Failed(Conflict)
                      <==> HasRoute(s.committed, r.op.payload.prefix, r.op.payload.path,
                                    if r.op.Update? then Some(r.op.id) else None)))
            && (e.LabTest? ==> (after == Failed(LabTestFailed) <==> !e.ok))
            && (e.Commit? ==> (after == Failed(CommitFailed) <==> !e.ok))
            && (e.AuditSuccess? ==> (after == Failed(AuditFailed) <==> !e.ok))
            && (e.AuditRejection? ==> after == Failed(SqlRejected(r.stage.sql)))
  {
    var s := Run(env, START, events).value;
    match e {
      case Vet(i) => VettingFailsFor(env, s, i);
      case Lookup(i) =>
        RunKeepsAll(env, START, events);
        assert Faithful(env, s.requests[i], s.committed);
        LookupFinds(env, s, i);
      case _ =>
    }
  }

  lemma {:induction false} LookupFinds(env: Env, s: State, i: nat)
    requires Enabled(env, s, Lookup(i)) && Faithful(env, s.requests[i], s.committed)
    ensures !s.requests[i].op.Delete?
    ensures var r := s.requests[i];
            Step(env, s, Lookup(i)).requests[i].stage == Failed(Conflict)
            <==> HasRoute(s.committed, r.op.payload.prefix, r.op.payload.path,
                          if r.op.Update? then Some(r.op.id) else None)
  {
    var r := s.requests[i];
    forall id | id in s.committed
      ensures Key(s.committed[id]) == Key(r.stage.wanted)
         <==> s.committed[id].prefix == r.op.payload.prefix && s.committed[id].path == r.op.payload.path
    {
    }
  }

  /** A flush fails for the route that its row would duplicate, or for a row that is gone. */
  lemma {:induction false} FlushFailsFor(env: Env, s: State, i: nat)
    requires Enabled(env, s, Flush(i)) && Inv(s) && Faithful(env, s.requests[i], s.committed)
    ensures var r, after := s.requests[i], Step(env, s, Flush(i)).requests[i].stage;
            match r.op
            case Delete(_) => after == Flushed(Remove(r.op.id))
            case Create(p) =>
              && (after == Failed(Conflict) <==> HasRoute(s.committed, p.prefix, p.path, None))
              && (after.Failed? ==> after == Failed(Conflict))
            case Update(id, p) =>
              && r.loaded.Some?
              && (id !in s.committed <==> after == Failed(StaleRow))
              && (id in s.committed ==>
                    var prefix := if p.prefix == r.loaded.value.prefix then s.committed[id].prefix else p.prefix;
                    var path := if p.path == r.loaded.value.path then s.committed[id].path else p.path;
                    && (after == Failed(Conflict) <==> HasRoute(s.committed, prefix, path, Some(id)))
                    && (after.Failed? ==> after == Failed(Conflict)))
  {
    var r := s.requests[i];
    match r.op {
      case Create(p) =>
        assert s.nextId !in s.committed;
        assert Key(r.edited.value) == (p.prefix, p.path);
        assert Taken(s.committed, s.nextId, r.edited.value) <==> HasRoute(s.committed, p.prefix, p.path, None);
      case Update(id, p) =>
        if id in s.committed { assert Target(s, i).1.Some?; }
      case Delete(_) =>
    }
  }

  // ---------- The order of the steps ----------

  /** The steps of request i among the events; a timeout of its answer is not one of them. */
  function Steps(events: seq<Event>, i: nat): seq<Event> {
    if events == [] then []
    else Steps(events[..|events| - 1], i) + (if IsStep(events[|events| - 1], i) then [events[|events| - 1]] else [])
  }

  predicate IsStep(e: Event, i: nat) {
    !e.Receive? && !e.TimeOut? && e.i == i
  }

  function Opening(op: Op, i: nat): seq<Event> {
    if op.Create? then [] else [Load(i)]
  }

  /** A create or an update is vetted, looked up, lab-tested, edited, flushed, committed and audited; an
      update or delete loads its row first, and a delete goes from there to its flush. */
  predicate Order(op: Op, stage: Stage, steps: seq<Event>, i: nat) {
    match stage
    case Arrived => steps == []
    case Loaded(_) => steps == [Load(i)]
    case Vetted(_) => steps == Opening(op, i) + [Vet(i)]
    case RejectedSql(_) => steps == Opening(op, i) + [Vet(i)]
    case Checked(_) => steps == Opening(op, i) + [Vet(i), Lookup(i)]
    case Tested(_) => steps == Opening(op, i) + [Vet(i), Lookup(i), LabTest(i, true)]
    case Edited => steps == Opening(op, i) + Editing(i)
    case Flushed(_) => steps == UpToFlush(op, i)
    case Committed => steps == UpToFlush(op, i) + [Commit(i, true)]
    case Done => steps == UpToFlush(op, i) + [Commit(i, true), AuditSuccess(i, true)]
    case Failed(_) => true
  }

  function Editing(i: nat): seq<Event> {
    [Vet(i), Lookup(i), LabTest(i, true), Edit(i)]
  }

  function UpToFlush(op: Op, i: nat): seq<Event> {
    if op.Delete? then [Load(i), Flush(i)] else Opening(op, i) + Editing(i) + [Flush(i)]
  }

  ghost predicate AllInOrder(s: State, events: seq<Event>) {
    && (forall i :: 0 <= i < |s.requests| ==> Order(s.requests[i].op, s.requests[i].stage, Steps(events, i), i))
    && (forall i: nat :: i >= |s.requests| ==> Steps(events, i) == [])
  }

  lemma {:induction false} StepsNext(events: seq<Event>, e: Event, i: nat)
    ensures Steps(events + [e], i) == Steps(events, i) + if IsStep(e, i) then [e] else []
  {
    assert (events + [e])[..|events|] == events;
  }

  lemma {:induction false} OwnStepInOrder(env: Env, s: State, e: Event, steps: seq<Event>)
    requires Enabled(env, s, e) && !e.Receive? && !e.TimeOut?
    requires Order(s.requests[e.i].op, s.requests[e.i].stage, steps, e.i)
    ensures e.i < |Step(env, s, e).requests|
    ensures var r := Step(env, s, e).requests[e.i];
            r.op == s.requests[e.i].op && Order(r.op, r.stage, steps + [e], e.i)
  {
  }

  lemma {:induction false} StepKeepsOrder(env: Env, s: State, events: seq<Event>, e: Event, i: nat)
    requires AllInOrder(s, events) && Enabled(env, s, e)
    ensures var t := Step(env, s, e);
            && (i < |t.requests| ==> Order(t.requests[i].op, t.requests[i].stage, Steps(events + [e], i), i))
            && (i >= |t.requests| ==> Steps(events + [e], i) == [])
  {
    StepsNext(events, e, i);
    if i < |s.requests| {
      assert Order(s.requests[i].op, s.requests[i].stage, Steps(events, i), i);
      if IsStep(e, i) {
        OwnStepInOrder(env, s, e, Steps(events, i));
      } else if e.Receive? || e.i != i {
        OthersUntouched(env, s, e, i);
      }
    }
  }

  lemma {:induction false} RunKeepsOrder(env: Env, s: State, past: seq<Event>, events: seq<Event>)
    requires AllInOrder(s, past) && Run(env, s, events).Some?
    ensures AllInOrder(Run(env, s, events).value, past + events)
    decreases |events|
  {
    if events == [] {
      assert past + events == past;
    } else {
      var t := Step(env, s, events[0]);
      forall i: nat
        ensures i < |t.requests| ==> Order(t.requests[i].op, t.requests[i].stage, Steps(past + [events[0]], i), i)
        ensures i >= |t.requests| ==> Steps(past + [events[0]], i) == []
      {
        StepKeepsOrder(env, s, past, events[0], i);
      }
      RunKeepsOrder(env, t, past + [events[0]], events[1..]);
      assert past + [events[0]] + events[1..] == past + events;
    }
  }

  /** Over every interleaving each request that has not failed has gone through exactly the steps that
      lead to where it is, in order: no check is skipped. */
  lemma {:induction false} RequestsFollowTheProgram(env: Env, events: seq<Event>)
    requires Run(env, START, events).Some?
    ensures AllInOrder(Run(env, START, events).value, events)
  {
    assert [] + events == events;
    RunKeepsOrder(env, START, [], events);
  }

  // ---------- Requests can go on ----------

  predicate Placed(r: Request) {
    && (r.stage.Edited? ==> r.edited.Some?)
    && (r.stage.Loaded? ==> !r.op.Create?)
    && (r.stage.Vetted? || r.stage.Checked? || r.stage.Tested? || r.stage.Edited? ==> !r.op.Delete?)
  }

  predicate AllPlaced(s: State) {
    forall i :: 0 <= i < |s.requests| ==> Placed(s.requests[i])
  }

  lemma {:induction false} StepKeepsPlaced(env: Env, s: State, e: Event)
    requires AllPlaced(s) && Enabled(env, s, e)
    ensures AllPlaced(Step(env, s, e))
  {
    var t := Step(env, s, e);
    forall i | 0 <= i < |t.requests| ensures Placed(t.requests[i]) {
      if i < |s.requests| && (e.Receive? || e.i != i) { OthersUntouched(env, s, e, i); }
    }
  }

  lemma {:induction false} RunKeepsPlaced(env: Env, s: State, events: seq<Event>)
    requires AllPlaced(s) && Run(env, s, events).Some?
    ensures AllPlaced(Run(env, s, events).value)
    decreases |events|
  {
    if events == [] {
    } else {
      StepKeepsPlaced(env, s, events[0]);
      RunKeepsPlaced(env, Step(env, s, events[0]), events[1..]);
    }
  }

  predicate SameRoute(a: Route, b: Route) {
    a.prefix == b.prefix && a.path == b.path
  }

  /** A change that is flushed and not committed keeps another flush waiting: it is about the same row, or
      about a row whose route it has, or had before the change. */
  predicate Interferes(committed: map<Id, Route>, c: Change, id: Id, row: Option<Route>) {
    || c.id == id
    || (row.Some? && c.Put? && SameRoute(c.row, row.value))
    || (row.Some? && c.id in committed && SameRoute(committed[c.id], row.value))
  }

  /** Over every interleaving no request is ever stuck: one that has not ended can take a step of its own,
      or waits for the commit of a request that has flushed an interfering change; that commit can run. */
  lemma {:induction false} RequestsCanGoOn(env: Env, events: seq<Event>, i: nat)
    requires Run(env, START, events).Some?
    requires var s := Run(env, START, events).value;
             At(s, i) && !s.requests[i].stage.Done? && !s.requests[i].stage.Failed?
    ensures var s := Run(env, START, events).value;
            || (exists e :: IsStep(e, i) && !e.Abort? && Enabled(env, s, e))
            || (&& (s.requests[i].op.Delete? || (s.requests[i].stage.Edited? && s.requests[i].edited.Some?))
                && exists j: nat ::
                     && j != i && At(s, j) && s.requests[j].stage.Flushed? && Enabled(env, s, Commit(j, true))
                     && Interferes(s.committed, s.requests[j].stage.change, Target(s, i).0, Target(s, i).1))
  {
    RunKeepsPlaced(env, START, events);
    var s := Run(env, START, events).value;
    var r := s.requests[i];
    assert Placed(r);
    if (r.stage.Loaded? && r.op.Delete?) || r.stage.Edited? {
      if Blocked(s, i, Target(s, i).0, Target(s, i).1) {
        BlockedByFlushed(env, s, i, Target(s, i).0, Target(s, i).1);
      } else {
        assert Enabled(env, s, Flush(i)) && IsStep(Flush(i), i);
      }
    } else {
      assert Enabled(env, s, OwnStep(env, s, i)) && IsStep(OwnStep(env, s, i), i);
    }
  }

  /** A flush waits exactly while another request has flushed an interfering change and not committed it. */
  lemma {:induction false} BlockedByFlushed(env: Env, s: State, i: nat, id: Id, row: Option<Route>)
    ensures Blocked(s, i, id, row)
       <==> exists j: nat ::
              && j != i && At(s, j) && s.requests[j].stage.Flushed? && Enabled(env, s, Commit(j, true))
              && Interferes(s.committed, s.requests[j].stage.change, id, row)
  {
    if j: nat :| j != i && At(s, j) && s.requests[j].stage.Flushed? && Enabled(env, s, Commit(j, true))
                 && Interferes(s.committed, s.requests[j].stage.change, id, row)
    {
      assert PendingElsewhere(s, i, j);
    }
    if Blocked(s, i, id, row) {
      var j :| 0 <= j < |s.requests| && PendingElsewhere(s, i, j) &&
        var c := s.requests[j].stage.change;
        || c.id == id
        || (row.Some? && c.Put? && Key(c.row) == Key(row.value))
        || (row.Some? && c.id in s.committed && Key(s.committed[c.id]) == Key(row.value));
      assert Enabled(env, s, Commit(j, true));
    }
  }

  /** A step that a request can take where it is, unless that is its flush. */
  function OwnStep(env: Env, s: State, i: nat): Event
    requires At(s, i)
  {
    var r := s.requests[i];
    match r.stage
    case Arrived => if r.op.Create? then Vet(i) else Load(i)
    case Loaded(_) => Vet(i)
    case Vetted(_) => Lookup(i)
    case Checked(_) =>
      LabTest(i, r.op.Delete? || !r.op.payload.labTest
                 || CastParameters(env.lib, r.op.payload.params, CollectMapping(r.op.payload.labTestParams)).Success?)
    case Tested(_) => Edit(i)
    case Flushed(_) => Commit(i, true)
    case RejectedSql(_) => AuditRejection(i)
    case _ => AuditSuccess(i, true)
  }

  // ---------- What a committed change has passed ----------

  /** The parameters of the lab test cast, if the payload asks for a lab test. */
  predicate LabParametersCast(env: Env, op: Op) {
    !op.Delete? && op.payload.labTest ==>
      CastParameters(env.lib, op.payload.params, CollectMapping(op.payload.labTestParams)).Success?
  }

  predicate PastLab(stage: Stage) {
    stage.Tested? || stage.Edited? || stage.Flushed? || stage.Committed? || stage.Done?
  }

  predicate LabInv(env: Env, s: State) {
    && (forall i :: 0 <= i < |s.requests| && PastLab(s.requests[i].stage) ==> LabParametersCast(env, s.requests[i].op))
    && (forall k :: 0 <= k < |s.log| ==> At(s, s.log[k].0) && LabParametersCast(env, s.requests[s.log[k].0].op))
  }

  lemma {:induction false} StepKeepsLab(env: Env, s: State, e: Event)
    requires Inv(s) && AllPlaced(s) && LabInv(env, s) && Enabled(env, s, e)
    ensures LabInv(env, Step(env, s, e))
  {
    var t := Step(env, s, e);
    LogGrowsByOwn(env, s, e);
    forall i | 0 <= i < |t.requests| ensures PastLab(t.requests[i].stage) ==> LabParametersCast(env, t.requests[i].op) {
      StepKeepsCast(env, s, e, i);
    }
    forall k | 0 <= k < |t.log| ensures At(t, t.log[k].0) && LabParametersCast(env, t.requests[t.log[k].0].op) {
      StepKeepsCast(env, s, e, t.log[k].0);
      if k < |s.log| { assert t.log[k] == s.log[k]; }
    }
  }

  lemma {:induction false} StepKeepsCast(env: Env, s: State, e: Event, i: nat)
    requires AllPlaced(s) && Enabled(env, s, e) && i < |Step(env, s, e).requests|
    requires i < |s.requests| && PastLab(s.requests[i].stage) ==> LabParametersCast(env, s.requests[i].op)
    ensures var r := Step(env, s, e).requests[i];
            && (PastLab(r.stage) ==> LabParametersCast(env, r.op))
            && (i < |s.requests| ==> r.op == s.requests[i].op)
  {
    if i < |s.requests| && (e.Receive? || e.i != i) { OthersUntouched(env, s, e, i); }
  }

  /** A new entry of the log is the change of the request that committed it. */
  lemma {:induction false} LogGrowsByOwn(env: Env, s: State, e: Event)
    requires Inv(s) && Enabled(env, s, e)
    ensures var t := Step(env, s, e);
            && |t.requests| >= |s.requests| && s.log <= t.log
            && (t.log == s.log
                || (e.Commit? && At(s, e.i) && s.requests[e.i].stage.Flushed?
                    && |t.log| == |s.log| + 1 && t.log[|s.log|].0 == e.i))
  {
    if !(e.Commit? && e.ok) { OtherStepsKeepTable(env, s, e); }
  }

  lemma {:induction false} RunKeepsLab(env: Env, s: State, events: seq<Event>)
    requires Inv(s) && AllPlaced(s) && LabInv(env, s) && Run(env, s, events).Some?
    ensures LabInv(env, Run(env, s, events).value)
    decreases |events|
  {
    if events == [] {
    } else {
      StepKeepsInv(env, s, events[0]);
      StepKeepsPlaced(env, s, events[0]);
      StepKeepsLab(env, s, events[0]);
      RunKeepsLab(env, Step(env, s, events[0]), events[1..]);
    }
  }

  /** Over every interleaving: a committed create or update that asked for a lab test has lab-test
      parameters that its definitions accept. */
  lemma {:induction false} CommittedChangesPassedLab(env: Env, events: seq<Event>, k: nat)
    requires Run(env, START, events).Some? && k < |Run(env, START, events).value.log|
    ensures var s := Run(env, START, events).value;
            At(s, s.log[k].0) && LabParametersCast(env, s.requests[s.log[k].0].op)
  {
    RunKeepsLab(env, START, events);
  }

  // ---------- The URLs of stored routes ----------

  /** Over every interleaving no stored route shadows a URL of the management API, and the prefix is
      made of the characters that it may have. */
  lemma {:induction false} StoredUrlsAreFree(env: Env, events: seq<Event>, id: Id)
    requires Run(env, START, events).Some? && IsoReadsBack(env.lib)
    requires id in Run(env, START, events).value.committed
    ensures var row := Run(env, START, events).value.committed[id];
            !UnderManagement(ApiPath(row.prefix, row.path)) && 3 <= |row.prefix| <= 50 && IsPlainPrefix(row.prefix)
  {
    StoredRowsAreWellFormed(env, events);
    var row := Run(env, START, events).value.committed[id];
    assert WellFormed(env.lib, row);
    AcceptedUrlIsFree(row.prefix, row.path);
    PrefixIsPlain(row.prefix);
  }
}

/** Concurrent create, update and delete requests against the route table
    (app/services/query_engine/dynamic_routes.py, app/api/v1/endpoints/dynamic_routes.py). Each
    request has its own session: it reads committed rows, flushes its change under the unique
    constraint on (prefix, path), commits or rolls back, and after a commit writes an audit row,
    which may fail too. */
module RouteStore {
  import opened Wrappers
  import opened DynamicParameters
  import opened SqlSafety
  import opened RouteSchema

  type Id = nat

  /** The SQL library and the conversions of the language. */
  datatype Env = Env(sql: SqlLibrary, lib: Library)

  datatype Route = Route(
    prefix: string,
    path: string,
    description: string,
    originalSql: string,
    canonicalSql: string,
    params: Definitions,
    dialect: Dialect,
    piiColumn: Option<string>,
    paginated: bool)

  function Key(r: Route): (string, string) {
    (r.prefix, r.path)
  }

  /** The row that a validated payload asks for; the definitions go through the JSON column. */
  function Wanted(env: Env, p: Payload, v: ValidatedSql): Route {
    Route(p.prefix, p.path, p.description, p.sql, v.canonicalSql, StoredDefinitions(env.lib, p.params),
          p.dialect, p.piiColumn, p.paginated)
  }

  function Pick<T(==)>(loaded: T, wanted: T, current: T): T {
    if wanted == loaded then current else wanted
  }

  /** An UPDATE sets only the columns whose new value differs from the loaded one; the others keep
      what the row holds when the statement runs. */
  function Merged(loaded: Route, wanted: Route, current: Route): Route {
    Route(Pick(loaded.prefix, wanted.prefix, current.prefix),
          Pick(loaded.path, wanted.path, current.path),
          Pick(loaded.description, wanted.description, current.description),
          Pick(loaded.originalSql, wanted.originalSql, current.originalSql),
          Pick(loaded.canonicalSql, wanted.canonicalSql, current.canonicalSql),
          if Entries(wanted.params) == Entries(loaded.params) then current.params else wanted.params,
          Pick(loaded.dialect, wanted.dialect, current.dialect),
          Pick(loaded.piiColumn, wanted.piiColumn, current.piiColumn),
          Pick(loaded.paginated, wanted.paginated, current.paginated))
  }

  // ---------- Requests ----------

  datatype Op = Create(payload: Payload) | Update(id: Id, payload: Payload) | Delete(id: Id)

  datatype Change = Put(id: Id, row: Route) | Remove(id: Id)

  datatype Error = NotFound | SqlRejected(sql: SqlError) | ContractRejected | Conflict | LabTestFailed | StaleRow
      | CommitFailed | AuditFailed | Aborted

  datatype Stage =
    | Arrived
    | Loaded(row: Route)
    | Vetted(wanted: Route)
    | Checked(wanted: Route)
    | Tested(wanted: Route)
    | Edited
    | Flushed(change: Change)
    | RejectedSql(sql: SqlError)
    | Committed
    | Done
    | Failed(error: Error)

  /** `loaded` is the row object of an update as it was read, `edited` its unflushed new state;
      `timedOut` tells that the caller was answered with a timeout while the request went on. */
  datatype Request = Request(op: Op, stage: Stage, loaded: Option<Route>, edited: Option<Route>, timedOut: bool)

  function Arrival(op: Op): Request {
    Request(op, Arrived, None, None, false)
  }

  /** What the caller was told is an error. */
  predicate AnsweredWithError(r: Request) {
    r.stage.Failed? || r.timedOut
  }

  /** `committed` is the table; `log` lists the committed changes with the request that made them. */
  datatype State = State(
    committed: map<Id, Route>,
    requests: seq<Request>,
    nextId: Id,
    log: seq<(nat, Change)>)

  const START := State(map[], [], 0, [])

  datatype Event =
    | Receive(op: Op)
    | Load(i: nat)
    | Vet(i: nat)
    | Lookup(i: nat)
    | LabTest(i: nat, ok: bool)
    | Edit(i: nat)
    | Flush(i: nat)
    | Commit(i: nat, ok: bool)
    | AuditRejection(i: nat)
    | AuditSuccess(i: nat, ok: bool)
    | TimeOut(i: nat)
    | Abort(i: nat)

  function Apply(committed: map<Id, Route>, c: Change): map<Id, Route> {
    match c
    case Put(id, row) => committed[id := row]
    case Remove(id) => committed - {id}
  }

  predicate At(s: State, i: nat) {
    i < |s.requests|
  }

  /** Another request has flushed a change and not yet committed it. */
  predicate PendingElsewhere(s: State, i: nat, j: nat) {
    j < |s.requests| && j != i && s.requests[j].stage.Flushed?
  }

  /** The row of request i, if its flush has to wait for the end of another transaction. */
  predicate Blocked(s: State, i: nat, id: Id, row: Option<Route>) {
    exists j :: 0 <= j < |s.requests| && PendingElsewhere(s, i, j) &&
      var c := s.requests[j].stage.change;
      || c.id == id
      || (row.Some? && c.Put? && Key(c.row) == Key(row.value))
      || (row.Some? && c.id in s.committed && Key(s.committed[c.id]) == Key(row.value))
  }

  /** A committed row other than `id` already has the key. */
  predicate Taken(committed: map<Id, Route>, id: Id, row: Route) {
    exists other :: other in committed && other != id && Key(committed[other]) == Key(row)
  }

  /** What the flush of request i would write. */
  function Target(s: State, i: nat): (Id, Option<Route>)
    requires At(s, i) && (s.requests[i].op.Delete? || (s.requests[i].stage.Edited? && s.requests[i].edited.Some?))
  {
    var r := s.requests[i];
    match r.op
    case Create(_) => (s.nextId, r.edited)
    case Update(id, _) =>
      (id, if id in s.committed && r.loaded.Some? then Some(Merged(r.loaded.value, r.edited.value, s.committed[id]))
           else r.edited)
    case Delete(id) => (id, None)
  }

  predicate Enabled(env: Env, s: State, e: Event) {
    match e
    case Receive(op) => !op.Delete? ==> AcceptedPayload(env.lib, op.payload)
    case Load(i) => At(s, i) && s.requests[i].stage.Arrived? && !s.requests[i].op.Create?
    case Vet(i) => At(s, i) && (if s.requests[i].op.Create? then s.requests[i].stage.Arrived?
                                else s.requests[i].op.Update? && s.requests[i].stage.Loaded?)
    case Lookup(i) => At(s, i) && s.requests[i].stage.Vetted?
    case LabTest(i, ok) =>
      && At(s, i) && s.requests[i].stage.Checked? && !s.requests[i].op.Delete?
      && var p := s.requests[i].op.payload;
         if p.labTest then ok ==> CastParameters(env.lib, p.params, CollectMapping(p.labTestParams)).Success? else ok
    case Edit(i) => At(s, i) && s.requests[i].stage.Tested?
    case Flush(i) =>
      && At(s, i)
      && (if s.requests[i].op.Delete? then s.requests[i].stage.Loaded?
          else s.requests[i].stage.Edited? && s.requests[i].edited.Some?)
      && !Blocked(s, i, Target(s, i).0, Target(s, i).1)
    case Commit(i, ok) => At(s, i) && s.requests[i].stage.Flushed?
    case AuditRejection(i) => At(s, i) && s.requests[i].stage.RejectedSql?
    case AuditSuccess(i, ok) => At(s, i) && s.requests[i].stage.Committed?
    case TimeOut(i) =>
      At(s, i) && !s.requests[i].stage.Done? && !s.requests[i].stage.Failed? && !s.requests[i].timedOut
    case Abort(i) => At(s, i) && !s.requests[i].stage.Done? && !s.requests[i].stage.Failed?
  }

  function Move(s: State, i: nat, stage: Stage): State
    requires At(s, i)
  {
    s.(requests := s.requests[i := s.requests[i].(stage := stage)])
  }

  /** A rollback forgets the edits along with the flushed change. */
  function Fail(s: State, i: nat, error: Error): State
    requires At(s, i)
  {
    s.(requests := s.requests[i := s.requests[i].(stage := Failed(error), edited := None)])
  }

  function VetOutcome(env: Env, p: Payload): Stage {
    match Validated(env.sql, p.sql, p.dialect)
    case Failure(error) => RejectedSql(error)
    case Success(v) =>
      if ValidateContract(v.parameterNames, p.params).Some? then Failed(ContractRejected)
      else Vetted(Wanted(env, p, v))
  }

  function FlushOutcome(env: Env, s: State, i: nat): State
    requires Enabled(env, s, Flush(i))
  {
    var r := s.requests[i];
    var (id, row) := Target(s, i);
    match r.op
    case Create(_) =>
      if Taken(s.committed, id, row.value) then Fail(s, i, Conflict)
      else Move(s, i, Flushed(Put(id, row.value))).(nextId := s.nextId + 1)
    case Update(_, _) =>
      if id !in s.committed then Fail(s, i, StaleRow)
      else if Taken(s.committed, id, row.value) then Fail(s, i, Conflict)
      else Move(s, i, Flushed(Put(id, row.value)))
    case Delete(_) => Move(s, i, Flushed(Remove(id)))
  }

  function Step(env: Env, s: State, e: Event): State
    requires Enabled(env, s, e)
  {
    match e
    case Receive(op) => s.(requests := s.requests + [Arrival(op)])
    case Load(i) =>
      var id := s.requests[i].op.id;
      if id !in s.committed then Fail(s, i, NotFound)
      else
        var row := s.committed[id];
        s.(requests := s.requests[i := s.requests[i].(stage := Loaded(row), loaded := Some(row))])
    case Vet(i) => Move(s, i, VetOutcome(env, s.requests[i].op.payload))
    case Lookup(i) =>
      var r := s.requests[i];
      if (exists id :: id in s.committed && Key(s.committed[id]) == Key(r.stage.wanted)
                       && !(r.op.Update? && r.op.id == id))
      then Fail(s, i, Conflict) else Move(s, i, Checked(r.stage.wanted))
    case LabTest(i, ok) =>
      if ok then Move(s, i, Tested(s.requests[i].stage.wanted)) else Fail(s, i, LabTestFailed)
    case Edit(i) =>
      s.(requests := s.requests[i := s.requests[i].(stage := Edited, edited := Some(s.requests[i].stage.wanted))])
    case Flush(i) => FlushOutcome(env, s, i)
    case Commit(i, ok) =>
      if !ok then Fail(s, i, CommitFailed)
      else
        var c := s.requests[i].stage.change;
        Move(s, i, Committed).(committed := Apply(s.committed, c), log := s.log + [(i, c)])
    case AuditRejection(i) =>
      // The audit row is flushed and committed in the same session, with whatever it holds.
      var r := s.requests[i];
      var after := if r.edited.Some? && r.op.Update? then s.committed[r.op.id := r.edited.value] else s.committed;
      Fail(s, i, SqlRejected(r.stage.sql)).(committed := after)
    case AuditSuccess(i, ok) => if ok then Move(s, i, Done) else Fail(s, i, AuditFailed)
    case TimeOut(i) => s.(requests := s.requests[i := s.requests[i].(timedOut := true)])
    case Abort(i) => Fail(s, i, Aborted)
  }

  function Run(env: Env, s: State, events: seq<Event>): Option<State>
    decreases |events|
  {
    if events == [] then Some(s)
    else if !Enabled(env, s, events[0]) then None
    else Run(env, Step(env, s, events[0]), events[1..])
  }

  // ---------- The invariant ----------

  predicate UniqueKeys(committed: map<Id, Route>) {
    forall a, b :: a in committed && b in committed && a != b ==> Key(committed[a]) != Key(committed[b])
  }

  /** A flushed change fits the table and the other flushed changes. */
  predicate FlushedFits(s: State, i: nat)
    requires At(s, i) && s.requests[i].stage.Flushed?
  {
    var c := s.requests[i].stage.change;
    && c.id < s.nextId
    && (c.Put? ==> !Taken(s.committed, c.id, c.row))
    && (match s.requests[i].op
        case Create(_) => c.Put? && c.id !in s.committed
        case Update(id, _) => c.Put? && c.id == id && id in s.committed
        case Delete(id) => c == Remove(id))
  }

  predicate Apart(c: Change, d: Change) {
    c.id != d.id && (c.Put? && d.Put? ==> Key(c.row) != Key(d.row))
  }

  predicate Inv(s: State) {
    && UniqueKeys(s.committed)
    && (forall id :: id in s.committed ==> id < s.nextId)
    && (forall i :: 0 <= i < |s.requests| && s.requests[i].stage.Flushed? ==> FlushedFits(s, i))
    && (forall i, j :: 0 <= i < j < |s.requests| && s.requests[i].stage.Flushed? && s.requests[j].stage.Flushed? ==>
          Apart(s.requests[i].stage.change, s.requests[j].stage.change))
    && (forall i :: 0 <= i < |s.requests| && s.requests[i].edited.Some? ==>
          s.requests[i].stage.Edited? || s.requests[i].stage.Flushed? || s.requests[i].stage.Committed?
              || s.requests[i].stage.Done?)
    && (forall i :: 0 <= i < |s.requests| && s.requests[i].stage.Loaded? && s.requests[i].op.Delete? ==>
          s.requests[i].op.id < s.nextId)
  }

  /** A change that is not blocked is apart from every change that is flushed. */
  lemma {:induction false} UnblockedIsApart(s: State, i: nat, id: Id, row: Option<Route>, j: nat)
    requires Inv(s) && At(s, i) && At(s, j) && PendingElsewhere(s, i, j) && !Blocked(s, i, id, row)
    ensures s.requests[j].stage.change.id != id
    ensures row.Some? && s.requests[j].stage.change.Put? ==> Key(s.requests[j].stage.change.row) != Key(row.value)
  {
  }

  /** Only request i moved; the flushed changes of the others still fit. */
  lemma {:induction false} MoveKeepsInv(s: State, t: State, i: nat)
    requires Inv(s) && At(s, i) && |t.requests| == |s.requests|
    requires t.committed == s.committed && t.nextId == s.nextId
    requires forall j :: 0 <= j < |s.requests| && j != i ==> t.requests[j] == s.requests[j]
    requires t.requests[i].op == s.requests[i].op && !t.requests[i].stage.Flushed?
    requires t.requests[i].edited.Some? ==>
               t.requests[i].stage.Edited? || t.requests[i].stage.Committed? || t.requests[i].stage.Done?
    requires t.requests[i].stage.Loaded? && t.requests[i].op.Delete? ==> t.requests[i].op.id < t.nextId
    ensures Inv(t)
  {
    assert forall j :: 0 <= j < |s.requests| && j != i && s.requests[j].stage.Flushed? ==>
        FlushedFits(s, j) && FlushedFits(t, j);
  }

  /** Request i flushed a change that fits the table and is apart from the other flushed ones. */
  lemma {:induction false} FlushedKeepsInv(s: State, t: State, i: nat, id: Id, row: Option<Route>)
    requires Inv(s) && At(s, i) && |t.requests| == |s.requests|
    requires !Blocked(s, i, id, row)
    requires t.committed == s.committed && t.nextId >= s.nextId
    requires forall j :: 0 <= j < |s.requests| && j != i ==> t.requests[j] == s.requests[j]
    requires t.requests[i].stage.Flushed? && FlushedFits(t, i)
    requires t.requests[i].stage.change == if row.Some? then Put(id, row.value) else Remove(id)
    ensures Inv(t)
  {
    forall j | 0 <= j < |t.requests| && j != i && t.requests[j].stage.Flushed?
      ensures FlushedFits(t, j)
      ensures Apart(t.requests[j].stage.change, t.requests[i].stage.change)
    {
      assert FlushedFits(s, j);
      UnblockedIsApart(s, i, id, row, j);
    }
  }

  lemma {:induction false} FlushKeepsInv(env: Env, s: State, i: nat)
    requires Inv(s) && Enabled(env, s, Flush(i))
    ensures Inv(FlushOutcome(env, s, i))
  {
    var t := FlushOutcome(env, s, i);
    var (id, row) := Target(s, i);
    if t.requests[i].stage.Flushed? {
      FlushedKeepsInv(s, t, i, id, row);
    } else {
      MoveKeepsInv(s, t, i);
    }
  }

  lemma {:induction false} CommitKeepsInv(env: Env, s: State, i: nat)
    requires Inv(s) && Enabled(env, s, Commit(i, true))
    ensures Inv(Step(env, s, Commit(i, true)))
  {
    var t := Step(env, s, Commit(i, true));
    var c := s.requests[i].stage.change;
    assert FlushedFits(s, i);
    forall j | 0 <= j < |t.requests| && t.requests[j].stage.Flushed?
      ensures FlushedFits(t, j)
    {
      var d := s.requests[j].stage.change;
      assert t.requests[j] == s.requests[j] && FlushedFits(s, j) && j != i;
      assert Apart(if i < j then c else d, if i < j then d else c);
    }
  }

  lemma {:induction false} StepKeepsInv(env: Env, s: State, e: Event)
    requires Inv(s) && Enabled(env, s, e)
    ensures Inv(Step(env, s, e))
  {
    match e {
      case Receive(op) => ReceiveKeepsInv(env, s, op);
      case TimeOut(i) => TimeOutKeepsInv(env, s, i);
      case Flush(i) => FlushKeepsInv(env, s, i);
      case Commit(i, ok) =>
        if ok { CommitKeepsInv(env, s, i); } else { MoveKeepsInv(s, Step(env, s, e), i); }
      case _ => MoveKeepsInv(s, Step(env, s, e), e.i);
    }
  }

  /** A timeout of the answer leaves the request and its flushed change as they are. */
  lemma {:induction false} TimeOutKeepsInv(env: Env, s: State, i: nat)
    requires Inv(s) && Enabled(env, s, TimeOut(i))
    ensures Inv(Step(env, s, TimeOut(i)))
  {
    var t := Step(env, s, TimeOut(i));
    forall j | 0 <= j < |t.requests| && t.requests[j].stage.Flushed? ensures FlushedFits(t, j) {
      assert FlushedFits(s, j);
    }
  }

  lemma {:induction false} ReceiveKeepsInv(env: Env, s: State, op: Op)
    requires Inv(s) && Enabled(env, s, Receive(op))
    ensures Inv(Step(env, s, Receive(op)))
  {
  }

  // ---------- Over every interleaving ----------

  /** The table after the logged changes, in commit order. */
  function Replay(log: seq<(nat, Change)>): map<Id, Route> {
    if log == [] then map[] else Apply(Replay(log[..|log| - 1]), log[|log| - 1].1)
  }

  predicate InLog(log: seq<(nat, Change)>, i: nat) {
    exists k :: 0 <= k < |log| && log[k].0 == i
  }

  /** The route commit of the request has happened or never will. */
  predicate Settled(r: Request) {
    r.stage.Committed? || r.stage.Done? || r.stage.Failed?
  }

  /** The table is what the committed changes wrote, one for each request, in commit order. */
  predicate LogInv(s: State) {
    && s.committed == Replay(s.log)
    && (forall k :: 0 <= k < |s.log| ==> At(s, s.log[k].0) && Settled(s.requests[s.log[k].0]))
    && (forall i :: 0 <= i < |s.requests| && (s.requests[i].stage.Committed? || s.requests[i].stage.Done?) ==>
         InLog(s.log, i))
    && (forall k, l :: 0 <= k < l < |s.log| ==> s.log[k].0 != s.log[l].0)
  }

  /** What a step other than a successful commit does to the record of one request. */
  predicate KeepsSettled(before: Request, after: Request) {
    && after.op == before.op
    && (Settled(before) ==> Settled(after) && after.loaded == before.loaded)
    && (after.stage.Committed? || after.stage.Done? ==> before.stage.Committed? || before.stage.Done?)
  }

  /** Every step but a successful commit leaves the table and the log alone. */
  lemma {:induction false} OtherStepsKeepTable(env: Env, s: State, e: Event)
    requires Inv(s) && Enabled(env, s, e) && !(e.Commit? && e.ok)
    ensures Step(env, s, e).committed == s.committed && Step(env, s, e).log == s.log
  {
    match e {
      case Flush(i) => FlushKeepsTable(env, s, i);
      case AuditRejection(i) => assert s.requests[i].edited.None?;
      case _ =>
    }
  }

  lemma {:induction false} FlushKeepsTable(env: Env, s: State, i: nat)
    requires Enabled(env, s, Flush(i))
    ensures var t := FlushOutcome(env, s, i);
            && t.committed == s.committed && t.log == s.log && |t.requests| == |s.requests|
            && (forall j :: 0 <= j < |s.requests| && j != i ==> t.requests[j] == s.requests[j])
            && KeepsSettled(s.requests[i], t.requests[i])
  {
  }

  lemma {:induction false} OthersUntouched(env: Env, s: State, e: Event, j: nat)
    requires Enabled(env, s, e) && At(s, j) && (e.Receive? || j != e.i)
    ensures |Step(env, s, e).requests| == |s.requests| + (if e.Receive? then 1 else 0)
    ensures Step(env, s, e).requests[j] == s.requests[j]
  {
  }

  lemma {:induction false} OwnStepKeepsSettled(env: Env, s: State, e: Event)
    requires Enabled(env, s, e) && !e.Receive? && !(e.Commit? && e.ok)
    ensures |Step(env, s, e).requests| == |s.requests| && KeepsSettled(s.requests[e.i], Step(env, s, e).requests[e.i])
  {
  }

  lemma {:induction false} RecordsKeepSettled(env: Env, s: State, e: Event, j: nat)
    requires Enabled(env, s, e) && !(e.Commit? && e.ok) && At(s, j)
    ensures At(Step(env, s, e), j) && KeepsSettled(s.requests[j], Step(env, s, e).requests[j])
  {
    if !e.Receive? && j == e.i { OwnStepKeepsSettled(env, s, e); } else { OthersUntouched(env, s, e, j); }
  }

  lemma {:induction false} LogGrows(log: seq<(nat, Change)>, entry: (nat, Change), i: nat)
    ensures InLog(log + [entry], i) <==> InLog(log, i) || i == entry.0
  {
    if InLog(log, i) {
      var k :| 0 <= k < |log| && log[k].0 == i;
      assert (log + [entry])[k].0 == i;
    }
    assert (log + [entry])[|log|] == entry;
  }

  lemma {:induction false} CommitReplays(env: Env, s: State, i: nat)
    requires LogInv(s) && Enabled(env, s, Commit(i, true))
    ensures var t := Step(env, s, Commit(i, true)); t.committed == Replay(t.log)
  {
    assert Step(env, s, Commit(i, true)).log[..|s.log|] == s.log;
  }

  lemma {:induction false} CommitSettles(env: Env, s: State, i: nat, k: nat)
    requires LogInv(s) && Enabled(env, s, Commit(i, true)) && k <= |s.log|
    ensures var t := Step(env, s, Commit(i, true));
            && At(t, t.log[k].0) && Settled(t.requests[t.log[k].0])
            && (k < |s.log| ==> t.log[k] == s.log[k] && t.log[k].0 != i)
  {
    if k < |s.log| { assert Settled(s.requests[s.log[k].0]); }
  }

  lemma {:induction false} CommitKeepsLog(env: Env, s: State, i: nat)
    requires Inv(s) && LogInv(s) && Enabled(env, s, Commit(i, true))
    ensures LogInv(Step(env, s, Commit(i, true)))
  {
    var t := Step(env, s, Commit(i, true));
    CommitReplays(env, s, i);
    forall k | 0 <= k < |t.log|
      ensures At(t, t.log[k].0) && Settled(t.requests[t.log[k].0])
      ensures k < |s.log| ==> t.log[k] == s.log[k] && t.log[k].0 != i
    {
      CommitSettles(env, s, i, k);
    }
    forall j | 0 <= j < |t.requests| && (t.requests[j].stage.Committed? || t.requests[j].stage.Done?)
      ensures InLog(t.log, j)
    {
      LogGrows(s.log, (i, s.requests[i].stage.change), j);
    }
  }

  lemma {:induction false} StepKeepsLog(env: Env, s: State, e: Event)
    requires Inv(s) && LogInv(s) && Enabled(env, s, e)
    ensures LogInv(Step(env, s, e))
  {
    if e.Commit? && e.ok {
      CommitKeepsLog(env, s, e.i);
    } else {
      OtherStepsKeepTable(env, s, e);
      var t := Step(env, s, e);
      forall k | 0 <= k < |t.log| ensures At(t, t.log[k].0) && Settled(t.requests[t.log[k].0]) {
        RecordsKeepSettled(env, s, e, s.log[k].0);
      }
      forall i | 0 <= i < |t.requests| && (t.requests[i].stage.Committed? || t.requests[i].stage.Done?)
        ensures InLog(t.log, i)
      {
        if At(s, i) { RecordsKeepSettled(env, s, e, i); }
      }
    }
  }

  /** The log holds exactly the requests whose route commit is among the events. */
  lemma {:induction false} LogIsCommits(env: Env, s: State, events: seq<Event>, i: nat)
    requires Inv(s) && Run(env, s, events).Some?
    ensures InLog(Run(env, s, events).value.log, i) <==> InLog(s.log, i) || Commit(i, true) in events
    decreases |events|
  {
    if events == [] {
    } else {
      var e, t := events[0], Step(env, s, events[0]);
      StepKeepsInv(env, s, e);
      LogIsCommits(env, t, events[1..], i);
      assert Commit(i, true) in events <==> e == Commit(i, true) || Commit(i, true) in events[1..] by {
        assert events == [e] + events[1..];
      }
      if e.Commit? && e.ok {
        LogGrows(s.log, (e.i, s.requests[e.i].stage.change), i);
      } else {
        OtherStepsKeepTable(env, s, e);
      }
    }
  }

  // ---------- What the committed changes write ----------

  /** The change is what the request asked for, given the table it is applied to. */
  predicate Asked(env: Env, r: Request, c: Change, before: map<Id, Route>) {
    match r.op
    case Create(p) => c.Put? && c.id !in before && VetOutcome(env, p) == Vetted(c.row)
    case Update(id, p) =>
      && c.Put? && c.id == id && id in before && r.loaded.Some? && VetOutcome(env, p).Vetted?
      && c.row == Merged(r.loaded.value, VetOutcome(env, p).wanted, before[id])
    case Delete(id) => c == Remove(id)
  }

  /** Every stage of a request carries what its payload was vetted to. */
  predicate Faithful(env: Env, r: Request, committed: map<Id, Route>) {
    && (r.stage.Vetted? || r.stage.Checked? || r.stage.Tested? ==>
          !r.op.Delete? && VetOutcome(env, r.op.payload) == Vetted(r.stage.wanted))
    && (r.edited.Some? ==> !r.op.Delete? && VetOutcome(env, r.op.payload) == Vetted(r.edited.value))
    && (r.op.Update? && !r.stage.Arrived? && !r.stage.Failed? ==> r.loaded.Some?)
    && (r.stage.Flushed? ==> Asked(env, r, r.stage.change, committed))
  }

  predicate FaithInv(env: Env, s: State) {
    && (forall i :: 0 <= i < |s.requests| ==> Faithful(env, s.requests[i], s.committed))
    && (forall k :: 0 <= k < |s.log| ==>
          At(s, s.log[k].0) && Asked(env, s.requests[s.log[k].0], s.log[k].1, Replay(s.log[..k])))
  }

  lemma {:induction false} FlushIsAsked(env: Env, s: State, i: nat)
    requires Inv(s) && Enabled(env, s, Flush(i)) && Faithful(env, s.requests[i], s.committed)
    ensures Faithful(env, FlushOutcome(env, s, i).requests[i], s.committed)
  {
    if s.requests[i].op.Create? {
      assert s.nextId !in s.committed;
    }
  }

  /** One request's own step, other than a flush, leaves it faithful. */
  lemma {:induction false} OwnStepIsFaithful(env: Env, s: State, e: Event)
    requires Inv(s) && Enabled(env, s, e) && !e.Receive? && !e.Flush? && Faithful(env, s.requests[e.i], s.committed)
    ensures !(e.Commit? && e.ok) ==> Faithful(env, Step(env, s, e).requests[e.i], s.committed)
    ensures e.Commit? && e.ok ==> Faithful(env, Step(env, s, e).requests[e.i], Step(env, s, e).committed)
  {
  }

  /** A commit to another row does not touch what a flushed change was computed from. */
  lemma {:induction false} CommitKeepsOthersFaithful(env: Env, s: State, i: nat, j: nat)
    requires Inv(s) && Enabled(env, s, Commit(i, true)) && At(s, j) && j != i
          && Faithful(env, s.requests[j], s.committed)
    ensures Faithful(env, s.requests[j], Apply(s.committed, s.requests[i].stage.change))
  {
  }

  lemma {:induction false} RequestsStayFaithful(env: Env, s: State, e: Event, j: nat)
    requires Inv(s) && FaithInv(env, s) && Enabled(env, s, e) && j < |Step(env, s, e).requests|
    ensures Faithful(env, Step(env, s, e).requests[j], Step(env, s, e).committed)
  {
    if !(e.Commit? && e.ok) { OtherStepsKeepTable(env, s, e); }
    if !e.Receive? && j == e.i {
      assert Faithful(env, s.requests[j], s.committed);
      if e.Flush? { FlushIsAsked(env, s, j); } else { OwnStepIsFaithful(env, s, e); }
    } else if j < |s.requests| {
      OthersUntouched(env, s, e, j);
      assert Faithful(env, s.requests[j], s.committed);
      if e.Commit? && e.ok { CommitKeepsOthersFaithful(env, s, e.i, j); }
    }
  }

  lemma {:induction false} OldLogStaysAsked(env: Env, s: State, e: Event, k: nat)
    requires LogInv(s) && FaithInv(env, s) && Enabled(env, s, e) && k < |s.log| && s.log <= Step(env, s, e).log
    ensures var t := Step(env, s, e);
            At(t, t.log[k].0) && Asked(env, t.requests[t.log[k].0], t.log[k].1, Replay(t.log[..k]))
  {
    var t := Step(env, s, e);
    assert t.log[..k] == s.log[..k] && t.log[k] == s.log[k];
    if e.Commit? && e.ok { OthersUntouched(env, s, e, s.log[k].0); } else { RecordsKeepSettled(env, s, e, s.log[k].0); }
  }

  lemma {:induction false} NewLogIsAsked(env: Env, s: State, i: nat)
    requires LogInv(s) && FaithInv(env, s) && Enabled(env, s, Commit(i, true))
    ensures var t := Step(env, s, Commit(i, true));
            && t.log == s.log + [(i, s.requests[i].stage.change)]
            && At(t, i) && Asked(env, t.requests[i], s.requests[i].stage.change, Replay(s.log))
  {
    assert Faithful(env, s.requests[i], s.committed);
  }

  lemma {:induction false} LogStaysAsked(env: Env, s: State, e: Event, k: nat)
    requires Inv(s) && LogInv(s) && FaithInv(env, s) && Enabled(env, s, e) && k < |Step(env, s, e).log|
    ensures var t := Step(env, s, e);
            At(t, t.log[k].0) && Asked(env, t.requests[t.log[k].0], t.log[k].1, Replay(t.log[..k]))
  {
    if e.Commit? && e.ok { NewLogIsAsked(env, s, e.i); } else { OtherStepsKeepTable(env, s, e); }
    if k < |s.log| {
      OldLogStaysAsked(env, s, e, k);
    } else {
      assert Step(env, s, e).log[..k] == s.log;
    }
  }

  lemma {:induction false} StepKeepsFaith(env: Env, s: State, e: Event)
    requires Inv(s) && LogInv(s) && FaithInv(env, s) && Enabled(env, s, e)
    ensures FaithInv(env, Step(env, s, e))
  {
    var t := Step(env, s, e);
    forall j | 0 <= j < |t.requests| ensures Faithful(env, t.requests[j], t.committed) {
      RequestsStayFaithful(env, s, e, j);
    }
    forall k | 0 <= k < |t.log|
      ensures At(t, t.log[k].0) && Asked(env, t.requests[t.log[k].0], t.log[k].1, Replay(t.log[..k]))
    {
      LogStaysAsked(env, s, e, k);
    }
  }

  lemma {:induction false} RunKeepsAll(env: Env, s: State, events: seq<Event>)
    requires Inv(s) && LogInv(s) && FaithInv(env, s) && Run(env, s, events).Some?
    ensures var t := Run(env, s, events).value; Inv(t) && LogInv(t) && FaithInv(env, t)
    decreases |events|
  {
    if events == [] {
    } else {
      StepKeepsInv(env, s, events[0]);
      StepKeepsLog(env, s, events[0]);
      StepKeepsFaith(env, s, events[0]);
      RunKeepsAll(env, Step(env, s, events[0]), events[1..]);
    }
  }

  /** Over every interleaving the routes have pairwise distinct (prefix, path), and the table is
      exactly the composition of the changes of the requests whose route commit happened, one each.
      Every request that succeeded is among them; a request whose caller was told an error, by the
      request itself or by a timeout behind which it went on, has left nothing exactly when its route
      commit has not happened. */
  lemma {:induction false} UniqueRoutesAndErrors(env: Env, events: seq<Event>)
    requires Run(env, START, events).Some?
    ensures var s := Run(env, START, events).value;
            && UniqueKeys(s.committed)
            && s.committed == Replay(s.log)
            && (forall k, l :: 0 <= k < l < |s.log| ==> s.log[k].0 != s.log[l].0)
            && (forall i :: 0 <= i < |s.requests| && s.requests[i].stage.Done? ==> InLog(s.log, i))
            && (forall i :: 0 <= i < |s.requests| && AnsweredWithError(s.requests[i]) ==>
                  (!InLog(s.log, i) <==> Commit(i, true) !in events))
  {
    RunKeepsAll(env, START, events);
    var s := Run(env, START, events).value;
    forall i | 0 <= i < |s.requests| ensures InLog(s.log, i) <==> Commit(i, true) in events {
      LogIsCommits(env, START, events, i);
    }
  }

  /** Over every interleaving each committed change is what its request asked for: a create adds the
      vetted payload under a new id; an update writes the columns in which the vetted payload differs
      from the row it had loaded, and keeps the others as they are in the table; a delete removes. */
  lemma {:induction false} CommittedChangesAreAsked(env: Env, events: seq<Event>, k: nat)
    requires Run(env, START, events).Some? && k < |Run(env, START, events).value.log|
    ensures var s := Run(env, START, events).value;
            var (i, c) := s.log[k];
            At(s, i) && Asked(env, s.requests[i], c, Replay(s.log[..k]))
  {
    RunKeepsAll(env, START, events);
  }

  ghost predicate ChangesOneRow(before: map<Id, Route>, after: map<Id, Route>, op: Op) {
    match op
    case Create(_) => exists id :: id !in before && after.Keys == before.Keys + {id} && after - {id} == before
    case Update(id, _) => id in before && after.Keys == before.Keys && after - {id} == before - {id}
    case Delete(id) => after == before - {id}
  }

  lemma {:induction false} CommitChangesOneRow(env: Env, s: State, i: nat)
    requires Inv(s) && Enabled(env, s, Commit(i, true))
    ensures ChangesOneRow(s.committed, Step(env, s, Commit(i, true)).committed, s.requests[i].op)
  {
  }

  /** What one commit does to the set of ids, a delete removing its row if it is still there, and that
      no other step changes a row; the audit commits in particular find no half-applied edit to write. */
  lemma {:induction false} CommitsChangeOneRow(env: Env, events: seq<Event>, last: Event)
    requires Run(env, START, events).Some? && Enabled(env, Run(env, START, events).value, last)
    ensures var s := Run(env, START, events).value;
            var t := Step(env, s, last);
            if last.Commit? && last.ok then ChangesOneRow(s.committed, t.committed, s.requests[last.i].op)
            else t.committed == s.committed
  {
    RunKeepsAll(env, START, events);
    var s := Run(env, START, events).value;
    if last.Commit? && last.ok {
      CommitChangesOneRow(env, s, last.i);
    } else {
      OtherStepsKeepTable(env, s, last);
    }
  }
}

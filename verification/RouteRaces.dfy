/** Runs of the route store that end badly, each request of which is accepted on its own: a change
    that survives an error, and two updates of one route that load it before either writes. */
module RouteRaces {
  import opened Wrappers
  import opened Strings
  import opened DynamicParameters
  import opened SqlSafety
  import opened RouteSchema
  import opened RouteStore
  import opened RouteContracts
  import PlaceholderRewrite

  lemma {:induction false} RunConcat(env: Env, s: State, a: seq<Event>, b: seq<Event>)
    requires Run(env, s, a).Some?
    ensures Run(env, s, a + b) == Run(env, Run(env, s, a).value, b)
    decreases |a|
  {
    if a == [] {
      assert a + b == b;
    } else {
      assert (a + b)[1..] == a[1..] + b;
      RunConcat(env, Step(env, s, a[0]), a[1..], b);
    }
  }

  lemma {:induction false} RunOne(env: Env, s: State, e: Event)
    requires Enabled(env, s, e)
    ensures Run(env, s, [e]) == Some(Step(env, s, e))
  {
    assert Run(env, Step(env, s, e), [e][1..]) == Some(Step(env, s, e));
  }

  lemma {:induction false} RunTwo(env: Env, s: State, a: Event, b: Event)
    requires Enabled(env, s, a) && Enabled(env, Step(env, s, a), b)
    ensures Run(env, s, [a, b]) == Some(Step(env, Step(env, s, a), b))
  {
    RunOne(env, s, a);
    RunOne(env, Step(env, s, a), b);
    RunConcat(env, s, [a], [b]);
    assert [a] + [b] == [a, b];
  }

  /** An accepted payload without a lab test that gets past validation. */
  predicate Passes(env: Env, p: Payload) {
    AcceptedPayload(env.lib, p) && !p.labTest && VetOutcome(env, p).Vetted?
  }

  function RowOf(env: Env, p: Payload): Route
    requires Passes(env, p)
  {
    VetOutcome(env, p).wanted
  }

  // ---------- The parts of a run ----------

  function With(s: State, i: nat, stage: Stage, edited: Option<Route>): State
    requires At(s, i)
  {
    s.(requests := s.requests[i := s.requests[i].(stage := stage, edited := edited)])
  }

  /** From the loaded row, or the arrival of a create, to the edited row object. */
  lemma {:induction false} Prepares(env: Env, s: State, i: nat)
    requires At(s, i) && !s.requests[i].op.Delete? && s.requests[i].edited.None?
    requires if s.requests[i].op.Create? then s.requests[i].stage.Arrived? else s.requests[i].stage.Loaded?
    requires Passes(env, s.requests[i].op.payload)
    requires forall id :: id in s.committed && Key(s.committed[id]) == Key(RowOf(env, s.requests[i].op.payload)) ==>
               s.requests[i].op.Update? && s.requests[i].op.id == id
    ensures var row := RowOf(env, s.requests[i].op.payload);
            Run(env, s, [Vet(i), Lookup(i)] + [LabTest(i, true), Edit(i)]) == Some(With(s, i, Edited, Some(row)))
  {
    var row := RowOf(env, s.requests[i].op.payload);
    RunTwo(env, s, Vet(i), Lookup(i));
    var t := With(s, i, Checked(row), None);
    assert Step(env, Step(env, s, Vet(i)), Lookup(i)) == t;
    RunTwo(env, t, LabTest(i, true), Edit(i));
    assert Step(env, Step(env, t, LabTest(i, true)), Edit(i)).requests == With(s, i, Edited, Some(row)).requests;
    RunConcat(env, s, [Vet(i), Lookup(i)], [LabTest(i, true), Edit(i)]);
  }

  predicate NothingFlushed(s: State) {
    forall j :: 0 <= j < |s.requests| ==> !s.requests[j].stage.Flushed?
  }

  /** An edited row is flushed and committed when nothing is in its way. */
  lemma {:induction false} Writes(env: Env, s: State, i: nat)
    requires At(s, i) && s.requests[i].stage.Edited? && s.requests[i].edited.Some? && NothingFlushed(s)
    requires !s.requests[i].op.Delete? && (s.requests[i].op.Update? ==>
          s.requests[i].op.id in s.committed && s.requests[i].loaded.Some?)
    requires !Taken(s.committed, Target(s, i).0, Target(s, i).1.value)
    ensures var c := Put(Target(s, i).0, Target(s, i).1.value);
            Run(env, s, [Flush(i), Commit(i, true)])
            == Some(With(s, i, Committed, s.requests[i].edited).(
                 committed := Apply(s.committed, c),
                 nextId := s.nextId + if s.requests[i].op.Create? then 1 else 0,
                 log := s.log + [(i, c)]))
  {
    RunTwo(env, s, Flush(i), Commit(i, true));
    var flushed := Step(env, s, Flush(i));
    assert flushed.requests[i].stage == Flushed(Put(Target(s, i).0, Target(s, i).1.value));
    assert Step(env, flushed, Commit(i, true)).requests == With(s, i, Committed, s.requests[i].edited).requests;
  }

  /** A create alone, up to its route commit; `late` when its caller got a timeout at the start. */
  lemma {:induction false} Creates(env: Env, p: Payload, late: bool) returns (events: seq<Event>, s: State)
    requires Passes(env, p)
    ensures Run(env, START, events) == Some(s)
    ensures s.committed == map[0 := RowOf(env, p)] && s.nextId == 1
    ensures s.requests == [Request(Create(p), Committed, None, Some(RowOf(env, p)), late)]
  {
    var row := RowOf(env, p);
    var prepare, write := [Vet(0), Lookup(0)] + [LabTest(0, true), Edit(0)], [Flush(0), Commit(0, true)];
    var arrive, s0 := Arrives(env, p, late);
    Prepares(env, s0, 0);
    var s1 := With(s0, 0, Edited, Some(row));
    Writes(env, s1, 0);
    RunConcat(env, s0, prepare, write);
    RunConcat(env, START, arrive, prepare + write);
    events := arrive + (prepare + write);
    s := Run(env, START, events).value;
    assert s.committed == map[0 := row];
  }

  lemma {:induction false} Arrives(env: Env, p: Payload, late: bool) returns (events: seq<Event>, s: State)
    requires Passes(env, p)
    ensures Run(env, START, events) == Some(s)
    ensures s == State(map[], [Request(Create(p), Arrived, None, None, late)], 0, [])
  {
    if late {
      events := [Receive(Create(p)), TimeOut(0)];
      RunTwo(env, START, Receive(Create(p)), TimeOut(0));
    } else {
      events := [Receive(Create(p))];
      RunOne(env, START, Receive(Create(p)));
    }
    s := State(map[], [Request(Create(p), Arrived, None, None, late)], 0, []);
    assert Run(env, START, events).value.requests == s.requests;
  }

  // ---------- An error that leaves a change ----------

  /** For every payload that would be created: when the audit after the commit raises, or the request
      is aborted there, the caller gets an error and the route is stored all the same. */
  lemma {:induction false} LateErrorLeavesRoute(env: Env, p: Payload, aborted: bool) returns (events: seq<Event>)
    requires Passes(env, p)
    ensures Run(env, START, events).Some?
    ensures var s := Run(env, START, events).value;
            && |s.requests| == 1 && s.requests[0].stage == Failed(if aborted then Aborted else AuditFailed)
            && s.committed == map[0 := RowOf(env, p)]
  {
    var before, s := Creates(env, p, false);
    var last := if aborted then Abort(0) else AuditSuccess(0, false);
    RunOne(env, s, last);
    RunConcat(env, START, before, [last]);
    events := before + [last];
  }

  /** For every such payload: when the caller is answered with a timeout at the start and the request
      goes on, it completes, and the route that the caller was told about as an error is stored. */
  lemma {:induction false} TimedOutRequestStoresRoute(env: Env, p: Payload) returns (events: seq<Event>)
    requires Passes(env, p)
    ensures Run(env, START, events).Some?
    ensures var s := Run(env, START, events).value;
            && |s.requests| == 1 && s.requests[0].stage.Done? && AnsweredWithError(s.requests[0])
            && s.committed == map[0 := RowOf(env, p)]
  {
    var before, s := Creates(env, p, true);
    RunOne(env, s, AuditSuccess(0, true));
    RunConcat(env, START, before, [AuditSuccess(0, true)]);
    events := before + [AuditSuccess(0, true)];
  }

  // ---------- Two updates that load the same row ----------

  function Raced(env: Env, p0: Payload, p1: Payload, p2: Payload): Route
    requires Passes(env, p0) && Passes(env, p1) && Passes(env, p2)
  {
    var w0 := RowOf(env, p0);
    Merged(w0, RowOf(env, p2), Merged(w0, RowOf(env, p1), w0))
  }

  function LoadedUpdate(p: Payload, row: Route): Request {
    Request(Update(0, p), Loaded(row), Some(row), None, false)
  }

  /** Both requests arrive and load the stored row. */
  lemma {:induction false} BothLoad(env: Env, s: State, p1: Payload, p2: Payload, row: Route)
    returns (events: seq<Event>, t: State)
    requires AcceptedPayload(env.lib, p1) && AcceptedPayload(env.lib, p2)
    requires |s.requests| == 1 && s.committed == map[0 := row]
    ensures Run(env, s, events) == Some(t)
    ensures t == s.(requests := s.requests + [LoadedUpdate(p1, row), LoadedUpdate(p2, row)])
  {
    RunTwo(env, s, Receive(Update(0, p1)), Receive(Update(0, p2)));
    var a := s.(requests := s.requests + [Arrival(Update(0, p1)), Arrival(Update(0, p2))]);
    assert Step(env, Step(env, s, Receive(Update(0, p1))), Receive(Update(0, p2))).requests == a.requests;
    RunTwo(env, a, Load(1), Load(2));
    RunConcat(env, s, [Receive(Update(0, p1)), Receive(Update(0, p2))], [Load(1), Load(2)]);
    events := [Receive(Update(0, p1)), Receive(Update(0, p2))] + [Load(1), Load(2)];
    t := Run(env, s, events).value;
    assert t.requests == s.requests + [LoadedUpdate(p1, row), LoadedUpdate(p2, row)];
  }

  lemma {:induction false} BothPrepare(env: Env, s: State, p1: Payload, p2: Payload, row: Route)
    returns (events: seq<Event>, t: State)
    requires Passes(env, p1) && Passes(env, p2)
    requires |s.requests| == 3 && s.committed == map[0 := row]
    requires s.requests[1] == LoadedUpdate(p1, row)
    requires s.requests[2] == LoadedUpdate(p2, row)
    ensures Run(env, s, events) == Some(t)
    ensures t == With(With(s, 1, Edited, Some(RowOf(env, p1))), 2, Edited, Some(RowOf(env, p2)))
  {
    var first := [Vet(1), Lookup(1)] + [LabTest(1, true), Edit(1)];
    var second := [Vet(2), Lookup(2)] + [LabTest(2, true), Edit(2)];
    Prepares(env, s, 1);
    var a := With(s, 1, Edited, Some(RowOf(env, p1)));
    Prepares(env, a, 2);
    RunConcat(env, s, first, second);
    events, t := first + second, With(a, 2, Edited, Some(RowOf(env, p2)));
  }

  lemma {:induction false} BothWrite(env: Env, s: State, w0: Route, w1: Route, w2: Route) returns (events: seq<Event>)
    requires |s.requests| == 3 && s.committed == map[0 := w0] && NothingFlushed(s)
    requires forall i :: 1 <= i <= 2 ==>
               && s.requests[i].op.Update? && s.requests[i].op.id == 0
               && s.requests[i].stage.Edited? && s.requests[i].loaded == Some(w0)
    requires s.requests[1].edited == Some(w1) && s.requests[2].edited == Some(w2)
    ensures Run(env, s, events).Some?
    ensures Run(env, s, events).value.committed == map[0 := Merged(w0, w2, Merged(w0, w1, w0))]
  {
    Writes(env, s, 1);
    var t := Run(env, s, [Flush(1), Commit(1, true)]).value;
    assert t.committed == map[0 := Merged(w0, w1, w0)];
    assert t.requests[2] == s.requests[2];
    Writes(env, t, 2);
    RunConcat(env, s, [Flush(1), Commit(1, true)], [Flush(2), Commit(2, true)]);
    events := [Flush(1), Commit(1, true)] + [Flush(2), Commit(2, true)];
    assert Run(env, s, events).value.committed == map[0 := Merged(w0, w2, Merged(w0, w1, w0))];
  }

  lemma {:induction false} BothPrepareAndWrite(env: Env, s: State, p1: Payload, p2: Payload, row: Route)
    returns (events: seq<Event>)
    requires Passes(env, p1) && Passes(env, p2)
    requires |s.requests| == 3 && s.committed == map[0 := row] && NothingFlushed(s)
    requires s.requests[1] == LoadedUpdate(p1, row)
    requires s.requests[2] == LoadedUpdate(p2, row)
    ensures Run(env, s, events).Some?
    ensures var first := Merged(row, RowOf(env, p1), row);
            Run(env, s, events).value.committed == map[0 := Merged(row, RowOf(env, p2), first)]
  {
    var prepared, t := BothPrepare(env, s, p1, p2, row);
    var written := BothWrite(env, t, row, RowOf(env, p1), RowOf(env, p2));
    RunConcat(env, s, prepared, written);
    events := prepared + written;
  }

  /** For all payloads of one route: when both updates load the row that the create stored and then
      write one after the other, the row holds the second merged over the first. */
  lemma {:induction false} Races(env: Env, p0: Payload, p1: Payload, p2: Payload) returns (events: seq<Event>)
    requires Passes(env, p0) && Passes(env, p1) && Passes(env, p2)
    ensures Run(env, START, events).Some?
    ensures Run(env, START, events).value.committed == map[0 := Raced(env, p0, p1, p2)]
  {
    var w0 := RowOf(env, p0);
    var created, s := Creates(env, p0, false);
    var arrived, a := BothLoad(env, s, p1, p2, w0);
    var written := BothPrepareAndWrite(env, a, p1, p2, w0);
    RunConcat(env, s, arrived, written);
    RunConcat(env, START, created, arrived + written);
    events := created + (arrived + written);
  }

  /** Such a race breaks a demand exactly when the second update does not fit the row of the first. */
  lemma {:induction false} RaceBreaksIffUnfit(env: Env, d: Demand, p0: Payload, p1: Payload, p2: Payload)
    requires Passes(env, p0) && Passes(env, p1) && Passes(env, p2)
    requires d.Columns? ==> IsoReadsBack(env.lib)
    ensures var w0 := RowOf(env, p0);
            Meets(env, d, Raced(env, p0, p1, p2))
            <==> Fits(env, d, w0, RowOf(env, p2), Merged(w0, RowOf(env, p1), w0))
  {
    var w0, w1, w2 := RowOf(env, p0), RowOf(env, p1), RowOf(env, p2);
    VettedMeets(env, d, p0);
    VettedMeets(env, d, p1);
    VettedMeets(env, d, p2);
    UndisturbedUpdateFits(env, d, w0, w1, w0);
    MergedMeetsIffFits(env, d, w0, w1, w0);
    MergedMeetsIffFits(env, d, w0, w2, Merged(w0, w1, w0));
  }

  /** For every library and all payloads that pass: one update changes SQL and definitions; the other,
      which loaded the row before, keeps the SQL and changes the definitions, for other names. The row
      is left with the SQL of the first and the definitions of the second. */
  lemma {:induction false} RaceLosesContract(env: Env, p0: Payload, p1: Payload, p2: Payload)
    returns (events: seq<Event>)
    requires Passes(env, p0) && Passes(env, p1) && Passes(env, p2)
    requires p0.dialect == p1.dialect == p2.dialect
    requires KeepsSql(RowOf(env, p0), RowOf(env, p2)) && !KeepsSql(RowOf(env, p0), RowOf(env, p1))
    requires !KeepsParams(RowOf(env, p0), RowOf(env, p2)) && Names(p1.params) != Names(p2.params)
    ensures Run(env, START, events).Some?
    ensures var table := Run(env, START, events).value.committed;
            0 in table && !Meets(env, Matching, table[0])
  {
    events := Races(env, p0, p1, p2);
    RaceBreaksIffUnfit(env, Matching, p0, p1, p2);
    NamesOfRow(env, p0);
    NamesOfRow(env, p1);
    NamesOfRow(env, p2);
    var w0, w1 := RowOf(env, p0), RowOf(env, p1);
    assert KeepsParams(w0, w1) ==> Names(w0.params) == Names(w1.params) by {
      if KeepsParams(w0, w1) { EntriesFixNames(w0.params, w1.params); }
    }
  }

  lemma {:induction false} NamesOfRow(env: Env, p: Payload)
    requires Passes(env, p)
    ensures Names(RowOf(env, p).params) == Names(p.params) && RowOf(env, p).dialect == p.dialect
    ensures RowOf(env, p).paginated == p.paginated
  {
    StoredNames(env.lib, p.params);
  }

  /** For every library and all payloads that pass: one update makes the route paginated; the other,
      which loaded the row before, leaves that alone and defines a name that pagination reserves. */
  lemma {:induction false} RaceReservesName(env: Env, p0: Payload, p1: Payload, p2: Payload)
    returns (events: seq<Event>)
    requires Passes(env, p0) && Passes(env, p1) && Passes(env, p2)
    requires !p0.paginated && p1.paginated && !p2.paginated
    requires !KeepsParams(RowOf(env, p0), RowOf(env, p2)) && !ReservedFree(true, Names(p2.params))
    ensures Run(env, START, events).Some?
    ensures var table := Run(env, START, events).value.committed;
            0 in table && !Meets(env, Unreserved, table[0])
  {
    events := Races(env, p0, p1, p2);
    RaceBreaksIffUnfit(env, Unreserved, p0, p1, p2);
    NamesOfRow(env, p0);
    NamesOfRow(env, p1);
    NamesOfRow(env, p2);
  }

  // ---------- The hypotheses can be met ----------

  const SELECT := "SELECT :"

  /** A SQL library that knows the SELECT of one placeholder and refuses all else. */
  const TOY_SQL := SqlLibrary(
    c => false,
    (sql, dialect) => if IsToySelect(sql) then Success([Some(ToyTree(sql))]) else Failure(InvalidSql),
    (sql, dialect) => if IsToySelect(sql) then Some(ToyTree(sql)) else None,
    (tree: Node, dialect) => if tree.children == [] then "" else SELECT + tree.children[0].name)

  predicate IsToySelect(sql: string) {
    SELECT <= sql && IsName(sql[|SELECT|..])
  }

  function ToyTree(sql: string): Node
    requires IsToySelect(sql)
  {
    Node(Select, "", [Node(Placeholder, sql[|SELECT|..], [])])
  }

  lemma {:induction false} ToyPlaceholders(sql: string)
    requires IsToySelect(sql)
    ensures SelectOnly(ToyTree(sql)) && Placeholders(ToyTree(sql)) == {sql[|SELECT|..]}
  {
    var leaf := Node(Placeholder, sql[|SELECT|..], []);
    assert Walk(leaf) == [leaf] + WalkAll([]);
    assert WalkAll([leaf]) == Walk(leaf) + WalkAll([leaf][1..]);
    assert Walk(ToyTree(sql)) == [ToyTree(sql)] + WalkAll([leaf]);
    assert Walk(ToyTree(sql)) == [ToyTree(sql), leaf];
    assert leaf in Walk(ToyTree(sql));
  }

  function ToyPayload(name: string, kind: Kind, paginated: bool): Payload {
    var params := [(name, Definition(kind, true, Null, ""))];
    Payload("abc", "x", "", SELECT + name, params, Trino, None, paginated, false, map[])
  }

  lemma {:induction false} ToyStrings()
    ensures ValidPrefix("abc") && AsciiLower("abc") == "abc" && ValidPath("x")
  {
    assert Split("x", '/') == ["x"] by { SplitWithout("x", '/'); }
    StripTrims("x");
  }

  lemma {:induction false} ToyValidates(name: string)
    requires IsName(name)
    ensures Validated(TOY_SQL, SELECT + name, Trino) == Success(ValidatedSql(SELECT + name, {name}))
  {
    var sql := SELECT + name;
    assert sql[|SELECT|..] == name;
    ToyPlaceholders(sql);
    StripTrims(sql);
    assert sql[0] == 'S' && sql[|sql| - 1] == name[|name| - 1] && name[|name| - 1] in name;
  }

  lemma {:induction false} ToyPasses(lib: Library, name: string, kind: Kind, paginated: bool)
    requires IsName(name) && ReservedFree(paginated, {name})
    ensures Passes(Env(TOY_SQL, lib), ToyPayload(name, kind, paginated))
    ensures var row := RowOf(Env(TOY_SQL, lib), ToyPayload(name, kind, paginated));
            row.canonicalSql == SELECT + name && row.params == [(name, Definition(kind, true, Null, ""))]
  {
    var p := ToyPayload(name, kind, paginated);
    ToyStrings();
    ToyValidates(name);
    assert p.params[0].0 in Names(p.params);
    assert Names(p.params) == {name};
    ContractIsExact({name}, p.params);
    assert StoredDefinitions(lib, p.params) == p.params;
  }

  lemma {:induction false} ToyParamsDiffer(lib: Library, a: string, aKind: Kind, b: string, bKind: Kind)
    requires IsName(a) && IsName(b) && (a != b || aKind != bKind)
    ensures var env := Env(TOY_SQL, lib);
            var p, q := ToyPayload(a, aKind, false), ToyPayload(b, bKind, false);
            && Passes(env, p) && Passes(env, q) && !KeepsParams(RowOf(env, p), RowOf(env, q))
            && Names(p.params) == {a} && Names(q.params) == {b}
            && (a != b ==> !KeepsSql(RowOf(env, p), RowOf(env, q)))
            && (a == b ==> KeepsSql(RowOf(env, p), RowOf(env, q)))
  {
    var env := Env(TOY_SQL, lib);
    var p, q := ToyPayload(a, aKind, false), ToyPayload(b, bKind, false);
    ToyPasses(lib, a, aKind, false);
    ToyPasses(lib, b, bKind, false);
    assert p.params[0].0 in Names(p.params) && q.params[0].0 in Names(q.params);
    assert p.params[0] in Entries(p.params) && p.params[0] !in Entries(q.params);
    assert (SELECT + a)[|SELECT|..] == a && (SELECT + b)[|SELECT|..] == b;
  }

  /** `SELECT :a`, then `SELECT :b` and `SELECT :a` with `a` of another type, race as in RaceLosesContract. */
  lemma {:induction false} ContractRaceExists(lib: Library) returns (events: seq<Event>)
    ensures var env := Env(TOY_SQL, lib);
            && Run(env, START, events).Some?
            && 0 in Run(env, START, events).value.committed
            && !Meets(env, Matching, Run(env, START, events).value.committed[0])
  {
    ToyParamsDiffer(lib, "a", StringKind, "b", StringKind);
    ToyParamsDiffer(lib, "a", StringKind, "a", IntegerKind);
    assert "a" in {"a"} && "a" !in {"b"};
    events := RaceLosesContract(Env(TOY_SQL, lib), ToyPayload("a", StringKind, false),
                                ToyPayload("b", StringKind, false), ToyPayload("a", IntegerKind, false));
  }

  /** `SELECT :a`, then the same paginated and `SELECT :page`, race as in RaceReservesName. */
  lemma {:induction false} ReservedRaceExists(lib: Library) returns (events: seq<Event>)
    ensures var env := Env(TOY_SQL, lib);
            && Run(env, START, events).Some?
            && 0 in Run(env, START, events).value.committed
            && !Meets(env, Unreserved, Run(env, START, events).value.committed[0])
  {
    ToyParamsDiffer(lib, "a", StringKind, PAGE, StringKind);
    ToyPasses(lib, "a", StringKind, true);
    assert PAGE in {PAGE};
    events := RaceReservesName(Env(TOY_SQL, lib), ToyPayload("a", StringKind, false),
                               ToyPayload("a", StringKind, true), ToyPayload(PAGE, StringKind, false));
  }
}

/** The cache and its table as one machine: inserts interleave with the single queries of startup
    snapshots and background passes, and any query may fail. What holds over every run. */
module SyncProtocol {
  import opened Wrappers
  import opened AccountMap
  import opened MappingTable
  import opened SnapshotLoad

  /** `since`, `offset` and `loaded` are the local variables of a load that is under way. */
  datatype Phase = Idle | Loading(since: Option<Time>, offset: nat, loaded: nat)

  /** The last three fields record history: how many leading rows of the table were applied before
      anything was lost, the first row that no later pass can fetch, and whether a non-empty batch
      was fetched after a short one since the last snapshot began. */
  datatype State = State(
    table: seq<Record>,
    cache: Contents,
    phase: Phase,
    applied: nat,
    missed: Option<nat>,
    gapped: bool)

  datatype Event = Insert(row: Record) | BeginSnapshot | BeginPass | Fetch | FetchFails

  const START := State([], EMPTY, Idle, 0, None, false)

  /** A new row has a new token and sorts after the rows that are already there. */
  predicate CanFollow(table: seq<Record>, row: Record) {
    && row.createdAt.Some?
    && (forall r :: r in table ==> r.token != row.token)
    && (table != [] ==>
          var last := table[|table| - 1];
          last.createdAt.Some? && last.createdAt.value <= row.createdAt.value)
  }

  predicate Enabled(s: State, e: Event) {
    match e
    case Insert(row) => CanFollow(s.table, row)
    case BeginSnapshot => s.phase.Idle?
    case BeginPass => s.phase.Idle?
    case Fetch => s.phase.Loading?
    case FetchFails => s.phase.Loading?
  }

  /** The position in the table of the next query's first row. */
  function Position(s: State): nat
    requires s.phase.Loading?
  {
    Cut(s.table, s.phase.since) + s.phase.offset
  }

  function Step(s: State, e: Event, size: nat): State
    requires Enabled(s, e)
  {
    match e
    case Insert(row) => s.(table := s.table + [row])
    case BeginSnapshot => State(s.table, EMPTY, Loading(None, 0, 0), 0, None, false)
    case BeginPass =>
      if s.cache.lastSyncedAt.None? then s
      else s.(phase := Loading(s.cache.lastSyncedAt, 0, 0),
              missed := if s.missed.None? && s.applied < |s.table|
                           && !IsNewer(s.table[s.applied], s.cache.lastSyncedAt)
                        then Some(s.applied) else s.missed)
    case Fetch => AfterFetch(s, Batch(s.table, size, s.phase.offset, s.phase.since), size)
    case FetchFails => s.(phase := Idle)
  }

  function AfterFetch(s: State, records: seq<Record>, size: nat): State
    requires s.phase.Loading?
  {
    if records == [] then s.(phase := Idle)
    else
      State(s.table,
            AddAll(s.cache, records),
            Loading(s.phase.since, s.phase.offset + size, s.phase.loaded + |records|),
            if Position(s) == s.applied then s.applied + |records| else s.applied,
            if s.missed.None? && Position(s) != s.applied then Some(s.applied) else s.missed,
            s.gapped || s.phase.loaded < s.phase.offset)
  }

  /** The state after the events, if each was possible when it came. */
  function Run(s: State, events: seq<Event>, size: nat): Option<State>
    decreases |events|
  {
    if events == [] then Some(s)
    else if !Enabled(s, events[0]) then None
    else Run(Step(s, events[0], size), events[1..], size)
  }

  // ---------- The invariant ----------

  /** While nothing is lost the cache is the build of a prefix of the table. */
  predicate Prefix(s: State) {
    && s.applied <= |s.table|
    && (s.missed.None? ==> s.cache == Build(s.table[..s.applied]))
    && (s.missed.None? && s.phase.Loading? ==> s.applied <= Position(s))
  }

  /** A lost row is absent, not later than the watermark, and behind every query to come. */
  predicate Lost(s: State, k: nat) {
    && k < |s.table|
    && s.table[k].createdAt.Some?
    && s.table[k].token !in s.cache.tokenToValue
    && s.cache.lastSyncedAt.Some?
    && s.table[k].createdAt.value <= s.cache.lastSyncedAt.value
    && (s.phase.Loading? ==> k < Position(s))
  }

  predicate Inv(s: State) {
    IsTable(s.table) && Prefix(s) && (s.missed.Some? ==> Lost(s, s.missed.value))
  }

  lemma {:induction false} CutGrows(table: seq<Record>, row: Record, since: Option<Time>, i: nat)
    requires i <= |table|
    ensures CutFrom(table, since, i) <= CutFrom(table + [row], since, i)
    decreases |table| - i
  {
  }

  lemma {:induction false} InsertKeepsInv(s: State, row: Record, size: nat)
    requires Inv(s) && Enabled(s, Insert(row))
    ensures Inv(Step(s, Insert(row), size))
  {
    var t := Step(s, Insert(row), size);
    assert forall i :: 0 <= i < |s.table| ==> s.table[i] in s.table;
    assert IsTable(t.table);
    assert t.table[..s.applied] == s.table[..s.applied];
    if s.phase.Loading? {
      CutGrows(s.table, row, s.phase.since, 0);
    }
  }

  lemma {:induction false} BeginPassKeepsInv(s: State, size: nat)
    requires Inv(s) && Enabled(s, BeginPass)
    ensures Inv(Step(s, BeginPass, size))
  {
    var t := Step(s, BeginPass, size);
    var since := s.cache.lastSyncedAt;
    if since.Some? {
      NewerIsSuffix(s.table, since);
      if s.missed.Some? {
        assert !IsNewer(s.table[s.missed.value], since);
      } else {
        assert s.applied > 0;
        PrefixWatermark(s.table, s.applied);
        if t.missed.Some? {
          PrefixLacks(s.table, s.applied, s.applied);
        }
      }
    }
  }

  /** A build of the first n rows has no entry for the token of a later row. */
  lemma {:induction false} PrefixLacks(table: seq<Record>, n: nat, k: nat)
    requires IsTable(table) && n <= k < |table|
    ensures table[k].token !in Build(table[..n]).tokenToValue
  {
    BuildKeys(table[..n]);
    forall r | r in table[..n] ensures r.token != table[k].token {
      var i :| 0 <= i < n && table[i] == r;
    }
  }

  /** What a query returns is a stretch of the table. */
  lemma {:induction false} BatchIsStretch(table: seq<Record>, size: nat, offset: nat, since: Option<Time>)
    requires IsTable(table)
    ensures var start := Min(Cut(table, since) + offset, |table|);
            Batch(table, size, offset, since) == table[start..Min(start + size, |table|)]
  {
    NewerIsSuffix(table, since);
    var cut := Cut(table, since);
    var start := Min(cut + offset, |table|);
    assert Slice(table[cut..], size, offset) == table[start..Min(start + size, |table|)];
  }

  lemma {:induction false} FetchInOrder(s: State, size: nat, records: seq<Record>)
    requires Inv(s) && s.phase.Loading? && s.missed.None? && Position(s) == s.applied
    requires records != [] && s.applied + |records| <= |s.table|
    requires records == s.table[s.applied..s.applied + |records|] && |records| <= size
    ensures Inv(AfterFetch(s, records, size))
  {
    AddAllConcat(EMPTY, s.table[..s.applied], records);
    assert s.table[..s.applied] + records == s.table[..s.applied + |records|];
  }

  lemma {:induction false} FetchOutOfOrder(s: State, size: nat, records: seq<Record>, k: nat)
    requires Inv(s) && s.phase.Loading?
    requires k == (if s.missed.Some? then s.missed.value else s.applied) && k < Position(s)
    requires records != [] && Position(s) + |records| <= |s.table|
    requires records == s.table[Position(s)..Position(s) + |records|]
    ensures Inv(AfterFetch(s, records, size))
  {
    if s.missed.None? { PrefixLacks(s.table, k, k); }
    FetchLeavesBehind(s.cache, s.table, k, Position(s), |records|);
  }

  /** A non-empty batch is the stretch of the table that starts at the position of the query. */
  lemma {:induction false} BatchAtPosition(s: State, size: nat, records: seq<Record>)
    requires IsTable(s.table) && s.phase.Loading? && records == Batch(s.table, size, s.phase.offset, s.phase.since)
    ensures |records| <= size
    ensures records != [] ==>
              Position(s) + |records| <= |s.table| && records == s.table[Position(s)..Position(s) + |records|]
  {
    BatchIsStretch(s.table, size, s.phase.offset, s.phase.since);
  }

  lemma {:induction false} FetchKeepsInv(s: State, size: nat)
    requires Inv(s) && Enabled(s, Fetch)
    ensures Inv(Step(s, Fetch, size))
  {
    var records := Batch(s.table, size, s.phase.offset, s.phase.since);
    BatchAtPosition(s, size, records);
    if records != [] {
      if s.missed.None? && Position(s) == s.applied {
        FetchInOrder(s, size, records);
      } else {
        FetchOutOfOrder(s, size, records, if s.missed.Some? then s.missed.value else s.applied);
      }
    }
  }

  /** Rows fetched from beyond row k neither bring its token nor lower the watermark below it. */
  lemma {:induction false} FetchLeavesBehind(c: Contents, table: seq<Record>, k: nat, at: nat, n: nat)
    requires IsTable(table) && k < at <= at + n <= |table|
    requires table[k].token !in c.tokenToValue
    ensures table[k].token !in AddFirst(c, table[at..at + n], n).tokenToValue
    ensures n > 0 || (c.lastSyncedAt.Some? && c.lastSyncedAt.value >= table[k].createdAt.value) ==>
              var w := AddFirst(c, table[at..at + n], n).lastSyncedAt;
              w.Some? && w.value >= table[k].createdAt.value
  {
    if n == 0 {
    } else {
      FetchLeavesBehind(c, table, k, at, n - 1);
      AddFirstAgrees(c, table[at..at + n], table[at..at + n - 1], n - 1);
      assert table[at..at + n][n - 1] == table[at + n - 1];
    }
  }

  lemma {:induction false} StepKeepsInv(s: State, e: Event, size: nat)
    requires Inv(s) && Enabled(s, e)
    ensures Inv(Step(s, e, size))
  {
    match e {
      case Insert(row) => InsertKeepsInv(s, row, size);
      case BeginSnapshot =>
      case BeginPass => BeginPassKeepsInv(s, size);
      case Fetch => FetchKeepsInv(s, size);
      case FetchFails =>
    }
  }

  lemma {:induction false} RunKeepsInv(s: State, events: seq<Event>, size: nat)
    requires Inv(s) && Run(s, events, size).Some?
    ensures Inv(Run(s, events, size).value)
    decreases |events|
  {
    if events == [] {
    } else {
      StepKeepsInv(s, events[0], size);
      RunKeepsInv(Step(s, events[0], size), events[1..], size);
    }
  }

  // ---------- What the cache holds over every run ----------

  /** Every entry of either map comes from one row of the table. */
  predicate Sound(c: Contents, table: seq<Record>) {
    && (forall t :: t in c.tokenToValue ==>
          exists i :: 0 <= i < |table| && table[i].token == t && table[i].value == c.tokenToValue[t])
    && (forall v :: v in c.valueToToken ==>
          exists i :: 0 <= i < |table| && table[i].value == v && table[i].token == c.valueToToken[v])
  }

  lemma {:induction false} AddingRowsIsSound(c: Contents, table: seq<Record>, at: nat, n: nat)
    requires Sound(c, table) && at + n <= |table|
    ensures Sound(AddFirst(c, table[at..at + n], n), table)
  {
    if n == 0 {
    } else {
      AddingRowsIsSound(c, table, at, n - 1);
      AddFirstAgrees(c, table[at..at + n], table[at..at + n - 1], n - 1);
      var before := AddFirst(c, table[at..at + n - 1], n - 1);
      assert table[at..at + n][n - 1] == table[at + n - 1];
      assert Sound(Add(before, table[at + n - 1]), table);
    }
  }

  lemma {:induction false} MoreRowsAreSound(c: Contents, table: seq<Record>, row: Record)
    requires Sound(c, table)
    ensures Sound(c, table + [row])
  {
    assert forall i :: 0 <= i < |table| ==> (table + [row])[i] == table[i];
  }

  lemma {:induction false} FetchKeepsSound(s: State, size: nat)
    requires IsTable(s.table) && Sound(s.cache, s.table) && s.phase.Loading?
    ensures Sound(AddAll(s.cache, Batch(s.table, size, s.phase.offset, s.phase.since)), s.table)
  {
    BatchIsStretch(s.table, size, s.phase.offset, s.phase.since);
    var start := Min(Position(s), |s.table|);
    AddingRowsIsSound(s.cache, s.table, start, Min(start + size, |s.table|) - start);
  }

  lemma {:induction false} StepKeepsSound(s: State, e: Event, size: nat)
    requires IsTable(s.table) && Enabled(s, e) && Sound(s.cache, s.table)
    ensures Sound(Step(s, e, size).cache, Step(s, e, size).table)
  {
    match e {
      case Insert(row) => MoreRowsAreSound(s.cache, s.table, row);
      case Fetch => FetchKeepsSound(s, size);
      case BeginSnapshot => assert Step(s, e, size).cache == EMPTY;
      case BeginPass => assert Step(s, e, size).cache == s.cache;
      case FetchFails => assert Step(s, e, size).cache == s.cache;
    }
  }

  predicate StrictTimes(table: seq<Record>)
    requires IsTable(table)
  {
    forall i, j :: 0 <= i < j < |table| ==> table[i].createdAt.value < table[j].createdAt.value
  }

  /** With distinct times a row is lost exactly by a fetch after a short batch. */
  predicate GapInv(s: State)
    requires IsTable(s.table)
  {
    StrictTimes(s.table) ==>
      && (s.missed.Some? <==> s.gapped)
      && (s.missed.None? && s.phase.Loading? ==>
            && s.applied == Cut(s.table, s.phase.since) + s.phase.loaded
            && (s.phase.since.Some? ==>
                  s.table != [] && s.phase.since.value <= s.table[|s.table| - 1].createdAt.value))
  }

  /** A strictly later row does not move the place where the newer rows begin. */
  lemma {:induction false} CutIsStable(table: seq<Record>, row: Record, since: Option<Time>)
    requires IsTable(table) && IsTable(table + [row])
    requires since.Some? ==> table != [] && since.value <= table[|table| - 1].createdAt.value
    requires row.createdAt.Some?
    requires table != [] ==> table[|table| - 1].createdAt.value < row.createdAt.value
    ensures Cut(table + [row], since) == Cut(table, since)
  {
    NewerIsSuffix(table, since);
    NewerIsSuffix(table + [row], since);
    var cut := Cut(table, since);
    assert IsNewer((table + [row])[cut], since);
    assert cut > 0 ==> !IsNewer((table + [row])[cut - 1], since);
  }

  lemma {:induction false} InsertKeepsGapInv(s: State, row: Record, size: nat)
    requires Inv(s) && GapInv(s) && Enabled(s, Insert(row)) && IsTable(s.table + [row])
    ensures GapInv(Step(s, Insert(row), size))
  {
    var table := s.table + [row];
    assert forall i :: 0 <= i < |s.table| ==> table[i] == s.table[i];
    if StrictTimes(table) {
      assert StrictTimes(s.table);
      if s.missed.None? && s.phase.Loading? {
        assert s.table != [] ==> table[|s.table| - 1].createdAt.value < table[|s.table|].createdAt.value;
        CutIsStable(s.table, row, s.phase.since);
      }
    }
  }

  lemma {:induction false} BeginPassKeepsGapInv(s: State, size: nat)
    requires Inv(s) && GapInv(s) && Enabled(s, BeginPass)
    ensures GapInv(Step(s, BeginPass, size))
  {
    if s.cache.lastSyncedAt.Some? && s.missed.None? {
      assert s.applied > 0;
      PrefixWatermark(s.table, s.applied);
    }
  }

  lemma {:induction false} StepKeepsGapInv(s: State, e: Event, size: nat)
    requires Inv(s) && GapInv(s) && Enabled(s, e)
    ensures Inv(Step(s, e, size)) && GapInv(Step(s, e, size))
  {
    StepKeepsInv(s, e, size);
    match e {
      case Insert(row) => InsertKeepsGapInv(s, row, size);
      case BeginPass => BeginPassKeepsGapInv(s, size);
      case BeginSnapshot =>
      case Fetch =>
      case FetchFails =>
    }
  }

  lemma {:induction false} RunKeepsAll(s: State, events: seq<Event>, size: nat)
    requires Inv(s) && GapInv(s) && Sound(s.cache, s.table) && Run(s, events, size).Some?
    ensures var t := Run(s, events, size).value;
            Inv(t) && GapInv(t) && Sound(t.cache, t.table)
    decreases |events|
  {
    if events == [] {
    } else {
      StepKeepsGapInv(s, events[0], size);
      StepKeepsSound(s, events[0], size);
      RunKeepsAll(Step(s, events[0], size), events[1..], size);
    }
  }

  /** Every row up to the watermark is in the cache with its value. */
  predicate Covered(s: State) {
    forall i :: 0 <= i < |s.table| && s.table[i].createdAt.Some? && s.cache.lastSyncedAt.Some?
                && s.table[i].createdAt.value <= s.cache.lastSyncedAt.value ==>
      && s.table[i].token in s.cache.tokenToValue
      && s.cache.tokenToValue[s.table[i].token] == s.table[i].value
  }

  lemma {:induction false} PrefixIsCovered(s: State)
    requires Inv(s) && s.missed.None? && StrictTimes(s.table)
    ensures Covered(s)
  {
    var rows := s.table[..s.applied];
    TableWatermark(rows);
    forall i | 0 <= i < |s.table| && s.table[i].createdAt.Some? && s.cache.lastSyncedAt.Some?
               && s.table[i].createdAt.value <= s.cache.lastSyncedAt.value
      ensures s.table[i].token in s.cache.tokenToValue
      ensures s.cache.tokenToValue[s.table[i].token] == s.table[i].value
    {
      assert s.cache.lastSyncedAt == rows[s.applied - 1].createdAt;
      assert i < s.applied;
      assert rows[i] == s.table[i];
      assert LastForToken(rows, i);
      BuildKeepsLastWriters(rows, i);
    }
  }

  /** Over every run from an empty start, with failures at any query, retries and inserts anywhere:
      the cache holds only rows of the table, and when times are distinct it holds every row up to
      the watermark exactly when no load since the last clear fetched on after a short batch. */
  lemma {:induction false} CacheAgreesWithTable(events: seq<Event>, size: nat)
    requires Run(START, events, size).Some?
    ensures var s := Run(START, events, size).value;
            && IsTable(s.table)
            && Sound(s.cache, s.table)
            && (StrictTimes(s.table) ==> (Covered(s) <==> !s.gapped))
  {
    RunKeepsAll(START, events, size);
    var s := Run(START, events, size).value;
    if StrictTimes(s.table) {
      if s.missed.None? {
        PrefixIsCovered(s);
      } else {
        assert Lost(s, s.missed.value);
      }
    }
  }

  // ---------- What later passes can still repair ----------

  /** Background passes only: no insert, and no snapshot that would clear the cache. */
  predicate Passes(events: seq<Event>) {
    forall e :: e in events ==> e.BeginPass? || e.Fetch? || e.FetchFails?
  }

  /** Some schedule of passes brings the cache to what a fresh snapshot would build. */
  ghost predicate Recoverable(s: State, size: nat) {
    exists events :: Passes(events) && Run(s, events, size).Some?
                     && Run(s, events, size).value.cache == Build(s.table)
  }

  /** Nothing is lost, and either all rows are in, or the next row is later than the watermark,
      or the load under way is just about to fetch it. */
  predicate OnTrack(s: State) {
    && s.missed.None?
    && (|| s.applied >= |s.table|
        || (s.cache.lastSyncedAt.Some? && IsNewer(s.table[s.applied], s.cache.lastSyncedAt))
        || (s.phase.Loading? && Position(s) == s.applied))
  }

  lemma {:induction false} PassCannotRepair(s: State, e: Event, size: nat)
    requires Inv(s) && Enabled(s, e) && !OnTrack(s) && Passes([e])
    ensures !OnTrack(Step(s, e, size)) && Step(s, e, size).table == s.table
  {
    assert e in [e];
    if e.Fetch? {
      BatchIsStretch(s.table, size, s.phase.offset, s.phase.since);
    }
  }

  lemma {:induction false} PassesCannotRepair(s: State, events: seq<Event>, size: nat)
    requires Inv(s) && !OnTrack(s) && Passes(events) && Run(s, events, size).Some?
    ensures Run(s, events, size).value.cache != Build(s.table)
    decreases |events|
  {
    if events == [] {
      BuildKeys(s.table);
      var k := if s.missed.Some? then s.missed.value else s.applied;
      if s.missed.None? { PrefixLacks(s.table, k, k); }
      assert s.table[k] in s.table;
      assert s.table[k].token in Build(s.table).tokenToValue.Keys;
    } else {
      assert forall e :: e in [events[0]] ==> e in events;
      PassCannotRepair(s, events[0], size);
      StepKeepsInv(s, events[0], size);
      PassesCannotRepair(Step(s, events[0], size), events[1..], size);
    }
  }

  /** A load that is about to fetch the first row it lacks fetches all of them. */
  lemma {:induction false} Drain(s: State, size: nat) returns (events: seq<Event>)
    requires Inv(s) && size > 0
    requires s.missed.None? && s.phase.Loading? && Position(s) == s.applied
    ensures Passes(events) && Run(s, events, size).Some?
    ensures Run(s, events, size).value.cache == Build(s.table)
    decreases |s.table| - s.applied
  {
    if s.applied == |s.table| {
      events := [];
      assert s.table[..s.applied] == s.table;
    } else {
      var t := Step(s, Fetch, size);
      BatchIsStretch(s.table, size, s.phase.offset, s.phase.since);
      FetchKeepsInv(s, size);
      if t.applied == |s.table| {
        events := [Fetch];
        assert t.table[..t.applied] == s.table;
        assert Run(t, [], size) == Some(t);
      } else {
        var rest := Drain(t, size);
        events := [Fetch] + rest;
        assert events[1..] == rest;
      }
    }
  }

  /** From an idle cache on track, one pass suffices. */
  lemma {:induction false} OnePass(s: State, size: nat) returns (events: seq<Event>)
    requires Inv(s) && size > 0 && s.phase.Idle? && OnTrack(s)
    ensures Passes(events) && Run(s, events, size).Some?
    ensures Run(s, events, size).value.cache == Build(s.table)
  {
    if s.applied == |s.table| {
      events := [];
      assert s.table[..s.applied] == s.table;
    } else {
      assert s.applied > 0;
      PrefixWatermark(s.table, s.applied);
      var t := Step(s, BeginPass, size);
      BeginPassKeepsInv(s, size);
      var rest := Drain(t, size);
      events := [BeginPass] + rest;
      assert events[1..] == rest;
    }
  }

  /** In every reachable state, background passes can still bring the cache to the fresh snapshot
      of the current table exactly when the cache is on track; otherwise no schedule ever does. */
  lemma {:induction false} RecoverableIffOnTrack(history: seq<Event>, size: nat)
    requires size > 0 && Run(START, history, size).Some?
    ensures var s := Run(START, history, size).value;
            Recoverable(s, size) <==> OnTrack(s)
  {
    RunKeepsInv(START, history, size);
    var s := Run(START, history, size).value;
    if OnTrack(s) {
      var events;
      if s.phase.Loading? && Position(s) == s.applied {
        events := Drain(s, size);
      } else if s.phase.Loading? {
        var t := Step(s, FetchFails, size);
        var rest := OnePass(t, size);
        events := [FetchFails] + rest;
        assert events[1..] == rest;
        assert Run(s, events, size) == Run(t, rest, size);
      } else {
        events := OnePass(s, size);
      }
    } else {
      forall events | Passes(events) && Run(s, events, size).Some?
        ensures Run(s, events, size).value.cache != Build(s.table)
      {
        PassesCannotRepair(s, events, size);
      }
    }
  }

  // ---------- The machine and the code take the same steps ----------

  /** The events that can happen while one load is under way. */
  predicate DuringLoad(events: seq<Event>) {
    forall e :: e in events ==> e.Insert? || e.Fetch? || e.FetchFails?
  }

  /** What the load's session meets: each query sees the rows inserted before it. */
  function Answers(table: seq<Record>, events: seq<Event>): seq<Answer>
    decreases |events|
  {
    if events == [] then []
    else match events[0]
      case Insert(row) => Answers(table + [row], events[1..])
      case Fetch => [Serving(table)] + Answers(table, events[1..])
      case _ => [Down] + Answers(table, events[1..])
  }

  lemma {:induction false} IdleKeepsCache(s: State, events: seq<Event>, size: nat)
    requires s.phase.Idle? && DuringLoad(events) && Run(s, events, size).Some?
    ensures Run(s, events, size).value.cache == s.cache
    decreases |events|
  {
    if events == [] {
    } else {
      assert events[0] in events;
      IdleKeepsCache(Step(s, events[0], size), events[1..], size);
    }
  }

  /** One query of the loop and one fetch of the machine take the same branch. */
  lemma {:induction false} QueryFollowsMachine(s: State, e: Event, size: nat, answers: seq<Answer>, asked: nat)
    requires s.phase.Loading? && (e.Fetch? || e.FetchFails?) && asked < |answers|
    requires answers[asked] == if e.Fetch? then Serving(s.table) else Down
    ensures var t := Step(s, e, size);
            Page(s.cache, answers, asked, s.phase.since, size, s.phase.offset, s.phase.loaded)
            == if t.phase.Idle? then Outcome(t.cache, if e.Fetch? then Loaded(s.phase.loaded) else Raised, asked + 1)
               else Page(t.cache, answers, asked + 1, t.phase.since, size, t.phase.offset, t.phase.loaded)
  {
  }

  /** How a load ends: the first empty fetch returns the number of rows; a failed query raises, and so
      does a session that ends in the middle. */
  function Ending(s: State, events: seq<Event>, size: nat): Report
    requires s.phase.Loading? && DuringLoad(events) && Run(s, events, size).Some?
    decreases |events|
  {
    if events == [] then Raised
    else
      assert events[0] in events;
      var t := Step(s, events[0], size);
      if events[0].FetchFails? then Raised
      else if events[0].Fetch? && t.phase.Idle? then Loaded(s.phase.loaded)
      else Ending(t, events[1..], size)
  }

  /** The paging loop of the code, run against the answers of the machine's queries, leaves the
      cache that the machine reaches and ends as it does. */
  lemma {:induction false} LoopFollowsMachine(s: State, events: seq<Event>, size: nat, answers: seq<Answer>, asked: nat)
    requires s.phase.Loading? && DuringLoad(events) && Run(s, events, size).Some?
    requires asked <= |answers| && answers[asked..] == Answers(s.table, events)
    ensures var done := Page(s.cache, answers, asked, s.phase.since, size, s.phase.offset, s.phase.loaded);
            done.contents == Run(s, events, size).value.cache && done.report == Ending(s, events, size)
    decreases |events|
  {
    if events == [] {
    } else {
      assert events[0] in events;
      var t := Step(s, events[0], size);
      var rest := events[1..];
      if events[0].Insert? {
        LoopFollowsMachine(t, rest, size, answers, asked);
      } else {
        assert answers[asked] == answers[asked..][0];
        assert answers[asked + 1..] == answers[asked..][1..] == Answers(t.table, rest);
        QueryFollowsMachine(s, events[0], size, answers, asked);
        if t.phase.Idle? {
          IdleKeepsCache(t, rest, size);
        } else {
          LoopFollowsMachine(t, rest, size, answers, asked + 1);
        }
      }
    }
  }

  /** A snapshot and a pass of the code are runs of the machine, in the cache that they leave and in
      whether they return or raise. */
  lemma {:induction false} LoadsAreRuns(s: State, events: seq<Event>, size: nat)
    requires s.phase.Idle? && DuringLoad(events)
    ensures Run(Step(s, BeginSnapshot, size), events, size).Some? ==>
              var done := Snapshot(Answers(s.table, events), 0, size);
              && done.contents == Run(Step(s, BeginSnapshot, size), events, size).value.cache
              && done.report == Ending(Step(s, BeginSnapshot, size), events, size)
    ensures Run(Step(s, BeginPass, size), events, size).Some? ==>
              var done := Incremental(s.cache, Answers(s.table, events), 0, size);
              && done.contents == Run(Step(s, BeginPass, size), events, size).value.cache
              && done.report == if s.cache.lastSyncedAt.None? then Loaded(0)
                                else Ending(Step(s, BeginPass, size), events, size)
  {
    var answers := Answers(s.table, events);
    assert answers[0..] == answers;
    var a, b := Step(s, BeginSnapshot, size), Step(s, BeginPass, size);
    if Run(a, events, size).Some? {
      LoopFollowsMachine(a, events, size, answers, 0);
    }
    if Run(b, events, size).Some? {
      if b.phase.Idle? {
        IdleKeepsCache(b, events, size);
      } else {
        LoopFollowsMachine(b, events, size, answers, 0);
      }
    }
  }

  // ---------- Rows that arrive during a load ----------

  /** At any point of any run the cache is the fresh snapshot of the table exactly when nothing was
      lost and all rows were applied. */
  lemma {:induction false} FreshIffAllApplied(events: seq<Event>, size: nat)
    requires Run(START, events, size).Some?
    ensures var s := Run(START, events, size).value;
            s.cache == Build(s.table) <==> s.missed.None? && s.applied == |s.table|
  {
    RunKeepsInv(START, events, size);
    var s := Run(START, events, size).value;
    if s.missed.None? && s.applied == |s.table| {
      assert s.table[..s.applied] == s.table;
    } else {
      var k := if s.missed.Some? then s.missed.value else s.applied;
      if s.missed.None? { PrefixLacks(s.table, k, k); }
      BuildKeys(s.table);
      assert s.table[k] in s.table;
      assert s.table[k].token in Build(s.table).tokenToValue.Keys;
    }
  }

  /** In batch lengths: at every query of a load, with inserts and failures anywhere before it and
      distinct times, the cache is the fresh snapshot exactly when no load since the last clear fetched
      on after a short batch, and the batches of this load add up to all rows later than its start. */
  lemma {:induction false} FreshIffBatchesAddUp(events: seq<Event>, size: nat)
    requires Run(START, events, size).Some? && Run(START, events, size).value.phase.Loading?
    ensures var s := Run(START, events, size).value;
            && IsTable(s.table)
            && (StrictTimes(s.table) ==>
                  (s.cache == Build(s.table) <==> !s.gapped && s.phase.loaded == |Newer(s.table, s.phase.since)|))
  {
    RunKeepsAll(START, events, size);
    FreshIffAllApplied(events, size);
    var s := Run(START, events, size).value;
    NewerIsSuffix(s.table, s.phase.since);
  }
}

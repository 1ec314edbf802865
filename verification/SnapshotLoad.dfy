/** Filling the cache from the table: the full snapshot with its startup retries, the incremental
    pass and the background loop (app/services/pii_mapping_snapshot.py,
    app/dependencies/services.py, app/services/pii_cache_sync.py). */
module SnapshotLoad {
  import opened Wrappers
  import opened AccountMap
  import opened MappingTable

  datatype Report = Loaded(count: nat) | Raised

  /** The end of one load: the cache, what it reported, and the queries the session answered. */
  datatype Outcome = Outcome(contents: Contents, report: Report, asked: nat)

  /** The paging loop, from the query at `offset` on. */
  function Page(c: Contents, answers: seq<Answer>, asked: nat, since: Option<Time>, size: nat, offset: nat,
                loaded: nat): Outcome
    decreases |answers| - asked
  {
    if asked >= |answers| then Outcome(c, Raised, asked)
    else if answers[asked].Down? then Outcome(c, Raised, asked + 1)
    else
      var records := Batch(answers[asked].rows, size, offset, since);
      if records == [] then Outcome(c, Loaded(loaded), asked + 1)
      else Page(AddAll(c, records), answers, asked + 1, since, size, offset + size, loaded + |records|)
  }

  function Snapshot(answers: seq<Answer>, asked: nat, size: nat): Outcome {
    Page(EMPTY, answers, asked, None, size, 0, 0)
  }

  function Incremental(c: Contents, answers: seq<Answer>, asked: nat, size: nat): Outcome {
    if c.lastSyncedAt.None? then Outcome(c, Loaded(0), asked)
    else Page(c, answers, asked, c.lastSyncedAt, size, 0, 0)
  }

  method LoadPiiMappingSnapshot(session: MappingSession, cache: AccountMapInMemory, batchSize: nat)
    returns (report: Report)
    modifies session, cache
    ensures Outcome(cache.View(), report, session.asked) == Snapshot(session.answers, old(session.asked), batchSize)
  {
    cache.Clear();
    var loaded: nat, offset: nat := 0, 0;
    while true
      invariant Page(cache.View(), session.answers, session.asked, None, batchSize, offset, loaded)
             == Snapshot(session.answers, old(session.asked), batchSize)
      decreases |session.answers| - session.asked
    {
      var records := session.GetMappingsBatch(batchSize, offset, None);
      if records.Failure? {
        return Raised;
      }
      if records.value == [] {
        return Loaded(loaded);
      }
      cache.AddRecords(records.value);
      loaded := loaded + |records.value|;
      offset := offset + batchSize;
    }
  }

  method LoadPiiMappingIncremental(session: MappingSession, cache: AccountMapInMemory, batchSize: nat)
    returns (report: Report)
    modifies session, cache
    ensures Outcome(cache.View(), report, session.asked)
         == Incremental(old(cache.View()), session.answers, old(session.asked), batchSize)
  {
    var since := cache.lastSyncedAt;
    if since.None? {
      return Loaded(0);
    }
    var loaded: nat, offset: nat := 0, 0;
    while true
      invariant Page(cache.View(), session.answers, session.asked, since, batchSize, offset, loaded)
             == Incremental(old(cache.View()), session.answers, old(session.asked), batchSize)
      decreases |session.answers| - session.asked
    {
      var records := session.GetMappingsBatch(batchSize, offset, since);
      if records.Failure? {
        return Raised;
      }
      if records.value == [] {
        return Loaded(loaded);
      }
      cache.AddRecords(records.value);
      loaded := loaded + |records.value|;
      offset := offset + batchSize;
    }
  }

  // ---------- Startup ----------

  /** The answers that the session of attempt i meets. */
  function Attempt(attempts: seq<seq<Answer>>, i: nat): seq<Answer> {
    if i < |attempts| then attempts[i] else []
  }

  predicate Succeeds(attempts: seq<seq<Answer>>, size: nat, i: nat) {
    Snapshot(Attempt(attempts, i), 0, size).report.Loaded?
  }

  datatype InitError = AllRetriesFailed

  /** Startup fails only when every attempt failed; otherwise the cache is exactly what the first
      successful attempt loads on its own, so the failed ones leave no trace. */
  method InitializeAccountMapInMemory(cache: AccountMapInMemory, attempts: seq<seq<Answer>>, maxRetries: nat,
                                      batchSize: nat)
    returns (result: Result<(nat, nat), InitError>)
    modifies cache
    ensures result.Failure? <==> forall i :: 0 <= i < maxRetries ==> !Succeeds(attempts, batchSize, i)
    ensures result.Success? ==> exists i ::
              && 0 <= i < maxRetries && Succeeds(attempts, batchSize, i)
              && (forall j :: 0 <= j < i ==> !Succeeds(attempts, batchSize, j))
              && var done := Snapshot(Attempt(attempts, i), 0, batchSize);
                 cache.View() == done.contents
                 && result.value == (done.report.count, |done.contents.tokenToValue|)
    ensures result.Failure? && maxRetries > 0 ==>
              cache.View() == Snapshot(Attempt(attempts, maxRetries - 1), 0, batchSize).contents
  {
    for attempt := 0 to maxRetries
      invariant forall j :: 0 <= j < attempt ==> !Succeeds(attempts, batchSize, j)
      invariant attempt > 0 ==> cache.View() == Snapshot(Attempt(attempts, attempt - 1), 0, batchSize).contents
    {
      var session := new MappingSession(Attempt(attempts, attempt));
      var report := LoadPiiMappingSnapshot(session, cache, batchSize);
      if report.Loaded? {
        assert Succeeds(attempts, batchSize, attempt);
        return Success((report.count, cache.Size()));
      }
    }
    return Failure(AllRetriesFailed);
  }

  // ---------- The background loop ----------

  /** One round of the loop: the stop event ends it, or the interval elapses and a pass runs. */
  datatype Round = Stopped | Elapsed(answers: seq<Answer>)

  /** The cache after the rounds; a pass that raises is swallowed and the next round runs. */
  function SyncRounds(c: Contents, rounds: seq<Round>, size: nat): Contents
    decreases |rounds|
  {
    if rounds == [] || rounds[0].Stopped? then c
    else SyncRounds(Incremental(c, rounds[0].answers, 0, size).contents, rounds[1..], size)
  }

  method RunPiiCacheSyncLoop(cache: AccountMapInMemory, rounds: seq<Round>, batchSize: nat)
    modifies cache
    ensures cache.View() == SyncRounds(old(cache.View()), rounds, batchSize)
  {
    var round := 0;
    while round < |rounds|
      invariant 0 <= round <= |rounds|
      invariant SyncRounds(cache.View(), rounds[round..], batchSize) == SyncRounds(old(cache.View()), rounds, batchSize)
    {
      if rounds[round].Stopped? {
        break;
      }
      var session := new MappingSession(rounds[round].answers);
      var _ := LoadPiiMappingIncremental(session, cache, batchSize);
      round := round + 1;
    }
  }

  // ---------- A table that does not change during the load ----------

  predicate Frozen(answers: seq<Answer>, rows: seq<Record>) {
    forall i :: 0 <= i < |answers| ==> answers[i] == Serving(rows)
  }

  /** ceil(n / size), page by page. */
  function PagesOf(n: nat, size: nat): nat
    requires size > 0
  {
    if n == 0 then 0 else if n <= size then 1 else 1 + PagesOf(n - size, size)
  }

  /** PagesOf is the least number of pages of `size` rows that hold n rows. */
  lemma {:induction false} PagesOfIsCeiling(n: nat, size: nat)
    requires size > 0
    ensures n <= PagesOf(n, size) * size
    ensures n > 0 ==> (PagesOf(n, size) - 1) * size < n
  {
    if n <= size {
    } else {
      PagesOfIsCeiling(n - size, size);
    }
  }

  /** The paging loop over rows that do not change: the cache, the count, the queries. */
  function Scan(c: Contents, newer: seq<Record>, size: nat, offset: nat, loaded: nat): (Contents, nat, nat)
    requires size > 0
    decreases if offset < |newer| then |newer| - offset else 0
  {
    var records := Slice(newer, size, offset);
    if records == [] then (c, loaded, 1)
    else
      var (contents, count, queries) := Scan(AddAll(c, records), newer, size, offset + size, loaded + |records|);
      (contents, count, queries + 1)
  }

  lemma {:induction false} PageIsScan(c: Contents, answers: seq<Answer>, asked: nat, rows: seq<Record>,
                                      since: Option<Time>, size: nat, offset: nat, loaded: nat, newer: seq<Record>)
    requires Frozen(answers, rows) && size > 0 && newer == Newer(rows, since)
    requires asked + Scan(c, newer, size, offset, loaded).2 <= |answers|
    ensures var done := Page(c, answers, asked, since, size, offset, loaded);
            var scan := Scan(c, newer, size, offset, loaded);
            && done.contents == scan.0
            && done.report == Loaded(scan.1)
            && done.asked == asked + scan.2
    decreases |answers| - asked
  {
    var records := Slice(newer, size, offset);
    assert asked < |answers| && answers[asked] == Serving(rows);
    if records == [] {
    } else {
      PageIsScan(AddAll(c, records), answers, asked + 1, rows, since, size, offset + size, loaded + |records|, newer);
    }
  }

  /** The rows that a scan has not reached yet. */
  function Left(newer: seq<Record>, offset: nat): seq<Record> {
    newer[Min(offset, |newer|)..]
  }

  lemma {:induction false} ScanContents(c: Contents, newer: seq<Record>, size: nat, offset: nat, loaded: nat)
    requires size > 0
    ensures Scan(c, newer, size, offset, loaded).0 == AddAll(c, Left(newer, offset))
    decreases |Left(newer, offset)|
  {
    var records := Slice(newer, size, offset);
    if offset < |newer| {
      ScanContents(AddAll(c, records), newer, size, offset + size, loaded + |records|);
      AddAllConcat(c, records, Left(newer, offset + size));
      assert records + Left(newer, offset + size) == Left(newer, offset);
    }
  }

  lemma {:induction false} ScanCounts(c: Contents, newer: seq<Record>, size: nat, offset: nat, loaded: nat)
    requires size > 0
    ensures Scan(c, newer, size, offset, loaded).1 == loaded + |Left(newer, offset)|
    ensures Scan(c, newer, size, offset, loaded).2 == PagesOf(|Left(newer, offset)|, size) + 1
    decreases |Left(newer, offset)|
  {
    if offset < |newer| {
      var records := Slice(newer, size, offset);
      ScanCounts(AddAll(c, records), newer, size, offset + size, loaded + |records|);
    }
  }

  /** Over a frozen table the loop applies every newer row once and in order, reports their
      number, and stops after ceil(n / size) + 1 queries. */
  lemma {:induction false} FrozenLoad(c: Contents, answers: seq<Answer>, rows: seq<Record>, since: Option<Time>,
                                      size: nat)
    requires Frozen(answers, rows) && size > 0
    requires |answers| > PagesOf(|Newer(rows, since)|, size)
    ensures Page(c, answers, 0, since, size, 0, 0)
         == Outcome(AddAll(c, Newer(rows, since)), Loaded(|Newer(rows, since)|),
                    PagesOf(|Newer(rows, since)|, size) + 1)
  {
    var newer := Newer(rows, since);
    assert Left(newer, 0) == newer;
    ScanContents(c, newer, size, 0, 0);
    ScanCounts(c, newer, size, 0, 0);
    PageIsScan(c, answers, 0, rows, since, size, 0, 0, newer);
  }

  /** A snapshot of a frozen table is the last-writer-wins build of its rows. */
  lemma {:induction false} SnapshotOfFrozenTable(answers: seq<Answer>, rows: seq<Record>, size: nat)
    requires Frozen(answers, rows) && size > 0 && IsTable(rows)
    requires |answers| > PagesOf(|rows|, size)
    ensures Snapshot(answers, 0, size) == Outcome(Build(rows), Loaded(|rows|), PagesOf(|rows|, size) + 1)
  {
    NewerIsSuffix(rows, None);
    assert Cut(rows, None) == 0;
    assert rows[0..] == rows;
    FrozenLoad(EMPTY, answers, rows, None, size);
  }

  /** Row n is strictly later than the rows before it, so the strict filter cannot lose it. */
  predicate SplitsCleanly(rows: seq<Record>, n: nat)
    requires IsTable(rows) && n <= |rows|
  {
    0 < n < |rows| ==> rows[n - 1].createdAt.value < rows[n].createdAt.value
  }

  /** The watermark of a non-empty prefix is the time of its last row, and the strict filter then
      cuts after the last row of that time. */
  lemma {:induction false} PrefixWatermark(rows: seq<Record>, n: nat)
    requires IsTable(rows) && 0 < n <= |rows|
    ensures Build(rows[..n]).lastSyncedAt == rows[n - 1].createdAt
    ensures n <= Cut(rows, rows[n - 1].createdAt)
    ensures Cut(rows, rows[n - 1].createdAt) == n <==> SplitsCleanly(rows, n)
  {
    var last := rows[n - 1].createdAt;
    TableWatermark(rows[..n]);
    NewerIsSuffix(rows, last);
    assert !IsNewer(rows[n - 1], last);
    if n < |rows| {
      assert IsNewer(rows[n], last) <==> Cut(rows, last) <= n;
    }
  }

  lemma {:induction false} TableWatermark(rows: seq<Record>)
    requires IsTable(rows)
    ensures Build(rows).lastSyncedAt == if rows == [] then None else rows[|rows| - 1].createdAt
  {
    if rows == [] {
    } else {
      var init := rows[..|rows| - 1];
      TableWatermark(init);
      BuildLast(rows);
    }
  }

  /** An incremental pass over a frozen table, from a cache that holds its first n rows, rebuilds
      the full snapshot exactly when the n rows do not end inside a group of equal times. */
  lemma {:induction false} IncrementalRefinesSnapshot(answers: seq<Answer>, rows: seq<Record>, n: nat, size: nat)
    requires IsTable(rows) && 0 < n <= |rows| && size > 0
    requires Frozen(answers, rows) && |answers| > PagesOf(|rows|, size)
    ensures Incremental(Build(rows[..n]), answers, 0, size).contents == Snapshot(answers, 0, size).contents
       <==> SplitsCleanly(rows, n)
  {
    var since := rows[n - 1].createdAt;
    var cut := Cut(rows, since);
    PrefixWatermark(rows, n);
    SnapshotOfFrozenTable(answers, rows, size);
    PassOverFrozenTable(answers, rows, n, size);
    KeptRowsRebuild(rows, n, cut);
  }

  lemma {:induction false} PassOverFrozenTable(answers: seq<Answer>, rows: seq<Record>, n: nat, size: nat)
    requires IsTable(rows) && 0 < n <= |rows| && size > 0
    requires Frozen(answers, rows) && |answers| > PagesOf(|rows|, size)
    ensures Incremental(Build(rows[..n]), answers, 0, size).contents
         == Build(rows[..n] + rows[Cut(rows, rows[n - 1].createdAt)..])
  {
    var since := rows[n - 1].createdAt;
    var cut := Cut(rows, since);
    PrefixWatermark(rows, n);
    NewerIsSuffix(rows, since);
    PagesMonotone(|rows| - cut, |rows|, size);
    FrozenLoad(Build(rows[..n]), answers, rows, since, size);
    AddAllConcat(EMPTY, rows[..n], rows[cut..]);
  }

  lemma {:induction false} PagesMonotone(m: nat, n: nat, size: nat)
    requires m <= n && size > 0
    ensures PagesOf(m, size) <= PagesOf(n, size)
  {
    if m <= size {
    } else {
      PagesMonotone(m - size, n - size, size);
    }
  }

  /** Leaving out rows of a table is visible in the cache: their tokens are missing. */
  lemma {:induction false} KeptRowsRebuild(rows: seq<Record>, n: nat, cut: nat)
    requires IsTable(rows) && n <= cut <= |rows|
    ensures Build(rows[..n] + rows[cut..]) == Build(rows) <==> cut == n
  {
    if cut == n {
      assert rows[..n] + rows[cut..] == rows;
    } else {
      SkippedTokenIsAbsent(rows, n, cut);
      BuildKeys(rows);
      assert rows[n].token in Build(rows).tokenToValue.Keys;
    }
  }

  lemma {:induction false} SkippedTokenIsAbsent(rows: seq<Record>, n: nat, cut: nat)
    requires IsTable(rows) && n < cut <= |rows|
    ensures rows[n].token !in Build(rows[..n] + rows[cut..]).tokenToValue
  {
    var kept := rows[..n] + rows[cut..];
    BuildKeys(kept);
    forall r | r in kept ensures r.token != rows[n].token {
      var i :| 0 <= i < |kept| && kept[i] == r;
      assert r == if i < n then rows[i] else rows[cut + i - n];
    }
  }

  // ---------- A load that succeeds and loses rows ----------

  /** The first query sees n rows, fewer than a page; then rows arrive. The second query starts at
      offset `size`, so rows n to size - 1 are skipped, while the watermark moves past them. */
  lemma {:induction false} ShortPageSkipsRows(rows: seq<Record>, n: nat, size: nat)
    requires IsTable(rows) && 0 < n < size < |rows| <= 2 * size
    ensures var done := Snapshot([Serving(rows[..n]), Serving(rows), Serving(rows)], 0, size);
            && done.report == Loaded(n + |rows| - size)
            && done.contents == Build(rows[..n] + rows[size..])
            && done.contents != Build(rows)
            && rows[n].token !in done.contents.tokenToValue
            && done.contents.lastSyncedAt == rows[|rows| - 1].createdAt
  {
    var answers := [Serving(rows[..n]), Serving(rows), Serving(rows)];
    var first, second := rows[..n], rows[size..];
    ShortPageBatches(rows, n, size);
    var c1, c2 := AddAll(EMPTY, first), AddAll(AddAll(EMPTY, first), second);
    assert Page(c2, answers, 2, None, size, size + size, n + |second|) == Outcome(c2, Loaded(n + |second|), 3);
    assert Page(c1, answers, 1, None, size, size, n) == Page(c2, answers, 2, None, size, size + size, n + |second|);
    AddAllConcat(EMPTY, first, second);
    KeptRowsRebuild(rows, n, size);
    SkippedTokenIsAbsent(rows, n, size);
    assert IsTable(first + second);
    TableWatermark(first + second);
  }

  lemma {:induction false} ShortPageBatches(rows: seq<Record>, n: nat, size: nat)
    requires IsTable(rows) && 0 < n < size < |rows| <= 2 * size
    ensures Batch(rows[..n], size, 0, None) == rows[..n]
    ensures Batch(rows, size, size, None) == rows[size..]
    ensures Batch(rows, size, size + size, None) == []
  {
    NewerIsSuffix(rows[..n], None);
    NewerIsSuffix(rows, None);
  }
}

/** What one load applies, told from the lengths of its batches, with rows arriving at any time
    and equal times allowed (app/services/pii_mapping_snapshot.py). */
module LoadBatches {
  import opened Wrappers
  import opened AccountMap
  import opened MappingTable
  import opened SnapshotLoad
  import opened SyncProtocol

  // ---------- Snapshots, over every run ----------

  lemma {:induction false} NoFilterCutsNothing(rows: seq<Record>)
    ensures Cut(rows, None) == 0
  {
  }

  /** While a snapshot is under way, a row is lost exactly by a fetch after a short batch, and
      otherwise the rows applied are counted by `loaded`. */
  predicate SnapshotInv(s: State) {
    s.phase.Loading? && s.phase.since.None? ==>
      && s.phase.loaded <= s.phase.offset
      && (s.missed.Some? <==> s.gapped)
      && (s.missed.None? ==> s.applied == s.phase.loaded)
  }

  lemma {:induction false} StepKeepsSnapshotInv(s: State, e: Event, size: nat)
    requires Inv(s) && SnapshotInv(s) && Enabled(s, e)
    ensures SnapshotInv(Step(s, e, size))
  {
    if e.Fetch? {
      NoFilterCutsNothing(s.table);
      BatchAtPosition(s, size, Batch(s.table, size, s.phase.offset, s.phase.since));
    }
  }

  lemma {:induction false} RunKeepsSnapshotInv(s: State, events: seq<Event>, size: nat)
    requires Inv(s) && SnapshotInv(s) && Run(s, events, size).Some?
    ensures SnapshotInv(Run(s, events, size).value)
    decreases |events|
  {
    if events == [] {
    } else {
      StepKeepsInv(s, events[0], size);
      StepKeepsSnapshotInv(s, events[0], size);
      RunKeepsSnapshotInv(Step(s, events[0], size), events[1..], size);
    }
  }

  /** Over every run and at every query of a snapshot: if each batch before the last was full, exactly
      the first `loaded` rows were applied; and all rows were, exactly when besides their number is
      that of the table. */
  lemma {:induction false} SnapshotAppliesPrefix(events: seq<Event>, size: nat)
    requires Run(START, events, size).Some?
    requires var s := Run(START, events, size).value; s.phase.Loading? && s.phase.since.None?
    ensures var s := Run(START, events, size).value;
            && (!s.gapped ==> s.phase.loaded <= |s.table| && s.cache == Build(s.table[..s.phase.loaded]))
            && (s.cache == Build(s.table) <==> !s.gapped && s.phase.loaded == |s.table|)
  {
    RunKeepsInv(START, events, size);
    RunKeepsSnapshotInv(START, events, size);
    FreshIffAllApplied(events, size);
  }

  // ---------- Any load, from any cache ----------

  /** Once a newer row is there, a later one does not move the place where the newer rows begin. */
  lemma {:induction false} CutStays(rows: seq<Record>, row: Record, since: Option<Time>, i: nat)
    requires i <= |rows| && CutFrom(rows, since, i) < |rows|
    ensures CutFrom(rows + [row], since, i) == CutFrom(rows, since, i)
    decreases |rows| - i
  {
    if IsNewer(rows[i], since) {
    } else {
      CutStays(rows, row, since, i + 1);
    }
  }

  lemma {:induction false} InsertKeepsTable(table: seq<Record>, row: Record)
    requires IsTable(table) && CanFollow(table, row)
    ensures IsTable(table + [row])
  {
    assert forall i :: 0 <= i < |table| ==> table[i] in table;
  }

  /** The rows that the load has applied if no batch before the last was short. */
  predicate AppliedStretch(c: Contents, s: State)
    requires s.phase.Loading?
  {
    var cut := Cut(s.table, s.phase.since);
    && cut + s.phase.loaded <= |s.table|
    && s.cache == AddAll(c, s.table[cut..cut + s.phase.loaded])
  }

  /** The cache that the load started from has none of the rows that it asks for. */
  predicate LacksNewer(c: Contents, table: seq<Record>, since: Option<Time>) {
    forall i :: Cut(table, since) <= i < |table| ==> table[i].token !in c.tokenToValue
  }

  /** Row k should be among the rows loaded, but is absent and behind every later query. */
  predicate Skipped(s: State, k: nat)
    requires s.phase.Loading?
  {
    && Cut(s.table, s.phase.since) <= k < Cut(s.table, s.phase.since) + s.phase.loaded
    && k < |s.table| && k < Position(s)
    && s.table[k].token !in s.cache.tokenToValue
  }

  predicate LoadInv(c: Contents, s: State) {
    && IsTable(s.table)
    && (s.phase.Loading? ==>
          && s.phase.loaded <= s.phase.offset
          && (s.phase.loaded > 0 ==> Cut(s.table, s.phase.since) < |s.table|)
          && (s.gapped ==> s.phase.loaded > 0)
          && (!s.gapped ==> AppliedStretch(c, s))
          && (s.gapped && LacksNewer(c, s.table, s.phase.since) ==> exists k :: 0 <= k < |s.table| && Skipped(s, k)))
  }

  lemma {:induction false} FirstInsertKeepsLoadInv(c: Contents, s: State, row: Record, size: nat)
    requires LoadInv(c, s) && s.phase.Loading? && Enabled(s, Insert(row)) && s.phase.loaded == 0
    ensures LoadInv(c, Step(s, Insert(row), size))
  {
    var t := Step(s, Insert(row), size);
    var cut, later := Cut(s.table, s.phase.since), Cut(t.table, s.phase.since);
    InsertKeepsTable(s.table, row);
    assert s.table[cut..cut] == [] == t.table[later..later];
  }

  lemma {:induction false} LaterInsertKeepsSkipped(c: Contents, s: State, row: Record, size: nat)
    requires LoadInv(c, s) && s.phase.Loading? && Enabled(s, Insert(row)) && s.phase.loaded > 0 && s.gapped
    requires LacksNewer(c, s.table + [row], s.phase.since)
    ensures exists k :: 0 <= k < |s.table| + 1 && Skipped(Step(s, Insert(row), size), k)
  {
    var t := Step(s, Insert(row), size);
    var cut := Cut(s.table, s.phase.since);
    CutStays(s.table, row, s.phase.since, 0);
    assert forall i :: cut <= i < |s.table| ==> s.table[i] == t.table[i];
    var k :| 0 <= k < |s.table| && Skipped(s, k);
    assert Skipped(t, k);
  }

  lemma {:induction false} InsertKeepsLoadInv(c: Contents, s: State, row: Record, size: nat)
    requires LoadInv(c, s) && s.phase.Loading? && Enabled(s, Insert(row))
    ensures LoadInv(c, Step(s, Insert(row), size))
  {
    if s.phase.loaded == 0 {
      FirstInsertKeepsLoadInv(c, s, row, size);
    } else {
      var cut, n := Cut(s.table, s.phase.since), s.phase.loaded;
      InsertKeepsTable(s.table, row);
      CutStays(s.table, row, s.phase.since, 0);
      if !s.gapped {
        assert (s.table + [row])[cut..cut + n] == s.table[cut..cut + n];
      } else if LacksNewer(c, s.table + [row], s.phase.since) {
        LaterInsertKeepsSkipped(c, s, row, size);
      }
    }
  }

  lemma {:induction false} FullFetchKeepsLoadInv(c: Contents, s: State, size: nat, records: seq<Record>)
    requires LoadInv(c, s) && s.phase.Loading? && !s.gapped && s.phase.loaded == s.phase.offset
    requires records != [] && |records| <= size && Position(s) + |records| <= |s.table|
    requires records == s.table[Position(s)..Position(s) + |records|]
    ensures LoadInv(c, AfterFetch(s, records, size))
  {
    var cut, at := Cut(s.table, s.phase.since), Position(s);
    ExtendStretch(c, s.table, cut, at, |records|);
  }

  lemma {:induction false} ExtendStretch(c: Contents, table: seq<Record>, from: nat, at: nat, n: nat)
    requires from <= at <= at + n <= |table|
    ensures AddAll(AddAll(c, table[from..at]), table[at..at + n]) == AddAll(c, table[from..at + n])
  {
    AddAllConcat(c, table[from..at], table[at..at + n]);
    assert table[from..at] + table[at..at + n] == table[from..at + n];
  }

  /** A non-empty fetch after a short batch skips the row behind that batch. */
  lemma {:induction false} LateFetchKeepsLoadInv(c: Contents, s: State, size: nat, records: seq<Record>)
    requires LoadInv(c, s) && s.phase.Loading? && (s.gapped || s.phase.loaded < s.phase.offset)
    requires records != [] && |records| <= size && Position(s) + |records| <= |s.table|
    requires records == s.table[Position(s)..Position(s) + |records|]
    ensures LoadInv(c, AfterFetch(s, records, size))
  {
    var cut, at := Cut(s.table, s.phase.since), Position(s);
    var t := AfterFetch(s, records, size);
    if LacksNewer(c, s.table, s.phase.since) {
      var k;
      if s.gapped {
        k :| 0 <= k < |s.table| && Skipped(s, k);
      } else {
        k := cut + s.phase.loaded;
        StretchLacksNext(c, s.table, cut, k);
      }
      FetchLeavesBehind(s.cache, s.table, k, at, |records|);
      assert Skipped(t, k);
    }
  }

  lemma {:induction false} StretchLacksNext(c: Contents, table: seq<Record>, from: nat, k: nat)
    requires IsTable(table) && from <= k < |table| && table[k].token !in c.tokenToValue
    ensures table[k].token !in AddAll(c, table[from..k]).tokenToValue
  {
    AddedTokens(c, table[from..k], k - from, table[k].token);
  }

  lemma {:induction false} AddedTokens(c: Contents, rs: seq<Record>, n: nat, token: string)
    requires n <= |rs|
    ensures token in AddFirst(c, rs, n).tokenToValue <==>
              token in c.tokenToValue || exists i :: 0 <= i < n && rs[i].token == token
  {
    if n == 0 {
    } else {
      AddedTokens(c, rs, n - 1, token);
    }
  }

  lemma {:induction false} StepKeepsLoadInv(c: Contents, s: State, e: Event, size: nat)
    requires LoadInv(c, s) && Enabled(s, e) && (e.Insert? || e.Fetch? || e.FetchFails?)
    ensures LoadInv(c, Step(s, e, size))
  {
    match e {
      case Insert(row) =>
        if s.phase.Loading? { InsertKeepsLoadInv(c, s, row, size); } else { InsertKeepsTable(s.table, row); }
      case Fetch =>
        var records := Batch(s.table, size, s.phase.offset, s.phase.since);
        BatchAtPosition(s, size, records);
        if records == [] {
        } else if !s.gapped && s.phase.loaded == s.phase.offset {
          FullFetchKeepsLoadInv(c, s, size, records);
        } else {
          LateFetchKeepsLoadInv(c, s, size, records);
        }
      case _ =>
    }
  }

  lemma {:induction false} RunKeepsLoadInv(c: Contents, s: State, events: seq<Event>, size: nat)
    requires LoadInv(c, s) && DuringLoad(events) && Run(s, events, size).Some?
    ensures LoadInv(c, Run(s, events, size).value)
    decreases |events|
  {
    if events == [] {
    } else {
      assert events[0] in events;
      StepKeepsLoadInv(c, s, events[0], size);
      RunKeepsLoadInv(c, Step(s, events[0], size), events[1..], size);
    }
  }

  /** Clearing the record of earlier gaps changes nothing that the service sees. */
  lemma {:induction false} GapsAreHistory(s: State, r: State, events: seq<Event>, size: nat)
    requires r == s.(gapped := r.gapped) && Run(s, events, size).Some?
    ensures Run(r, events, size).Some?
    ensures Run(r, events, size).value == Run(s, events, size).value.(gapped := Run(r, events, size).value.gapped)
    decreases |events|
  {
    if events == [] {
    } else {
      GapsAreHistory(Step(s, events[0], size), Step(r, events[0], size), events[1..], size);
    }
  }

  lemma {:induction false} SkippedBreaksStretch(c: Contents, s: State, k: nat)
    requires s.phase.Loading? && k < |s.table| && Skipped(s, k)
    ensures !AppliedStretch(c, s)
  {
    if AppliedStretch(c, s) {
      var cut := Cut(s.table, s.phase.since);
      var rows := s.table[cut..cut + s.phase.loaded];
      assert rows[k - cut] == s.table[k];
      AddedTokens(c, rows, |rows|, s.table[k].token);
    }
  }

  /** At the start of a load nothing was applied. */
  lemma {:induction false} LoadInvAtStart(s: State)
    requires IsTable(s.table) && s.phase.Loading? && s.phase.offset == 0 && s.phase.loaded == 0 && !s.gapped
    ensures LoadInv(s.cache, s)
  {
    var cut := Cut(s.table, s.phase.since);
    assert s.table[cut..cut] == [];
  }

  /** Any load of any cache, with rows arriving at any time: if each batch before the last was full,
      exactly the next `loaded` rows behind the filter were applied, without gap or duplicate. From a
      cache that has none of the rows asked for, that is so only if each batch before the last was full.
      The run from `s.(gapped := false)` differs only in that it records the gaps of this load alone. */
  lemma {:induction false} LoadAppliesStretch(s: State, events: seq<Event>, size: nat)
    requires IsTable(s.table) && s.phase.Loading? && s.phase.offset == 0 && s.phase.loaded == 0
    requires DuringLoad(events) && Run(s, events, size).Some? && Run(s, events, size).value.phase.Loading?
    ensures Run(s.(gapped := false), events, size).Some?
    ensures var t := Run(s, events, size).value;
            var gapped := Run(s.(gapped := false), events, size).value.gapped;
            && (!gapped ==> AppliedStretch(s.cache, t))
            && (LacksNewer(s.cache, t.table, t.phase.since) ==> (!gapped <==> AppliedStretch(s.cache, t)))
  {
    var r := s.(gapped := false);
    LoadInvAtStart(r);
    GapsAreHistory(s, r, events, size);
    RunKeepsLoadInv(s.cache, r, events, size);
    var t := Run(r, events, size).value;
    if t.gapped && LacksNewer(s.cache, t.table, t.phase.since) {
      var k :| 0 <= k < |t.table| && Skipped(t, k);
      SkippedBreaksStretch(s.cache, t, k);
    }
  }

  // ---------- A pass over a loaded prefix ----------

  /** Every token of the cache was there before the load or stands behind the filter. */
  predicate FromNewer(c: Contents, s: State) {
    s.phase.Loading? ==>
      forall t :: t in s.cache.tokenToValue && t !in c.tokenToValue ==>
        exists i :: Cut(s.table, s.phase.since) <= i < |s.table| && s.table[i].token == t
  }

  lemma {:induction false} InsertKeepsFromNewer(c: Contents, s: State, row: Record, size: nat)
    requires LoadInv(c, s) && FromNewer(c, s) && s.phase.Loading? && Enabled(s, Insert(row))
    ensures FromNewer(c, Step(s, Insert(row), size))
  {
    var t := Step(s, Insert(row), size);
    var cut := Cut(s.table, s.phase.since);
    if s.phase.loaded == 0 {
      assert s.table[cut..cut] == [];
    } else {
      CutStays(s.table, row, s.phase.since, 0);
      forall x | x in t.cache.tokenToValue && x !in c.tokenToValue
        ensures exists i :: cut <= i < |t.table| && t.table[i].token == x
      {
        var i :| cut <= i < |s.table| && s.table[i].token == x;
        assert t.table[i] == s.table[i];
      }
    }
  }

  lemma {:induction false} FetchKeepsFromNewer(c: Contents, s: State, size: nat)
    requires LoadInv(c, s) && FromNewer(c, s) && s.phase.Loading?
    ensures FromNewer(c, Step(s, Fetch, size))
  {
    var records := Batch(s.table, size, s.phase.offset, s.phase.since);
    BatchAtPosition(s, size, records);
    var t := Step(s, Fetch, size);
    if records != [] {
      forall x | x in t.cache.tokenToValue && x !in c.tokenToValue
        ensures exists i :: Cut(s.table, s.phase.since) <= i < |s.table| && s.table[i].token == x
      {
        AddedTokens(s.cache, records, |records|, x);
        if x !in s.cache.tokenToValue {
          var i :| 0 <= i < |records| && records[i].token == x;
          assert s.table[Position(s) + i].token == x;
        }
      }
    }
  }

  lemma {:induction false} RunKeepsFromNewer(c: Contents, s: State, events: seq<Event>, size: nat)
    requires LoadInv(c, s) && FromNewer(c, s) && DuringLoad(events) && Run(s, events, size).Some?
    ensures FromNewer(c, Run(s, events, size).value)
    decreases |events|
  {
    if events == [] {
    } else {
      assert events[0] in events;
      StepKeepsLoadInv(c, s, events[0], size);
      if s.phase.Loading? {
        match events[0] {
          case Insert(row) => InsertKeepsFromNewer(c, s, row, size);
          case Fetch => FetchKeepsFromNewer(c, s, size);
          case _ =>
        }
      }
      RunKeepsFromNewer(c, Step(s, events[0], size), events[1..], size);
    }
  }

  /** A build of the first n rows lacks all rows that its own watermark leaves to be asked for. */
  lemma {:induction false} PrefixLacksNewer(table: seq<Record>, n: nat)
    requires IsTable(table) && 0 < n <= |table|
    ensures Build(table[..n]).lastSyncedAt == table[n - 1].createdAt
    ensures n <= Cut(table, table[n - 1].createdAt)
    ensures LacksNewer(Build(table[..n]), table, table[n - 1].createdAt)
  {
    PrefixWatermark(table, n);
    forall i | Cut(table, table[n - 1].createdAt) <= i < |table|
      ensures table[i].token !in Build(table[..n]).tokenToValue
    {
      PrefixLacks(table, n, i);
    }
  }

  /** What the rows of a pass can be, and that they are the next ones only if the filter starts there. */
  lemma {:induction false} StretchIsPrefix(c: Contents, t: State, n: nat)
    requires IsTable(t.table) && t.phase.Loading? && 0 < n <= |t.table| && c == Build(t.table[..n])
    requires t.phase.since == t.table[n - 1].createdAt
    requires AppliedStretch(c, t) && (t.phase.loaded == 0 || Cut(t.table, t.phase.since) == n)
    ensures n + t.phase.loaded <= |t.table| && t.cache == Build(t.table[..n + t.phase.loaded])
  {
    if t.phase.loaded == 0 {
      var cut := Cut(t.table, t.phase.since);
      assert t.table[cut..cut] == [];
    } else {
      AddAllConcat(EMPTY, t.table[..n], t.table[n..n + t.phase.loaded]);
      assert t.table[..n] + t.table[n..n + t.phase.loaded] == t.table[..n + t.phase.loaded];
    }
  }

  lemma {:induction false} AbsentRowIsNoPrefix(t: State, k: nat, m: nat)
    requires k < m <= |t.table| && t.table[k].token !in t.cache.tokenToValue
    ensures t.cache != Build(t.table[..m])
  {
    BuildKeys(t.table[..m]);
    assert t.table[..m][k] == t.table[k];
    assert t.table[k] in t.table[..m];
    assert t.table[k].token in Build(t.table[..m]).tokenToValue.Keys;
  }

  /** A row in front of the filter that the cache lacked is still absent. */
  lemma {:induction false} NothingBeforeCut(c: Contents, t: State, n: nat)
    requires IsTable(t.table) && t.phase.Loading? && FromNewer(c, t) && n < Cut(t.table, t.phase.since) <= |t.table|
    requires c == Build(t.table[..n])
    ensures t.table[n].token !in t.cache.tokenToValue
  {
    PrefixLacks(t.table, n, n);
  }

  lemma {:induction false} TableOnlyGrows(s: State, events: seq<Event>, size: nat)
    requires Run(s, events, size).Some?
    ensures s.table <= Run(s, events, size).value.table
    decreases |events|
  {
    if events == [] {
    } else {
      TableOnlyGrows(Step(s, events[0], size), events[1..], size);
    }
  }

  lemma {:induction false} SinceStays(s: State, events: seq<Event>, size: nat)
    requires DuringLoad(events) && Run(s, events, size).Some? && Run(s, events, size).value.phase.Loading?
    ensures s.phase.Loading? && Run(s, events, size).value.phase.since == s.phase.since
    decreases |events|
  {
    if events == [] {
    } else {
      assert events[0] in events;
      SinceStays(Step(s, events[0], size), events[1..], size);
    }
  }

  lemma {:induction false} PassEnds(c: Contents, t: State, n: nat)
    requires IsTable(t.table) && t.phase.Loading? && 0 < n <= |t.table| && c == Build(t.table[..n])
    requires t.phase.since == t.table[n - 1].createdAt && LoadInv(c, t) && FromNewer(c, t)
    ensures (n + t.phase.loaded <= |t.table| && t.cache == Build(t.table[..n + t.phase.loaded]))
       <==> !t.gapped && (t.phase.loaded == 0 || Cut(t.table, t.phase.since) == n)
  {
    PrefixLacksNewer(t.table, n);
    var cut, m := Cut(t.table, t.phase.since), n + t.phase.loaded;
    if !t.gapped && (t.phase.loaded == 0 || cut == n) {
      StretchIsPrefix(c, t, n);
    } else if m <= |t.table| {
      var k := n;
      if cut == n {
        k :| 0 <= k < |t.table| && Skipped(t, k);
      } else {
        NothingBeforeCut(c, t, n);
      }
      AbsentRowIsNoPrefix(t, k, m);
    }
  }

  /** The prefix that the pass started from and its filter stay what they were. */
  lemma {:induction false} PassKeepsStart(s: State, n: nat, events: seq<Event>, size: nat)
    requires IsTable(s.table) && 0 < n <= |s.table| && s.cache == Build(s.table[..n])
    requires s.phase == Loading(s.cache.lastSyncedAt, 0, 0)
    requires DuringLoad(events) && Run(s, events, size).Some? && Run(s, events, size).value.phase.Loading?
    ensures var t := Run(s, events, size).value;
            n <= |t.table| && s.cache == Build(t.table[..n]) && t.phase.since == t.table[n - 1].createdAt
  {
    TableOnlyGrows(s, events, size);
    SinceStays(s, events, size);
    assert Run(s, events, size).value.table[..n] == s.table[..n];
    PrefixWatermark(s.table, n);
  }

  /** A pass from a cache that holds the first n rows, with rows arriving at any time, equal times
      included: the cache then holds the first n + loaded rows exactly when each batch before the last
      was full and, unless the pass found nothing, row n is where the strict filter starts. */
  lemma {:induction false} PassExtendsPrefix(s: State, n: nat, events: seq<Event>, size: nat)
    requires IsTable(s.table) && 0 < n <= |s.table| && s.cache == Build(s.table[..n]) && !s.gapped
    requires s.phase == Loading(s.cache.lastSyncedAt, 0, 0)
    requires DuringLoad(events) && Run(s, events, size).Some? && Run(s, events, size).value.phase.Loading?
    ensures var t := Run(s, events, size).value;
            var m := n + t.phase.loaded;
            (m <= |t.table| && t.cache == Build(t.table[..m]))
            <==> !t.gapped && (t.phase.loaded == 0 || Cut(t.table, t.phase.since) == n)
  {
    var t := Run(s, events, size).value;
    LoadInvAtStart(s);
    RunKeepsLoadInv(s.cache, s, events, size);
    RunKeepsFromNewer(s.cache, s, events, size);
    PassKeepsStart(s, n, events, size);
    PassEnds(s.cache, t, n);
  }
}

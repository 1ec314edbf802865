/** The background loop over any number of rounds (app/services/pii_cache_sync.py): it is a run of
    the sync machine, failures included, and what it makes of a growing table. */
module SyncLoop {
  import opened Wrappers
  import opened AccountMap
  import opened MappingTable
  import opened SnapshotLoad
  import opened SyncProtocol

  // ---------- The loop is a run of the machine ----------

  /** One pass after the other; what happens in a pass, and behind it before the next one. */
  function Schedule(passes: seq<seq<Event>>): seq<Event> {
    if passes == [] then [] else [BeginPass] + passes[0] + Schedule(passes[1..])
  }

  /** The rows that the inserts among the events leave in the table. */
  function TableAfter(table: seq<Record>, events: seq<Event>): seq<Record>
    decreases |events|
  {
    if events == [] then table
    else TableAfter(if events[0].Insert? then table + [events[0].row] else table, events[1..])
  }

  /** What the sessions of the rounds meet. */
  function RoundsOf(table: seq<Record>, passes: seq<seq<Event>>): seq<Round>
    decreases |passes|
  {
    if passes == [] then []
    else [Elapsed(Answers(table, passes[0]))] + RoundsOf(TableAfter(table, passes[0]), passes[1..])
  }

  lemma {:induction false} RunConcat(s: State, a: seq<Event>, b: seq<Event>, size: nat)
    requires Run(s, a + b, size).Some?
    ensures Run(s, a, size).Some? && Run(s, a + b, size) == Run(Run(s, a, size).value, b, size)
    decreases |a|
  {
    if a == [] {
      assert a + b == b;
    } else {
      assert (a + b)[1..] == a[1..] + b;
      RunConcat(Step(s, a[0], size), a[1..], b, size);
    }
  }

  lemma {:induction false} RunLeavesTable(s: State, events: seq<Event>, size: nat)
    requires Run(s, events, size).Some?
    ensures Run(s, events, size).value.table == TableAfter(s.table, events)
    decreases |events|
  {
    if events == [] {
    } else {
      RunLeavesTable(Step(s, events[0], size), events[1..], size);
    }
  }

  /** For all rounds, whatever fails in them: the cache that the loop leaves is the one that the machine
      reaches by one pass after the other. A pass that raises ends its round and nothing else. */
  lemma {:induction false} LoopIsRun(s: State, passes: seq<seq<Event>>, size: nat)
    requires s.phase.Idle? && (forall k :: 0 <= k < |passes| ==> DuringLoad(passes[k]))
    requires Run(s, Schedule(passes), size).Some?
    ensures SyncRounds(s.cache, RoundsOf(s.table, passes), size) == Run(s, Schedule(passes), size).value.cache
    decreases |passes|
  {
    if passes == [] {
    } else {
      var begun := Step(s, BeginPass, size);
      var rest := passes[0] + Schedule(passes[1..]);
      assert Schedule(passes) == [BeginPass] + rest;
      assert Schedule(passes)[1..] == rest;
      RunConcat(begun, passes[0], Schedule(passes[1..]), size);
      LoadsAreRuns(s, passes[0], size);
      RunLeavesTable(begun, passes[0], size);
      var t := Run(begun, passes[0], size).value;
      var rounds := RoundsOf(s.table, passes);
      assert rounds[1..] == RoundsOf(t.table, passes[1..]);
      assert SyncRounds(s.cache, rounds, size) == SyncRounds(t.cache, rounds[1..], size);
      if |passes| > 1 {
        assert Schedule(passes[1..])[0] == BeginPass;
        LoopIsRun(t, passes[1..], size);
      }
    }
  }

  /** The stop event ends the loop: what would come behind it changes nothing. */
  lemma {:induction false} StopEndsLoop(c: Contents, before: seq<Round>, after: seq<Round>, size: nat)
    ensures SyncRounds(c, before + [Stopped] + after, size) == SyncRounds(c, before, size)
    decreases |before|
  {
    var rounds := before + [Stopped] + after;
    if before == [] {
      assert rounds[0] == Stopped;
    } else if before[0].Elapsed? {
      assert rounds[0] == before[0] && rounds[1..] == before[1..] + [Stopped] + after;
      StopEndsLoop(Incremental(c, before[0].answers, 0, size).contents, before[1..], after, size);
    }
  }

  // ---------- Rounds that complete and rounds that raise, over a growing table ----------

  /** A round finds `rows` rows, and `good` of its queries are answered before its session fails. */
  datatype Visit = Visit(rows: nat, good: nat)

  /** The first `good` queries of a session are answered from these rows, and the next one fails. */
  predicate Finds(answers: seq<Answer>, rows: seq<Record>, good: nat) {
    && good <= |answers|
    && (forall i :: 0 <= i < good ==> answers[i] == Serving(rows))
    && (good == |answers| || answers[good].Down?)
  }

  predicate Visited(rounds: seq<Round>, table: seq<Record>, visits: seq<Visit>) {
    && |rounds| == |visits|
    && forall k :: 0 <= k < |rounds| ==>
         && rounds[k].Elapsed? && visits[k].rows <= |table|
         && Finds(rounds[k].answers, table[..visits[k].rows], visits[k].good)
  }

  /** Each round finds at least the n rows that were there before. */
  predicate Grows(n: nat, visits: seq<Visit>)
    decreases |visits|
  {
    visits == [] || (n <= visits[0].rows && Grows(visits[0].rows, visits[1..]))
  }

  /** The rows of `good` full batches. */
  function Span(good: nat, size: nat): nat {
    if good == 0 then 0 else size + Span(good - 1, size)
  }

  lemma {:induction false} SpanIsProduct(good: nat, size: nat)
    ensures Span(good, size) == good * size
  {
    if good == 0 {
    } else {
      SpanIsProduct(good - 1, size);
      assert good * size == size + (good - 1) * size;
    }
  }

  /** The number of rows that are loaded behind a visit: a full batch for each good query. */
  function Reach(n: nat, v: Visit, size: nat): nat {
    Min(n + Span(v.good, size), v.rows)
  }

  function ReachAll(n: nat, visits: seq<Visit>, size: nat): nat
    decreases |visits|
  {
    if visits == [] then n else ReachAll(Reach(n, visits[0], size), visits[1..], size)
  }

  /** Wherever a round goes on loading, the next row is later than those that are loaded. */
  predicate CleanAll(table: seq<Record>, n: nat, visits: seq<Visit>, size: nat)
    requires IsTable(table) && n <= |table|
    requires forall k :: 0 <= k < |visits| ==> visits[k].rows <= |table|
    decreases |visits|
  {
    visits == []
    || ((n < visits[0].rows && visits[0].good > 0 ==> SplitsCleanly(table, n))
        && CleanAll(table, Reach(n, visits[0], size), visits[1..], size))
  }

  /** The rows of the next k batches. */
  function Stretch(rows: seq<Record>, offset: nat, k: nat, size: nat): seq<Record> {
    rows[Min(offset, |rows|)..Min(offset + Span(k, size), |rows|)]
  }

  lemma {:induction false} StretchNext(c: Contents, rows: seq<Record>, offset: nat, k: nat, size: nat)
    requires k > 0
    ensures AddAll(AddAll(c, Slice(rows, size, offset)), Stretch(rows, offset + size, k - 1, size))
         == AddAll(c, Stretch(rows, offset, k, size))
  {
    var a, b := Slice(rows, size, offset), Stretch(rows, offset + size, k - 1, size);
    AddAllConcat(c, a, b);
    assert a + b == Stretch(rows, offset, k, size);
  }

  lemma {:induction false} StretchEnds(rows: seq<Record>, offset: nat, k: nat, size: nat)
    requires k == 0 || (size > 0 && Slice(rows, size, offset) == [])
    ensures Stretch(rows, offset, k, size) == []
  {
  }

  /** The paging loop over rows that do not change, up to a failure: each query applies its batch. */
  lemma {:induction false} PageUntilFailure(c: Contents, answers: seq<Answer>, rows: seq<Record>, since: Option<Time>,
                                            size: nat, good: nat, asked: nat, offset: nat, loaded: nat,
                                            newer: seq<Record>)
    requires size > 0 && asked <= good && Finds(answers, rows, good) && newer == Newer(rows, since)
    ensures Page(c, answers, asked, since, size, offset, loaded).contents
         == AddAll(c, Stretch(newer, offset, good - asked, size))
    decreases good - asked, 1
  {
    if good == asked || Slice(newer, size, offset) == [] {
      StretchEnds(newer, offset, good - asked, size);
      PageEnds(c, answers, rows, since, size, good, asked, offset, loaded);
    } else {
      PageGoesOn(c, answers, rows, since, size, good, asked, offset, loaded, newer);
      StretchNext(c, newer, offset, good - asked, size);
    }
  }

  lemma {:induction false} PageGoesOn(c: Contents, answers: seq<Answer>, rows: seq<Record>, since: Option<Time>,
                                      size: nat, good: nat, asked: nat, offset: nat, loaded: nat,
                                      newer: seq<Record>)
    requires size > 0 && asked < good && Finds(answers, rows, good) && newer == Newer(rows, since)
    requires Slice(newer, size, offset) != []
    ensures Page(c, answers, asked, since, size, offset, loaded).contents
         == AddAll(AddAll(c, Slice(newer, size, offset)), Stretch(newer, offset + size, good - asked - 1, size))
    decreases good - asked, 0
  {
    var records := Slice(newer, size, offset);
    var next := AddAll(c, records);
    var rest := Stretch(newer, offset + size, good - (asked + 1), size);
    var done := Page(next, answers, asked + 1, since, size, offset + size, loaded + |records|).contents;
    assert done == AddAll(next, rest) by {
      PageUntilFailure(next, answers, rows, since, size, good, asked + 1, offset + size, loaded + |records|, newer);
    }
    assert Page(c, answers, asked, since, size, offset, loaded).contents == done by {
      PageStep(c, answers, rows, since, size, asked, offset, loaded);
    }
  }

  lemma {:induction false} PageEnds(c: Contents, answers: seq<Answer>, rows: seq<Record>, since: Option<Time>,
                                    size: nat, good: nat, asked: nat, offset: nat, loaded: nat)
    requires asked <= good && Finds(answers, rows, good)
    requires asked == good || Slice(Newer(rows, since), size, offset) == []
    ensures Page(c, answers, asked, since, size, offset, loaded).contents == c
  {
    if asked < good { assert answers[asked] == Serving(rows); }
  }

  lemma {:induction false} PageStep(c: Contents, answers: seq<Answer>, rows: seq<Record>, since: Option<Time>,
                                    size: nat, asked: nat, offset: nat, loaded: nat)
    requires asked < |answers| && answers[asked] == Serving(rows) && Slice(Newer(rows, since), size, offset) != []
    ensures var records := Slice(Newer(rows, since), size, offset);
            Page(c, answers, asked, since, size, offset, loaded)
            == Page(AddAll(c, records), answers, asked + 1, since, size, offset + size, loaded + |records|)
  {
  }

  /** What a pass applies: the rows behind the filter, as far as its session goes. */
  function Applied(rows: seq<Record>, since: Option<Time>, good: nat, size: nat): nat {
    Min(Cut(rows, since) + Span(good, size), |rows|) - Cut(rows, since)
  }

  lemma {:induction false} PassApplies(c: Contents, rows: seq<Record>, answers: seq<Answer>, good: nat, size: nat)
    requires IsTable(rows) && size > 0 && c.lastSyncedAt.Some? && Finds(answers, rows, good)
    ensures var cut, n := Cut(rows, c.lastSyncedAt), Applied(rows, c.lastSyncedAt, good, size);
            && cut + n <= |rows|
            && Incremental(c, answers, 0, size).contents == AddFirst(c, rows[cut..cut + n], n)
  {
    var cut, n := Cut(rows, c.lastSyncedAt), Applied(rows, c.lastSyncedAt, good, size);
    PassIsStretch(c, rows, answers, good, size);
    assert Stretch(rows[cut..], 0, good, size) == rows[cut..cut + n] by { SuffixStretch(rows, cut, good, size); }
    assert |rows[cut..cut + n]| == n;
  }

  lemma {:induction false} PassIsStretch(c: Contents, rows: seq<Record>, answers: seq<Answer>, good: nat, size: nat)
    requires IsTable(rows) && size > 0 && c.lastSyncedAt.Some? && Finds(answers, rows, good)
    ensures Incremental(c, answers, 0, size).contents
         == AddAll(c, Stretch(rows[Cut(rows, c.lastSyncedAt)..], 0, good, size))
  {
    var since := c.lastSyncedAt;
    NewerIsSuffix(rows, since);
    PageUntilFailure(c, answers, rows, since, size, good, 0, 0, 0, Newer(rows, since));
  }

  lemma {:induction false} SuffixStretch(rows: seq<Record>, cut: nat, k: nat, size: nat)
    requires cut <= |rows|
    ensures Stretch(rows[cut..], 0, k, size) == rows[cut..Min(cut + Span(k, size), |rows|)]
  {
  }

  /** A row that is absent and not later than the watermark stays so. */
  lemma {:induction false} PassLeavesBehind(c: Contents, rows: seq<Record>, k: nat, answers: seq<Answer>, good: nat,
                                            size: nat)
    requires IsTable(rows) && size > 0 && Finds(answers, rows, good) && k < |rows|
    requires rows[k].token !in c.tokenToValue
    requires c.lastSyncedAt.Some? && c.lastSyncedAt.value >= rows[k].createdAt.value
    ensures var done := Incremental(c, answers, 0, size).contents;
            && rows[k].token !in done.tokenToValue
            && done.lastSyncedAt.Some? && done.lastSyncedAt.value >= rows[k].createdAt.value
  {
    PassApplies(c, rows, answers, good, size);
    var cut, n := Cut(rows, c.lastSyncedAt), Applied(rows, c.lastSyncedAt, good, size);
    assert k < cut by { NewerIsSuffix(rows, c.lastSyncedAt); }
    FetchLeavesBehind(c, rows, k, cut, n);
  }

  lemma {:induction false} TableFront(table: seq<Record>, n: nat)
    requires IsTable(table) && n <= |table|
    ensures IsTable(table[..n])
  {
  }

  lemma {:induction false} RoundsLeaveBehind(c: Contents, rounds: seq<Round>, table: seq<Record>, visits: seq<Visit>,
                                             k: nat, n: nat, size: nat)
    requires IsTable(table) && size > 0 && Visited(rounds, table, visits) && Grows(n, visits) && k < n <= |table|
    requires table[k].token !in c.tokenToValue
    requires c.lastSyncedAt.Some? && c.lastSyncedAt.value >= table[k].createdAt.value
    ensures table[k].token !in SyncRounds(c, rounds, size).tokenToValue
    decreases |rounds|
  {
    if rounds == [] {
    } else {
      var v := visits[0];
      TableFront(table, v.rows);
      PassLeavesBehind(c, table[..v.rows], k, rounds[0].answers, v.good, size);
      RoundsLeaveBehind(Incremental(c, rounds[0].answers, 0, size).contents, rounds[1..], table, visits[1..],
                        k, v.rows, size);
    }
  }

  /** Rows are there to load, a query is answered, and the next row is not later than those loaded. */
  predicate SplitsGroup(rows: seq<Record>, n: nat, good: nat)
    requires IsTable(rows) && n <= |rows|
  {
    n < |rows| && good > 0 && !SplitsCleanly(rows, n)
  }

  lemma {:induction false} CleanPassExtends(rows: seq<Record>, n: nat, answers: seq<Answer>, good: nat, size: nat)
    requires IsTable(rows) && size > 0 && Finds(answers, rows, good) && 0 < n <= |rows| && !SplitsGroup(rows, n, good)
    ensures var m := Min(n + Span(good, size), |rows|);
            Incremental(Build(rows[..n]), answers, 0, size).contents == Build(rows[..m])
  {
    var c := Build(rows[..n]);
    PrefixWatermark(rows, n);
    PassApplies(c, rows, answers, good, size);
    var cut, k := Cut(rows, c.lastSyncedAt), Applied(rows, c.lastSyncedAt, good, size);
    var done := Incremental(c, answers, 0, size).contents;
    assert done == AddFirst(c, rows[cut..cut + k], k);
    if good == 0 {
      assert k == 0 && Span(0, size) == 0;
    } else {
      assert cut == n && n + k == Min(n + Span(good, size), |rows|);
      assert done == Build(rows[..n + k]) by { PrefixExtends(rows, n, k); }
    }
  }

  lemma {:induction false} PrefixExtends(rows: seq<Record>, n: nat, k: nat)
    requires n + k <= |rows|
    ensures AddFirst(Build(rows[..n]), rows[n..n + k], k) == Build(rows[..n + k])
  {
    AddAllConcat(EMPTY, rows[..n], rows[n..n + k]);
    assert rows[..n] + rows[n..n + k] == rows[..n + k];
  }

  lemma {:induction false} SplitPassLoses(rows: seq<Record>, n: nat, answers: seq<Answer>, good: nat, size: nat)
    requires IsTable(rows) && size > 0 && Finds(answers, rows, good) && 0 < n <= |rows| && SplitsGroup(rows, n, good)
    ensures var done := Incremental(Build(rows[..n]), answers, 0, size).contents;
            && rows[n].token !in done.tokenToValue
            && done.lastSyncedAt.Some? && done.lastSyncedAt.value >= rows[n].createdAt.value
  {
    PrefixWatermark(rows, n);
    PrefixLacks(rows, n, n);
    PassLeavesBehind(Build(rows[..n]), rows, n, answers, good, size);
  }

  /** One pass over a loaded prefix of n rows extends it by a batch for each good query, unless it goes on
      inside a group of equal times: then row n is lost. */
  lemma {:induction false} PassExtends(table: seq<Record>, n: nat, answers: seq<Answer>, v: Visit, size: nat)
    requires IsTable(table) && size > 0 && v.rows <= |table| && 0 < n <= v.rows
    requires Finds(answers, table[..v.rows], v.good)
    ensures n <= Reach(n, v, size) <= v.rows
    ensures var done := Incremental(Build(table[..n]), answers, 0, size).contents;
            if n < v.rows && v.good > 0 && !SplitsCleanly(table, n) then
              && n < Reach(n, v, size)
              && table[n].token !in done.tokenToValue
              && done.lastSyncedAt.Some? && done.lastSyncedAt.value >= table[n].createdAt.value
            else done == Build(table[..Reach(n, v, size)])
  {
    var rows := table[..v.rows];
    TableFront(table, v.rows);
    assert rows[..n] == table[..n] && rows[..Reach(n, v, size)] == table[..Reach(n, v, size)];
    if SplitsGroup(rows, n, v.good) {
      SplitPassLoses(rows, n, answers, v.good, size);
    } else {
      CleanPassExtends(rows, n, answers, v.good, size);
    }
  }

  lemma {:induction false} ReachGrows(table: seq<Record>, n: nat, visits: seq<Visit>, size: nat)
    requires Grows(n, visits) && n <= |table| && forall k :: 0 <= k < |visits| ==> visits[k].rows <= |table|
    ensures n <= ReachAll(n, visits, size) <= |table|
    decreases |visits|
  {
    if visits == [] {
    } else {
      GrowsFromLess(Reach(n, visits[0], size), visits[0].rows, visits[1..]);
      ReachGrows(table, Reach(n, visits[0], size), visits[1..], size);
    }
  }

  lemma {:induction false} GrowsFromLess(m: nat, n: nat, visits: seq<Visit>)
    requires m <= n && Grows(n, visits)
    ensures Grows(m, visits)
  {
  }

  lemma {:induction false} RoundsReach(table: seq<Record>, n: nat, visits: seq<Visit>, rounds: seq<Round>, size: nat)
    requires IsTable(table) && size > 0 && 0 < n <= |table| && Grows(n, visits) && Visited(rounds, table, visits)
    ensures var done := SyncRounds(Build(table[..n]), rounds, size);
            var m := ReachAll(n, visits, size);
            && n <= m <= |table|
            && (CleanAll(table, n, visits, size) ==> done == Build(table[..m]))
            && (!CleanAll(table, n, visits, size) ==> exists k :: 0 <= k < m && table[k].token !in done.tokenToValue)
    decreases |visits|
  {
    ReachGrows(table, n, visits, size);
    if visits == [] {
    } else {
      var v, rest := visits[0], visits[1..];
      var m := Reach(n, v, size);
      var c := Incremental(Build(table[..n]), rounds[0].answers, 0, size).contents;
      PassExtends(table, n, rounds[0].answers, v, size);
      GrowsFromLess(m, v.rows, rest);
      assert SyncRounds(Build(table[..n]), rounds, size) == SyncRounds(c, rounds[1..], size);
      if n < v.rows && v.good > 0 && !SplitsCleanly(table, n) {
        RoundsLeaveBehind(c, rounds[1..], table, rest, n, v.rows, size);
        ReachGrows(table, m, rest, size);
      } else {
        RoundsReach(table, m, rest, rounds[1..], size);
      }
    }
  }

  lemma {:induction false} ShorterPrefixDiffers(table: seq<Record>, m: nat, n: nat)
    requires IsTable(table) && m < n <= |table|
    ensures Build(table[..m]) != Build(table[..n])
  {
    PrefixLacks(table, m, m);
    BuildKeys(table[..n]);
    assert table[..n][m] == table[m];
    assert table[m].token in Build(table[..n]).tokenToValue.Keys;
  }

  lemma {:induction false} MissingTokenDiffers(c: Contents, table: seq<Record>, k: nat, m: nat)
    requires k < m <= |table| && table[k].token !in c.tokenToValue
    ensures c != Build(table[..m])
  {
    BuildKeys(table[..m]);
    assert table[..m][k] == table[k];
    assert table[k].token in Build(table[..m]).tokenToValue.Keys;
  }

  /** From a startup snapshot of the first n rows, after any number of inserts and rounds, each of which
      completes or raises at some query: the cache holds exactly the rows that full batches reach, in the
      fresh build, exactly when no round goes on loading inside a group of equal times; and it is the fresh
      snapshot of the table exactly when besides they reach all rows. */
  lemma {:induction false} RoundsRefineSnapshot(table: seq<Record>, n: nat, visits: seq<Visit>, rounds: seq<Round>,
                                                size: nat)
    requires IsTable(table) && size > 0 && 0 < n <= |table| && Grows(n, visits) && Visited(rounds, table, visits)
    ensures ReachAll(n, visits, size) <= |table|
    ensures SyncRounds(Build(table[..n]), rounds, size) == Build(table[..ReachAll(n, visits, size)])
       <==> CleanAll(table, n, visits, size)
    ensures SyncRounds(Build(table[..n]), rounds, size) == Build(table)
       <==> CleanAll(table, n, visits, size) && ReachAll(n, visits, size) == |table|
  {
    RoundsReach(table, n, visits, rounds, size);
    var done, m := SyncRounds(Build(table[..n]), rounds, size), ReachAll(n, visits, size);
    assert table[..|table|] == table;
    if CleanAll(table, n, visits, size) {
      if m < |table| { ShorterPrefixDiffers(table, m, |table|); }
    } else {
      var k :| 0 <= k < m && table[k].token !in done.tokenToValue;
      MissingTokenDiffers(done, table, k, m);
      MissingTokenDiffers(done, table, k, |table|);
    }
  }

  /** A round that is answered until it finds nothing more reaches all rows that are there. */
  lemma {:induction false} CompletedRoundReachesAll(n: nat, v: Visit, size: nat)
    requires size > 0 && n <= v.rows && v.good > PagesOf(v.rows, size)
    ensures Reach(n, v, size) == v.rows
  {
    PagesOfIsCeiling(v.rows, size);
    MoreQueries(PagesOf(v.rows, size), v.good, size);
    SpanIsProduct(v.good, size);
  }

  lemma {:induction false} MoreQueries(a: nat, b: nat, size: nat)
    requires a <= b
    ensures a * size <= b * size
  {
  }
}

/** The in-memory PII cache (app/services/account_map_in_memory.py): two hash maps and a
    watermark that are updated together, and what they hold after any history of calls. */
module AccountMap {
  import opened Wrappers

  type Time = int

  datatype Record = Record(token: string, value: string, createdAt: Option<Time>)

  /** The three fields of the cache object as one value. */
  datatype Contents = Contents(
    tokenToValue: map<string, string>,
    valueToToken: map<string, string>,
    lastSyncedAt: Option<Time>)

  const EMPTY := Contents(map[], map[], None)

  function Advance(watermark: Option<Time>, createdAt: Option<Time>): Option<Time> {
    if createdAt.Some? && (watermark.None? || createdAt.value > watermark.value)
    then createdAt else watermark
  }

  function Add(c: Contents, r: Record): Contents {
    Contents(c.tokenToValue[r.token := r.value],
             c.valueToToken[r.value := r.token],
             Advance(c.lastSyncedAt, r.createdAt))
  }

  /** The first n records added in order. */
  function AddFirst(c: Contents, rs: seq<Record>, n: nat): Contents
    requires n <= |rs|
  {
    if n == 0 then c else Add(AddFirst(c, rs, n - 1), rs[n - 1])
  }

  function AddAll(c: Contents, rs: seq<Record>): Contents {
    AddFirst(c, rs, |rs|)
  }

  /** What a cleared cache holds once the records have been added in order. */
  function Build(rs: seq<Record>): Contents {
    AddAll(EMPTY, rs)
  }

  class AccountMapInMemory {
    var tokenToValue: map<string, string>
    var valueToToken: map<string, string>
    var lastSyncedAt: Option<Time>

    ghost function View(): Contents
      reads this
    {
      Contents(tokenToValue, valueToToken, lastSyncedAt)
    }

    constructor ()
      ensures View() == EMPTY
    {
      tokenToValue, valueToToken, lastSyncedAt := map[], map[], None;
    }

    method UpdateLastSyncedAt(time: Time)
      modifies this`lastSyncedAt
      ensures View() == old(View()).(lastSyncedAt := Advance(old(lastSyncedAt), Some(time)))
    {
      if lastSyncedAt.None? || time > lastSyncedAt.value {
        lastSyncedAt := Some(time);
      }
    }

    method AddRecord(record: Record)
      modifies this
      ensures View() == Add(old(View()), record)
    {
      tokenToValue := tokenToValue[record.token := record.value];
      valueToToken := valueToToken[record.value := record.token];
      if record.createdAt.Some? {
        UpdateLastSyncedAt(record.createdAt.value);
      }
    }

    method AddRecords(records: seq<Record>)
      modifies this
      ensures View() == AddAll(old(View()), records)
    {
      for i := 0 to |records|
        invariant View() == AddFirst(old(View()), records, i)
      {
        AddRecord(records[i]);
      }
    }

    method Clear()
      modifies this
      ensures View() == EMPTY
    {
      tokenToValue, valueToToken, lastSyncedAt := map[], map[], None;
    }

    function Size(): nat
      reads this
    {
      |tokenToValue|
    }
  }

  /** Only the first n records matter to AddFirst. */
  lemma {:induction false} AddFirstAgrees(c: Contents, a: seq<Record>, b: seq<Record>, n: nat)
    requires n <= |a| && n <= |b| && a[..n] == b[..n]
    ensures AddFirst(c, a, n) == AddFirst(c, b, n)
  {
    if n == 0 {
    } else {
      assert a[n - 1] == a[..n][n - 1] == b[..n][n - 1] == b[n - 1];
      assert a[..n - 1] == a[..n][..n - 1] == b[..n][..n - 1] == b[..n - 1];
      AddFirstAgrees(c, a, b, n - 1);
    }
  }

  /** Adding records in two steps is adding their concatenation. */
  lemma {:induction false} AddAllConcat(c: Contents, a: seq<Record>, b: seq<Record>)
    ensures AddAll(c, a + b) == AddAll(AddAll(c, a), b)
  {
    AddConcatUpTo(c, a, b, |b|);
  }

  lemma {:induction false} AddConcatUpTo(c: Contents, a: seq<Record>, b: seq<Record>, n: nat)
    requires n <= |b|
    ensures AddFirst(c, a + b, |a| + n) == AddFirst(AddAll(c, a), b, n)
  {
    if n == 0 {
      AddFirstAgrees(c, a + b, a, |a|);
    } else {
      AddConcatUpTo(c, a, b, n - 1);
    }
  }

  lemma {:induction false} AddAllSnoc(c: Contents, rs: seq<Record>, r: Record)
    ensures AddAll(c, rs + [r]) == Add(AddAll(c, rs), r)
  {
    AddFirstAgrees(c, rs + [r], rs, |rs|);
  }

  /** Splits off the last record of a build. */
  lemma {:induction false} BuildLast(rs: seq<Record>)
    requires rs != []
    ensures rs == rs[..|rs| - 1] + [rs[|rs| - 1]]
    ensures Build(rs) == Add(Build(rs[..|rs| - 1]), rs[|rs| - 1])
  {
    AddAllSnoc(EMPTY, rs[..|rs| - 1], rs[|rs| - 1]);
    assert rs == rs[..|rs| - 1] + [rs[|rs| - 1]];
  }

  // ---------- Histories of calls ----------

  datatype Call = AddRecordCall(record: Record) | AddRecordsCall(records: seq<Record>) | ClearCall

  /** The cache after a history of calls on a fresh object. */
  function Replay(calls: seq<Call>): Contents {
    if calls == [] then EMPTY
    else
      var before := Replay(calls[..|calls| - 1]);
      match calls[|calls| - 1]
      case AddRecordCall(r) => Add(before, r)
      case AddRecordsCall(rs) => AddAll(before, rs)
      case ClearCall => EMPTY
  }

  /** The records added since the last clear, in call order. */
  function SinceClear(calls: seq<Call>): seq<Record> {
    if calls == [] then []
    else
      var before := SinceClear(calls[..|calls| - 1]);
      match calls[|calls| - 1]
      case AddRecordCall(r) => before + [r]
      case AddRecordsCall(rs) => before + rs
      case ClearCall => []
  }

  /** Every history is equivalent to one bulk load of the records added since the last clear. */
  lemma {:induction false} ReplayIsBuild(calls: seq<Call>)
    ensures Replay(calls) == Build(SinceClear(calls))
  {
    if calls == [] {
    } else {
      var init := calls[..|calls| - 1];
      ReplayIsBuild(init);
      match calls[|calls| - 1] {
        case AddRecordCall(r) =>
          AddAllSnoc(EMPTY, SinceClear(init), r);
        case AddRecordsCall(rs) => AddAllConcat(EMPTY, SinceClear(init), rs);
        case ClearCall =>
      }
    }
  }

  /** Row i is the last one to write its token. */
  predicate LastForToken(rs: seq<Record>, i: nat)
    requires i < |rs|
  {
    forall j :: i < j < |rs| ==> rs[j].token != rs[i].token
  }

  /** Row i is the last one to write its value. */
  predicate LastForValue(rs: seq<Record>, i: nat)
    requires i < |rs|
  {
    forall j :: i < j < |rs| ==> rs[j].value != rs[i].value
  }

  /** The keys of both maps are exactly the tokens and the values that were added. */
  lemma {:induction false} BuildKeys(rs: seq<Record>)
    ensures Build(rs).tokenToValue.Keys == set r | r in rs :: r.token
    ensures Build(rs).valueToToken.Keys == set r | r in rs :: r.value
  {
    if rs == [] {
    } else {
      var init, last := rs[..|rs| - 1], rs[|rs| - 1];
      BuildKeys(init);
      BuildLast(rs);
      assert (set r | r in rs :: r.token) == (set r | r in init :: r.token) + {last.token};
      assert (set r | r in rs :: r.value) == (set r | r in init :: r.value) + {last.value};
    }
  }

  /** Both maps are last-writer-wins: row i decides the entry of its token (of its value)
      when no later row has the same token (the same value). */
  lemma {:induction false} BuildKeepsLastWriters(rs: seq<Record>, i: nat)
    requires i < |rs|
    ensures rs[i].token in Build(rs).tokenToValue && rs[i].value in Build(rs).valueToToken
    ensures LastForToken(rs, i) ==> Build(rs).tokenToValue[rs[i].token] == rs[i].value
    ensures LastForValue(rs, i) ==> Build(rs).valueToToken[rs[i].value] == rs[i].token
  {
    var init, last := rs[..|rs| - 1], rs[|rs| - 1];
    BuildLast(rs);
    if i < |rs| - 1 {
      BuildKeepsLastWriters(init, i);
      assert last == rs[|rs| - 1];
      if LastForToken(rs, i) { assert LastForToken(init, i); }
      if LastForValue(rs, i) { assert LastForValue(init, i); }
    }
  }

  predicate Bounds(rs: seq<Record>, watermark: Option<Time>) {
    && (watermark.None? <==> forall r :: r in rs ==> r.createdAt.None?)
    && (watermark.Some? ==> watermark in set r | r in rs :: r.createdAt)
    && (forall r :: r in rs && r.createdAt.Some? ==>
          watermark.Some? && r.createdAt.value <= watermark.value)
  }

  /** The watermark is the maximum created_at, or None when no record carries one. */
  lemma {:induction false} WatermarkIsMaximum(rs: seq<Record>)
    ensures Bounds(rs, Build(rs).lastSyncedAt)
  {
    if rs == [] {
    } else {
      var init, last := rs[..|rs| - 1], rs[|rs| - 1];
      WatermarkIsMaximum(init);
      BuildLast(rs);
      assert (set r | r in rs :: r.createdAt) == (set r | r in init :: r.createdAt) + {last.createdAt};
    }
  }

  /** Over every history: the maps never point outside each other's key sets, the size counts
      the distinct tokens since the last clear, and the watermark is their latest time. */
  lemma {:induction false} HistoryLaws(calls: seq<Call>)
    ensures Replay(calls).tokenToValue.Values <= Replay(calls).valueToToken.Keys
    ensures Replay(calls).valueToToken.Values <= Replay(calls).tokenToValue.Keys
    ensures |Replay(calls).tokenToValue| == |set r | r in SinceClear(calls) :: r.token|
    ensures Bounds(SinceClear(calls), Replay(calls).lastSyncedAt)
  {
    ReplayIsBuild(calls);
    var rs := SinceClear(calls);
    BuildKeys(rs);
    WatermarkIsMaximum(rs);
    CrossKeys(rs);
    assert |Build(rs).tokenToValue| == |Build(rs).tokenToValue.Keys|;
  }

  lemma {:induction false} CrossKeys(rs: seq<Record>)
    ensures Build(rs).tokenToValue.Values <= Build(rs).valueToToken.Keys
    ensures Build(rs).valueToToken.Values <= Build(rs).tokenToValue.Keys
  {
    if rs == [] {
    } else {
      CrossKeys(rs[..|rs| - 1]);
      BuildLast(rs);
    }
  }

  predicate DistinctTokens(rs: seq<Record>) {
    forall i, j :: 0 <= i < j < |rs| ==> rs[i].token != rs[j].token
  }

  predicate DistinctValues(rs: seq<Record>) {
    forall i, j :: 0 <= i < j < |rs| ==> rs[i].value != rs[j].value
  }

  predicate MutualInverses(c: Contents) {
    && (forall t :: t in c.tokenToValue ==>
          c.tokenToValue[t] in c.valueToToken && c.valueToToken[c.tokenToValue[t]] == t)
    && (forall v :: v in c.valueToToken ==>
          c.valueToToken[v] in c.tokenToValue && c.tokenToValue[c.valueToToken[v]] == v)
  }

  /** With unique tokens, going value -> token -> value is always the identity. */
  lemma {:induction false} ReverseThenForward(rs: seq<Record>)
    requires DistinctTokens(rs)
    ensures forall v :: v in Build(rs).valueToToken ==>
              && Build(rs).valueToToken[v] in Build(rs).tokenToValue
              && Build(rs).tokenToValue[Build(rs).valueToToken[v]] == v
  {
    if rs == [] {
    } else {
      var init, last := rs[..|rs| - 1], rs[|rs| - 1];
      ReverseThenForward(init);
      BuildLast(rs);
      BuildKeys(init);
      CrossKeys(init);
      assert forall r :: r in init ==> r.token != last.token;
    }
  }

  /** With unique tokens the two maps are mutual inverses exactly when no value repeats. */
  lemma {:induction false} InversesIffDistinctValues(rs: seq<Record>)
    requires DistinctTokens(rs)
    ensures MutualInverses(Build(rs)) <==> DistinctValues(rs)
  {
    var c := Build(rs);
    ReverseThenForward(rs);
    if DistinctValues(rs) {
      forall t | t in c.tokenToValue
        ensures c.tokenToValue[t] in c.valueToToken && c.valueToToken[c.tokenToValue[t]] == t
      {
        BuildKeys(rs);
        var r :| r in rs && r.token == t;
        var i :| 0 <= i < |rs| && rs[i] == r;
        BuildKeepsLastWriters(rs, i);
      }
    } else {
      var i, j :| 0 <= i < j < |rs| && rs[i].value == rs[j].value;
      BuildKeepsLastWriters(rs, i);
      BuildKeepsLastWriters(rs, j);
    }
  }
}

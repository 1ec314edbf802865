/** The PII mapping table and the query that pages through it
    (app/repositories/sqlalchemy/account_map.py). */
module MappingTable {
  import opened Wrappers
  import opened AccountMap

  /** The rows in the order of the query, (created_at, customer_id). Times never decrease along
      it, created_at is never null and customer_id is the primary key. */
  predicate IsTable(rows: seq<Record>) {
    && (forall i :: 0 <= i < |rows| ==> rows[i].createdAt.Some?)
    && (forall i, j :: 0 <= i < j < |rows| ==> rows[i].createdAt.value <= rows[j].createdAt.value)
    && DistinctTokens(rows)
  }

  /** `WHERE created_at > since`; there is no filter when since is None. */
  predicate IsNewer(r: Record, since: Option<Time>) {
    since.Some? ==> r.createdAt.Some? && r.createdAt.value > since.value
  }

  function NewerAmong(rows: seq<Record>, since: Option<Time>, n: nat): seq<Record>
    requires n <= |rows|
  {
    if n == 0 then []
    else NewerAmong(rows, since, n - 1) + (if IsNewer(rows[n - 1], since) then [rows[n - 1]] else [])
  }

  function Newer(rows: seq<Record>, since: Option<Time>): seq<Record> {
    NewerAmong(rows, since, |rows|)
  }

  /** `LIMIT limit OFFSET offset`. */
  function Slice<T>(rows: seq<T>, limit: nat, offset: nat): seq<T> {
    rows[Min(offset, |rows|)..Min(offset + limit, |rows|)]
  }

  function Min(a: nat, b: nat): nat {
    if a <= b then a else b
  }

  function Batch(rows: seq<Record>, limit: nat, offset: nat, since: Option<Time>): seq<Record> {
    Slice(Newer(rows, since), limit, offset)
  }

  /** The number of leading rows that the filter excludes. */
  function Cut(rows: seq<Record>, since: Option<Time>): nat {
    CutFrom(rows, since, 0)
  }

  function CutFrom(rows: seq<Record>, since: Option<Time>, i: nat): (n: nat)
    requires i <= |rows|
    ensures i <= n <= |rows|
    ensures forall k :: i <= k < n ==> !IsNewer(rows[k], since)
    ensures n < |rows| ==> IsNewer(rows[n], since)
    decreases |rows| - i
  {
    if i == |rows| || IsNewer(rows[i], since) then i else CutFrom(rows, since, i + 1)
  }

  /** On a table the filter keeps exactly a suffix, and it starts at the first newer row. */
  lemma {:induction false} NewerIsSuffix(rows: seq<Record>, since: Option<Time>)
    requires IsTable(rows)
    ensures Newer(rows, since) == rows[Cut(rows, since)..]
    ensures forall i :: 0 <= i < |rows| ==> (IsNewer(rows[i], since) <==> Cut(rows, since) <= i)
  {
    NewerAmongIsSlice(rows, since, |rows|);
  }

  /** A row is newer exactly when it stands at or behind the cut. */
  lemma {:induction false} NewerFromCut(rows: seq<Record>, since: Option<Time>, i: nat)
    requires IsTable(rows) && i < |rows|
    ensures IsNewer(rows[i], since) <==> Cut(rows, since) <= i
  {
  }

  lemma {:induction false} NewerAmongIsSlice(rows: seq<Record>, since: Option<Time>, n: nat)
    requires IsTable(rows) && n <= |rows|
    ensures NewerAmong(rows, since, n) == if n <= Cut(rows, since) then [] else rows[Cut(rows, since)..n]
  {
    if n == 0 {
    } else {
      NewerAmongIsSlice(rows, since, n - 1);
      NewerFromCut(rows, since, n - 1);
      var cut := Cut(rows, since);
      assert cut < n ==> rows[cut..n] == rows[cut..n - 1] + [rows[n - 1]];
    }
  }

  /** What the database answers to one query: it raises, or it serves the committed rows. */
  datatype Answer = Down | Serving(rows: seq<Record>)

  datatype DatabaseError = DatabaseError

  /** One database session. `answers` lists what its queries will meet, in order, and `asked`
      counts them; a session that has run out of answers fails like a lost connection. */
  class MappingSession {
    const answers: seq<Answer>
    var asked: nat

    constructor (answers: seq<Answer>)
      ensures this.answers == answers && asked == 0
    {
      this.answers := answers;
      asked := 0;
    }

    method GetMappingsBatch(limit: nat, offset: nat, since: Option<Time>)
      returns (result: Result<seq<Record>, DatabaseError>)
      modifies this
      ensures asked == if old(asked) < |answers| then old(asked) + 1 else old(asked)
      ensures result == if old(asked) >= |answers| || answers[old(asked)].Down? then Failure(DatabaseError)
                        else Success(Batch(answers[old(asked)].rows, limit, offset, since))
    {
      if asked >= |answers| {
        return Failure(DatabaseError);
      }
      var answer := answers[asked];
      asked := asked + 1;
      if answer.Down? {
        return Failure(DatabaseError);
      }
      var rows := Batch(answer.rows, limit, offset, since);
      var records: seq<Record> := [];
      for i := 0 to |rows|
        invariant records == rows[..i]
      {
        records := records + [rows[i]];
      }
      assert rows[..|rows|] == rows;
      return Success(records);
    }
  }

  // ---------- Lookups in bounded chunks ----------

  function Flatten<T>(chunks: seq<seq<T>>): seq<T> {
    if chunks == [] then [] else Flatten(chunks[..|chunks| - 1]) + chunks[|chunks| - 1]
  }

  /** Chunks of at most `size`, of which only the last may be short and none is empty. */
  predicate Chunked<T>(chunks: seq<seq<T>>, size: nat) {
    && (forall i :: 0 <= i < |chunks| ==> 0 < |chunks[i]| <= size)
    && (forall i :: 0 <= i < |chunks| - 1 ==> |chunks[i]| == size)
  }

  method Batches(values: seq<string>, size: nat) returns (chunks: seq<seq<string>>)
    requires size > 0
    ensures Flatten(chunks) == values
    ensures Chunked(chunks, size)
  {
    chunks := [];
    var batch: seq<string> := [];
    for i := 0 to |values|
      invariant Flatten(chunks) + batch == values[..i]
      invariant forall k :: 0 <= k < |chunks| ==> |chunks[k]| == size
      invariant |batch| < size
    {
      batch := batch + [values[i]];
      if |batch| == size {
        assert (chunks + [batch])[..|chunks|] == chunks;
        chunks := chunks + [batch];
        batch := [];
      }
    }
    assert values[..|values|] == values;
    if batch != [] {
      assert (chunks + [batch])[..|chunks|] == chunks;
      chunks := chunks + [batch];
    }
  }
}

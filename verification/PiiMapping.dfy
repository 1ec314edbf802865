/** Replacing tokens by values in result rows, and finding the tokens of values
    (app/services/query_engine: pii_mapper.py, pii_rules.py, base_service.py). */
module PiiMapping {
  import opened Wrappers
  import opened AccountMap

  /** A cell of a result row; `shown` is str() of a value that is not a string. */
  datatype Cell = Null | Text(s: string) | Other(shown: string)

  function Str(c: Cell): string
    requires !c.Null?
  {
    if c.Text? then c.s else c.shown
  }

  type Cache = map<string, string>

  function Get(cache: Cache, token: string): Option<string> {
    if token in cache then Some(cache[token]) else None
  }

  datatype Transformer = ByTokenLength | WhenExceeds(minLength: int, stripLast: bool)

  /** `token[-1]` of an empty text raises IndexError; only a negative minimum length lets it get there. */
  predicate Crashes(t: Transformer, c: Cell) {
    t.WhenExceeds? && t.stripLast && !c.Null? && Str(c) == "" && t.minLength < 0
  }

  /** The value that replaces a cell, or None when the token is missing or malformed; the value for a
      cell that Crashes plays no role, because the mapping stops there. */
  function Apply(t: Transformer, c: Cell, cache: Cache): Option<string> {
    if c.Null? then None
    else
      var token := Str(c);
      match t
      case ByTokenLength =>
        if |token| == 32 then Get(cache, token)
        else if |token| == 33 then WithSuffix(Get(cache, token[..32]), token[32..])
        else None
      case WhenExceeds(minLength, stripLast) =>
        if |token| <= minLength then None
        else if stripLast && token == "" then None
        else if stripLast then WithSuffix(Get(cache, token[..|token| - 1]), token[|token| - 1..])
        else Get(cache, token)
  }

  function WithSuffix(mapped: Option<string>, suffix: string): Option<string> {
    if mapped.Some? then Some(mapped.value + suffix) else None
  }

  /** The 32/33 rule: exactly the 32-character tokens of the cache are replaced, alone or with one
      more character, which follows the value. */
  lemma {:induction false} TokenLengthRule(c: Cell, cache: Cache, result: string)
    ensures Apply(ByTokenLength, c, cache) == Some(result)
       <==> && !c.Null?
            && exists token ::
                 token in cache && |token| == 32 && IsSuffixed(Str(c), token, cache[token], result)
  {
    if !c.Null? && 32 <= |Str(c)| <= 33 {
      var text := Str(c);
      var token := text[..32];
      assert text == token + text[32..];
      assert |text| == 32 ==> text == token;
      forall other | other in cache && |other| == 32 && IsSuffixed(text, other, cache[other], result)
          ensures other == token {
        assert other == text[..|other|];
      }
      if token in cache {
        assert |text| == 32 ==> cache[token] + text[32..] == cache[token];
        assert IsSuffixed(text, token, cache[token], result) <==> result == cache[token] + text[32..];
      }
    }
  }

  /** `result` is `value` with what `text` has behind `token`, at most one character. */
  predicate IsSuffixed(text: string, token: string, value: string, result: string) {
    token <= text && |text| <= |token| + 1 && result == value + text[|token|..]
  }

  /** The length rule: a longer text is replaced exactly when it is a token of the cache, or, when
      the last character is set aside, a token and that character, which follows the value. */
  lemma {:induction false} ExceedsRule(minLength: int, stripLast: bool, c: Cell, cache: Cache, result: string)
    ensures Apply(WhenExceeds(minLength, stripLast), c, cache) == Some(result)
       <==> && !c.Null? && |Str(c)| > minLength
            && exists token ::
                 && token in cache && |Str(c)| == |token| + (if stripLast then 1 else 0)
                 && IsSuffixed(Str(c), token, cache[token], result)
  {
    if !c.Null? && |Str(c)| > minLength && !(stripLast && Str(c) == "") {
      var text := Str(c);
      var n := if stripLast then |text| - 1 else |text|;
      assert text[..n] == if stripLast then text[..|text| - 1] else text;
      OnlyPrefixFits(cache, text, n, result);
    }
  }

  /** The only token of length n that a text can be made of is its prefix. */
  lemma {:induction false} OnlyPrefixFits(cache: Cache, text: string, n: nat, result: string)
    requires n <= |text| <= n + 1
    ensures (exists token :: token in cache && |token| == n && IsSuffixed(text, token, cache[token], result))
       <==> text[..n] in cache && result == cache[text[..n]] + text[n..]
    ensures text[..n] in cache && n == |text| ==> cache[text[..n]] + text[n..] == cache[text[..n]]
  {
    var prefix := text[..n];
    assert text == prefix + text[n..];
    forall token | token in cache && |token| == n && IsSuffixed(text, token, cache[token], result)
      ensures token == prefix
    {
      assert token == text[..|token|];
    }
    if prefix in cache && result == cache[prefix] + text[n..] {
      assert IsSuffixed(text, prefix, cache[prefix], result);
    }
  }

  /** Column rules in the order of the dict. */
  type Rules = seq<(string, Transformer)>

  predicate DistinctColumns(rules: Rules) {
    forall i, j :: 0 <= i < j < |rules| ==> rules[i].0 != rules[j].0
  }

  type Cells = map<string, Cell>

  datatype Missing = Missing(column: string, value: Cell)

  // ---------- What mapping does to one row ----------

  predicate Ruled(rules: Rules, n: nat, column: string)
    requires n <= |rules|
  {
    exists i :: 0 <= i < n && rules[i].0 == column
  }

  /** Whether rule i has a value to look at in this row. */
  predicate Touches(cells: Cells, rules: Rules, i: nat)
    requires i < |rules|
  {
    rules[i].0 in cells && !cells[rules[i].0].Null?
  }

  function Replacement(cells: Cells, rules: Rules, i: nat, cache: Cache): Cell
    requires i < |rules| && Touches(cells, rules, i)
  {
    match Apply(rules[i].1, cells[rules[i].0], cache)
    case Some(v) => Text(v)
    case None => Null
  }

  /** `after` is the row with its first n rules applied: a ruled non-null cell holds the text that its
      transformer yields, or null when it yields none; every other cell and all keys are as before. */
  predicate IsMapped(before: Cells, after: Cells, rules: Rules, n: nat, cache: Cache)
    requires n <= |rules|
  {
    && after.Keys == before.Keys
    && (forall i :: 0 <= i < n && Touches(before, rules, i) ==>
          match Apply(rules[i].1, before[rules[i].0], cache)
          case Some(v) => after[rules[i].0] == Text(v)
          case None => after[rules[i].0] == Null)
    && (forall c :: c in before && (before[c].Null? || !Ruled(rules, n, c)) ==> after[c] == before[c])
  }

  /** The rule finds a value that it has no mapping for. */
  predicate Unmapped(cells: Cells, rules: Rules, i: nat, cache: Cache) {
    i < |rules| && Touches(cells, rules, i) && Apply(rules[i].1, cells[rules[i].0], cache).None?
  }

  /** The original values that the first n rules could not map, in rule order. */
  function RowMisses(cells: Cells, rules: Rules, n: nat, cache: Cache): seq<Missing>
    requires n <= |rules|
  {
    if n == 0 then []
    else
      RowMisses(cells, rules, n - 1, cache)
      + (if Touches(cells, rules, n - 1) && Apply(rules[n - 1].1, cells[rules[n - 1].0], cache).None?
         then [Missing(rules[n - 1].0, cells[rules[n - 1].0])] else [])
  }

  function MapRow(cells: Cells, rules: Rules, n: nat, cache: Cache): Cells
    requires n <= |rules|
  {
    if n == 0 then cells
    else
      var before := MapRow(cells, rules, n - 1, cache);
      if Touches(cells, rules, n - 1)
      then before[rules[n - 1].0 := Replacement(cells, rules, n - 1, cache)] else before
  }

  lemma {:induction false} MapRowIsMapped(cells: Cells, rules: Rules, n: nat, cache: Cache)
    requires n <= |rules| && DistinctColumns(rules)
    ensures IsMapped(cells, MapRow(cells, rules, n, cache), rules, n, cache)
  {
    if n == 0 {
    } else {
      MapRowIsMapped(cells, rules, n - 1, cache);
      var column, after := rules[n - 1].0, MapRow(cells, rules, n, cache);
      assert Ruled(rules, n, column);
      forall i | 0 <= i < n && Touches(cells, rules, i)
        ensures match Apply(rules[i].1, cells[rules[i].0], cache)
                case Some(v) => after[rules[i].0] == Text(v)
                case None => after[rules[i].0] == Null
      {
        if i < n - 1 { assert rules[i].0 != column; }
      }
      forall c | c in cells && (cells[c].Null? || !Ruled(rules, n, c)) ensures after[c] == cells[c] {
        assert !Ruled(rules, n, c) ==> !Ruled(rules, n - 1, c) && c != column;
      }
    }
  }

  // ---------- All rows ----------

  /** The misses of the first n rows, row by row. */
  function MissesOf(rows: seq<Cells>, rules: Rules, cache: Cache, n: nat): seq<Missing>
    requires n <= |rows|
  {
    if n == 0 then [] else MissesOf(rows, rules, cache, n - 1) + RowMisses(rows[n - 1], rules, |rules|, cache)
  }

  function Misses(rows: seq<Cells>, rules: Rules, cache: Cache): seq<Missing> {
    MissesOf(rows, rules, cache, |rows|)
  }

  function MapRows(rows: seq<Cells>, rules: Rules, cache: Cache): (mapped: seq<Cells>)
    ensures |mapped| == |rows|
    ensures forall i :: 0 <= i < |rows| ==> mapped[i] == MapRow(rows[i], rules, |rules|, cache)
  {
    seq(|rows|, i requires 0 <= i < |rows| => MapRow(rows[i], rules, |rules|, cache))
  }

  class Row {
    var cells: Cells

    constructor (cells: Cells)
      ensures this.cells == cells
    {
      this.cells := cells;
    }
  }

  ghost function CellsOf(rows: seq<Row>): (all: seq<Cells>)
    reads rows
    ensures |all| == |rows| && forall i :: 0 <= i < |rows| ==> all[i] == rows[i].cells
  {
    seq(|rows|, i requires 0 <= i < |rows| reads rows => rows[i].cells)
  }

  datatype MapperError = NoRules | IndexError

  /** All rows are mapped by all rules. */
  predicate AreMapped(before: seq<Cells>, after: seq<Cells>, rules: Rules, cache: Cache) {
    |after| == |before| && forall r :: 0 <= r < |before| ==> IsMapped(before[r], after[r], rules, |rules|, cache)
  }

  /** Entry k of the list is the column and the original value of the cell at this row and rule. */
  predicate IsMiss(rows: seq<Cells>, rules: Rules, cache: Cache, missing: Missing, at: (nat, nat)) {
    && at.0 < |rows| && Unmapped(rows[at.0], rules, at.1, cache)
    && missing == Missing(rules[at.1].0, rows[at.0][rules[at.1].0])
  }

  /** Row by row, and within a row rule by rule. */
  predicate Before(a: (nat, nat), b: (nat, nat)) {
    a.0 < b.0 || (a.0 == b.0 && a.1 < b.1)
  }

  predicate Increasing(at: seq<(nat, nat)>) {
    forall k, l :: 0 <= k < l < |at| ==> Before(at[k], at[l])
  }

  predicate AllMisses(rows: seq<Cells>, rules: Rules, cache: Cache, missing: seq<Missing>, at: seq<(nat, nat)>) {
    |at| == |missing| && forall k :: 0 <= k < |at| ==> IsMiss(rows, rules, cache, missing[k], at[k])
  }

  /** Every cell of the rows before (r, n) that has no mapping is listed, and no cell behind it. */
  predicate ListedUpTo(rows: seq<Cells>, rules: Rules, cache: Cache, r: nat, n: nat, at: seq<(nat, nat)>) {
    && (forall x :: x in at ==> Before(x, (r, n)))
    && (forall q, i ::
          0 <= q < |rows| && 0 <= i < |rules| && Unmapped(rows[q], rules, i, cache) && Before((q, i), (r, n)) ==>
            (q, i) in at)
  }

  /** The list holds, in row and rule order, exactly the column and original value of each ruled cell
      that has no mapping. */
  ghost predicate ListsMisses(rows: seq<Cells>, rules: Rules, cache: Cache, missing: seq<Missing>) {
    exists at :: AllMisses(rows, rules, cache, missing, at) && Increasing(at)
                 && ListedUpTo(rows, rules, cache, |rows|, 0, at)
  }

  lemma {:induction false} ListNext(rows: seq<Cells>, rules: Rules, cache: Cache, r: nat, n: nat, at: seq<(nat, nat)>)
    returns (more: seq<(nat, nat)>)
    requires r < |rows| && n < |rules| && ListedUpTo(rows, rules, cache, r, n, at) && Increasing(at)
    ensures more == if Unmapped(rows[r], rules, n, cache) then at + [(r, n)] else at
    ensures ListedUpTo(rows, rules, cache, r, n + 1, more) && Increasing(more)
  {
    more := if Unmapped(rows[r], rules, n, cache) then at + [(r, n)] else at;
    forall q, i |
      0 <= q < |rows| && 0 <= i < |rules| && Unmapped(rows[q], rules, i, cache) && Before((q, i), (r, n + 1))
      ensures (q, i) in more
    {
      if (q, i) == (r, n) {
        assert more[|more| - 1] == (r, n);
      } else {
        assert Before((q, i), (r, n)) && (q, i) in at;
      }
    }
    forall x | x in more ensures Before(x, (r, n + 1)) {
      assert x in at || x == (r, n);
    }
  }

  lemma {:induction false} NextRow(rows: seq<Cells>, rules: Rules, cache: Cache, r: nat, at: seq<(nat, nat)>)
    requires r < |rows| && ListedUpTo(rows, rules, cache, r, |rules|, at)
    ensures ListedUpTo(rows, rules, cache, r + 1, 0, at)
  {
    forall x | x in at ensures Before(x, (r + 1, 0)) {
      assert Before(x, (r, |rules|));
    }
  }

  lemma {:induction false} RowMissesList(rows: seq<Cells>, rules: Rules, cache: Cache, r: nat, n: nat,
                                         logged: seq<Missing>, front: seq<(nat, nat)>)
    returns (at: seq<(nat, nat)>)
    requires r < |rows| && n <= |rules|
    requires AllMisses(rows, rules, cache, logged, front) && Increasing(front)
    requires ListedUpTo(rows, rules, cache, r, 0, front)
    ensures AllMisses(rows, rules, cache, logged + RowMisses(rows[r], rules, n, cache), at) && Increasing(at)
    ensures ListedUpTo(rows, rules, cache, r, n, at)
  {
    if n == 0 {
      at := front;
      assert logged + RowMisses(rows[r], rules, 0, cache) == logged;
    } else {
      var before := RowMissesList(rows, rules, cache, r, n - 1, logged, front);
      at := RowMissNext(rows, rules, cache, r, n - 1, logged, before);
    }
  }

  lemma {:induction false} RowMissNext(rows: seq<Cells>, rules: Rules, cache: Cache, r: nat, n: nat,
                                       logged: seq<Missing>, before: seq<(nat, nat)>)
    returns (at: seq<(nat, nat)>)
    requires r < |rows| && n < |rules|
    requires AllMisses(rows, rules, cache, logged + RowMisses(rows[r], rules, n, cache), before) && Increasing(before)
    requires ListedUpTo(rows, rules, cache, r, n, before)
    ensures AllMisses(rows, rules, cache, logged + RowMisses(rows[r], rules, n + 1, cache), at) && Increasing(at)
    ensures ListedUpTo(rows, rules, cache, r, n + 1, at)
  {
    at := ListNext(rows, rules, cache, r, n, before);
    MissNext(rows, rules, cache, r, n, logged, before, at);
  }

  lemma {:induction false} MissNext(rows: seq<Cells>, rules: Rules, cache: Cache, r: nat, n: nat, logged: seq<Missing>,
                                    before: seq<(nat, nat)>, at: seq<(nat, nat)>)
    requires r < |rows| && n < |rules|
    requires AllMisses(rows, rules, cache, logged + RowMisses(rows[r], rules, n, cache), before)
    requires at == if Unmapped(rows[r], rules, n, cache) then before + [(r, n)] else before
    ensures AllMisses(rows, rules, cache, logged + RowMisses(rows[r], rules, n + 1, cache), at)
  {
    var seen := RowMisses(rows[r], rules, n, cache);
    if Unmapped(rows[r], rules, n, cache) {
      Associates(logged, seen, [Missing(rules[n].0, rows[r][rules[n].0])]);
    } else {
      assert seen + [] == seen;
    }
  }

  lemma {:induction false} MissesList(rows: seq<Cells>, rules: Rules, cache: Cache, n: nat)
    returns (at: seq<(nat, nat)>)
    requires n <= |rows|
    ensures AllMisses(rows, rules, cache, MissesOf(rows, rules, cache, n), at) && Increasing(at)
    ensures ListedUpTo(rows, rules, cache, n, 0, at)
  {
    if n == 0 {
      at := [];
    } else {
      var front := MissesList(rows, rules, cache, n - 1);
      at := RowMissesList(rows, rules, cache, n - 1, |rules|, MissesOf(rows, rules, cache, n - 1), front);
      NextRow(rows, rules, cache, n - 1, at);
    }
  }

  /** What the mapping makes of any rows, cell by cell and miss by miss. */
  lemma {:induction false} MappingIsExact(rows: seq<Cells>, rules: Rules, cache: Cache)
    requires DistinctColumns(rules)
    ensures AreMapped(rows, MapRows(rows, rules, cache), rules, cache)
    ensures ListsMisses(rows, rules, cache, Misses(rows, rules, cache))
  {
    forall r | 0 <= r < |rows| ensures IsMapped(rows[r], MapRows(rows, rules, cache)[r], rules, |rules|, cache) {
      MapRowIsMapped(rows[r], rules, |rules|, cache);
    }
    var at := MissesList(rows, rules, cache, |rows|);
  }

  // ---------- Where the mapping stops with an IndexError ----------

  predicate CrashesAt(cells: Cells, rules: Rules, i: nat) {
    i < |rules| && Touches(cells, rules, i) && Crashes(rules[i].1, cells[rules[i].0])
  }

  predicate RowCrashes(cells: Cells, rules: Rules) {
    exists i :: 0 <= i < |rules| && CrashesAt(cells, rules, i)
  }

  /** Rule i is the first to crash in this row. */
  predicate StopsAt(cells: Cells, rules: Rules, i: nat) {
    CrashesAt(cells, rules, i) && forall k :: 0 <= k < i ==> !CrashesAt(cells, rules, k)
  }

  /** The rows before r are mapped, row r by its first i rules, and the others are as before. */
  predicate StoppedAt(before: seq<Cells>, after: seq<Cells>, rules: Rules, cache: Cache, r: nat, i: nat) {
    && |after| == |before| && r < |before| && i < |rules|
    && StopsAt(before[r], rules, i)
    && (forall k :: 0 <= k < r ==> !RowCrashes(before[k], rules))
    && (forall k :: 0 <= k < r ==> IsMapped(before[k], after[k], rules, |rules|, cache))
    && IsMapped(before[r], after[r], rules, i, cache)
    && (forall k :: r < k < |before| ==> after[k] == before[k])
  }

  ghost predicate Stopped(before: seq<Cells>, after: seq<Cells>, rules: Rules, cache: Cache) {
    exists r: nat, i: nat :: StoppedAt(before, after, rules, cache, r, i)
  }

  predicate AnyRowCrashes(rows: seq<Cells>, rules: Rules) {
    exists r :: 0 <= r < |rows| && RowCrashes(rows[r], rules)
  }

  lemma {:induction false} StopsHere(before: seq<Cells>, now: seq<Cells>, rules: Rules, cache: Cache, r: nat, i: nat)
    requires |now| == |before| && r < |before| && StopsAt(before[r], rules, i) && DistinctColumns(rules)
    requires now[r] == MapRow(before[r], rules, i, cache)
    requires forall k :: 0 <= k < |before| && k != r ==>
               now[k] == if k < r then MapRows(before, rules, cache)[k] else before[k]
    requires forall k :: 0 <= k < r ==> !RowCrashes(before[k], rules)
    ensures AnyRowCrashes(before, rules) && Stopped(before, now, rules, cache)
  {
    forall k | 0 <= k < r ensures IsMapped(before[k], now[k], rules, |rules|, cache) {
      MapRowIsMapped(before[k], rules, |rules|, cache);
    }
    MapRowIsMapped(before[r], rules, i, cache);
    assert StoppedAt(before, now, rules, cache, r, i);
    assert RowCrashes(before[r], rules);
  }

  /** The inner loop: one row is rewritten rule by rule and its misses are appended, up to the first
      rule that crashes. */
  method MapRowFields(row: Row, rules: Rules, cache: Cache, logged: seq<Missing>)
    returns (missing: seq<Missing>, stopped: Option<nat>)
    requires DistinctColumns(rules)
    modifies row
    ensures stopped.None? <==> !RowCrashes(old(row.cells), rules)
    ensures stopped.None? ==> row.cells == MapRow(old(row.cells), rules, |rules|, cache)
    ensures stopped.None? ==> missing == logged + RowMisses(old(row.cells), rules, |rules|, cache)
    ensures stopped.Some? ==> StopsAt(old(row.cells), rules, stopped.value)
    ensures stopped.Some? ==> row.cells == MapRow(old(row.cells), rules, stopped.value, cache)
  {
    ghost var cells := row.cells;
    missing := logged;
    for i := 0 to |rules|
      invariant row.cells == MapRow(cells, rules, i, cache)
      invariant missing == logged + RowMisses(cells, rules, i, cache)
      invariant forall k :: 0 <= k < i ==> !CrashesAt(cells, rules, k)
    {
      var (column, transformer) := rules[i];
      UntouchedSoFar(cells, rules, i, cache);
      if column !in row.cells {
        continue;
      }
      var value := row.cells[column];
      if value.Null? {
        continue;
      }
      if Crashes(transformer, value) {
        assert CrashesAt(cells, rules, i);
        return missing, Some(i);
      }
      var transformed := Apply(transformer, value, cache);
      if transformed.None? {
        missing := missing + [Missing(column, value)];
      }
      row.cells := row.cells[column := if transformed.Some? then Text(transformed.value) else Null];
    }
    return missing, None;
  }

  /** Rewrites the rows in place and lists, row by row, the original values that have no mapping; an
      IndexError leaves the rows rewritten up to the cell that raised it. */
  method MapPiiFields(rows: seq<Row>, rules: Rules, cache: Cache) returns (result: Result<seq<Missing>, MapperError>)
    requires forall i, j :: 0 <= i < j < |rows| ==> rows[i] != rows[j]
    requires DistinctColumns(rules)
    modifies rows
    ensures result == Failure(NoRules) <==> rules == []
    ensures result == Failure(IndexError) <==> AnyRowCrashes(old(CellsOf(rows)), rules)
    ensures result == Failure(NoRules) ==> CellsOf(rows) == old(CellsOf(rows))
    ensures result == Failure(IndexError) ==> Stopped(old(CellsOf(rows)), CellsOf(rows), rules, cache)
    ensures result.Success? ==>
              && CellsOf(rows) == MapRows(old(CellsOf(rows)), rules, cache)
              && result.value == Misses(old(CellsOf(rows)), rules, cache)
    ensures result.Success? ==>
              && AreMapped(old(CellsOf(rows)), CellsOf(rows), rules, cache)
              && ListsMisses(old(CellsOf(rows)), rules, cache, result.value)
  {
    if rules == [] {
      return Failure(NoRules);
    }
    ghost var before := CellsOf(rows);
    ghost var after := MapRows(before, rules, cache);
    var missing: seq<Missing> := [];
    for r := 0 to |rows|
      invariant forall k :: 0 <= k < |rows| ==> rows[k].cells == if k < r then after[k] else before[k]
      invariant forall k :: 0 <= k < r ==> !RowCrashes(before[k], rules)
      invariant missing == MissesOf(before, rules, cache, r)
    {
      var row := rows[r];
      assert row.cells == before[r] && forall k :: 0 <= k < |rows| && k != r ==> rows[k] != row;
      var stopped;
      missing, stopped := MapRowFields(row, rules, cache, missing);
      if stopped.Some? {
        StopsHere(before, CellsOf(rows), rules, cache, r, stopped.value);
        return Failure(IndexError);
      }
    }
    assert CellsOf(rows) == after;
    MappingIsExact(before, rules, cache);
    return Success(missing);
  }

  /** When rule i is reached, its column is still as it was. */
  lemma {:induction false} UntouchedSoFar(cells: Cells, rules: Rules, i: nat, cache: Cache)
    requires i < |rules| && DistinctColumns(rules)
    ensures var now := MapRow(cells, rules, i, cache);
            && (rules[i].0 in now <==> rules[i].0 in cells)
            && (rules[i].0 in cells ==> now[rules[i].0] == cells[rules[i].0])
  {
    MapRowIsMapped(cells, rules, i, cache);
    assert !Ruled(rules, i, rules[i].0);
  }

  // ---------- Conservation ----------

  function NonNull(cells: Cells): set<string> {
    set c | c in cells && !cells[c].Null?
  }

  /** In a row, non-null cells before = non-null cells after + misses. */
  lemma {:induction false} RowConserves(cells: Cells, rules: Rules, n: nat, cache: Cache)
    requires n <= |rules| && DistinctColumns(rules)
    ensures |NonNull(cells)| == |NonNull(MapRow(cells, rules, n, cache))| + |RowMisses(cells, rules, n, cache)|
  {
    if n == 0 {
    } else {
      RowConserves(cells, rules, n - 1, cache);
      var before, after := MapRow(cells, rules, n - 1, cache), MapRow(cells, rules, n, cache);
      UntouchedSoFar(cells, rules, n - 1, cache);
      var column := rules[n - 1].0;
      if Touches(cells, rules, n - 1) && Apply(rules[n - 1].1, cells[column], cache).None? {
        assert NonNull(after) == NonNull(before) - {column};
        assert column in NonNull(before);
      } else {
        assert NonNull(after) == NonNull(before);
      }
    }
  }

  /** The non-null cells of the first n rows. */
  function CountNonNull(rows: seq<Cells>, n: nat): nat
    requires n <= |rows|
  {
    if n == 0 then 0 else CountNonNull(rows, n - 1) + |NonNull(rows[n - 1])|
  }

  /** Over all rows: no non-null value disappears without being listed as missing. */
  lemma {:induction false} MappingConserves(rows: seq<Cells>, rules: Rules, cache: Cache, n: nat)
    requires DistinctColumns(rules) && n <= |rows|
    ensures CountNonNull(rows, n) == CountNonNull(MapRows(rows, rules, cache), n) + |MissesOf(rows, rules, cache, n)|
  {
    if n == 0 {
    } else {
      MappingConserves(rows, rules, cache, n - 1);
      RowConserves(rows[n - 1], rules, |rules|, cache);
    }
  }

  /** Mapping pages of rows one after the other is mapping all rows at once. */
  lemma {:induction false} MappingConcat(a: seq<Cells>, b: seq<Cells>, rules: Rules, cache: Cache)
    ensures MapRows(a + b, rules, cache) == MapRows(a, rules, cache) + MapRows(b, rules, cache)
    ensures Misses(a + b, rules, cache) == Misses(a, rules, cache) + Misses(b, rules, cache)
  {
    MissesConcat(a, b, rules, cache, |b|);
  }

  lemma {:induction false} MissesOfFront(a: seq<Cells>, b: seq<Cells>, rules: Rules, cache: Cache, n: nat)
    requires n <= |a|
    ensures MissesOf(a + b, rules, cache, n) == MissesOf(a, rules, cache, n)
  {
    if n == 0 {
    } else {
      MissesOfFront(a, b, rules, cache, n - 1);
    }
  }

  lemma {:induction false} Associates<T>(x: seq<T>, y: seq<T>, z: seq<T>)
    ensures (x + y) + z == x + (y + z)
  {
  }

  lemma {:induction false} MissesConcat(a: seq<Cells>, b: seq<Cells>, rules: Rules, cache: Cache, n: nat)
    requires n <= |b|
    ensures MissesOf(a + b, rules, cache, |a| + n) == Misses(a, rules, cache) + MissesOf(b, rules, cache, n)
  {
    if n == 0 {
      MissesOfFront(a, b, rules, cache, |a|);
    } else {
      MissesConcat(a, b, rules, cache, n - 1);
      var front, back := Misses(a, rules, cache), MissesOf(b, rules, cache, n - 1);
      var logged := RowMisses(b[n - 1], rules, |rules|, cache);
      assert (a + b)[|a| + n - 1] == b[n - 1];
      Associates(front, back, logged);
    }
  }

  // ---------- The reverse lookup ----------

  const NO_MATCH := "__NO_MATCH__"

  /** The tokens to filter by; no requested value means no filter. */
  function TokensByOriginalValues(casefold: string -> string, values: seq<string>,
                                  valueToToken: map<string, string>): set<string> {
    if values == [] then {}
    else
      var tokens := TokensOf(valueToToken, casefold, set v | v in values :: casefold(v));
      if tokens == {} then {NO_MATCH} else tokens
  }

  function TokensOf(valueToToken: map<string, string>, casefold: string -> string, wanted: set<string>): set<string> {
    set v | v in valueToToken && casefold(v) in wanted :: valueToToken[v]
  }

  predicate Requested(casefold: string -> string, values: seq<string>, value: string) {
    casefold(value) in set v | v in values :: casefold(v)
  }

  /** One of the requested values is this one up to case. */
  predicate AsksFor(casefold: string -> string, values: seq<string>, value: string) {
    exists i :: 0 <= i < |values| && casefold(values[i]) == casefold(value)
  }

  /** The lookup returns exactly the tokens of the requested values. When the cache holds none of them
      it returns one text that is no token, so that the filter stays; only an empty request has none. */
  lemma {:induction false} LookupKeepsTheFilter(casefold: string -> string, values: seq<string>,
                                                valueToToken: map<string, string>, token: string)
    ensures var tokens := TokensByOriginalValues(casefold, values, valueToToken);
            var found := exists value :: value in valueToToken && AsksFor(casefold, values, value);
            && (tokens == {} <==> values == [])
            && (found ==>
                  (token in tokens <==>
                     exists value ::
                       value in valueToToken && AsksFor(casefold, values, value) && valueToToken[value] == token))
            && (!found && values != [] ==> tokens == {"__NO_MATCH__"})
  {
    var hits := TokensOf(valueToToken, casefold, set v | v in values :: casefold(v));
    AskedTokens(casefold, values, valueToToken, token);
    if value :| value in valueToToken && AsksFor(casefold, values, value) {
      AskedTokens(casefold, values, valueToToken, valueToToken[value]);
    } else {
      forall other ensures other !in hits {
        AskedTokens(casefold, values, valueToToken, other);
      }
      assert hits == {};
    }
  }

  lemma {:induction false} AskedTokens(casefold: string -> string, values: seq<string>,
                                       valueToToken: map<string, string>, token: string)
    ensures token in TokensOf(valueToToken, casefold, set v | v in values :: casefold(v))
       <==> exists value ::
              value in valueToToken && AsksFor(casefold, values, value) && valueToToken[value] == token
  {
    forall value
      ensures casefold(value) in (set v | v in values :: casefold(v)) <==> AsksFor(casefold, values, value)
    {
      AskedIsWanted(casefold, values, value);
    }
  }

  lemma {:induction false} AskedIsWanted(casefold: string -> string, values: seq<string>, value: string)
    ensures casefold(value) in (set v | v in values :: casefold(v)) <==> AsksFor(casefold, values, value)
  {
    if AsksFor(casefold, values, value) {
      var i :| 0 <= i < |values| && casefold(values[i]) == casefold(value);
      assert values[i] in values;
    }
  }

  /** With unique tokens, a 32-character token is returned exactly when it maps to a requested value
      and is the last row to hold that value. */
  lemma {:induction false} ReverseLookupIsExact(rs: seq<Record>, casefold: string -> string, values: seq<string>,
                                                token: string)
    requires DistinctTokens(rs) && |token| == 32
    ensures var c := Build(rs);
            token in TokensByOriginalValues(casefold, values, c.valueToToken)
            <==> match Apply(ByTokenLength, Text(token), c.tokenToValue)
                 case None => false
                 case Some(value) =>
                   Requested(casefold, values, value)
                   && value in c.valueToToken && c.valueToToken[value] == token
  {
    var c := Build(rs);
    ReverseThenForward(rs);
    CrossKeys(rs);
    assert |NO_MATCH| != 32;
    if token in c.tokenToValue && Requested(casefold, values, c.tokenToValue[token]) {
      var value := c.tokenToValue[token];
      assert value in c.tokenToValue.Values;
    }
  }

  /** Every 32-character token whose value is requested is returned. */
  ghost predicate FindsAll(rs: seq<Record>, casefold: string -> string, values: seq<string>) {
    forall i :: 0 <= i < |rs| && |rs[i].token| == 32 && Requested(casefold, values, rs[i].value) ==>
      rs[i].token in TokensByOriginalValues(casefold, values, Build(rs).valueToToken)
  }

  /** The lookup finds all tokens of every request exactly when no 32-character token shares its
      value with a later row. */
  lemma {:induction false} ReverseLookupIsComplete(rs: seq<Record>, casefold: string -> string)
    requires DistinctTokens(rs)
    ensures (forall values :: FindsAll(rs, casefold, values))
       <==> forall i :: 0 <= i < |rs| && |rs[i].token| == 32 ==> LastForValue(rs, i)
  {
    var c := Build(rs);
    if forall i :: 0 <= i < |rs| && |rs[i].token| == 32 ==> LastForValue(rs, i) {
      forall values, i | 0 <= i < |rs| && |rs[i].token| == 32 && Requested(casefold, values, rs[i].value)
        ensures rs[i].token in TokensByOriginalValues(casefold, values, c.valueToToken)
      {
        BuildKeepsLastWriters(rs, i);
        assert LastForToken(rs, i);
        ReverseLookupIsExact(rs, casefold, values, rs[i].token);
      }
    } else {
      var i :| 0 <= i < |rs| && |rs[i].token| == 32 && !LastForValue(rs, i);
      LaterRowTakesValue(rs, i);
      var request := [rs[i].value];
      assert rs[i].value in request;
      assert casefold(rs[i].value) in set v | v in request :: casefold(v);
      BuildKeepsLastWriters(rs, i);
      assert LastForToken(rs, i);
      ReverseLookupIsExact(rs, casefold, request, rs[i].token);
      assert !FindsAll(rs, casefold, request);
    }
  }

  lemma {:induction false} LaterRowTakesValue(rs: seq<Record>, i: nat)
    requires DistinctTokens(rs) && i < |rs| && !LastForValue(rs, i)
    ensures rs[i].value in Build(rs).valueToToken && Build(rs).valueToToken[rs[i].value] != rs[i].token
  {
    var j :| i < j < |rs| && rs[j].value == rs[i].value;
    var last := LastWriterOf(rs, j);
    BuildKeepsLastWriters(rs, last);
  }

  lemma {:induction false} LastWriterOf(rs: seq<Record>, j: nat) returns (last: nat)
    requires j < |rs|
    ensures j <= last < |rs| && rs[last].value == rs[j].value && LastForValue(rs, last)
    decreases |rs| - j
  {
    if LastForValue(rs, j) {
      last := j;
    } else {
      var k :| j < k < |rs| && rs[k].value == rs[j].value;
      last := LastWriterOf(rs, k);
    }
  }
}

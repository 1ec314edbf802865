/** The string operations of the service code: identifiers, whitespace, split and join. */
module Strings {
  // ---------- Identifiers: [A-Za-z_][A-Za-z0-9_]* ----------

  predicate IsNameStart(c: char) {
    'A' <= c <= 'Z' || 'a' <= c <= 'z' || c == '_'
  }

  predicate IsNameChar(c: char) {
    IsNameStart(c) || '0' <= c <= '9'
  }

  predicate IsName(s: string) {
    s != "" && IsNameStart(s[0]) && forall c :: c in s ==> IsNameChar(c)
  }

  // ---------- Whitespace: str.strip() ----------

  /** The characters that str.isspace() accepts. */
  predicate IsSpace(c: char) {
    || '\U{0009}' <= c <= '\U{000D}' || '\U{001C}' <= c <= '\U{0020}'
    || c == '\U{0085}' || c == '\U{00A0}' || c == '\U{1680}' || '\U{2000}' <= c <= '\U{200A}'
    || c == '\U{2028}' || c == '\U{2029}' || c == '\U{202F}' || c == '\U{205F}' || c == '\U{3000}'
  }

  function TrimStart(s: string): string {
    if s != "" && IsSpace(s[0]) then TrimStart(s[1..]) else s
  }

  function TrimEnd(s: string): string {
    if s != "" && IsSpace(s[|s| - 1]) then TrimEnd(s[..|s| - 1]) else s
  }

  function Strip(s: string): string {
    TrimEnd(TrimStart(s))
  }

  predicate Trimmed(s: string) {
    s != "" ==> !IsSpace(s[0]) && !IsSpace(s[|s| - 1])
  }

  lemma {:induction false} TrimStartCuts(s: string)
    ensures forall c :: c in TrimStart(s) ==> c in s
    ensures TrimStart(s) != "" ==> !IsSpace(TrimStart(s)[0])
  {
    if s != "" && IsSpace(s[0]) {
      TrimStartCuts(s[1..]);
    }
  }

  lemma {:induction false} TrimEndCuts(s: string)
    ensures TrimEnd(s) <= s
    ensures TrimEnd(s) != "" ==> !IsSpace(TrimEnd(s)[|TrimEnd(s)| - 1])
  {
    if s != "" && IsSpace(s[|s| - 1]) {
      TrimEndCuts(s[..|s| - 1]);
    }
  }

  /** Stripping yields a trimmed string of old characters and is the identity on trimmed ones. */
  lemma {:induction false} StripTrims(s: string)
    ensures Trimmed(Strip(s))
    ensures forall c :: c in Strip(s) ==> c in s
    ensures Trimmed(s) <==> Strip(s) == s
  {
    TrimStartCuts(s);
    TrimEndCuts(TrimStart(s));
    forall c | c in Strip(s) ensures c in TrimStart(s) {
      var i :| 0 <= i < |Strip(s)| && Strip(s)[i] == c;
      assert TrimStart(s)[i] == c;
    }
  }

  predicate AllSpaces(s: string) {
    forall c :: c in s ==> IsSpace(c)
  }

  /** s is `core` with spaces on both sides, any number of them. */
  ghost predicate IsPadded(s: string, core: string) {
    exists left: string, right: string :: AllSpaces(left) && AllSpaces(right) && s == left + core + right
  }

  lemma {:induction false} TrimStartPads(s: string) returns (left: string)
    ensures AllSpaces(left) && s == left + TrimStart(s)
  {
    if s != "" && IsSpace(s[0]) {
      var rest := TrimStartPads(s[1..]);
      left := [s[0]] + rest;
    } else {
      left := "";
    }
  }

  lemma {:induction false} TrimEndPads(s: string) returns (right: string)
    ensures AllSpaces(right) && s == TrimEnd(s) + right
  {
    if s != "" && IsSpace(s[|s| - 1]) {
      var rest := TrimEndPads(s[..|s| - 1]);
      right := rest + [s[|s| - 1]];
    } else {
      right := "";
    }
  }

  /** Stripping takes away spaces at both ends and nothing else; only spaces strip to nothing. */
  lemma {:induction false} StripRemovesPadding(s: string)
    ensures IsPadded(s, Strip(s)) && Trimmed(Strip(s))
    ensures Strip(s) == "" <==> AllSpaces(s)
  {
    StripTrims(s);
    var left := TrimStartPads(s);
    var right := TrimEndPads(TrimStart(s));
    assert s == left + Strip(s) + right;
    if Strip(s) != "" {
      assert Strip(s)[0] in s;
    }
  }

  lemma {:induction false} TrimStartSkips(left: string, s: string)
    requires AllSpaces(left)
    ensures TrimStart(left + s) == TrimStart(s)
  {
    if left == "" {
      assert left + s == s;
    } else {
      assert left[0] in left && (left + s)[1..] == left[1..] + s;
      TrimStartSkips(left[1..], s);
    }
  }

  lemma {:induction false} TrimEndSkips(s: string, right: string)
    requires AllSpaces(right)
    ensures TrimEnd(s + right) == TrimEnd(s)
    decreases |right|
  {
    if right == "" {
      assert s + right == s;
    } else {
      var n := |right| - 1;
      assert right[n] in right && (s + right)[..|s + right| - 1] == s + right[..n];
      TrimEndSkips(s, right[..n]);
    }
  }

  /** Over all texts: strip(s) is the one trimmed text that s is when spaces on both sides are left out. */
  lemma {:induction false} StripIsExact(s: string, core: string)
    ensures Strip(s) == core <==> IsPadded(s, core) && Trimmed(core)
  {
    StripRemovesPadding(s);
    if IsPadded(s, core) && Trimmed(core) {
      var left: string, right: string :| AllSpaces(left) && AllSpaces(right) && s == left + core + right;
      assert s == left + (core + right);
      TrimStartSkips(left, core + right);
      if core == "" {
        assert AllSpaces(s);
      } else {
        assert TrimStart(core + right) == core + right;
        TrimEndSkips(core, right);
      }
    }
  }

  // ---------- Split and join on a one-character separator ----------

  function Split(s: string, sep: char): (parts: seq<string>)
    ensures parts != []
  {
    if s == "" then [""]
    else if s[0] == sep then [""] + Split(s[1..], sep)
    else
      var rest := Split(s[1..], sep);
      [[s[0]] + rest[0]] + rest[1..]
  }

  function Join(parts: seq<string>, sep: char): string {
    if parts == [] then ""
    else if |parts| == 1 then parts[0]
    else parts[0] + [sep] + Join(parts[1..], sep)
  }

  /** Splitting around one separator splits both sides on their own. */
  lemma {:induction false} SplitConcat(a: string, b: string, sep: char)
    ensures Split(a + [sep] + b, sep) == Split(a, sep) + Split(b, sep)
  {
    var whole := a + [sep] + b;
    if a == "" {
      assert whole == [sep] + b;
      assert whole[1..] == b;
    } else {
      assert whole[1..] == a[1..] + [sep] + b;
      SplitConcat(a[1..], b, sep);
    }
  }

  lemma {:induction false} SplitWithout(a: string, sep: char)
    requires sep !in a
    ensures Split(a, sep) == [a]
  {
    if a == "" {
    } else {
      SplitWithout(a[1..], sep);
      assert [a[0]] + a[1..] == a;
    }
  }

  /** The parts hold no separator, and joining them gives the string back. */
  lemma {:induction false} SplitParts(s: string, sep: char)
    ensures forall p :: p in Split(s, sep) ==> sep !in p
    ensures Join(Split(s, sep), sep) == s
  {
    if s == "" {
    } else {
      var rest := Split(s[1..], sep);
      SplitParts(s[1..], sep);
      if s[0] == sep {
        assert Split(s, sep)[1..] == rest;
      } else {
        assert Split(s, sep)[1..] == rest[1..];
        assert rest[0] in rest;
        assert forall p :: p in rest[1..] ==> p in rest;
      }
    }
  }

  /** Joining separator-free parts loses nothing. */
  lemma {:induction false} SplitOfJoin(parts: seq<string>, sep: char)
    requires parts != [] && forall p :: p in parts ==> sep !in p
    ensures Split(Join(parts, sep), sep) == parts
  {
    SplitWithout(parts[0], sep);
    if |parts| > 1 {
      SplitOfJoin(parts[1..], sep);
      SplitConcat(parts[0], Join(parts[1..], sep), sep);
    }
  }

  /** The text that begins at i and ends before j is delimited by separators or the ends of s. */
  predicate IsPart(s: string, sep: char, i: nat, j: nat) {
    && i <= j <= |s| && sep !in s[i..j]
    && (i == 0 || s[i - 1] == sep) && (j == |s| || s[j] == sep)
  }

  lemma {:induction false} PartIsDelimited(s: string, sep: char, k: nat) returns (i: nat, j: nat)
    requires k < |Split(s, sep)|
    ensures IsPart(s, sep, i, j) && s[i..j] == Split(s, sep)[k] && (k == 0 <==> i == 0)
  {
    if s == "" || (s[0] == sep && k == 0) {
      i, j := 0, 0;
    } else {
      var first := s[0] != sep && k == 0;
      var a, b := PartIsDelimited(s[1..], sep, if s[0] == sep then k - 1 else k);
      i, j := if first then 0 else a + 1, b + 1;
      PartMoves(s, sep, a, b, first);
      assert first ==> s[0..j] == [s[0]] + s[1..][a..b];
    }
  }

  /** A part of the tail is a part of the whole, which takes in the first character if it is the first. */
  lemma {:induction false} PartMoves(s: string, sep: char, a: nat, b: nat, first: bool)
    requires s != "" && IsPart(s[1..], sep, a, b) && (a == 0 && s[0] != sep <==> first)
    ensures IsPart(s, sep, if first then 0 else a + 1, b + 1) && s[1..][a..b] == s[a + 1..b + 1]
  {
    assert s[1..][a..b] == s[a + 1..b + 1];
    if first { assert s[0..b + 1] == [s[0]] + s[1..b + 1]; }
  }

  /** The parts are exactly the stretches between separators. */
  lemma {:induction false} SplitIsDelimited(s: string, sep: char, part: string)
    ensures part in Split(s, sep) <==> exists i: nat, j: nat :: IsPart(s, sep, i, j) && s[i..j] == part
  {
    if part in Split(s, sep) {
      var k :| 0 <= k < |Split(s, sep)| && Split(s, sep)[k] == part;
      var i, j := PartIsDelimited(s, sep, k);
    }
    if exists i: nat, j: nat :: IsPart(s, sep, i, j) && s[i..j] == part {
      var i: nat, j: nat :| IsPart(s, sep, i, j) && s[i..j] == part;
      DelimitedIsPart(s, sep, i, j);
    }
  }

  lemma {:induction false} DelimitedIsPart(s: string, sep: char, i: nat, j: nat)
    requires IsPart(s, sep, i, j)
    ensures s[i..j] in Split(s, sep)
  {
    var part := s[i..j];
    SplitWithout(part, sep);
    if j < |s| {
      assert s[i..] == part + [sep] + s[j + 1..];
      SplitConcat(part, s[j + 1..], sep);
    } else {
      assert s[i..] == part;
    }
    assert Split(s[i..], sep)[0] == part;
    if i > 0 {
      assert s == s[..i - 1] + [sep] + s[i..];
      SplitConcat(s[..i - 1], s[i..], sep);
    } else {
      assert s[i..] == s;
    }
  }
}

/** The PostgreSQL rewrite of `%(name)s` into `:name`
    (app/services/query_engine/sql_safety.py). */
module PlaceholderRewrite {
  import opened Strings

  /** The length of the longest run of name characters at the start of s. */
  function NameRun(s: string): (n: nat)
    ensures n <= |s|
  {
    if s == "" || !IsNameChar(s[0]) then 0 else 1 + NameRun(s[1..])
  }

  /** The pattern %\(([A-Za-z_][A-Za-z0-9_]*)\)s matches at the start of s. */
  predicate Matches(s: string) {
    && |s| > 4 && s[0] == '%' && s[1] == '(' && IsNameStart(s[2])
    && var n := NameRun(s[2..]);
       2 + n + 1 < |s| && s[2 + n] == ')' && s[2 + n + 1] == 's'
  }

  function MatchLength(s: string): nat
    requires Matches(s)
  {
    NameRun(s[2..]) + 4
  }

  function MatchedName(s: string): string
    requires Matches(s)
  {
    s[2..2 + NameRun(s[2..])]
  }

  /** re.sub: scan from the left, replace a match and go on behind it. */
  function Rewrite(s: string): string
    decreases |s|
  {
    if s == "" then ""
    else if Matches(s) then ":" + MatchedName(s) + Rewrite(s[MatchLength(s)..])
    else [s[0]] + Rewrite(s[1..])
  }

  /** The pattern occurs nowhere in s. */
  predicate Clean(s: string) {
    forall i :: 0 <= i < |s| ==> !Matches(s[i..])
  }

  // ---------- The pattern as text ----------

  function Pyformat(name: string): string {
    "%(" + name + ")s"
  }

  lemma {:induction false} NameRunChars(s: string)
    ensures forall i :: 0 <= i < NameRun(s) ==> IsNameChar(s[i])
    ensures NameRun(s) < |s| ==> !IsNameChar(s[NameRun(s)])
  {
    if s != "" && IsNameChar(s[0]) {
      NameRunChars(s[1..]);
      forall i | 0 <= i < NameRun(s) ensures IsNameChar(s[i]) {
        if i > 0 { assert s[i] == s[1..][i - 1]; }
      }
    }
  }

  lemma {:induction false} NameRunStops(name: string, rest: string)
    requires forall c :: c in name ==> IsNameChar(c)
    requires rest != "" && !IsNameChar(rest[0])
    ensures NameRun(name + rest) == |name|
  {
    if name == "" {
      assert name + rest == rest;
    } else {
      assert name[0] in name;
      assert (name + rest)[1..] == name[1..] + rest;
      NameRunStops(name[1..], rest);
    }
  }

  /** A match is exactly a placeholder text in front of anything. */
  lemma {:induction false} MatchIsPlaceholder(s: string)
    requires Matches(s)
    ensures IsName(MatchedName(s))
    ensures s == Pyformat(MatchedName(s)) + s[MatchLength(s)..]
  {
    NameRunChars(s[2..]);
    var n := NameRun(s[2..]);
    assert forall i :: 0 <= i < n ==> s[2..][i] == s[2 + i];
    var name := MatchedName(s);
    assert name[0] == s[2];
    forall c | c in name ensures IsNameChar(c) {
      var i :| 0 <= i < n && name[i] == c;
      assert name[i] == s[2..][i];
    }
    assert s == "%(" + s[2..2 + n] + ")s" + s[n + 4..];
  }

  lemma {:induction false} PlaceholderMatches(name: string, rest: string)
    requires IsName(name)
    ensures Matches(Pyformat(name) + rest)
    ensures MatchedName(Pyformat(name) + rest) == name
    ensures (Pyformat(name) + rest)[MatchLength(Pyformat(name) + rest)..] == rest
  {
    var s := Pyformat(name) + rest;
    assert s[2..] == name + (")s" + rest);
    NameRunStops(name, ")s" + rest);
    assert s[2] == name[0];
    assert s[2 + |name|] == ')' && s[3 + |name|] == 's';
  }

  // ---------- No placeholder survives ----------

  /** Text that the scan copied up to a colon-free prefix was in the input. */
  lemma {:induction false} PrefixWasCopied(s: string, p: string)
    requires p <= Rewrite(s) && ':' !in p
    ensures p <= s
    decreases |p|
  {
    if p == "" {
    } else {
      assert p[0] in p && p[0] == Rewrite(s)[0];
      if !Matches(s) {
        assert Rewrite(s)[1..] == Rewrite(s[1..]);
        assert forall c :: c in p[1..] ==> c in p;
        PrefixWasCopied(s[1..], p[1..]);
      }
    }
  }

  lemma {:induction false} CleanAfter(front: string, back: string)
    requires '%' !in front && Clean(back)
    ensures Clean(front + back)
  {
    var s := front + back;
    forall i | 0 <= i < |s| ensures !Matches(s[i..]) {
      if i < |front| {
        assert s[i..][0] == front[i];
      } else {
        assert s[i..] == back[i - |front|..];
      }
    }
  }

  /** The rewrite leaves no pyformat placeholder anywhere in its output. */
  lemma {:induction false} RewriteIsClean(s: string)
    ensures Clean(Rewrite(s))
    decreases |s|
  {
    if s == "" {
    } else if Matches(s) {
      MatchIsPlaceholder(s);
      RewriteIsClean(s[MatchLength(s)..]);
      CleanAfter(":" + MatchedName(s), Rewrite(s[MatchLength(s)..]));
    } else {
      var rest := Rewrite(s[1..]);
      var out := [s[0]] + rest;
      RewriteIsClean(s[1..]);
      if Matches(out) {
        MatchIsPlaceholder(out);
        var p := Pyformat(MatchedName(out));
        assert p[1..] == "(" + MatchedName(out) + ")s";
        assert ':' !in MatchedName(out);
        assert out == p + out[|p|..];
        assert rest == p[1..] + out[|p|..];
        PrefixWasCopied(s[1..], p[1..]);
        assert s == p + s[|p|..];
        PlaceholderMatches(MatchedName(out), s[|p|..]);
        assert false;
      }
      forall i | 0 <= i < |out| ensures !Matches(out[i..]) {
        if i == 0 { assert out[0..] == out; } else { assert out[i..] == rest[i - 1..]; }
      }
    }
  }

  /** Rewriting never lengthens, and it changes a text exactly when the pattern occurs in it. */
  lemma {:induction false} RewriteFixesClean(s: string)
    ensures |Rewrite(s)| <= |s|
    ensures Clean(s) ==> Rewrite(s) == s
    ensures !Clean(s) ==> |Rewrite(s)| < |s|
    decreases |s|
  {
    if s == "" {
    } else {
      assert s[0..] == s;
      if Matches(s) {
        RewriteFixesClean(s[MatchLength(s)..]);
      } else {
        RewriteFixesClean(s[1..]);
        assert forall i :: 0 <= i < |s| - 1 ==> s[1..][i..] == s[i + 1..];
        if Clean(s) {
          forall i | 0 <= i < |s| - 1 ensures !Matches(s[1..][i..]) {
            assert !Matches(s[i + 1..]);
          }
        } else {
          var i :| 0 <= i < |s| && Matches(s[i..]);
          assert s[1..][i - 1..] == s[i..];
          assert !Clean(s[1..]);
        }
      }
    }
  }

  lemma {:induction false} RewriteIsIdempotent(s: string)
    ensures Rewrite(Rewrite(s)) == Rewrite(s)
  {
    RewriteIsClean(s);
    RewriteFixesClean(Rewrite(s));
  }

  // ---------- Text around placeholders ----------

  lemma {:induction false} NameRunLocal(t: string, rest: string)
    requires rest != "" && !IsNameChar(rest[0])
    ensures NameRun(t + rest) == NameRun(t)
  {
    if t == "" {
      assert t + rest == rest;
    } else {
      assert (t + rest)[1..] == t[1..] + rest;
      if IsNameChar(t[0]) { NameRunLocal(t[1..], rest); }
    }
  }

  /** A match cannot reach across a percent sign, so it is decided by the text before it. */
  lemma {:induction false} MatchIsLocal(t: string, rest: string)
    requires t != "" && rest != "" && rest[0] == '%'
    ensures Matches(t + rest) <==> Matches(t)
    ensures Matches(t) ==> MatchLength(t + rest) == MatchLength(t) && MatchedName(t + rest) == MatchedName(t)
  {
    var s := t + rest;
    if |t| >= 2 {
      assert s[2..] == t[2..] + rest;
      NameRunLocal(t[2..], rest);
      var n := NameRun(t[2..]);
      assert Matches(t) ==> s[2..2 + n] == t[2..2 + n];
      assert s[|t|] == '%';
    }
  }

  /** The text before a percent sign is rewritten on its own. */
  lemma {:induction false} RewriteSplitsAtPercent(t: string, tail: string)
    requires tail != "" && tail[0] == '%'
    ensures Rewrite(t + tail) == Rewrite(t) + Rewrite(tail)
    decreases |t|
  {
    if t == "" {
      assert t + tail == tail;
    } else {
      MatchIsLocal(t, tail);
      var n := if Matches(t) then MatchLength(t) else 1;
      assert (t + tail)[n..] == t[n..] + tail;
      RewriteSplitsAtPercent(t[n..], tail);
    }
  }

  lemma {:induction false} RewriteOfPlaceholder(name: string, rest: string)
    requires IsName(name)
    ensures Rewrite(Pyformat(name) + rest) == ":" + name + Rewrite(rest)
  {
    PlaceholderMatches(name, rest);
  }

  /** Everything outside a placeholder is rewritten on its own and keeps its place. */
  lemma {:induction false} RewriteSplits(t: string, name: string, rest: string)
    requires IsName(name)
    ensures Rewrite(t + Pyformat(name) + rest) == Rewrite(t) + ":" + name + Rewrite(rest)
  {
    var tail := Pyformat(name) + rest;
    RewriteSplitsAtPercent(t, tail);
    RewriteOfPlaceholder(name, rest);
    assert t + Pyformat(name) + rest == t + tail;
    var named := ":" + name + Rewrite(rest);
    assert Rewrite(t) + ":" + name + Rewrite(rest) == Rewrite(t) + named;
  }

  /** A rendering: n binds between n + 1 texts, with pyformat or with named binds. */
  function RenderPyformat(texts: seq<string>, names: seq<string>): string
    requires |texts| == |names| + 1
  {
    if names == [] then texts[0]
    else texts[0] + Pyformat(names[0]) + RenderPyformat(texts[1..], names[1..])
  }

  function RenderNamed(texts: seq<string>, names: seq<string>): string
    requires |texts| == |names| + 1
  {
    if names == [] then texts[0]
    else texts[0] + ":" + names[0] + RenderNamed(texts[1..], names[1..])
  }

  /** The rewrite turns a rendering into the same fragments with named binds exactly when none of
      its other texts contains the pattern; a string literal that does is altered. */
  lemma {:induction false} RewriteOfRendering(texts: seq<string>, names: seq<string>)
    requires |texts| == |names| + 1 && forall n :: n in names ==> IsName(n)
    ensures |Rewrite(RenderPyformat(texts, names))| <= |RenderNamed(texts, names)|
    ensures Rewrite(RenderPyformat(texts, names)) == RenderNamed(texts, names)
       <==> forall t :: t in texts ==> Clean(t)
    ensures (exists t :: t in texts && !Clean(t)) ==>
              |Rewrite(RenderPyformat(texts, names))| < |RenderNamed(texts, names)|
    decreases |names|
  {
    RewriteFixesClean(texts[0]);
    if names == [] {
      assert forall t :: t in texts ==> t == texts[0];
      assert texts[0] in texts;
    } else {
      RewriteSplits(texts[0], names[0], RenderPyformat(texts[1..], names[1..]));
      RewriteOfRendering(texts[1..], names[1..]);
      assert forall t :: t in texts <==> t == texts[0] || t in texts[1..];
    }
  }
}

/** Who may call a data route (app/dependencies/auth.py). */
module RoutePermission {
  import opened Strings

  datatype Role = Admin | Regular

  /** `s.rstrip("/")` */
  function TrimSlashes(s: string): string {
    if s != "" && s[|s| - 1] == '/' then TrimSlashes(s[..|s| - 1]) else s
  }

  function OrRoot(s: string): string {
    if s == "" then "/" else s
  }

  function NormalizeRoutePath(path: string, apiPrefix: string): string {
    var prefix := TrimSlashes(apiPrefix);
    OrRoot(TrimSlashes(if prefix <= path then path[|prefix|..] else path))
  }

  /** `name` is the lowercased username. */
  predicate RouteMatchesUsername(routePath: string, name: string) {
    var normalized := OrRoot(TrimSlashes(routePath));
    normalized == "/" + name || "/" + name + "/" <= normalized
  }

  predicate CheckApiPermission(role: Role, name: string, routePath: string) {
    role.Admin? || RouteMatchesUsername(routePath, name)
  }

  /** The whole test of one request. */
  predicate Allowed(role: Role, name: string, path: string, apiPrefix: string) {
    CheckApiPermission(role, name, NormalizeRoutePath(path, apiPrefix))
  }

  // ---------- The documented rule: the first segment equals the username ----------

  predicate FirstSegmentIs(routePath: string, name: string) {
    if routePath == "" then name == ""
    else routePath[0] == '/' && Split(routePath[1..], '/')[0] == name
  }

  lemma {:induction false} FirstPart(s: string, head: string)
    requires '/' !in head
    ensures Split(s, '/')[0] == head <==> s == head || head + "/" <= s
  {
    if s == "" {
    } else if s[0] == '/' {
      if head == "" { assert s == "/" + s[1..]; }
    } else if head == "" || head[0] != s[0] {
      assert Split(s, '/')[0][0] == s[0];
    } else {
      assert head[0] in head;
      assert forall c :: c in head[1..] ==> c in head;
      FirstPart(s[1..], head[1..]);
      assert head == [head[0]] + head[1..] && s == [s[0]] + s[1..];
      assert head + "/" == [head[0]] + (head[1..] + "/");
      assert head + "/" <= s <==> head[1..] + "/" <= s[1..] by {
        if head + "/" <= s {
          assert s[1..][..|head|] == s[..|head| + 1][1..];
        }
      }
    }
  }

  lemma {:induction false} FirstPartIgnoresTrailing(s: string)
    ensures Split(TrimSlashes(s), '/')[0] == Split(s, '/')[0]
    decreases |s|
  {
    if s != "" && s[|s| - 1] == '/' {
      var init := s[..|s| - 1];
      assert s == init + ['/'] + "";
      SplitConcat(init, "", '/');
      FirstPartIgnoresTrailing(init);
    }
  }

  lemma {:induction false} TrimKeepsHead(s: string)
    ensures TrimSlashes(s) <= s
    ensures TrimSlashes(s) == "" <==> forall c :: c in s ==> c == '/'
    decreases |s|
  {
    if s == "" {
    } else {
      var init, last := s[..|s| - 1], s[|s| - 1];
      assert s == init + [last];
      assert forall c :: c in s <==> c in init || c == last;
      if last == '/' {
        TrimKeepsHead(init);
      } else {
        assert last in s;
      }
    }
  }

  lemma {:induction false} AllSlashesSplit(s: string)
    requires forall c :: c in s ==> c == '/'
    ensures Split(s, '/')[0] == ""
  {
    if s != "" { assert s[0] in s; }
  }

  /** Over all paths, the trim-and-prefix test is the first-segment rule. */
  lemma {:induction false} MatchIsFirstSegment(routePath: string, name: string)
    requires '/' !in name
    ensures RouteMatchesUsername(routePath, name) <==> FirstSegmentIs(routePath, name)
  {
    var trimmed := TrimSlashes(routePath);
    TrimKeepsHead(routePath);
    if trimmed == "" {
      if routePath != "" {
        assert routePath[0] in routePath;
        assert forall c :: c in routePath[1..] ==> c in routePath;
        AllSlashesSplit(routePath[1..]);
      }
    } else {
      assert trimmed[0] == routePath[0];
      TrimOfTail(routePath);
      FirstPartIgnoresTrailing(routePath[1..]);
      FirstPart(trimmed[1..], name);
      assert trimmed == [trimmed[0]] + trimmed[1..];
      if trimmed[0] == '/' {
        assert trimmed == "/" + name <==> trimmed[1..] == name;
        assert "/" + name + "/" == "/" + (name + "/");
        assert "/" + name + "/" <= trimmed <==> name + "/" <= trimmed[1..] by {
          if "/" + name + "/" <= trimmed {
            assert trimmed[1..][..|name| + 1] == trimmed[..|name| + 2][1..];
          }
        }
      }
    }
  }

  lemma {:induction false} TrimOfTail(s: string)
    requires TrimSlashes(s) != ""
    ensures s != "" && TrimSlashes(s)[1..] == TrimSlashes(s[1..])
    decreases |s|
  {
    if s[|s| - 1] == '/' {
      TrimOfTail(s[..|s| - 1]);
      if |s| > 1 {
        assert s[1..][..|s| - 2] == s[..|s| - 1][1..];
      }
    }
  }

  lemma {:induction false} FirstSegmentOfRoute(name: string, p: string, q: string)
    requires '/' !in name && '/' !in p
    ensures RouteMatchesUsername("/" + p + "/" + q, name) <==> p == name
  {
    var rest := p + ['/'] + q;
    assert "/" + p + "/" + q == "/" + rest;
    assert ("/" + rest)[1..] == rest;
    MatchIsFirstSegment("/" + rest, name);
    SplitConcat(p, q, '/');
    SplitWithout(p, '/');
  }

  lemma {:induction false} TrimTwice(s: string)
    ensures TrimSlashes(TrimSlashes(s)) == TrimSlashes(s)
    decreases |s|
  {
    if s != "" && s[|s| - 1] == '/' {
      TrimTwice(s[..|s| - 1]);
    }
  }

  /** For every request to {api_prefix}/p/q, a regular user is allowed exactly when p is the
      lowercased username. */
  lemma {:induction false} RegularUserOwnsFirstSegment(name: string, apiPrefix: string, p: string, q: string)
    requires '/' !in name && p != "" && '/' !in p
    ensures Allowed(Regular, name, TrimSlashes(apiPrefix) + "/" + p + "/" + q, apiPrefix) <==> p == name
  {
    var prefix, route := TrimSlashes(apiPrefix), "/" + p + "/" + q;
    var path := prefix + "/" + p + "/" + q;
    assert path == prefix + route && path[|prefix|..] == route;
    TrimKeepsHead(route);
    assert p[0] in p && p[0] in route by { assert route[1] == p[0]; }
    TrimTwice(route);
    FirstSegmentOfRoute(name, p, q);
  }

  /** Over all request paths and prefixes: a regular user is allowed exactly when the first segment behind
      the API prefix, or of the whole path if it does not start with it, is the username. */
  lemma {:induction false} AllowedOnAllPaths(name: string, path: string, apiPrefix: string)
    requires '/' !in name
    ensures var prefix := TrimSlashes(apiPrefix);
            Allowed(Regular, name, path, apiPrefix)
            <==> FirstSegmentIs(if prefix <= path then path[|prefix|..] else path, name)
    ensures Allowed(Admin, name, path, apiPrefix)
  {
    var prefix := TrimSlashes(apiPrefix);
    var route := if prefix <= path then path[|prefix|..] else path;
    TrimTwice(route);
    assert TrimSlashes("/") == TrimSlashes("") == "";
    MatchIsFirstSegment(route, name);
  }
}

/** What a route request must look like (app/schemas/dynamic_route.py), the CHECK constraints of
    its table (app/models/dynamic_route.py) and the URL it answers to. */
module RouteSchema {
  import opened Wrappers
  import opened Strings
  import opened DynamicParameters
  import opened SqlSafety

  // ---------- The request validators ----------

  /** A validated write request; `prefix` is already normalised. */
  datatype Payload = Payload(
    prefix: string,
    path: string,
    description: string,
    sql: string,
    params: Definitions,
    dialect: Dialect,
    piiColumn: Option<string>,
    paginated: bool,
    labTest: bool,
    labTestParams: map<string, Value>)

  const PAGE := "page"
  const PAGE_SIZE := "page_size"
  const SIZE_KEY := "__dynamic_page_size"
  const OFFSET_KEY := "__dynamic_offset"

  /** A paginated route must not define the names that pagination uses. */
  predicate ReservedFree(paginated: bool, names: set<string>) {
    paginated ==> PAGE !in names && PAGE_SIZE !in names && SIZE_KEY !in names && OFFSET_KEY !in names
  }

  /** What the schema lets through; no capital is left in the prefix (see `AcceptedSatisfiesChecks`). */
  predicate AcceptedPayload(lib: Library, p: Payload) {
    && ValidPrefix(p.prefix) && p.prefix == AsciiLower(p.prefix)
    && ValidPath(p.path)
    && p.sql != ""
    && DistinctNames(p.params) && AllAccepted(lib, p.params)
    && (forall i :: 0 <= i < |p.params| ==> IsName(p.params[i].0))
    && ReservedFree(p.paginated, Names(p.params))
  }

  const RESERVED_PREFIX := "dynamic-routes"

  /** `value.strip().lower()` */
  function NormalizePrefix(lower: string -> string, raw: string): string {
    lower(Strip(raw))
  }

  /** [a-zA-Z0-9_.-] */
  predicate IsPrefixChar(c: char) {
    'a' <= c <= 'z' || 'A' <= c <= 'Z' || '0' <= c <= '9' || c in "_.-"
  }

  predicate ValidPrefix(prefix: string) {
    && 3 <= |prefix| <= 50
    && (forall c :: c in prefix ==> IsPrefixChar(c))
    && prefix != RESERVED_PREFIX
  }

  predicate ValidPath(path: string) {
    && 1 <= |path| <= 500
    && path == Strip(path)
    && path[0] != '/' && path[|path| - 1] != '/'
    && NoneEmpty(Split(path, '/'))
    && forall segment :: segment in Split(path, '/') ==> segment != "." && segment != ".."
  }

  predicate NoneEmpty(segments: seq<string>) {
    forall segment :: segment in segments ==> segment != ""
  }

  // ---------- The table's constraints ----------

  function AsciiLower(s: string): string {
    seq(|s|, i requires 0 <= i < |s| => if 'A' <= s[i] <= 'Z' then s[i] + 32 as char else s[i])
  }

  predicate NoDoubleSlash(path: string) {
    forall i :: 0 <= i < |path| - 1 ==> !(path[i] == '/' && path[i + 1] == '/')
  }

  predicate IsRelative(path: string) {
    path != "" ==> path[0] != '/' && path[|path| - 1] != '/'
  }

  /** The four CHECK constraints; on the accepted prefix characters lower() is ASCII lower. */
  predicate SatisfiesChecks(prefix: string, path: string) {
    && prefix == AsciiLower(prefix)
    && path != ""
    && IsRelative(path)
    && NoDoubleSlash(path)
  }

  /** Whatever str.lower does to other characters, it leaves no ASCII capital. */
  ghost predicate LowersAscii(lower: string -> string) {
    forall s :: forall c :: c in lower(s) ==> !('A' <= c <= 'Z')
  }

  lemma {:induction false} LaterSegments(path: string)
    ensures NoneEmpty(Split(path, '/')[1..])
       <==> NoDoubleSlash(path) && (path != "" ==> path[|path| - 1] != '/')
    ensures Split(path, '/')[0] == "" <==> path == "" || path[0] == '/'
  {
    if path == "" {
    } else {
      var tail := path[1..];
      var parts := Split(tail, '/');
      LaterSegments(tail);
      assert NoDoubleSlash(path) <==> NoDoubleSlash(tail) && !(tail != "" && path[0] == '/' && tail[0] == '/') by {
        assert forall i :: 1 <= i < |path| ==> path[i] == tail[i - 1];
        if NoDoubleSlash(path) {
          forall i | 0 <= i < |tail| - 1 ensures !(tail[i] == '/' && tail[i + 1] == '/') {
            assert !(path[i + 1] == '/' && path[i + 2] == '/');
          }
        }
      }
      NoneEmptyCons(parts);
      if path[0] == '/' {
        assert Split(path, '/')[1..] == parts;
      } else {
        assert Split(path, '/')[1..] == parts[1..];
      }
    }
  }

  /** Splitting into non-empty segments is the same demand as the table's three path constraints. */
  lemma {:induction false} SegmentsIffChecks(path: string)
    ensures NoneEmpty(Split(path, '/'))
       <==> path != "" && IsRelative(path) && NoDoubleSlash(path)
  {
    LaterSegments(path);
    NoneEmptyCons(Split(path, '/'));
  }

  lemma {:induction false} NoneEmptyCons(parts: seq<string>)
    requires parts != []
    ensures NoneEmpty(parts) <==> parts[0] != "" && NoneEmpty(parts[1..])
  {
    forall p | p in parts ensures p == parts[0] || p in parts[1..] {
      var i :| 0 <= i < |parts| && parts[i] == p;
      if i > 0 { assert parts[1..][i - 1] == p; }
    }
    assert parts[0] in parts && forall p :: p in parts[1..] ==> p in parts;
  }

  /** A path is accepted exactly when it has 1 to 500 characters, no space and no slash at either end, no
      two slashes in a row, and no part between slashes that is one or two dots. */
  lemma {:induction false} AcceptedPathsAreExact(path: string)
    ensures ValidPath(path)
       <==> && 1 <= |path| <= 500 && Trimmed(path) && IsRelative(path) && NoDoubleSlash(path)
            && forall i: nat, j: nat :: IsPart(path, '/', i, j) ==> path[i..j] != "." && path[i..j] != ".."
  {
    StripTrims(path);
    SegmentsIffChecks(path);
    var segments := Split(path, '/');
    if forall segment :: segment in segments ==> segment != "." && segment != ".." {
      forall i: nat, j: nat | IsPart(path, '/', i, j) ensures path[i..j] != "." && path[i..j] != ".." {
        DelimitedIsPart(path, '/', i, j);
      }
    } else {
      var segment :| segment in segments && (segment == "." || segment == "..");
      SplitIsDelimited(path, '/', segment);
    }
  }

  /** No accepted request can violate a constraint of the table. */
  lemma {:induction false} AcceptedSatisfiesChecks(lower: string -> string, raw: string, path: string)
    requires LowersAscii(lower) && ValidPrefix(NormalizePrefix(lower, raw)) && ValidPath(path)
    ensures SatisfiesChecks(NormalizePrefix(lower, raw), path)
  {
    var prefix := NormalizePrefix(lower, raw);
    forall i | 0 <= i < |prefix| ensures AsciiLower(prefix)[i] == prefix[i] {
      assert prefix[i] in lower(Strip(raw));
    }
    SegmentsIffChecks(path);
  }

  // ---------- The URL ----------

  function ApiPath(prefix: string, path: string): string {
    "/" + prefix + "/" + path
  }

  /** Cuts at the first slash. */
  function CutAtSlash(s: string): (string, string) {
    if s == "" then ("", "")
    else if s[0] == '/' then ("", s[1..])
    else var (head, tail) := CutAtSlash(s[1..]); ([s[0]] + head, tail)
  }

  lemma {:induction false} CutAtSlashInverts(head: string, tail: string)
    requires '/' !in head
    ensures CutAtSlash(head + "/" + tail) == (head, tail)
  {
    if head == "" {
    } else {
      assert (head + "/" + tail)[1..] == head[1..] + "/" + tail;
      CutAtSlashInverts(head[1..], tail);
      assert [head[0]] + head[1..] == head;
    }
  }

  /** Spaces around a prefix are ignored, and what is inside is lowered as it is. */
  lemma {:induction false} PaddingIsIgnored(lower: string -> string, raw: string, core: string)
    requires IsPadded(raw, core) && Trimmed(core)
    ensures NormalizePrefix(lower, raw) == lower(core)
  {
    StripIsExact(raw, core);
  }

  /** Two accepted routes never share a URL, and the URL gives prefix and path back. */
  lemma {:induction false} ApiPathIsInjective(p1: string, q1: string, p2: string, q2: string)
    requires ValidPrefix(p1) && ValidPath(q1) && ValidPrefix(p2) && ValidPath(q2)
    ensures CutAtSlash(ApiPath(p1, q1)[1..]) == (p1, q1)
    ensures ApiPath(p1, q1) == ApiPath(p2, q2) <==> p1 == p2 && q1 == q2
  {
    CutAtSlashInverts(p1, q1);
    CutAtSlashInverts(p2, q2);
    assert ApiPath(p1, q1)[1..] == p1 + "/" + q1;
    assert ApiPath(p2, q2)[1..] == p2 + "/" + q2;
  }

  /** The URLs below that of the management endpoints. */
  predicate UnderManagement(url: string) {
    "/dynamic-routes/" <= url
  }

  predicate IsPlainPrefix(prefix: string) {
    forall c :: c in prefix ==> 'a' <= c <= 'z' || '0' <= c <= '9' || c == '_' || c == '.' || c == '-'
  }

  lemma {:induction false} PrefixIsPlain(prefix: string)
    requires ValidPrefix(prefix) && prefix == AsciiLower(prefix)
    ensures IsPlainPrefix(prefix)
  {
    forall c | c in prefix ensures 'a' <= c <= 'z' || '0' <= c <= '9' || c == '_' || c == '.' || c == '-' {
      var i :| 0 <= i < |prefix| && prefix[i] == c;
      assert AsciiLower(prefix)[i] == c;
    }
  }

  /** An accepted route never shadows a management endpoint. */
  lemma {:induction false} AcceptedUrlIsFree(prefix: string, path: string)
    requires ValidPrefix(prefix)
    ensures !UnderManagement(ApiPath(prefix, path))
  {
    var url := ApiPath(prefix, path);
    assert url[1..] == prefix + "/" + path;
    CutAtSlashInverts(prefix, path);
    if "/dynamic-routes/" <= url {
      var rest := url[16..];
      assert url == "/dynamic-routes/" + rest;
      assert url[1..] == "dynamic-routes" + "/" + rest;
      CutAtSlashInverts("dynamic-routes", rest);
    }
  }
}

/** The SQL validator (app/services/query_engine/sql_safety.py). The parser and the printer of the
    SQL library are parameters; the checks around them are written out. */
module SqlSafety {
  import opened Wrappers
  import opened Strings
  import opened PlaceholderRewrite

  datatype Dialect = Trino | Postgres

  /** The kinds of syntax nodes that the checks distinguish; Forbidden stands for the listed
      write, definition, privilege, session, transaction and command nodes. */
  datatype NodeKind = Select | Forbidden | Placeholder | OtherNode

  datatype Node = Node(kind: NodeKind, name: string, children: seq<Node>)

  datatype SqlError = UnsafeCharacter | EmptySql | InvalidSql | InvalidParameter | MultipleStatements | NotAllowed

  /** `isControl` tells whether a character is of a Unicode category C; `parse` yields the statements,
      of which an empty one is None, or the error it is reported as; `parseOne` is the second parse;
      `render` prints a tree without comments. */
  datatype SqlLibrary = SqlLibrary(
    isControl: char -> bool,
    parse: (string, Dialect) -> Result<seq<Option<Node>>, SqlError>,
    parseOne: (string, Dialect) -> Option<Node>,
    render: (Node, Dialect) -> string)

  datatype ValidatedSql = ValidatedSql(canonicalSql: string, parameterNames: set<string>)

  /** All nodes of a tree, parents first. */
  function Walk(n: Node): seq<Node> {
    [n] + WalkAll(n.children)
  }

  function WalkAll(ns: seq<Node>): seq<Node> {
    if ns == [] then [] else Walk(ns[0]) + WalkAll(ns[1..])
  }

  /** m is n or lies anywhere below it. */
  predicate Within(m: Node, n: Node)
    decreases n
  {
    m == n || exists c :: c in n.children && Within(m, c)
  }

  /** The walk visits exactly the nodes of the tree, at every depth. */
  lemma {:induction false} WalkVisitsAll(n: Node, m: Node)
    ensures m in Walk(n) <==> Within(m, n)
    decreases n, 1
  {
    WalkAllVisitsAll(n, n.children, m);
  }

  lemma {:induction false} WalkAllVisitsAll(parent: Node, ns: seq<Node>, m: Node)
    requires forall c :: c in ns ==> c in parent.children
    ensures m in WalkAll(ns) <==> exists c :: c in ns && Within(m, c)
    decreases parent, 0, |ns|
  {
    if ns == [] {
    } else {
      assert ns[0] in ns;
      WalkVisitsAll(ns[0], m);
      WalkAllVisitsAll(parent, ns[1..], m);
      assert forall c :: c in ns <==> c == ns[0] || c in ns[1..];
    }
  }

  function Placeholders(n: Node): set<string> {
    set m | m in Walk(n) && m.kind.Placeholder? :: m.name
  }

  predicate SelectOnly(n: Node) {
    n.kind.Select? && forall m :: m in Walk(n) ==> !m.kind.Forbidden?
  }

  predicate SafeCharacters(lib: SqlLibrary, sql: string) {
    forall c :: c in sql ==> c in ['\t', '\n', '\r'] || !lib.isControl(c)
  }

  function Canonical(lib: SqlLibrary, n: Node, dialect: Dialect): string {
    if dialect.Postgres? then Rewrite(lib.render(n, dialect)) else lib.render(n, dialect)
  }

  /** The last checks: the canonical text must itself parse to one SELECT without a forbidden node. */
  function CheckCanonical(lib: SqlLibrary, canonical: string, dialect: Dialect): Result<ValidatedSql, SqlError> {
    match lib.parseOne(canonical, dialect)
    case None => Failure(InvalidSql)
    case Some(tree) =>
      if !SelectOnly(tree) then Failure(NotAllowed)
      else if exists name :: name in Placeholders(tree) && !IsName(name) then Failure(InvalidParameter)
      else Success(ValidatedSql(canonical, Placeholders(tree)))
  }

  function Validated(lib: SqlLibrary, sql: string, dialect: Dialect): Result<ValidatedSql, SqlError> {
    if !SafeCharacters(lib, sql) then Failure(UnsafeCharacter)
    else if Strip(sql) == "" then Failure(EmptySql)
    else
      match lib.parse(sql, dialect)
      case Failure(error) => Failure(error)
      case Success(statements) =>
        if |statements| != 1 || statements[0].None? then Failure(MultipleStatements)
        else if !SelectOnly(statements[0].value) then Failure(NotAllowed)
        else CheckCanonical(lib, Canonical(lib, statements[0].value, dialect), dialect)
  }

  method ValidateCharacters(lib: SqlLibrary, sql: string) returns (ok: bool)
    ensures ok <==> SafeCharacters(lib, sql)
  {
    for i := 0 to |sql|
      invariant forall k :: 0 <= k < i ==> sql[k] in ['\t', '\n', '\r'] || !lib.isControl(sql[k])
    {
      if sql[i] in ['\t', '\n', '\r'] {
        continue;
      }
      if lib.isControl(sql[i]) {
        assert sql[i] in sql;
        return false;
      }
    }
    return true;
  }

  /** Names are collected one by one and the first bad one stops the walk. */
  method CollectPlaceholders(tree: Node) returns (result: Option<set<string>>)
    ensures result.Some? <==> forall name :: name in Placeholders(tree) ==> IsName(name)
    ensures result.Some? ==> result.value == Placeholders(tree)
  {
    var nodes := Walk(tree);
    var names: set<string> := {};
    for i := 0 to |nodes|
      invariant names == set m | m in nodes[..i] && m.kind.Placeholder? :: m.name
      invariant forall name :: name in names ==> IsName(name)
    {
      assert nodes[..i + 1] == nodes[..i] + [nodes[i]];
      if nodes[i].kind.Placeholder? {
        assert nodes[i].name in Placeholders(tree) by { assert nodes[i] in nodes; }
        if !IsName(nodes[i].name) {
          return None;
        }
        names := names + {nodes[i].name};
      }
    }
    assert nodes[..|nodes|] == nodes;
    return Some(names);
  }

  method Validate(lib: SqlLibrary, sql: string, dialect: Dialect) returns (result: Result<ValidatedSql, SqlError>)
    ensures result == Validated(lib, sql, dialect)
  {
    var safe := ValidateCharacters(lib, sql);
    if !safe {
      return Failure(UnsafeCharacter);
    }
    if Strip(sql) == "" {
      return Failure(EmptySql);
    }
    var statements := lib.parse(sql, dialect);
    if statements.Failure? {
      return Failure(statements.error);
    }
    if |statements.value| != 1 || statements.value[0].None? {
      return Failure(MultipleStatements);
    }
    var tree := statements.value[0].value;
    if !SelectOnly(tree) {
      return Failure(NotAllowed);
    }
    var canonical := lib.render(tree, dialect);
    if dialect.Postgres? {
      canonical := Rewrite(canonical);
    }
    var reparsed := lib.parseOne(canonical, dialect);
    if reparsed.None? {
      return Failure(InvalidSql);
    }
    if !SelectOnly(reparsed.value) {
      return Failure(NotAllowed);
    }
    var names := CollectPlaceholders(reparsed.value);
    if names.None? {
      return Failure(InvalidParameter);
    }
    return Success(ValidatedSql(canonical, names.value));
  }

  // ---------- What validation decides ----------

  /** No control character but tab, line feed and carriage return. */
  ghost predicate IsSafeText(lib: SqlLibrary, sql: string) {
    forall c :: c in sql && lib.isControl(c) ==> c == '\t' || c == '\n' || c == '\r'
  }

  /** A SELECT at the root and no listed node at any depth. */
  ghost predicate IsSelectTree(n: Node) {
    n.kind.Select? && forall m :: Within(m, n) ==> !m.kind.Forbidden?
  }

  lemma {:induction false} SelectOnlyIsSelectTree(n: Node)
    ensures SelectOnly(n) <==> IsSelectTree(n)
  {
    forall m ensures m in Walk(n) <==> Within(m, n) {
      WalkVisitsAll(n, m);
    }
  }

  lemma {:induction false} PlaceholdersAreNames(n: Node, name: string)
    ensures name in Placeholders(n) <==> exists m :: Within(m, n) && m.kind.Placeholder? && m.name == name
  {
    forall m ensures m in Walk(n) <==> Within(m, n) {
      WalkVisitsAll(n, m);
    }
  }

  /** The text parses to one statement, which is this tree. */
  predicate IsOneStatement(lib: SqlLibrary, sql: string, dialect: Dialect, tree: Node) {
    lib.parse(sql, dialect) == Success([Some(tree)])
  }

  /** The names are those of the placeholders in the tree, all of them identifiers. */
  ghost predicate HasPlaceholders(tree: Node, names: set<string>) {
    && (forall name :: name in names <==> exists m :: Within(m, tree) && m.kind.Placeholder? && m.name == name)
    && (forall name :: name in names ==> IsName(name))
  }

  /** The text is a safe one that is not blank and parses to one SELECT; its canonical text, with the
      pyformat placeholders of PostgreSQL rewritten, parses to a SELECT as well, with these names. */
  ghost predicate IsValid(lib: SqlLibrary, sql: string, dialect: Dialect, v: ValidatedSql) {
    && IsSafeText(lib, sql) && !AllSpaces(sql)
    && (exists tree ::
          && IsOneStatement(lib, sql, dialect, tree) && IsSelectTree(tree)
          && v.canonicalSql == (if dialect == Postgres then Rewrite(lib.render(tree, dialect))
                                else lib.render(tree, dialect)))
    && lib.parseOne(v.canonicalSql, dialect).Some?
    && IsSelectTree(lib.parseOne(v.canonicalSql, dialect).value)
    && HasPlaceholders(lib.parseOne(v.canonicalSql, dialect).value, v.parameterNames)
  }

  lemma {:induction false} LastChecksAreExact(lib: SqlLibrary, canonical: string, dialect: Dialect, v: ValidatedSql)
    ensures CheckCanonical(lib, canonical, dialect) == Success(v)
       <==> && v.canonicalSql == canonical && lib.parseOne(canonical, dialect).Some?
            && IsSelectTree(lib.parseOne(canonical, dialect).value)
            && HasPlaceholders(lib.parseOne(canonical, dialect).value, v.parameterNames)
  {
    if lib.parseOne(canonical, dialect).Some? {
      var tree := lib.parseOne(canonical, dialect).value;
      SelectOnlyIsSelectTree(tree);
      forall name
        ensures name in Placeholders(tree) <==> exists m :: Within(m, tree) && m.kind.Placeholder? && m.name == name
      {
        PlaceholdersAreNames(tree, name);
      }
      if HasPlaceholders(tree, v.parameterNames) {
        assert v.parameterNames == Placeholders(tree);
      }
    }
  }

  /** Validation yields exactly this canonical text and these names, and otherwise fails. */
  lemma {:induction false} ValidationIsExact(lib: SqlLibrary, sql: string, dialect: Dialect, v: ValidatedSql)
    ensures Validated(lib, sql, dialect) == Success(v) <==> IsValid(lib, sql, dialect, v)
  {
    StripRemovesPadding(sql);
    var parsed := lib.parse(sql, dialect);
    if parsed.Success? && |parsed.value| == 1 && parsed.value[0].Some? {
      var tree := parsed.value[0].value;
      assert parsed.value == [Some(tree)];
      SelectOnlyIsSelectTree(tree);
      LastChecksAreExact(lib, Canonical(lib, tree, dialect), dialect, v);
      assert IsOneStatement(lib, sql, dialect, tree);
    }
  }

  /** Why the canonical text of a tree is refused, if it is. */
  ghost function CanonicalError(lib: SqlLibrary, tree: Node, dialect: Dialect): SqlError {
    var printed := lib.render(tree, dialect);
    match lib.parseOne(if dialect == Postgres then Rewrite(printed) else printed, dialect)
    case None => InvalidSql
    case Some(again) => if !IsSelectTree(again) then NotAllowed else InvalidParameter
  }

  /** The first check that a text does not pass decides the error. */
  lemma {:induction false} FirstCheckDecides(lib: SqlLibrary, sql: string, dialect: Dialect)
    ensures var result := Validated(lib, sql, dialect);
            && (!IsSafeText(lib, sql) ==> result == Failure(UnsafeCharacter))
            && (IsSafeText(lib, sql) && AllSpaces(sql) ==> result == Failure(EmptySql))
            && (IsSafeText(lib, sql) && !AllSpaces(sql) ==>
                  match lib.parse(sql, dialect)
                  case Failure(error) => result == Failure(error)
                  case Success(statements) =>
                    && ((forall tree :: statements != [Some(tree)]) ==> result == Failure(MultipleStatements))
                    && (forall tree :: statements == [Some(tree)] && !IsSelectTree(tree) ==>
                          result == Failure(NotAllowed))
                    && (forall tree :: statements == [Some(tree)] && IsSelectTree(tree) && result.Failure? ==>
                          result.error == CanonicalError(lib, tree, dialect)))
  {
    StripRemovesPadding(sql);
    var parsed := lib.parse(sql, dialect);
    if parsed.Success? && |parsed.value| == 1 && parsed.value[0].Some? {
      var tree := parsed.value[0].value;
      assert parsed.value == [Some(tree)];
      SelectOnlyIsSelectTree(tree);
      var again := lib.parseOne(Canonical(lib, tree, dialect), dialect);
      if again.Some? { SelectOnlyIsSelectTree(again.value); }
    }
  }

  /** What is accepted: the tree that the database gets has no forbidden node at any depth, its
      placeholders are the reported names, all identifiers, and a PostgreSQL text holds no pyformat
      placeholder any more. */
  lemma {:induction false} AcceptedSqlHasNoListedNode(lib: SqlLibrary, sql: string, dialect: Dialect)
    requires Validated(lib, sql, dialect).Success?
    ensures var v := Validated(lib, sql, dialect).value;
            && lib.parseOne(v.canonicalSql, dialect).Some?
            && lib.parseOne(v.canonicalSql, dialect).value.kind.Select?
            && (forall m :: Within(m, lib.parseOne(v.canonicalSql, dialect).value) ==> !m.kind.Forbidden?)
            && v.parameterNames == Placeholders(lib.parseOne(v.canonicalSql, dialect).value)
            && (forall name :: name in v.parameterNames ==> IsName(name))
            && (dialect.Postgres? ==> Clean(v.canonicalSql))
  {
    var tree := lib.parseOne(Validated(lib, sql, dialect).value.canonicalSql, dialect).value;
    forall m | Within(m, tree) ensures !m.kind.Forbidden? {
      WalkVisitsAll(tree, m);
    }
    if dialect.Postgres? {
      RewriteIsClean(lib.render(lib.parse(sql, dialect).value[0].value, dialect));
    }
  }

  /** The canonical text passes the first checks again and prints as itself. */
  predicate Stable(lib: SqlLibrary, canonical: string, dialect: Dialect) {
    && SafeCharacters(lib, canonical) && Strip(canonical) != ""
    && lib.parse(canonical, dialect).Success?
    && |lib.parse(canonical, dialect).value| == 1
    && lib.parse(canonical, dialect).value[0].Some?
    && SelectOnly(lib.parse(canonical, dialect).value[0].value)
    && Canonical(lib, lib.parse(canonical, dialect).value[0].value, dialect) == canonical
  }

  /** Validating a text that passed the last checks gives the same text and names again exactly when
      the printer is stable on it; every canonical text is such a text. This is the one assumption
      that execution needs of the SQL library. */
  lemma {:induction false} RevalidationIffStable(lib: SqlLibrary, sql: string, v: ValidatedSql, dialect: Dialect)
    ensures Validated(lib, sql, dialect) == Success(v) ==> CheckCanonical(lib, v.canonicalSql, dialect) == Success(v)
    ensures CheckCanonical(lib, v.canonicalSql, dialect) == Success(v) ==>
              (Validated(lib, v.canonicalSql, dialect) == Success(v) <==> Stable(lib, v.canonicalSql, dialect))
  {
  }
}

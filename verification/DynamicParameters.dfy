/** Typed parameters of dynamic routes (app/services/query_engine/dynamic_parameters.py). */
module DynamicParameters {
  import opened Wrappers
  import opened Strings

  datatype Float = Finite(r: real) | NonFinite

  /** A Python value as the casts tell them apart. */
  datatype Value =
    | Text(s: string)
    | Int(n: int)
    | FloatValue(f: Float)
    | Bool(b: bool)
    | Date(day: int)
    | DateTime(instant: int)
    | List(items: seq<Value>)
    | Null
    | Other

  datatype Kind = StringKind | IntegerKind | FloatKind | BooleanKind | DateKind | DateTimeKind | StringListKind

  /** The conversions of the language: int and float of a text, float of an int (None when it
      overflows), casefold, the text of a float, and the ISO formats of dates in both directions. */
  datatype Library = Library(
    intFromText: string -> Option<int>,
    floatFromText: string -> Option<Float>,
    floatFromInt: int -> Option<real>,
    casefold: string -> string,
    floatText: real -> string,
    dateFromIso: string -> Option<int>,
    dateTimeFromIso: string -> Option<int>,
    isoDate: int -> string,
    isoDateTime: int -> string)

  /** A cast succeeds, is rejected with the parameter error, or lets an OverflowError escape. */
  datatype Outcome = Cast(value: Value) | Invalid | Overflows

  // ---------- Lists of strings ----------

  predicate AllTexts(values: seq<Value>) {
    forall v :: v in values ==> v.Text?
  }

  function Texts(values: seq<Value>): (texts: seq<string>)
    requires AllTexts(values)
    ensures |texts| == |values|
  {
    seq(|values|, i requires 0 <= i < |values| => assert values[i] in values; values[i].s)
  }

  function Listed(items: seq<string>): (v: Value)
    ensures v.List? && AllTexts(v.items) && Texts(v.items) == items
  {
    List(seq(|items|, i requires 0 <= i < |items| => Text(items[i])))
  }

  function StripAll(parts: seq<string>): (stripped: seq<string>)
    ensures |stripped| == |parts|
    ensures forall i :: 0 <= i < |parts| ==> stripped[i] == Strip(parts[i])
  {
    seq(|parts|, i requires 0 <= i < |parts| => Strip(parts[i]))
  }

  /** The stripped comma-separated parts of all texts, in order. */
  function Items(texts: seq<string>): seq<string> {
    if texts == [] then [] else StripAll(Split(texts[0], ',')) + Items(texts[1..])
  }

  function CastStringList(values: seq<Value>): Outcome {
    if !AllTexts(values) then Invalid
    else
      var items := Items(Texts(values));
      if items == [] || "" in items then Invalid else Cast(Listed(items))
  }

  lemma {:induction false} ItemsConcat(a: seq<string>, b: seq<string>)
    ensures Items(a + b) == Items(a) + Items(b)
  {
    if a == [] {
      assert a + b == b;
    } else {
      assert (a + b)[1..] == a[1..] + b;
      ItemsConcat(a[1..], b);
    }
  }

  method CastStringListLoop(values: seq<Value>) returns (outcome: Outcome)
    ensures outcome == CastStringList(values)
  {
    var result: seq<string> := [];
    for i := 0 to |values|
      invariant AllTexts(values[..i])
      invariant result == Items(Texts(values[..i]))
    {
      if !values[i].Text? {
        return Invalid;
      }
      assert values[..i + 1] == values[..i] + [values[i]];
      assert Texts(values[..i + 1]) == Texts(values[..i]) + [values[i].s];
      ItemsConcat(Texts(values[..i]), [values[i].s]);
      assert [values[i].s][1..] == [];
      result := result + StripAll(Split(values[i].s, ','));
    }
    assert values[..|values|] == values;
    if result == [] || "" in result {
      return Invalid;
    }
    return Cast(Listed(result));
  }

  /** Non-empty, trimmed and comma-free: what every item of a cast list is. */
  predicate IsItem(s: string) {
    s != "" && Trimmed(s) && ',' !in s
  }

  predicate IsItemList(v: Value) {
    v.List? && v.items != [] && forall i :: i in v.items ==> i.Text? && IsItem(i.s)
  }

  lemma {:induction false} ItemsAreStripped(texts: seq<string>, item: string)
    requires item in Items(texts)
    ensures Trimmed(item) && ',' !in item
  {
    var parts := Split(texts[0], ',');
    if item in StripAll(parts) {
      var i :| 0 <= i < |parts| && StripAll(parts)[i] == item;
      SplitParts(texts[0], ',');
      assert parts[i] in parts;
      StripTrims(parts[i]);
    } else {
      ItemsAreStripped(texts[1..], item);
    }
  }

  lemma {:induction false} ItemsOfItems(items: seq<string>)
    requires forall s :: s in items ==> IsItem(s)
    ensures Items(items) == items
  {
    if items == [] {
    } else {
      assert items[0] in items;
      SplitWithout(items[0], ',');
      StripTrims(items[0]);
      assert StripAll([items[0]]) == [items[0]];
      ItemsOfItems(items[1..]);
    }
  }

  /** Repeating a parameter or joining its values with commas makes no difference. */
  lemma {:induction false} ItemsOfJoin(texts: seq<string>)
    requires texts != []
    ensures Items([Join(texts, ',')]) == Items(texts)
  {
    var joined := Join(texts, ',');
    assert [joined][1..] == [];
    assert Items([joined]) == StripAll(Split(joined, ','));
    if |texts| == 1 {
      assert texts[1..] == [];
    } else {
      var rest := Join(texts[1..], ',');
      ItemsOfJoin(texts[1..]);
      assert [rest][1..] == [];
      assert Items([rest]) == StripAll(Split(rest, ','));
      SplitConcat(texts[0], rest, ',');
      assert StripAll(Split(texts[0], ',') + Split(rest, ','))
          == StripAll(Split(texts[0], ',')) + StripAll(Split(rest, ','));
    }
  }

  /** A list parameter casts alike however its values are spread over repeats. */
  lemma {:induction false} StringListIgnoresRepeats(texts: seq<string>)
    ensures CastStringList(Listed(texts).items) == CastStringList([Text(Join(texts, ','))])
  {
    var joined := [Text(Join(texts, ','))];
    assert Texts(joined) == [Join(texts, ',')];
    if texts == [] {
      SplitWithout("", ',');
      StripTrims("");
      assert Items([""]) == StripAll([""]) + Items([""][1..]);
      assert StripAll([""])[0] == "";
      assert "" in Items([""]);
    } else {
      ItemsOfJoin(texts);
    }
  }

  /** Casting a list of strings yields item lists only, and exactly those are left unchanged,
      both as repeats and joined with commas. */
  lemma {:induction false} StringListFixedPoints(values: seq<Value>)
    ensures CastStringList(values).Cast? ==> IsItemList(CastStringList(values).value)
    ensures IsItemList(List(values)) <==> CastStringList(values) == Cast(List(values))
    ensures IsItemList(List(values)) ==> CastStringList([Text(Join(Texts(values), ','))]) == Cast(List(values))
  {
    if CastStringList(values).Cast? {
      var items := Items(Texts(values));
      var cast := Listed(items);
      forall v | v in cast.items ensures v.Text? && IsItem(v.s) {
        var i :| 0 <= i < |items| && cast.items[i] == v;
        assert Texts(cast.items)[i] == v.s;
        ItemsAreStripped(Texts(values), items[i]);
      }
      assert |cast.items| == |items|;
    }
    if IsItemList(List(values)) {
      var texts := Texts(values);
      forall s | s in texts ensures IsItem(s) {
        var i :| 0 <= i < |texts| && texts[i] == s;
        assert values[i] in values;
      }
      ItemsOfItems(texts);
      assert Listed(texts).items == values by {
        forall i | 0 <= i < |values| ensures Listed(texts).items[i] == values[i] {
          assert values[i] in values && Listed(texts).items[i] in Listed(texts).items;
          assert Texts(Listed(texts).items)[i] == texts[i];
        }
      }
      StringListIgnoresRepeats(texts);
    }
  }

  // ---------- Casting one value ----------

  /** [+-]?[0-9]+ */
  predicate IsIntegerText(s: string) {
    var digits := if s != "" && (s[0] == '+' || s[0] == '-') then s[1..] else s;
    digits != "" && forall c :: c in digits ==> '0' <= c <= '9'
  }

  function OrInvalid<T>(o: Option<T>, wrap: T -> Value): Outcome {
    match o case Some(x) => Cast(wrap(x)) case None => Invalid
  }

  function CastValue(lib: Library, kind: Kind, value: Value): Outcome {
    match kind
    case StringKind => if value.Text? then Cast(value) else Invalid
    case IntegerKind =>
      if value.Int? then Cast(value)
      else if value.Text? && IsIntegerText(value.s) then OrInvalid(lib.intFromText(value.s), n => Int(n))
      else Invalid
    case FloatKind =>
      if value.Int? then
        match lib.floatFromInt(value.n) case Some(r) => Cast(FloatValue(Finite(r))) case None => Overflows
      else if value.FloatValue? then (if value.f.Finite? then Cast(value) else Invalid)
      else if value.Text? then
        match lib.floatFromText(value.s) case Some(Finite(r)) => Cast(FloatValue(Finite(r))) case _ => Invalid
      else Invalid
    case BooleanKind =>
      if value.Bool? then Cast(value)
      else if value.Text? then
        var normalized := lib.casefold(value.s);
        if normalized in ["true", "1"] then Cast(Bool(true))
        else if normalized in ["false", "0"] then Cast(Bool(false))
        else Invalid
      else Invalid
    case DateKind =>
      if value.Date? then Cast(value)
      else if value.Text? then OrInvalid(lib.dateFromIso(value.s), d => Date(d))
      else Invalid
    case DateTimeKind =>
      if value.DateTime? then Cast(value)
      else if value.Text? then OrInvalid(lib.dateTimeFromIso(value.s), t => DateTime(t))
      else Invalid
    case StringListKind =>
      if value.List? then CastStringList(value.items) else Invalid
  }

  /** The values that a parameter of this kind can be bound to. */
  predicate HasKind(kind: Kind, value: Value) {
    match kind
    case StringKind => value.Text?
    case IntegerKind => value.Int?
    case FloatKind => value.FloatValue? && value.f.Finite?
    case BooleanKind => value.Bool?
    case DateKind => value.Date?
    case DateTimeKind => value.DateTime?
    case StringListKind => IsItemList(value)
  }

  /** For every kind, a cast yields a value of the kind, and the values of the kind are exactly
      the fixed points of the cast; so casting twice is casting once. */
  lemma {:induction false} CastIsProjection(lib: Library, kind: Kind, value: Value)
    ensures CastValue(lib, kind, value).Cast? ==> HasKind(kind, CastValue(lib, kind, value).value)
    ensures HasKind(kind, value) <==> CastValue(lib, kind, value) == Cast(value)
  {
    if kind.StringListKind? && value.List? {
      StringListFixedPoints(value.items);
    }
  }

  // ---------- What the casts read ----------

  predicate AllDigits(s: string) {
    s != "" && forall i :: 0 <= i < |s| ==> s[i] in "0123456789"
  }

  /** Digits, or a sign and digits. */
  predicate IsSignedDigits(s: string) {
    AllDigits(s) || (s != "" && s[0] in "+-" && AllDigits(s[1..]))
  }

  lemma {:induction false} IntegerTextIsSignedDigits(s: string)
    ensures IsIntegerText(s) <==> IsSignedDigits(s)
  {
    var digits := if s != "" && (s[0] == '+' || s[0] == '-') then s[1..] else s;
    forall c ensures c in "0123456789" <==> '0' <= c <= '9' {
      DigitCharacters(c);
    }
    assert AllDigits(digits) <==> digits != "" && forall c :: c in digits ==> '0' <= c <= '9' by {
      if digits != "" && forall c :: c in digits ==> '0' <= c <= '9' {
        forall i | 0 <= i < |digits| ensures digits[i] in "0123456789" {
          assert digits[i] in digits;
        }
      }
    }
    assert s != "" && s[0] in "+-" ==> s[0] == '+' || s[0] == '-';
    if s != "" && (s[0] == '+' || s[0] == '-') {
      assert s[0] in "+-" by { assert "+-"[0] == '+' && "+-"[1] == '-'; }
      assert s[0] !in "0123456789" by { DigitCharacters(s[0]); }
    }
  }

  lemma {:induction false} DigitCharacters(c: char)
    ensures c in "0123456789" <==> '0' <= c <= '9'
  {
    var digits := "0123456789";
    assert |digits| == 10 && forall i :: 0 <= i < 10 ==> digits[i] == '0' + i as char;
    if '0' <= c <= '9' {
      assert digits[(c - '0') as int] == c;
    }
  }

  /** The raw parts are the texts, cut at every comma. */
  predicate IsCut(texts: seq<string>, raw: seq<string>) {
    raw != [] && (forall part :: part in raw ==> ',' !in part) && Join(raw, ',') == Join(texts, ',')
  }

  /** Each item is its raw part without the spaces around it, and none is empty. */
  predicate AreItems(raw: seq<string>, items: seq<Value>) {
    && |items| == |raw|
    && forall i :: 0 <= i < |raw| ==> items[i] == Text(Strip(raw[i])) && Strip(raw[i]) != ""
  }

  /** The list holds the comma-separated parts of the values, in order. */
  ghost predicate ReadsList(values: seq<Value>, result: Value) {
    AllTexts(values) && result.List? && exists raw :: IsCut(Texts(values), raw) && AreItems(raw, result.items)
  }

  /** A value denotes a value of a kind: itself, or what its text stands for; an int also a float. */
  ghost predicate Reads(lib: Library, kind: Kind, value: Value, result: Value) {
    match kind
    case StringKind => value.Text? && result == value
    case IntegerKind =>
      result.Int? && (value == result
                      || (value.Text? && IsSignedDigits(value.s) && lib.intFromText(value.s) == Some(result.n)))
    case FloatKind =>
      && result.FloatValue? && result.f.Finite?
      && (value == result
          || (value.Int? && lib.floatFromInt(value.n) == Some(result.f.r))
          || (value.Text? && lib.floatFromText(value.s) == Some(result.f)))
    case BooleanKind =>
      && result.Bool?
      && (value == result
          || (value.Text? && lib.casefold(value.s) in (if result.b then {"true", "1"} else {"false", "0"})))
    case DateKind =>
      result.Date? && (value == result || (value.Text? && lib.dateFromIso(value.s) == Some(result.day)))
    case DateTimeKind =>
      result.DateTime? && (value == result || (value.Text? && lib.dateTimeFromIso(value.s) == Some(result.instant)))
    case StringListKind => value.List? && ReadsList(value.items, result)
  }

  lemma {:induction false} JoinedCastsAlike(values: seq<Value>)
    requires AllTexts(values)
    ensures CastStringList(values) == CastStringList([Text(Join(Texts(values), ','))])
  {
    var texts := Texts(values);
    assert Listed(texts).items == values by {
      forall i | 0 <= i < |values| ensures Listed(texts).items[i] == values[i] {
        assert values[i] in values && Listed(texts).items[i] in Listed(texts).items;
        assert Texts(Listed(texts).items)[i] == texts[i];
      }
    }
    StringListIgnoresRepeats(texts);
  }

  lemma {:induction false} CutItems(text: string)
    ensures Items([text]) == StripAll(Split(text, ','))
  {
    assert [text][1..] == [];
  }

  lemma {:induction false} ListedAreItems(raw: seq<string>, result: Value)
    requires result.List?
    ensures Listed(StripAll(raw)) == result && "" !in StripAll(raw) <==> AreItems(raw, result.items)
  {
    var stripped := StripAll(raw);
    var listed := Listed(stripped);
    assert |listed.items| == |raw|;
    forall i | 0 <= i < |raw| ensures listed.items[i] == Text(Strip(raw[i])) {
      assert listed.items[i] in listed.items;
      assert Texts(listed.items)[i] == stripped[i];
    }
    if AreItems(raw, result.items) {
      assert listed.items == result.items;
    }
    if "" !in stripped {
      assert forall i :: 0 <= i < |raw| ==> stripped[i] in stripped;
    }
  }

  /** A list cast yields exactly the stripped parts between commas, and fails on an empty one. */
  lemma {:induction false} ListCastIsExact(values: seq<Value>, result: Value)
    ensures CastStringList(values) == Cast(result) <==> ReadsList(values, result)
  {
    if AllTexts(values) {
      var joined := Join(Texts(values), ',');
      var raw := Split(joined, ',');
      JoinedCastsAlike(values);
      assert Texts([Text(joined)]) == [joined];
      CutItems(joined);
      SplitParts(joined, ',');
      assert IsCut(Texts(values), raw);
      forall other | IsCut(Texts(values), other) ensures other == raw {
        SplitOfJoin(other, ',');
      }
      if result.List? { ListedAreItems(raw, result); }
    }
  }

  /** For every kind, a cast succeeds exactly with what the value denotes. */
  lemma {:induction false} CastIsWhatIsRead(lib: Library, kind: Kind, value: Value, result: Value)
    ensures CastValue(lib, kind, value) == Cast(result) <==> Reads(lib, kind, value, result)
  {
    if value.Text? { IntegerTextIsSignedDigits(value.s); }
    if value.List? { ListCastIsExact(value.items, result); }
  }

  // ---------- Definitions ----------

  /** `default` is Null when the definition has none. */
  datatype Definition = Definition(kind: Kind, required: bool, default: Value, description: string)

  /** The validator accepts the definition, rejects it, or lets an OverflowError escape. */
  datatype DefaultCheck = DefaultAccepted | DefaultRejected | DefaultOverflows

  function ValidateDefault(lib: Library, d: Definition): DefaultCheck {
    if d.default.Null? then DefaultAccepted
    else if d.required then DefaultRejected
    else
      match CastValue(lib, d.kind, d.default)
      case Cast(_) => DefaultAccepted
      case Invalid => DefaultRejected
      case Overflows => DefaultOverflows
  }

  predicate Accepted(lib: Library, d: Definition) {
    ValidateDefault(lib, d).DefaultAccepted?
  }

  /** Loading definitions checks them in order and stops at the first that is not accepted. */
  function CheckDefinitions(lib: Library, defs: Definitions, i: nat): DefaultCheck
    requires i <= |defs|
    decreases |defs| - i
  {
    if i == |defs| then DefaultAccepted
    else if !Accepted(lib, defs[i].1) then ValidateDefault(lib, defs[i].1)
    else CheckDefinitions(lib, defs, i + 1)
  }

  predicate FirstNotAccepted(lib: Library, defs: Definitions, i: nat) {
    i < |defs| && !Accepted(lib, defs[i].1) && forall j :: 0 <= j < i ==> Accepted(lib, defs[j].1)
  }

  /** The outcome is that of the first definition that is not accepted. */
  lemma {:induction false} CheckIsFirst(lib: Library, defs: Definitions, i: nat)
    requires i <= |defs| && forall j :: 0 <= j < i ==> Accepted(lib, defs[j].1)
    ensures CheckDefinitions(lib, defs, i).DefaultAccepted? <==> AllAccepted(lib, defs)
    ensures forall k :: 0 <= k < |defs| && FirstNotAccepted(lib, defs, k) ==>
              CheckDefinitions(lib, defs, i) == ValidateDefault(lib, defs[k].1)
    ensures !AllAccepted(lib, defs) ==> exists k :: 0 <= k < |defs| && FirstNotAccepted(lib, defs, k)
    decreases |defs| - i
  {
    if i == |defs| {
    } else if Accepted(lib, defs[i].1) {
      CheckIsFirst(lib, defs, i + 1);
    } else {
      assert FirstNotAccepted(lib, defs, i);
    }
  }

  /** A default is accepted exactly when there is none, or it is optional and denotes a value of the
      type; it escapes exactly as an int that is too large for an optional float. */
  lemma {:induction false} DefaultCheckIsExact(lib: Library, d: Definition)
    ensures Accepted(lib, d) <==>
              d.default.Null?
              || (!d.required && CastValue(lib, d.kind, d.default).Cast?
                  && HasKind(d.kind, CastValue(lib, d.kind, d.default).value))
    ensures ValidateDefault(lib, d).DefaultOverflows? <==>
              !d.required && d.kind.FloatKind? && d.default.Int? && lib.floatFromInt(d.default.n).None?
  {
    CastIsProjection(lib, d.kind, d.default);
    OverflowIsLargeInt(lib, d.kind, d.default);
  }

  /** The one cast that raises OverflowError: float() of an int that no float can hold. */
  lemma {:induction false} OverflowIsLargeInt(lib: Library, kind: Kind, value: Value)
    ensures CastValue(lib, kind, value).Overflows? <==>
              kind.FloatKind? && value.Int? && lib.floatFromInt(value.n).None?
  {
  }

  type Definitions = seq<(string, Definition)>

  function Names(defs: Definitions): set<string> {
    set i | 0 <= i < |defs| :: defs[i].0
  }

  predicate DistinctNames(defs: Definitions) {
    forall i, j :: 0 <= i < j < |defs| ==> defs[i].0 != defs[j].0
  }

  predicate AllAccepted(lib: Library, defs: Definitions) {
    forall i :: 0 <= i < |defs| ==> Accepted(lib, defs[i].1)
  }

  /** The values written to the JSON column: dates become ISO text. */
  function Stored(lib: Library, v: Value): Value {
    match v
    case Date(d) => Text(lib.isoDate(d))
    case DateTime(t) => Text(lib.isoDateTime(t))
    case _ => v
  }

  /** The definitions as they are written to the JSON column and read back. */
  function StoredDefinitions(lib: Library, defs: Definitions): (stored: Definitions)
    ensures |stored| == |defs|
    ensures forall i :: 0 <= i < |defs| ==>
              stored[i] == (defs[i].0, defs[i].1.(default := Stored(lib, defs[i].1.default)))
  {
    seq(|defs|, i requires 0 <= i < |defs| => (defs[i].0, defs[i].1.(default := Stored(lib, defs[i].1.default))))
  }

  /** The dict as a set of its items; dicts are equal whatever the order of their keys. */
  function Entries(defs: Definitions): set<(string, Definition)> {
    set i | 0 <= i < |defs| :: defs[i]
  }

  lemma {:induction false} EntriesFixNames(a: Definitions, b: Definitions)
    requires Entries(a) == Entries(b)
    ensures Names(a) == Names(b)
  {
    forall n ensures n in Names(a) <==> n in Names(b) {
      if n in Names(a) {
        var i :| 0 <= i < |a| && a[i].0 == n;
        assert a[i] in Entries(b);
      }
      if n in Names(b) {
        var i :| 0 <= i < |b| && b[i].0 == n;
        assert b[i] in Entries(a);
      }
    }
  }

  predicate IsoInverts(lib: Library, v: Value) {
    && (v.Date? ==> lib.dateFromIso(lib.isoDate(v.day)) == Some(v.day))
    && (v.DateTime? ==> lib.dateTimeFromIso(lib.isoDateTime(v.instant)) == Some(v.instant))
  }

  /** Storing a definition and reading it back changes neither its validity nor its default. */
  lemma {:induction false} StoredDefaultCastsTheSame(lib: Library, d: Definition)
    requires Accepted(lib, d) && IsoInverts(lib, d.default)
    ensures Accepted(lib, d.(default := Stored(lib, d.default)))
    ensures !d.default.Null? ==>
              CastValue(lib, d.kind, Stored(lib, d.default)) == CastValue(lib, d.kind, d.default)
  {
  }

  /** The ISO formats parse back, whatever is printed. */
  ghost predicate IsoReadsBack(lib: Library) {
    forall v :: IsoInverts(lib, v)
  }

  /** The JSON column keeps the names and the acceptance of all definitions. */
  lemma {:induction false} StoredDefinitionsStayAccepted(lib: Library, defs: Definitions)
    requires IsoReadsBack(lib) && DistinctNames(defs) && AllAccepted(lib, defs)
    ensures var stored := StoredDefinitions(lib, defs);
            Names(stored) == Names(defs) && DistinctNames(stored) && AllAccepted(lib, stored)
  {
    var stored := StoredDefinitions(lib, defs);
    forall i | 0 <= i < |defs| ensures Accepted(lib, stored[i].1) {
      assert Accepted(lib, defs[i].1);
      assert IsoInverts(lib, defs[i].1.default);
      StoredDefaultCastsTheSame(lib, defs[i].1);
    }
    StoredNames(lib, defs);
  }

  lemma {:induction false} StoredNames(lib: Library, defs: Definitions)
    ensures Names(StoredDefinitions(lib, defs)) == Names(defs)
  {
    var stored := StoredDefinitions(lib, defs);
    forall n | n in Names(defs) ensures n in Names(stored) {
      var i :| 0 <= i < |defs| && defs[i].0 == n;
      assert stored[i].0 == n;
    }
  }

  // ---------- The contract between SQL and definitions ----------

  datatype ContractError = InvalidNames | ContractMismatch

  function ValidateContract(placeholders: set<string>, defs: Definitions): Option<ContractError> {
    if exists i :: 0 <= i < |defs| && !IsName(defs[i].0) then Some(InvalidNames)
    else if placeholders - Names(defs) != {} || Names(defs) - placeholders != {} then Some(ContractMismatch)
    else None
  }

  lemma {:induction false} ContractIsExact(placeholders: set<string>, defs: Definitions)
    ensures ValidateContract(placeholders, defs).None? <==>
              Names(defs) == placeholders && forall n :: n in placeholders ==> IsName(n)
    ensures ValidateContract(placeholders, defs) == Some(InvalidNames) <==> exists n :: n in Names(defs) && !IsName(n)
  {
    if i :| 0 <= i < |defs| && !IsName(defs[i].0) {
      assert defs[i].0 in Names(defs);
    }
  }

  // ---------- Casting a request ----------

  type QueryParams = seq<(string, string)>

  function GetList(params: QueryParams, name: string): (values: seq<Value>)
    ensures AllTexts(values)
  {
    if params == [] then []
    else (if params[0].0 == name then [Text(params[0].1)] else []) + GetList(params[1..], name)
  }

  lemma {:induction false} ListedIffSupplied(params: QueryParams, name: string)
    ensures GetList(params, name) != [] <==> name in CollectQuery(params)
  {
    if params == [] {
    } else {
      ListedIffSupplied(params[1..], name);
      assert name in CollectQuery(params) <==> params[0].0 == name || name in CollectQuery(params[1..]) by {
        if name in CollectQuery(params) {
          var i :| 0 <= i < |params| && params[i].0 == name;
          if i > 0 { assert params[1..][i - 1].0 == name; }
        }
        if name in CollectQuery(params[1..]) {
          var i :| 0 <= i < |params[1..]| && params[1..][i].0 == name;
          assert params[i + 1].0 == name;
        }
      }
    }
  }

  function CollectQuery(params: QueryParams): map<string, seq<Value>> {
    map name | name in (set i | 0 <= i < |params| :: params[i].0) :: GetList(params, name)
  }

  function CollectMapping(values: map<string, Value>): map<string, seq<Value>> {
    map name | name in values :: if values[name].List? then values[name].items else [values[name]]
  }

  datatype ParameterError = Unknown | Missing(name: string) | Rejected(name: string) | Escaped(name: string)

  /** What one definition makes of the values supplied for its name. */
  function Bind(lib: Library, name: string, d: Definition,
                supplied: map<string, seq<Value>>): Result<Value, ParameterError> {
    if name !in supplied then
      if d.required then Failure(Missing(name))
      else if d.default.Null? then Success(Null)
      else FromOutcome(name, CastValue(lib, d.kind, d.default))
    else if d.kind.StringListKind? then FromOutcome(name, CastStringList(supplied[name]))
    else if |supplied[name]| != 1 then Failure(Rejected(name))
    else FromOutcome(name, CastValue(lib, d.kind, supplied[name][0]))
  }

  function FromOutcome(name: string, o: Outcome): Result<Value, ParameterError> {
    match o
    case Cast(v) => Success(v)
    case Invalid => Failure(Rejected(name))
    case Overflows => Failure(Escaped(name))
  }

  /** Every name is bound to what its definition makes of the request, and to nothing else. */
  predicate BindsAll(lib: Library, defs: Definitions, supplied: map<string, seq<Value>>, values: map<string, Value>) {
    && values.Keys == Names(defs)
    && forall i :: 0 <= i < |defs| ==>
         defs[i].0 in values && Bind(lib, defs[i].0, defs[i].1, supplied) == Success(values[defs[i].0])
  }

  /** The first n definitions in order; the first one that fails decides the error. */
  function BindFirst(lib: Library, defs: Definitions, supplied: map<string, seq<Value>>,
                     n: nat): Result<map<string, Value>, ParameterError>
    requires n <= |defs|
  {
    if n == 0 then Success(map[])
    else
      match BindFirst(lib, defs, supplied, n - 1)
      case Failure(error) => Failure(error)
      case Success(values) =>
        match Bind(lib, defs[n - 1].0, defs[n - 1].1, supplied)
        case Failure(error) => Failure(error)
        case Success(value) => Success(values[defs[n - 1].0 := value])
  }

  function CastParameters(lib: Library, defs: Definitions,
                          supplied: map<string, seq<Value>>): Result<map<string, Value>, ParameterError> {
    if supplied.Keys - Names(defs) != {} then Failure(Unknown) else BindFirst(lib, defs, supplied, |defs|)
  }

  method CastParameterValues(lib: Library, defs: Definitions, supplied: map<string, seq<Value>>)
    returns (result: Result<map<string, Value>, ParameterError>)
    ensures result == CastParameters(lib, defs, supplied)
  {
    if supplied.Keys - Names(defs) != {} {
      return Failure(Unknown);
    }
    var values: map<string, Value> := map[];
    for i := 0 to |defs|
      invariant BindFirst(lib, defs, supplied, i) == Success(values)
    {
      var (name, d) := defs[i];
      var bound := Bind(lib, name, d, supplied);
      if bound.Failure? {
        FailureDecides(lib, defs, supplied, i + 1, |defs|);
        return Failure(bound.error);
      }
      values := values[name := bound.value];
    }
    return Success(values);
  }

  lemma {:induction false} FailureDecides(lib: Library, defs: Definitions, supplied: map<string, seq<Value>>, m: nat,
                                          n: nat)
    requires m <= n <= |defs| && BindFirst(lib, defs, supplied, m).Failure?
    ensures BindFirst(lib, defs, supplied, n) == BindFirst(lib, defs, supplied, m)
  {
    if m == n {
    } else {
      FailureDecides(lib, defs, supplied, m, n - 1);
    }
  }

  predicate FailsFirst(lib: Library, defs: Definitions, supplied: map<string, seq<Value>>, i: nat,
                       error: ParameterError)
    requires i < |defs|
  {
    && Bind(lib, defs[i].0, defs[i].1, supplied) == Failure(error)
    && forall j :: 0 <= j < i ==> Bind(lib, defs[j].0, defs[j].1, supplied).Success?
  }

  lemma {:induction false} BindFirstOutcome(lib: Library, defs: Definitions, supplied: map<string, seq<Value>>, n: nat)
    requires n <= |defs|
    ensures BindFirst(lib, defs, supplied, n).Success? <==>
              forall i :: 0 <= i < n ==> Bind(lib, defs[i].0, defs[i].1, supplied).Success?
    ensures BindFirst(lib, defs, supplied, n).Failure? ==>
              exists i :: 0 <= i < n && FailsFirst(lib, defs, supplied, i, BindFirst(lib, defs, supplied, n).error)
  {
    if n == 0 {
    } else {
      BindFirstOutcome(lib, defs, supplied, n - 1);
      if BindFirst(lib, defs, supplied, n - 1).Success? && BindFirst(lib, defs, supplied, n).Failure? {
        assert FailsFirst(lib, defs, supplied, n - 1, BindFirst(lib, defs, supplied, n).error);
      }
    }
  }

  lemma {:induction false} BindFirstValues(lib: Library, defs: Definitions, supplied: map<string, seq<Value>>, n: nat)
    requires n <= |defs| && DistinctNames(defs) && BindFirst(lib, defs, supplied, n).Success?
    ensures var values := BindFirst(lib, defs, supplied, n).value;
            && (forall k :: k in values <==> exists i :: 0 <= i < n && defs[i].0 == k)
            && forall i :: 0 <= i < n ==>
                 defs[i].0 in values && Bind(lib, defs[i].0, defs[i].1, supplied) == Success(values[defs[i].0])
  {
    if n == 0 {
    } else {
      BindFirstValues(lib, defs, supplied, n - 1);
    }
  }

  /** A request is cast exactly when it names declared parameters only and every definition accepts
      what is supplied for it; each name then gets the value of its own definition, and otherwise
      the first definition in order that fails is the one reported. */
  lemma {:induction false} CastIsExact(lib: Library, defs: Definitions, supplied: map<string, seq<Value>>)
    requires DistinctNames(defs)
    ensures var result := CastParameters(lib, defs, supplied);
            && (result.Success? <==>
                  && supplied.Keys <= Names(defs)
                  && forall i :: 0 <= i < |defs| ==> Bind(lib, defs[i].0, defs[i].1, supplied).Success?)
            && (result.Success? ==> BindsAll(lib, defs, supplied, result.value))
            && (result.Failure? ==>
                  if !(supplied.Keys <= Names(defs)) then result.error == Unknown
                  else exists i :: 0 <= i < |defs| && FailsFirst(lib, defs, supplied, i, result.error))
  {
    BindFirstOutcome(lib, defs, supplied, |defs|);
    if BindFirst(lib, defs, supplied, |defs|).Success? {
      BindFirstValues(lib, defs, supplied, |defs|);
    }
    assert supplied.Keys <= Names(defs) <==> supplied.Keys - Names(defs) == {} by {
      assert forall k :: k in supplied.Keys && k !in Names(defs) ==> k in supplied.Keys - Names(defs);
    }
  }

  /** A bound value is null only for an omitted optional parameter without a default, and is a
      value of the declared kind otherwise; and an accepted definition never rejects omission. */
  lemma {:induction false} BoundValuesHaveTheirKind(lib: Library, name: string, d: Definition,
                                                    supplied: map<string, seq<Value>>)
    requires Accepted(lib, d)
    ensures name !in supplied && !d.required ==> Bind(lib, name, d, supplied).Success?
    ensures Bind(lib, name, d, supplied).Success? ==>
              var v := Bind(lib, name, d, supplied).value;
              if name !in supplied && d.default.Null? then v == Null && !d.required
              else HasKind(d.kind, v) && CastValue(lib, d.kind, v) == Cast(v)
  {
    if name in supplied {
      StringListFixedPoints(supplied[name]);
      if Bind(lib, name, d, supplied).Success? {
        CastIsProjection(lib, d.kind, Bind(lib, name, d, supplied).value);
        if |supplied[name]| == 1 { CastIsProjection(lib, d.kind, supplied[name][0]); }
      }
    } else if !d.default.Null? {
      CastIsProjection(lib, d.kind, d.default);
      CastIsProjection(lib, d.kind, CastValue(lib, d.kind, d.default).value);
    }
  }

  /** What a parameter is bound to: the value that is supplied once denotes it, the list of all values
      when it is a list, and the default when it is omitted. */
  ghost predicate Denotes(lib: Library, d: Definition, values: Option<seq<Value>>, result: Value) {
    match values
    case None => !d.required && (if d.default == Null then result == Null else Reads(lib, d.kind, d.default, result))
    case Some(all) => if d.kind == StringListKind then ReadsList(all, result)
                      else |all| == 1 && Reads(lib, d.kind, all[0], result)
  }

  /** A definition binds exactly what the request denotes for it. What it cannot bind it reports under its
      own name: as missing exactly when it is required and omitted, as rejected or escaped otherwise. */
  lemma {:induction false} BindIsExact(lib: Library, name: string, d: Definition, supplied: map<string, seq<Value>>,
                                       result: Value)
    ensures var bound := Bind(lib, name, d, supplied);
            && (bound == Success(result)
                <==> Denotes(lib, d, if name in supplied then Some(supplied[name]) else None, result))
            && (bound.Failure? ==> bound.error in {Missing(name), Rejected(name), Escaped(name)})
            && (bound == Failure(Missing(name)) <==> name !in supplied && d.required)
  {
    if name in supplied {
      ListCastIsExact(supplied[name], result);
      if |supplied[name]| == 1 { CastIsWhatIsRead(lib, d.kind, supplied[name][0], result); }
    } else {
      CastIsWhatIsRead(lib, d.kind, d.default, result);
    }
  }

  function ValuesOf(supplied: map<string, seq<Value>>, name: string): seq<Value> {
    if name in supplied then supplied[name] else []
  }

  /** A query string is read in order: one more `key=value` adds this text behind the values of its key
      and changes no other name; a name without one is not supplied. */
  lemma {:induction false} QueryAppends(params: QueryParams, key: string, value: string, name: string)
    ensures ValuesOf(CollectQuery(params + [(key, value)]), name)
         == ValuesOf(CollectQuery(params), name) + (if name == key then [Text(value)] else [])
    ensures name in CollectQuery(params + [(key, value)]) <==> name in CollectQuery(params) || name == key
    ensures CollectQuery([]) == map[]
  {
    var longer := params + [(key, value)];
    ListedIffSupplied(params, name);
    ListedIffSupplied(longer, name);
    GetListAppends(params, key, value, name);
  }

  lemma {:induction false} GetListAppends(params: QueryParams, key: string, value: string, name: string)
    ensures GetList(params + [(key, value)], name)
         == GetList(params, name) + (if name == key then [Text(value)] else [])
  {
    var longer := params + [(key, value)];
    if params == [] {
      assert longer[1..] == [];
    } else {
      assert longer[1..] == params[1..] + [(key, value)];
      GetListAppends(params[1..], key, value, name);
    }
  }

  // ---------- What escapes the handler ----------

  lemma {:induction false} ListCastNeverOverflows(values: seq<Value>)
    ensures !CastStringList(values).Overflows?
  {
  }

  /** An accepted definition lets an OverflowError escape exactly when a float is supplied as one int
      that is too large; an omitted parameter never does. */
  lemma {:induction false} EscapesExactly(lib: Library, name: string, d: Definition, supplied: map<string, seq<Value>>)
    requires Accepted(lib, d)
    ensures Bind(lib, name, d, supplied) == Failure(Escaped(name)) <==>
              && name in supplied && d.kind.FloatKind? && |supplied[name]| == 1
              && supplied[name][0].Int? && lib.floatFromInt(supplied[name][0].n).None?
    ensures Bind(lib, name, d, supplied).Failure? && Bind(lib, name, d, supplied).error.Escaped? ==>
              Bind(lib, name, d, supplied) == Failure(Escaped(name))
  {
    if name in supplied {
      ListCastNeverOverflows(supplied[name]);
      if |supplied[name]| == 1 { OverflowIsLargeInt(lib, d.kind, supplied[name][0]); }
    }
  }

  lemma {:induction false} QueryValuesAreTexts(params: QueryParams, name: string)
    requires name in CollectQuery(params)
    ensures AllTexts(CollectQuery(params)[name])
  {
  }

  /** Query parameters are texts, so casting a request to a route never lets one escape. */
  lemma {:induction false} QueryNeverEscapes(lib: Library, defs: Definitions, params: QueryParams)
    requires AllAccepted(lib, defs)
    ensures var result := CastParameters(lib, defs, CollectQuery(params));
            result.Failure? ==> !result.error.Escaped?
  {
    var supplied := CollectQuery(params);
    BindFirstOutcome(lib, defs, supplied, |defs|);
    forall i | 0 <= i < |defs|
      ensures var bound := Bind(lib, defs[i].0, defs[i].1, supplied); bound.Failure? ==> !bound.error.Escaped?
    {
      assert Accepted(lib, defs[i].1);
      EscapesExactly(lib, defs[i].0, defs[i].1, supplied);
      if defs[i].0 in supplied && |supplied[defs[i].0]| == 1 {
        QueryValuesAreTexts(params, defs[i].0);
        assert supplied[defs[i].0][0] in supplied[defs[i].0];
      }
    }
  }

  /** The JSON parameters of a lab test may hold ints. A definition of a float then lets one escape
      exactly for an int that is too large, given directly or as the only item of a list. */
  lemma {:induction false} LabTestEscapesExactly(lib: Library, name: string, d: Definition, values: map<string, Value>)
    requires Accepted(lib, d)
    ensures Bind(lib, name, d, CollectMapping(values)) == Failure(Escaped(name)) <==>
              && d.kind.FloatKind? && name in values
              && var v := if values[name].List? && |values[name].items| == 1
                   then values[name].items[0] else values[name];
                 v.Int? && lib.floatFromInt(v.n).None?
  {
    EscapesExactly(lib, name, d, CollectMapping(values));
  }

  /** One such input. */
  lemma {:induction false} LargeIntEscapes(lib: Library, n: int)
    requires lib.floatFromInt(n).None?
    ensures var defs := [("x", Definition(FloatKind, true, Null, ""))];
            CastParameters(lib, defs, CollectMapping(map["x" := Int(n)])) == Failure(Escaped("x"))
  {
    var d := Definition(FloatKind, true, Null, "");
    var defs, values := [("x", d)], map["x" := Int(n)];
    LabTestEscapesExactly(lib, "x", d, values);
    assert defs[0].0 in Names(defs);
    assert CollectMapping(values).Keys == {"x"} && Names(defs) == {"x"};
    assert BindFirst(lib, defs, CollectMapping(values), 0) == Success(map[]);
  }

  // ---------- Every value can be asked for ----------

  function Digits(n: nat): string {
    if n < 10 then ['0' + n as char] else Digits(n / 10) + ['0' + (n % 10) as char]
  }

  function Decimal(n: int): string {
    if n < 0 then "-" + Digits(-n) else Digits(n)
  }

  lemma {:induction false} DigitsAreDigits(n: nat)
    ensures Digits(n) != "" && forall c :: c in Digits(n) ==> '0' <= c <= '9'
  {
    if n < 10 {
    } else {
      DigitsAreDigits(n / 10);
    }
  }

  lemma {:induction false} DecimalIsIntegerText(n: int)
    ensures IsIntegerText(Decimal(n))
  {
    DigitsAreDigits(if n < 0 then -n else n);
    if n < 0 {
      assert Decimal(n)[1..] == Digits(-n);
    } else {
      assert Digits(n)[0] in Digits(n);
    }
  }

  /** The query text of a value. */
  function Shown(lib: Library, v: Value): string {
    match v
    case Text(s) => s
    case Int(n) => Decimal(n)
    case FloatValue(Finite(r)) => lib.floatText(r)
    case Bool(b) => if b then "true" else "false"
    case Date(d) => lib.isoDate(d)
    case DateTime(t) => lib.isoDateTime(t)
    case List(items) => if AllTexts(items) then Join(Texts(items), ',') else ""
    case _ => ""
  }

  /** The conversions read back what they print. */
  predicate ReadsBack(lib: Library, v: Value) {
    && IsoInverts(lib, v)
    && (v.Int? ==> lib.intFromText(Decimal(v.n)) == Some(v.n))
    && (v.FloatValue? && v.f.Finite? ==> lib.floatFromText(lib.floatText(v.f.r)) == Some(v.f))
    && lib.casefold("true") == "true" && lib.casefold("false") == "false"
  }

  /** Supplying the text of any value of the declared kind binds the parameter to that value. */
  lemma {:induction false} ShownBindsBack(lib: Library, name: string, d: Definition, v: Value,
                                          supplied: map<string, seq<Value>>)
    requires HasKind(d.kind, v) && ReadsBack(lib, v)
    requires name in supplied && supplied[name] == [Text(Shown(lib, v))]
    ensures Bind(lib, name, d, supplied) == Success(v)
  {
    if v.Int? { DecimalIsIntegerText(v.n); }
    if d.kind.StringListKind? { StringListFixedPoints(v.items); }
  }

  /** So does supplying the value itself in the JSON of a lab test; a list is supplied item by item. */
  lemma {:induction false} JsonBindsBack(lib: Library, name: string, d: Definition, v: Value,
                                         values: map<string, Value>)
    requires HasKind(d.kind, v) && name in values && values[name] == v
    ensures CollectMapping(values).Keys == values.Keys
    ensures Bind(lib, name, d, CollectMapping(values)) == Success(v)
  {
    CastIsProjection(lib, d.kind, v);
    if d.kind.StringListKind? { StringListFixedPoints(v.items); }
  }
}

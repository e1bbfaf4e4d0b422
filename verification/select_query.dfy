/** `SelectQuery`: the SELECT builder.  Fields are followed by a bare ",", FROM and
    WHERE trim the pending comma first, and each predicate appends a self-contained
    clause followed by one space; the `and*`/`or*` forms put "AND "/"OR " in front
    whatever precedes them. */
module Select {
  import opened JavaText
  import opened Values
  import opened Common

  /** What every SelectQuery keeps at its head, out of reach of both trims. */
  predicate Valid(q: Query)
  {
    KeywordPrefix(q.text, "SELECT")
  }

  /** `new SelectQuery()`. */
  function New(): (q: Query)
    ensures q.text == "SELECT " && q.dateTimeFormat == DEFAULT_SQL_DATE_TIME_FORMAT
    ensures Valid(q)
  {
    Append(Fresh(), "SELECT ")
  }

  /** `addField`: the name followed by a bare ",". */
  function AddField(q: Query, name: string): (r: Query)
    ensures r.text == q.text + name + ","
    ensures r.dateTimeFormat == q.dateTimeFormat
    ensures Valid(q) ==> Valid(r)
  {
    Append(Append(q, name), ",")
  }

  /** The constructor's loop: `addField` for each name, in list order. */
  function AddFields(q: Query, names: seq<string>): Query
    decreases |names|
  {
    if names == [] then q else AddFields(AddField(q, names[0]), names[1..])
  }

  lemma {:induction false} AddFieldsSuffixesEachName(q: Query, names: seq<string>)
    ensures AddFields(q, names) == q.(text := q.text + Suffixed(names, ","))
    decreases |names|
  {
    if names != [] {
      AddFieldsSuffixesEachName(AddField(q, names[0]), names[1..]);
      assert q.text + names[0] + "," + Suffixed(names[1..], ",") == q.text + Suffixed(names, ",");
    }
  }

  /** `new SelectQuery(selectableFieldNames)`: "SELECT " and then every name followed by
      ",", so a non-empty list leaves the names comma-joined with one comma pending. */
  function NewWithFields(names: seq<string>): (q: Query)
    ensures q.text == "SELECT " + Suffixed(names, ",")
    ensures names != [] ==> q.text == "SELECT " + Join(names, ",") + ","
    ensures q.dateTimeFormat == DEFAULT_SQL_DATE_TIME_FORMAT
    ensures Valid(q)
  {
    AddFieldsSuffixesEachName(New(), names);
    if names != [] then SuffixedIsJoinPlusSeparator(names, ","); AddFields(New(), names)
    else AddFields(New(), names)
  }

  /** The trimming appenders keep the keyword, so on a SelectQuery they never throw. */
  lemma TrimThenAppendKeepsSelect(q: Query, s: string)
    ensures Valid(q) ==> TrimThenAppend(q, s).Ok? && Valid(TrimThenAppend(q, s).value)
  {
    KeywordSurvivesCommaTrim(q.text, "SELECT");
  }

  /** `addTableName`: trims a pending comma, then appends the name and ",".  After a
      field list this closes the list; after another table it removes that table's
      separator (see `TableNamesRunTogether`). */
  function AddTableName(q: Query, tableName: string): (r: Result<Query>)
    ensures r.Err? <==> |q.text| < 2
    ensures r.Ok? ==> r.value.text == DeleteLastCommaIfExist(q.text).value + tableName + ","
    ensures Valid(q) ==> r.Ok? && Valid(r.value)
  {
    TrimThenAppendKeepsSelect(q, tableName + ",");
    TrimThenAppend(q, tableName + ",")
  }

  /** `addWhere`: trims a pending comma, then appends " WHERE ". */
  function AddWhere(q: Query): (r: Result<Query>)
    ensures r.Err? <==> |q.text| < 2
    ensures r.Ok? ==> r.value.text == DeleteLastCommaIfExist(q.text).value + " WHERE "
    ensures Valid(q) ==> r.Ok? && Valid(r.value)
  {
    TrimThenAppendKeepsSelect(q, " WHERE ");
    TrimThenAppend(q, " WHERE ")
  }

  /** `addFrom()`: trims a pending comma, then appends " FROM ". */
  function AddFrom(q: Query): (r: Result<Query>)
    ensures r.Err? <==> |q.text| < 2
    ensures r.Ok? ==> r.value.text == DeleteLastCommaIfExist(q.text).value + " FROM "
    ensures Valid(q) ==> r.Ok? && Valid(r.value)
  {
    TrimThenAppendKeepsSelect(q, " FROM ");
    TrimThenAppend(q, " FROM ")
  }

  /** `addFrom(tableName)`: trims a pending comma, then appends " FROM ", the name and ",". */
  function AddFromTable(q: Query, tableName: string): (r: Result<Query>)
    ensures r.Err? <==> |q.text| < 2
    ensures r.Ok? ==> r.value.text == DeleteLastCommaIfExist(q.text).value + " FROM " + tableName + ","
    ensures Valid(q) ==> r.Ok? && Valid(r.value)
  {
    TrimThenAppendKeepsSelect(q, " FROM " + tableName + ",");
    TrimThenAppend(q, " FROM " + tableName + ",")
  }

  /** The clause `isEquals` writes when it does not throw: `name=literal ` with the
      literal chosen by class. */
  function EqualsClause(name: string, value: Value, pattern: string, lib: DateLibrary): string
  {
    name + "=" + LiteralText(value, pattern, lib) + " "
  }

  /** The clause `between` writes when it does not throw.  Both bounds go through the
      number-or-date dispatch only, so a String bound contributes nothing. */
  function BetweenClause(name: string, low: Value, high: Value, pattern: string, lib: DateLibrary): string
  {
    name + " BETWEEN " + NumberOrDateText(low, pattern, lib) + " AND "
      + NumberOrDateText(high, pattern, lib) + " "
  }

  /** The clause `like(name, value, wildcard, position)` writes. */
  function LikeClause(name: string, value: Value, wildcard: char, position: WildcardPosition, lib: DateLibrary): string
  {
    name + " LIKE '" + LikePattern(value, wildcard, position, lib) + "' "
  }

  /** The clause `like(name, value)` writes: the value's text quoted, whatever its class. */
  function LikeValueClause(name: string, value: Value, lib: DateLibrary): string
  {
    name + " LIKE '" + ObjectText(value, lib) + "' "
  }

  /** `isEquals`: the name, "=", the literal and a blank.  The literal throws for a Date
      whose pattern the library rejects. */
  function IsEquals(q: Query, name: string, value: Value, lib: DateLibrary): (r: Result<Query>)
    ensures r.Err? <==> FormatThrows(value, q.dateTimeFormat, lib)
    ensures r.Err? ==> r.fault == IllegalPattern(q.dateTimeFormat)
    ensures r.Ok? ==> r.value == q.(text := q.text + EqualsClause(name, value, q.dateTimeFormat, lib))
    ensures r.Ok? && Valid(q) ==> Valid(r.value)
  {
    var literal :- Literal(value, q.dateTimeFormat, lib);
    Ok(Append(q, name + "=" + literal + " "))
  }

  /** `andIsEquals`: "AND " is written unconditionally, even straight after WHERE. */
  function AndIsEquals(q: Query, name: string, value: Value, lib: DateLibrary): (r: Result<Query>)
    ensures r.Err? <==> FormatThrows(value, q.dateTimeFormat, lib)
    ensures r.Err? ==> r.fault == IllegalPattern(q.dateTimeFormat)
    ensures r.Ok? ==> r.value == q.(text := q.text + "AND " + EqualsClause(name, value, q.dateTimeFormat, lib))
    ensures r.Ok? && Valid(q) ==> Valid(r.value)
  {
    IsEquals(Append(q, "AND "), name, value, lib)
  }

  /** `orIsEquals`: "OR " is written unconditionally. */
  function OrIsEquals(q: Query, name: string, value: Value, lib: DateLibrary): (r: Result<Query>)
    ensures r.Err? <==> FormatThrows(value, q.dateTimeFormat, lib)
    ensures r.Err? ==> r.fault == IllegalPattern(q.dateTimeFormat)
    ensures r.Ok? ==> r.value == q.(text := q.text + "OR " + EqualsClause(name, value, q.dateTimeFormat, lib))
    ensures r.Ok? && Valid(q) ==> Valid(r.value)
  {
    IsEquals(Append(q, "OR "), name, value, lib)
  }

  /** `between`: the low bound is formatted first, so either bound can throw. */
  function Between(q: Query, name: string, low: Value, high: Value, lib: DateLibrary): (r: Result<Query>)
    ensures r.Err? <==> FormatThrows(low, q.dateTimeFormat, lib) || FormatThrows(high, q.dateTimeFormat, lib)
    ensures r.Err? ==> r.fault == IllegalPattern(q.dateTimeFormat)
    ensures r.Ok? ==> r.value == q.(text := q.text + BetweenClause(name, low, high, q.dateTimeFormat, lib))
    ensures r.Ok? && Valid(q) ==> Valid(r.value)
  {
    var lowText :- NumberOrDateLiteral(low, q.dateTimeFormat, lib);
    var highText :- NumberOrDateLiteral(high, q.dateTimeFormat, lib);
    Ok(Append(q, name + " BETWEEN " + lowText + " AND " + highText + " "))
  }

  /** `andBetween`. */
  function AndBetween(q: Query, name: string, low: Value, high: Value, lib: DateLibrary): (r: Result<Query>)
    ensures r.Err? <==> FormatThrows(low, q.dateTimeFormat, lib) || FormatThrows(high, q.dateTimeFormat, lib)
    ensures r.Err? ==> r.fault == IllegalPattern(q.dateTimeFormat)
    ensures r.Ok? ==> r.value == q.(text := q.text + "AND " + BetweenClause(name, low, high, q.dateTimeFormat, lib))
    ensures r.Ok? && Valid(q) ==> Valid(r.value)
  {
    Between(Append(q, "AND "), name, low, high, lib)
  }

  /** `orBetween`. */
  function OrBetween(q: Query, name: string, low: Value, high: Value, lib: DateLibrary): (r: Result<Query>)
    ensures r.Err? <==> FormatThrows(low, q.dateTimeFormat, lib) || FormatThrows(high, q.dateTimeFormat, lib)
    ensures r.Err? ==> r.fault == IllegalPattern(q.dateTimeFormat)
    ensures r.Ok? ==> r.value == q.(text := q.text + "OR " + BetweenClause(name, low, high, q.dateTimeFormat, lib))
    ensures r.Ok? && Valid(q) ==> Valid(r.value)
  {
    Between(Append(q, "OR "), name, low, high, lib)
  }

  /** `like(name, value, wildcard, position)`. */
  function Like(q: Query, name: string, value: Value, wildcard: char, position: WildcardPosition, lib: DateLibrary): (r: Query)
    ensures r == q.(text := q.text + LikeClause(name, value, wildcard, position, lib))
    ensures Valid(q) ==> Valid(r)
  {
    Append(q, LikeClause(name, value, wildcard, position, lib))
  }

  /** `andLike(name, value, wildcard, position)`. */
  function AndLike(q: Query, name: string, value: Value, wildcard: char, position: WildcardPosition, lib: DateLibrary): (r: Query)
    ensures r == q.(text := q.text + "AND " + LikeClause(name, value, wildcard, position, lib))
    ensures Valid(q) ==> Valid(r)
  {
    Like(Append(q, "AND "), name, value, wildcard, position, lib)
  }

  /** `orLike(name, value, wildcard, position)`. */
  function OrLike(q: Query, name: string, value: Value, wildcard: char, position: WildcardPosition, lib: DateLibrary): (r: Query)
    ensures r == q.(text := q.text + "OR " + LikeClause(name, value, wildcard, position, lib))
    ensures Valid(q) ==> Valid(r)
  {
    Like(Append(q, "OR "), name, value, wildcard, position, lib)
  }

  /** `like(name, value)`. */
  function LikeValue(q: Query, name: string, value: Value, lib: DateLibrary): (r: Query)
    ensures r == q.(text := q.text + LikeValueClause(name, value, lib))
    ensures Valid(q) ==> Valid(r)
  {
    Append(q, LikeValueClause(name, value, lib))
  }

  /** `andLike(name, value)`. */
  function AndLikeValue(q: Query, name: string, value: Value, lib: DateLibrary): (r: Query)
    ensures r == q.(text := q.text + "AND " + LikeValueClause(name, value, lib))
    ensures Valid(q) ==> Valid(r)
  {
    LikeValue(Append(q, "AND "), name, value, lib)
  }

  /** `orLike(name, value)`. */
  function OrLikeValue(q: Query, name: string, value: Value, lib: DateLibrary): (r: Query)
    ensures r == q.(text := q.text + "OR " + LikeValueClause(name, value, lib))
    ensures Valid(q) ==> Valid(r)
  {
    LikeValue(Append(q, "OR "), name, value, lib)
  }

  /** The logical prefix a predicate call asks for: the bare, `and*` or `or*` form. */
  datatype Connective = NoConnective | AndConnective | OrConnective

  /** One public call on a SelectQuery, the inherited `addTableField` and the
      `equals`/`hashCode` overrides included (their answers are dropped; what remains is
      the receiver's state after they render it). */
  datatype Call =
    | FieldCall(name: string)
    | TableFieldCall(name: string)
    | TableNameCall(tableName: string)
    | WhereCall
    | FromCall
    | FromTableCall(tableName: string)
    | EqualsCall(connective: Connective, name: string, value: Value)
    | BetweenCall(connective: Connective, name: string, low: Value, high: Value)
    | LikeCall(connective: Connective, name: string, value: Value, wildcard: char, position: WildcardPosition)
    | LikeValueCall(connective: Connective, name: string, value: Value)
    | SetDateTimeFormatCall(pattern: string)
    | GetQueryStringCall
    | EqualsObjectCall(obj: Object)
    | EqualsItselfCall
    | HashCodeCall
  {
    /** The call formats a `Date` operand with the builder's pattern. */
    predicate FormatsDate()
    {
      || (EqualsCall? && value.DateValue?)
      || (BetweenCall? && (low.DateValue? || high.DateValue?))
    }
  }

  /** An argument of `equals` that is a SelectQuery was itself built by these calls, so it
      keeps the SELECT keyword at its head too. */
  predicate ValidArgument(call: Call)
  {
    call.EqualsObjectCall? && call.obj.SelectQueryObject? ==> Valid(call.obj.query)
  }

  /** The effect of one call.  On a SelectQuery no call raises the index fault; the only
      exception left is a Date operand under a pattern the library rejects.  Only
      `setDateTimeFormat` changes the pattern. */
  function Apply(q: Query, call: Call, lib: DateLibrary): (r: Result<Query>)
    ensures Valid(q) && ValidArgument(call) ==> (r.Err? <==> call.FormatsDate() && !lib.accepts(q.dateTimeFormat))
    ensures Valid(q) && ValidArgument(call) && r.Err? ==> r.fault == IllegalPattern(q.dateTimeFormat)
    ensures Valid(q) && r.Ok? ==> Valid(r.value)
    ensures r.Ok? ==> r.value.dateTimeFormat == (if call.SetDateTimeFormatCall? then call.pattern else q.dateTimeFormat)
  {
    match call
    case FieldCall(name) => Ok(AddField(q, name))
    case TableFieldCall(name) =>
      assert q.text <= AddTableField(q, name).text;
      Ok(AddTableField(q, name))
    case TableNameCall(tableName) => AddTableName(q, tableName)
    case WhereCall => AddWhere(q)
    case FromCall => AddFrom(q)
    case FromTableCall(tableName) => AddFromTable(q, tableName)
    case EqualsCall(_, _, _) => ApplyPredicate(q, call, lib)
    case BetweenCall(_, _, _, _) => ApplyPredicate(q, call, lib)
    case LikeCall(_, _, _, _, _) => ApplyPredicate(q, call, lib)
    case LikeValueCall(_, _, _) => ApplyPredicate(q, call, lib)
    case SetDateTimeFormatCall(pattern) => Ok(SetDateTimeFormat(q, pattern))
    case GetQueryStringCall => ApplyRendering(q, call)
    case EqualsObjectCall(_) => ApplyRendering(q, call)
    case EqualsItselfCall => ApplyRendering(q, call)
    case HashCodeCall => ApplyRendering(q, call)
  }

  /** The predicate calls, by connective. */
  function ApplyPredicate(q: Query, call: Call, lib: DateLibrary): (r: Result<Query>)
    requires call.EqualsCall? || call.BetweenCall? || call.LikeCall? || call.LikeValueCall?
    ensures r.Err? <==> call.FormatsDate() && !lib.accepts(q.dateTimeFormat)
    ensures r.Err? ==> r.fault == IllegalPattern(q.dateTimeFormat)
    ensures Valid(q) && r.Ok? ==> Valid(r.value)
    ensures r.Ok? ==> r.value.dateTimeFormat == q.dateTimeFormat
  {
    match call
    case EqualsCall(c, name, value) =>
      (match c
       case NoConnective => IsEquals(q, name, value, lib)
       case AndConnective => AndIsEquals(q, name, value, lib)
       case OrConnective => OrIsEquals(q, name, value, lib))
    case BetweenCall(c, name, low, high) =>
      (match c
       case NoConnective => Between(q, name, low, high, lib)
       case AndConnective => AndBetween(q, name, low, high, lib)
       case OrConnective => OrBetween(q, name, low, high, lib))
    case LikeCall(c, name, value, wildcard, position) =>
      Ok(match c
         case NoConnective => Like(q, name, value, wildcard, position, lib)
         case AndConnective => AndLike(q, name, value, wildcard, position, lib)
         case OrConnective => OrLike(q, name, value, wildcard, position, lib))
    case LikeValueCall(c, name, value) =>
      Ok(match c
         case NoConnective => LikeValue(q, name, value, lib)
         case AndConnective => AndLikeValue(q, name, value, lib)
         case OrConnective => OrLikeValue(q, name, value, lib))
  }

  /** The calls that render the receiver: `getQueryString`, `equals` and `hashCode`. */
  function ApplyRendering(q: Query, call: Call): (r: Result<Query>)
    requires call.GetQueryStringCall? || call.EqualsObjectCall? || call.EqualsItselfCall? || call.HashCodeCall?
    ensures Valid(q) && ValidArgument(call) ==> r.Ok?
    ensures Valid(q) && r.Ok? ==> Valid(r.value)
    ensures r.Ok? ==> r.value.dateTimeFormat == q.dateTimeFormat
  {
    KeywordSurvivesRender(q, "SELECT");
    match call
    case GetQueryStringCall => GetQueryString(q)
    case EqualsObjectCall(obj) =>
      if obj.SelectQueryObject? then KeywordSurvivesRender(obj.query, "SELECT"); EqualsSelf(q, obj)
      else EqualsSelf(q, obj)
    case EqualsItselfCall =>
      var c :- EqualsItself(q);
      KeywordSurvivesRender(GetQueryString(q).value, "SELECT");
      Ok(c.self)
    case HashCodeCall =>
      var h :- HashCode(q);
      Ok(h.self)
  }

  /** The receiver's state after `equals(obj)`. */
  function EqualsSelf(q: Query, obj: Object): Result<Query>
  {
    var c :- Equals(q, obj);
    Ok(c.self)
  }

  /** A chain of calls; the first exception ends it. */
  function Run(q: Query, calls: seq<Call>, lib: DateLibrary): Result<Query>
    decreases |calls|
  {
    if calls == [] then Ok(q)
    else
      var next :- Apply(q, calls[0], lib);
      Run(next, calls[1..], lib)
  }

  /** Every pattern in force along a chain is accepted: the starting one and each one set. */
  predicate PatternsAccepted(pattern: string, calls: seq<Call>, lib: DateLibrary)
  {
    && lib.accepts(pattern)
    && forall i :: 0 <= i < |calls| && calls[i].SetDateTimeFormatCall? ==> lib.accepts(calls[i].pattern)
  }

  /** The unguarded reads in the trims are safe for SelectQuery: "SELECT" holds no comma
      and only trailing commas and spaces are ever deleted.  So no chain of calls on a
      SelectQuery raises the index fault: the only exception left is a rejected date
      pattern, a chain that formats no Date or keeps to accepted patterns completes, and
      the keyword is still in place at the end. */
  lemma {:induction false} CallsNeverThrow(q: Query, calls: seq<Call>, lib: DateLibrary)
    requires Valid(q)
    requires forall i :: 0 <= i < |calls| ==> ValidArgument(calls[i])
    ensures Run(q, calls, lib).Ok? ==> Valid(Run(q, calls, lib).value)
    ensures Run(q, calls, lib).Err? ==>
      Run(q, calls, lib).fault.IllegalPattern? && !lib.accepts(Run(q, calls, lib).fault.pattern)
    ensures (forall i :: 0 <= i < |calls| ==> !calls[i].FormatsDate()) ==> Run(q, calls, lib).Ok?
    ensures PatternsAccepted(q.dateTimeFormat, calls, lib) ==> Run(q, calls, lib).Ok?
    decreases |calls|
  {
    if calls != [] {
      var step := Apply(q, calls[0], lib);
      if step.Ok? {
        var rest := calls[1..];
        assert forall i :: 0 <= i < |rest| ==> rest[i] == calls[i + 1];
        CallsNeverThrow(step.value, rest, lib);
      }
    }
  }

  /** The same from either constructor, which start from the default pattern. */
  lemma ConstructedQueriesNeverThrow(names: seq<string>, calls: seq<Call>, lib: DateLibrary)
    requires forall i :: 0 <= i < |calls| ==> ValidArgument(calls[i])
    ensures Run(New(), calls, lib).Err? ==> Run(New(), calls, lib).fault.IllegalPattern?
    ensures Run(NewWithFields(names), calls, lib).Err? ==> Run(NewWithFields(names), calls, lib).fault.IllegalPattern?
    ensures PatternsAccepted(DEFAULT_SQL_DATE_TIME_FORMAT, calls, lib) ==>
      Run(New(), calls, lib).Ok? && Run(NewWithFields(names), calls, lib).Ok?
  {
    CallsNeverThrow(New(), calls, lib);
    CallsNeverThrow(NewWithFields(names), calls, lib);
  }

  /** An object `equals` may be handed. */
  datatype Object = SelectQueryObject(query: Query) | OtherObject

  /** The answer of `equals` together with both builders' states afterwards: the
      comparison renders them, and rendering trims their buffers. */
  datatype Comparison = Comparison(equal: bool, self: Query, other: Object)

  /** `equals(obj)` on two distinct objects: false for anything that is not a SelectQuery
      (nothing is rendered then); otherwise the argument is rendered, then this query,
      and the two rendered strings are compared. */
  function Equals(q: Query, obj: Object): (r: Result<Comparison>)
    ensures obj.OtherObject? ==> r == Ok(Comparison(false, q, obj))
    ensures obj.SelectQueryObject? ==> (r.Ok? <==> |q.text| >= 2 && |obj.query.text| >= 2)
    ensures obj.SelectQueryObject? && r.Ok? ==>
      && r.value.self == GetQueryString(q).value
      && r.value.other == SelectQueryObject(GetQueryString(obj.query).value)
      && (r.value.equal <==> GetQueryString(q).value.text == GetQueryString(obj.query).value.text)
  {
    match obj
    case OtherObject => Ok(Comparison(false, q, obj))
    case SelectQueryObject(remote) =>
      var remoteRendered :- GetQueryString(remote);
      var localRendered :- GetQueryString(q);
      Ok(Comparison(localRendered.text == remoteRendered.text, localRendered, SelectQueryObject(remoteRendered)))
  }

  /** `q.equals(q)`: the argument and the receiver are one builder, so the same buffer is
      rendered twice and the second rendering is compared with the first.  The answer is
      true exactly when the first rendering left nothing for a second one to trim. */
  function EqualsItself(q: Query): (r: Result<Comparison>)
    ensures r.Ok? <==> |q.text| >= 2 && |GetQueryString(q).value.text| >= 2
    ensures r.Ok? ==> (r.value.equal <==> !Pending(GetQueryString(q).value.text))
    ensures r.Ok? ==> r.value.self == GetQueryString(GetQueryString(q).value).value
  {
    var remoteRendered :- GetQueryString(q);
    var localRendered :- GetQueryString(remoteRendered);
    Ok(Comparison(localRendered.text == remoteRendered.text, localRendered, SelectQueryObject(localRendered)))
  }

  /** A SelectQuery built from a field list is not equal to itself: the first rendering
      removes the pending comma, the second the comma between the last two fields. */
  lemma EqualsIsNotReflexive()
    ensures NewWithFields(["a", "b"]).text == "SELECT a,b,"
    ensures EqualsItself(NewWithFields(["a", "b"])).Ok?
    ensures !EqualsItself(NewWithFields(["a", "b"])).value.equal
  {
    var q := NewWithFields(["a", "b"]);
    assert Join(["a", "b"], ",") == "a,b";
    assert q == Query("SELECT a,b,", DEFAULT_SQL_DATE_TIME_FORMAT);
    RenderIsNotIdempotent(DEFAULT_SQL_DATE_TIME_FORMAT);
    var once: string := "SELECT a,b";
    assert GetQueryString(q).value.text == once;
    assert once[|once| - 2] == ',';
    assert Pending(once);
  }

  /** Equality as intended: two SelectQueries are equal when their rendered texts are,
      computed on copies so that neither builder is changed by comparing. */
  function SameRendering(a: Query, b: Query): (r: bool)
    requires Valid(a) && Valid(b)
    ensures r <==> Equals(a, SelectQueryObject(b)).value.equal
  {
    KeywordSurvivesRender(a, "SELECT");
    KeywordSurvivesRender(b, "SELECT");
    GetQueryString(a).value.text == GetQueryString(b).value.text
  }

  /** `SameRendering` is an equivalence: in particular every query equals itself. */
  lemma SameRenderingIsAnEquivalence(a: Query, b: Query, c: Query)
    requires Valid(a) && Valid(b) && Valid(c)
    ensures SameRendering(a, a)
    ensures SameRendering(a, b) ==> SameRendering(b, a)
    ensures SameRendering(a, b) && SameRendering(b, c) ==> SameRendering(a, c)
  {
  }

  /** The hash together with the builder's state afterwards (`hashCode` renders too). */
  datatype Hashed = Hashed(hash: int32, self: Query)

  /** The hash `hashCode` computes from a rendered text t: 5 * `t.length()` +
      `t.hashCode()`, both over the UTF-16 code units of t, in `int` arithmetic, that is,
      modulo 2^32. */
  function TextHash(t: string): (h: int32)
    ensures (h as int - (5 * |Utf16(t)| + HashPolynomial(Utf16(t)))) % 0x1_0000_0000 == 0
  {
    UnitsHash(Utf16(t))
  }

  /** The same over the code units themselves. */
  function UnitsHash(u: seq<int>): (h: int32)
    ensures (h as int - (5 * |u| + HashPolynomial(u))) % 0x1_0000_0000 == 0
  {
    var x := 5 * |u| + StringHash(u) as int;
    StringHashIsPolynomialModulo(u);
    WrappedHashCongruent(x, 5 * |u| + HashPolynomial(u));
    Wrap32(x)
  }

  lemma WrappedHashCongruent(x: int, y: int)
    requires (x - y) % 0x1_0000_0000 == 0
    ensures (Wrap32(x) as int - y) % 0x1_0000_0000 == 0
  {
    CongruenceAdds(Wrap32(x) as int - x, x - y);
  }

  /** A character beyond the Basic Multilingual Plane counts as two code units, a
      surrogate pair, in both the length and the hash. */
  lemma SupplementaryCharacterHash()
    ensures Utf16("\U{1F600}") == [0xD83D, 0xDE00]
    ensures TextHash("\U{1F600}") == 5 * 2 + 31 * 0xD83D + 0xDE00
  {
    var t := "\U{1F600}";
    var u := [0xD83D, 0xDE00];
    assert t[..0] == [];
    assert Utf16(t) == CodeUnits(t[0]) == u;
    assert u[..1] == [0xD83D] && [0xD83D][..0] == [];
    SmallWrap(0xD83D);
    assert StringHash([0xD83D]) as int == 0xD83D;
    SmallWrap(31 * 0xD83D + 0xDE00);
    assert StringHash(u) as int == 31 * 0xD83D + 0xDE00;
    SmallWrap(5 * 2 + 31 * 0xD83D + 0xDE00);
  }

  lemma SmallWrap(x: int)
    requires 0 <= x < 0x8000_0000
    ensures Wrap32(x) as int == x
  {
  }

  /** `hashCode`: renders the query (trimming its buffer) and hashes the rendered text. */
  function HashCode(q: Query): (r: Result<Hashed>)
    ensures r.Ok? <==> |q.text| >= 2
    ensures r.Ok? ==> r.value.self == GetQueryString(q).value
    ensures r.Ok? ==> r.value.hash == TextHash(r.value.self.text)
  {
    var rendered :- GetQueryString(q);
    Ok(Hashed(TextHash(rendered.text), rendered))
  }

  lemma CongruenceAdds(a: int, b: int)
    requires a % 0x1_0000_0000 == 0 && b % 0x1_0000_0000 == 0
    ensures (a + b) % 0x1_0000_0000 == 0
  {
    var m := 0x1_0000_0000;
    assert a == (a / m) * m;
    assert b == (b / m) * m;
    assert a + b == (a / m + b / m) * m;
  }

  /** Queries that `equals` reports equal have equal hash codes. */
  lemma EqualQueriesHashEqually(a: Query, b: Query)
    requires Valid(a) && Valid(b)
    requires Equals(a, SelectQueryObject(b)).value.equal
    ensures HashCode(a).value.hash == HashCode(b).value.hash
  {
    KeywordSurvivesRender(a, "SELECT");
    KeywordSurvivesRender(b, "SELECT");
    assert GetQueryString(a).value.text == GetQueryString(b).value.text;
  }

  /** The query the WHERE tests start from: three fields, one table, WHERE. */
  function EmployeeWhere(): Query
  {
    var fields := AddField(AddField(AddField(New(), "name"), "family"), "sex");
    AddWhere(AddFromTable(fields, "employee").value).value
  }

  lemma EmployeeFieldsStep()
    ensures AddField(AddField(AddField(New(), "name"), "family"), "sex").text == "SELECT name,family,sex,"
  {
  }

  lemma EmployeeFromStep(fields: Query)
    requires fields.text == "SELECT name,family,sex,"
    ensures AddFromTable(fields, "employee") == Ok(fields.(text := "SELECT name,family,sex FROM employee,"))
  {
    EmployeeFieldsEndInComma();
    TrimThenAppendAfterComma(fields, "SELECT name,family,sex", " FROM " + "employee" + ",");
    EmployeeFromText();
  }

  lemma EmployeeFieldsEndInComma()
    ensures "SELECT name,family,sex," == "SELECT name,family,sex" + ","
  {
  }

  lemma EmployeeFromText()
    ensures "SELECT name,family,sex" + (" FROM " + "employee" + ",") == "SELECT name,family,sex FROM employee,"
  {
  }

  lemma EmployeeWhereStep(from: Query)
    requires from.text == "SELECT name,family,sex FROM employee,"
    ensures AddWhere(from) == Ok(from.(text := "SELECT name,family,sex FROM employee WHERE "))
  {
    assert from.text == "SELECT name,family,sex FROM employee" + ",";
    TrimThenAppendAfterComma(from, "SELECT name,family,sex FROM employee", " WHERE ");
    assert "SELECT name,family,sex FROM employee" + " WHERE " == "SELECT name,family,sex FROM employee WHERE ";
  }

  lemma EmployeeWhereText()
    ensures EmployeeWhere().text == "SELECT name,family,sex FROM employee WHERE "
    ensures EmployeeWhere().dateTimeFormat == DEFAULT_SQL_DATE_TIME_FORMAT
  {
    var fields := AddField(AddField(AddField(New(), "name"), "family"), "sex");
    EmployeeFieldsStep();
    EmployeeFromStep(fields);
    EmployeeWhereStep(AddFromTable(fields, "employee").value);
  }

  lemma ConstructorFieldsStep()
    ensures NewWithFields(["name", "family", "sex"]).text == "SELECT name,family,sex,"
  {
    var names := ["name", "family", "sex"];
    assert names[1..] == ["family", "sex"] && names[1..][1..] == ["sex"];
    assert Join(["sex"], ",") == "sex";
    assert Join(["family", "sex"], ",") == "family" + "," + "sex";
    assert Join(names, ",") == "name" + "," + ("family" + "," + "sex");
    assert "SELECT " + ("name" + "," + ("family" + "," + "sex")) + "," == "SELECT name,family,sex,";
  }

  lemma BareFromStep(fields: Query)
    requires fields.text == "SELECT name,family,sex,"
    ensures AddFrom(fields) == Ok(fields.(text := "SELECT name,family,sex FROM "))
  {
    assert fields.text == "SELECT name,family,sex" + ",";
    TrimThenAppendAfterComma(fields, "SELECT name,family,sex", " FROM ");
    assert "SELECT name,family,sex" + " FROM " == "SELECT name,family,sex FROM ";
  }

  lemma TableAfterFromStep(from: Query)
    requires from.text == "SELECT name,family,sex FROM "
    ensures AddTableName(from, "employee").value.text == "SELECT name,family,sex FROM employee,"
  {
    assert DeleteLastCommaIfExist(from.text) == Ok(from.text);
  }

  /** Fields from the constructor, `addFrom()`, then the table. */
  lemma SimpleSelectScenario()
    ensures var q := AddTableName(AddFrom(NewWithFields(["name", "family", "sex"])).value, "employee").value;
            GetQueryString(q).value.text == "SELECT name,family,sex FROM employee"
  {
    var fields := NewWithFields(["name", "family", "sex"]);
    ConstructorFieldsStep();
    BareFromStep(fields);
    var from := AddFrom(fields).value;
    TableAfterFromStep(from);
    var table := AddTableName(from, "employee").value;
    assert table.text == "SELECT name,family,sex FROM employee" + ",";
    RenderDropsTrailingComma(table, "SELECT name,family,sex FROM employee");
  }

  lemma PetrovEqualsClause(pattern: string, lib: DateLibrary)
    ensures EqualsClause("name", StringValue("Petrov"), pattern, lib) == "name='Petrov'" + " "
  {
    var lit := LiteralText(StringValue("Petrov"), pattern, lib);
    assert lit[1..|lit| - 1] == "Petrov";
    assert lit == "'Petrov'";
  }

  lemma PetrovEqualsTwice(pattern: string, lib: DateLibrary)
    ensures var clause := EqualsClause("name", StringValue("Petrov"), pattern, lib);
            clause + "AND " + clause == "name='Petrov' AND name='Petrov'" + " "
  {
    PetrovEqualsClause(pattern, lib);
    PetrovTwiceText(EqualsClause("name", StringValue("Petrov"), pattern, lib));
  }

  lemma PetrovTwiceText(clause: string)
    requires clause == "name='Petrov'" + " "
    ensures clause + "AND " + clause == "name='Petrov' AND name='Petrov'" + " "
  {
  }

  lemma PetrovEqualsAfterAnd(pattern: string, lib: DateLibrary)
    ensures "AND " + EqualsClause("name", StringValue("Petrov"), pattern, lib) == "AND name='Petrov'" + " "
  {
    PetrovEqualsClause(pattern, lib);
    PetrovAfterAndText(EqualsClause("name", StringValue("Petrov"), pattern, lib));
  }

  lemma PetrovAfterAndText(clause: string)
    requires clause == "name='Petrov'" + " "
    ensures "AND " + clause == "AND name='Petrov'" + " "
  {
  }

  lemma IdEqualsClause(pattern: string, lib: DateLibrary)
    ensures EqualsClause("id", IntegerValue(143), pattern, lib) == "id=143" + " "
  {
    assert DecimalText(143) == "143";
  }

  lemma PetrovAtEndClause(lib: DateLibrary)
    ensures LikeClause("name", StringValue("Petrov"), '%', AtEnd, lib) == "name LIKE 'Petrov%'" + " "
  {
    var pattern := LikePattern(StringValue("Petrov"), '%', AtEnd, lib);
    assert pattern == "Petrov" + ['%'];
    LikeClauseText(pattern, "Petrov%");
  }

  lemma PetrovAtStartClause(lib: DateLibrary)
    ensures LikeClause("name", StringValue("Petrov"), '%', AtStart, lib) == "name LIKE '%Petrov'" + " "
  {
    var pattern := LikePattern(StringValue("Petrov"), '%', AtStart, lib);
    assert pattern == ['%'] + "Petrov";
    LikeClauseText(pattern, "%Petrov");
  }

  lemma LikeClauseText(pattern: string, expected: string)
    requires pattern == expected
    ensures "name" + " LIKE '" + pattern + "' " == "name LIKE '" + expected + "'" + " "
  {
  }

  lemma NoBoundsClause(pattern: string, lib: DateLibrary)
    ensures BetweenClause("name", StringValue("A"), StringValue("B"), pattern, lib) == "name BETWEEN  AND " + " "
  {
  }

  /** An equality and an `and` equality with a String operand, after any prefix (the
      WHERE tests start from `EmployeeWhere`). */
  lemma EqualsThenAndEqualsScenario(w: Query, lib: DateLibrary)
    ensures var q := AndIsEquals(IsEquals(w, "name", StringValue("Petrov"), lib).value, "name", StringValue("Petrov"), lib).value;
            GetQueryString(q).value.text == w.text + "name='Petrov' AND name='Petrov'"
  {
    var clause := EqualsClause("name", StringValue("Petrov"), w.dateTimeFormat, lib);
    PetrovEqualsTwice(w.dateTimeFormat, lib);
    var first := IsEquals(w, "name", StringValue("Petrov"), lib).value;
    var q := AndIsEquals(first, "name", StringValue("Petrov"), lib).value;
    ClauseThenAndClause(q, first, w, clause);
    RenderDropsClauseSpace(q, w.text, "name='Petrov' AND name='Petrov'");
  }

  lemma ClauseThenAndClause(q: Query, first: Query, w: Query, clause: string)
    requires first.text == w.text + clause && q.text == first.text + "AND " + clause
    ensures q.text == w.text + (clause + "AND " + clause)
  {
  }

  lemma AndClauseRegroups(q: Query, w: Query, clause: string)
    requires q.text == w.text + "AND " + clause
    ensures q.text == w.text + ("AND " + clause)
  {
  }

  /** An Integer operand is written without quotes. */
  lemma EqualsIntegerScenario(w: Query, lib: DateLibrary)
    ensures GetQueryString(IsEquals(w, "id", IntegerValue(143), lib).value).value.text == w.text + "id=143"
  {
    IdEqualsClause(w.dateTimeFormat, lib);
    RenderDropsClauseSpace(IsEquals(w, "id", IntegerValue(143), lib).value, w.text, "id=143");
  }

  /** For AT_END the wildcard goes after the value. */
  lemma LikeAtEndScenario(w: Query, lib: DateLibrary)
    ensures GetQueryString(Like(w, "name", StringValue("Petrov"), '%', AtEnd, lib)).value.text
      == w.text + "name LIKE 'Petrov%'"
  {
    PetrovAtEndClause(lib);
    RenderDropsClauseSpace(Like(w, "name", StringValue("Petrov"), '%', AtEnd, lib), w.text, "name LIKE 'Petrov%'");
  }

  /** For AT_START the wildcard goes before the value. */
  lemma LikeAtStartScenario(w: Query, lib: DateLibrary)
    ensures GetQueryString(Like(w, "name", StringValue("Petrov"), '%', AtStart, lib)).value.text
      == w.text + "name LIKE '%Petrov'"
  {
    PetrovAtStartClause(lib);
    RenderDropsClauseSpace(Like(w, "name", StringValue("Petrov"), '%', AtStart, lib), w.text, "name LIKE '%Petrov'");
  }

  /** There is no first-predicate check: `andIsEquals` straight after WHERE still writes
      "AND ". */
  lemma AndRightAfterWhereKeepsAnd(lib: DateLibrary)
    ensures GetQueryString(AndIsEquals(EmployeeWhere(), "name", StringValue("Petrov"), lib).value).value.text
      == "SELECT name,family,sex FROM employee WHERE " + "AND name='Petrov'"
  {
    EmployeeWhereText();
    AndEqualsScenario(EmployeeWhere(), lib);
  }

  /** `andIsEquals` after any prefix writes "AND " and the clause. */
  lemma AndEqualsScenario(w: Query, lib: DateLibrary)
    ensures GetQueryString(AndIsEquals(w, "name", StringValue("Petrov"), lib).value).value.text
      == w.text + "AND name='Petrov'"
  {
    var clause := EqualsClause("name", StringValue("Petrov"), w.dateTimeFormat, lib);
    var q := AndIsEquals(w, "name", StringValue("Petrov"), lib).value;
    AndClauseRegroups(q, w, clause);
    PetrovEqualsAfterAnd(w.dateTimeFormat, lib);
    RenderDropsClauseSpace(q, w.text, "AND name='Petrov'");
  }

  /** String bounds are dropped by `between`, leaving an empty BETWEEN. */
  lemma BetweenDropsStringBounds(w: Query, lib: DateLibrary)
    ensures GetQueryString(Between(w, "name", StringValue("A"), StringValue("B"), lib).value).value.text
      == w.text + "name BETWEEN  AND "
  {
    NoBoundsClause(w.dateTimeFormat, lib);
    RenderDropsClauseSpace(Between(w, "name", StringValue("A"), StringValue("B"), lib).value, w.text, "name BETWEEN  AND ");
  }

  /** As written, `addTableName` after `addFrom(table)` deletes the comma that separated
      the first table from the second, so the two names run together. */
  lemma TableNamesRunTogether()
    ensures var q := AddTableName(AddFromTable(AddField(New(), "a"), "t1").value, "t2").value;
            GetQueryString(q).value.text == "SELECT a FROM t1t2"
  {
    var field := AddField(New(), "a");
    assert field.text == "SELECT a" + ",";
    FirstTableStep(field);
    SecondTableStep(AddFromTable(field, "t1").value);
    var q := AddTableName(AddFromTable(field, "t1").value, "t2").value;
    RenderDropsTrailingComma(q, "SELECT a FROM t1t2");
  }

  lemma FirstTableStep(field: Query)
    requires field.text == "SELECT a" + ","
    ensures AddFromTable(field, "t1") == Ok(field.(text := "SELECT a FROM t1" + ","))
  {
    TrimThenAppendAfterComma(field, "SELECT a", " FROM " + "t1" + ",");
    assert AddFromTable(field, "t1") == TrimThenAppend(field, " FROM " + "t1" + ",");
    assert "SELECT a" + (" FROM " + "t1" + ",") == "SELECT a FROM t1" + ",";
  }

  lemma SecondTableStep(from: Query)
    requires from.text == "SELECT a FROM t1" + ","
    ensures AddTableName(from, "t2") == Ok(from.(text := "SELECT a FROM t1t2" + ","))
  {
    TrimThenAppendAfterComma(from, "SELECT a FROM t1", "t2" + ",");
    assert "SELECT a FROM t1" + ("t2" + ",") == "SELECT a FROM t1t2" + ",";
  }

  /** `addTableName` as evidently intended: a further table joins the FROM list after the
      comma that `addFrom(table)` or the previous table left, so nothing is trimmed. */
  function AddTableNameToList(q: Query, tableName: string): (r: Query)
    ensures r.text == q.text + tableName + ","
    ensures Valid(q) ==> Valid(r)
  {
    Append(Append(q, tableName), ",")
  }

  /** Several further tables, in order. */
  function AddTableNamesToList(q: Query, tableNames: seq<string>): Query
    decreases |tableNames|
  {
    if tableNames == [] then q else AddTableNamesToList(AddTableNameToList(q, tableNames[0]), tableNames[1..])
  }

  lemma {:induction false} AddTableNamesToListSuffixesEach(q: Query, tableNames: seq<string>)
    ensures AddTableNamesToList(q, tableNames) == q.(text := q.text + Suffixed(tableNames, ","))
    decreases |tableNames|
  {
    if tableNames != [] {
      AddTableNamesToListSuffixesEach(AddTableNameToList(q, tableNames[0]), tableNames[1..]);
      assert q.text + tableNames[0] + "," + Suffixed(tableNames[1..], ",")
        == q.text + Suffixed(tableNames, ",");
    }
  }

  /** With the corrected method, `addFrom(first)` followed by further tables renders the
      FROM list comma-joined, for any number of tables. */
  lemma FromListIsCommaJoined(q: Query, first: string, rest: seq<string>)
    requires Valid(q)
    requires var last := ([first] + rest)[|rest|]; last != [] && last[|last| - 1] != ' '
    ensures var fromList := AddTableNamesToList(AddFromTable(q, first).value, rest);
            GetQueryString(fromList)
              == Ok(fromList.(text := DeleteLastCommaIfExist(q.text).value + " FROM " + Join([first] + rest, ",")))
  {
    var tables := [first] + rest;
    var head := DeleteLastCommaIfExist(q.text).value + " FROM ";
    var from := AddFromTable(q, first).value;
    assert from.text == head + first + ",";
    AddTableNamesToListSuffixesEach(from, rest);
    var fromList := AddTableNamesToList(from, rest);
    SuffixedIsJoinPlusSeparator(tables, ",");
    assert tables[1..] == rest;
    assert Suffixed(tables, ",") == first + "," + Suffixed(rest, ",");
    var t := head + Join(tables, ",");
    calc {
      fromList.text;
      from.text + Suffixed(rest, ",");
      head + (first + "," + Suffixed(rest, ","));
      head + Suffixed(tables, ",");
      t + ",";
    }
    JoinEndsWithLast(tables, ",");
    assert t[|t| - 1] != ' ';
    RenderDropsTrailingComma(fromList, t);
  }

  lemma {:induction false} JoinEndsWithLast(names: seq<string>, sep: string)
    requires names != [] && names[|names| - 1] != []
    ensures EndsWith(Join(names, sep), names[|names| - 1])
  {
    if |names| > 1 {
      JoinEndsWithLast(names[1..], sep);
    }
  }
}

/** `SQLQuery`: the older standalone builder.  It has the same two fields and the same
    two trims as `CommonQuery`, but starts from an empty buffer, separates fields and
    tables with ", ", and ends every WHERE clause with ", " too, so each appender that
    trims first turns the previous ", " into a single blank. */
module Sql {
  import opened JavaText
  import opened Values
  import opened Common

  /** `new SQLQuery()`: the field initialisers only, so the buffer is empty. */
  function New(): (q: Query)
    ensures q.text == [] && q.dateTimeFormat == DEFAULT_SQL_DATE_TIME_FORMAT
  {
    Fresh()
  }

  /** Rendering an SQLQuery before anything is appended throws: the comma trim reads
      index -2 of an empty buffer. */
  lemma FreshQueryCannotRender()
    ensures GetQueryString(New()) == Err(StringIndexOutOfBounds(-2, 0))
  {
  }

  /** `addSelect`. */
  function AddSelect(q: Query): (r: Query)
    ensures r.text == q.text + "SELECT "
    ensures r.dateTimeFormat == q.dateTimeFormat
  {
    Append(q, "SELECT ")
  }

  /** `addField`: the name followed by ", ". */
  function AddField(q: Query, name: string): (r: Query)
    ensures r.text == q.text + name + ", "
    ensures r.dateTimeFormat == q.dateTimeFormat
  {
    Append(Append(q, name), ", ")
  }

  /** Several `addField` calls, in order. */
  function AddFields(q: Query, names: seq<string>): Query
    decreases |names|
  {
    if names == [] then q else AddFields(AddField(q, names[0]), names[1..])
  }

  lemma {:induction false} AddFieldsSuffixesEachName(q: Query, names: seq<string>)
    ensures AddFields(q, names) == q.(text := q.text + Suffixed(names, ", "))
    decreases |names|
  {
    if names != [] {
      AddFieldsSuffixesEachName(AddField(q, names[0]), names[1..]);
      assert q.text + names[0] + ", " + Suffixed(names[1..], ", ") == q.text + Suffixed(names, ", ");
    }
  }

  /** `addFrom()`: trims a pending comma, then appends "FROM ". */
  function AddFrom(q: Query): (r: Result<Query>)
    ensures r.Err? <==> |q.text| < 2
    ensures r.Ok? ==> r.value.text == DeleteLastCommaIfExist(q.text).value + "FROM "
    ensures EndsWith(q.text, ", ") ==> r == Ok(q.(text := q.text[..|q.text| - 2] + " " + "FROM "))
  {
    TrimThenAppend(q, "FROM ")
  }

  /** `addFrom(tableName)`: trims a pending comma, then appends "FROM ", the name and ", ". */
  function AddFromTable(q: Query, tableName: string): (r: Result<Query>)
    ensures r.Err? <==> |q.text| < 2
    ensures r.Ok? ==> r.value.text == DeleteLastCommaIfExist(q.text).value + ("FROM " + tableName + ", ")
    ensures EndsWith(q.text, ", ") ==> r == Ok(q.(text := q.text[..|q.text| - 2] + " " + ("FROM " + tableName + ", ")))
  {
    TrimThenAppend(q, "FROM " + tableName + ", ")
  }

  /** A select list followed by `addFrom(table)` renders as the fields joined by ", " and
      the table: the FROM keyword takes over the blank of the last field's separator. */
  lemma {:induction false} FieldsThenFromRender(q: Query, names: seq<string>, tableName: string)
    requires names != []
    ensures var from := AddFromTable(AddFields(q, names), tableName);
            && from == Ok(q.(text := q.text + Join(names, ", ") + " FROM " + tableName + ", "))
            && GetQueryString(from.value) == Ok(q.(text := q.text + Join(names, ", ") + " FROM " + tableName))
  {
    var fields := AddFields(q, names);
    var head := q.text + Join(names, ", ");
    assert fields == q.(text := head + ", ") by {
      AddFieldsSuffixesEachName(q, names);
      SuffixedIsJoinPlusSeparator(names, ", ");
    }
    assert AddFromTable(fields, tableName) == Ok(q.(text := head + " FROM " + tableName + ", ")) by {
      SeparatedItemStep(fields, head, "FROM " + tableName);
      FromTakesOverBlank(head, tableName);
    }
    RenderDropsSeparator(q.(text := head + " FROM " + tableName + ", "), head + " FROM " + tableName);
  }

  lemma FromTakesOverBlank(head: string, tableName: string)
    ensures head + " " + ("FROM " + tableName) + ", " == head + " FROM " + tableName + ", "
  {
  }

  /** Several `addTableName` calls, in order. */
  function AddTableNames(q: Query, tableNames: seq<string>): Result<Query>
    decreases |tableNames|
  {
    if tableNames == [] then Ok(q)
    else
      match AddTableName(q, tableNames[0])
      case Err(fault) => Err(fault)
      case Ok(next) => AddTableNames(next, tableNames[1..])
  }

  lemma {:induction false} AddTableNamesAppendsEachSeparated(q: Query, tableNames: seq<string>)
    ensures AddTableNames(q, tableNames) == AppendEachSeparated(q, tableNames)
    decreases |tableNames|
  {
    if tableNames != [] {
      assert AddTableName(q, tableNames[0]) == TrimThenAppend(q, tableNames[0] + ", ");
      if AddTableName(q, tableNames[0]).Ok? {
        AddTableNamesAppendsEachSeparated(AddTableName(q, tableNames[0]).value, tableNames[1..]);
      }
    }
  }

  /** `addFrom(first)` and then `addTableName` for the others: each table takes over the
      blank of the previous ", ", so the FROM list renders with the tables separated by
      single blanks rather than commas. */
  lemma TablesJoinBySpace(q: Query, head: string, first: string, rest: seq<string>)
    requires q.text == head + ", "
    ensures var tables := AddTableNames(AddFromTable(q, first).value, rest);
            tables.Ok? && GetQueryString(tables.value) == Ok(q.(text := head + " FROM " + Join([first] + rest, " ")))
  {
    var fromHead := head + " FROM " + first;
    var from := q.(text := fromHead + ", ");
    FromTableAfterSeparator(q, head, first);
    var tables := [first] + rest;
    if rest == [] {
      assert AddTableNames(from, rest) == Ok(from);
      assert Join(tables, " ") == first;
      RenderDropsSeparator(from, fromHead);
    } else {
      var last := q.(text := fromHead + " " + Join(rest, " ") + ", ");
      TableNamesAfterSeparator(from, fromHead, rest);
      JoinWithFirst(head + " FROM ", first, rest, " ");
      RenderDropsSeparator(last, head + " FROM " + Join(tables, " "));
    }
  }

  lemma FromTableAfterSeparator(q: Query, head: string, tableName: string)
    requires q.text == head + ", "
    ensures AddFromTable(q, tableName) == Ok(q.(text := head + " FROM " + tableName + ", "))
  {
    SeparatedItemStep(q, head, "FROM " + tableName);
    FromTakesOverBlank(head, tableName);
  }

  lemma TableNamesAfterSeparator(q: Query, head: string, tableNames: seq<string>)
    requires q.text == head + ", " && tableNames != []
    ensures AddTableNames(q, tableNames) == Ok(q.(text := head + " " + Join(tableNames, " ") + ", "))
  {
    AddTableNamesAppendsEachSeparated(q, tableNames);
    SeparatedItemsJoinBySpace(q, head, tableNames);
  }

  /** One WHERE predicate of SQLQuery, by the method that writes it. */
  datatype WhereClause =
    | EqualsClause(name: string, value: Value)
    | BetweenClause(name: string, low: Value, high: Value)
    | LikeClause(name: string, value: Value, wildcard: char, position: WildcardPosition)
    | LikeValueClause(name: string, value: Value)
  {
    /** The clause formats a `Date` operand with the builder's pattern. */
    predicate FormatsDate()
    {
      || (EqualsClause? && value.DateValue?)
      || (BetweenClause? && (low.DateValue? || high.DateValue?))
    }
  }

  /** The text a clause writes before its ", " separator when it does not throw.  `=`
      takes any literal, BETWEEN only numbers and dates, and LIKE quotes the value's text
      whatever its class. */
  function ClauseText(c: WhereClause, pattern: string, lib: DateLibrary): string
  {
    match c
    case EqualsClause(name, value) => name + " = " + LiteralText(value, pattern, lib)
    case BetweenClause(name, low, high) =>
      name + " BETWEEN " + NumberOrDateText(low, pattern, lib) + " AND " + NumberOrDateText(high, pattern, lib)
    case LikeClause(name, value, wildcard, position) =>
      name + " LIKE '" + LikePattern(value, wildcard, position, lib) + "'"
    case LikeValueClause(name, value) => name + " LIKE '" + ObjectText(value, lib) + "'"
  }

  /** `addWhereClauseEquals`: trims, then `name = literal, `.  The trim runs first, so a
      short buffer raises the index fault before the literal is formatted; then a Date
      under a rejected pattern raises the pattern's exception. */
  function AddWhereClauseEquals(q: Query, name: string, value: Value, lib: DateLibrary): (r: Result<Query>)
    ensures r.Err? <==> |q.text| < 2 || FormatThrows(value, q.dateTimeFormat, lib)
    ensures |q.text| < 2 ==> r == Err(StringIndexOutOfBounds(|q.text| - 2, |q.text|))
    ensures |q.text| >= 2 && r.Err? ==> r.fault == IllegalPattern(q.dateTimeFormat)
    ensures r.Ok? ==>
      r.value.text == DeleteLastCommaIfExist(q.text).value + (name + " = " + LiteralText(value, q.dateTimeFormat, lib) + ", ")
    ensures r.Ok? ==> r.value.dateTimeFormat == q.dateTimeFormat
  {
    var trimmed :- DeleteLastCommaIfExist(q.text);
    var literal :- Literal(value, q.dateTimeFormat, lib);
    Ok(q.(text := trimmed + (name + " = " + literal + ", ")))
  }

  /** `addWhereClauseBetween`: trims, then `name BETWEEN low AND high, ` with the bounds
      through the number-or-date dispatch only, the low bound first. */
  function AddWhereClauseBetween(q: Query, name: string, low: Value, high: Value, lib: DateLibrary): (r: Result<Query>)
    ensures r.Err? <==> |q.text| < 2 || FormatThrows(low, q.dateTimeFormat, lib) || FormatThrows(high, q.dateTimeFormat, lib)
    ensures |q.text| < 2 ==> r == Err(StringIndexOutOfBounds(|q.text| - 2, |q.text|))
    ensures |q.text| >= 2 && r.Err? ==> r.fault == IllegalPattern(q.dateTimeFormat)
    ensures r.Ok? ==>
      r.value.text == DeleteLastCommaIfExist(q.text).value
        + (name + " BETWEEN " + NumberOrDateText(low, q.dateTimeFormat, lib)
           + " AND " + NumberOrDateText(high, q.dateTimeFormat, lib) + ", ")
    ensures r.Ok? ==> r.value.dateTimeFormat == q.dateTimeFormat
  {
    var trimmed :- DeleteLastCommaIfExist(q.text);
    var lowText :- NumberOrDateLiteral(low, q.dateTimeFormat, lib);
    var highText :- NumberOrDateLiteral(high, q.dateTimeFormat, lib);
    Ok(q.(text := trimmed + (name + " BETWEEN " + lowText + " AND " + highText + ", ")))
  }

  /** `addWhereClauseLike(name, value, wildcard, position)`: trims, then the pattern in
      quotes and ", ". */
  function AddWhereClauseLike(q: Query, name: string, value: Value, wildcard: char, position: WildcardPosition, lib: DateLibrary): (r: Result<Query>)
    ensures r.Err? <==> |q.text| < 2
    ensures r.Ok? ==>
      r.value.text == DeleteLastCommaIfExist(q.text).value + (name + " LIKE '" + LikePattern(value, wildcard, position, lib) + "'" + ", ")
    ensures r.Ok? ==> r.value.dateTimeFormat == q.dateTimeFormat
  {
    TrimThenAppend(q, name + " LIKE '" + LikePattern(value, wildcard, position, lib) + "'" + ", ")
  }

  /** `addWhereClauseLike(name, value)`: trims, then the value's text in quotes and ", ". */
  function AddWhereClauseLikeValue(q: Query, name: string, value: Value, lib: DateLibrary): (r: Result<Query>)
    ensures r.Err? <==> |q.text| < 2
    ensures r.Ok? ==>
      r.value.text == DeleteLastCommaIfExist(q.text).value + (name + " LIKE '" + ObjectText(value, lib) + "'" + ", ")
    ensures r.Ok? ==> r.value.dateTimeFormat == q.dateTimeFormat
  {
    TrimThenAppend(q, name + " LIKE '" + ObjectText(value, lib) + "'" + ", ")
  }

  /** The call that writes clause `c`. */
  function AddWhereClause(q: Query, c: WhereClause, lib: DateLibrary): Result<Query>
  {
    match c
    case EqualsClause(name, value) => AddWhereClauseEquals(q, name, value, lib)
    case BetweenClause(name, low, high) => AddWhereClauseBetween(q, name, low, high, lib)
    case LikeClause(name, value, wildcard, position) => AddWhereClauseLike(q, name, value, wildcard, position, lib)
    case LikeValueClause(name, value) => AddWhereClauseLikeValue(q, name, value, lib)
  }

  /** What one clause call does: the index fault on a short buffer, the pattern's
      exception for a Date under a rejected pattern, and otherwise the trimming append of
      the clause text and ", ". */
  lemma AddWhereClauseCases(q: Query, c: WhereClause, lib: DateLibrary)
    ensures |q.text| >= 2 && c.FormatsDate() && !lib.accepts(q.dateTimeFormat) ==>
      AddWhereClause(q, c, lib) == Err(IllegalPattern(q.dateTimeFormat))
    ensures !(c.FormatsDate() && !lib.accepts(q.dateTimeFormat)) ==>
      AddWhereClause(q, c, lib) == TrimThenAppend(q, ClauseText(c, q.dateTimeFormat, lib) + ", ")
  {
  }

  /** Several clauses, in order; the first exception ends the chain. */
  function AddWhereClauses(q: Query, clauses: seq<WhereClause>, lib: DateLibrary): Result<Query>
    decreases |clauses|
  {
    if clauses == [] then Ok(q)
    else
      match AddWhereClause(q, clauses[0], lib)
      case Err(fault) => Err(fault)
      case Ok(next) => AddWhereClauses(next, clauses[1..], lib)
  }

  function ClauseTexts(clauses: seq<WhereClause>, pattern: string, lib: DateLibrary): (r: seq<string>)
    ensures |r| == |clauses|
    ensures forall i :: 0 <= i < |clauses| ==> r[i] == ClauseText(clauses[i], pattern, lib)
  {
    seq(|clauses|, i requires 0 <= i < |clauses| => ClauseText(clauses[i], pattern, lib))
  }

  /** No clause of the run throws: none formats a Date, or the pattern is accepted. */
  predicate NoneThrows(clauses: seq<WhereClause>, pattern: string, lib: DateLibrary)
  {
    lib.accepts(pattern) || forall i :: 0 <= i < |clauses| ==> !clauses[i].FormatsDate()
  }

  lemma {:induction false} ClausesAppendEachSeparated(q: Query, clauses: seq<WhereClause>, lib: DateLibrary)
    requires NoneThrows(clauses, q.dateTimeFormat, lib)
    ensures AddWhereClauses(q, clauses, lib) == AppendEachSeparated(q, ClauseTexts(clauses, q.dateTimeFormat, lib))
    decreases |clauses|
  {
    if clauses != [] {
      var texts := ClauseTexts(clauses, q.dateTimeFormat, lib);
      AddWhereClauseCases(q, clauses[0], lib);
      assert texts[1..] == ClauseTexts(clauses[1..], q.dateTimeFormat, lib);
      var next := AddWhereClause(q, clauses[0], lib);
      if next.Ok? {
        assert next.value.dateTimeFormat == q.dateTimeFormat;
        ClausesAppendEachSeparated(next.value, clauses[1..], lib);
      }
    }
  }

  /** A run of clauses in which some clause formats a Date under a rejected pattern ends
      with the pattern's exception (the pattern never changes along the run). */
  lemma {:induction false} RejectedPatternThrows(q: Query, clauses: seq<WhereClause>, lib: DateLibrary)
    requires |q.text| >= 2
    ensures !NoneThrows(clauses, q.dateTimeFormat, lib) ==>
      AddWhereClauses(q, clauses, lib) == Err(IllegalPattern(q.dateTimeFormat))
    decreases |clauses|
  {
    if clauses != [] && !NoneThrows(clauses, q.dateTimeFormat, lib) {
      AddWhereClauseCases(q, clauses[0], lib);
      var next := AddWhereClause(q, clauses[0], lib);
      if next.Ok? {
        var rest := clauses[1..];
        assert !clauses[0].FormatsDate();
        assert exists i :: 0 <= i < |rest| && rest[i].FormatsDate() by {
          var i :| 0 <= i < |clauses| && clauses[i].FormatsDate();
          assert rest[i - 1] == clauses[i];
        }
        RejectedPatternThrows(next.value, rest, lib);
      }
    }
  }

  /** After `addWhere`, a run of clauses renders as the clause texts separated by single
      blanks: each clause takes over the blank of the previous ", ", so no AND or OR and
      no comma ever appears between them.  If some clause formats a Date under a rejected
      pattern, the run throws that pattern's exception instead. */
  lemma ClausesJoinBySpace(q: Query, clauses: seq<WhereClause>, lib: DateLibrary)
    requires |q.text| >= 2 && !CommaPending(q.text) && clauses != []
    ensures var texts := ClauseTexts(clauses, q.dateTimeFormat, lib);
            NoneThrows(clauses, q.dateTimeFormat, lib) ==>
              && AddWhereClauses(q, clauses, lib) == Ok(q.(text := q.text + Join(texts, " ") + ", "))
              && GetQueryString(AddWhereClauses(q, clauses, lib).value) == Ok(q.(text := q.text + Join(texts, " ")))
    ensures !NoneThrows(clauses, q.dateTimeFormat, lib) ==>
      AddWhereClauses(q, clauses, lib) == Err(IllegalPattern(q.dateTimeFormat))
  {
    RejectedPatternThrows(q, clauses, lib);
    if NoneThrows(clauses, q.dateTimeFormat, lib) {
      var texts := ClauseTexts(clauses, q.dateTimeFormat, lib);
      ClausesAppendEachSeparated(q, clauses, lib);
      ItemsJoinBySpace(q, texts);
      RenderDropsSeparator(q.(text := q.text + Join(texts, " ") + ", "), q.text + Join(texts, " "));
    }
  }

  /** One public call on an SQLQuery. */
  datatype Call =
    | SelectCall
    | FieldCall(name: string)
    | FromCall
    | FromTableCall(tableName: string)
    | TableNameCall(tableName: string)
    | WhereCall
    | ClauseCall(clause: WhereClause)
    | SetDateTimeFormatCall(pattern: string)
    | GetQueryStringCall

  /** The effect of one call.  Once the buffer starts with SELECT no call raises the
      index fault; the only exception left is a Date clause under a rejected pattern.
      Only `setDateTimeFormat` changes the pattern. */
  function Apply(q: Query, call: Call, lib: DateLibrary): (r: Result<Query>)
    ensures KeywordPrefix(q.text, "SELECT") ==>
      (r.Err? <==> call.ClauseCall? && call.clause.FormatsDate() && !lib.accepts(q.dateTimeFormat))
    ensures KeywordPrefix(q.text, "SELECT") && r.Err? ==> r.fault == IllegalPattern(q.dateTimeFormat)
    ensures KeywordPrefix(q.text, "SELECT") && r.Ok? ==> KeywordPrefix(r.value.text, "SELECT")
    ensures r.Ok? ==> r.value.dateTimeFormat == (if call.SetDateTimeFormatCall? then call.pattern else q.dateTimeFormat)
  {
    KeywordSurvivesCommaTrim(q.text, "SELECT");
    KeywordSurvivesRender(q, "SELECT");
    match call
    case SelectCall => Ok(AddSelect(q))
    case FieldCall(name) => Ok(AddField(q, name))
    case FromCall => AddFrom(q)
    case FromTableCall(tableName) => AddFromTable(q, tableName)
    case TableNameCall(tableName) => AddTableName(q, tableName)
    case WhereCall => AddWhere(q)
    case ClauseCall(c) => AddWhereClauseCases(q, c, lib); AddWhereClause(q, c, lib)
    case SetDateTimeFormatCall(pattern) => Ok(SetDateTimeFormat(q, pattern))
    case GetQueryStringCall => GetQueryString(q)
  }

  /** A chain of calls; the first exception ends it. */
  function Run(q: Query, calls: seq<Call>, lib: DateLibrary): Result<Query>
    decreases |calls|
  {
    if calls == [] then Ok(q)
    else
      match Apply(q, calls[0], lib)
      case Err(fault) => Err(fault)
      case Ok(next) => Run(next, calls[1..], lib)
  }

  /** The call formats a `Date`. */
  predicate FormatsDate(call: Call)
  {
    call.ClauseCall? && call.clause.FormatsDate()
  }

  /** Every pattern in force along a chain is accepted: the starting one and each one set. */
  predicate PatternsAccepted(pattern: string, calls: seq<Call>, lib: DateLibrary)
  {
    && lib.accepts(pattern)
    && forall i :: 0 <= i < |calls| && calls[i].SetDateTimeFormatCall? ==> lib.accepts(calls[i].pattern)
  }

  /** Nothing but `addSelect` guards the unguarded reads: once "SELECT" is at the head of
      the buffer no chain of calls raises the index fault, and the keyword stays there.
      The only exception left is a rejected date pattern, so a chain that formats no
      Date or keeps to accepted patterns completes. */
  lemma {:induction false} CallsAfterSelectNeverThrow(q: Query, calls: seq<Call>, lib: DateLibrary)
    requires KeywordPrefix(q.text, "SELECT")
    ensures Run(q, calls, lib).Ok? ==> KeywordPrefix(Run(q, calls, lib).value.text, "SELECT")
    ensures Run(q, calls, lib).Err? ==>
      Run(q, calls, lib).fault.IllegalPattern? && !lib.accepts(Run(q, calls, lib).fault.pattern)
    ensures (forall i :: 0 <= i < |calls| ==> !FormatsDate(calls[i])) ==> Run(q, calls, lib).Ok?
    ensures PatternsAccepted(q.dateTimeFormat, calls, lib) ==> Run(q, calls, lib).Ok?
    decreases |calls|
  {
    if calls != [] {
      var step := Apply(q, calls[0], lib);
      if step.Ok? {
        var rest := calls[1..];
        assert forall i :: 0 <= i < |rest| ==> rest[i] == calls[i + 1];
        CallsAfterSelectNeverThrow(step.value, rest, lib);
      }
    }
  }

  /** Starting with `addSelect`, an SQLQuery never raises the index fault, and with
      accepted patterns it never throws at all. */
  lemma SelectFirstNeverThrows(calls: seq<Call>, lib: DateLibrary)
    ensures Run(New(), [SelectCall] + calls, lib).Err? ==> Run(New(), [SelectCall] + calls, lib).fault.IllegalPattern?
    ensures PatternsAccepted(DEFAULT_SQL_DATE_TIME_FORMAT, calls, lib) ==> Run(New(), [SelectCall] + calls, lib).Ok?
  {
    var selected := AddSelect(New());
    assert KeywordPrefix(selected.text, "SELECT");
    assert ([SelectCall] + calls)[1..] == calls;
    CallsAfterSelectNeverThrow(selected, calls, lib);
  }

  /** Without it, every call that trims first throws on the fresh, empty buffer. */
  lemma TrimmingFirstThrows(call: Call, lib: DateLibrary)
    requires !call.SelectCall? && !call.FieldCall? && !call.SetDateTimeFormatCall?
    ensures Apply(New(), call, lib) == Err(StringIndexOutOfBounds(-2, 0))
  {
  }

  /** The three fields of the query the SQLQuery tests build. */
  function EmployeeFields(): Query
  {
    AddField(AddField(AddField(AddSelect(New()), "name"), "family"), "sex")
  }

  lemma EmployeeFieldsText()
    ensures EmployeeFields().text == "SELECT name, family, sex" + ", "
  {
  }

  lemma EmployeeFromStep(fields: Query)
    requires fields.text == "SELECT name, family, sex" + ", "
    ensures AddFromTable(fields, "employee") == Ok(fields.(text := "SELECT name, family, sex FROM employee" + ", "))
  {
    FromTableAfterSeparator(fields, "SELECT name, family, sex", "employee");
    assert "SELECT name, family, sex" + " FROM " + "employee" == "SELECT name, family, sex FROM employee";
  }

  lemma EmployeeWhereStep(from: Query)
    requires from.text == "SELECT name, family, sex FROM employee" + ", "
    ensures AddWhere(from) == Ok(from.(text := "SELECT name, family, sex FROM employee WHERE "))
  {
    TrimThenAppendAfterSeparator(from, "SELECT name, family, sex FROM employee", "WHERE ");
    assert "SELECT name, family, sex FROM employee" + " " + "WHERE " == "SELECT name, family, sex FROM employee WHERE ";
  }

  lemma IdEqualsStep(w: Query, lib: DateLibrary)
    requires w.text == "SELECT name, family, sex FROM employee WHERE "
    ensures AddWhereClauseEquals(w, "id", IntegerValue(143), lib).value.text
      == "SELECT name, family, sex FROM employee WHERE id = 143" + ", "
  {
    assert DeleteLastCommaIfExist(w.text) == Ok(w.text);
    assert DecimalText(143) == "143";
  }

  /** addSelect, three fields, addFrom("employee"), addWhere and `id = 143` render as
      "SELECT name, family, sex FROM employee WHERE id = 143". */
  lemma EqualsIdScenario(lib: DateLibrary)
    ensures var w := AddWhere(AddFromTable(EmployeeFields(), "employee").value).value;
            GetQueryString(AddWhereClauseEquals(w, "id", IntegerValue(143), lib).value).value.text
              == "SELECT name, family, sex FROM employee WHERE id = 143"
  {
    var fields := EmployeeFields();
    EmployeeFieldsText();
    EmployeeFromStep(fields);
    var from := AddFromTable(fields, "employee").value;
    EmployeeWhereStep(from);
    var w := AddWhere(from).value;
    IdEqualsStep(w, lib);
    RenderDropsSeparator(AddWhereClauseEquals(w, "id", IntegerValue(143), lib).value,
                         "SELECT name, family, sex FROM employee WHERE id = 143");
  }
}

/** `InsertQuery`: the INSERT builder.  It starts with "INSERT INTO ", its table name is
    followed by a blank (no comma trim), and the column list is written in parentheses
    with the loop's last comma trimmed away. */
module Insert {
  import opened JavaText
  import opened Common

  /** What every InsertQuery keeps at its head, out of reach of both trims. */
  predicate Valid(q: Query)
  {
    KeywordPrefix(q.text, "INSERT INTO")
  }

  /** `new InsertQuery()`. */
  function New(): (q: Query)
    ensures q.text == "INSERT INTO " && q.dateTimeFormat == DEFAULT_SQL_DATE_TIME_FORMAT
    ensures Valid(q)
  {
    Append(Fresh(), "INSERT INTO ")
  }

  /** `new InsertQuery(dbName)`: the name goes straight after the keyword, followed by a
      blank, exactly as `addTableName` would put it. */
  function NewWithDatabase(dbName: string): (q: Query)
    ensures q.text == "INSERT INTO " + dbName + " " && q.dateTimeFormat == DEFAULT_SQL_DATE_TIME_FORMAT
    ensures q == AddTableName(New(), dbName)
    ensures Valid(q)
  {
    Append(Append(Append(Fresh(), "INSERT INTO "), dbName), " ")
  }

  /** The `addTableName` override: the name and a blank, with no comma trim, so it never
      throws and keeps everything already written. */
  function AddTableName(q: Query, name: string): (r: Query)
    ensures r.text == q.text + name + " "
    ensures r.dateTimeFormat == q.dateTimeFormat
    ensures Valid(q) ==> Valid(r)
  {
    Append(Append(q, name), " ")
  }

  /** `addInsertableFieldNamesCommonMethod`: "(", each name followed by "," (the loop),
      the comma trim, then ") ".  A non-empty list leaves exactly the comma-joined names
      in parentheses; an empty one leaves "() " but lets the trim reach back into what
      was already written. */
  function AddInsertableFieldNames(q: Query, names: seq<string>): (r: Result<Query>)
    ensures r.Err? <==> names == [] && q.text == []
    ensures r.Err? ==> r.fault == StringIndexOutOfBounds(-1, 1)
    ensures r.Ok? ==> r.value.dateTimeFormat == q.dateTimeFormat
    ensures names != [] ==> r == Ok(q.(text := q.text + "(" + Join(names, ",") + ") "))
    ensures names == [] && q.text != [] && q.text[|q.text| - 1] == ',' ==>
      r == Ok(q.(text := q.text[..|q.text| - 1] + "() "))
    ensures names == [] && q.text != [] && q.text[|q.text| - 1] != ',' ==>
      r == Ok(q.(text := q.text + "() "))
    ensures Valid(q) ==> r.Ok? && Valid(r.value)
  {
    var listed := q.text + "(" + Suffixed(names, ",");
    ColumnTrim(q, names);
    ColumnsKeepKeyword(q, names);
    EmptyParentheses(q.text);
    match DeleteLastCommaIfExist(listed)
    case Err(fault) => Err(fault)
    case Ok(trimmed) => Ok(q.(text := trimmed + ") "))
  }

  lemma EmptyParentheses(x: string)
    ensures x + "(" + ") " == x + "() "
    ensures x != [] ==> x[..|x| - 1] + "(" + ") " == x[..|x| - 1] + "() "
  {
  }

  lemma ColumnsKeepKeyword(q: Query, names: seq<string>)
    ensures var s := q.text + "(" + Suffixed(names, ",");
      Valid(q) ==> DeleteLastCommaIfExist(s).Ok? && Valid(q.(text := DeleteLastCommaIfExist(s).value + ") "))
  {
    var s := q.text + "(" + Suffixed(names, ",");
    if Valid(q) {
      assert s[..|q.text|] == q.text;
      assert KeywordPrefix(s, "INSERT INTO");
      KeywordSurvivesCommaTrim(s, "INSERT INTO");
      var t := DeleteLastCommaIfExist(s).value;
      assert (t + ") ")[..|t|] == t;
    }
  }

  /** What the comma trim leaves after the loop, case by case. */
  lemma ColumnTrim(q: Query, names: seq<string>)
    ensures var s := q.text + "(" + Suffixed(names, ",");
      && (names != [] ==> DeleteLastCommaIfExist(s) == Ok(q.text + "(" + Join(names, ",")))
      && (names == [] && q.text != [] && q.text[|q.text| - 1] == ',' ==>
            DeleteLastCommaIfExist(s) == Ok(q.text[..|q.text| - 1] + "("))
      && (names == [] && q.text != [] && q.text[|q.text| - 1] != ',' ==>
            DeleteLastCommaIfExist(s) == Ok(q.text + "("))
  {
    var s := q.text + "(" + Suffixed(names, ",");
    if names != [] {
      SuffixedIsJoinPlusSeparator(names, ",");
      assert s == (q.text + "(" + Join(names, ",")) + ",";
      CommaTrimDropsTrailingComma(q.text + "(" + Join(names, ","));
    } else if q.text != [] {
      assert s == q.text + "(";
      if q.text[|q.text| - 1] == ',' {
        assert DeleteAt(s, |s| - 2) == q.text[..|q.text| - 1] + "(";
      }
    }
  }

  /** The column names can be read back from the buffer: between the parentheses the
      list splits on ',' into exactly the names given, when none of them holds a comma. */
  lemma ColumnListRoundTrip(q: Query, names: seq<string>)
    requires names != []
    requires forall i :: 0 <= i < |names| ==> ',' !in names[i]
    ensures var t := AddInsertableFieldNames(q, names).value.text;
      var inner := t[|q.text| + 1..|t| - 2];
      && t[|q.text|] == '('
      && t[|t| - 2..] == ") "
      && Split(inner, ',') == names
  {
    var t := AddInsertableFieldNames(q, names).value.text;
    var joined := Join(names, ",");
    assert t == q.text + "(" + joined + ") ";
    assert t[|q.text| + 1..|t| - 2] == joined;
    SplitJoinRoundTrip(names, ',');
  }

  /** `new InsertQuery(dbName)` with a column list renders as
      "INSERT INTO dbName (name,...)": only the final blank is trimmed. */
  lemma DatabaseWithColumnsRenders(dbName: string, names: seq<string>)
    requires names != []
    ensures var q := AddInsertableFieldNames(NewWithDatabase(dbName), names).value;
      GetQueryString(q) == Ok(q.(text := "INSERT INTO " + dbName + " (" + Join(names, ",") + ")"))
  {
    var head := NewWithDatabase(dbName);
    var q := AddInsertableFieldNames(head, names).value;
    var body := "INSERT INTO " + dbName + " (" + Join(names, ",") + ")";
    assert q.text == body + " ";
    RenderDropsTrailingSpace(q, body);
  }

  /** The table-name override is not the trimming one it replaces: after a pending
      ", " it keeps the comma where `CommonQuery.addTableName` would remove it. */
  lemma TableNameKeepsPendingComma(q: Query, head: string, name: string)
    requires q.text == head + ", "
    ensures AddTableName(q, name).text == head + ", " + name + " "
    ensures Common.AddTableName(q, name) == Ok(q.(text := head + " " + name + ", "))
  {
    TrimThenAppendAfterSeparator(q, head, name + ", ");
    assert head + " " + (name + ", ") == head + " " + name + ", ";
  }

  /** The employee example: `new InsertQuery("employee")` with the columns name and family. */
  lemma EmployeeColumnsScenario()
    ensures GetQueryString(AddInsertableFieldNames(NewWithDatabase("employee"), ["name", "family"]).value).value.text
      == "INSERT INTO employee (name,family)"
  {
    DatabaseWithColumnsRenders("employee", ["name", "family"]);
    EmployeeColumnsText();
  }

  lemma EmployeeColumnsText()
    ensures "INSERT INTO " + "employee" + " (" + Join(["name", "family"], ",") + ")" == "INSERT INTO employee (name,family)"
  {
    var names := ["name", "family"];
    assert names[1..] == ["family"];
    assert Join(names, ",") == "name" + "," + "family";
  }
}

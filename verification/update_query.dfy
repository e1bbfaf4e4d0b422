/** `UpdateQuery`: the UPDATE builder.  Its table name is followed by a blank (no comma
    trim) and `addSET` writes " SET " with a blank of its own in front. */
module Update {
  import opened JavaText
  import opened Common

  /** What every UpdateQuery keeps at its head, out of reach of both trims. */
  predicate Valid(q: Query)
  {
    KeywordPrefix(q.text, "UPDATE")
  }

  /** `new UpdateQuery()`. */
  function New(): (q: Query)
    ensures q.text == "UPDATE " && q.dateTimeFormat == DEFAULT_SQL_DATE_TIME_FORMAT
    ensures Valid(q)
  {
    Append(Fresh(), "UPDATE ")
  }

  /** `new UpdateQuery(tableName)`: the table and then " SET ". */
  function NewWithTable(tableName: string): (q: Query)
    ensures q.text == "UPDATE " + tableName + " SET " && q.dateTimeFormat == DEFAULT_SQL_DATE_TIME_FORMAT
    ensures Valid(q)
  {
    Append(Append(Append(Fresh(), "UPDATE "), tableName), " SET ")
  }

  /** The `addTableName` override: the name and a blank, with no comma trim. */
  function AddTableName(q: Query, name: string): (r: Query)
    ensures r.text == q.text + name + " "
    ensures r.dateTimeFormat == q.dateTimeFormat
    ensures Valid(q) ==> Valid(r)
  {
    Append(Append(q, name), " ")
  }

  /** `addSET`. */
  function AddSet(q: Query): (r: Query)
    ensures r.text == q.text + " SET "
    ensures r.dateTimeFormat == q.dateTimeFormat
    ensures Valid(q) ==> Valid(r)
  {
    Append(q, " SET ")
  }

  /** Building the table and SET step by step is not the same as the one-argument
      constructor: the blank after the table and the blank `addSET` starts with add up
      to two. */
  lemma StepwiseSetHasTwoBlanks(tableName: string)
    ensures AddSet(AddTableName(New(), tableName)).text == "UPDATE " + tableName + "  SET "
    ensures AddSet(AddTableName(New(), tableName)) != NewWithTable(tableName)
  {
    var stepwise := AddSet(AddTableName(New(), tableName)).text;
    var direct := NewWithTable(tableName).text;
    assert stepwise == "UPDATE " + tableName + "  SET ";
    assert |stepwise| == |direct| + 1;
  }

  /** `new UpdateQuery(tableName)` renders as "UPDATE tableName SET": only the final
      blank is trimmed. */
  lemma TableConstructorRenders(tableName: string)
    ensures GetQueryString(NewWithTable(tableName))
      == Ok(Query("UPDATE " + tableName + " SET", DEFAULT_SQL_DATE_TIME_FORMAT))
  {
    var q := NewWithTable(tableName);
    assert q.text == ("UPDATE " + tableName + " SET") + " ";
    RenderDropsTrailingSpace(q, "UPDATE " + tableName + " SET");
  }

  /** The stepwise form renders with both blanks before SET still there. */
  lemma StepwiseSetRenders(tableName: string)
    ensures GetQueryString(AddSet(AddTableName(New(), tableName))).value.text
      == "UPDATE " + tableName + "  SET"
  {
    var q := AddSet(AddTableName(New(), tableName));
    StepwiseSetHasTwoBlanks(tableName);
    assert q.text == ("UPDATE " + tableName + "  SET") + " ";
    RenderDropsTrailingSpace(q, "UPDATE " + tableName + "  SET");
  }

  /** An UpdateQuery never throws when rendered, whatever was appended after the keyword. */
  lemma ValidNeverThrows(q: Query)
    requires Valid(q)
    ensures GetQueryString(q).Ok? && Valid(GetQueryString(q).value)
  {
    KeywordSurvivesRender(q, "UPDATE");
  }
}

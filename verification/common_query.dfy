/** `CommonQuery`: the buffer every statement builder appends to, the two trims that
    tidy its tail, rendering, and the base appenders the subclasses inherit.  The
    Java class mutates a `StringBuilder`; here every method maps the old state to
    the new one. */
module Common {
  import opened JavaText

  const DEFAULT_SQL_DATE_TIME_FORMAT: string := "yyyy-MM-dd HH:mm:ss.SSS"

  /** A builder's state: the text in its `StringBuilder` and its date-time pattern. */
  datatype Query = Query(text: string, dateTimeFormat: string)

  /** The state the field initialisers give every builder before its constructor body runs. */
  function Fresh(): Query
  {
    Query("", DEFAULT_SQL_DATE_TIME_FORMAT)
  }

  /** `queryBuilder.append(s)`. */
  function Append(q: Query, s: string): Query
  {
    q.(text := q.text + s)
  }

  /** `s` with the character at index `k` removed (`StringBuilder.deleteCharAt(k)`). */
  function DeleteAt(s: string, k: nat): string
    requires k < |s|
  {
    s[..k] + s[k + 1..]
  }

  lemma MultisetOfDeleteAt(s: string, k: nat)
    requires k < |s|
    ensures multiset(s) == multiset(DeleteAt(s, k)) + multiset{s[k]}
  {
    assert s == s[..k] + [s[k]] + s[k + 1..];
  }

  predicate EndsWith(s: string, suffix: string)
  {
    |suffix| <= |s| && s[|s| - |suffix|..] == suffix
  }

  /** A comma in either of the last two characters: what the comma trim looks for. */
  predicate CommaPending(s: string)
    requires |s| >= 2
  {
    s[|s| - 2] == ',' || s[|s| - 1] == ','
  }

  /** Something rendering would remove: a pending comma or a trailing space. */
  predicate Pending(s: string)
    requires |s| >= 2
  {
    CommaPending(s) || s[|s| - 1] == ' '
  }

  /** `deleteLastCommaIFExist`.  It reads the character at `length - 2` without a guard,
      so a buffer shorter than two characters throws.  At most one character goes, it is
      always a ',' in one of the last two places, and the one at `length - 2` is preferred. */
  function DeleteLastCommaIfExist(s: string): (r: Result<string>)
    ensures r.Err? <==> |s| < 2
    ensures r.Err? ==> r.fault == StringIndexOutOfBounds(|s| - 2, |s|)
    ensures r.Ok? ==> |s| - 1 <= |r.value| <= |s|
    ensures r.Ok? ==> (r.value == s <==> !CommaPending(s))
    ensures r.Ok? ==> r.value[..|s| - 2] == s[..|s| - 2]
    ensures r.Ok? && s[|s| - 2] == ',' ==> r.value == DeleteAt(s, |s| - 2)
    ensures |s| >= 2 && s[|s| - 1] == ',' ==> r == Ok(s[..|s| - 1])
    ensures |s| >= 2 && s[|s| - 2..] == ", " ==> r == Ok(s[..|s| - 2] + " ")
  {
    if |s| < 2 then
      Err(StringIndexOutOfBounds(|s| - 2, |s|))
    else if s[|s| - 2] == ',' then
      assert s[|s| - 1] == ',' ==> DeleteAt(s, |s| - 2) == s[..|s| - 1];
      assert s[|s| - 1] == ' ' ==> DeleteAt(s, |s| - 2) == s[..|s| - 2] + " ";
      Ok(DeleteAt(s, |s| - 2))
    else if s[|s| - 1] == ',' then
      assert DeleteAt(s, |s| - 1) == s[..|s| - 1];
      Ok(DeleteAt(s, |s| - 1))
    else
      Ok(s)
  }

  /** `deleteLastSpaceIFExist`: removes one trailing space (not a run of them); an empty
      buffer throws. */
  function DeleteLastSpaceIfExist(s: string): (r: Result<string>)
    ensures r.Err? <==> s == []
    ensures r.Err? ==> r.fault == StringIndexOutOfBounds(-1, 0)
    ensures r.Ok? ==> (r.value == s <==> s[|s| - 1] != ' ')
    ensures r.Ok? && r.value != s ==> r.value + " " == s
  {
    if s == [] then
      Err(StringIndexOutOfBounds(-1, 0))
    else if s[|s| - 1] == ' ' then
      assert DeleteAt(s, |s| - 1) + " " == s;
      Ok(DeleteAt(s, |s| - 1))
    else
      Ok(s)
  }

  /** `getQueryString`: trims a pending comma, then a trailing space, and returns the
      buffer.  The trims are applied to the builder itself, so the new state is the
      result and its text is the rendered query.  Only the last two characters can be
      touched, only commas and spaces are ever removed, and nothing changes exactly
      when nothing is pending. */
  function GetQueryString(q: Query): (r: Result<Query>)
    ensures r.Err? <==> |q.text| < 2
    ensures r.Ok? ==> r.value.dateTimeFormat == q.dateTimeFormat
    ensures r.Ok? ==> |q.text| - 2 <= |r.value.text| <= |q.text|
    ensures r.Ok? ==> r.value.text[..|q.text| - 2] == q.text[..|q.text| - 2]
    ensures r.Ok? ==> (r.value.text == q.text <==> !Pending(q.text))
  {
    match DeleteLastCommaIfExist(q.text)
    case Err(fault) => Err(fault)
    case Ok(withoutComma) =>
      // the comma trim leaves at least one character, so the space trim cannot throw
      var withoutSpace := DeleteLastSpaceIfExist(withoutComma).value;
      Ok(q.(text := withoutSpace))
  }

  /** The comma trim removes a ',' and nothing else. */
  lemma CommaTrimRemovesOneComma(s: string)
    requires |s| >= 2
    ensures var r := DeleteLastCommaIfExist(s).value;
            r != s ==> multiset(s) == multiset(r) + multiset{','}
  {
    if s[|s| - 2] == ',' {
      MultisetOfDeleteAt(s, |s| - 2);
    } else if s[|s| - 1] == ',' {
      MultisetOfDeleteAt(s, |s| - 1);
      assert DeleteAt(s, |s| - 1) == s[..|s| - 1];
    }
  }

  /** Rendering removes commas and spaces only: every other character keeps its count. */
  lemma RenderRemovesOnlyCommasAndSpaces(q: Query)
    requires |q.text| >= 2
    ensures var r := GetQueryString(q).value.text;
            && multiset(r) <= multiset(q.text)
            && forall c :: c != ',' && c != ' ' ==> multiset(r)[c] == multiset(q.text)[c]
  {
    CommaTrimRemovesOneComma(q.text);
    var t := DeleteLastCommaIfExist(q.text).value;
    var u := DeleteLastSpaceIfExist(t).value;
    if u != t {
      assert t == u + " ";
      assert multiset(t) == multiset(u) + multiset{' '};
    }
  }

  /** `toString`: the same as `getQueryString`, trims included. */
  function ToString(q: Query): (r: Result<Query>)
    ensures r == GetQueryString(q)
  {
    GetQueryString(q)
  }

  /** Rendering twice is not rendering once: the first render takes the pending comma
      of the last field, the second takes the comma between the two fields. */
  lemma RenderIsNotIdempotent(pattern: string)
    ensures GetQueryString(Query("SELECT a,b,", pattern)) == Ok(Query("SELECT a,b", pattern))
    ensures GetQueryString(Query("SELECT a,b", pattern)) == Ok(Query("SELECT ab", pattern))
  {
    var once: string := "SELECT a,b,";
    assert once[..|once| - 1] == "SELECT a,b";
    assert DeleteLastCommaIfExist(once) == Ok("SELECT a,b");
    assert DeleteLastSpaceIfExist("SELECT a,b") == Ok("SELECT a,b");
    var twice: string := "SELECT a,b";
    assert DeleteAt(twice, |twice| - 2) == "SELECT ab";
    assert DeleteLastCommaIfExist(twice) == Ok("SELECT ab");
    assert DeleteLastSpaceIfExist("SELECT ab") == Ok("SELECT ab");
  }

  /** The comma trim takes a comma that ends the buffer. */
  lemma CommaTrimDropsTrailingComma(x: string)
    requires x != []
    ensures DeleteLastCommaIfExist(x + ",") == Ok(x)
  {
    assert (x + ",")[..|x|] == x;
  }

  /** Rendering a buffer that ends in one pending comma removes just that comma. */
  lemma RenderDropsTrailingComma(q: Query, x: string)
    requires q.text == x + "," && x != [] && x[|x| - 1] != ' '
    ensures GetQueryString(q) == Ok(q.(text := x))
  {
    CommaTrimDropsTrailingComma(x);
  }

  /** Rendering a buffer that ends in one space after a non-comma removes just that space. */
  lemma RenderDropsTrailingSpace(q: Query, x: string)
    requires q.text == x + " " && x != [] && x[|x| - 1] != ','
    ensures GetQueryString(q) == Ok(q.(text := x))
  {
    assert DeleteLastCommaIfExist(q.text) == Ok(q.text);
    assert DeleteAt(q.text, |q.text| - 1) == x;
  }

  /** Rendering after a clause that ends in one space removes just that space. */
  lemma RenderDropsClauseSpace(q: Query, prefix: string, clause: string)
    requires q.text == prefix + (clause + " ") && clause != [] && clause[|clause| - 1] != ','
    ensures GetQueryString(q) == Ok(q.(text := prefix + clause))
  {
    assert q.text == (prefix + clause) + " ";
    RenderDropsTrailingSpace(q, prefix + clause);
  }

  /** When nothing is pending, rendering leaves the builder as it is, and so rendering
      again changes nothing either. */
  lemma RenderIsStableWhenNothingPending(q: Query)
    requires |q.text| >= 2 && !Pending(q.text)
    ensures GetQueryString(q) == Ok(q)
    ensures GetQueryString(GetQueryString(q).value) == Ok(q)
  {
  }

  /** A statement keyword the buffer starts with and the trims can never reach:
      it has no comma and does not end in a space. */
  predicate KeywordPrefix(s: string, keyword: string)
  {
    |keyword| >= 2 && keyword <= s && ',' !in keyword && keyword[|keyword| - 1] != ' '
  }

  lemma KeywordSurvivesCommaTrim(s: string, keyword: string)
    ensures KeywordPrefix(s, keyword) ==>
      DeleteLastCommaIfExist(s).Ok? && KeywordPrefix(DeleteLastCommaIfExist(s).value, keyword)
  {
    if !KeywordPrefix(s, keyword) {
      return;
    }
    var r := DeleteLastCommaIfExist(s).value;
    var n := |keyword|;
    if r != s {
      var k := if s[|s| - 2] == ',' then |s| - 2 else |s| - 1;
      assert s[k] == ',';
      assert k >= n;
      assert r == DeleteAt(s, k);
      assert r[..n] == s[..n];
    }
  }

  /** Rendering keeps the statement keyword, so a builder that starts with one never
      throws when rendered. */
  lemma KeywordSurvivesRender(q: Query, keyword: string)
    ensures KeywordPrefix(q.text, keyword) ==>
      GetQueryString(q).Ok? && KeywordPrefix(GetQueryString(q).value.text, keyword)
  {
    if !KeywordPrefix(q.text, keyword) {
      return;
    }
    KeywordSurvivesCommaTrim(q.text, keyword);
    var t := DeleteLastCommaIfExist(q.text).value;
    var u := DeleteLastSpaceIfExist(t).value;
    var n := |keyword|;
    if u != t {
      assert u + " " == t;
      assert |u| >= n;
      assert u[..n] == t[..n];
    }
  }

  /** `addTableField`: appends the name and a ", " separator. */
  function AddTableField(q: Query, name: string): (r: Query)
    ensures r.text == q.text + name + ", "
    ensures r.dateTimeFormat == q.dateTimeFormat
  {
    Append(Append(q, name), ", ")
  }

  /** Trims a pending comma, then appends `s`: the shape of every appender that starts
      with `deleteLastCommaIFExist`.  After a ", " separator only its space survives;
      with no comma pending the text is simply extended. */
  function TrimThenAppend(q: Query, s: string): (r: Result<Query>)
    ensures r.Err? <==> |q.text| < 2
    ensures r.Err? ==> r.fault == StringIndexOutOfBounds(|q.text| - 2, |q.text|)
    ensures r.Ok? ==> r.value.text == DeleteLastCommaIfExist(q.text).value + s
    ensures r.Ok? ==> r.value.dateTimeFormat == q.dateTimeFormat
    ensures EndsWith(q.text, ", ") ==> r == Ok(q.(text := q.text[..|q.text| - 2] + " " + s))
    ensures |q.text| >= 2 && !CommaPending(q.text) ==> r == Ok(q.(text := q.text + s))
  {
    var trimmed :- DeleteLastCommaIfExist(q.text);
    Ok(Append(q.(text := trimmed), s))
  }

  /** After a comma that ends the buffer, a trimming appender replaces exactly that comma. */
  lemma TrimThenAppendAfterComma(q: Query, x: string, s: string)
    requires q.text == x + "," && x != []
    ensures TrimThenAppend(q, s) == Ok(q.(text := x + s))
  {
    CommaTrimDropsTrailingComma(x);
  }

  /** Each item through a trimming appender and followed by ", ": a run of `addTableName`
      calls, or of SQLQuery's `addWhereClause*` calls. */
  function AppendEachSeparated(q: Query, items: seq<string>): Result<Query>
    decreases |items|
  {
    if items == [] then Ok(q)
    else
      match TrimThenAppend(q, items[0] + ", ")
      case Err(fault) => Err(fault)
      case Ok(next) => AppendEachSeparated(next, items[1..])
  }

  /** After a pending ", " a trimming appender keeps only the blank of the separator. */
  lemma TrimThenAppendAfterSeparator(q: Query, head: string, s: string)
    requires q.text == head + ", "
    ensures TrimThenAppend(q, s) == Ok(q.(text := head + " " + s))
  {
    assert q.text[..|q.text| - 2] == head;
  }

  /** One item after a pending ", ": the comma goes, the blank stays. */
  lemma SeparatedItemStep(q: Query, head: string, item: string)
    requires q.text == head + ", "
    ensures TrimThenAppend(q, item + ", ") == Ok(q.(text := head + " " + item + ", "))
  {
    TrimThenAppendAfterSeparator(q, head, item + ", ");
    assert head + " " + (item + ", ") == head + " " + item + ", ";
  }

  /** Once a ", " separator is pending, each further item takes over its space, so the
      items end up separated by single blanks and never by commas. */
  lemma {:induction false} SeparatedItemsJoinBySpace(q: Query, head: string, items: seq<string>)
    requires q.text == head + ", " && items != []
    ensures AppendEachSeparated(q, items) == Ok(q.(text := head + " " + Join(items, " ") + ", "))
    decreases |items|
  {
    var nextHead := head + " " + items[0];
    var next := q.(text := nextHead + ", ");
    SeparatedItemUnfolds(q, head, items);
    if |items| > 1 {
      SeparatedItemsJoinBySpace(next, nextHead, items[1..]);
      SpaceJoinUnfolds(head, items);
    } else {
      assert Join(items, " ") == items[0];
    }
  }

  lemma SeparatedItemUnfolds(q: Query, head: string, items: seq<string>)
    requires q.text == head + ", " && items != []
    ensures AppendEachSeparated(q, items)
      == AppendEachSeparated(q.(text := head + " " + items[0] + ", "), items[1..])
  {
    SeparatedItemStep(q, head, items[0]);
  }

  lemma SpaceJoinUnfolds(head: string, items: seq<string>)
    requires |items| > 1
    ensures head + " " + items[0] + " " + Join(items[1..], " ") + ", " == head + " " + Join(items, " ") + ", "
  {
    var first := items[0];
    var rest := Join(items[1..], " ");
    assert Join(items, " ") == first + " " + rest;
    Regroup(head + " ", first + " ", rest, ", ");
  }

  lemma Regroup(a: string, b: string, c: string, d: string)
    ensures a + b + c + d == a + (b + c) + d
  {
  }

  /** From a buffer with nothing pending, a run of items ends up separated by single
      blanks, with one ", " after the last. */
  lemma ItemsJoinBySpace(q: Query, items: seq<string>)
    requires |q.text| >= 2 && !CommaPending(q.text) && items != []
    ensures AppendEachSeparated(q, items) == Ok(q.(text := q.text + Join(items, " ") + ", "))
  {
    var first := q.(text := q.text + items[0] + ", ");
    FirstItemStep(q, items);
    if |items| > 1 {
      SeparatedItemsJoinBySpace(first, q.text + items[0], items[1..]);
      JoinWithFirst(q.text, items[0], items[1..], " ");
      assert [items[0]] + items[1..] == items;
    } else {
      assert Join(items, " ") == items[0];
    }
  }

  lemma FirstItemStep(q: Query, items: seq<string>)
    requires |q.text| >= 2 && !CommaPending(q.text) && items != []
    ensures AppendEachSeparated(q, items) == AppendEachSeparated(q.(text := q.text + items[0] + ", "), items[1..])
  {
    assert q.text + (items[0] + ", ") == q.text + items[0] + ", ";
    assert TrimThenAppend(q, items[0] + ", ") == Ok(q.(text := q.text + items[0] + ", "));
  }

  /** Rendering a buffer that ends in a ", " separator removes the whole separator. */
  lemma RenderDropsSeparator(q: Query, x: string)
    requires q.text == x + ", "
    ensures GetQueryString(q) == Ok(q.(text := x))
  {
    assert q.text[..|q.text| - 2] == x;
    assert DeleteLastCommaIfExist(q.text) == Ok(x + " ");
    assert DeleteAt(x + " ", |x|) == x;
  }

  /** `addTableName`: trims a pending comma, then appends the name and ", ".  Following
      an earlier ", " it keeps only the space, so two table names end up separated by a
      blank rather than a comma. */
  function AddTableName(q: Query, tableName: string): (r: Result<Query>)
    ensures r.Err? <==> |q.text| < 2
    ensures r.Ok? ==> r.value.text == DeleteLastCommaIfExist(q.text).value + tableName + ", "
    ensures r.Ok? ==> r.value.dateTimeFormat == q.dateTimeFormat
    ensures EndsWith(q.text, ", ") ==> r == Ok(q.(text := q.text[..|q.text| - 2] + " " + tableName + ", "))
  {
    TrimThenAppend(q, tableName + ", ")
  }

  /** `addWhere`: trims a pending comma, then appends "WHERE ". */
  function AddWhere(q: Query): (r: Result<Query>)
    ensures r.Err? <==> |q.text| < 2
    ensures r.Ok? ==> r.value.text == DeleteLastCommaIfExist(q.text).value + "WHERE "
    ensures r.Ok? ==> r.value.dateTimeFormat == q.dateTimeFormat
    ensures EndsWith(q.text, ", ") ==> r == Ok(q.(text := q.text[..|q.text| - 2] + " " + "WHERE "))
  {
    TrimThenAppend(q, "WHERE ")
  }

  /** `getDateTimeFormat`: the pattern the builder holds, the one whose setting would
      leave the builder as it is. */
  function GetDateTimeFormat(q: Query): (pattern: string)
    ensures q.(dateTimeFormat := pattern) == q
  {
    q.dateTimeFormat
  }

  /** `setDateTimeFormat`: replaces the pattern and leaves the buffer alone. */
  function SetDateTimeFormat(q: Query, pattern: string): (r: Query)
    ensures GetDateTimeFormat(r) == pattern
    ensures r.text == q.text
    ensures r.(dateTimeFormat := q.dateTimeFormat) == q
  {
    q.(dateTimeFormat := pattern)
  }

  /** A builder starts with the default pattern, and reading the pattern back after
      setting it gives the pattern set. */
  lemma DateTimeFormatRoundTrip(q: Query, pattern: string)
    ensures GetDateTimeFormat(Fresh()) == "yyyy-MM-dd HH:mm:ss.SSS"
    ensures GetDateTimeFormat(SetDateTimeFormat(q, pattern)) == pattern
    ensures SetDateTimeFormat(q, GetDateTimeFormat(q)) == q
  {
  }
}

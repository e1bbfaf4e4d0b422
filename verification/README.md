# SQL-Constructor: a Dafny model of the statement builders

SQL-Constructor (package `ru.gs.sql`) builds SQL statement text by appending fragments to
a `StringBuilder`. When the query is rendered, two trims tidy the tail: one deletes a
pending comma and the other deletes a trailing blank. This project models five classes:

- the shared base `CommonQuery`;
- the SELECT builder `SelectQuery`;
- the older standalone builder `SQLQuery`;
- `InsertQuery` and `UpdateQuery`.

It proves what their appenders and trims do to the buffer.

Modules and files:

- `java_text.dfy` (`JavaText`) holds the Java runtime behaviour the builders rely on:
  - the `StringIndexOutOfBoundsException` thrown by `charAt`, which becomes the `Err` of a `Result`;
  - 32- and 64-bit integers;
  - decimal rendering of `Integer`/`Long`, with its inverse;
  - `String.hashCode` in 32-bit arithmetic;
  - the two list shapes the loops leave behind: each name followed by a separator, and joined by a separator, with `Split` as the inverse of joining.
- `values.dfy` (`Values`) holds the operands of the predicate methods and their literal syntax. `insertValueDependsOnClass`, `insertValueDependsOnClassNumberOrDate`, `String.valueOf` and the LIKE wildcard are modelled here.
- `common_query.dfy` (`Common`) holds the builder state `Query(text, dateTimeFormat)`, the two trims, rendering and the inherited appenders.
  - A `KeywordPrefix` invariant explains why builders that start with a keyword never raise the index fault of the trims.
  - `SQLQuery` has the same two fields and textually identical private trims, so it uses this module's state and trims too.
- `select_query.dfy` (`Select`), `sql_query.dfy` (`Sql`), `insert_query.dfy` (`Insert`) and `update_query.dfy` (`Update`) hold one builder class each.

Each Java method that mutates the buffer becomes a function from the old state to the new one. A method that calls a trim returns `Result<Query>`, because the trims read `charAt(length - 2)` without a guard and a short buffer throws.

The repository's tests expect behaviour the code does not have, and the model follows the code:

- `src/test/java/ru/gs/sql/test/select/WhereTest.java:55-69` expects `andIsEquals`/`orIsEquals` written straight after `addWhere()` to drop the operator. `SelectQuery` writes "AND "/"OR " unconditionally (`Select.AndRightAfterWhereKeepsAnd`).
- `src/test/java/ru/gs/sql/test/select/ExceptionsTest.java:28-113` expects `SQLCreationException` for `null` arguments. No method of these classes throws it.
- Several tests call methods these classes do not have:
  - `orNotBetween`/`andNotBetween` (`src/test/java/ru/gs/sql/test/select/SelectQueryTest.java:62`);
  - `addSet(field, value)` (`src/test/java/ru/gs/sql/test/select/UpdateTest.java:40-42`);
  - `startAddingInsertableFieldNames`, `addInsertableFieldName`, `stopAddingInsertableFieldNames` and `addValues` (`src/test/java/ru/gs/sql/test/select/InsertQueryTest.java:44-53`);
  - `addWhereClause*` on a `SelectQuery` (`src/test/java/ru/gs/sql/test/SelectQueryTest.java:72-111`).

## Model

| member | source | states |
|---|---|---|
| `Common.DeleteLastCommaIfExist` | src/main/java/ru/gs/sql/CommonQuery.java:13-23 | The trim throws (index length-2) exactly when the buffer has fewer than two characters. Otherwise it deletes at most one character, always a ',' in one of the last two places, preferring index length-2. It changes the buffer exactly when a comma is pending, and the text before the last two characters is untouched. |
| `Common.CommaTrimRemovesOneComma` | src/main/java/ru/gs/sql/CommonQuery.java:13-23 | When the comma trim changes the buffer, it removes exactly one ',' character (multiset of characters). |
| `Common.DeleteLastSpaceIfExist` | src/main/java/ru/gs/sql/CommonQuery.java:25-30 | The space trim throws on an empty buffer. Otherwise it removes one trailing blank (not a run), and changes the buffer exactly when the buffer ends in a blank. |
| `Common.GetQueryString` | src/main/java/ru/gs/sql/CommonQuery.java:32-36 | Rendering throws exactly for a buffer shorter than two characters. It keeps the date format, shortens the buffer by at most two characters at its tail, and leaves it unchanged exactly when nothing is pending. The rendered text is the builder's new state. |
| `Common.RenderRemovesOnlyCommasAndSpaces` | src/main/java/ru/gs/sql/CommonQuery.java:32-36 | Rendering only removes characters, and every character other than ',' and ' ' keeps its count. |
| `Common.RenderIsNotIdempotent` | src/main/java/ru/gs/sql/CommonQuery.java:32-36 | Because rendering trims the builder itself, rendering "SELECT a,b," twice gives "SELECT a,b" and then "SELECT ab". |
| `Common.RenderIsStableWhenNothingPending` | src/main/java/ru/gs/sql/CommonQuery.java:32-36 | With no comma pending and no trailing blank, rendering (once or twice) leaves the builder unchanged. |
| `Common.RenderDropsTrailingComma` | src/main/java/ru/gs/sql/CommonQuery.java:13-36 | A buffer ending in one comma after a non-blank renders without exactly that comma. |
| `Common.RenderDropsTrailingSpace` | src/main/java/ru/gs/sql/CommonQuery.java:13-36 | A buffer ending in one blank after a non-comma renders without exactly that blank. |
| `Common.RenderDropsSeparator` | src/main/java/ru/gs/sql/CommonQuery.java:13-36 | A buffer ending in a ", " separator renders without the whole separator. |
| `Common.KeywordSurvivesCommaTrim` | src/main/java/ru/gs/sql/CommonQuery.java:13-23 | A leading keyword with no comma and no trailing blank is never reached by the comma trim, which then cannot throw. |
| `Common.KeywordSurvivesRender` | src/main/java/ru/gs/sql/CommonQuery.java:32-36 | Such a keyword survives rendering, so a builder that starts with one never throws when rendered. |
| `Common.ToString` | src/main/java/ru/gs/sql/CommonQuery.java:62-65 | `toString` is rendering, trims and all. |
| `Common.AddTableField` | src/main/java/ru/gs/sql/CommonQuery.java:38-41 | The name is appended with a ", " separator, with no trim, so this call never throws. |
| `Common.TrimThenAppend` | src/main/java/ru/gs/sql/CommonQuery.java:43-52 | An appender that trims first throws exactly when the trim does. After a ", " only its blank survives, and with nothing pending the text is just extended. |
| `Common.AddTableName` | src/main/java/ru/gs/sql/CommonQuery.java:43-47 | The base `addTableName`: trim, then name and ", ". It throws only on a short buffer. |
| `Common.AddWhere` | src/main/java/ru/gs/sql/CommonQuery.java:49-52 | `addWhere`: trim, then "WHERE ". It throws only on a short buffer. |
| `Common.SeparatedItemsJoinBySpace` | src/main/java/ru/gs/sql/CommonQuery.java:43-47 | Once a ", " is pending, each further trimming item takes over its blank. The items end up separated by single blanks, never by commas. |
| `Common.ItemsJoinBySpace` | src/main/java/ru/gs/sql/CommonQuery.java:43-47 | From a buffer with nothing pending, a run of trimming items leaves them blank-joined with one ", " after the last. |
| `Common.DateTimeFormatRoundTrip` | src/main/java/ru/gs/sql/CommonQuery.java:54-60 | The getter returns what the setter stored, and the setter changes nothing else. |
| `Common.GetDateTimeFormat` | src/main/java/ru/gs/sql/CommonQuery.java:54-56 | The getter returns the stored pattern: putting it back leaves the builder as it is. |
| `Common.SetDateTimeFormat` | src/main/java/ru/gs/sql/CommonQuery.java:58-60 | The setter makes the getter return the new pattern and changes nothing else, the buffer included. |
| `JavaText.DecimalRoundTrip` | src/main/java/ru/gs/sql/SelectQuery.java:188-191 | The decimal text appended for an `Integer`/`Long` reads back as the same number. |
| `JavaText.StringHashIsPolynomialModulo` | src/main/java/ru/gs/sql/SelectQuery.java:307-310 | The 32-bit `String.hashCode` recurrence over UTF-16 code units agrees with the textbook polynomial modulo 2^32. |
| `JavaText.CodeUnits` | src/main/java/ru/gs/sql/SelectQuery.java:307-310 | A character is one UTF-16 code unit (itself) exactly when it lies in the Basic Multilingual Plane. Otherwise it is a high surrogate followed by a low surrogate, which together encode the code point. |
| `JavaText.Utf16` | src/main/java/ru/gs/sql/SelectQuery.java:307-310 | A string's UTF-16 form has between one and two code units per character, every unit below 2^16. A string with only BMP characters is its own UTF-16 form. |
| `JavaText.SplitJoinRoundTrip` | src/main/java/ru/gs/sql/InsertQuery.java:36-44 | Splitting a comma-joined list on ',' gives back the names, when no name holds a comma. |
| `Values.NumberOrDateLiteral` | src/main/java/ru/gs/sql/SelectQuery.java:188-198 | An `Integer`/`Long` becomes its unquoted decimal text. A `Date` is formatted with the builder's pattern and quoted; it throws `IllegalArgumentException` (naming the pattern) exactly when the date library rejects the pattern. A `String` or any other class appends nothing and never throws. |
| `Values.Literal` | src/main/java/ru/gs/sql/SelectQuery.java:179-198 | The literal throws exactly when the number-or-date step does (a `Date` with a rejected pattern). Otherwise it is quoted exactly for `String` and `Date`: the quotes enclose the string itself or the formatted date, numbers read back as themselves, and other classes give nothing. |
| `Values.ObjectText` | src/main/java/ru/gs/sql/SelectQuery.java:213-221 | `append(Object)` adds a string as is, a number as its decimal text, a date via `toString`, and any other object via its `toString`. |
| `Values.LikePattern` | src/main/java/ru/gs/sql/SelectQuery.java:211-223 | The wildcard goes before the value for AT_START and after it for AT_END. Any other position has no wildcard. |
| `Select.New` | src/main/java/ru/gs/sql/SelectQuery.java:16-18 | The buffer starts "SELECT " with the default date format, and the SELECT keyword invariant holds. |
| `Select.AddFieldsSuffixesEachName` | src/main/java/ru/gs/sql/SelectQuery.java:24-29 | The constructor's loop leaves every name followed by ",", in list order. |
| `Select.NewWithFields` | src/main/java/ru/gs/sql/SelectQuery.java:24-29 | A non-empty list leaves the names comma-joined with one comma pending, and the keyword invariant holds. |
| `Select.AddField` | src/main/java/ru/gs/sql/SelectQuery.java:36-40 | The name and a bare "," are appended. The call never throws and keeps the keyword. |
| `Select.AddTableName` | src/main/java/ru/gs/sql/SelectQuery.java:47-52 | Trim, then name and ",". It throws only on a short buffer, and never on a SelectQuery. |
| `Select.AddWhere` | src/main/java/ru/gs/sql/SelectQuery.java:58-62 | Trim, then " WHERE ". It never throws on a SelectQuery. |
| `Select.AddFrom` | src/main/java/ru/gs/sql/SelectQuery.java:68-72 | Trim, then " FROM ". It never throws on a SelectQuery. |
| `Select.AddFromTable` | src/main/java/ru/gs/sql/SelectQuery.java:89-95 | Trim, then " FROM ", the name and ",". It never throws on a SelectQuery. |
| `Select.IsEquals` | src/main/java/ru/gs/sql/SelectQuery.java:104-110 | It throws exactly for a `Date` value under a rejected pattern, with that pattern as the fault. Otherwise `name=literal ` is appended with no trim, the format is unchanged and the keyword is kept. |
| `Select.AndIsEquals` | src/main/java/ru/gs/sql/SelectQuery.java:118-122 | Throws exactly as `isEquals` does. Otherwise "AND " is always written before the equality clause, whatever precedes it. |
| `Select.OrIsEquals` | src/main/java/ru/gs/sql/SelectQuery.java:130-134 | Throws exactly as `isEquals` does. Otherwise "OR " is always written before the equality clause. |
| `Select.Between` | src/main/java/ru/gs/sql/SelectQuery.java:143-151 | It throws exactly when either bound is a `Date` and the pattern is rejected. Otherwise `name BETWEEN low AND high ` is appended, with both bounds through the number-or-date dispatch. |
| `Select.AndBetween` | src/main/java/ru/gs/sql/SelectQuery.java:160-164 | Throws exactly as `between` does. Otherwise "AND " is always written before the BETWEEN clause. |
| `Select.OrBetween` | src/main/java/ru/gs/sql/SelectQuery.java:173-177 | Throws exactly as `between` does. Otherwise "OR " is always written before the BETWEEN clause. |
| `Select.Like` | src/main/java/ru/gs/sql/SelectQuery.java:208-226 | `name LIKE 'pattern' ` is appended, with the wildcard placed by position. |
| `Select.AndLike` | src/main/java/ru/gs/sql/SelectQuery.java:236-240 | "AND " is always written before the LIKE clause. |
| `Select.OrLike` | src/main/java/ru/gs/sql/SelectQuery.java:250-254 | "OR " is always written before the LIKE clause. |
| `Select.LikeValue` | src/main/java/ru/gs/sql/SelectQuery.java:262-268 | `name LIKE 'text' ` is appended, with the value's text quoted whatever its class. |
| `Select.AndLikeValue` | src/main/java/ru/gs/sql/SelectQuery.java:276-280 | "AND " is always written before the LIKE clause. |
| `Select.OrLikeValue` | src/main/java/ru/gs/sql/SelectQuery.java:288-292 | "OR " is always written before the LIKE clause. |
| `Select.Apply` | src/main/java/ru/gs/sql/SelectQuery.java:36-310 | A call on a SelectQuery covers every public method, plus the inherited `addTableField`, `equals` and `hashCode`. It throws exactly when it formats a `Date` under a rejected pattern, and then the fault names that pattern. Every call that completes keeps the SELECT keyword at the head, and only `setDateTimeFormat` changes the pattern. |
| `Select.ApplyPredicate` | src/main/java/ru/gs/sql/SelectQuery.java:104-292 | A predicate call throws exactly when it formats a `Date` under a rejected pattern. Otherwise it keeps the keyword and the pattern. |
| `Select.ApplyRendering` | src/main/java/ru/gs/sql/SelectQuery.java:295-310 | Rendering, `equals` and `hashCode` never throw on a SelectQuery, and keep the keyword and the pattern. |
| `Select.CallsNeverThrow` | src/main/java/ru/gs/sql/SelectQuery.java:16-310 | A chain of calls on a SelectQuery keeps the keyword. Its only possible exception is `IllegalArgumentException` for a rejected pattern. It completes when no call formats a `Date`, or when every pattern in force is accepted. |
| `Select.ConstructedQueriesNeverThrow` | src/main/java/ru/gs/sql/SelectQuery.java:16-29 | The same holds from either constructor, starting from the default pattern. |
| `Select.Equals` | src/main/java/ru/gs/sql/SelectQuery.java:295-304 | `equals` is false for other classes and renders nothing then. Otherwise it renders both builders (changing both), and is true exactly when the rendered texts agree. |
| `Select.EqualsItself` | src/main/java/ru/gs/sql/SelectQuery.java:295-304 | `q.equals(q)` renders one buffer twice, and is true exactly when the first rendering left nothing pending. |
| `Select.EqualsIsNotReflexive` | src/main/java/ru/gs/sql/SelectQuery.java:295-304 | A query built from fields a and b is not equal to itself. |
| `Select.SameRendering` | src/main/java/ru/gs/sql/SelectQuery.java:295-304 | The corrected equality agrees with `equals` on two distinct builders, without changing either. |
| `Select.SameRenderingIsAnEquivalence` | src/main/java/ru/gs/sql/SelectQuery.java:295-304 | The corrected equality is reflexive, symmetric and transitive. |
| `Select.TextHash` | src/main/java/ru/gs/sql/SelectQuery.java:307-310 | The hash is 5 times the UTF-16 length plus the polynomial `String.hashCode` over the UTF-16 code units, modulo 2^32. |
| `Select.HashCode` | src/main/java/ru/gs/sql/SelectQuery.java:307-310 | `hashCode` renders (trims) the builder and hashes the rendered text as UTF-16. It throws only on a short buffer. |
| `Select.UnitsHash` | src/main/java/ru/gs/sql/SelectQuery.java:307-310 | The hash of a code-unit sequence is 5 times its length plus its polynomial hash, modulo 2^32. |
| `Select.SupplementaryCharacterHash` | src/main/java/ru/gs/sql/SelectQuery.java:307-310 | A character outside the BMP, such as U+1F600, counts as two code units in both the length and the string hash. |
| `Select.EqualQueriesHashEqually` | src/main/java/ru/gs/sql/SelectQuery.java:295-310 | Builders that `equals` calls equal have equal hash codes. |
| `Select.SimpleSelectScenario` | src/main/java/ru/gs/sql/SelectQuery.java:24-95 | Fields name, family and sex from the constructor, `addFrom()` and table employee render "SELECT name,family,sex FROM employee". |
| `Select.EmployeeWhereText` | src/main/java/ru/gs/sql/SelectQuery.java:36-62 | Three fields, `addFrom("employee")` and `addWhere()` leave "SELECT name,family,sex FROM employee WHERE ". |
| `Select.EqualsThenAndEqualsScenario` | src/main/java/ru/gs/sql/SelectQuery.java:104-122 | `isEquals` then `andIsEquals` with "Petrov" render "name='Petrov' AND name='Petrov'" after any prefix. |
| `Select.EqualsIntegerScenario` | src/main/java/ru/gs/sql/SelectQuery.java:104-110 | An Integer operand is written without quotes: "id=143". |
| `Select.LikeAtEndScenario` | src/main/java/ru/gs/sql/SelectQuery.java:208-226 | AT_END renders "name LIKE 'Petrov%'". |
| `Select.LikeAtStartScenario` | src/main/java/ru/gs/sql/SelectQuery.java:208-226 | AT_START renders "name LIKE '%Petrov'". |
| `Select.BetweenDropsStringBounds` | src/main/java/ru/gs/sql/SelectQuery.java:143-151 | String bounds contribute nothing to a BETWEEN clause: "name BETWEEN  AND ". |
| `Select.AndRightAfterWhereKeepsAnd` | src/main/java/ru/gs/sql/SelectQuery.java:118-122 | There is no first-predicate check: `andIsEquals` straight after WHERE renders "WHERE AND name='Petrov'". |
| `Select.TableNamesRunTogether` | src/main/java/ru/gs/sql/SelectQuery.java:47-52 | As written, `addFrom("t1")` then `addTableName("t2")` renders "SELECT a FROM t1t2". |
| `Select.AddTableNameToList` | src/main/java/ru/gs/sql/SelectQuery.java:47-52 | The corrected `addTableName` appends the name and "," with no trim, and keeps the keyword. |
| `Select.AddTableNamesToListSuffixesEach` | src/main/java/ru/gs/sql/SelectQuery.java:47-52 | Corrected: further tables each leave their name followed by ",". |
| `Select.FromListIsCommaJoined` | src/main/java/ru/gs/sql/SelectQuery.java:89-95 | Corrected: `addFrom(first)` and further tables render the FROM list comma-joined, for any number of tables. |
| `Sql.New` | src/main/java/ru/gs/sql/SQLQuery.java:12-15 | An SQLQuery starts with an empty buffer and the default date format. |
| `Sql.FreshQueryCannotRender` | src/main/java/ru/gs/sql/SQLQuery.java:17-33 | Rendering before anything is appended throws at index -2. |
| `Sql.AddSelect` | src/main/java/ru/gs/sql/SQLQuery.java:42-44 | "SELECT " is appended, with no trim. |
| `Sql.AddField` | src/main/java/ru/gs/sql/SQLQuery.java:46-49 | The name is appended with a ", " separator. |
| `Sql.AddFieldsSuffixesEachName` | src/main/java/ru/gs/sql/SQLQuery.java:46-49 | Repeated `addField` leaves every name followed by ", ", in order. |
| `Sql.AddFrom` | src/main/java/ru/gs/sql/SQLQuery.java:51-54 | Trim, then "FROM ". After a ", " only its blank survives. |
| `Sql.AddFromTable` | src/main/java/ru/gs/sql/SQLQuery.java:56-61 | Trim, then "FROM ", the name and ", ". After a ", " only its blank survives. |
| `Sql.FieldsThenFromRender` | src/main/java/ru/gs/sql/SQLQuery.java:17-61 | Fields then `addFrom(t)` render as the names ", "-joined, then " FROM t". |
| `Sql.TablesJoinBySpace` | src/main/java/ru/gs/sql/SQLQuery.java:56-67 | `addFrom(first)` and further `addTableName` calls render the tables separated by single blanks, not commas. |
| `Sql.AddWhereClauseEquals` | src/main/java/ru/gs/sql/SQLQuery.java:74-111 | It throws `StringIndexOutOfBoundsException` on a short buffer, and otherwise `IllegalArgumentException` exactly for a `Date` value under a rejected pattern. When it completes: trim, then `name = literal, `. |
| `Sql.AddWhereClauseBetween` | src/main/java/ru/gs/sql/SQLQuery.java:82-111 | Throws on a short buffer, and otherwise exactly when either bound is a `Date` under a rejected pattern. When it completes: trim, then `name BETWEEN low AND high, `, with the bounds through the number-or-date dispatch only. |
| `Sql.AddWhereClauseLike` | src/main/java/ru/gs/sql/SQLQuery.java:113-131 | Trim, then the wildcard pattern in quotes and ", ". |
| `Sql.AddWhereClauseLikeValue` | src/main/java/ru/gs/sql/SQLQuery.java:133-139 | Trim, then the value's text in quotes and ", ". |
| `Sql.ClausesJoinBySpace` | src/main/java/ru/gs/sql/SQLQuery.java:69-139 | After `addWhere`, a run of clauses renders as the clause texts separated by single blanks, with no AND, OR or comma between them. If some clause formats a `Date` under a rejected pattern, the run throws `IllegalArgumentException`. |
| `Sql.AddWhereClauseCases` | src/main/java/ru/gs/sql/SQLQuery.java:74-139 | A clause that formats a `Date` under a rejected pattern throws after the comma trim. Any other clause is a trimming append of its text and ", ". |
| `Sql.RejectedPatternThrows` | src/main/java/ru/gs/sql/SQLQuery.java:69-111 | A run of clauses containing a `Date` clause throws `IllegalArgumentException` when the pattern is rejected. |
| `Sql.Apply` | src/main/java/ru/gs/sql/SQLQuery.java:17-147 | Once the buffer starts with SELECT, a call throws exactly when it is a WHERE clause formatting a `Date` under a rejected pattern, and the fault names that pattern. Every call that completes keeps the keyword, and only `setDateTimeFormat` changes the pattern. |
| `Sql.CallsAfterSelectNeverThrow` | src/main/java/ru/gs/sql/SQLQuery.java:17-147 | A chain of calls after `addSelect` keeps the keyword. It can throw only `IllegalArgumentException` for a rejected pattern, and it completes when no call formats a `Date` or every pattern in force is accepted. |
| `Sql.SelectFirstNeverThrows` | src/main/java/ru/gs/sql/SQLQuery.java:42-44 | On a fresh SQLQuery whose first call is `addSelect`, the only possible later exception is a rejected date pattern, and none occurs while the default pattern and every later one are accepted. |
| `Sql.TrimmingFirstThrows` | src/main/java/ru/gs/sql/SQLQuery.java:23-33 | On a fresh SQLQuery, any trimming call or rendering throws at index -2. |
| `Sql.EqualsIdScenario` | src/main/java/ru/gs/sql/SQLQuery.java:42-80 | Fields name, family and sex, FROM employee, WHERE and `id = 143` render "SELECT name, family, sex FROM employee WHERE id = 143". |
| `Insert.New` | src/main/java/ru/gs/sql/InsertQuery.java:12-14 | The buffer starts "INSERT INTO ", and the keyword invariant holds. |
| `Insert.NewWithDatabase` | src/main/java/ru/gs/sql/InsertQuery.java:16-20 | The buffer is "INSERT INTO " followed by the name and a blank, the same as `addTableName` on a fresh query. |
| `Insert.AddTableName` | src/main/java/ru/gs/sql/InsertQuery.java:22-26 | The override appends the name and a blank, with no trim. It never throws and keeps the keyword. |
| `Insert.TableNameKeepsPendingComma` | src/main/java/ru/gs/sql/InsertQuery.java:22-26 | Unlike the base method, the override keeps a pending ", ". |
| `Insert.AddInsertableFieldNames` | src/main/java/ru/gs/sql/InsertQuery.java:28-44 | Both overloads are covered:<br>• A non-empty list appends exactly "(" + the comma-joined names + ") ", whatever the names are.<br>• An empty list appends "() ", but the trim deletes a comma that ended the earlier buffer.<br>• The call throws only for an empty list on an empty buffer. |
| `Insert.ColumnListRoundTrip` | src/main/java/ru/gs/sql/InsertQuery.java:36-44 | The names can be read back: the text between the parentheses splits on ',' into the given names. |
| `Insert.DatabaseWithColumnsRenders` | src/main/java/ru/gs/sql/InsertQuery.java:16-44 | `InsertQuery(db)` with columns renders "INSERT INTO db (a,b,...)", with only the final blank trimmed. |
| `Insert.EmployeeColumnsScenario` | src/main/java/ru/gs/sql/InsertQuery.java:16-44 | `InsertQuery("employee")` with name and family renders "INSERT INTO employee (name,family)". |
| `Update.New` | src/main/java/ru/gs/sql/UpdateQuery.java:9-11 | The buffer starts "UPDATE ", and the keyword invariant holds. |
| `Update.NewWithTable` | src/main/java/ru/gs/sql/UpdateQuery.java:13-17 | The buffer is "UPDATE " + table + " SET ". |
| `Update.AddTableName` | src/main/java/ru/gs/sql/UpdateQuery.java:19-23 | The override appends the name and a blank, with no trim, and changes nothing else. |
| `Update.AddSet` | src/main/java/ru/gs/sql/UpdateQuery.java:25-27 | `addSET` appends " SET ", blank first. |
| `Update.StepwiseSetHasTwoBlanks` | src/main/java/ru/gs/sql/UpdateQuery.java:9-27 | `UpdateQuery()` + `addTableName(t)` + `addSET()` leaves "UPDATE t  SET " with two blanks, which differs from `UpdateQuery(t)`. |
| `Update.TableConstructorRenders` | src/main/java/ru/gs/sql/UpdateQuery.java:13-17 | `UpdateQuery(t)` renders "UPDATE t SET". |
| `Update.StepwiseSetRenders` | src/main/java/ru/gs/sql/UpdateQuery.java:9-27 | The stepwise form renders "UPDATE t  SET", keeping both blanks. |
| `Update.ValidNeverThrows` | src/main/java/ru/gs/sql/UpdateQuery.java:9-27 | An UpdateQuery never throws when rendered and keeps its keyword. |

## Left out

- Characters are Unicode code points in a Dafny `string`. Only the hash counts UTF-16 code units (`JavaText.Utf16`). Everywhere else a character outside the Basic Multilingual Plane (BMP) is one position, where Java sees two surrogates:
- `Common.DeleteLastCommaIfExist`: Java reads `charAt(length - 2)` in code units. When the last character lies outside the BMP and a comma precedes it, Java sees two surrogates and keeps the comma, while the model deletes it. A buffer holding one such character throws in the model but not in Java, and fault indices are counted in code points.
- `Common.GetQueryString`: rendering inherits that difference from the comma trim. The space trim reads only the last character and agrees with Java.
- `Select.EqualsItself`: for `NewWithFields(["a", "😀"])` both renderings agree on "SELECT a,😀" in Java, so `q.equals(q)` is true. The model's second rendering deletes the comma before the emoji and answers false.
- `null` arguments are not modelled. Every operand is a value of one of the modelled classes, so the `NullPointerException`s Java would raise are out of scope.
- Date formatting by `SimpleDateFormat` and `Date.toString` depends on the JVM's time zone and locale. It is a caller-supplied `DateLibrary`:
  - `accepts` says which patterns the `SimpleDateFormat` constructor takes; a rejected one raises `IllegalArgumentException`;
  - `format` and `show` produce the text.

  Only the quotes around the formatted text and the exception are modelled.
- The `WildcardPosition` enum file is not part of this model. Its constants other than `AT_START` and `AT_END` are one case, `OtherPosition`.
- `SQLCreationException` carries no logic and is not modelled.
- The methods that only the tests call (listed above) do not exist in these classes, so there is nothing to model.
- `Select.Apply`: an exception ends the chain, and the model keeps no state after it. In Java the builder keeps whatever was appended before `new SimpleDateFormat` threw (for `isEquals`, the name and "="), and a caller that catches the exception would see that text.
- `Sql.Apply`: the same holds for the WHERE clauses. The comma trim, the name and the operator are already applied when the date pattern is rejected.
- Returning `this` for chaining is not modelled. Each call returns the new state.
- Overrides that return `SelectQuery` where the base method is `void` are modelled by each class's own body.
- `Select.Equals`: the object passed is either a SelectQuery or not. The case of comparing a builder with itself is `Select.EqualsItself`, because the two renderings then act on one buffer.
- `Insert.AddInsertableFieldNames`: the array overload goes through `Arrays.asList`, an order-preserving view. Both overloads are therefore the same function of the sequence of names.
- `Update.AddTableName` and `Insert.AddTableName` are separate members although their bodies are alike, because they override the base method in separate classes.

## Findings

| source | as written | input that shows it | evidently intended | confidence | as-written member | corrected member |
|---|---|---|---|---|---|---|
| src/main/java/ru/gs/sql/SelectQuery.java:295-304 | `equals` renders, and so trims, both builders. With `q.equals(q)`, the one buffer is trimmed twice. | `new SelectQuery(["a","b"])` compared with itself: "SELECT a,b," becomes "SELECT a,b" and then "SELECT ab", so the result is false | comparison that changes neither builder, and so is reflexive | not executed | `Select.EqualsIsNotReflexive` | `Select.SameRenderingIsAnEquivalence` |
| src/main/java/ru/gs/sql/SelectQuery.java:47-52 | `addTableName` trims the pending comma left by `addFrom(t1)` before appending | fields a, `addFrom("t1")`, `addTableName("t2")` renders "SELECT a FROM t1t2" | a comma-separated FROM list "SELECT a FROM t1,t2" | not executed | `Select.TableNamesRunTogether` | `Select.FromListIsCommaJoined` |

/** The values the builders turn into SQL text.  The source takes a
    `java.lang.Object` and inspects its runtime class; here the classes it
    distinguishes are the cases of a closed datatype. */
module Values {
  import opened JavaText

  /** A `java.util.Date`: milliseconds since the epoch. */
  datatype Date = Date(epochMillis: int64)

  /** The library calls the builders make on a `Date`, supplied by the caller because
      they depend on the JVM's time zone and locale and on the pattern syntax of
      `SimpleDateFormat`: `accepts(pattern)` holds when `new SimpleDateFormat(pattern)`
      does not throw `IllegalArgumentException`, `format(pattern, d)` is
      `new SimpleDateFormat(pattern).format(d)` for an accepted pattern, and `show(d)`
      is `d.toString()`. */
  datatype DateLibrary = DateLibrary(
    accepts: string -> bool,
    format: (string, Date) -> string,
    show: Date -> string)

  /** A predicate operand, by its runtime class.  `OtherValue` is an object of any
      other class, carrying the text its `toString()` returns. */
  datatype Value =
    | IntegerValue(i: int32)
    | LongValue(l: int64)
    | StringValue(s: string)
    | DateValue(d: Date)
    | OtherValue(shown: string)
  {
    predicate IsNumber() { IntegerValue? || LongValue? }

    /** The number an `Integer` or `Long` holds. */
    function Number(): int
      requires IsNumber()
    {
      if IntegerValue? then i as int else l as int
    }
  }

  /** `WildcardPosition`: where a LIKE wildcard goes.  `OtherPosition` stands for every
      constant of the enum other than `AT_START` and `AT_END`. */
  datatype WildcardPosition = AtStart | AtEnd | OtherPosition

  /** A literal wrapped in single quotes. */
  predicate Quoted(s: string)
  {
    |s| >= 2 && s[0] == '\'' && s[|s| - 1] == '\''
  }

  function Quote(s: string): (r: string)
    ensures Quoted(r) && r[1..|r| - 1] == s
  {
    "'" + s + "'"
  }

  /** Whether the number-or-date dispatch throws for `v`: only a `Date` builds a
      `SimpleDateFormat`, and it throws when the library rejects the pattern. */
  predicate FormatThrows(v: Value, pattern: string, lib: DateLibrary)
  {
    v.DateValue? && !lib.accepts(pattern)
  }

  /** The text the number-or-date dispatch appends when it does not throw: an `Integer`
      or `Long` in decimal, a `Date` formatted with `pattern` and quoted, and nothing at
      all for a `String` or any other class. */
  function NumberOrDateText(v: Value, pattern: string, lib: DateLibrary): (r: string)
    ensures r == [] <==> v.StringValue? || v.OtherValue?
    ensures v.IsNumber() ==> IsDecimal(r) && ReadDecimal(r) == v.Number()
    ensures v.DateValue? ==> Quoted(r) && r[1..|r| - 1] == lib.format(pattern, v.d)
  {
    match v
    case IntegerValue(i) => DecimalRoundTrip(i as int); DecimalText(i as int)
    case LongValue(l) => DecimalRoundTrip(l as int); DecimalText(l as int)
    case DateValue(d) => Quote(lib.format(pattern, d))
    case StringValue(_) => ""
    case OtherValue(_) => ""
  }

  /** `insertValueDependsOnClassNumberOrDate`: the text above, or the
      `IllegalArgumentException` of a `Date` whose pattern is rejected. */
  function NumberOrDateLiteral(v: Value, pattern: string, lib: DateLibrary): (r: Result<string>)
    ensures r.Err? <==> FormatThrows(v, pattern, lib)
    ensures r.Err? ==> r.fault == IllegalPattern(pattern)
    ensures r.Ok? ==> (r.value == [] <==> v.StringValue? || v.OtherValue?)
    ensures r.Ok? && v.IsNumber() ==> IsDecimal(r.value) && ReadDecimal(r.value) == v.Number()
    ensures r.Ok? && v.DateValue? ==> Quoted(r.value) && r.value[1..|r.value| - 1] == lib.format(pattern, v.d)
    ensures r.Ok? ==> r.value == NumberOrDateText(v, pattern, lib)
  {
    if v.DateValue? && !lib.accepts(pattern) then Err(IllegalPattern(pattern))
    else Ok(NumberOrDateText(v, pattern, lib))
  }

  /** The text `insertValueDependsOnClass` appends when it does not throw: the
      number-or-date text followed, for a `String`, by the string in single quotes (with
      no escaping of quotes inside it). */
  function LiteralText(v: Value, pattern: string, lib: DateLibrary): (r: string)
    ensures Quoted(r) <==> v.StringValue? || v.DateValue?
    ensures v.StringValue? ==> r[1..|r| - 1] == v.s
    ensures v.DateValue? ==> r[1..|r| - 1] == lib.format(pattern, v.d)
    ensures v.IsNumber() ==> IsDecimal(r) && ReadDecimal(r) == v.Number()
    ensures v.OtherValue? ==> r == []
  {
    var numberOrDate := NumberOrDateText(v, pattern, lib);
    if v.StringValue? then numberOrDate + Quote(v.s) else numberOrDate
  }

  /** `insertValueDependsOnClass`: the number-or-date dispatch first (which may throw),
      then the quoted string. */
  function Literal(v: Value, pattern: string, lib: DateLibrary): (r: Result<string>)
    ensures r.Err? <==> FormatThrows(v, pattern, lib)
    ensures r.Err? ==> r.fault == IllegalPattern(pattern)
    ensures r.Ok? ==> (Quoted(r.value) <==> v.StringValue? || v.DateValue?)
    ensures r.Ok? && v.StringValue? ==> r.value[1..|r.value| - 1] == v.s
    ensures r.Ok? ==> r.value == LiteralText(v, pattern, lib)
  {
    var numberOrDate :- NumberOrDateLiteral(v, pattern, lib);
    Ok(if v.StringValue? then numberOrDate + Quote(v.s) else numberOrDate)
  }

  /** `String.valueOf(v)`: the text `StringBuilder.append(Object)` adds. */
  function ObjectText(v: Value, lib: DateLibrary): (r: string)
    ensures v.StringValue? ==> r == v.s
    ensures v.IsNumber() ==> IsDecimal(r) && ReadDecimal(r) == v.Number()
    ensures v.DateValue? ==> r == lib.show(v.d)
    ensures v.OtherValue? ==> r == v.shown
  {
    match v
    case IntegerValue(i) => DecimalRoundTrip(i as int); DecimalText(i as int)
    case LongValue(l) => DecimalRoundTrip(l as int); DecimalText(l as int)
    case StringValue(s) => s
    case DateValue(d) => lib.show(d)
    case OtherValue(shown) => shown
  }

  /** The text between the quotes of `like(name, value, wildcard, position)`: the wildcard
      spliced before the value, after it, or not at all. */
  function LikePattern(v: Value, wildcard: char, position: WildcardPosition, lib: DateLibrary): (r: string)
    ensures position == AtStart ==> |r| > 0 && r[0] == wildcard && r[1..] == ObjectText(v, lib)
    ensures position == AtEnd ==> |r| > 0 && r[|r| - 1] == wildcard && r[..|r| - 1] == ObjectText(v, lib)
    ensures position == OtherPosition ==> r == ObjectText(v, lib)
  {
    match position
    case AtStart => [wildcard] + ObjectText(v, lib)
    case AtEnd => ObjectText(v, lib) + [wildcard]
    case OtherPosition => ObjectText(v, lib)
  }
}

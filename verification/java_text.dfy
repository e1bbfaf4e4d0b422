/** Java-runtime behaviour the builders depend on: the exceptions they can raise, the
    decimal rendering of `Integer` and `Long`, the UTF-16 code units of a `String` and
    its `hashCode`, and the two list-to-text shapes the builders emit. */
module JavaText {

  /** The exceptions the builders can raise: `StringIndexOutOfBoundsException` from
      `charAt` with an index outside the buffer, and the `IllegalArgumentException` that
      `new SimpleDateFormat(pattern)` throws for a pattern it rejects. */
  datatype Fault =
    | StringIndexOutOfBounds(index: int, length: nat)
    | IllegalPattern(pattern: string)

  /** The outcome of a builder call that may throw; usable with `:-`. */
  datatype Result<+T> = Ok(value: T) | Err(fault: Fault) {
    predicate IsFailure() { Err? }

    function PropagateFailure<U>(): Result<U>
      requires Err?
    {
      Err(fault)
    }

    function Extract(): T
      requires Ok?
    {
      value
    }
  }

  newtype int32 = x: int | -0x8000_0000 <= x < 0x8000_0000
  newtype int64 = x: int | -0x8000_0000_0000_0000 <= x < 0x8000_0000_0000_0000

  /** Java `int` arithmetic: the 32-bit value congruent to `x` modulo 2^32. */
  function Wrap32(x: int): (r: int32)
    ensures (r as int - x) % 0x1_0000_0000 == 0
  {
    ((x + 0x8000_0000) % 0x1_0000_0000 - 0x8000_0000) as int32
  }

  predicate IsDigit(c: char) { '0' <= c <= '9' }

  predicate AllDigits(s: string) { forall i :: 0 <= i < |s| ==> IsDigit(s[i]) }

  /** What `Integer.toString` / `Long.toString` can produce: an optional minus sign
      followed by at least one digit. */
  predicate IsDecimal(s: string)
  {
    if |s| > 0 && s[0] == '-' then |s| > 1 && AllDigits(s[1..]) else |s| > 0 && AllDigits(s)
  }

  function DigitChar(d: nat): (c: char)
    requires d < 10
    ensures IsDigit(c) && c as int - '0' as int == d
  {
    ('0' as int + d) as char
  }

  /** The digits of `n`, most significant first. */
  function Digits(n: nat): (r: string)
    ensures |r| > 0 && AllDigits(r)
    decreases n
  {
    if n < 10 then [DigitChar(n)] else Digits(n / 10) + [DigitChar(n % 10)]
  }

  /** The decimal text Java appends for an `Integer` or `Long`. */
  function DecimalText(n: int): (r: string)
    ensures IsDecimal(r)
    ensures r[0] == '-' <==> n < 0
  {
    if n < 0 then "-" + Digits(-n) else Digits(n)
  }

  /** The value denoted by a string of digits. */
  function DigitsValue(s: string): nat
    requires AllDigits(s)
  {
    if s == [] then 0 else DigitsValue(s[..|s| - 1]) * 10 + (s[|s| - 1] as int - '0' as int)
  }

  /** Reads decimal text back into a number (the inverse of `DecimalText`). */
  function ReadDecimal(s: string): int
    requires IsDecimal(s)
  {
    if s[0] == '-' then -(DigitsValue(s[1..]) as int) else DigitsValue(s)
  }

  lemma {:induction false} DigitsRoundTrip(n: nat)
    ensures DigitsValue(Digits(n)) == n
    decreases n
  {
    if n >= 10 {
      var r := Digits(n);
      assert r[..|r| - 1] == Digits(n / 10);
      DigitsRoundTrip(n / 10);
    }
  }

  /** Decimal rendering loses nothing: reading the text back gives the number. */
  lemma DecimalRoundTrip(n: int)
    ensures ReadDecimal(DecimalText(n)) == n
  {
    if n < 0 {
      assert DecimalText(n)[1..] == Digits(-n);
      DigitsRoundTrip(-n);
    } else {
      DigitsRoundTrip(n);
    }
  }

  /** The UTF-16 code units Java stores for one character: the character itself inside
      the Basic Multilingual Plane, a high and a low surrogate beyond it. */
  function CodeUnits(c: char): (u: seq<int>)
    ensures 1 <= |u| <= 2
    ensures forall k :: 0 <= k < |u| ==> 0 <= u[k] < 0x1_0000
    ensures |u| == 1 <==> c as int < 0x1_0000
    ensures |u| == 1 ==> u[0] == c as int
    ensures |u| == 2 ==> && 0xD800 <= u[0] < 0xDC00 <= u[1] < 0xE000
                         && 0x1_0000 + (u[0] - 0xD800) * 0x400 + (u[1] - 0xDC00) == c as int
  {
    var n := c as int;
    if n < 0x1_0000 then [n] else [0xD800 + (n - 0x1_0000) / 0x400, 0xDC00 + (n - 0x1_0000) % 0x400]
  }

  /** The UTF-16 code units of a string: what `length()`, `charAt` and `hashCode` of a
      Java `String` count and read. */
  function Utf16(s: string): (u: seq<int>)
    ensures |s| <= |u| <= 2 * |s|
    ensures forall k :: 0 <= k < |u| ==> 0 <= u[k] < 0x1_0000
    ensures (forall i :: 0 <= i < |s| ==> s[i] as int < 0x1_0000) ==>
              |u| == |s| && forall i :: 0 <= i < |s| ==> u[i] == s[i] as int
  {
    if s == [] then [] else Utf16(s[..|s| - 1]) + CodeUnits(s[|s| - 1])
  }

  /** `String.hashCode` of the string whose code units are `u`: h := 31 * h + unit, in
      32-bit arithmetic. */
  function StringHash(u: seq<int>): int32
  {
    if u == [] then 0 else Wrap32(31 * StringHash(u[..|u| - 1]) as int + u[|u| - 1])
  }

  /** The textbook definition of `String.hashCode` without wrap-around:
      u[0]*31^(n-1) + ... + u[n-1]. */
  function HashPolynomial(u: seq<int>): int
  {
    if u == [] then 0 else 31 * HashPolynomial(u[..|u| - 1]) + u[|u| - 1]
  }

  lemma {:induction false} StringHashIsPolynomialModulo(u: seq<int>)
    ensures (StringHash(u) as int - HashPolynomial(u)) % 0x1_0000_0000 == 0
  {
    if u != [] {
      var p := u[..|u| - 1];
      StringHashIsPolynomialModulo(p);
      var k := (StringHash(p) as int - HashPolynomial(p)) / 0x1_0000_0000;
      assert StringHash(p) as int == HashPolynomial(p) + k * 0x1_0000_0000;
      var x := 31 * StringHash(p) as int + u[|u| - 1];
      assert x - HashPolynomial(u) == (31 * k) * 0x1_0000_0000;
      var m := (Wrap32(x) as int - x) / 0x1_0000_0000;
      assert StringHash(u) as int - HashPolynomial(u) == (m + 31 * k) * 0x1_0000_0000;
      MultipleOfModulus(m + 31 * k);
    }
  }

  lemma MultipleOfModulus(a: int)
    ensures (a * 0x1_0000_0000) % 0x1_0000_0000 == 0
  {
  }

  /** Each name followed by `sep`, in order: what a loop of `append(name); append(sep)` leaves. */
  function Suffixed(names: seq<string>, sep: string): string
  {
    if names == [] then "" else names[0] + sep + Suffixed(names[1..], sep)
  }

  /** The names separated by `sep` (no separator after the last). */
  function Join(names: seq<string>, sep: string): string
    requires names != []
  {
    if |names| == 1 then names[0] else names[0] + sep + Join(names[1..], sep)
  }

  /** Joining a list with one more name in front. */
  lemma JoinWithFirst(prefix: string, first: string, rest: seq<string>, sep: string)
    requires rest != []
    ensures prefix + first + sep + Join(rest, sep) == prefix + Join([first] + rest, sep)
  {
    assert ([first] + rest)[1..] == rest;
  }

  /** A suffixed list is the joined list plus one trailing separator. */
  lemma {:induction false} SuffixedIsJoinPlusSeparator(names: seq<string>, sep: string)
    requires names != []
    ensures Suffixed(names, sep) == Join(names, sep) + sep
  {
    if |names| > 1 {
      SuffixedIsJoinPlusSeparator(names[1..], sep);
    }
  }

  /** Reading a separated list back: the pieces of `s` between occurrences of `sep`. */
  function Split(s: string, sep: char): (r: seq<string>)
    ensures r != []
    decreases |s|
  {
    if s == [] then [""]
    else if s[0] == sep then [""] + Split(s[1..], sep)
    else
      var rest := Split(s[1..], sep);
      [[s[0]] + rest[0]] + rest[1..]
  }

  lemma {:induction false} SplitWithoutSeparator(a: string, sep: char)
    requires sep !in a
    ensures Split(a, sep) == [a]
    decreases |a|
  {
    if a != [] {
      SplitWithoutSeparator(a[1..], sep);
      assert [a[0]] + a[1..] == a;
    }
  }

  lemma {:induction false} SplitFirstPiece(a: string, b: string, sep: char)
    requires sep !in a
    ensures Split(a + [sep] + b, sep) == [a] + Split(b, sep)
    decreases |a|
  {
    var s := a + [sep] + b;
    if a == [] {
      assert s[1..] == b;
    } else {
      assert s[1..] == a[1..] + [sep] + b;
      SplitFirstPiece(a[1..], b, sep);
      assert [a[0]] + a[1..] == a;
    }
  }

  /** Splitting undoes joining, provided no name contains the separator. */
  lemma {:induction false} SplitJoinRoundTrip(names: seq<string>, sep: char)
    requires names != []
    requires forall i :: 0 <= i < |names| ==> sep !in names[i]
    ensures Split(Join(names, [sep]), sep) == names
    decreases |names|
  {
    if |names| == 1 {
      SplitWithoutSeparator(names[0], sep);
    } else {
      SplitJoinRoundTrip(names[1..], sep);
      SplitFirstPiece(names[0], Join(names[1..], [sep]), sep);
      assert [names[0]] + names[1..] == names;
    }
  }
}

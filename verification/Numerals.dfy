/** Decimal numbers as text, cursors and line references. */
module Numerals {
  import opened Wrappers
  import opened Text

  const MIN_INT64: int := -0x8000_0000_0000_0000
  const MAX_INT64: int := 0x7fff_ffff_ffff_ffff

  predicate IsInt64(n: int) {
    MIN_INT64 <= n <= MAX_INT64
  }

  predicate IsDigit(c: char) {
    '0' <= c <= '9'
  }

  function DigitChar(d: nat): (c: char)
    requires d < 10
    ensures IsDigit(c)
  {
    '0' + d as char
  }

  function DigitOf(c: char): (d: nat)
    requires IsDigit(c)
    ensures d < 10
  {
    c as int - '0' as int
  }

  predicate AllDigits(s: string) {
    forall c :: c in s ==> IsDigit(c)
  }

  function FormatNat(n: nat): (s: string)
    ensures s != "" && AllDigits(s) && IsDigit(s[0])
  {
    if n < 10 then [DigitChar(n)] else FormatNat(n / 10) + [DigitChar(n % 10)]
  }

  function FormatInt(n: int): (s: string)
    ensures s != "" && (s[0] == '-' <==> n < 0)
  {
    if n < 0 then "-" + FormatNat(-n) else FormatNat(n)
  }

  function NatOf(digits: string): nat
    requires AllDigits(digits)
  {
    if digits == "" then 0
    else
      assert AllDigits(digits[..|digits| - 1]);
      10 * NatOf(digits[..|digits| - 1]) + DigitOf(digits[|digits| - 1])
  }

  datatype NumberError = BadSyntax | OutOfRange

  /** Reads a decimal with an optional sign; the value has to fit 64 bits. */
  function ParseInt(s: string): Result<int, NumberError> {
    var signed := s != "" && (s[0] == '+' || s[0] == '-');
    var digits := if signed then s[1..] else s;
    if digits == "" || !AllDigits(digits) then Failure(BadSyntax)
    else
      var n: int := NatOf(digits);
      var value := if signed && s[0] == '-' then -n else n;
      if IsInt64(value) then Success(value) else Failure(OutOfRange)
  }

  lemma {:induction false} NatReadsBack(n: nat)
    ensures NatOf(FormatNat(n)) == n
  {
    if n >= 10 {
      NatReadsBack(n / 10);
      var s := FormatNat(n);
      assert s[..|s| - 1] == FormatNat(n / 10);
    }
  }

  lemma IntReadsBack(n: int)
    ensures ParseInt(FormatInt(n)) == if IsInt64(n) then Success(n) else Failure(OutOfRange)
  {
    NatReadsBack(if n < 0 then -n else n);
    if n < 0 {
      assert FormatInt(n)[1..] == FormatNat(-n);
    } else {
      assert IsDigit(FormatInt(n)[0]);
    }
  }

  /** Digits are read from the left, each worth ten times the next. */
  lemma DecimalReads(s: string, c: char)
    requires AllDigits(s) && IsDigit(c)
    ensures AllDigits(s + [c]) && NatOf(s + [c]) == 10 * NatOf(s) + (c as int - '0' as int)
    ensures NatOf("") == 0
    ensures var n: int := NatOf(s + [c]);
            (IsInt64(n) ==> ParseInt(s + [c]) == Success(n)) && (IsInt64(-n) ==> ParseInt("-" + (s + [c])) == Success(-n))
  {
    var t := s + [c];
    assert t[..|s|] == s && ("-" + t)[1..] == t && IsDigit(t[0]);
  }

  lemma FormatIsInjective(m: int, n: int)
    requires IsInt64(m) && IsInt64(n) && FormatInt(m) == FormatInt(n)
    ensures m == n
  {
    IntReadsBack(m);
    IntReadsBack(n);
  }

  // ----- cursors

  /** Where a page ended, so that the next one can go on from there. */
  datatype Cursor = Cursor(timestamp: int, id: int)

  /** Nanoseconds since 1970 as a 64-bit integer, which wraps around. */
  function UnixNano(t: int): (n: int)
    ensures IsInt64(n)
  {
    (t - MIN_INT64) % 0x1_0000_0000_0000_0000 + MIN_INT64
  }

  lemma NanosFit(t: int)
    ensures UnixNano(t) == t <==> IsInt64(t)
  {
  }

  function CursorText(c: Cursor): string {
    FormatInt(UnixNano(c.timestamp)) + "-" + FormatInt(c.id)
  }

  datatype CursorError = NoSeparator | BadTime(time: NumberError) | BadId(id: NumberError)

  function ParseCursor(text: string): Result<Cursor, CursorError> {
    match IndexOf(text, '-')
    case None => Failure(NoSeparator)
    case Some(i) =>
      match ParseInt(text[..i])
      case Failure(e) => Failure(BadTime(e))
      case Success(nanos) =>
        match ParseInt(text[i + 1..])
        case Failure(e) => Failure(BadId(e))
        case Success(id) => Success(Cursor(nanos, id))
  }

  lemma DigitsHaveNo(n: nat, c: char)
    requires !IsDigit(c)
    ensures c !in FormatNat(n)
  {
  }

  lemma NanosReadBack(nanos: int, id: int)
    requires IsInt64(nanos) && IsInt64(id)
    ensures ParseCursor(FormatInt(nanos) + "-" + FormatInt(id)) ==
            if nanos >= 0 then Success(Cursor(nanos, id)) else Failure(BadTime(BadSyntax))
  {
    var time, rest := FormatInt(nanos), FormatInt(id);
    var text := time + "-" + rest;
    IntReadsBack(id);
    if nanos >= 0 {
      IntReadsBack(nanos);
      DigitsHaveNo(nanos, '-');
      FirstIndex(time, '-', rest);
      assert text == time + ['-'] + rest;
      assert text[..|time|] == time && text[|time| + 1..] == rest;
    } else {
      assert text == "" + ['-'] + text[1..];
      FirstIndex("", '-', text[1..]);
    }
  }

  /** A cursor reads back from its text exactly when its time is from 1970 on and
      fits 64 bits of nanoseconds. Otherwise its time wraps: it is refused if that
      is negative, and else read as another time. */
  lemma CursorReadsBack(c: Cursor)
    requires IsInt64(c.id)
    ensures ParseCursor(CursorText(c)) ==
            if UnixNano(c.timestamp) >= 0 then Success(Cursor(UnixNano(c.timestamp), c.id))
            else Failure(BadTime(BadSyntax))
    ensures ParseCursor(CursorText(c)) == Success(c) <==> 0 <= c.timestamp <= MAX_INT64
  {
    NanosReadBack(UnixNano(c.timestamp), c.id);
    NanosFit(c.timestamp);
  }

  /** The time of a line stamped with the epoch second 20000000000, in 2603. */
  const YEAR_2603: int := 20_000_000_000_000_000_000

  /** Its cursor reads back as a time in 2019. */
  lemma FarCursorComesBackEarly(id: int)
    requires IsInt64(id)
    ensures ParseCursor(CursorText(Cursor(YEAR_2603, id))) == Success(Cursor(1_553_255_926_290_448_384, id))
  {
    CursorReadsBack(Cursor(YEAR_2603, id));
  }

  // ----- line references

  /** Where a line stands, as text; empty when the file is not known. */
  function LineRef(file: string, offset: int): string {
    if file == "" then "" else file + "@" + FormatInt(offset)
  }

  /** A reference says which file and which offset, whatever characters the
      file's name has. */
  lemma LineRefIsInjective(file1: string, offset1: int, file2: string, offset2: int)
    requires file1 != "" && IsInt64(offset1) && IsInt64(offset2)
    requires LineRef(file1, offset1) == LineRef(file2, offset2)
    ensures file1 == file2 && offset1 == offset2
  {
    assert |LineRef(file1, offset1)| > 0;
    FormatHasNoAt(offset1);
    FormatHasNoAt(offset2);
    LastSeparator(file1, FormatInt(offset1), file2, FormatInt(offset2));
    FormatIsInjective(offset1, offset2);
  }

  lemma FormatHasNoAt(n: int)
    ensures '@' !in FormatInt(n)
  {
    DigitsHaveNo(if n < 0 then -n else n, '@');
  }

  lemma LastSeparator(a: string, x: string, b: string, y: string)
    requires '@' !in x && '@' !in y && a + "@" + x == b + "@" + y
    ensures a == b && x == y
  {
    var s, t := a + "@" + x, b + "@" + y;
    assert s[|a|] == '@' && t[|b|] == '@';
    assert forall k :: |a| < k < |s| ==> s[k] in x;
    assert forall k :: |b| < k < |t| ==> t[k] in y;
    assert a == s[..|a|] && b == t[..|b|];
    assert x == s[|a| + 1..] && y == t[|b| + 1..];
  }
}

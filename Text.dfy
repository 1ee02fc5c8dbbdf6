/** The primitive text parsers of the engine (_parse_boolean, _parse_int, _parse_string)
    and the pieces of Python's string handling they rely on: str.strip(), str.lower()
    and the decimal form that str() gives an int. */
module Text {
  import opened Base

  /** Python's str.isspace(): the characters str.strip() removes. */
  predicate IsSpace(c: char) {
    var n := c as int;
    (9 <= n <= 13) || (28 <= n <= 32) || n == 0x85 || n == 0xA0 || n == 0x1680
    || (0x2000 <= n <= 0x200A) || n == 0x2028 || n == 0x2029 || n == 0x202F
    || n == 0x205F || n == 0x3000
  }

  /** The two whitespace sets the engine strips. str.strip() removes every str.isspace()
      character. int() keeps the characters below U+007F as they are and then skips only
      ASCII whitespace, while it skips every str.isspace() character above; so its set
      is str.isspace() without the separators U+001C to U+001F. */
  datatype Blanks = StrBlanks | IntBlanks

  predicate IsBlank(w: Blanks, c: char) {
    IsSpace(c) && (w == IntBlanks ==> !(0x1C <= c as int <= 0x1F))
  }

  predicate IsDigit(c: char) {
    '0' <= c <= '9'
  }

  /** Every character of s is whitespace of the set w. */
  predicate AllBlank(w: Blanks, s: string) {
    forall i :: 0 <= i < |s| ==> IsBlank(w, s[i])
  }

  lemma AllBlankConcat(w: Blanks, a: string, b: string)
    ensures AllBlank(w, a + b) <==> AllBlank(w, a) && AllBlank(w, b)
  {
    if AllBlank(w, a) && AllBlank(w, b) {
      forall i | 0 <= i < |a + b|
        ensures IsBlank(w, (a + b)[i])
      {
        if i >= |a| {
          assert (a + b)[i] == b[i - |a|];
        }
      }
    }
    if AllBlank(w, a + b) {
      forall i | 0 <= i < |a|
        ensures IsBlank(w, a[i])
      {
        assert (a + b)[i] == a[i];
      }
      forall i | 0 <= i < |b|
        ensures IsBlank(w, b[i])
      {
        assert (a + b)[|a| + i] == b[i];
      }
    }
  }

  /** Drops leading whitespace. */
  function TrimStart(w: Blanks, s: string): (r: string)
    ensures |r| <= |s| && r == s[|s| - |r|..]
    ensures r == [] || !IsBlank(w, r[0])
    ensures AllBlank(w, s[..|s| - |r|])
  {
    if s != [] && IsBlank(w, s[0]) then
      var r := TrimStart(w, s[1..]);
      assert s[..|s| - |r|] == [s[0]] + s[1..][..|s| - 1 - |r|];
      AllBlankConcat(w, [s[0]], s[1..][..|s| - 1 - |r|]);
      r
    else s
  }

  /** Drops trailing whitespace. */
  function TrimEnd(w: Blanks, s: string): (r: string)
    ensures |r| <= |s| && r == s[..|r|]
    ensures r == [] || !IsBlank(w, r[|r| - 1])
    ensures AllBlank(w, s[|r|..])
  {
    if s != [] && IsBlank(w, s[|s| - 1]) then
      var r := TrimEnd(w, s[..|s| - 1]);
      assert s[|r|..] == s[..|s| - 1][|r|..] + [s[|s| - 1]];
      AllBlankConcat(w, s[..|s| - 1][|r|..], [s[|s| - 1]]);
      r
    else s
  }

  /** Whitespace of the set w removed from both ends: Strip(StrBlanks, s) is Python's
      s.strip() with no argument, and Strip(IntBlanks, s) what int() ignores around the
      number. The result neither starts nor ends with such whitespace, and what is
      removed is whitespace only: the result is a slice of s with only whitespace
      around it. */
  function Strip(w: Blanks, s: string): (r: string)
    ensures |r| <= |s|
    ensures r == [] || (!IsBlank(w, r[0]) && !IsBlank(w, r[|r| - 1]))
    ensures exists a, b :: IsTrimmedSlice(w, s, r, a, b)
  {
    TrimmedSlice(w, s);
    TrimEnd(w, TrimStart(w, s))
  }

  /** r is s[a..b], and everything of s outside that slice is whitespace of the set w. */
  predicate IsTrimmedSlice(w: Blanks, s: string, r: string, a: int, b: int) {
    0 <= a <= b <= |s| && r == s[a..b] && AllBlank(w, s[..a]) && AllBlank(w, s[b..])
  }

  lemma TrimmedSlice(w: Blanks, s: string)
    ensures IsTrimmedSlice(w, s, TrimEnd(w, TrimStart(w, s)), |s| - |TrimStart(w, s)|,
                           |s| - |TrimStart(w, s)| + |TrimEnd(w, TrimStart(w, s))|)
  {
    SliceOfSuffix(w, s, TrimStart(w, s), TrimEnd(w, TrimStart(w, s)));
  }

  /** A prefix r of a suffix t of s is a slice of s; whitespace cut from the ends of
      each stays outside that slice. */
  lemma SliceOfSuffix(w: Blanks, s: string, t: string, r: string)
    requires |t| <= |s| && t == s[|s| - |t|..] && AllBlank(w, s[..|s| - |t|])
    requires |r| <= |t| && r == t[..|r|] && AllBlank(w, t[|r|..])
    ensures IsTrimmedSlice(w, s, r, |s| - |t|, |s| - |t| + |r|)
  {
    var a := |s| - |t|;
    var b := a + |r|;
    assert r == s[a..b] by {
      assert s[a..b] == s[a..][..|r|];
    }
    assert s[b..] == t[|r|..];
  }

  /** A string that does not start or end with whitespace is its own strip. */
  lemma StripNoSpace(w: Blanks, s: string)
    requires s == [] || (!IsBlank(w, s[0]) && !IsBlank(w, s[|s| - 1]))
    ensures Strip(w, s) == s
  {
    assert TrimStart(w, s) == s;
    assert TrimEnd(w, s) == s;
  }

  /** Stripping twice is the same as stripping once. */
  lemma StripIdempotent(w: Blanks, s: string)
    ensures Strip(w, Strip(w, s)) == Strip(w, s)
  {
    StripNoSpace(w, Strip(w, s));
  }

  function LowerChar(c: char): char {
    if 'A' <= c <= 'Z' then (c as int + 32) as char else c
  }

  /** str.lower() restricted to ASCII letters. For the only use the engine makes of it,
      comparing against "true" and "false", this is exact: no other character lowers to
      one of the ASCII letters of those two words. */
  function Lower(s: string): (r: string)
    ensures |r| == |s|
    ensures forall i :: 0 <= i < |s| ==> r[i] == LowerChar(s[i])
  {
    if s == [] then [] else [LowerChar(s[0])] + Lower(s[1..])
  }

  /** _parse_boolean: True or False exactly when the lower-cased text is "true" or
      "false"; any other text is an InvalidPrimitiveValue; a missing text (None) fails
      in None.lower(), which is not an XmlError. */
  function ParseBoolean(text: Option<string>): (r: Result<bool>)
    ensures text.None? ==> r == Err(Uncaught)
    ensures text.Some? ==> (r == Ok(true) <==> Lower(text.value) == "true")
    ensures text.Some? ==> (r == Ok(false) <==> Lower(text.value) == "false")
    ensures text.Some? && r.Err? ==> r.error == InvalidPrimitiveValue
  {
    match text
    case None => Err(Uncaught)
    case Some(s) =>
      var lowered := Lower(s);
      if lowered == "true" then Ok(true)
      else if lowered == "false" then Ok(false)
      else Err(InvalidPrimitiveValue)
  }

  function DigitChar(d: nat): (c: char)
    requires d < 10
    ensures IsDigit(c) && c as int - '0' as int == d
  {
    (d + '0' as int) as char
  }

  /** The decimal digits of n, most significant first, as str() writes them. */
  function NatToDecimal(n: nat): (s: string)
    ensures |s| > 0 && IsDigit(s[0]) && IsDigit(s[|s| - 1])
    ensures forall i :: 0 <= i < |s| ==> IsDigit(s[i])
  {
    if n < 10 then [DigitChar(n)] else NatToDecimal(n / 10) + [DigitChar(n % 10)]
  }

  /** str(i) for an int i. */
  function IntToDecimal(i: int): string {
    if i < 0 then "-" + NatToDecimal(-i) else NatToDecimal(i)
  }

  /** The digit groups int() accepts in base 10: digits, with single underscores
      allowed between two digits. */
  predicate IsDigitGroup(s: string) {
    && |s| > 0 && IsDigit(s[0]) && IsDigit(s[|s| - 1])
    && (forall i :: 0 <= i < |s| ==> IsDigit(s[i]) || s[i] == '_')
    && (forall i :: 0 <= i < |s| - 1 ==> !(s[i] == '_' && s[i + 1] == '_'))
  }

  /** The number a string of digits and underscores denotes, underscores ignored. */
  function DigitsValue(s: string): nat
    requires forall i :: 0 <= i < |s| ==> IsDigit(s[i]) || s[i] == '_'
  {
    if s == [] then 0
    else
      var last := s[|s| - 1];
      assert IsDigit(last) || last == '_';
      if last == '_' then DigitsValue(s[..|s| - 1])
      else DigitsValue(s[..|s| - 1]) * 10 + (last as int - '0' as int)
  }

  /** _parse_int: int(text) in base 10. Surrounding whitespace is ignored, one sign is
      allowed, and the rest must be a digit group; anything else is a ValueError, which
      the engine turns into InvalidPrimitiveValue. A missing text (None) makes int()
      raise TypeError, which the engine does not catch. */
  function ParseInt(text: Option<string>): (r: Result<int>)
    ensures text.None? ==> r == Err(Uncaught)
    ensures text.Some? && r.Err? ==> r.error == InvalidPrimitiveValue
  {
    match text
    case None => Err(Uncaught)
    case Some(s) => ParseDecimal(Strip(IntBlanks, s))
  }

  /** int() on text without surrounding whitespace: an optional sign, then a digit
      group. */
  function ParseDecimal(t: string): (r: Result<int>)
    ensures r.Err? ==> r.error == InvalidPrimitiveValue
    ensures r.Ok? ==> t != [] && (IsDigit(t[0]) || t[0] == '-' || t[0] == '+')
  {
    var signed := |t| > 0 && (t[0] == '-' || t[0] == '+');
    var digits := if signed then t[1..] else t;
    if IsDigitGroup(digits) then
      var magnitude: int := DigitsValue(digits);
      Ok(if signed && t[0] == '-' then -magnitude else magnitude)
    else Err(InvalidPrimitiveValue)
  }

  lemma {:induction false} DigitsValueOfDecimal(n: nat)
    ensures DigitsValue(NatToDecimal(n)) == n
  {
    if n >= 10 {
      var s := NatToDecimal(n);
      var prefix := NatToDecimal(n / 10);
      assert s == prefix + [DigitChar(n % 10)];
      assert s[..|s| - 1] == prefix;
      DigitsValueOfDecimal(n / 10);
    }
  }

  /** An unsigned digit group parses to the number it denotes. */
  lemma ParseUnsigned(d: string)
    requires IsDigitGroup(d)
    ensures ParseDecimal(d) == Ok(DigitsValue(d))
  {
    assert d[0] != '-' && d[0] != '+';
  }

  /** A digit group after a minus sign parses to the negated number. */
  lemma ParseNegative(d: string)
    requires IsDigitGroup(d)
    ensures ParseDecimal("-" + d) == Ok(-(DigitsValue(d) as int))
  {
    assert ("-" + d)[1..] == d;
  }

  /** str(i) has no whitespace at its ends, so int() parses it without stripping. */
  lemma DecimalIsStripped(i: int)
    ensures Strip(IntBlanks, IntToDecimal(i)) == IntToDecimal(i)
  {
    var s := IntToDecimal(i);
    var d := NatToDecimal(if i < 0 then -i else i);
    assert IsDigit(d[0]) && IsDigit(d[|d| - 1]);
    assert s[0] == '-' || s[0] == d[0];
    assert s[|s| - 1] == d[|d| - 1];
    StripNoSpace(IntBlanks, s);
  }

  /** int(str(i)) == i. */
  lemma IntRoundTrip(i: int)
    ensures ParseInt(Some(IntToDecimal(i))) == Ok(i)
  {
    var m := if i < 0 then -i else i;
    var d := NatToDecimal(m);
    DigitsValueOfDecimal(m);
    assert IsDigitGroup(d) by {
      assert forall k :: 0 <= k < |d| ==> d[k] != '_';
    }
    DecimalIsStripped(i);
    if i < 0 {
      ParseNegative(d);
    } else {
      ParseUnsigned(d);
    }
  }

  /** _parse_string: a missing text reads as the empty string; the text is stripped
      only when strip_whitespace is set, and is otherwise kept verbatim. */
  function ParseString(stripWhitespace: bool, text: Option<string>): (r: string)
    ensures text.None? ==> r == ""
    ensures text.Some? && !stripWhitespace ==> r == text.value
    ensures text.Some? && stripWhitespace ==> r == Strip(StrBlanks, text.value)
    ensures text.Some? && stripWhitespace ==>
              |r| <= |text.value| && (r == [] || (!IsSpace(r[0]) && !IsSpace(r[|r| - 1])))
  {
    match text
    case None => ""
    case Some(s) => if stripWhitespace then Strip(StrBlanks, s) else s
  }

  /** int() ignores whitespace around the number. */
  lemma ParseIntIgnoresSpace(s: string)
    ensures ParseInt(Some(s)) == ParseInt(Some(Strip(IntBlanks, s)))
  {
    StripIdempotent(IntBlanks, s);
  }

  /** int() rejects a text whose first character after the ignored whitespace is
      neither a digit nor a sign. */
  lemma ParseIntRejectsLead(s: string)
    requires var t := Strip(IntBlanks, s); t != [] && !IsDigit(t[0]) && t[0] != '-' && t[0] != '+'
    ensures ParseInt(Some(s)) == Err(InvalidPrimitiveValue)
  {
    var r := ParseDecimal(Strip(IntBlanks, s));
    assert !r.Ok?;
  }

  /** The two whitespace sets differ: str.strip() removes the separator U+001C, while
      int() rejects a number that it precedes. */
  lemma IntRejectsSeparator()
    ensures Strip(StrBlanks, ['\U{1c}', '5']) == ['5']
    ensures ParseInt(Some(['\U{1c}', '5'])) == Err(InvalidPrimitiveValue)
  {
    var s := ['\U{1c}', '5'];
    assert IsBlank(StrBlanks, s[0]) && !IsBlank(IntBlanks, s[0]) && !IsBlank(StrBlanks, s[1]);
    assert s[1..] == ['5'];
    assert TrimStart(StrBlanks, s) == ['5'];
    StripNoSpace(IntBlanks, s);
    ParseIntRejectsLead(s);
  }
}

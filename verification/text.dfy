/** The three Python string operations the annotation reader relies on: `str.strip`,
    `str.split` with a one-character separator, and `int()` on a base-10 literal. */
module Text {
  import opened Outcomes

  /** U+FEFF, the byte-order mark some editors put at the start of a text file. */
  const Bom: char := '\U{FEFF}'

  /** The characters `str.strip()` removes: those for which `str.isspace()` holds. */
  const Whitespace: set<char> := {
    '\t', '\n', '\U{0B}', '\U{0C}', '\r', '\U{1C}', '\U{1D}', '\U{1E}', '\U{1F}', ' ',
    '\U{85}', '\U{A0}', '\U{1680}',
    '\U{2000}', '\U{2001}', '\U{2002}', '\U{2003}', '\U{2004}', '\U{2005}',
    '\U{2006}', '\U{2007}', '\U{2008}', '\U{2009}', '\U{200A}',
    '\U{2028}', '\U{2029}', '\U{202F}', '\U{205F}', '\U{3000}'
  }

  /** The characters `int()` skips around a literal. Characters below 128 reach the digit parser
      unchanged, and it skips only tab, line feed, vertical tab, form feed, carriage return and
      space; the separators U+001C to U+001F, whitespace to `str.strip()`, are rejected. Non-ASCII
      whitespace is first turned into a space and skipped. */
  const IntWhitespace: set<char> := Whitespace - {'\U{1C}', '\U{1D}', '\U{1E}', '\U{1F}'}

  // ---------------------------------------------------------------------------
  // str.strip

  /** Drops the leading characters that are in `chars`. */
  function TrimStart(s: string, chars: set<char>): (r: string)
    ensures |r| <= |s| && r == s[|s| - |r|..]
    ensures forall i :: 0 <= i < |s| - |r| ==> s[i] in chars
    ensures |r| > 0 ==> r[0] !in chars
  {
    if |s| > 0 && s[0] in chars then
      var r := TrimStart(s[1..], chars);
      assert s[1..][|s| - 1 - |r|..] == s[|s| - |r|..];
      r
    else s
  }

  /** Drops the trailing characters that are in `chars`. */
  function TrimEnd(s: string, chars: set<char>): (r: string)
    ensures |r| <= |s| && r == s[..|r|]
    ensures forall i :: |r| <= i < |s| ==> s[i] in chars
    ensures |r| > 0 ==> r[|r| - 1] !in chars
  {
    if |s| > 0 && s[|s| - 1] in chars then
      var r := TrimEnd(s[..|s| - 1], chars);
      assert s[..|s| - 1][..|r|] == s[..|r|];
      r
    else s
  }

  /** `s.strip(chars)`: both ends trimmed. */
  function Strip(s: string, chars: set<char>): (r: string)
    ensures |r| > 0 ==> r[0] !in chars && r[|r| - 1] !in chars
  {
    TrimEnd(TrimStart(s, chars), chars)
  }

  /** Stripping is determined by the kept middle: any string made of dropped characters,
      a middle that does not start or end with one, and dropped characters strips to that middle. */
  lemma {:induction false} StripExact(pre: string, mid: string, post: string, chars: set<char>)
    requires forall i :: 0 <= i < |pre| ==> pre[i] in chars
    requires forall i :: 0 <= i < |post| ==> post[i] in chars
    requires |mid| > 0 ==> mid[0] !in chars && mid[|mid| - 1] !in chars
    ensures Strip(pre + mid + post, chars) == mid
  {
    var s := pre + mid + post;
    var t := TrimStart(s, chars);
    if |mid| > 0 {
      assert s[|pre|] == mid[0];
      assert |t| == |mid| + |post|;
    } else {
      assert |t| <= |post|;
    }
    assert t == s[|s| - |t|..];
    var r := TrimEnd(t, chars);
    if |mid| > 0 {
      assert t[|mid| - 1] == mid[|mid| - 1];
      assert |r| == |mid|;
      assert r == mid;
    }
  }

  /** A leading character that is not dropped shields the rest from `TrimStart`. */
  lemma TrimStartKept(s: string, chars: set<char>)
    requires |s| > 0 && s[0] !in chars
    ensures TrimStart(s, chars) == s
  {
  }

  /** Trimming the end of `a + b` only ever eats into `b` when `a` ends in a kept character. */
  lemma {:induction false} TrimEndAppend(a: string, b: string, chars: set<char>)
    requires |a| > 0 && a[|a| - 1] !in chars
    ensures TrimEnd(a + b, chars) == a + TrimEnd(b, chars)
    decreases |b|
  {
    if |b| > 0 && b[|b| - 1] in chars {
      assert (a + b)[..|a + b| - 1] == a + b[..|b| - 1];
      TrimEndAppend(a, b[..|b| - 1], chars);
    } else if |b| == 0 {
      assert a + b == a;
    }
  }

  /** Stripping `a + b`, where `a` starts and ends with kept characters, keeps `a` whole. */
  lemma StripAppend(a: string, b: string, chars: set<char>)
    requires |a| > 0 && a[0] !in chars && a[|a| - 1] !in chars
    ensures Strip(a + b, chars) == a + TrimEnd(b, chars)
  {
    TrimStartKept(a + b, chars);
    TrimEndAppend(a, b, chars);
  }

  // ---------------------------------------------------------------------------
  // str.split

  /** `s.split(sep)`: the pieces between separators, empty pieces included. */
  function Split(s: string, sep: char): (fields: seq<string>)
    ensures |fields| >= 1
    ensures forall k :: 0 <= k < |fields| ==> sep !in fields[k]
  {
    if |s| == 0 then [""]
    else
      var rest := Split(s[1..], sep);
      if s[0] == sep then [""] + rest
      else [[s[0]] + rest[0]] + rest[1..]
  }

  /** `sep.join(fields)`. */
  function Join(fields: seq<string>, sep: char): string
  {
    if |fields| == 0 then ""
    else if |fields| == 1 then fields[0]
    else fields[0] + [sep] + Join(fields[1..], sep)
  }

  /** Joining the pieces of a split gives back the original string. */
  lemma {:induction false} JoinSplit(s: string, sep: char)
    ensures Join(Split(s, sep), sep) == s
  {
    if |s| > 0 {
      var rest := Split(s[1..], sep);
      JoinSplit(s[1..], sep);
      if s[0] == sep {
        assert Split(s, sep) == [""] + rest;
        assert ([""] + rest)[1..] == rest;
        assert s == [sep] + s[1..];
      } else {
        var fs := Split(s, sep);
        assert fs == [[s[0]] + rest[0]] + rest[1..];
        if |rest| == 1 {
          assert s == [s[0]] + s[1..];
        } else {
          assert fs[1..] == rest[1..];
          assert Join(rest, sep) == rest[0] + [sep] + Join(rest[1..], sep);
          assert s == [s[0]] + s[1..];
        }
      }
    }
  }

  /** A string with no separator is a single field. */
  lemma {:induction false} SplitNoSeparator(s: string, sep: char)
    requires sep !in s
    ensures Split(s, sep) == [s]
  {
    if |s| > 0 {
      assert sep !in s[1..] by {
        forall k | 0 <= k < |s[1..]| ensures s[1..][k] != sep { assert s[1..][k] == s[k + 1]; }
      }
      SplitNoSeparator(s[1..], sep);
      assert [s[0]] + s[1..] == s;
    }
  }

  /** A separator splits the string into the fields before it followed by the fields after it. */
  lemma {:induction false} SplitAtSeparator(a: string, b: string, sep: char)
    ensures Split(a + [sep] + b, sep) == Split(a, sep) + Split(b, sep)
  {
    if |a| == 0 {
      assert a + [sep] + b == [sep] + b;
      assert ([sep] + b)[1..] == b;
    } else {
      var s := a + [sep] + b;
      assert s[1..] == a[1..] + [sep] + b;
      SplitAtSeparator(a[1..], b, sep);
    }
  }

  /** Splitting the join of separator-free fields gives back the fields. */
  lemma {:induction false} SplitJoin(fields: seq<string>, sep: char)
    requires |fields| >= 1
    requires forall k :: 0 <= k < |fields| ==> sep !in fields[k]
    ensures Split(Join(fields, sep), sep) == fields
  {
    if |fields| == 1 {
      SplitNoSeparator(fields[0], sep);
    } else {
      SplitJoin(fields[1..], sep);
      SplitNoSeparator(fields[0], sep);
      SplitAtSeparator(fields[0], Join(fields[1..], sep), sep);
      assert [fields[0]] + fields[1..] == fields;
    }
  }

  // ---------------------------------------------------------------------------
  // int() and str() on base-10 integers

  predicate IsDigit(c: char) {
    '0' <= c <= '9'
  }

  predicate AllDigits(s: string) {
    forall i :: 0 <= i < |s| ==> IsDigit(s[i])
  }

  /** The value of a string of ASCII decimal digits, most significant first. */
  function DigitsValue(ds: string): nat
    requires AllDigits(ds)
  {
    if |ds| == 0 then 0
    else DigitsValue(ds[..|ds| - 1]) * 10 + (ds[|ds| - 1] as int - '0' as int)
  }

  /** A base-10 literal without surrounding whitespace: an optional sign, then one or more
      decimal digits. */
  function ParseLiteral(t: string): (r: Option<int>)
    ensures r.Some? <==> IsLiteral(t)
  {
    if |t| > 0 && (t[0] == '+' || t[0] == '-') then
      var ds := t[1..];
      if |ds| > 0 && AllDigits(ds) then Some(if t[0] == '-' then -(DigitsValue(ds) as int) else DigitsValue(ds))
      else None
    else if |t| > 0 && AllDigits(t) then Some(DigitsValue(t))
    else None
  }

  /** An optional sign followed by at least one decimal digit. */
  predicate IsLiteral(t: string) {
    && |t| > 0 && IsDigit(t[|t| - 1])
    && (IsDigit(t[0]) || t[0] == '+' || t[0] == '-')
    && forall k :: 0 < k < |t| ==> IsDigit(t[k])
  }

  /** `int(s)`: the literal between surrounding whitespace; `None` where Python raises ValueError.
      A field that converts is a literal with only whitespace `int()` skips around it. */
  function ParseDecimal(s: string): (r: Option<int>)
    ensures r.Some? <==> IsLiteral(Strip(s, IntWhitespace))
  {
    ParseLiteral(Strip(s, IntWhitespace))
  }

  function DigitChar(d: nat): (c: char)
    requires d < 10
    ensures IsDigit(c) && c as int - '0' as int == d
  {
    (d + '0' as int) as char
  }

  /** `str(n)` for a natural number: decimal digits without leading zeros. */
  function ShowNat(n: nat): (s: string)
    ensures |s| > 0 && AllDigits(s)
    ensures |s| > 1 ==> s[0] != '0'
  {
    if n < 10 then [DigitChar(n)] else ShowNat(n / 10) + [DigitChar(n % 10)]
  }

  /** `str(n)`: a minus sign for negative numbers, then the digits. */
  function Show(n: int): (s: string)
    ensures |s| > 0
  {
    if n < 0 then "-" + ShowNat(-n) else ShowNat(n)
  }

  /** Reading the digits of `str(n)` gives back `n`. */
  lemma {:induction false} DigitsValueShowNat(n: nat)
    ensures DigitsValue(ShowNat(n)) == n
  {
    if n >= 10 {
      var s := ShowNat(n);
      assert s[..|s| - 1] == ShowNat(n / 10);
      DigitsValueShowNat(n / 10);
    }
  }

  /** A digit or a minus sign is neither whitespace, a byte-order mark nor a comma. */
  lemma NumeralCharIsPlain(c: char)
    requires IsDigit(c) || c == '-' || c == '+'
    ensures c !in Whitespace && c !in IntWhitespace && c != Bom && c != ','
  {
  }

  /** `str(n)` neither starts nor ends with whitespace, so stripping around it recovers it. */
  lemma StripAroundShow(n: int, pre: string, post: string)
    requires forall i :: 0 <= i < |pre| ==> pre[i] in IntWhitespace
    requires forall i :: 0 <= i < |post| ==> post[i] in IntWhitespace
    ensures Strip(pre + Show(n) + post, IntWhitespace) == Show(n)
  {
    var s := Show(n);
    var digits := if n < 0 then ShowNat(-n) else ShowNat(n);
    assert s[|s| - 1] == digits[|digits| - 1];
    NumeralCharIsPlain(s[0]);
    NumeralCharIsPlain(s[|s| - 1]);
    StripExact(pre, s, post, IntWhitespace);
  }

  /** The literal `str(n)` reads back as `n`. */
  lemma LiteralShow(n: int)
    ensures ParseLiteral(Show(n)) == Some(n)
  {
    var s := Show(n);
    if n < 0 {
      var ds := ShowNat(-n);
      assert s[1..] == ds;
      DigitsValueShowNat(-n);
    } else {
      DigitsValueShowNat(n);
    }
  }

  /** `int(str(n)) == n`, also with whitespace `int()` skips around the literal. */
  lemma ParseShow(n: int, pre: string, post: string)
    requires forall i :: 0 <= i < |pre| ==> pre[i] in IntWhitespace
    requires forall i :: 0 <= i < |post| ==> post[i] in IntWhitespace
    ensures ParseDecimal(pre + Show(n) + post) == Some(n)
  {
    StripAroundShow(n, pre, post);
    LiteralShow(n);
  }

  /** A run of zeros reads as 0. */
  lemma {:induction false} ZerosValue(zeros: string)
    requires forall i :: 0 <= i < |zeros| ==> zeros[i] == '0'
    ensures AllDigits(zeros) && DigitsValue(zeros) == 0
  {
    if |zeros| > 0 {
      ZerosValue(zeros[..|zeros| - 1]);
    }
  }

  /** Leading zeros do not change the value of a digit string. */
  lemma {:induction false} LeadingZerosValue(zeros: string, ds: string)
    requires forall i :: 0 <= i < |zeros| ==> zeros[i] == '0'
    requires AllDigits(ds)
    ensures AllDigits(zeros + ds)
    ensures DigitsValue(zeros + ds) == DigitsValue(ds)
  {
    ZerosValue(zeros);
    var t := zeros + ds;
    if |ds| == 0 {
      assert t == zeros;
    } else {
      assert t[..|t| - 1] == zeros + ds[..|ds| - 1];
      LeadingZerosValue(zeros, ds[..|ds| - 1]);
    }
  }

  /** An optional sign followed by decimal digits reads as the digits' value, negated after a
      minus sign. */
  lemma LiteralOfDigits(sign: string, ds: string)
    requires sign == "" || sign == "+" || sign == "-"
    requires |ds| > 0 && AllDigits(ds)
    ensures ParseLiteral(sign + ds) == Some(if sign == "-" then -(DigitsValue(ds) as int) else DigitsValue(ds))
  {
    var t := sign + ds;
    if sign == "" {
      assert t == ds;
    } else {
      assert t[1..] == ds;
      if sign == "-" {
        assert t[0] == '-';
      } else {
        assert t[0] == '+';
      }
    }
  }

  /** `int()` on every form it accepts: whitespace it skips, an optional sign, leading zeros and
      the digits of `n`, so `07` is 7, `+5` is 5 and `-0` is 0. Every string `int()` accepts has
      this form, so this fixes its value. */
  lemma ParsePadded(n: nat, sign: string, zeros: string, pre: string, post: string)
    requires sign == "" || sign == "+" || sign == "-"
    requires forall i :: 0 <= i < |zeros| ==> zeros[i] == '0'
    requires forall i :: 0 <= i < |pre| ==> pre[i] in IntWhitespace
    requires forall i :: 0 <= i < |post| ==> post[i] in IntWhitespace
    ensures ParseDecimal(pre + (sign + (zeros + ShowNat(n))) + post) == Some(if sign == "-" then -(n as int) else n)
  {
    var ds := zeros + ShowNat(n);
    var lit := sign + ds;
    assert AllDigits(ds) && DigitsValue(ds) == n by {
      LeadingZerosValue(zeros, ShowNat(n));
      DigitsValueShowNat(n);
    }
    assert ParseLiteral(lit) == Some(if sign == "-" then -(n as int) else n) by {
      LiteralOfDigits(sign, ds);
    }
    assert Strip(pre + lit + post, IntWhitespace) == lit by {
      assert IsDigit(lit[|lit| - 1]) by {
        assert lit[|lit| - 1] == ds[|ds| - 1];
      }
      assert IsDigit(lit[0]) || lit[0] == '+' || lit[0] == '-' by {
        if sign == "" {
          assert lit[0] == ds[0];
        } else {
          assert lit[0] == sign[0];
        }
      }
      NumeralCharIsPlain(lit[0]);
      NumeralCharIsPlain(lit[|lit| - 1]);
      StripExact(pre, lit, post, IntWhitespace);
    }
  }

  /** `int()` rejects any string with a character that is neither whitespace it skips, a sign
      nor a digit, such as the transcription label of an annotation or U+001C. */
  lemma ParseRejectsForeignCharacter(s: string, i: int)
    requires 0 <= i < |s|
    requires s[i] !in IntWhitespace && !IsDigit(s[i]) && s[i] != '+' && s[i] != '-'
    ensures ParseDecimal(s) == None
  {
    var u := TrimStart(s, IntWhitespace);
    var t := TrimEnd(u, IntWhitespace);
    var start := |s| - |u|;
    assert i >= start;
    assert u[i - start] == s[i];
    assert i - start < |t|;
    assert t[i - start] == s[i];
    if ParseLiteral(t).Some? {
      LiteralCharacters(t, i - start);
      assert false;
    }
  }

  /** The separators U+001C to U+001F, which `str.strip()` removes, make `int()` fail wherever
      they stand in a field: `int('8\x1c')` raises. */
  lemma ParseRejectsSeparator(s: string, i: int)
    requires 0 <= i < |s|
    requires s[i] in Whitespace - IntWhitespace
    ensures ParseDecimal(s) == None
  {
    ParseRejectsForeignCharacter(s, i);
  }

  /** Every character of an accepted literal is a digit, except a sign in front. */
  lemma LiteralCharacters(t: string, k: int)
    requires ParseLiteral(t).Some?
    requires 0 <= k < |t|
    ensures IsDigit(t[k]) || (k == 0 && (t[0] == '+' || t[0] == '-'))
  {
    if k > 0 && (t[0] == '+' || t[0] == '-') {
      assert t[1..][k - 1] == t[k];
    }
  }

  /** `int('')` raises: an empty or all-whitespace field is not a number. */
  lemma ParseRejectsBlank(s: string)
    requires forall i :: 0 <= i < |s| ==> s[i] in IntWhitespace
    ensures ParseDecimal(s) == None
  {
    StripExact(s, "", "", IntWhitespace);
    assert s + "" + "" == s;
  }
}

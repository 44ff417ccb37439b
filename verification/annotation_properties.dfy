/** What reading a line promises: a BOM and extra fields make no difference, printed
    coordinates read back as the points they came from, and malformed lines are rejected. */
module AnnotationProperties {
  import opened Outcomes
  import opened Text
  import opened Shrinker
  import opened Annotation

  /** A leading byte-order mark makes no difference. */
  lemma ParseLineIgnoresBom(line: string)
    ensures ParseLine([Bom] + line) == ParseLine(line)
  {
    assert TakenFields([Bom] + line) == TakenFields(line) by {
      StripLeadingBom(line);
    }
  }

  lemma StripLeadingBom(line: string)
    ensures Strip([Bom] + line, {Bom}) == Strip(line, {Bom})
  {
    assert ([Bom] + line)[1..] == line;
  }

  /** Lines that agree on their first eight fields parse alike, whatever follows. */
  lemma ParseLineIgnoresExtraFields(line1: string, line2: string)
    requires |Fields(line1)| >= MaxFields && |Fields(line2)| >= MaxFields
    requires Fields(line1)[..MaxFields] == Fields(line2)[..MaxFields]
    ensures ParseLine(line1) == ParseLine(line2)
  {
  }

  /** Numbers printed as a line: `",".join(map(str, ns))`. */
  function Numbers(ns: seq<int>): string
  {
    Join(ShowAll(ns), ',')
  }

  /** An annotation line as a writer would print it: the coordinates joined by commas. */
  function Render(ps: seq<Point>): string
  {
    Numbers(Flatten(ps))
  }

  function ShowAll(ns: seq<int>): (ss: seq<string>)
    ensures |ss| == |ns|
    ensures forall i :: 0 <= i < |ns| ==> ss[i] == Show(ns[i])
  {
    if |ns| == 0 then [] else [Show(ns[0])] + ShowAll(ns[1..])
  }

  lemma ShowHasNoComma(n: int)
    ensures ',' !in Show(n)
  {
    var s := Show(n);
    var digits := if n < 0 then ShowNat(-n) else ShowNat(n);
    forall k | 0 <= k < |s|
      ensures s[k] != ','
    {
      if n < 0 && k > 0 {
        assert s[k] == digits[k - 1];
      }
    }
  }

  /** When every field converts to the matching number, the conversion yields exactly those numbers. */
  lemma {:induction false} ConvertAllExact(fs: seq<string>, convert: string -> Option<int>, ns: seq<int>)
    requires |fs| == |ns|
    requires forall i :: 0 <= i < |fs| ==> convert(fs[i]) == Some(ns[i])
    ensures ConvertAll(fs, convert) == Ok(ns)
  {
    if |fs| > 0 {
      var n := |fs| - 1;
      ConvertAllExact(fs[..n], convert, ns[..n]);
      assert ns[..n] + [ns[n]] == ns;
    }
  }

  /** Converting every printed number gives back the numbers. */
  lemma ConvertShowAll(ns: seq<int>)
    ensures ConvertAll(ShowAll(ns), ParseDecimal) == Ok(ns)
  {
    var ss := ShowAll(ns);
    forall i | 0 <= i < |ns|
      ensures ParseDecimal(ss[i]) == Some(ns[i])
    {
      ParseShow(ns[i], "", "");
      assert "" + Show(ns[i]) + "" == Show(ns[i]);
    }
    ConvertAllExact(ss, ParseDecimal, ns);
  }

  /** The fields of a printed line are the printed numbers. */
  lemma SplitNumbers(ns: seq<int>)
    requires |ns| >= 1
    ensures Split(Numbers(ns), ',') == ShowAll(ns)
  {
    var ss := ShowAll(ns);
    forall k | 0 <= k < |ss|
      ensures ',' !in ss[k]
    {
      ShowHasNoComma(ns[k]);
    }
    SplitJoin(ss, ',');
  }

  /** A rendered line starts with the first number's first character and ends with the last
      number's last character. */
  lemma RenderEndsWithNumbers(ns: seq<int>)
    requires |ns| >= 1
    ensures var s := Join(ShowAll(ns), ',');
      && |s| > 0
      && s[0] == Show(ns[0])[0]
      && s[|s| - 1] == Show(ns[|ns| - 1])[|Show(ns[|ns| - 1])| - 1]
  {
    var ss := ShowAll(ns);
    forall k | 0 <= k < |ss|
      ensures |ss[k]| > 0
    {
      assert ss[k] == Show(ns[k]);
    }
    JoinEnds(ss);
    assert ss[0] == Show(ns[0]) && ss[|ss| - 1] == Show(ns[|ns| - 1]);
  }

  /** A printed line neither starts nor ends with a BOM, whitespace or a comma. */
  lemma NumbersEnds(ns: seq<int>)
    requires |ns| >= 1
    ensures var s := Numbers(ns);
      && |s| > 0
      && s[0] != Bom && s[0] !in Whitespace && s[0] != ','
      && s[|s| - 1] != Bom && s[|s| - 1] !in Whitespace && s[|s| - 1] != ','
  {
    RenderEndsWithNumbers(ns);
    ShowEnds(ns[0]);
    ShowEnds(ns[|ns| - 1]);
    var s := Numbers(ns);
    NumeralCharIsPlain(s[0]);
    NumeralCharIsPlain(s[|s| - 1]);
  }

  /** The first character of `str(n)` is a sign or a digit, the last a digit. */
  lemma ShowEnds(n: int)
    ensures var s := Show(n); (s[0] == '-' || IsDigit(s[0])) && IsDigit(s[|s| - 1])
  {
    var s := Show(n);
    var digits := if n < 0 then ShowNat(-n) else ShowNat(n);
    assert s[|s| - 1] == digits[|digits| - 1];
  }

  /** A join of non-empty fields starts with the first field's first character and ends with
      the last field's last character. */
  lemma {:induction false} JoinEnds(ss: seq<string>)
    requires |ss| >= 1
    requires forall k :: 0 <= k < |ss| ==> |ss[k]| > 0
    ensures var s := Join(ss, ','); |s| > 0 && s[0] == ss[0][0] && s[|s| - 1] == ss[|ss| - 1][|ss[|ss| - 1]| - 1]
  {
    if |ss| > 1 {
      var rest := ss[1..];
      var j := Join(rest, ',');
      assert |j| > 0 && j[|j| - 1] == ss[|ss| - 1][|ss[|ss| - 1]| - 1] by {
        JoinEnds(rest);
      }
      var s := Join(ss, ',');
      assert s == (ss[0] + [',']) + j;
      assert s[|s| - 1] == j[|j| - 1];
    }
  }

  /** Printed coordinates convert and pair back into the points they came from. */
  lemma ParseShownPoints(ps: seq<Point>)
    ensures ParseFields(ShowAll(Flatten(ps))) == Ok(ps)
  {
    ConvertShowAll(Flatten(ps));
    PairUpFlatten(ps);
  }

  /** Stripping keeps a text that starts and ends with neither a BOM nor whitespace, and drops
      trailing whitespace after it. */
  lemma FieldsOfPaddedText(s: string, ws: string)
    requires |s| > 0 && s[0] != Bom && s[0] !in Whitespace && s[|s| - 1] != Bom && s[|s| - 1] !in Whitespace
    requires forall i :: 0 <= i < |ws| ==> ws[i] in Whitespace
    ensures Fields(s + ws) == Split(s, ',')
  {
    var ws1 := TrimEnd(ws, {Bom});
    StripAppend(s, ws, {Bom});
    StripTrailingWhitespace(s, ws1);
  }

  /** Whitespace after a text that does not start or end with whitespace is stripped away. */
  lemma StripTrailingWhitespace(s: string, ws: string)
    requires |s| > 0 && s[0] !in Whitespace && s[|s| - 1] !in Whitespace
    requires forall i :: 0 <= i < |ws| ==> ws[i] in Whitespace
    ensures Strip(s + ws, Whitespace) == s
  {
    StripExact("", s, ws, Whitespace);
    assert "" + s + ws == s + ws;
  }

  /** Stripping keeps a text as above followed by a comma and anything; the fields of the text
      come first, then those of the stripped tail. */
  lemma FieldsOfLabelledText(s: string, tail: string)
    requires |s| > 0 && s[0] != Bom && s[0] !in Whitespace && s[|s| - 1] != Bom && s[|s| - 1] !in Whitespace
    ensures Fields(s + "," + tail) == Split(s, ',') + Split(TrimEnd(TrimEnd(tail, {Bom}), Whitespace), ',')
  {
    var a := s + [','];
    assert a[0] == s[0] && a[|a| - 1] == ',';
    assert ',' !in Whitespace;
    assert s + "," + tail == a + tail;
    var t1 := TrimEnd(tail, {Bom});
    assert Strip(a + tail, {Bom}) == a + t1 by {
      StripAppend(a, tail, {Bom});
    }
    var t2 := TrimEnd(t1, Whitespace);
    assert Strip(a + t1, Whitespace) == a + t2 by {
      StripAppend(a, t1, Whitespace);
    }
    assert a + t2 == s + [','] + t2;
    SplitAtSeparator(s, t2, ',');
  }

  /** Parsing one to eight printed numbers, with trailing whitespace such as the line end, gives
      back the numbers paired into points, or the odd count. */
  lemma ParseNumbersLine(ns: seq<int>, ws: string)
    requires 1 <= |ns| <= MaxFields
    requires forall i :: 0 <= i < |ws| ==> ws[i] in Whitespace
    ensures ParseLine(Numbers(ns) + ws) == if |ns| % 2 == 0 then Ok(PairUp(ns)) else Err(OddFieldCount(|ns|))
  {
    assert TakenFields(Numbers(ns) + ws) == ShowAll(ns) by {
      NumbersEnds(ns);
      FieldsOfPaddedText(Numbers(ns), ws);
      SplitNumbers(ns);
    }
    ConvertShowAll(ns);
  }

  /** Parsing a rendered polygon of one to four points, with trailing whitespace such as the line
      end, gives back the polygon. */
  lemma ParseRenderedLine(ps: seq<Point>, ws: string)
    requires 1 <= |ps| <= MaxFields / 2
    requires forall i :: 0 <= i < |ws| ==> ws[i] in Whitespace
    ensures ParseLine(Render(ps) + ws) == Ok(ps)
  {
    ParseNumbersLine(Flatten(ps), ws);
    PairUpFlatten(ps);
  }

  /** The first eight fields of a rendered quadrilateral followed by a comma and anything are the
      printed coordinates. */
  lemma LabelledFields(ps: seq<Point>, tail: string)
    requires |ps| == MaxFields / 2
    ensures |Fields(Render(ps) + "," + tail)| >= MaxFields
    ensures Fields(Render(ps) + "," + tail)[..MaxFields] == ShowAll(Flatten(ps))
  {
    var shown := ShowAll(Flatten(ps));
    assert |shown| == MaxFields;
    var more := Split(TrimEnd(TrimEnd(tail, {Bom}), Whitespace), ',');
    PrefixOfConcat(shown, more);
    assert Fields(Render(ps) + "," + tail) == shown + more by {
      NumbersEnds(Flatten(ps));
      FieldsOfLabelledText(Render(ps), tail);
      SplitNumbers(Flatten(ps));
    }
  }

  lemma PrefixOfConcat<T>(a: seq<T>, b: seq<T>)
    ensures (a + b)[..|a|] == a
  {
  }

  /** Parsing a rendered quadrilateral followed by a comma and anything at all (the label and the
      line end) gives back the quadrilateral: fields after the eighth are never read. */
  lemma ParseLabelledLine(ps: seq<Point>, tail: string)
    requires |ps| == MaxFields / 2
    ensures ParseLine(Render(ps) + "," + tail) == Ok(ps)
  {
    var line := Render(ps) + "," + tail;
    LabelledFields(ps, tail);
    var fs := TakenFields(line);
    assert |fs| == MaxFields;
    assert fs == ShowAll(Flatten(ps));
    ParseShownPoints(ps);
  }

  /** A blank line, such as a trailing empty line of the file, fails in `int('')`. */
  lemma ParseBlankLine(line: string)
    requires forall i :: 0 <= i < |line| ==> line[i] in Whitespace
    ensures ParseLine(line) == Err(NotAnInteger(0, ""))
  {
    assert Bom !in Whitespace;
    assert Strip(line, {Bom}) == line by {
      StripExact("", line, "", {Bom});
      assert "" + line + "" == line;
    }
    assert Strip(line, Whitespace) == "" by {
      StripExact(line, "", "", Whitespace);
      assert line + "" + "" == line;
    }
    assert Fields(line) == [""];
    assert TakenFields(line) == [""];
    ParseRejectsBlank("");
    assert ConvertAll([""], ParseDecimal) == Err(NotAnInteger(0, ""));
  }

  /** Three numbers cannot be paired into points. */
  lemma ParseOddLine()
    ensures ParseLine("1,2,3") == Err(OddFieldCount(3))
  {
    var ns := [1, 2, 3];
    assert Numbers(ns) == "1,2,3" by {
      assert Show(1) == "1" && Show(2) == "2" && Show(3) == "3";
      assert ShowAll(ns) == ["1", "2", "3"];
    }
    ParseNumbersLine(ns, "");
    assert "1,2,3" + "" == "1,2,3";
  }
}

/** The parser accepts exactly the texts of the grammar, with the values they denote, and stops behind them. */
module JsonAccepts {
  import opened Outcomes
  import opened Cursor
  import opened JsonNumbers
  import opened JsonStrings
  import opened JsonValues
  import opened JsonParse
  import opened JsonGrammar
  import opened JsonLiterals

  // White space and single characters

  lemma {:induction false} WhiteSkips(w: string, t: string)
    requires White(w)
    ensures SkipSpace(w + t) == SkipSpace(t)
  {
    if w == "" {
      assert w + t == t;
    } else {
      assert (w + t)[1..] == w[1..] + t;
      WhiteSkips(w[1..], t);
    }
  }

  lemma {:induction false} SpaceFound(s: string) returns (w: string)
    ensures White(w) && s == w + SkipSpace(s)
  {
    if s != "" && IsSpace(s[0]) {
      var more := SpaceFound(s[1..]);
      w := [s[0]] + more;
    } else {
      w := "";
    }
  }

  lemma {:induction false} TokenReads(w: string, c: char, t: string)
    requires White(w) && !IsSpace(c)
    ensures Expecting(w + ([c] + t), c) == (true, t)
    ensures forall d :: d != c ==> Expecting(w + ([c] + t), d) == (false, [c] + t)
  {
    WhiteSkips(w, [c] + t);
    assert SkipSpace([c] + t) == [c] + t && ([c] + t)[1..] == t;
  }

  lemma {:induction false} TokenFound(s: string, c: char) returns (w: string)
    requires Expecting(s, c).0
    ensures White(w) && s == w + ([c] + Expecting(s, c).1)
  {
    w := SpaceFound(s);
    var t := SkipSpace(s);
    assert t == [t[0]] + t[1..];
  }

  lemma {:induction false} ExpectingAgain(s: string, c: char, d: char)
    requires !Expecting(s, c).0
    ensures Expecting(Expecting(s, c).1, d) == Expecting(s, d)
  {
    assert SkipSpace(SkipSpace(s)) == SkipSpace(s);
  }

  // Words

  lemma {:induction false} WordReads(p: string, r: string)
    ensures Matching(p + r, p) == (true, r)
    decreases |p|
  {
    if p == "" {
      assert p + r == r;
    } else {
      assert (p + r)[1..] == p[1..] + r;
      WordReads(p[1..], r);
    }
  }

  lemma {:induction false} WordFound(s: string, p: string)
    requires Matching(s, p).0
    ensures s == p + Matching(s, p).1
    decreases |p|
  {
    if p != "" {
      WordFound(s[1..], p[1..]);
      assert s == [s[0]] + s[1..] && p == [p[0]] + p[1..];
    } else {
      assert "" + s == s;
    }
  }

  // Numbers

  lemma {:induction false} PositionalSnoc(s: string, c: char)
    ensures Positional(s + [c]) == 10 * Positional(s) + (c as int - '0' as int)
  {
    if s == "" {
      assert (s + [c])[1..] == "" && Power10(0) == 1;
    } else {
      PositionalSnoc(s[1..], c);
      assert (s + [c])[1..] == s[1..] + [c];
      var d := s[0] as int - '0' as int;
      assert Power10(|s|) == 10 * Power10(|s| - 1);
      assert d * Power10(|s|) == 10 * (d * Power10(|s| - 1));
    }
  }

  lemma {:induction false} NumeralIs(ds: string)
    requires AllDigits(ds)
    ensures Numeral(ds) == Positional(ds)
  {
    if ds != "" {
      var front, last := ds[..|ds| - 1], ds[|ds| - 1];
      NumeralIs(front);
      PositionalSnoc(front, last);
      assert ds == front + [last];
    }
  }

  lemma {:induction false} DecimalsAre(ds: string)
    ensures Decimals(ds) <==> ds != "" && AllDigits(ds)
  {
    if AllDigits(ds) {
      assert forall i :: 0 <= i < |ds| ==> ds[i] in ds;
    }
  }

  /** strtoimax takes the integers that fit, and no other text. */
  lemma {:induction false} IntegerExactly(text: string, i: int64)
    ensures StrToIMax(text) == Some(i) <==> IsInteger(text, i)
  {
    DecimalsAre(text);
    if text != "" {
      DecimalsAre(text[1..]);
      if AllDigits(text) {
        NumeralIs(text);
      }
      if AllDigits(text[1..]) {
        NumeralIs(text[1..]);
      }
      assert text[0] in text;
    }
  }

  lemma {:induction false} NumberChars(c: char)
    ensures IsNumberChar(c) <==> c in NUMBER_CHARS
  {
    assert NUMBER_CHARS == ['0', '1', '2', '3', '4', '5', '6', '7', '8', '9', '+', '-', 'e', 'E', '.'];
  }

  lemma {:induction false} NumberEnds(dp: string, r: string)
    requires r == "" || r[0] !in NUMBER_CHARS
    ensures NumberRun(dp, r) == ("", r)
  {
    if r != "" {
      NumberChars(r[0]);
    }
  }

  /** What a collected number makes: the value, or failure, or an exception for a double that is not finite. */
  lemma {:induction false} NumberRead(pf: Platform, text: string, r: string)
    requires text != "" && (text[0] == '-' || '0' <= text[0] <= '9')
    requires (forall i :: 0 <= i < |text| ==> text[i] in NUMBER_CHARS) && (r == "" || r[0] !in NUMBER_CHARS)
    ensures NumberRun(pf.decimalPoint, text + r) == (Localized(pf.decimalPoint, text), r)
    ensures Localized(pf.decimalPoint, text) != ""
  {
    forall c | c in text ensures IsNumberChar(c) {
      NumberChars(c);
    }
    NumberRunOf(pf.decimalPoint, text, r);
    NumberEnds(pf.decimalPoint, r);
    assert Localized(pf.decimalPoint, text) + "" == Localized(pf.decimalPoint, text);
  }

  lemma {:induction false} NumberDispatch(ctx: Context, pf: Platform, text: string, r: string)
    requires text != "" && (text[0] == '-' || '0' <= text[0] <= '9')
    ensures ParseValue(ctx, pf, text + r) == ParseNumber(ctx, pf, text + r)
  {
    Dispatch(ctx, pf, text[0], text[1..] + r);
    assert [text[0]] + (text[1..] + r) == text + r;
  }

  lemma {:induction false} NumberReads(pf: Platform, text: string, v: Value, r: string)
    requires NumberMeans(pf, text, v) && (r == "" || r[0] !in NUMBER_CHARS)
    ensures ParseNumber(Build, pf, text + r) == Ok(v, r)
  {
    var local := Localized(pf.decimalPoint, text);
    NumberRead(pf, text, r);
    match v
    case Int(i) => IntegerExactly(local, i);
    case Double(d) =>
      if StrToIMax(local).Some? {
        IntegerExactly(local, StrToIMax(local).value);
      }
  }

  lemma {:induction false} RunFound(dp: string, s: string) returns (text: string)
    ensures s == text + NumberRun(dp, s).1 && NumberRun(dp, s).0 == Localized(dp, text)
    ensures forall i :: 0 <= i < |text| ==> text[i] in NUMBER_CHARS
    ensures var r := NumberRun(dp, s).1; r == "" || r[0] !in NUMBER_CHARS
    ensures s != "" && s[0] in NUMBER_CHARS ==> text != ""
  {
    if s != "" {
      NumberChars(s[0]);
    }
    if s == "" || !IsNumberChar(s[0]) {
      text := "";
      assert text + s == s;
    } else {
      var more := RunFound(dp, s[1..]);
      text := [s[0]] + more;
      assert text[1..] == more;
    }
  }

  lemma {:induction false} NumberFound(pf: Platform, s: string) returns (text: string)
    requires s != "" && (s[0] == '-' || IsDigit(s[0])) && ParseNumber(Build, pf, s).Ok?
    ensures var o := ParseNumber(Build, pf, s);
            && NumberMeans(pf, text, o.val) && s == text + o.rest && (o.rest == "" || o.rest[0] !in NUMBER_CHARS)
  {
    NumberChars(s[0]);
    text := RunFound(pf.decimalPoint, s);
    assert text[0] == s[0];
    var local := Localized(pf.decimalPoint, text);
    forall i: int64 ensures StrToIMax(local) == Some(i) <==> IsInteger(local, i) {
      IntegerExactly(local, i);
    }
  }

  /** A number that strtod makes infinite: the building parser throws, the other takes it. */
  lemma {:induction false} InfiniteThrows(pf: Platform, text: string, r: string, d: bits64)
    requires text != "" && (text[0] == '-' || '0' <= text[0] <= '9')
    requires (forall i :: 0 <= i < |text| ==> text[i] in NUMBER_CHARS) && (r == "" || r[0] !in NUMBER_CHARS)
    requires (forall i: int64 :: !IsInteger(Localized(pf.decimalPoint, text), i))
    requires pf.strtod(Localized(pf.decimalPoint, text)) == Some(d) && !Finite(d)
    ensures ParseValue(Build, pf, text + r) == Threw(r) && ParseValue(Discard, pf, text + r) == Ok(Null, r)
  {
    var local := Localized(pf.decimalPoint, text);
    NumberRead(pf, text, r);
    if StrToIMax(local).Some? {
      IntegerExactly(local, StrToIMax(local).value);
    }
    NumberDispatch(Build, pf, text, r);
    NumberDispatch(Discard, pf, text, r);
  }

  // What the grammar writes is read

  lemma WhiteEnds(w: string, c: char, r: string)
    requires White(w) && c !in NUMBER_CHARS
    ensures (w + ([c] + r))[0] !in NUMBER_CHARS
  {
  }

  lemma TreeStarts(pf: Platform, t: Tree, r: string)
    requires Valid(pf, t)
    ensures TextThen(t, r) != "" && !IsSpace(TextThen(t, r)[0]) && TextThen(t, r)[0] !in "]}"
  {
  }

  lemma {:induction false} ValueReads(pf: Platform, w: string, t: Tree, r: string)
    requires White(w) && Valid(pf, t) && Ends(t, r)
    ensures ParseValue(Build, pf, w + TextThen(t, r)) == Ok(ValueOf(t), r)
    decreases t, 1
  {
    WhiteSkips(w, TextThen(t, r));
    ParseValueAfterSpace(Build, pf, w + TextThen(t, r), TextThen(t, r));
    TreeReads(pf, t, r);
  }

  lemma WordSplit(c: char, tail: string, word: string, r: string)
    requires word == [c] + tail
    ensures word + r == [c] + (tail + r)
  {
  }

  lemma {:induction false} NullReads(pf: Platform, r: string)
    ensures ParseValue(Build, pf, "null" + r) == Ok(Null, r)
  {
    WordSplit('n', "ull", "null", r);
    Dispatch(Build, pf, 'n', "ull" + r);
    WordReads("ull", r);
  }

  lemma {:induction false} TrueReads(pf: Platform, r: string)
    ensures ParseValue(Build, pf, "true" + r) == Ok(Bool(true), r)
  {
    WordSplit('t', "rue", "true", r);
    Dispatch(Build, pf, 't', "rue" + r);
    WordReads("rue", r);
  }

  lemma {:induction false} FalseReads(pf: Platform, r: string)
    ensures ParseValue(Build, pf, "false" + r) == Ok(Bool(false), r)
  {
    WordSplit('f', "alse", "false", r);
    Dispatch(Build, pf, 'f', "alse" + r);
    WordReads("alse", r);
  }

  lemma {:induction false} TreeReads(pf: Platform, t: Tree, r: string)
    requires Valid(pf, t) && Ends(t, r)
    ensures ParseValue(Build, pf, TextThen(t, r)) == Ok(ValueOf(t), r)
    decreases t, 0
  {
    match t
    case NullWord => NullReads(pf, r);
    case TrueWord => TrueReads(pf, r);
    case FalseWord => FalseReads(pf, r);
    case Number(text, v) =>
      NumberReads(pf, text, v, r);
      NumberDispatch(Build, pf, text, r);
    case Quoted(pieces, s) =>
      LiteralReads(pieces, s, r);
      Dispatch(Build, pf, '"', PiecesThen(pieces, "\"" + r));
    case EmptyArray(gap) =>
      Dispatch(Build, pf, '[', gap + ("]" + r));
      TokenReads(gap, ']', r);
    case EmptyObject(gap) =>
      Dispatch(Build, pf, '{', gap + ("}" + r));
      TokenReads(gap, '}', r);
    case ArrayTree(elements) => ArrayReads(pf, elements, r);
    case ObjectTree(entries) => ObjectReads(pf, entries, r);
  }

  /** A token that is not there: the text begins with another. */
  lemma {:induction false} TokenMissing(w: string, x: string, c: char)
    requires White(w) && x != "" && !IsSpace(x[0]) && x[0] != c
    ensures Expecting(w + x, c) == (false, x)
  {
    WhiteSkips(w, x);
  }

  lemma {:induction false} ArrayReads(pf: Platform, elements: Elements, r: string)
    requires ValidElements(pf, elements)
    ensures ParseValue(Build, pf, "[" + ElementsThen(elements, "]" + r)) == Ok(Arr(ValuesOf(elements)), r)
    decreases elements, 3
  {
    var s, after := ElementsThen(elements, "]" + r), elements.after + MoreElements(elements, "]" + r);
    var x := TextThen(elements.t, after);
    Dispatch(Build, pf, '[', s);
    TreeStarts(pf, elements.t, after);
    TokenMissing(elements.before, x, ']');
    WhiteSkips(elements.before, x);
    ElementsRead(pf, elements, r);
    ParseValueAfterSpace(Build, pf, s, x);
  }

  lemma {:induction false} ElementsRead(pf: Platform, elements: Elements, r: string)
    requires ValidElements(pf, elements)
    ensures ParseItems(Build, pf, ElementsThen(elements, "]" + r)) == Ok(ValuesOf(elements), r)
    decreases elements, 2
  {
    var t, after := elements.t, elements.after;
    if elements.LastElement? {
      WhiteEnds(after, ']', r);
      ValueReads(pf, elements.before, t, after + ("]" + r));
      TokenReads(after, ']', r);
      ExpectingAgain(after + ("]" + r), ',', ']');
      assert ValuesOf(elements) == [ValueOf(t)];
    } else {
      var next := ElementsThen(elements.more, "]" + r);
      WhiteEnds(after, ',', next);
      ValueReads(pf, elements.before, t, after + ("," + next));
      TokenReads(after, ',', next);
      ElementsRead(pf, elements.more, r);
    }
  }

  /** The text of an entry from its key on. */
  ghost function FromKey(m: Entry, r: string): string {
    "\"" + PiecesThen(m.pieces, "\"" + (m.colon + (":" + (m.gap + TextThen(m.t, r)))))
  }

  lemma {:induction false} KeyReads(w: string, pieces: Pieces, key: string, colon: string, r: string)
    requires White(w) && PiecesMean(pieces, key) && White(colon)
    ensures ParseKey(w + ("\"" + PiecesThen(pieces, "\"" + (colon + (":" + r))))) == Ok(key, r)
  {
    var t := PiecesThen(pieces, "\"" + (colon + (":" + r)));
    TokenReads(w, '"', t);
    LiteralReads(pieces, key, colon + (":" + r));
    TokenReads(colon, ':', r);
  }

  lemma {:induction false} ObjectReads(pf: Platform, entries: Entries, r: string)
    requires ValidEntries(pf, entries)
    ensures ParseValue(Build, pf, "{" + EntriesThen(entries, "}" + r)) == Ok(Obj(PutAll([], FieldsOf(entries))), r)
    decreases entries, 3
  {
    var m, s := entries.m, EntriesThen(entries, "}" + r);
    var x := FromKey(m, entries.after + MoreEntries(entries, "}" + r));
    Dispatch(Build, pf, '{', s);
    assert s == m.before + x;
    TokenMissing(m.before, x, '}');
    EntriesRead(pf, entries, r);
    WhiteSkips(m.before, x);
    assert ParseKey(s) == ParseKey(x);
    assert ParseMembers(Build, pf, s) == ParseMembers(Build, pf, x);
  }

  lemma {:induction false} EntriesRead(pf: Platform, entries: Entries, r: string)
    requires ValidEntries(pf, entries)
    ensures ParseMembers(Build, pf, EntriesThen(entries, "}" + r)) == Ok(FieldsOf(entries), r)
    decreases entries, 2
  {
    var m, after := entries.m, entries.after;
    if entries.LastEntry? {
      var end := after + ("}" + r);
      WhiteEnds(after, '}', r);
      KeyReads(m.before, m.pieces, m.key, m.colon, m.gap + TextThen(m.t, end));
      ValueReads(pf, m.gap, m.t, end);
      TokenReads(after, '}', r);
      ExpectingAgain(end, ',', '}');
      assert FieldsOf(entries) == [Field(m.key, ValueOf(m.t))];
    } else {
      var next := EntriesThen(entries.more, "}" + r);
      var end := after + ("," + next);
      WhiteEnds(after, ',', next);
      KeyReads(m.before, m.pieces, m.key, m.colon, m.gap + TextThen(m.t, end));
      ValueReads(pf, m.gap, m.t, end);
      TokenReads(after, ',', next);
      EntriesRead(pf, entries.more, r);
    }
  }

  // What is read is of the grammar

  lemma {:induction false} ValueFound(pf: Platform, s: string) returns (w: string, t: Tree)
    requires ParseValue(Build, pf, s).Ok?
    ensures var o := ParseValue(Build, pf, s); Writes(pf, s, w, t, o.val, o.rest)
    decreases |s|, 2
  {
    w := SpaceFound(s);
    var x := SkipSpace(s);
    ParseValueAfterSpace(Build, pf, s, x);
    t := TreeFound(pf, x);
  }

  lemma {:induction false} TreeFound(pf: Platform, s: string) returns (t: Tree)
    requires s != "" && !IsSpace(s[0]) && ParseValue(Build, pf, s).Ok?
    ensures var o := ParseValue(Build, pf, s);
            Valid(pf, t) && s == TextThen(t, o.rest) && ValueOf(t) == o.val && Ends(t, o.rest)
    decreases |s|, 1
  {
    var u := s[1..];
    assert s == [s[0]] + u;
    assert SkipSpace(s) == s;
    match s[0] {
      case 'n' =>
        WordFound(u, "ull");
        assert "null" == ['n'] + "ull";
        t := NullWord;
      case 't' =>
        WordFound(u, "rue");
        assert "true" == ['t'] + "rue";
        t := TrueWord;
      case 'f' =>
        WordFound(u, "alse");
        assert "false" == ['f'] + "alse";
        t := FalseWord;
      case '"' =>
        var pieces := LiteralFound(u);
        t := Quoted(pieces, StringBody(u).val);
      case '[' => t := ArrayFound(pf, u);
      case '{' => t := ObjectFound(pf, u);
      case _ =>
        var text := NumberFound(pf, s);
        t := Number(text, ParseNumber(Build, pf, s).val);
    }
  }

  lemma {:induction false} ArrayFound(pf: Platform, s: string) returns (t: Tree)
    requires ParseArray(Build, pf, s).Ok?
    ensures var o := ParseArray(Build, pf, s);
            Valid(pf, t) && "[" + s == TextThen(t, o.rest) && ValueOf(t) == o.val && !t.Number?
    decreases |s|, 5
  {
    var (empty, u) := Expecting(s, ']');
    if empty {
      var gap := TokenFound(s, ']');
      t := EmptyArray(gap);
    } else {
      ParseValueAfterSpace(Build, pf, u, s);
      assert ParseItems(Build, pf, u) == ParseItems(Build, pf, s);
      var elements := ElementsFound(pf, s);
      t := ArrayTree(elements);
    }
  }

  lemma {:induction false} ElementsFound(pf: Platform, s: string) returns (elements: Elements)
    requires ParseItems(Build, pf, s).Ok?
    ensures var o := ParseItems(Build, pf, s);
            ValidElements(pf, elements) && s == ElementsThen(elements, "]" + o.rest) && ValuesOf(elements) == o.val
    decreases |s|, 4
  {
    var w, t := ValueFound(pf, s);
    var u := ParseValue(Build, pf, s).rest;
    if Expecting(u, ',').0 {
      var after := TokenFound(u, ',');
      var more := ElementsFound(pf, Expecting(u, ',').1);
      elements := NextElement(w, t, after, more);
    } else {
      ExpectingAgain(u, ',', ']');
      var after := TokenFound(u, ']');
      elements := LastElement(w, t, after);
    }
  }

  lemma {:induction false} KeyFound(s: string) returns (before: string, pieces: Pieces, colon: string)
    requires ParseKey(s).Ok?
    ensures var o := ParseKey(s);
            && White(before) && PiecesMean(pieces, o.val) && White(colon)
            && s == before + ("\"" + PiecesThen(pieces, "\"" + (colon + (":" + o.rest))))
  {
    before := TokenFound(s, '"');
    var t := Expecting(s, '"').1;
    pieces := LiteralFound(t);
    colon := TokenFound(StringBody(t).rest, ':');
  }

  lemma {:induction false} ObjectFound(pf: Platform, s: string) returns (t: Tree)
    requires ParseObject(Build, pf, s).Ok?
    ensures var o := ParseObject(Build, pf, s);
            Valid(pf, t) && "{" + s == TextThen(t, o.rest) && ValueOf(t) == o.val && !t.Number?
    decreases |s|, 5
  {
    var (empty, u) := Expecting(s, '}');
    if empty {
      var gap := TokenFound(s, '}');
      t := EmptyObject(gap);
    } else {
      ExpectingAgain(s, '}', '"');
      assert ParseKey(u) == ParseKey(s);
      assert ParseMembers(Build, pf, u) == ParseMembers(Build, pf, s);
      var entries := EntriesFound(pf, s);
      t := ObjectTree(entries);
    }
  }

  lemma {:induction false} EntriesFound(pf: Platform, s: string) returns (entries: Entries)
    requires ParseMembers(Build, pf, s).Ok?
    ensures var o := ParseMembers(Build, pf, s);
            ValidEntries(pf, entries) && s == EntriesThen(entries, "}" + o.rest) && FieldsOf(entries) == o.val
    decreases |s|, 4
  {
    var before, pieces, colon := KeyFound(s);
    var key := ParseKey(s);
    var gap, t := ValueFound(pf, key.rest);
    var m := Entry(before, pieces, key.val, colon, gap, t);
    var u := ParseValue(Build, pf, key.rest).rest;
    if Expecting(u, ',').0 {
      var after := TokenFound(u, ',');
      var more := EntriesFound(pf, Expecting(u, ',').1);
      entries := NextEntry(m, after, more);
    } else {
      ExpectingAgain(u, ',', '}');
      var after := TokenFound(u, '}');
      entries := LastEntry(m, after);
    }
  }

  /**
   * Acceptance, over all texts: the parser takes white space and a value out of a text, and leaves a rest, if
   * and only if the grammar writes that value there.
   */
  lemma {:induction false} AcceptsExactly(pf: Platform, s: string, v: Value, r: string)
    ensures ParseValue(Build, pf, s) == Ok(v, r) <==> exists w, t :: Writes(pf, s, w, t, v, r)
  {
    if ParseValue(Build, pf, s) == Ok(v, r) {
      var w, t := ValueFound(pf, s);
    }
    forall w, t | Writes(pf, s, w, t, v, r) ensures ParseValue(Build, pf, s) == Ok(v, r) {
      ValueReads(pf, w, t, r);
    }
  }
}

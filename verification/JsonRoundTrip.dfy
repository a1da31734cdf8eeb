/** What is printed is a text of the grammar, laid out in one way only; so parsing it gives the value back. */
module JsonRoundTrip {
  import opened Outcomes
  import opened JsonNumbers
  import opened JsonStrings
  import opened JsonValues
  import opened JsonParse
  import opened JsonPrint
  import opened JsonGrammar
  import opened JsonLiterals
  import opened JsonAccepts

  /** No number can be continued with `r`. */
  predicate EndsNumber(r: string) {
    r == "" || !IsNumberChar(r[0])
  }

  // The layout

  /** In a pretty text every element and entry has a line, indented by two blanks for each level around it. */
  function Line(d: Depth): string {
    if d == -1 then "" else "\n" + seq(2 * d, i => ' ')
  }

  function Blank(d: Depth): string {
    if d == -1 then "" else " "
  }

  function Inside(d: Depth): Depth {
    if d == -1 then -1 else d + 1
  }

  /** The tree of a printed value: no white space but lines and the blank behind a colon. */
  function TreeOf(v: Value, d: Depth): Tree
    requires DoubleFree(v)
    decreases v, 0
  {
    match v
    case Null => NullWord
    case Bool(b) => if b then TrueWord else FalseWord
    case Int(i) => Number(Decimal(i), v)
    case Str(s) => Quoted(PiecesOf(s), s)
    case Arr(items) => if items == [] then EmptyArray("") else ArrayTree(ElementsOf(items, Inside(d), Line(d)))
    case Obj(fields) => if fields == [] then EmptyObject("") else ObjectTree(EntriesOf(fields, Inside(d), Line(d)))
  }

  function ElementsOf(items: seq<Value>, d: Depth, end: string): Elements
    requires items != [] && forall v <- items :: DoubleFree(v)
    decreases items, 0
  {
    if |items| == 1 then LastElement(Line(d), TreeOf(items[0], d), end)
    else NextElement(Line(d), TreeOf(items[0], d), "", ElementsOf(items[1..], d, end))
  }

  function EntryOf(f: Field, d: Depth): Entry
    requires DoubleFree(f.val)
    decreases f, 0
  {
    Entry(Line(d), PiecesOf(f.key), f.key, "", Blank(d), TreeOf(f.val, d))
  }

  function EntriesOf(fields: seq<Field>, d: Depth, end: string): Entries
    requires fields != [] && forall f <- fields :: DoubleFree(f.val)
    decreases fields, 0
  {
    if |fields| == 1 then LastEntry(EntryOf(fields[0], d), end)
    else NextEntry(EntryOf(fields[0], d), "", EntriesOf(fields[1..], d, end))
  }

  // The tree denotes the value

  lemma {:induction false} DecimalMeans(pf: Platform, i: int64)
    ensures NumberMeans(pf, Decimal(i), Int(i))
  {
    var s := Decimal(i);
    DecimalRead(i);
    WithoutPoint(pf.decimalPoint, s);
    IntegerExactly(s, i);
    forall k | 0 <= k < |s| ensures s[k] in NUMBER_CHARS {
      assert s[k] in s;
      NumberChars(s[k]);
    }
  }

  lemma {:induction false} TreeDenotes(pf: Platform, v: Value, d: Depth)
    requires WellFormed(v) && DoubleFree(v)
    ensures Valid(pf, TreeOf(v, d)) && ValueOf(TreeOf(v, d)) == v
    decreases v, 1
  {
    match v
    case Int(i) => DecimalMeans(pf, i);
    case Str(s) => EscapedMeans(s);
    case Arr(items) =>
      if items != [] {
        ElementsDenote(pf, items, Inside(d), Line(d));
      }
    case Obj(fields) =>
      if fields != [] {
        EntriesDenote(pf, fields, Inside(d), Line(d));
        PutAllInOrder([], fields);
        assert [] + fields == fields;
      }
    case _ =>
  }

  lemma {:induction false} ElementsDenote(pf: Platform, items: seq<Value>, d: Depth, end: string)
    requires items != [] && (forall v <- items :: WellFormed(v) && DoubleFree(v)) && White(end)
    ensures ValidElements(pf, ElementsOf(items, d, end)) && ValuesOf(ElementsOf(items, d, end)) == items
    decreases items, 0
  {
    TreeDenotes(pf, items[0], d);
    if |items| > 1 {
      ElementsDenote(pf, items[1..], d, end);
      assert items == [items[0]] + items[1..];
    } else {
      assert items == [items[0]];
    }
  }

  lemma {:induction false} EntryDenotes(pf: Platform, f: Field, d: Depth)
    requires WellFormed(f.val) && DoubleFree(f.val)
    ensures ValidEntry(pf, EntryOf(f, d)) && EntryOf(f, d).key == f.key && ValueOf(EntryOf(f, d).t) == f.val
    decreases f, 0
  {
    TreeDenotes(pf, f.val, d);
    EscapedMeans(f.key);
  }

  lemma {:induction false} EntriesDenote(pf: Platform, fields: seq<Field>, d: Depth, end: string)
    requires fields != [] && (forall f <- fields :: WellFormed(f.val) && DoubleFree(f.val)) && White(end)
    ensures ValidEntries(pf, EntriesOf(fields, d, end)) && FieldsOf(EntriesOf(fields, d, end)) == fields
    decreases fields, 0
  {
    assert fields[0] in fields;
    EntryDenotes(pf, fields[0], d);
    if |fields| > 1 {
      EntriesDenote(pf, fields[1..], d, end);
      assert fields == [fields[0]] + fields[1..];
    } else {
      assert fields == [fields[0]];
    }
  }

  // The text of the tree is what is printed

  lemma {:induction false} SpacesAre(n: nat)
    ensures Spaces(n) == seq(n, i => ' ')
  {
    if n > 0 {
      SpacesAre(n - 1);
      assert seq(n, i => ' ') == " " + seq(n - 1, i => ' ');
    }
  }

  lemma {:induction false} LayoutIs(d: Depth)
    ensures Gap(d) == Line(d) && Space(d) == Blank(d) && Deeper(d) == Inside(d)
  {
    if d != -1 {
      SpacesAre(2 * d);
    }
  }

  lemma NestedText(pf: Platform, v: Value, d: Depth)
    requires d != 0
    ensures Serialize(pf, v, d) == Body(pf, v, d)
  {
  }

  lemma PrefixLaws(a: string, b: string, c: string)
    ensures "" + a + b + c == a + b + c
    ensures "," + a + b + c == "," + (a + b + c)
  {
  }

  lemma {:induction false} ItemsUnfold(pf: Platform, items: seq<Value>, d: Depth)
    requires items != [] && d != 0
    ensures Items(pf, items, d, true) == Gap(d) + Body(pf, items[0], d) + Items(pf, items[1..], d, false)
    ensures Items(pf, items, d, false) == "," + Items(pf, items, d, true)
  {
    NestedText(pf, items[0], d);
    PrefixLaws(Gap(d), Body(pf, items[0], d), Items(pf, items[1..], d, false));
  }

  lemma {:induction false} ItemsText(pf: Platform, items: seq<Value>, d: Depth, after: string)
    requires items != [] && d != 0
    ensures Items(pf, items, d, true) + after
         == Gap(d) + (Body(pf, items[0], d) + (Items(pf, items[1..], d, false) + after))
    ensures |items| > 1 ==>
              Items(pf, items[1..], d, false) + after == "," + (Items(pf, items[1..], d, true) + after)
  {
    ItemsUnfold(pf, items, d);
    Associate(Gap(d), Body(pf, items[0], d), Items(pf, items[1..], d, false), after);
    if |items| > 1 {
      ItemsUnfold(pf, items[1..], d);
      CommaBefore(Items(pf, items[1..], d, true), after);
    }
  }

  lemma Associate(a: string, b: string, c: string, d: string)
    ensures (a + b + c) + d == a + (b + (c + d))
  {
  }

  lemma {:induction false} MembersUnfold(pf: Platform, fields: seq<Field>, d: Depth)
    requires fields != [] && d != 0
    ensures Members(pf, fields, d, true)
         == Gap(d) + (Quote(fields[0].key) + ":" + Space(d) + Body(pf, fields[0].val, d)) + Members(pf, fields[1..], d, false)
    ensures Members(pf, fields, d, false) == "," + Members(pf, fields, d, true)
  {
    NestedText(pf, fields[0].val, d);
    PrefixLaws(Gap(d), Member(pf, fields[0], d), Members(pf, fields[1..], d, false));
  }

  lemma {:induction false} MembersText(pf: Platform, fields: seq<Field>, d: Depth, after: string)
    requires fields != [] && d != 0
    ensures Members(pf, fields, d, true) + after
         == Gap(d) + (Quote(fields[0].key) + (":" + (Space(d) + (Body(pf, fields[0].val, d)
              + (Members(pf, fields[1..], d, false) + after)))))
  {
    var q, sp, x, y := Quote(fields[0].key), Space(d), Body(pf, fields[0].val, d), Members(pf, fields[1..], d, false);
    MembersUnfold(pf, fields, d);
    Associate(Gap(d), q + ":" + sp + x, y, after);
    Associate4(q, ":", sp, x, y + after);
  }

  lemma {:induction false} MembersMore(pf: Platform, fields: seq<Field>, d: Depth, after: string)
    requires |fields| > 1 && d != 0
    ensures Members(pf, fields[1..], d, false) + after == "," + (Members(pf, fields[1..], d, true) + after)
  {
    MembersUnfold(pf, fields[1..], d);
    CommaBefore(Members(pf, fields[1..], d, true), after);
  }

  lemma CommaBefore(x: string, after: string)
    ensures ("," + x) + after == "," + (x + after)
  {
  }

  lemma Associate4(a: string, b: string, c: string, d: string, e: string)
    ensures (a + b + c + d) + e == a + (b + (c + (d + e)))
  {
  }

  /** Every byte that is printed for a value, at every depth and in both modes. */
  lemma {:induction false} PrintedExactly(pf: Platform, v: Value, d: Depth, r: string)
    requires DoubleFree(v)
    ensures Body(pf, v, d) + r == TextThen(TreeOf(v, d), r)
    decreases v, 1
  {
    LayoutIs(d);
    match v
    case Str(s) =>
      Associate("\"", Escape(s), "\"", r);
      EscapedText(s, "\"" + r);
    case Arr(items) => ArrayPrinted(pf, v, d, r);
    case Obj(fields) => ObjectPrinted(pf, v, d, r);
    case _ =>
  }

  lemma {:induction false} ArrayPrinted(pf: Platform, v: Value, d: Depth, r: string)
    requires v.Arr? && DoubleFree(v)
    ensures Body(pf, v, d) + r == TextThen(TreeOf(v, d), r)
    decreases v, 0
  {
    var items := v.items;
    LayoutIs(d);
    Associate4("[", Items(pf, items, Deeper(d), true), if items == [] then "" else Gap(d), "]", r);
    if items != [] {
      ElementsPrinted(pf, items, Inside(d), Line(d), "]" + r);
    } else {
      assert Body(pf, v, d) + r == "[" + ("" + ("]" + r));
    }
  }

  lemma {:induction false} ObjectPrinted(pf: Platform, v: Value, d: Depth, r: string)
    requires v.Obj? && DoubleFree(v)
    ensures Body(pf, v, d) + r == TextThen(TreeOf(v, d), r)
    decreases v, 0
  {
    var fields := v.fields;
    LayoutIs(d);
    Associate4("{", Members(pf, fields, Deeper(d), true), if fields == [] then "" else Gap(d), "}", r);
    if fields != [] {
      EntriesPrinted(pf, fields, Inside(d), Line(d), "}" + r);
    } else {
      assert Body(pf, v, d) + r == "{" + ("" + ("}" + r));
    }
  }

  lemma {:induction false} ElementsPrinted(pf: Platform, items: seq<Value>, d: Depth, end: string, r: string)
    requires items != [] && d != 0 && forall v <- items :: DoubleFree(v)
    ensures Items(pf, items, d, true) + (end + r) == ElementsThen(ElementsOf(items, d, end), r)
    decreases items, 0
  {
    LayoutIs(d);
    ItemsText(pf, items, d, end + r);
    if |items| == 1 {
      assert Items(pf, items[1..], d, false) + (end + r) == end + r;
      PrintedExactly(pf, items[0], d, end + r);
    } else {
      var next := "," + ElementsThen(ElementsOf(items[1..], d, end), r);
      ElementsPrinted(pf, items[1..], d, end, r);
      PrintedExactly(pf, items[0], d, next);
      assert "" + next == next;
    }
  }

  lemma {:induction false} EntryPrinted(pf: Platform, f: Field, d: Depth, r: string)
    requires DoubleFree(f.val) && Body(pf, f.val, d) + r == TextThen(TreeOf(f.val, d), r)
    ensures Gap(d) + (Quote(f.key) + (":" + (Space(d) + (Body(pf, f.val, d) + r)))) == EntryThen(EntryOf(f, d), r)
  {
    var behind := ":" + (Space(d) + (Body(pf, f.val, d) + r));
    LayoutIs(d);
    Associate("\"", Escape(f.key), "\"", behind);
    EscapedText(f.key, "\"" + behind);
    assert "" + behind == behind;
  }

  lemma {:induction false} EntriesPrinted(pf: Platform, fields: seq<Field>, d: Depth, end: string, r: string)
    requires fields != [] && d != 0 && forall f <- fields :: DoubleFree(f.val)
    ensures Members(pf, fields, d, true) + (end + r) == EntriesThen(EntriesOf(fields, d, end), r)
    decreases fields, 0
  {
    var f := fields[0];
    assert f in fields;
    MembersText(pf, fields, d, end + r);
    if |fields| == 1 {
      assert Members(pf, fields[1..], d, false) + (end + r) == end + r;
      PrintedExactly(pf, f.val, d, end + r);
      EntryPrinted(pf, f, d, end + r);
    } else {
      var next := "," + EntriesThen(EntriesOf(fields[1..], d, end), r);
      MembersMore(pf, fields, d, end + r);
      EntriesPrinted(pf, fields[1..], d, end, r);
      PrintedExactly(pf, f.val, d, next);
      EntryPrinted(pf, f, d, next);
      assert "" + next == next;
    }
  }

  // The round trip

  /**
   * For every double-free value, at every depth and in both modes, and whatever follows: the parser
   * gives the value back and stops where its text ends.
   */
  lemma {:induction false} BodyRoundTrip(pf: Platform, v: Value, d: Depth, r: string)
    requires WellFormed(v) && DoubleFree(v)
    requires v.Int? ==> EndsNumber(r)
    ensures ParseValue(Build, pf, Body(pf, v, d) + r) == Ok(v, r)
  {
    PrintedExactly(pf, v, d, r);
    TreeDenotes(pf, v, d);
    if v.Int? && r != "" {
      NumberChars(r[0]);
    }
    TreeReads(pf, TreeOf(v, d), r);
  }

  lemma {:induction false} IntDispatch(pf: Platform, i: int64, r: string)
    ensures ParseValue(Build, pf, Decimal(i) + r) == ParseNumber(Build, pf, Decimal(i) + r)
  {
    var s := Decimal(i);
    DecimalRead(i);
    Dispatch(Build, pf, s[0], s[1..] + r);
    assert [s[0]] + (s[1..] + r) == s + r;
  }

  /** What a printed integer is collected to. */
  lemma {:induction false} IntCollected(dp: string, i: int64, r: string)
    ensures NumberRun(dp, Decimal(i) + r) == (Decimal(i) + NumberRun(dp, r).0, NumberRun(dp, r).1)
  {
    DecimalRead(i);
    NumberRunOf(dp, Decimal(i), r);
    WithoutPoint(dp, Decimal(i));
  }

  /** A printed integer swallows the number bytes that follow it. */
  lemma {:induction false} IntSwallows(pf: Platform, i: int64, r: string)
    requires !EndsNumber(r)
    ensures ParseValue(Build, pf, Decimal(i) + r).rest != r
  {
    IntDispatch(pf, i, r);
    IntCollected(pf.decimalPoint, i, r);
    assert |NumberRun(pf.decimalPoint, r).1| < |r|;
  }

  /**
   * The round trip. Printing a double-free value, compact or pretty, and parsing the text with anything
   * behind it gives the value back and leaves exactly what follows the value's own text (a pretty text
   * ends with a line break that stays unread) unless, and only unless, the value is an integer printed
   * compactly and number bytes follow.
   */
  lemma {:induction false} RoundTrip(pf: Platform, v: Value, pretty: bool, r: string)
    requires WellFormed(v) && DoubleFree(v)
    ensures ParseValue(Build, pf, Text(pf, v, pretty) + r) == Ok(v, if pretty then "\n" + r else r)
            <==> (v.Int? && !pretty ==> EndsNumber(r))
  {
    if pretty {
      assert Text(pf, v, pretty) + r == Body(pf, v, 0) + ("\n" + r);
      BodyRoundTrip(pf, v, 0, "\n" + r);
    } else {
      assert Text(pf, v, pretty) == Body(pf, v, -1);
      if v.Int? ==> EndsNumber(r) {
        BodyRoundTrip(pf, v, -1, r);
      } else {
        IntSwallows(pf, v.i, r);
      }
    }
  }

  /** A number behind the integer 1: the two are read as one. */
  lemma {:induction false} DigitsRunTogether(pf: Platform)
    ensures ParseValue(Build, pf, Text(pf, Int(1), false) + "2") == Ok(Int(12), "")
  {
    assert Digits(1) == "1" && Digits(12) == "12";
    RoundTrip(pf, Int(12), false, "");
    assert Text(pf, Int(12), false) + "" == Text(pf, Int(1), false) + "2";
  }

  /** Different values have different texts, in either mode. */
  lemma {:induction false} TextInjective(pf: Platform, v: Value, w: Value, pretty: bool)
    requires WellFormed(v) && DoubleFree(v) && WellFormed(w) && DoubleFree(w)
    requires Text(pf, v, pretty) == Text(pf, w, pretty)
    ensures v == w
  {
    RoundTrip(pf, v, pretty, "");
    RoundTrip(pf, w, pretty, "");
  }

  /** Any accepted text without doubles has the same meaning as the text printed for what it was parsed to. */
  lemma {:induction false} ReprintedMeansTheSame(pf: Platform, s: string, pretty: bool)
    requires ParseValue(Build, pf, s).Ok? && DoubleFree(ParseValue(Build, pf, s).val)
    ensures var v := ParseValue(Build, pf, s).val;
            var again := ParseValue(Build, pf, Text(pf, v, pretty));
            again.Ok? && again.val == v && again.rest == if pretty then "\n" else ""
  {
    ParsedWellFormed(Build, pf, s);
    var v := ParseValue(Build, pf, s).val;
    RoundTrip(pf, v, pretty, "");
    assert Text(pf, v, pretty) + "" == Text(pf, v, pretty);
    assert "\n" + "" == "\n";
  }
}

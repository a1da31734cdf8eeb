/**
 * The recursive-descent parser of picojson as functions on the text in front of the cursor, generic
 * over the parse context, and what follows from them. The methods of JsonParser compute these functions.
 */
module JsonParse {
  import opened Outcomes
  import opened Cursor
  import opened JsonNumbers
  import opened JsonStrings
  import opened JsonValues

  /** default_parse_context builds a value; null_parse_context only checks the syntax. */
  datatype Context = Build | Discard

  function Emit(ctx: Context, v: Value): Value {
    if ctx.Build? then v else Null
  }

  function Literal(ctx: Context, s: string, tail: string, v: Value): (o: Outcome<Value>)
    ensures |o.rest| <= |s| && !o.Threw?
  {
    var (ok, rest) := Matching(s, tail);
    if ok then Ok(Emit(ctx, v), rest) else Bad(rest)
  }

  /** set_number: value(double) throws for infinities and NaNs, the null context does not look. */
  function SetNumber(ctx: Context, d: bits64, rest: string): (o: Outcome<Value>)
    ensures o.rest == rest && !o.Bad?
  {
    if ctx.Build? && !IsFinite(d) then Threw(rest) else Ok(Emit(ctx, Double(d)), rest)
  }

  function ParseNumber(ctx: Context, pf: Platform, s: string): (o: Outcome<Value>)
    ensures |o.rest| <= |s|
    ensures s != "" && IsNumberChar(s[0]) ==> |o.rest| < |s|
  {
    var (num, rest) := NumberRun(pf.decimalPoint, s);
    if num == "" then Bad(rest)
    else
      match StrToIMax(num)
      case Some(i) => Ok(Emit(ctx, Int(i)), rest)
      case None =>
        match pf.strtod(num)
        case Some(d) => SetNumber(ctx, d, rest)
        case None => Bad(rest)
  }

  function ParseString(ctx: Context, s: string): (o: Outcome<Value>)
    ensures |o.rest| <= |s| && !o.Threw?
  {
    match StringBody(s)
    case Ok(val, rest) => Ok(Emit(ctx, Str(val)), rest)
    case Bad(rest) => Bad(rest)
    case Threw(rest) => Threw(rest)
  }

  function ParseValue(ctx: Context, pf: Platform, s: string): (o: Outcome<Value>)
    decreases |s|, 0
    ensures |o.rest| <= |s|
  {
    var t := SkipSpace(s);
    if t == "" then Bad(t)
    else
      match t[0]
      case 'n' => Literal(ctx, t[1..], "ull", Null)
      case 'f' => Literal(ctx, t[1..], "alse", Bool(false))
      case 't' => Literal(ctx, t[1..], "rue", Bool(true))
      case '"' => ParseString(ctx, t[1..])
      case '[' => ParseArray(ctx, pf, t[1..])
      case '{' => ParseObject(ctx, pf, t[1..])
      case c => if IsDigit(c) || c == '-' then ParseNumber(ctx, pf, t) else Bad(t)
  }

  function ParseArray(ctx: Context, pf: Platform, s: string): (o: Outcome<Value>)
    decreases |s|, 2
    ensures |o.rest| <= |s|
  {
    var (empty, t) := Expecting(s, ']');
    if empty then Ok(Emit(ctx, Arr([])), t)
    else
      match ParseItems(ctx, pf, t)
      case Ok(items, rest) => Ok(Emit(ctx, Arr(items)), rest)
      case Bad(rest) => Bad(rest)
      case Threw(rest) => Threw(rest)
  }

  /** The items of an array up to and including its closing bracket. */
  function ParseItems(ctx: Context, pf: Platform, s: string): (o: Outcome<seq<Value>>)
    decreases |s|, 1
    ensures |o.rest| <= |s|
  {
    var item := ParseValue(ctx, pf, s);
    match item
    case Bad(rest) => Bad(rest)
    case Threw(rest) => Threw(rest)
    case Ok(v, t) =>
      var (more, u) := Expecting(t, ',');
      if more then
        match ParseItems(ctx, pf, u)
        case Ok(items, rest) => Ok([v] + items, rest)
        case Bad(rest) => Bad(rest)
        case Threw(rest) => Threw(rest)
      else
        var (closed, w) := Expecting(u, ']');
        if closed then Ok([v], w) else Bad(w)
  }

  /** A member's key, with the quote before it and the colon behind it. */
  function ParseKey(s: string): (o: Outcome<string>)
    ensures |o.rest| <= |s| && !o.Threw?
    ensures o.Ok? ==> |o.rest| < |s|
  {
    var (quote, t) := Expecting(s, '"');
    if !quote then Bad(t)
    else
      var key := StringBody(t);
      if !key.Ok? then key
      else
        var (colon, u) := Expecting(key.rest, ':');
        if colon then Ok(key.val, u) else Bad(u)
  }

  /** Assigning the members one after the other: a repeated key overwrites. */
  function ParseObject(ctx: Context, pf: Platform, s: string): (o: Outcome<Value>)
    decreases |s|, 2
    ensures |o.rest| <= |s|
  {
    var (empty, t) := Expecting(s, '}');
    if empty then Ok(Emit(ctx, Obj([])), t)
    else
      match ParseMembers(ctx, pf, t)
      case Ok(fields, rest) => Ok(Emit(ctx, Obj(PutAll([], fields))), rest)
      case Bad(rest) => Bad(rest)
      case Threw(rest) => Threw(rest)
  }

  /** The members of an object, in the order of the text, up to and including the closing brace. */
  function ParseMembers(ctx: Context, pf: Platform, s: string): (o: Outcome<seq<Field>>)
    decreases |s|, 1
    ensures |o.rest| <= |s|
  {
    var key := ParseKey(s);
    if key.Bad? then Bad(key.rest)
    else
      match ParseValue(ctx, pf, key.rest)
      case Bad(rest) => Bad(rest)
      case Threw(rest) => Threw(rest)
      case Ok(v, t) =>
        var (more, u) := Expecting(t, ',');
        if more then
          match ParseMembers(ctx, pf, u)
          case Ok(fields, rest) => Ok([Field(key.val, v)] + fields, rest)
          case Bad(rest) => Bad(rest)
          case Threw(rest) => Threw(rest)
        else
          var (closed, w) := Expecting(u, '}');
          if closed then Ok([Field(key.val, v)], w) else Bad(w)
  }

  /** White space before a value makes no difference. */
  lemma ParseValueAfterSpace(ctx: Context, pf: Platform, s: string, t: string)
    requires SkipSpace(s) == SkipSpace(t)
    ensures ParseValue(ctx, pf, s) == ParseValue(ctx, pf, t)
  {
  }

  /** The parser dispatches on the first byte. */
  lemma {:induction false} Dispatch(ctx: Context, pf: Platform, c: char, t: string)
    ensures c == '[' ==> ParseValue(ctx, pf, [c] + t) == ParseArray(ctx, pf, t)
    ensures c == '{' ==> ParseValue(ctx, pf, [c] + t) == ParseObject(ctx, pf, t)
    ensures c == '"' ==> ParseValue(ctx, pf, [c] + t) == ParseString(ctx, t)
    ensures IsDigit(c) || c == '-' ==> ParseValue(ctx, pf, [c] + t) == ParseNumber(ctx, pf, [c] + t)
    ensures c == 'n' ==> ParseValue(ctx, pf, [c] + t) == Literal(ctx, t, "ull", Null)
    ensures c == 'f' ==> ParseValue(ctx, pf, [c] + t) == Literal(ctx, t, "alse", Bool(false))
    ensures c == 't' ==> ParseValue(ctx, pf, [c] + t) == Literal(ctx, t, "rue", Bool(true))
    ensures !IsSpace(c) && !IsDigit(c) && c !in "nft\"[{-" ==> ParseValue(ctx, pf, [c] + t) == Bad([c] + t)
  {
    assert ([c] + t)[1..] == t;
  }

  // The two contexts

  /** Same verdict, same place. */
  ghost predicate Agree<T>(b: Outcome<T>, d: Outcome<T>) {
    !d.Threw? && (b.Threw? || (b.Ok? == d.Ok? && b.rest == d.rest))
  }

  /**
   * The null context never throws, and unless the building parser throws (it met a number that strtod
   * makes infinite) both accept the same texts and stop at the same byte.
   */
  lemma {:induction false} DiscardAgrees(pf: Platform, s: string)
    ensures Agree(ParseValue(Build, pf, s), ParseValue(Discard, pf, s))
    decreases |s|, 0
  {
    var t := SkipSpace(s);
    if t != "" && t[0] == '[' {
      var (empty, u) := Expecting(t[1..], ']');
      if !empty {
        DiscardItemsAgree(pf, u);
      }
    } else if t != "" && t[0] == '{' {
      var (empty, u) := Expecting(t[1..], '}');
      if !empty {
        DiscardMembersAgree(pf, u);
      }
    }
  }

  lemma {:induction false} DiscardItemsAgree(pf: Platform, s: string)
    ensures Agree(ParseItems(Build, pf, s), ParseItems(Discard, pf, s))
    decreases |s|, 1
  {
    DiscardAgrees(pf, s);
    var item := ParseValue(Discard, pf, s);
    if item.Ok? {
      var (more, u) := Expecting(item.rest, ',');
      if more {
        DiscardItemsAgree(pf, u);
      }
    }
  }

  lemma {:induction false} DiscardMembersAgree(pf: Platform, s: string)
    ensures Agree(ParseMembers(Build, pf, s), ParseMembers(Discard, pf, s))
    decreases |s|, 1
  {
    var key := ParseKey(s);
    if key.Ok? {
      DiscardAgrees(pf, key.rest);
      var item := ParseValue(Discard, pf, key.rest);
      if item.Ok? {
        var (more, u) := Expecting(item.rest, ',');
        if more {
          DiscardMembersAgree(pf, u);
        }
      }
    }
  }

  ghost predicate FiniteReader(pf: Platform) {
    forall s :: pf.strtod(s).Some? ==> IsFinite(pf.strtod(s).value)
  }

  /** With a reader of finite doubles nothing is ever thrown. */
  lemma {:induction false} FiniteNeverThrows(ctx: Context, pf: Platform, s: string)
    requires FiniteReader(pf)
    ensures !ParseValue(ctx, pf, s).Threw?
    decreases |s|, 0
  {
    var t := SkipSpace(s);
    if t != "" && t[0] == '[' {
      var (empty, u) := Expecting(t[1..], ']');
      if !empty {
        FiniteItemsNeverThrow(ctx, pf, u);
      }
    } else if t != "" && t[0] == '{' {
      var (empty, u) := Expecting(t[1..], '}');
      if !empty {
        FiniteMembersNeverThrow(ctx, pf, u);
      }
    }
  }

  lemma {:induction false} FiniteItemsNeverThrow(ctx: Context, pf: Platform, s: string)
    requires FiniteReader(pf)
    ensures !ParseItems(ctx, pf, s).Threw?
    decreases |s|, 1
  {
    FiniteNeverThrows(ctx, pf, s);
    var item := ParseValue(ctx, pf, s);
    if item.Ok? {
      var (more, u) := Expecting(item.rest, ',');
      if more {
        FiniteItemsNeverThrow(ctx, pf, u);
      }
    }
  }

  lemma {:induction false} FiniteMembersNeverThrow(ctx: Context, pf: Platform, s: string)
    requires FiniteReader(pf)
    ensures !ParseMembers(ctx, pf, s).Threw?
    decreases |s|, 1
  {
    var key := ParseKey(s);
    if key.Ok? {
      FiniteNeverThrows(ctx, pf, key.rest);
      var item := ParseValue(ctx, pf, key.rest);
      if item.Ok? {
        var (more, u) := Expecting(item.rest, ',');
        if more {
          FiniteMembersNeverThrow(ctx, pf, u);
        }
      }
    }
  }

  /** Given a reader of finite doubles, the two contexts accept the same texts and stop at the same byte. */
  lemma {:induction false} ContextsAgree(pf: Platform, s: string)
    requires FiniteReader(pf)
    ensures var b, d := ParseValue(Build, pf, s), ParseValue(Discard, pf, s);
            b.Ok? == d.Ok? && b.Bad? == d.Bad? && b.rest == d.rest
  {
    DiscardAgrees(pf, s);
    FiniteNeverThrows(Build, pf, s);
  }

  // Parsed values

  lemma {:induction false} ParsedWellFormed(ctx: Context, pf: Platform, s: string)
    ensures ParseValue(ctx, pf, s).Ok? ==> WellFormed(ParseValue(ctx, pf, s).val)
    decreases |s|, 0
  {
    var t := SkipSpace(s);
    if t != "" && t[0] == '[' {
      var (empty, u) := Expecting(t[1..], ']');
      if !empty {
        ParsedItemsWellFormed(ctx, pf, u);
      }
    } else if t != "" && t[0] == '{' {
      var (empty, u) := Expecting(t[1..], '}');
      if !empty {
        ParsedMembersWellFormed(ctx, pf, u);
        var fields := ParseMembers(ctx, pf, u);
        if fields.Ok? {
          PutAllSorted([], fields.val);
        }
      }
    }
  }

  lemma {:induction false} ParsedItemsWellFormed(ctx: Context, pf: Platform, s: string)
    ensures ParseItems(ctx, pf, s).Ok? ==> forall v <- ParseItems(ctx, pf, s).val :: WellFormed(v)
    decreases |s|, 1
  {
    ParsedWellFormed(ctx, pf, s);
    var item := ParseValue(ctx, pf, s);
    if item.Ok? {
      var (more, u) := Expecting(item.rest, ',');
      if more {
        ParsedItemsWellFormed(ctx, pf, u);
      }
    }
  }

  lemma {:induction false} ParsedMembersWellFormed(ctx: Context, pf: Platform, s: string)
    ensures ParseMembers(ctx, pf, s).Ok? ==> forall f <- ParseMembers(ctx, pf, s).val :: WellFormed(f.val)
    decreases |s|, 1
  {
    var key := ParseKey(s);
    if key.Ok? {
      ParsedWellFormed(ctx, pf, key.rest);
      var item := ParseValue(ctx, pf, key.rest);
      if item.Ok? {
        var (more, u) := Expecting(item.rest, ',');
        if more {
          ParsedMembersWellFormed(ctx, pf, u);
        }
      }
    }
  }
}

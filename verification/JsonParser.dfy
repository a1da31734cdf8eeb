/**
 * The parser as the library runs it: routines that move one cursor and fill the value in place.
 * Each computes the function of the same construct in JsonStrings or JsonParse, and so terminates on every text.
 */
module JsonParser {
  import opened Outcomes
  import opened Cursor
  import opened JsonNumbers
  import opened JsonStrings
  import opened JsonValues
  import opened JsonParse

  /** How a routine comes back: with a verdict, or by an exception. */
  datatype Status = Returned(ok: bool) | Raised

  function Verdict<T>(o: Outcome<T>): Status {
    match o
    case Ok(_, _) => Returned(true)
    case Bad(_) => Returned(false)
    case Threw(_) => Raised
  }

  /** The routine came back as `o` says, with that value and that much text unread. */
  ghost predicate Reports<T>(o: Outcome<T>, st: Status, v: T, rest: string) {
    st == Verdict(o) && rest == o.rest && (o.Ok? ==> v == o.val)
  }

  method ReadQuadHex(inp: Input) returns (u: int)
    requires inp.Valid()
    modifies inp
    ensures inp.Valid()
    ensures var o := QuadHex(old(inp.Rest()), 4, 0);
            u == (if o.Ok? then o.val else -1) && inp.Rest() == o.rest
  {
    u := 0;
    var i := 0;
    while i < 4
      invariant 0 <= i <= 4 && 0 <= u && inp.Valid()
      invariant QuadHex(inp.Rest(), 4 - i, u) == QuadHex(old(inp.Rest()), 4, 0)
    {
      var hex := inp.Getc();
      if hex == -1 {
        return -1;
      }
      if '0' as int <= hex <= '9' as int {
        hex := hex - '0' as int;
      } else if 'A' as int <= hex <= 'F' as int {
        hex := hex - ('A' as int - 0xa);
      } else if 'a' as int <= hex <= 'f' as int {
        hex := hex - ('a' as int - 0xa);
      } else {
        inp.Ungetc();
        return -1;
      }
      u := u * 16 + hex;
      i := i + 1;
    }
  }

  /** `ok` and `out` are what the routine returns and appends. */
  method ReadCodePoint(inp: Input) returns (ok: bool, out: string)
    requires inp.Valid()
    modifies inp
    ensures inp.Valid() && Reports(CodePoint(old(inp.Rest())), Returned(ok), out, inp.Rest())
  {
    ghost var s := inp.Rest();
    var u := ReadQuadHex(inp);
    if u == -1 {
      return false, "";
    }
    assert u <= 0xffff by { QuadHexValue(s); }
    if 0xd800 <= u <= 0xdfff {
      if 0xdc00 <= u {
        // a low surrogate comes first
        return false, "";
      }
      var second := ReadSecondHalf(inp);
      if !(0xdc00 <= second <= 0xdfff) {
        return false, "";
      }
      u := (u - 0xd800) * 1024 + (second - 0xdc00);
      u := u + 0x10000;
    }
    ghost var o := CodePoint(s);
    assert o.Ok? && o.rest == inp.Rest();
    return true, Utf8(u);
  }

  /** The backslash, the 'u' and the digits of the second half of a surrogate pair; -1 when they are not there. */
  method ReadSecondHalf(inp: Input) returns (second: int)
    requires inp.Valid()
    modifies inp
    ensures inp.Valid()
    ensures var t := old(inp.Rest());
            if t == "" || t[0] != '\\' then second == -1 && inp.Rest() == t
            else if |t| == 1 || t[1] != 'u' then second == -1 && inp.Rest() == t[1..]
            else
              var o := QuadHex(t[2..], 4, 0);
              second == (if o.Ok? then o.val else -1) && inp.Rest() == o.rest
  {
    ghost var t := inp.Rest();
    var ch := inp.Getc();
    if ch == '\\' as int {
      ch := inp.Getc();
      if ch == 'u' as int {
        assert inp.Rest() == t[2..];
        second := ReadQuadHex(inp);
        return;
      }
    }
    inp.Ungetc();
    return -1;
  }

  method ReadString(inp: Input) returns (ok: bool, out: string)
    requires inp.Valid()
    modifies inp
    ensures inp.Valid() && Reports(StringBody(old(inp.Rest())), Returned(ok), out, inp.Rest())
  {
    out := "";
    PrependNothing(StringBody(inp.Rest()));
    while true
      invariant inp.Valid()
      invariant Prepend(out, StringBody(inp.Rest())) == StringBody(old(inp.Rest()))
      decreases |inp.Rest()|
    {
      ghost var s := inp.Rest();
      ghost var before := out;
      var ch := inp.Getc();
      if ch < ' ' as int {
        inp.Ungetc();
        return false, out;
      } else if ch == '"' as int {
        assert out + "" == out;
        return true, out;
      } else if ch == '\\' as int {
        ch := inp.Getc();
        if ch == -1 {
          return false, out;
        }
        ghost var step := EscapeStep(s[1..]);
        if ch == 'u' as int {
          assert inp.Rest() == s[1..][1..];
          var fine, bytes := ReadCodePoint(inp);
          if !fine {
            return false, out;
          }
          out := out + bytes;
        } else {
          match ShortEscape(ch as char) {
            case Some(c) =>
              out := out + [c];
            case None =>
              return false, out;
          }
        }
        PrependTwice(before, step.val, StringBody(step.rest));
      } else {
        out := out + [ch as char];
        PrependTwice(before, [s[0]], StringBody(s[1..]));
      }
    }
  }

  lemma {:induction false} PrependNothing(o: Outcome<string>)
    ensures Prepend("", o) == o
  {
    if o.Ok? {
      assert "" + o.val == o.val;
    }
  }

  lemma {:induction false} PrependTwice(a: string, b: string, o: Outcome<string>)
    ensures Prepend(a, Prepend(b, o)) == Prepend(a + b, o)
  {
    if o.Ok? {
      assert a + (b + o.val) == a + b + o.val;
    }
  }

  function NumberPiece(decimalPoint: string, c: char): string {
    if c == '.' then decimalPoint else [c]
  }

  lemma {:induction false} NumberStep(decimalPoint: string, num: string, s: string)
    requires s != "" && IsNumberChar(s[0])
    ensures num + NumberRun(decimalPoint, s).0
         == num + NumberPiece(decimalPoint, s[0]) + NumberRun(decimalPoint, s[1..]).0
    ensures NumberRun(decimalPoint, s).1 == NumberRun(decimalPoint, s[1..]).1
  {
    var p, q := NumberPiece(decimalPoint, s[0]), NumberRun(decimalPoint, s[1..]).0;
    assert num + (p + q) == num + p + q;
  }

  method ReadNumberText(pf: Platform, inp: Input) returns (num: string)
    requires inp.Valid()
    modifies inp
    ensures inp.Valid() && (num, inp.Rest()) == NumberRun(pf.decimalPoint, old(inp.Rest()))
  {
    num := "";
    ghost var whole := NumberRun(pf.decimalPoint, inp.Rest());
    assert "" + whole.0 == whole.0;
    while true
      invariant inp.Valid()
      invariant num + NumberRun(pf.decimalPoint, inp.Rest()).0 == whole.0
      invariant NumberRun(pf.decimalPoint, inp.Rest()).1 == whole.1
      decreases |inp.Rest()|
    {
      ghost var s := inp.Rest();
      var ch := inp.Getc();
      if '0' as int <= ch <= '9' as int || ch == '+' as int || ch == '-' as int || ch == 'e' as int || ch == 'E' as int {
        NumberStep(pf.decimalPoint, num, s);
        num := num + [ch as char];
      } else if ch == '.' as int {
        NumberStep(pf.decimalPoint, num, s);
        num := num + pf.decimalPoint;
      } else {
        inp.Ungetc();
        assert num + "" == num;
        break;
      }
    }
  }

  method ReadNumber(ctx: Context, pf: Platform, inp: Input) returns (st: Status, v: Value)
    requires inp.Valid()
    modifies inp
    ensures inp.Valid() && Reports(ParseNumber(ctx, pf, old(inp.Rest())), st, v, inp.Rest())
  {
    var num := ReadNumberText(pf, inp);
    if num == "" {
      return Returned(false), Null;
    }
    match StrToIMax(num) {
      case Some(i) =>
        return Returned(true), Emit(ctx, Int(i));
      case None =>
    }
    match pf.strtod(num) {
      case Some(d) =>
        if ctx.Build? && !IsFinite(d) {
          return Raised, Null;
        }
        return Returned(true), Emit(ctx, Double(d));
      case None =>
        return Returned(false), Null;
    }
  }

  method ReadWord(ctx: Context, tail: string, v: Value, inp: Input) returns (st: Status, out: Value)
    requires inp.Valid()
    modifies inp
    ensures inp.Valid() && Reports(Literal(ctx, old(inp.Rest()), tail, v), st, out, inp.Rest())
  {
    var ok := inp.Match(tail);
    return Returned(ok), Emit(ctx, v);
  }

  /** _parse: one value, white space before it skipped, for either context. */
  method ReadValue(ctx: Context, pf: Platform, inp: Input) returns (st: Status, v: Value)
    requires inp.Valid()
    modifies inp
    ensures inp.Valid() && Reports(ParseValue(ctx, pf, old(inp.Rest())), st, v, inp.Rest())
    decreases |inp.Rest()|, 0
  {
    inp.SkipWs();
    ghost var t := inp.Rest();
    ghost var o := ParseValue(ctx, pf, old(inp.Rest()));
    ParseValueAfterSpace(ctx, pf, old(inp.Rest()), t);
    if t != "" {
      Dispatch(ctx, pf, t[0], t[1..]);
      assert [t[0]] + t[1..] == t;
    }
    var ch := inp.Getc();
    if ch == 'n' as int {
      st, v := ReadWord(ctx, "ull", Null, inp);
    } else if ch == 'f' as int {
      st, v := ReadWord(ctx, "alse", Bool(false), inp);
    } else if ch == 't' as int {
      st, v := ReadWord(ctx, "rue", Bool(true), inp);
    } else if ch == '"' as int {
      var ok, text := ReadString(inp);
      st, v := Returned(ok), Emit(ctx, Str(text));
    } else if ch == '[' as int {
      st, v := ReadArray(ctx, pf, inp);
    } else if ch == '{' as int {
      st, v := ReadObject(ctx, pf, inp);
    } else if '0' as int <= ch <= '9' as int || ch == '-' as int {
      inp.Ungetc();
      st, v := ReadNumber(ctx, pf, inp);
    } else {
      inp.Ungetc();
      st, v := Returned(false), Null;
    }
  }

  /** What is still to be read completes what has been read to `whole`. */
  ghost predicate Completes<T>(whole: Outcome<seq<T>>, done: seq<T>, rest: Outcome<seq<T>>) {
    Verdict(whole) == Verdict(rest) && whole.rest == rest.rest && (whole.Ok? ==> whole.val == done + rest.val)
  }

  lemma {:induction false} ItemStep(ctx: Context, pf: Platform, whole: Outcome<seq<Value>>, read: seq<Value>, t: string, item: Value, u: string)
    requires Completes(whole, read, ParseItems(ctx, pf, t))
    requires ParseValue(ctx, pf, t) == Ok(item, u)
    ensures var (more, w) := Expecting(u, ',');
            if more then Completes(whole, read + [item], ParseItems(ctx, pf, w))
            else var (closed, r) := Expecting(w, ']'); Reports(whole, Returned(closed), read + [item], r)
  {
    var (more, w) := Expecting(u, ',');
    if more && whole.Ok? {
      var items := ParseItems(ctx, pf, w).val;
      assert read + ([item] + items) == read + [item] + items;
    }
  }

  method ReadArray(ctx: Context, pf: Platform, inp: Input) returns (st: Status, v: Value)
    requires inp.Valid()
    modifies inp
    ensures inp.Valid() && Reports(ParseArray(ctx, pf, old(inp.Rest())), st, v, inp.Rest())
    decreases |inp.Rest()|, 2
  {
    var closed := inp.Expect(']');
    if closed {
      return Returned(true), Emit(ctx, Arr([]));
    }
    var a: seq<Value>;
    st, a := ReadItems(ctx, pf, inp);
    v := Emit(ctx, Arr(a));
  }

  /** The loop over the items, each pushed as it is read. */
  method ReadItems(ctx: Context, pf: Platform, inp: Input) returns (st: Status, a: seq<Value>)
    requires inp.Valid()
    modifies inp
    ensures inp.Valid()
    ensures var items := ParseItems(ctx, pf, old(inp.Rest()));
            && st == Verdict(items) && inp.Rest() == items.rest
            && (items.Ok? && ctx.Build? ==> a == items.val)
    decreases |inp.Rest()|, 1
  {
    a := [];
    ghost var whole, size, read := ParseItems(ctx, pf, inp.Rest()), |inp.Rest()|, a;
    while true
      invariant inp.Valid() && |inp.Rest()| <= size
      invariant Completes(whole, read, ParseItems(ctx, pf, inp.Rest()))
      invariant ctx.Build? ==> a == read
      decreases |inp.Rest()|
    {
      ghost var t := inp.Rest();
      var item: Value;
      st, item := ReadValue(ctx, pf, inp);
      if st != Returned(true) {
        return;
      }
      if ctx.Build? {
        a := a + [item];
      }
      ItemStep(ctx, pf, whole, read, t, item, inp.Rest());
      read := read + [item];
      var comma := inp.Expect(',');
      if !comma {
        break;
      }
    }
    var closed := inp.Expect(']');
    st := Returned(closed);
  }

  lemma {:induction false} MemberStep(ctx: Context, pf: Platform, whole: Outcome<seq<Field>>, read: seq<Field>, t: string, f: Field, k: string, u: string)
    requires Completes(whole, read, ParseMembers(ctx, pf, t))
    requires ParseKey(t) == Ok(f.key, k) && ParseValue(ctx, pf, k) == Ok(f.val, u)
    ensures var (more, w) := Expecting(u, ',');
            if more then Completes(whole, read + [f], ParseMembers(ctx, pf, w))
            else var (closed, r) := Expecting(w, '}'); Reports(whole, Returned(closed), read + [f], r)
  {
    var (more, w) := Expecting(u, ',');
    if more && whole.Ok? {
      var fields := ParseMembers(ctx, pf, w).val;
      assert read + ([f] + fields) == read + [f] + fields;
    }
  }

  method ReadObject(ctx: Context, pf: Platform, inp: Input) returns (st: Status, v: Value)
    requires inp.Valid()
    modifies inp
    ensures inp.Valid() && Reports(ParseObject(ctx, pf, old(inp.Rest())), st, v, inp.Rest())
    decreases |inp.Rest()|, 3
  {
    var closed := inp.Expect('}');
    if closed {
      return Returned(true), Emit(ctx, Obj([]));
    }
    var o: Object;
    st, o := ReadMembers(ctx, pf, inp);
    v := Emit(ctx, Obj(o));
  }

  /** The loop over the members, each assigned to the object as it is read. */
  method ReadMembers(ctx: Context, pf: Platform, inp: Input) returns (st: Status, o: Object)
    requires inp.Valid()
    modifies inp
    ensures inp.Valid()
    ensures var members := ParseMembers(ctx, pf, old(inp.Rest()));
            && st == Verdict(members) && inp.Rest() == members.rest
            && (members.Ok? && ctx.Build? ==> o == PutAll([], members.val))
    decreases |inp.Rest()|, 2
  {
    o := [];
    ghost var whole, size, read := ParseMembers(ctx, pf, inp.Rest()), |inp.Rest()|, o;
    while true
      invariant inp.Valid() && |inp.Rest()| <= size
      invariant Completes(whole, read, ParseMembers(ctx, pf, inp.Rest()))
      invariant ctx.Build? ==> o == PutAll([], read)
      decreases |inp.Rest()|
    {
      ghost var t := inp.Rest();
      var f: Field;
      st, f := ReadMember(ctx, pf, inp);
      if st != Returned(true) {
        return;
      }
      if ctx.Build? {
        o := Put(o, f);
        PutAllOneMore([], read, f);
      }
      MemberStep(ctx, pf, whole, read, t, f, ParseKey(t).rest, inp.Rest());
      read := read + [f];
      var comma := inp.Expect(',');
      if !comma {
        break;
      }
    }
    var closed := inp.Expect('}');
    st := Returned(closed);
  }

  lemma {:induction false} PutAllOneMore(o: Object, fs: seq<Field>, f: Field)
    ensures PutAll(o, fs + [f]) == Put(PutAll(o, fs), f)
    decreases |fs|
  {
    if fs == [] {
      assert fs + [f] == [f];
    } else {
      assert (fs + [f])[1..] == fs[1..] + [f];
      PutAllOneMore(Put(o, fs[0]), fs[1..], f);
    }
  }

  method ReadMember(ctx: Context, pf: Platform, inp: Input) returns (st: Status, f: Field)
    requires inp.Valid()
    modifies inp
    ensures inp.Valid()
    ensures var key := ParseKey(old(inp.Rest()));
            if key.Ok? then Reports(ParseValue(ctx, pf, key.rest), st, f.val, inp.Rest()) && f.key == key.val
            else st == Returned(false) && inp.Rest() == key.rest
    decreases |inp.Rest()|, 1
  {
    var ok, key := ReadKey(inp);
    if !ok {
      return Returned(false), Field(key, Null);
    }
    var item: Value;
    st, item := ReadValue(ctx, pf, inp);
    f := Field(key, item);
  }

  method ReadKey(inp: Input) returns (ok: bool, key: string)
    requires inp.Valid()
    modifies inp
    ensures inp.Valid() && Reports(ParseKey(old(inp.Rest())), Returned(ok), key, inp.Rest())
  {
    key := "";
    ok := inp.Expect('"');
    if ok {
      ok, key := ReadString(inp);
      if ok {
        ok := inp.Expect(':');
      }
    }
  }

  /** parse(): a fresh cursor over the text; the position handed back is where the unread text begins. */
  method Parse(pf: Platform, text: string) returns (st: Status, v: Value, stop: nat)
    ensures var o := ParseValue(Build, pf, text);
            stop <= |text| && Reports(o, st, v, text[stop..])
  {
    var inp := new Input(text);
    st, v := ReadValue(Build, pf, inp);
    stop := inp.Cur();
  }
}

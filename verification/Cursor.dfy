/**
 * The one-byte-pushback cursor of picojson (`input`), as a transition function on a
 * three-field state and as the object that performs those transitions in place.
 * A byte is a `char`; the end of input is the integer -1.
 */
module Cursor {

  function NewLines(s: string): nat {
    if s == "" then 0
    else NewLines(s[..|s| - 1]) + if s[|s| - 1] == '\n' then 1 else 0
  }

  datatype CursorState = CursorState(cur: nat, consumed: bool, line: nat) {
    /** The first position the parser has not yet been given. */
    function Pos(): nat {
      if consumed then cur + 1 else cur
    }

    ghost predicate Valid(src: string) {
      && Pos() <= |src|
      && line == 1 + NewLines(src[..cur])
    }
  }

  function Peek(src: string, p: nat): int {
    if p < |src| then src[p] as int else -1
  }

  function AfterGetc(src: string, c: CursorState): CursorState
    requires c.Valid(src)
  {
    var line := if c.consumed && src[c.cur] == '\n' then c.line + 1 else c.line;
    CursorState(c.Pos(), c.Pos() < |src|, line)
  }

  function AfterUngetc(c: CursorState): CursorState {
    c.(consumed := false)
  }

  predicate IsSpace(ch: char) {
    ch == ' ' || ch == '\t' || ch == '\n' || ch == '\r'
  }

  /** What skip_ws leaves unread. */
  function SkipSpace(s: string): (t: string)
    ensures |t| <= |s|
    ensures t == "" || !IsSpace(t[0])
  {
    if s != "" && IsSpace(s[0]) then SkipSpace(s[1..]) else s
  }

  /** expect: skip white space, then take one given byte if it is next. */
  function Expecting(s: string, ch: char): (r: (bool, string))
    ensures |r.1| <= |s|
    ensures r.0 ==> |r.1| < |s|
  {
    var t := SkipSpace(s);
    if t != "" && t[0] == ch then (true, t[1..]) else (false, t)
  }

  /** match: take the given bytes one by one, stopping at the first that differs. */
  function Matching(s: string, pattern: string): (r: (bool, string))
    decreases |pattern|
    ensures |r.1| <= |s|
  {
    if pattern == "" then (true, s)
    else if s != "" && s[0] == pattern[0] then Matching(s[1..], pattern[1..])
    else (false, s)
  }

  /** k bytes of the text are those of the pattern, and no more. */
  ghost predicate CommonPrefix(s: string, pattern: string, k: nat) {
    && k <= |s| && k <= |pattern| && s[..k] == pattern[..k]
    && (k < |s| && k < |pattern| ==> s[k] != pattern[k])
  }

  /** match takes the longest common prefix, and succeeds if that is the whole pattern. */
  lemma {:induction false} MatchingIs(s: string, pattern: string) returns (k: nat)
    ensures CommonPrefix(s, pattern, k) && Matching(s, pattern) == (k == |pattern|, s[k..])
    decreases |pattern|
  {
    if s != "" && pattern != "" && s[0] == pattern[0] {
      var more := MatchingIs(s[1..], pattern[1..]);
      k := more + 1;
      assert s[..k] == [s[0]] + s[1..][..more] && pattern[..k] == [pattern[0]] + pattern[1..][..more];
      assert s[1..][more..] == s[k..];
    } else {
      k := 0;
    }
  }

  class Input {
    const src: string
    var cur: nat
    var consumed: bool
    var line: nat

    ghost function State(): CursorState
      reads this
    {
      CursorState(cur, consumed, line)
    }

    ghost predicate Valid()
      reads this
    {
      State().Valid(src)
    }

    /** The text the parser has not yet been given. */
    ghost function Rest(): string
      requires Valid()
      reads this
    {
      src[State().Pos()..]
    }

    constructor (text: string)
      ensures Valid() && src == text && Rest() == text
      ensures State() == CursorState(0, false, 1)
    {
      src, cur, consumed, line := text, 0, false, 1;
    }

    method Getc() returns (ch: int)
      requires Valid()
      modifies this
      ensures Valid() && State() == AfterGetc(src, old(State()))
      ensures ch == Peek(src, old(State().Pos()))
      ensures old(Rest()) == "" ==> ch == -1 && Rest() == ""
      ensures old(Rest()) != "" ==> ch == old(Rest())[0] as int && Rest() == old(Rest())[1..]
      ensures src[cur..] == old(Rest())
    {
      if consumed {
        assert src[..cur + 1][..cur] == src[..cur];
        if src[cur] == '\n' {
          line := line + 1;
        }
        cur := cur + 1;
      }
      if cur == |src| {
        consumed := false;
        return -1;
      }
      consumed := true;
      return src[cur] as int;
    }

    method Ungetc()
      requires Valid()
      modifies this
      ensures Valid() && State() == AfterUngetc(old(State()))
      ensures Rest() == old(src[cur..])
    {
      consumed := false;
    }

    method SkipWs()
      requires Valid()
      modifies this
      ensures Valid() && Rest() == SkipSpace(old(Rest()))
      ensures State() == AfterSkip(src, old(State()))
    {
      while true
        invariant Valid()
        invariant AfterSkip(src, State()) == AfterSkip(src, old(State()))
        invariant SkipSpace(Rest()) == SkipSpace(old(Rest()))
        decreases |Rest()|
      {
        var ch := Getc();
        if !(ch == ' ' as int || ch == '\t' as int || ch == '\n' as int || ch == '\r' as int) {
          Ungetc();
          break;
        }
      }
    }

    method Expect(expected: char) returns (ok: bool)
      requires Valid()
      modifies this
      ensures Valid() && (ok, Rest()) == Expecting(old(Rest()), expected)
      ensures State() == AfterMatch(src, AfterSkip(src, old(State())), [expected])
    {
      SkipWs();
      var ch := Getc();
      if ch != expected as int {
        Ungetc();
        return false;
      }
      return true;
    }

    method Match(pattern: string) returns (ok: bool)
      requires Valid()
      modifies this
      ensures Valid() && (ok, Rest()) == Matching(old(Rest()), pattern)
      ensures State() == AfterMatch(src, old(State()), pattern)
    {
      var i := 0;
      assert pattern[0..] == pattern;
      while i < |pattern|
        invariant 0 <= i <= |pattern| && Valid()
        invariant AfterMatch(src, State(), pattern[i..]) == AfterMatch(src, old(State()), pattern)
        invariant Matching(Rest(), pattern[i..]) == Matching(old(Rest()), pattern)
      {
        var ch := Getc();
        if ch != pattern[i] as int {
          Ungetc();
          return false;
        }
        assert pattern[i..][1..] == pattern[i + 1..];
        i := i + 1;
      }
      return true;
    }

    /** cur(): the iterator handed back to the caller. A pending byte is passed without counting its line. */
    method Cur() returns (p: nat)
      requires Valid()
      modifies this
      ensures p == old(State().Pos()) <= |src| && cur == p && !consumed && line == old(line)
    {
      if consumed {
        consumed := false;
        cur := cur + 1;
      }
      return cur;
    }
  }

  // Runs of the cursor

  datatype Op = Get | Unget | Skip | Expected(ch: char) | Matched(pattern: string)

  /** getc until a byte that is no white space has been given back. */
  ghost function AfterSkip(src: string, c: CursorState): (d: CursorState)
    requires c.Valid(src)
    ensures d.Valid(src) && src[d.Pos()..] == SkipSpace(src[c.Pos()..]) && c.Pos() <= d.Pos()
    decreases |src| - c.Pos()
  {
    GetcKeepsValid(src, c);
    var d := AfterGetc(src, c);
    if d.consumed && IsSpace(src[d.cur]) then
      assert src[c.Pos()..][1..] == src[d.Pos()..];
      AfterSkip(src, d)
    else AfterUngetc(d)
  }

  ghost function AfterMatch(src: string, c: CursorState, pattern: string): (d: CursorState)
    requires c.Valid(src)
    ensures d.Valid(src) && src[d.Pos()..] == Matching(src[c.Pos()..], pattern).1 && c.Pos() <= d.Pos()
    decreases |pattern|
  {
    if pattern == "" then c
    else
      GetcKeepsValid(src, c);
      var d := AfterGetc(src, c);
      if d.consumed && src[d.cur] == pattern[0] then
        assert src[c.Pos()..][1..] == src[d.Pos()..];
        AfterMatch(src, d, pattern[1..])
      else AfterUngetc(d)
  }

  ghost function Apply(src: string, c: CursorState, op: Op): (d: CursorState)
    requires c.Valid(src)
    ensures d.Valid(src)
  {
    GetcKeepsValid(src, c);
    match op
    case Get => AfterGetc(src, c)
    case Unget => AfterUngetc(c)
    case Skip => AfterSkip(src, c)
    case Expected(ch) => AfterMatch(src, AfterSkip(src, c), [ch])
    case Matched(pattern) => AfterMatch(src, c, pattern)
  }

  ghost function Run(src: string, ops: seq<Op>): (d: CursorState)
    ensures d.Valid(src)
  {
    if ops == [] then CursorState(0, false, 1)
    else Apply(src, Run(src, ops[..|ops| - 1]), ops[|ops| - 1])
  }

  lemma {:induction false} GetcKeepsValid(src: string, c: CursorState)
    requires c.Valid(src)
    ensures AfterGetc(src, c).Valid(src)
    ensures AfterUngetc(c).Valid(src)
  {
    if c.consumed {
      assert src[..c.cur + 1][..c.cur] == src[..c.cur];
    }
  }

  /** Whatever was called before, ungetc gives back the last byte, once, and nothing at the end of input. */
  lemma UngetcUndoesGetc(src: string, ops: seq<Op>)
    ensures var c := Run(src, ops);
            var g := AfterGetc(src, c);
            && AfterUngetc(g).Pos() == c.Pos() == AfterUngetc(AfterUngetc(g)).Pos()
            && (c.Pos() == |src| ==> g.Pos() == c.Pos())
            && (c.Pos() < |src| ==> g.Pos() == c.Pos() + 1)
            && 1 <= c.line == 1 + NewLines(src[..c.cur])
            && c.Pos() <= |src|
  {
  }
}

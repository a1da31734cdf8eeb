/** Percent coding and the two loops that take a query apart (uri.cpp). Strings are byte strings. */
module Uri {
  import opened Outcomes
  import opened Searches
  import opened HexDigits

  const NPOS := 0xFFFF_FFFF_FFFF_FFFF

  /** No std::string is as long as npos. */
  predicate IsString(s: string) {
    |s| < NPOS
  }

  predicate IsByteString(s: string) {
    forall i :: 0 <= i < |s| ==> s[i] as int < 0x100
  }

  // Percent coding

  /** parse_hexchar; None when it throws. */
  function HexChar(c: char): (v: Option<int>)
    ensures v.Some? ==> 0 <= v.value < 16
  {
    if 'A' <= c <= 'F' then Some(c as int - 'A' as int + 10)
    else if 'a' <= c <= 'f' then Some(c as int - 'a' as int + 10)
    else if '0' <= c <= '9' then Some(c as int - '0' as int)
    else None
  }

  function HexNum(c1: char, c2: char): Option<char> {
    var r1, r2 := HexChar(c1), HexChar(c2);
    if r1.Some? && r2.Some? then Some((r1.value * 16 + r2.value) as char) else None
  }

  /** str[i], which is NUL one past the end. */
  function At(s: string, i: nat): char
    requires i <= |s|
  {
    if i < |s| then s[i] else '\0'
  }

  function Cons(c: char, s: Option<string>): Option<string> {
    match s case Some(t) => Some([c] + t) case None => None
  }

  function Decode(s: string): Option<string> {
    if s == "" then Some("")
    else if s[0] != '%' then Cons(s[0], Decode(s[1..]))
    else if |s| < 2 then None
    else
      match HexNum(s[1], At(s, 2))
      case None => None
      case Some(c) =>
        assert |s| > 2;
        Cons(c, Decode(s[3..]))
  }

  predicate IsUnreserved(c: char) {
    'A' <= c <= 'Z' || 'a' <= c <= 'z' || '0' <= c <= '9' || c == '-' || c == '_' || c == '.' || c == '~'
  }

  function EncodeChar(c: char): string {
    if IsUnreserved(c) then [c] else ['%', LOWER[c as int / 16 % 16], LOWER[c as int % 16]]
  }

  function Encode(s: string): string {
    if s == "" then "" else EncodeChar(s[0]) + Encode(s[1..])
  }

  // What the coding means (section 2.1 of RFC 3986)

  /** Two hexadecimal digits of either case, and the byte they write. */
  ghost predicate WritesByte(d1: char, d2: char, c: char) {
    exists hi, lo :: IsHexDigitOf(d1, hi) && IsHexDigitOf(d2, lo) && c as int == 16 * hi + lo
  }

  /** A '%' with two digits behind it stands for a byte, every other character for itself, '+' included. */
  ghost predicate Decodes(s: string, t: string) {
    if s == "" then t == ""
    else if s[0] != '%' then t != "" && t[0] == s[0] && Decodes(s[1..], t[1..])
    else |s| > 2 && t != "" && WritesByte(s[1], s[2], t[0]) && Decodes(s[3..], t[1..])
  }

  /** A '%' without two digits behind it. */
  ghost predicate Broken(s: string, i: nat) {
    i < |s| && s[i] == '%' && !(i + 2 < |s| && IsHexDigit(s[i + 1]) && IsHexDigit(s[i + 2]))
  }

  /** Letters, digits and four marks (section 2.3 of RFC 3986) stand for themselves, other bytes as lower-case digits. */
  ghost predicate Encodes(s: string, t: string) {
    if s == "" then t == ""
    else if s[0] in "-._~" || '0' <= s[0] <= '9' || 'A' <= s[0] <= 'Z' || 'a' <= s[0] <= 'z' then
      t != "" && t[0] == s[0] && Encodes(s[1..], t[1..])
    else
      |t| > 2 && t[0] == '%' && WritesByte(t[1], t[2], s[0]) && t[1] in LOWER && t[2] in LOWER && Encodes(s[1..], t[3..])
  }

  lemma {:induction false} HexCharIs(c: char, n: int)
    ensures HexChar(c) == Some(n) <==> IsHexDigitOf(c, n)
  {
    assert LOWER == ['0', '1', '2', '3', '4', '5', '6', '7', '8', '9', 'a', 'b', 'c', 'd', 'e', 'f'];
    assert UPPER == ['0', '1', '2', '3', '4', '5', '6', '7', '8', '9', 'A', 'B', 'C', 'D', 'E', 'F'];
  }

  lemma {:induction false} HexDigitIs(c: char)
    ensures HexChar(c).Some? <==> IsHexDigit(c)
  {
    if HexChar(c).Some? {
      HexCharIs(c, HexChar(c).value);
    }
    if n :| IsHexDigitOf(c, n) {
      HexCharIs(c, n);
    }
  }

  lemma {:induction false} HexNumIs(d1: char, d2: char, c: char)
    ensures HexNum(d1, d2) == Some(c) <==> WritesByte(d1, d2, c)
  {
    if HexNum(d1, d2) == Some(c) {
      HexCharIs(d1, HexChar(d1).value);
      HexCharIs(d2, HexChar(d2).value);
    }
    if hi, lo :| IsHexDigitOf(d1, hi) && IsHexDigitOf(d2, lo) && c as int == 16 * hi + lo {
      HexCharIs(d1, hi);
      HexCharIs(d2, lo);
    }
  }

  /** url_decode yields a text if and only if that is what the coded text means. */
  lemma {:induction false} DecodeExactly(s: string, t: string)
    ensures Decode(s) == Some(t) <==> Decodes(s, t)
  {
    if s != "" {
      var n := if s[0] != '%' then 1 else 3;
      if n <= |s| {
        DecodeExactly(s[n..], if t == "" then "" else t[1..]);
      }
      if t != "" {
        assert t == [t[0]] + t[1..];
        if |s| > 2 {
          HexNumIs(s[1], s[2], t[0]);
        }
      }
    }
  }

  /** It throws if and only if some '%' has no two digits behind it. */
  lemma {:induction false} ThrowsExactly(s: string)
    ensures Decode(s).None? <==> exists i: nat :: Broken(s, i)
  {
    if s != "" {
      if s[0] != '%' {
        ThrowsExactly(s[1..]);
        BrokenBehind(s, 1);
      } else if |s| > 2 && HexNum(s[1], s[2]).Some? {
        HexDigitIs(s[1]);
        HexDigitIs(s[2]);
        HexCharIs('%', 0);
        ThrowsExactly(s[3..]);
        BrokenBehind(s, 3);
      } else {
        if |s| > 1 {
          HexDigitIs(s[1]);
        }
        if |s| > 2 {
          HexDigitIs(s[2]);
        }
        assert Broken(s, 0);
      }
    }
  }

  lemma {:induction false} BrokenBehind(s: string, n: nat)
    requires n <= |s| && forall i: nat :: i < n ==> !Broken(s, i)
    ensures (exists i: nat :: Broken(s, i)) <==> exists i: nat :: Broken(s[n..], i)
  {
    forall i: nat ensures Broken(s[n..], i) <==> Broken(s, n + i) {
    }
    forall i: nat | Broken(s, i) ensures Broken(s[n..], i - n) {
      assert n + (i - n) == i;
    }
  }

  /** url_encode yields what its text means. */
  lemma {:induction false} EncodeMeans(s: string)
    requires IsByteString(s)
    ensures Encodes(s, Encode(s))
  {
    if s != "" {
      var c, e := s[0], Encode(s);
      EncodeMeans(s[1..]);
      if IsUnreserved(c) {
        assert e[1..] == Encode(s[1..]);
      } else {
        DigitsOf(c);
        HexNumIs(LOWER[c as int / 16 % 16], LOWER[c as int % 16], c);
        assert e[3..] == Encode(s[1..]);
      }
    }
  }

  method UrlDecode(str: string) returns (r: Option<string>)
    requires IsString(str)
    ensures r == Decode(str)
  {
    var res := "";
    var i := 0;
    assert str[0..] == str;
    Joined("", Decode(str));
    while i < |str|
      invariant 0 <= i <= |str|
      invariant Join(res, Decode(str[i..])) == Decode(str)
    {
      ghost var rest := str[i..];
      if str[i] != '%' {
        assert rest[1..] == str[i + 1..];
        JoinCons(res, str[i], Decode(str[i + 1..]));
        res := res + [str[i]];
      } else {
        if |str| - i < 2 {
          return None;
        }
        var c := HexNum(str[i + 1], At(str, i + 2));
        if c.None? {
          return None;
        }
        assert rest[3..] == str[i + 3..];
        JoinCons(res, c.value, Decode(str[i + 3..]));
        res := res + [c.value];
        i := i + 2;
      }
      i := i + 1;
    }
    assert res + "" == res;
    return Some(res);
  }

  function Join(a: string, s: Option<string>): Option<string> {
    match s case Some(t) => Some(a + t) case None => None
  }

  lemma {:induction false} Joined(a: string, s: Option<string>)
    ensures a == "" ==> Join(a, s) == s
  {
    if s.Some? {
      assert "" + s.value == s.value;
    }
  }

  lemma {:induction false} JoinCons(a: string, c: char, s: Option<string>)
    ensures Join(a, Cons(c, s)) == Join(a + [c], s)
  {
    if s.Some? {
      assert a + ([c] + s.value) == a + [c] + s.value;
    }
  }

  method UrlEncode(str: string) returns (res: string)
    ensures res == Encode(str)
  {
    res := "";
    var i := 0;
    while i < |str|
      invariant 0 <= i <= |str| && res == Encode(str[..i])
    {
      EncodeAppend(str[..i], str[i]);
      assert str[..i + 1] == str[..i] + [str[i]];
      res := res + EncodeChar(str[i]);
      i := i + 1;
    }
    assert str[..|str|] == str;
  }

  lemma {:induction false} EncodeAppend(s: string, c: char)
    ensures Encode(s + [c]) == Encode(s) + EncodeChar(c)
  {
    if s == "" {
      assert s + [c] == [c];
    } else {
      assert (s + [c])[1..] == s[1..] + [c];
      EncodeAppend(s[1..], c);
    }
  }

  lemma {:induction false} PercentRead(c: char, d1: char, d2: char, t: string)
    requires HexNum(d1, d2) == Some(c)
    ensures Decode(['%', d1, d2] + t) == Cons(c, Decode(t))
  {
    var s := ['%', d1, d2] + t;
    assert s[1] == d1 && At(s, 2) == d2 && s[3..] == t;
  }

  lemma {:induction false} DigitsOf(c: char)
    requires c as int < 0x100
    ensures HexNum(LOWER[c as int / 16 % 16], LOWER[c as int % 16]) == Some(c)
  {
    var n := c as int;
    HexCharIs(LOWER[n / 16 % 16], n / 16 % 16);
    HexCharIs(LOWER[n % 16], n % 16);
    assert n / 16 % 16 * 16 + n % 16 == n;
  }

  lemma {:induction false} DecodeChar(c: char, t: string)
    requires c as int < 0x100
    ensures Decode(EncodeChar(c) + t) == Cons(c, Decode(t))
  {
    if IsUnreserved(c) {
      assert ([c] + t)[1..] == t;
    } else {
      DigitsOf(c);
      PercentRead(c, LOWER[c as int / 16 % 16], LOWER[c as int % 16], t);
    }
  }

  /** Decoding undoes encoding for every byte string (section 2.1 of RFC 3986). */
  lemma {:induction false} DecodeEncode(s: string)
    requires IsByteString(s)
    ensures Decode(Encode(s)) == Some(s)
  {
    if s != "" {
      DecodeChar(s[0], Encode(s[1..]));
      DecodeEncode(s[1..]);
      assert [s[0]] + s[1..] == s;
    }
  }

  lemma {:induction false} EncodedChars(s: string)
    ensures forall c <- Encode(s) :: IsUnreserved(c) || c == '%'
  {
    if s != "" {
      EncodedChars(s[1..]);
    }
  }

  // Queries

  datatype Pair = Pair(key: string, val: string)

  /** The entries of an unordered_multimap, the last inserted first; Bag forgets the order. */
  datatype Entries = Nil | Add(last: Pair, earlier: Entries)

  function Bag(es: Entries): multiset<Pair> {
    match es
    case Nil => multiset{}
    case Add(last, earlier) => Bag(earlier) + multiset{last}
  }

  /** Key and value of one component; without '=' the value is empty. */
  function PairOf(part: string): Pair {
    var i := Cut(part, '=', 0);
    if i < |part| then Pair(part[0..i], part[i + 1..|part|]) else Pair(part, "")
  }

  function Insert(es: Entries, part: string): Entries {
    if part == "" then es else Add(PairOf(part), es)
  }

  /** Inserting the components between '&' signs from `from` on; empty ones are left out. */
  function Pairs(es: Entries, d: string, from: nat): Entries
    requires from <= |d|
    decreases |d| - from
  {
    var i := Cut(d, '&', from);
    var more := Insert(es, d[from..i]);
    if i < |d| then Pairs(more, d, i + 1) else more
  }

  function DecodePair(p: Pair): Option<Pair> {
    var k, v := Decode(p.key), Decode(p.val);
    if k.Some? && v.Some? then Some(Pair(k.value, v.value)) else None
  }

  function InsertDecoded(es: Entries, part: string): Option<Entries> {
    if part == "" then Some(es)
    else match DecodePair(PairOf(part)) case Some(p) => Some(Add(p, es)) case None => None
  }

  /** Inserting the decoded components from `from` on; None as soon as one does not decode. */
  function Form(es: Entries, d: string, from: nat): Option<Entries>
    requires from <= |d|
    decreases |d| - from
  {
    var i := Cut(d, '&', from);
    match InsertDecoded(es, d[from..i])
    case None => None
    case Some(more) => if i < |d| then Form(more, d, i + 1) else Some(more)
  }

  /** std::string::find */
  function Find(s: string, c: char, from: nat): (pos: nat)
    requires IsString(s) && from <= |s|
    ensures pos == NPOS || from <= pos < |s|
  {
    var i := Cut(s, c, from);
    if i < |s| then i else NPOS
  }

  /** std::string::substr, which throws past the end. */
  function Substr(s: string, offset: nat, count: nat): string
    requires offset <= |s|
  {
    s[offset..if count < |s| - offset then offset + count else |s|]
  }

  method SplitComponent(part: string) returns (p: Pair)
    requires IsString(part)
    ensures p == PairOf(part)
  {
    var pos := Find(part, '=', 0);
    if pos != NPOS {
      p := Pair(Substr(part, 0, pos), Substr(part, pos + 1, NPOS));
    } else {
      p := Pair(part, "");
    }
  }

  /** find and substr cut out the component that starts at `offset`. */
  method NextComponent(data: string, offset: nat) returns (pos: nat, part: string)
    requires IsString(data) && offset <= |data|
    ensures pos == Find(data, '&', offset)
    ensures part == data[offset..Cut(data, '&', offset)]
  {
    pos := Find(data, '&', offset);
    part := Substr(data, offset, if pos == NPOS then NPOS else pos - offset);
  }

  /** One turn of the loop. */
  lemma FormStep(es: Entries, d: string, from: nat)
    requires from <= |d|
    ensures var i := Cut(d, '&', from);
            var more := InsertDecoded(es, d[from..i]);
            Form(es, d, from) == if more.None? || i == |d| then more else Form(more.value, d, i + 1)
  {
  }

  lemma {:induction false} FormAtEnd(es: Entries, d: string)
    ensures Form(es, d, |d|) == Some(es)
  {
    assert d[|d|..|d|] == "";
  }

  /** What one component adds; None when url_decode throws. */
  method DecodeComponent(res: Entries, part: string) returns (r: Option<Entries>)
    requires IsString(part)
    ensures r == InsertDecoded(res, part)
  {
    if part == "" {
      return Some(res);
    }
    var p := SplitComponent(part);
    var k := UrlDecode(p.key);
    var v := UrlDecode(p.val);
    if k.None? || v.None? {
      return None;
    }
    return Some(Add(Pair(k.value, v.value), res));
  }

  /** parse_formdata; None when url_decode throws. Every offset stays within the text. */
  method ParseFormdata(data: string) returns (r: Option<Entries>)
    requires IsString(data)
    ensures r == Form(Nil, data, 0)
  {
    var res := Nil;
    var offset := 0;
    while true
      invariant 0 <= offset <= |data|
      invariant Form(res, data, offset) == Form(Nil, data, 0)
      decreases |data| - offset
    {
      var pos, part := NextComponent(data, offset);
      var more := DecodeComponent(res, part);
      FormStep(res, data, offset);
      if more.None? {
        return None;
      }
      res := more.value;
      if pos == NPOS {
        break;
      }
      offset := pos + 1;
      if !(offset < |data|) {
        FormAtEnd(res, data);
        break;
      }
    }
    return Some(res);
  }

  /** What the uri constructor makes of a resource. */
  datatype Parsed = Parsed(path: string, fname: string, ext: string, query: Entries)

  /** std::string::find_last_of among the first n bytes. */
  function FindLast(s: string, c: char, n: nat): (pos: nat)
    requires IsString(s) && n <= |s|
    ensures pos == NPOS || (pos < n && s[pos] == c)
    ensures forall k :: (if pos == NPOS then 0 else pos + 1) <= k < n ==> s[k] != c
  {
    if n == 0 then NPOS else if s[n - 1] == c then n - 1 else FindLast(s, c, n - 1)
  }

  /** `t` is what follows the last `c` of `s`. */
  ghost predicate IsBehindLast(s: string, c: char, t: string) {
    && |t| < |s| && s[|s| - |t| - 1] == c && s[|s| - |t|..] == t
    && forall k :: |s| - |t| <= k < |s| ==> s[k] != c
  }

  method FileName(path: string) returns (fname: string)
    requires IsString(path) && '/' in path
    ensures IsBehindLast(path, '/', fname)
  {
    var pos := FindLast(path, '/', |path|);
    fname := path[pos + 1..];
  }

  method Extension(fname: string) returns (ext: string)
    requires IsString(fname)
    ensures if '.' in fname then IsBehindLast(fname, '.', ext) else ext == ""
  {
    var pos := FindLast(fname, '.', |fname|);
    ext := if pos != NPOS then fname[pos + 1..] else "";
  }

  /** The pairs behind the first '?' of a resource. */
  function QueryPairs(resource: string): Entries {
    var i := Cut(resource, '?', 0);
    if i < |resource| then Pairs(Nil, resource, i + 1) else Nil
  }

  /** The uri constructor; None when it throws. */
  method ParseUri(resource: string) returns (r: Option<Parsed>)
    requires IsString(resource)
    ensures r.None? <==> resource == "" || resource[0] != '/'
    ensures r.Some? ==>
              && r.value.path == resource[..Cut(resource, '?', 0)]
              && r.value.query == QueryPairs(resource)
              && IsBehindLast(r.value.path, '/', r.value.fname)
              && (if '.' in r.value.fname then IsBehindLast(r.value.fname, '.', r.value.ext) else r.value.ext == "")
  {
    if resource == "" || resource[0] != '/' {
      return None;
    }
    var query := Nil;
    var path := resource;
    var pos := Find(resource, '?', 0);
    if pos != NPOS {
      path := Substr(resource, 0, pos);
      query := ParseQuery(resource, pos);
    }
    assert path[0] == '/';
    var fname := FileName(path);
    var ext := Extension(fname);
    return Some(Parsed(path, fname, ext, query));
  }

  /** The same cut as the constructor makes it: at the end both `pos` and the distance to it are far past the text. */
  method NextQueryComponent(uri: string, offset: nat) returns (pos: nat, part: string)
    requires IsString(uri) && offset <= |uri|
    ensures pos == Find(uri, '&', offset)
    ensures part == uri[offset..Cut(uri, '&', offset)]
  {
    pos := Find(uri, '&', offset);
    part := Substr(uri, offset, pos - offset);
  }

  lemma PairsStep(es: Entries, d: string, from: nat)
    requires from <= |d|
    ensures var i := Cut(d, '&', from);
            var more := Insert(es, d[from..i]);
            Pairs(es, d, from) == if i == |d| then more else Pairs(more, d, i + 1)
  {
  }

  /** The loop of the constructor, which stops when `offset` has become npos. */
  method ParseQuery(uri: string, start: nat) returns (query: Entries)
    requires IsString(uri) && start < |uri|
    ensures query == Pairs(Nil, uri, start + 1)
  {
    query := Nil;
    var offset := start;
    while true
      invariant start <= offset < |uri|
      invariant Pairs(query, uri, offset + 1) == Pairs(Nil, uri, start + 1)
      decreases |uri| - offset
    {
      offset := offset + 1;
      var pos, part := NextQueryComponent(uri, offset);
      PairsStep(query, uri, offset);
      if part != "" {
        var p := SplitComponent(part);
        query := Add(p, query);
      }
      offset := pos;
      if !(offset < |uri|) {
        break;
      }
    }
  }
}

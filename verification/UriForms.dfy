/** What the two query loops have to do with each other and with an encoder. */
module UriForms {
  import opened Outcomes
  import opened Searches
  import opened Uri

  // The loops agree

  /** url_decode applied to every key and value. */
  function DecodeEntries(es: Entries): Option<Entries> {
    match es
    case Nil => Some(Nil)
    case Add(last, earlier) =>
      var p, more := DecodePair(last), DecodeEntries(earlier);
      if p.Some? && more.Some? then Some(Add(p.value, more.value)) else None
  }

  /** The components between '&' signs from `from` on, empty ones included. */
  function Components(d: string, from: nat): seq<string>
    requires from <= |d|
    decreases |d| - from, 1
  {
    var i := Cut(d, '&', from);
    [d[from..i]] + MoreComponents(d, i)
  }

  /** Those behind the '&' sign at `i`, if there is one. */
  function MoreComponents(d: string, i: nat): seq<string>
    requires i <= |d|
    decreases |d| - i, 0
  {
    if i < |d| then Components(d, i + 1) else []
  }

  function InsertAll(es: Entries, parts: seq<string>): Entries
    decreases parts
  {
    if parts == [] then es else InsertAll(Insert(es, parts[0]), parts[1..])
  }

  function DecodeAll(es: Entries, parts: seq<string>): Option<Entries>
    decreases parts
  {
    if parts == [] then Some(es)
    else match InsertDecoded(es, parts[0]) case None => None case Some(more) => DecodeAll(more, parts[1..])
  }

  lemma {:induction false} PairsAre(es: Entries, d: string, from: nat)
    requires from <= |d|
    ensures Pairs(es, d, from) == InsertAll(es, Components(d, from))
    decreases |d| - from
  {
    var i := Cut(d, '&', from);
    var more := MoreComponents(d, i);
    assert Components(d, from)[1..] == more;
    if i < |d| {
      PairsAre(Insert(es, d[from..i]), d, i + 1);
    }
  }

  lemma {:induction false} FormIs(es: Entries, d: string, from: nat)
    requires from <= |d|
    ensures Form(es, d, from) == DecodeAll(es, Components(d, from))
    decreases |d| - from
  {
    var i := Cut(d, '&', from);
    var more := MoreComponents(d, i);
    assert Components(d, from)[1..] == more;
    var inserted := InsertDecoded(es, d[from..i]);
    if i < |d| && inserted.Some? {
      FormIs(inserted.value, d, i + 1);
    }
  }

  lemma {:induction false} DecodeFails(es: Entries, parts: seq<string>)
    requires DecodeEntries(es).None?
    ensures DecodeEntries(InsertAll(es, parts)).None?
    decreases parts
  {
    if parts != [] {
      DecodeFails(Insert(es, parts[0]), parts[1..]);
    }
  }

  /** Decoding while inserting, and inserting first. */
  lemma {:induction false} DecodeCommutes(es: Entries, fs: Entries, parts: seq<string>)
    requires DecodeEntries(es) == Some(fs)
    ensures DecodeAll(fs, parts) == DecodeEntries(InsertAll(es, parts))
    decreases parts
  {
    if parts != [] {
      var more := InsertDecoded(fs, parts[0]);
      assert DecodeEntries(Insert(es, parts[0])) == more;
      if more.Some? {
        DecodeCommutes(Insert(es, parts[0]), more.value, parts[1..]);
      } else {
        DecodeFails(Insert(es, parts[0]), parts[1..]);
      }
    }
  }

  lemma {:induction false} CutBehind(s: string, d: string, n: nat, c: char, i: nat)
    requires |s| == n + |d| && s[n..] == d && n <= i <= |s|
    ensures Cut(s, c, i) == Cut(d, c, i - n) + n
    decreases |s| - i
  {
    if i < |s| {
      assert s[i] == s[n..][i - n];
      CutBehind(s, d, n, c, i + 1);
    }
  }

  lemma {:induction false} SliceBehind(s: string, d: string, n: nat, i: nat, j: nat)
    requires |s| == n + |d| && s[n..] == d && n <= i <= j <= |s|
    ensures s[i..j] == d[i - n..j - n]
  {
    assert s[n..][i - n..j - n] == s[i..j];
  }

  /** What stands in front of a query has no part in it. */
  lemma {:induction false} ComponentsBehind(s: string, d: string, n: nat, i: nat)
    requires |s| == n + |d| && s[n..] == d && n <= i <= |s|
    ensures Components(s, i) == Components(d, i - n)
    decreases |s| - i, 1
  {
    var m := Cut(s, '&', i);
    CutBehind(s, d, n, '&', i);
    SliceBehind(s, d, n, i, m);
    MoreBehind(s, d, n, m);
  }

  lemma {:induction false} MoreBehind(s: string, d: string, n: nat, m: nat)
    requires |s| == n + |d| && s[n..] == d && n <= m <= |s|
    ensures MoreComponents(s, m) == MoreComponents(d, m - n)
    decreases |s| - m, 0
  {
    if m < |s| {
      ComponentsBehind(s, d, n, m + 1);
    }
  }

  lemma {:induction false} BehindPath(path: string, d: string)
    ensures var u := path + "?" + d;
            && |u| == |path| + 1 + |d| && u[|path|] == '?' && u[|path| + 1..] == d
            && forall i :: 0 <= i < |path| ==> u[i] == path[i]
  {
    assert (path + "?")[|path|] == '?';
  }

  lemma {:induction false} QueryAt(path: string, d: string)
    requires Lacks(path, '?')
    ensures QueryPairs(path + "?" + d) == InsertAll(Nil, Components(d, 0))
  {
    var u, n := path + "?" + d, |path|;
    BehindPath(path, d);
    CutWhere(u, '?', 0, n);
    ComponentsBehind(u, d, n + 1, n + 1);
    PairsAre(Nil, u, n + 1);
  }

  /** For every path and text, parse_formdata decodes exactly the pairs the uri constructor finds behind the path, and fails exactly when one does not decode. */
  lemma {:induction false} LoopsAgree(path: string, d: string)
    requires Lacks(path, '?')
    ensures Form(Nil, d, 0) == DecodeEntries(QueryPairs(path + "?" + d))
  {
    FormIs(Nil, d, 0);
    DecodeCommutes(Nil, Nil, Components(d, 0));
    QueryAt(path, d);
  }

  // What the pairs are

  ghost function JoinedBy(parts: seq<string>, c: char): string
    requires parts != []
  {
    if |parts| == 1 then parts[0] else parts[0] + ([c] + JoinedBy(parts[1..], c))
  }

  /** The components are the texts between the '&' signs. */
  lemma {:induction false} ComponentsAre(d: string, from: nat)
    requires from <= |d|
    ensures var parts := Components(d, from);
            JoinedBy(parts, '&') == d[from..] && forall i :: 0 <= i < |parts| ==> Lacks(parts[i], '&')
    decreases |d| - from
  {
    var i := Cut(d, '&', from);
    CutFirst(d, '&', from);
    assert Lacks(d[from..i], '&');
    if i < |d| {
      ComponentsAre(d, i + 1);
      assert Components(d, from)[1..] == Components(d, i + 1);
      assert d[from..] == d[from..i] + (['&'] + d[i + 1..]);
    } else {
      assert d[from..] == d[from..i];
    }
  }

  /** A component is cut at its first '='; without one it is a key with an empty value. */
  lemma {:induction false} PairExactly(part: string, p: Pair)
    ensures PairOf(part) == p <==>
            (Lacks(part, '=') && p == Pair(part, "")) || (Lacks(p.key, '=') && part == p.key + "=" + p.val)
  {
    var i := Cut(part, '=', 0);
    CutFirst(part, '=', 0);
    if i < |part| {
      var k, v := part[0..i], part[i + 1..|part|];
      assert part == k + "=" + v && Lacks(k, '=') && part[i] == '=';
    }
    if Lacks(p.key, '=') && part == p.key + "=" + p.val {
      PairOfJoined(p.key, p.val);
    }
  }

  /** The pairs in the order of insertion. */
  ghost function Listed(es: Entries): seq<Pair> {
    match es case Nil => [] case Add(last, earlier) => Listed(earlier) + [last]
  }

  /** The pairs of the components that are not empty. */
  ghost function PairsOf(parts: seq<string>): seq<Pair> {
    if parts == [] then [] else (if parts[0] == "" then [] else [PairOf(parts[0])]) + PairsOf(parts[1..])
  }

  lemma {:induction false} InsertedAre(es: Entries, parts: seq<string>)
    ensures Listed(InsertAll(es, parts)) == Listed(es) + PairsOf(parts)
    decreases parts
  {
    if parts != [] {
      InsertedAre(Insert(es, parts[0]), parts[1..]);
      if parts[0] != "" {
        assert Listed(es) + [PairOf(parts[0])] + PairsOf(parts[1..]) == Listed(es) + ([PairOf(parts[0])] + PairsOf(parts[1..]));
      }
    }
  }

  /** The query of a uri: the pairs of the components behind the first '?', and none without it. */
  lemma {:induction false} QueryExactly(path: string, d: string)
    requires Lacks(path, '?')
    ensures QueryPairs(path) == Nil && Listed(QueryPairs(path + "?" + d)) == PairsOf(Components(d, 0))
  {
    CutWhere(path, '?', 0, |path|);
    QueryAt(path, d);
    InsertedAre(Nil, Components(d, 0));
    assert [] + PairsOf(Components(d, 0)) == PairsOf(Components(d, 0));
  }

  ghost predicate Undecodable(p: Pair) {
    Decode(p.key).None? || Decode(p.val).None?
  }

  lemma {:induction false} FailsExactly(es: Entries)
    ensures DecodeEntries(es).None? <==> exists p :: p in Bag(es) && Undecodable(p)
  {
    if es.Add? {
      FailsExactly(es.earlier);
      if Undecodable(es.last) {
        assert es.last in Bag(es);
      } else if DecodeEntries(es.earlier).None? {
        var p :| p in Bag(es.earlier) && Undecodable(p);
        assert p in Bag(es);
      }
    }
  }

  // The loops undo an encoder

  function EncodePair(p: Pair): string {
    Encode(p.key) + "=" + Encode(p.val)
  }

  /** The pairs percent-encoded and joined with '=' and '&', in the order of insertion. */
  function EncodeForm(es: Entries): string {
    match es
    case Nil => ""
    case Add(last, Nil) => EncodePair(last)
    case Add(last, earlier) => EncodeForm(earlier) + "&" + EncodePair(last)
  }

  ghost predicate ByteStrings(es: Entries) {
    match es
    case Nil => true
    case Add(last, earlier) => IsByteString(last.key) && IsByteString(last.val) && ByteStrings(earlier)
  }

  lemma {:induction false} EncodedLacks(s: string)
    ensures forall k :: 0 <= k < |Encode(s)| ==> Encode(s)[k] != '&' && Encode(s)[k] != '='
  {
    EncodedChars(s);
    forall k | 0 <= k < |Encode(s)| ensures Encode(s)[k] != '&' && Encode(s)[k] != '=' {
      assert Encode(s)[k] in Encode(s);
    }
  }

  lemma {:induction false} PairOfJoined(k: string, v: string)
    requires forall j :: 0 <= j < |k| ==> k[j] != '='
    ensures PairOf(k + "=" + v) == Pair(k, v)
  {
    var part := k + "=" + v;
    assert part[|k|] == '=' && forall j :: 0 <= j < |k| ==> part[j] == k[j];
    CutWhere(part, '=', 0, |k|);
    assert part[0..|k|] == k && part[|k| + 1..|part|] == v;
  }

  lemma {:induction false} EncodedPair(p: Pair)
    requires IsByteString(p.key) && IsByteString(p.val)
    ensures var part := EncodePair(p);
            && part != "" && DecodePair(PairOf(part)) == Some(p)
            && forall k :: 0 <= k < |part| ==> part[k] != '&'
  {
    EncodedLacks(p.key);
    EncodedLacks(p.val);
    PairOfJoined(Encode(p.key), Encode(p.val));
    DecodeEncode(p.key);
    DecodeEncode(p.val);
  }

  /** The components of `a` are those of a longer text that goes on with a '&'. */
  lemma {:induction false} CutBefore(a: string, part: string, from: nat)
    requires from <= |a|
    ensures var d, i := a + ("&" + part), Cut(a, '&', from);
            Cut(d, '&', from) == i && d[from..i] == a[from..i]
  {
    var d := a + ("&" + part);
    CutFirst(a, '&', from);
    CutWhere(d, '&', from, Cut(a, '&', from));
  }

  lemma {:induction false} LastComponent(d: string, part: string, at: nat)
    requires at <= |d| && d[at..] == part && forall k :: 0 <= k < |part| ==> part[k] != '&'
    ensures Components(d, at) == [part]
  {
    forall k | at <= k < |d| ensures d[k] != '&' {
      assert d[k] == part[k - at];
    }
    CutWhere(d, '&', at, |d|);
    assert d[at..|d|] == d[at..];
  }

  /** One more component at the end of a form. */
  lemma {:induction false} ComponentsMore(a: string, part: string, from: nat)
    requires from <= |a| && forall k :: 0 <= k < |part| ==> part[k] != '&'
    ensures Components(a + ("&" + part), from) == Components(a, from) + [part]
    decreases |a| - from
  {
    var i := Cut(a, '&', from);
    CutBefore(a, part, from);
    if i < |a| {
      ComponentsMore(a, part, i + 1);
    } else {
      LastComponent(a + ("&" + part), part, |a| + 1);
    }
  }

  lemma {:induction false} DecodeOneMore(es: Entries, parts: seq<string>, part: string)
    ensures var before := DecodeAll(es, parts);
            DecodeAll(es, parts + [part]) == if before.None? then None else InsertDecoded(before.value, part)
    decreases parts
  {
    if parts == [] {
      assert [part][1..] == [];
    } else {
      var more := InsertDecoded(es, parts[0]);
      assert (parts + [part])[1..] == parts[1..] + [part];
      if more.Some? {
        DecodeOneMore(more.value, parts[1..], part);
      }
    }
  }

  lemma {:induction false} FormOfOne(p: Pair)
    requires IsByteString(p.key) && IsByteString(p.val)
    ensures Form(Nil, EncodePair(p), 0) == Some(Add(p, Nil))
  {
    var part := EncodePair(p);
    EncodedPair(p);
    CutWhere(part, '&', 0, |part|);
    assert part[0..|part|] == part;
  }

  lemma {:induction false} FormOfMore(es: Entries, a: string, p: Pair)
    requires Form(Nil, a, 0) == Some(es) && IsByteString(p.key) && IsByteString(p.val)
    ensures Form(Nil, a + "&" + EncodePair(p), 0) == Some(Add(p, es))
  {
    var part := EncodePair(p);
    EncodedPair(p);
    assert a + "&" + part == a + ("&" + part);
    FormIs(Nil, a, 0);
    FormIs(Nil, a + ("&" + part), 0);
    ComponentsMore(a, part, 0);
    DecodeOneMore(Nil, Components(a, 0), part);
  }

  /**
   * Form round trip: any entries, empty keys, empty values and duplicates included, encoded and joined,
   * are what parse_formdata gives back.
   */
  lemma {:induction false} FormRoundTrip(es: Entries)
    requires ByteStrings(es)
    ensures Form(Nil, EncodeForm(es), 0) == Some(es)
  {
    match es
    case Nil =>
      assert ""[0..0] == "";
    case Add(last, earlier) =>
      if earlier.Nil? {
        FormOfOne(last);
      } else {
        FormRoundTrip(earlier);
        FormOfMore(earlier, EncodeForm(earlier), last);
      }
  }
}

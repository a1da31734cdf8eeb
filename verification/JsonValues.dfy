/** JSON values, and objects as maps kept in the unsigned byte order of their keys (std::map<std::string, value>). */
module JsonValues {
  import opened Outcomes
  import opened JsonNumbers

  datatype Value =
    | Null
    | Bool(b: bool)
    | Int(i: int64)
    | Double(bits: bits64)
    | Str(s: string)
    | Arr(items: seq<Value>)
    | Obj(fields: seq<Field>)

  datatype Field = Field(key: string, val: Value)

  type Object = seq<Field>

  /** std::string's operator<. */
  predicate Less(a: string, b: string) {
    b != "" && (a == "" || a[0] < b[0] || (a[0] == b[0] && Less(a[1..], b[1..])))
  }

  ghost predicate Sorted(o: Object) {
    forall i, j :: 0 <= i < j < |o| ==> Less(o[i].key, o[j].key)
  }

  /** o[f.key] = f.val */
  function Put(o: Object, f: Field): Object {
    if o == [] || Less(f.key, o[0].key) then [f] + o
    else if f.key == o[0].key then [f] + o[1..]
    else [o[0]] + Put(o[1..], f)
  }

  function PutAll(o: Object, fs: seq<Field>): Object
    decreases |fs|
  {
    if fs == [] then o else PutAll(Put(o, fs[0]), fs[1..])
  }

  function Lookup(o: Object, key: string): Option<Value> {
    if o == [] then None
    else if o[0].key == key then Some(o[0].val)
    else Lookup(o[1..], key)
  }

  /** What every value built by the library satisfies: the keys of each object are in order and distinct. */
  ghost predicate WellFormed(v: Value) {
    match v
    case Arr(items) => forall x <- items :: WellFormed(x)
    case Obj(fields) => Sorted(fields) && forall f <- fields :: WellFormed(f.val)
    case _ => true
  }

  ghost predicate DoubleFree(v: Value) {
    match v
    case Double(_) => false
    case Arr(items) => forall x <- items :: DoubleFree(x)
    case Obj(fields) => forall f <- fields :: DoubleFree(f.val)
    case _ => true
  }

  // The order of keys

  lemma {:induction false} LessTotal(a: string, b: string)
    ensures !(Less(a, b) && Less(b, a)) && !Less(a, a)
    ensures a == b || Less(a, b) || Less(b, a)
  {
    if a != "" {
      LessTotal(a[1..], if b == "" then b else b[1..]);
      if b != "" && a[0] == b[0] && a[1..] == b[1..] {
        assert a == [a[0]] + a[1..] && b == [b[0]] + b[1..];
      }
    }
  }

  /** The first k bytes agree, and there `a` ends or has the smaller byte. */
  ghost predicate Precedes(a: string, b: string, k: nat) {
    k <= |a| && k < |b| && a[..k] == b[..k] && (k == |a| || a[k] < b[k])
  }

  lemma {:induction false} SameFirst(a: string, b: string, k: nat)
    requires Precedes(a, b, k)
    ensures k > 0 ==> a[0] == b[0]
  {
    if k > 0 {
      assert a[..k][0] == b[..k][0];
    }
  }

  /** The order of keys is the lexicographic order of unsigned bytes. */
  lemma {:induction false} LessExactly(a: string, b: string)
    ensures Less(a, b) <==> exists k: nat :: Precedes(a, b, k)
  {
    if b != "" && (a == "" || a[0] < b[0]) {
      assert Precedes(a, b, 0);
    } else if a != "" && b != "" && a[0] == b[0] {
      LessExactly(a[1..], b[1..]);
      forall k: nat | Precedes(a[1..], b[1..], k) ensures Precedes(a, b, k + 1) {
        assert a[..k + 1] == [a[0]] + a[1..][..k] && b[..k + 1] == [b[0]] + b[1..][..k];
      }
      forall k: nat | Precedes(a, b, k) ensures k > 0 && Precedes(a[1..], b[1..], k - 1) {
        assert a[1..][..k - 1] == a[..k][1..] && b[1..][..k - 1] == b[..k][1..];
      }
    } else {
      forall k: nat | Precedes(a, b, k) ensures false {
        SameFirst(a, b, k);
      }
    }
  }

  lemma {:induction false} LessTransitive(a: string, b: string, c: string)
    requires Less(a, b) && Less(b, c)
    ensures Less(a, c)
  {
    if a != "" && a[0] == b[0] && b[0] == c[0] {
      LessTransitive(a[1..], b[1..], c[1..]);
    }
  }

  // Objects are maps

  lemma {:induction false} PutKeepsKeys(o: Object, f: Field)
    ensures forall g <- Put(o, f) :: g == f || g in o
    ensures f in Put(o, f)
  {
    if !(o == [] || Less(f.key, o[0].key) || f.key == o[0].key) {
      PutKeepsKeys(o[1..], f);
    }
  }

  lemma {:induction false} SortedCons(f: Field, o: Object)
    requires Sorted(o) && (o == [] || Less(f.key, o[0].key))
    ensures Sorted([f] + o)
  {
    var p := [f] + o;
    forall i, j | 0 <= i < j < |p| ensures Less(p[i].key, p[j].key) {
      if i == 0 && j > 1 {
        LessTransitive(f.key, o[0].key, o[j - 1].key);
      }
    }
  }

  /** An assignment keeps the order of the keys. */
  lemma {:induction false} PutSorted(o: Object, f: Field)
    requires Sorted(o)
    ensures Sorted(Put(o, f))
  {
    if o == [] || Less(f.key, o[0].key) {
      SortedCons(f, o);
    } else if f.key != o[0].key {
      LessTotal(f.key, o[0].key);
      PutSorted(o[1..], f);
      PutKeepsKeys(o[1..], f);
      var p := Put(o[1..], f);
      assert p[0] in p;
      SortedCons(o[0], p);
    }
  }

  /** An assignment changes the value of its own key and no other. */
  lemma {:induction false} PutLookup(o: Object, f: Field, key: string)
    ensures Lookup(Put(o, f), key) == if key == f.key then Some(f.val) else Lookup(o, key)
  {
    if o == [] || Less(f.key, o[0].key) {
      assert ([f] + o)[1..] == o;
    } else if f.key == o[0].key {
      assert ([f] + o[1..])[1..] == o[1..];
    } else {
      PutLookup(o[1..], f, key);
      assert ([o[0]] + Put(o[1..], f))[1..] == Put(o[1..], f);
    }
  }

  lemma {:induction false} PutAllLeaves(o: Object, fs: seq<Field>, key: string)
    requires forall f <- fs :: f.key != key
    ensures Lookup(PutAll(o, fs), key) == Lookup(o, key)
    decreases |fs|
  {
    if fs != [] {
      PutLookup(o, fs[0], key);
      PutAllLeaves(Put(o, fs[0]), fs[1..], key);
    }
  }

  /** Assigning a list of fields in turn: the last field with a key decides. */
  lemma {:induction false} PutAllLookup(o: Object, before: seq<Field>, f: Field, after: seq<Field>)
    requires forall g <- after :: g.key != f.key
    ensures Lookup(PutAll(o, before + [f] + after), f.key) == Some(f.val)
    decreases |before|
  {
    var fs := before + [f] + after;
    if before == [] {
      assert fs[0] == f && fs[1..] == after;
      PutLookup(o, f, f.key);
      PutAllLeaves(Put(o, f), after, f.key);
    } else {
      assert fs[1..] == before[1..] + [f] + after;
      PutAllLookup(Put(o, before[0]), before[1..], f, after);
    }
  }

  lemma {:induction false} PutAllSorted(o: Object, fs: seq<Field>)
    requires Sorted(o)
    ensures Sorted(PutAll(o, fs))
    ensures forall g <- PutAll(o, fs) :: g in o || g in fs
    decreases |fs|
  {
    if fs != [] {
      PutSorted(o, fs[0]);
      PutKeepsKeys(o, fs[0]);
      PutAllSorted(Put(o, fs[0]), fs[1..]);
    }
  }

  lemma {:induction false} PutLast(o: Object, f: Field)
    requires forall g <- o :: Less(g.key, f.key)
    ensures Put(o, f) == o + [f]
  {
    if o != [] {
      LessTotal(o[0].key, f.key);
      PutLast(o[1..], f);
      assert [o[0]] + (o[1..] + [f]) == o + [f];
    }
  }

  /** Inserting the fields of a map in their order rebuilds the map. */
  lemma {:induction false} PutAllInOrder(o: Object, fs: seq<Field>)
    requires Sorted(o + fs)
    ensures PutAll(o, fs) == o + fs
    decreases |fs|
  {
    if fs == [] {
      assert o + fs == o;
    } else {
      forall g | g in o ensures Less(g.key, fs[0].key) {
        var i :| 0 <= i < |o| && o[i] == g;
        assert (o + fs)[i] == g && (o + fs)[|o|] == fs[0];
      }
      PutLast(o, fs[0]);
      assert o + [fs[0]] + fs[1..] == o + fs;
      PutAllInOrder(o + [fs[0]], fs[1..]);
    }
  }
}

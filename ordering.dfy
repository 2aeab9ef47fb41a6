/**
  pandas' `sort_values(by=[...], ascending=[...])` and boolean-mask filtering.
  A row is sorted by a list of key atoms compared left to right; a descending
  column is encoded by negating its number, and a missing value (NaN, NA, NaT)
  is `Missing`, which pandas places last whatever the direction.
 */
module Ordering {
  import opened Wrappers
  import opened Text

  datatype Atom = Num(n: int) | Str(s: string) | Missing

  /** A number or string atom for an optional cell; NaN becomes `Missing`. */
  function NumOr(o: Option<int>): (a: Atom) {
    match o
    case Some(n) => Num(n)
    case None => Missing
  }

  function StrOr(o: Option<string>): (a: Atom) {
    match o
    case Some(s) => Str(s)
    case None => Missing
  }

  predicate AtomLe(a: Atom, b: Atom) {
    match (a, b)
    case (Num(x), Num(y)) => x <= y
    case (Str(x), Str(y)) => StrLe(x, y)
    case (_, Missing) => true
    case (Missing, _) => false
    case (Num(_), Str(_)) => true
    case (Str(_), Num(_)) => false
  }

  /** Lexicographic comparison of sort keys: the first differing column decides. */
  predicate KeyLe(a: seq<Atom>, b: seq<Atom>) {
    if a == [] then true
    else if b == [] then false
    else if a[0] != b[0] then AtomLe(a[0], b[0])
    else KeyLe(a[1..], b[1..])
  }

  lemma AtomLeTotal(a: Atom, b: Atom)
    ensures AtomLe(a, b) || AtomLe(b, a)
  {
    if a.Str? && b.Str? { StrLeTotal(a.s, b.s); }
  }

  lemma AtomLeAntisymmetric(a: Atom, b: Atom)
    requires AtomLe(a, b) && AtomLe(b, a)
    ensures a == b
  {
    if a.Str? && b.Str? { StrLeAntisymmetric(a.s, b.s); }
  }

  lemma AtomLeTransitive(a: Atom, b: Atom, c: Atom)
    requires AtomLe(a, b) && AtomLe(b, c)
    ensures AtomLe(a, c)
  {
    if a.Str? && b.Str? && c.Str? { StrLeTransitive(a.s, b.s, c.s); }
  }

  lemma {:induction false} KeyLeTotal(a: seq<Atom>, b: seq<Atom>)
    ensures KeyLe(a, b) || KeyLe(b, a)
  {
    if a != [] && b != [] {
      if a[0] != b[0] { AtomLeTotal(a[0], b[0]); } else { KeyLeTotal(a[1..], b[1..]); }
    }
  }

  lemma {:induction false} KeyLeTransitive(a: seq<Atom>, b: seq<Atom>, c: seq<Atom>)
    requires KeyLe(a, b) && KeyLe(b, c)
    ensures KeyLe(a, c)
  {
    if a != [] && b != [] && c != [] {
      if a[0] == b[0] && b[0] == c[0] {
        KeyLeTransitive(a[1..], b[1..], c[1..]);
      } else if a[0] != b[0] && b[0] != c[0] {
        AtomLeTransitive(a[0], b[0], c[0]);
        if a[0] == c[0] { AtomLeAntisymmetric(a[0], b[0]); }
      }
    }
  }

  /** Keys of one atom compare as the atoms do. */
  lemma KeyLe1(a: Atom, b: Atom)
    ensures KeyLe([a], [b]) <==> a == b || AtomLe(a, b)
  {
    assert [a][1..] == [] && [b][1..] == [];
  }

  lemma {:induction false} KeyLeReflexive(a: seq<Atom>)
    ensures KeyLe(a, a)
  {
    if a != [] { KeyLeReflexive(a[1..]); }
  }

  /** A sorted sequence keeps every earlier row at or below every later row, read off at two indices. */
  lemma SortedAt<T>(s: seq<T>, key: T -> seq<Atom>, i: int, j: int)
    requires SortedBy(s, key) && 0 <= i <= j < |s|
    ensures KeyLe(key(s[i]), key(s[j]))
  {
    if i == j { KeyLeReflexive(key(s[i])); }
  }

  /** Keys of two atoms: the first atom decides unless the two agree on it. */
  lemma KeyLe2(a0: Atom, a1: Atom, b0: Atom, b1: Atom)
    ensures KeyLe([a0, a1], [b0, b1]) <==> (a0 != b0 && AtomLe(a0, b0)) || (a0 == b0 && (a1 == b1 || AtomLe(a1, b1)))
  {
    assert [a0, a1][1..] == [a1];
    assert [b0, b1][1..] == [b1];
    assert KeyLe([a1], [b1]) == (a1 == b1 || AtomLe(a1, b1)) by {
      assert [a1][1..] == [] && [b1][1..] == [];
    }
  }

  lemma KeyLe3(a0: Atom, a1: Atom, a2: Atom, b0: Atom, b1: Atom, b2: Atom)
    ensures KeyLe([a0, a1, a2], [b0, b1, b2]) <==>
      (a0 != b0 && AtomLe(a0, b0)) || (a0 == b0 && KeyLe([a1, a2], [b1, b2]))
  {
    assert [a0, a1, a2][1..] == [a1, a2];
    assert [b0, b1, b2][1..] == [b1, b2];
  }

  /** Every earlier row's key is at most every later row's key. */
  ghost predicate SortedBy<T>(s: seq<T>, key: T -> seq<Atom>) {
    forall i, j :: 0 <= i < j < |s| ==> KeyLe(key(s[i]), key(s[j]))
  }

  /** In a sorted sequence the first row is at or below every later one. */
  lemma HeadBelow<T>(s: seq<T>, key: T -> seq<Atom>, x: T)
    requires SortedBy(s, key) && s != [] && x in s[1..]
    ensures KeyLe(key(s[0]), key(x))
  {
    var k :| 0 <= k < |s[1..]| && s[1..][k] == x;
    assert s[k + 1] == x;
  }

  /** A row at or below every row of a sorted sequence may be put in front of it. */
  lemma SortedCons<T>(x: T, t: seq<T>, key: T -> seq<Atom>)
    requires SortedBy(t, key)
    requires forall y :: y in t ==> KeyLe(key(x), key(y))
    ensures SortedBy([x] + t, key)
  {
    var r := [x] + t;
    forall i, j | 0 <= i < j < |r| ensures KeyLe(key(r[i]), key(r[j])) {
      assert r[j] == t[j - 1];
      if i > 0 {
        assert r[i] == t[i - 1];
      } else {
        assert t[j - 1] in t;
      }
    }
  }

  function Insert<T>(x: T, s: seq<T>, key: T -> seq<Atom>): (r: seq<T>)
    ensures multiset(r) == multiset(s) + multiset{x}
  {
    if s == [] || KeyLe(key(x), key(s[0])) then [x] + s
    else
      assert s == [s[0]] + s[1..];
      [s[0]] + Insert(x, s[1..], key)
  }

  /** A row at or below the head of a sorted sequence is at or below all of it. */
  lemma BelowHead<T>(x: T, s: seq<T>, key: T -> seq<Atom>)
    requires SortedBy(s, key) && s != [] && KeyLe(key(x), key(s[0]))
    ensures forall y :: y in s ==> KeyLe(key(x), key(y))
  {
    forall y | y in s ensures KeyLe(key(x), key(y)) {
      if y != s[0] {
        assert y in s[1..] by { assert s == [s[0]] + s[1..]; }
        HeadBelow(s, key, y);
        KeyLeTransitive(key(x), key(s[0]), key(y));
      }
    }
  }

  /** When `x` goes after the head, the head stays at or below everything behind it. */
  lemma HeadBelowInsert<T>(x: T, s: seq<T>, key: T -> seq<Atom>)
    requires SortedBy(s, key) && s != [] && KeyLe(key(s[0]), key(x))
    ensures forall y :: y in Insert(x, s[1..], key) ==> KeyLe(key(s[0]), key(y))
  {
    var t := Insert(x, s[1..], key);
    forall y | y in t ensures KeyLe(key(s[0]), key(y)) {
      assert y in multiset(t);
      if y != x {
        assert y in multiset(s[1..]);
        HeadBelow(s, key, y);
      }
    }
  }

  lemma {:induction false} InsertSorted<T>(x: T, s: seq<T>, key: T -> seq<Atom>)
    requires SortedBy(s, key)
    ensures SortedBy(Insert(x, s, key), key)
  {
    if s == [] {
    } else if KeyLe(key(x), key(s[0])) {
      BelowHead(x, s, key);
      SortedCons(x, s, key);
    } else {
      var rest := s[1..];
      assert SortedBy(rest, key) by {
        forall i, j | 0 <= i < j < |rest| ensures KeyLe(key(rest[i]), key(rest[j])) {
          assert rest[i] == s[i + 1] && rest[j] == s[j + 1];
        }
      }
      InsertSorted(x, rest, key);
      KeyLeTotal(key(x), key(s[0]));
      HeadBelowInsert(x, s, key);
      SortedCons(s[0], Insert(x, rest, key), key);
    }
  }

  /** `sort_values`: a permutation of the rows, in key order. */
  function SortBy<T>(s: seq<T>, key: T -> seq<Atom>): (r: seq<T>)
    ensures multiset(r) == multiset(s)
    ensures |r| == |s|
  {
    if s == [] then []
    else
      assert s == [s[0]] + s[1..];
      Insert(s[0], SortBy(s[1..], key), key)
  }

  lemma {:induction false} SortBySorted<T>(s: seq<T>, key: T -> seq<Atom>)
    ensures SortedBy(SortBy(s, key), key)
  {
    if s != [] {
      SortBySorted(s[1..], key);
      InsertSorted(s[0], SortBy(s[1..], key), key);
    }
  }

  /** The mask selecting the rows whose key is `k`. */
  function KeyIs<T>(key: T -> seq<Atom>, k: seq<Atom>): (p: T -> bool) {
    y => key(y) == k
  }

  /** Inserting a row puts it before every row of the same key and leaves their order alone. */
  lemma {:induction false} InsertEqualKeys<T(!new)>(x: T, s: seq<T>, key: T -> seq<Atom>, k: seq<Atom>)
    ensures Filter(Insert(x, s, key), KeyIs(key, k)) == (if key(x) == k then [x] else []) + Filter(s, KeyIs(key, k))
  {
    var p := KeyIs(key, k);
    if s == [] || KeyLe(key(x), key(s[0])) {
      FilterCons(x, s, p);
    } else {
      var t := Insert(x, s[1..], key);
      assert Insert(x, s, key) == [s[0]] + t;
      KeyLeReflexive(key(x));
      InsertEqualKeys(x, s[1..], key, k);
      FilterCons(s[0], t, p);
      FilterCons(s[0], s[1..], p);
      assert [s[0]] + s[1..] == s;
    }
  }

  /** The sort is stable: the rows of any one key keep their input order. */
  lemma {:induction false} SortByStable<T(!new)>(s: seq<T>, key: T -> seq<Atom>, k: seq<Atom>)
    ensures Filter(SortBy(s, key), KeyIs(key, k)) == Filter(s, KeyIs(key, k))
  {
    if s != [] {
      SortByStable(s[1..], key, k);
      InsertEqualKeys(s[0], SortBy(s[1..], key), key, k);
      FilterCons(s[0], s[1..], KeyIs(key, k));
      assert [s[0]] + s[1..] == s;
    }
  }

  /** Sorting neither adds nor drops a row. */
  lemma SortByMembers<T>(s: seq<T>, key: T -> seq<Atom>)
    ensures forall x :: x in SortBy(s, key) <==> x in s
  {
    var r := SortBy(s, key);
    forall x ensures x in r <==> x in s {
      assert x in r <==> x in multiset(r);
      assert x in s <==> x in multiset(s);
    }
  }

  /** Boolean-mask selection `df[mask]`: the rows satisfying `p`, in their order. */
  function Filter<T(!new)>(s: seq<T>, p: T -> bool): (r: seq<T>)
    ensures |r| <= |s|
    ensures forall x :: x in r <==> x in s && p(x)
  {
    if s == [] then []
    else
      assert s == [s[0]] + s[1..];
      (if p(s[0]) then [s[0]] else []) + Filter(s[1..], p)
  }

  lemma FilterCons<T(!new)>(x: T, s: seq<T>, p: T -> bool)
    ensures Filter([x] + s, p) == (if p(x) then [x] else []) + Filter(s, p)
  {
    assert ([x] + s)[0] == x && ([x] + s)[1..] == s;
  }

  /** The first row a mask selects is the first accepted row of the table. */
  lemma {:induction false} FilterFirst<T(!new)>(s: seq<T>, p: T -> bool, i: int)
    requires 0 <= i < |s| && p(s[i]) && forall j :: 0 <= j < i ==> !p(s[j])
    ensures Filter(s, p) != [] && Filter(s, p)[0] == s[i]
  {
    if i > 0 {
      FilterFirst(s[1..], p, i - 1);
    }
  }

  /** A nonempty selection starts at an accepted row with no accepted row before it. */
  lemma {:induction false} FilterHead<T(!new)>(s: seq<T>, p: T -> bool) returns (i: int)
    requires Filter(s, p) != []
    ensures 0 <= i < |s| && s[i] == Filter(s, p)[0] && p(s[i]) && forall j :: 0 <= j < i ==> !p(s[j])
  {
    if p(s[0]) {
      i := 0;
    } else {
      var i' := FilterHead(s[1..], p);
      i := i' + 1;
    }
  }

  /** A mask that accepts every row selects the whole table, in order. */
  lemma {:induction false} FilterAll<T(!new)>(s: seq<T>, p: T -> bool)
    requires forall i :: 0 <= i < |s| ==> p(s[i])
    ensures Filter(s, p) == s
  {
    if s != [] {
      FilterAll(s[1..], p);
      assert s == [s[0]] + s[1..];
    }
  }

  /** A mask keeps exactly the multiplicity of every row it accepts. */
  lemma {:induction false} FilterCount<T(!new)>(s: seq<T>, p: T -> bool, x: T)
    ensures multiset(Filter(s, p))[x] == if p(x) then multiset(s)[x] else 0
  {
    if s != [] {
      FilterCount(s[1..], p, x);
      assert s == [s[0]] + s[1..];
    }
  }
}

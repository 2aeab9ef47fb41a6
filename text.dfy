/**
  The string operations the dashboard applies to headers and cells:
  Python's `str.strip()`, `str.lower()`, `str.replace(" ", "_")`, and
  Python's ordering of strings (code point by code point).
 */
module Text {

  /** Python's `str.isspace()` on the ASCII range: space, \t \n \v \f \r and the separators 0x1C-0x1F. */
  predicate IsSpace(c: char) {
    c == ' ' || (9 <= c as int <= 13) || (28 <= c as int <= 31)
  }

  predicate IsUpper(c: char) {
    'A' <= c <= 'Z'
  }

  /** Drops the leading whitespace. */
  function TrimLeft(s: string): (r: string)
    ensures |r| <= |s| && r == s[|s| - |r|..]
    ensures forall k :: 0 <= k < |s| - |r| ==> IsSpace(s[k])
    ensures r != [] ==> !IsSpace(r[0])
  {
    if s != [] && IsSpace(s[0]) then TrimLeft(s[1..]) else s
  }

  /** Drops the trailing whitespace. */
  function TrimRight(s: string): (r: string)
    ensures |r| <= |s| && r == s[..|r|]
    ensures forall k :: |r| <= k < |s| ==> IsSpace(s[k])
    ensures r != [] ==> !IsSpace(r[|r| - 1])
  {
    if s != [] && IsSpace(s[|s| - 1]) then TrimRight(s[..|s| - 1]) else s
  }

  /** `r` is the slice `s[a..b]`, and only whitespace lies outside it. */
  ghost predicate StripsTo(s: string, r: string, a: int, b: int) {
    0 <= a <= b <= |s| && r == s[a..b] &&
    (forall k :: 0 <= k < a ==> IsSpace(s[k])) && (forall k :: b <= k < |s| ==> IsSpace(s[k]))
  }

  /** A prefix of a suffix of `s` is a slice of `s`; whitespace after it in the suffix is whitespace in `s`. */
  lemma {:induction false} PrefixOfSuffix(s: string, a: int, l: string, r: string)
    requires 0 <= a <= |s| && l == s[a..] && |r| <= |l| && r == l[..|r|]
    requires forall k :: |r| <= k < |l| ==> IsSpace(l[k])
    ensures r == s[a..a + |r|]
    ensures forall k :: a + |r| <= k < |s| ==> IsSpace(s[k])
  {
    forall k | a + |r| <= k < |s| ensures IsSpace(s[k]) {
      assert s[k] == l[k - a];
    }
  }

  /** Whitespace cut off the front and then off the back of the rest leaves a slice of `s` with only whitespace around it. */
  lemma {:induction false} StripSlice(s: string, a: int, l: string, r: string)
    requires 0 <= a <= |s| && l == s[a..] && (l != [] ==> !IsSpace(l[0]))
    requires forall k :: 0 <= k < a ==> IsSpace(s[k])
    requires |r| <= |l| && r == l[..|r|]
    requires forall k :: |r| <= k < |l| ==> IsSpace(l[k])
    ensures StripsTo(s, r, a, a + |r|)
    ensures r == [] <==> forall k :: 0 <= k < |s| ==> IsSpace(s[k])
  {
    PrefixOfSuffix(s, a, l, r);
    if r != [] {
      assert s[a] == r[0] == l[0];
    }
  }

  /** `str.strip()`: whitespace removed from both ends, the middle kept. */
  function Trim(s: string): (r: string)
    ensures r != [] ==> !IsSpace(r[0]) && !IsSpace(r[|r| - 1])
    ensures r == [] <==> forall k :: 0 <= k < |s| ==> IsSpace(s[k])
    ensures exists a, b :: StripsTo(s, r, a, b)
  {
    var l := TrimLeft(s);
    var r := TrimRight(l);
    StripSlice(s, |s| - |l|, l, r);
    r
  }

  function LowerChar(c: char): (d: char)
    ensures IsUpper(c) ==> d as int == c as int + 32
    ensures !IsUpper(d)
    ensures IsSpace(d) == IsSpace(c)
    ensures !IsUpper(c) ==> d == c
  {
    if IsUpper(c) then (c as int + 32) as char else c
  }

  /** `str.lower()` on ASCII letters. */
  function Lower(s: string): (r: string)
    ensures |r| == |s|
    ensures forall k :: 0 <= k < |r| ==> !IsUpper(r[k]) && IsSpace(r[k]) == IsSpace(s[k])
    ensures forall k :: 0 <= k < |r| ==> r[k] == LowerChar(s[k])
  {
    seq(|s|, k requires 0 <= k < |s| => LowerChar(s[k]))
  }

  /** `str.replace(" ", "_")`. */
  function Underscore(s: string): (r: string)
    ensures |r| == |s|
    ensures forall k :: 0 <= k < |r| ==> r[k] != ' '
    ensures forall k :: 0 <= k < |r| ==> (s[k] == ' ' ==> r[k] == '_') && (s[k] != ' ' ==> r[k] == s[k])
  {
    seq(|s|, k requires 0 <= k < |s| => if s[k] == ' ' then '_' else s[k])
  }

  /** `.str.strip().str.lower()`: the form in which cells are compared with fixed words. */
  function Squash(s: string): (r: string) {
    Lower(Trim(s))
  }

  /** The canonical header: trimmed, lower-cased, spaces replaced by `_`. */
  function NormLabel(s: string): (r: string) {
    Underscore(Squash(s))
  }

  /** No whitespace at either end: what `str.strip()` leaves. */
  predicate Trimmed(s: string) {
    s != [] ==> !IsSpace(s[0]) && !IsSpace(s[|s| - 1])
  }

  lemma TrimOfTrimmed(s: string)
    requires Trimmed(s)
    ensures Trim(s) == s
  {
  }

  lemma LowerOfLower(s: string)
    requires forall k :: 0 <= k < |s| ==> !IsUpper(s[k])
    ensures Lower(s) == s
  {
  }

  /** Lower-casing keeps a trimmed text trimmed. */
  lemma LowerTrimmed(s: string)
    requires Trimmed(s)
    ensures Trimmed(Lower(s))
  {
    var t := Lower(s);
    if t != [] {
      assert IsSpace(t[0]) == IsSpace(s[0]);
      assert IsSpace(t[|t| - 1]) == IsSpace(s[|s| - 1]);
    }
  }

  /** Replacing spaces by `_` keeps a trimmed text trimmed. */
  lemma UnderscoreTrimmed(s: string)
    requires Trimmed(s)
    ensures Trimmed(Underscore(s))
  {
  }

  /** What `Squash` leaves: trimmed and without capital letters. */
  predicate Squashed(s: string) {
    Trimmed(s) && forall k :: 0 <= k < |s| ==> !IsUpper(s[k])
  }

  lemma SquashIsSquashed(s: string)
    ensures Squashed(Squash(s))
  {
    LowerTrimmed(Trim(s));
  }

  lemma SquashOfSquashed(s: string)
    requires Squashed(s)
    ensures Squash(s) == s
  {
    TrimOfTrimmed(s);
    LowerOfLower(s);
  }

  /** A squashed cell squashes to itself. */
  lemma SquashIdempotent(s: string)
    ensures Squash(Squash(s)) == Squash(s)
  {
    SquashIsSquashed(s);
    SquashOfSquashed(Squash(s));
  }

  /** Replacing spaces by `_` introduces no capital letter. */
  lemma UnderscoreNoUpper(s: string)
    requires forall k :: 0 <= k < |s| ==> !IsUpper(s[k])
    ensures forall k :: 0 <= k < |s| ==> !IsUpper(Underscore(s)[k])
  {
  }

  /** A text without spaces is its own `replace(" ", "_")`. */
  lemma UnderscoreOfSpaceless(s: string)
    requires forall k :: 0 <= k < |s| ==> s[k] != ' '
    ensures Underscore(s) == s
  {
  }

  /** What `NormLabel` leaves: trimmed, without capital letters or spaces. */
  predicate Normalised(s: string) {
    Squashed(s) && forall k :: 0 <= k < |s| ==> s[k] != ' '
  }

  lemma NormLabelIsNormalised(s: string)
    ensures Normalised(NormLabel(s))
  {
    SquashIsSquashed(s);
    UnderscoreTrimmed(Squash(s));
    UnderscoreNoUpper(Squash(s));
  }

  lemma NormLabelOfNormalised(s: string)
    requires Normalised(s)
    ensures NormLabel(s) == s
  {
    SquashOfSquashed(s);
    UnderscoreOfSpaceless(s);
  }

  /** Normalising a header twice gives the same header as normalising it once. */
  lemma NormLabelIdempotent(s: string)
    ensures NormLabel(NormLabel(s)) == NormLabel(s)
  {
    NormLabelIsNormalised(s);
    NormLabelOfNormalised(NormLabel(s));
  }

  /** A normalised header never contains a space. */
  lemma NormLabelHasNoSpace(s: string)
    ensures ' ' !in NormLabel(s)
  {
  }

  /** Python's `a <= b` on strings: lexicographic by code point. */
  predicate StrLe(a: string, b: string) {
    if a == [] then true
    else if b == [] then false
    else if a[0] != b[0] then a[0] < b[0]
    else StrLe(a[1..], b[1..])
  }

  lemma {:induction false} StrLeTotal(a: string, b: string)
    ensures StrLe(a, b) || StrLe(b, a)
  {
    if a != [] && b != [] && a[0] == b[0] {
      StrLeTotal(a[1..], b[1..]);
    }
  }

  lemma {:induction false} StrLeAntisymmetric(a: string, b: string)
    requires StrLe(a, b) && StrLe(b, a)
    ensures a == b
  {
    if a != [] && b != [] {
      StrLeAntisymmetric(a[1..], b[1..]);
      assert a == [a[0]] + a[1..];
      assert b == [b[0]] + b[1..];
    }
  }

  lemma {:induction false} StrLeTransitive(a: string, b: string, c: string)
    requires StrLe(a, b) && StrLe(b, c)
    ensures StrLe(a, c)
  {
    if a != [] && b != [] && c != [] && a[0] == b[0] && b[0] == c[0] {
      StrLeTransitive(a[1..], b[1..], c[1..]);
    }
  }
}

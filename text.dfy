/**
 * The pieces of Go's `unicode` and `strings` packages that the crawler and the
 * search command rely on: character classes, `strings.Fields`,
 * `strings.TrimSpace`, `strings.HasPrefix`/`HasSuffix`, `strings.ToLower` and
 * the byte-wise string order used by `sort.Strings`.
 *
 * A Go string is modelled as the sequence of code points that `range` yields.
 */
module Text {

  /** `unicode.IsPunct` on Latin-1: the code points of the Unicode P categories,
      which are the ASCII characters ! " # % & ' ( ) * , - . / : ; ? @ [ \ ] _ { }
      and seven Latin-1 marks. The ASCII symbols $ + < = > ^ ` | ~ belong to
      the S categories and are therefore NOT punctuation for Go. */
  predicate IsPunct(c: char) {
    ('!' <= c <= '#') || ('%' <= c <= '*') || (',' <= c <= '/') || (':' <= c <= ';') ||
    ('?' <= c <= '@') || ('[' <= c <= ']') || c == '_' || c == '{' || c == '}' ||
    c == '\U{A1}' || c == '\U{A7}' || c == '\U{AB}' || c == '\U{B6}' ||
    c == '\U{B7}' || c == '\U{BB}' || c == '\U{BF}'
  }

  /** `unicode.IsSpace`: the Latin-1 white space and the Unicode White_Space
      code points above Latin-1. */
  predicate IsSpace(c: char) {
    ('\t' <= c <= '\r') || c == ' ' || c == '\U{85}' || c == '\U{A0}' ||
    c == '\U{1680}' || ('\U{2000}' <= c <= '\U{200A}') || c == '\U{2028}' ||
    c == '\U{2029}' || c == '\U{202F}' || c == '\U{205F}' || c == '\U{3000}'
  }

  predicate IsUpper(c: char) {
    ('A' <= c <= 'Z') || ('\U{C0}' <= c <= '\U{DE}' && c != '\U{D7}')
  }

  /** `unicode.ToLower` on Latin-1: the upper-case letters move down by 32. */
  function ToLowerChar(c: char): (l: char)
    ensures !IsUpper(l)
    ensures IsPunct(l) == IsPunct(c) && IsSpace(l) == IsSpace(c)
    ensures !IsUpper(c) ==> l == c
  {
    if IsUpper(c) then (c as int + 32) as char else c
  }

  /** `strings.ToLower`. */
  function ToLower(s: string): (r: string)
    ensures |r| == |s|
    ensures forall i :: 0 <= i < |s| ==> r[i] == ToLowerChar(s[i])
  {
    seq(|s|, i requires 0 <= i < |s| => ToLowerChar(s[i]))
  }

  /** A string in which `strings.ToLower` changes nothing. */
  predicate Lowered(s: string) {
    forall c :: c in s ==> !IsUpper(c)
  }

  predicate NoPunct(s: string) {
    forall c :: c in s ==> !IsPunct(c)
  }

  predicate NoSpace(s: string) {
    forall c :: c in s ==> !IsSpace(c)
  }

  lemma ToLowerLowers(s: string)
    ensures Lowered(ToLower(s)) && ToLower(ToLower(s)) == ToLower(s)
    ensures NoSpace(s) ==> NoSpace(ToLower(s))
  {
    forall c | c in ToLower(s) ensures !IsUpper(c) {
      var i :| 0 <= i < |ToLower(s)| && ToLower(s)[i] == c;
    }
    if NoSpace(s) {
      forall c | c in ToLower(s) ensures !IsSpace(c) {
        var i :| 0 <= i < |ToLower(s)| && ToLower(s)[i] == c;
        assert s[i] in s;
      }
    }
  }

  // ---------------------------------------------------------------------------
  // Punctuation stripping (the specification of removePunctuation)

  /** `s` with every punctuation code point deleted, the others kept in order. */
  function StripPunct(s: string): string
  {
    if s == [] then []
    else StripPunct(s[..|s| - 1]) + (if IsPunct(s[|s| - 1]) then [] else [s[|s| - 1]])
  }

  /** Stripping distributes over concatenation, so it acts code point by code
      point and keeps the order of what it keeps. */
  lemma {:induction false} StripPunctAppend(a: string, b: string)
    ensures StripPunct(a + b) == StripPunct(a) + StripPunct(b)
    decreases |b|
  {
    if b == [] {
      assert a + b == a;
    } else {
      var b' := b[..|b| - 1];
      assert (a + b)[..|a + b| - 1] == a + b';
      assert (a + b)[|a + b| - 1] == b[|b| - 1];
      StripPunctAppend(a, b');
    }
  }

  /** What stripping keeps: exactly the non-punctuation code points, each as
      often as in the input. */
  lemma {:induction false} StripPunctCounts(s: string)
    ensures forall c :: multiset(StripPunct(s))[c] == (if IsPunct(c) then 0 else multiset(s)[c])
    decreases |s|
  {
    if s != [] {
      var s' := s[..|s| - 1];
      assert s == s' + [s[|s| - 1]];
      StripPunctCounts(s');
    }
  }

  lemma StripPunctElements(s: string)
    ensures forall c :: c in StripPunct(s) <==> c in s && !IsPunct(c)
  {
    StripPunctCounts(s);
    forall c ensures c in StripPunct(s) <==> c in s && !IsPunct(c) {
      assert c in StripPunct(s) <==> multiset(StripPunct(s))[c] > 0;
      assert c in s <==> multiset(s)[c] > 0;
    }
  }

  /** The result of stripping holds no punctuation, and whatever else held no
      space or upper-case letter still holds none. */
  lemma StripPunctClean(s: string)
    ensures NoPunct(StripPunct(s))
    ensures NoSpace(s) ==> NoSpace(StripPunct(s))
    ensures Lowered(s) ==> Lowered(StripPunct(s))
    ensures |StripPunct(s)| <= |s|
  {
    StripPunctElements(s);
    StripPunctCounts(s);
    assert |multiset(StripPunct(s))| <= |multiset(s)| by {
      assert multiset(StripPunct(s)) <= multiset(s);
    }
  }

  /** A string without punctuation is left as it is. */
  lemma {:induction false} StripPunctOfClean(s: string)
    requires NoPunct(s)
    ensures StripPunct(s) == s
    decreases |s|
  {
    if s != [] {
      var s' := s[..|s| - 1];
      assert s == s' + [s[|s| - 1]];
      assert s[|s| - 1] in s;
      assert NoPunct(s') by {
        forall c | c in s' ensures !IsPunct(c) { assert c in s; }
      }
      StripPunctOfClean(s');
    }
  }

  /** removePunctuation is idempotent. */
  lemma StripPunctIdempotent(s: string)
    ensures StripPunct(StripPunct(s)) == StripPunct(s)
  {
    StripPunctClean(s);
    StripPunctOfClean(StripPunct(s));
  }

  // ---------------------------------------------------------------------------
  // strings.Fields

  /** Length of the run of non-space code points that starts `s`. */
  function WordLen(s: string): (n: nat)
    ensures n <= |s|
    ensures forall i :: 0 <= i < n ==> !IsSpace(s[i])
    ensures n < |s| ==> IsSpace(s[n])
  {
    if s == [] || IsSpace(s[0]) then 0 else 1 + WordLen(s[1..])
  }

  /** `strings.Fields`: the maximal runs of non-space code points, in order. */
  function Fields(s: string): seq<string>
    decreases |s|
  {
    if s == [] then []
    else if IsSpace(s[0]) then Fields(s[1..])
    else
      var n := WordLen(s);
      [s[..n]] + Fields(s[n..])
  }

  /** Every field is non-empty and holds no white space. */
  lemma {:induction false} FieldsWellFormed(s: string)
    ensures forall w :: w in Fields(s) ==> w != [] && NoSpace(w)
    decreases |s|
  {
    if s == [] {
    } else if IsSpace(s[0]) {
      FieldsWellFormed(s[1..]);
    } else {
      var n := WordLen(s);
      FieldsWellFormed(s[n..]);
      var w := s[..n];
      assert n > 0;
      forall c | c in w ensures !IsSpace(c) {
        var i :| 0 <= i < |w| && w[i] == c;
      }
    }
  }

  /** A non-empty string without white space is a single field; one that is
      empty has none. */
  lemma FieldsOfWord(w: string)
    requires NoSpace(w)
    ensures Fields(w) == if w == [] then [] else [w]
  {
    if w != [] {
      assert forall i :: 0 <= i < |w| ==> w[i] in w;
      var n := WordLen(w);
      assert w[..n] == w;
    }
  }

  // ---------------------------------------------------------------------------
  // strings.TrimSpace, strings.HasPrefix, strings.HasSuffix

  function TrimLeft(s: string): (r: string)
    ensures |r| <= |s| && r == s[|s| - |r|..]
    ensures r == [] || !IsSpace(r[0])
    ensures forall i :: 0 <= i < |s| - |r| ==> IsSpace(s[i])
  {
    if s != [] && IsSpace(s[0]) then TrimLeft(s[1..]) else s
  }

  function TrimRight(s: string): (r: string)
    ensures |r| <= |s| && r == s[..|r|]
    ensures r == [] || !IsSpace(r[|r| - 1])
    ensures forall i :: |r| <= i < |s| ==> IsSpace(s[i])
  {
    if s != [] && IsSpace(s[|s| - 1]) then TrimRight(s[..|s| - 1]) else s
  }

  /** `strings.TrimSpace`: the slice of `s` between its leading and trailing
      white space. */
  function TrimSpace(s: string): string
  {
    TrimRight(TrimLeft(s))
  }

  /** A list of strings without repetitions. */
  predicate Distinct(s: seq<string>) {
    forall i, j :: 0 <= i < j < |s| ==> s[i] != s[j]
  }

  predicate HasPrefix(s: string, p: string) {
    |p| <= |s| && s[..|p|] == p
  }

  predicate HasSuffix(s: string, x: string) {
    |x| <= |s| && s[|s| - |x|..] == x
  }

  // ---------------------------------------------------------------------------
  // The order of sort.Strings

  /** Go compares strings byte-wise; on well-formed UTF-8 that is the
      lexicographic order of the code points. */
  predicate Less(a: string, b: string)
    decreases |a|
  {
    if a == [] then b != []
    else if b == [] then false
    else a[0] < b[0] || (a[0] == b[0] && Less(a[1..], b[1..]))
  }

  lemma {:induction false} LessIrreflexive(a: string)
    ensures !Less(a, a)
    decreases |a|
  {
    if a != [] {
      LessIrreflexive(a[1..]);
    }
  }

  lemma {:induction false} LessTransitive(a: string, b: string, c: string)
    requires Less(a, b) && Less(b, c)
    ensures Less(a, c)
    decreases |a|
  {
    if a != [] && b != [] && c != [] && a[0] == b[0] == c[0] {
      LessTransitive(a[1..], b[1..], c[1..]);
    }
  }

  lemma {:induction false} LessTotal(a: string, b: string)
    ensures a == b || Less(a, b) || Less(b, a)
    decreases |a|
  {
    if a != [] && b != [] && a[0] == b[0] {
      LessTotal(a[1..], b[1..]);
      if a[1..] == b[1..] {
        assert a == [a[0]] + a[1..] && b == [b[0]] + b[1..];
      }
    }
  }

  lemma LessAsymmetric(a: string, b: string)
    requires Less(a, b)
    ensures !Less(b, a)
  {
    if Less(b, a) {
      LessTransitive(a, b, a);
      LessIrreflexive(a);
    }
  }
}

/** Strings as the program sees them: sequences of UTF-16 code units. */
module JsText {

  type CodeUnit = u: int | 0 <= u < 0x1_0000

  type Text = seq<CodeUnit>

  const TAB: CodeUnit := 0x09
  const NEWLINE: CodeUnit := 0x0A
  const SPACE: CodeUnit := 0x20
  const NBSP: CodeUnit := 0xA0

  /** The class `\s`: white space and line terminators of ECMA-262. `trim` strips the same set. */
  predicate IsSpace(c: CodeUnit) {
    || 0x09 <= c <= 0x0D || c == SPACE || c == NBSP || c == 0x1680 || 0x2000 <= c <= 0x200A
    || c == 0x2028 || c == 0x2029 || c == 0x202F || c == 0x205F || c == 0x3000 || c == 0xFEFF
  }

  /** The 25 code units of the class, one by one. */
  lemma SpacesAre(c: CodeUnit)
    ensures IsSpace(c) <==> c in {
      0x9, 0xA, 0xB, 0xC, 0xD, 0x20, 0xA0, 0x1680, 0x2000, 0x2001, 0x2002, 0x2003, 0x2004, 0x2005, 0x2006, 0x2007,
      0x2008, 0x2009, 0x200A, 0x2028, 0x2029, 0x202F, 0x205F, 0x3000, 0xFEFF}
  {
  }

  lemma SpaceIsSpace()
    ensures IsSpace(SPACE) && IsSpace(NEWLINE)
  {
  }

  /** The line terminators of ECMA-262, the units `.` does not match. */
  predicate IsLineTerminator(c: CodeUnit) {
    c == 0x0A || c == 0x0D || c == 0x2028 || c == 0x2029
  }

  /** The first position from `i` on that holds no white space, or the end. */
  function SkipFrom(s: Text, i: nat): (j: nat)
    requires i <= |s|
    ensures i <= j <= |s|
    ensures forall k :: i <= k < j ==> IsSpace(s[k])
    ensures j < |s| ==> !IsSpace(s[j])
    decreases |s| - i
  {
    if i < |s| && IsSpace(s[i]) then SkipFrom(s, i + 1) else i
  }

  lemma {:induction false} SkipIsFirst(s: Text, i: nat, j: nat)
    requires i <= j <= |s| && (forall k :: i <= k < j ==> IsSpace(s[k])) && (j < |s| ==> !IsSpace(s[j]))
    ensures SkipFrom(s, i) == j
    decreases j - i
  {
    if i < j { SkipIsFirst(s, i + 1, j); }
  }

  function TrimEnd(s: Text): Text {
    if s != [] && IsSpace(s[|s| - 1]) then TrimEnd(s[..|s| - 1]) else s
  }

  /** `trim()`. */
  function Trim(s: Text): Text { TrimEnd(s[SkipFrom(s, 0)..]) }

  predicate Tight(s: Text) { s == [] || (!IsSpace(s[0]) && !IsSpace(s[|s| - 1])) }

  lemma {:induction false} TrimEndShape(s: Text)
    ensures TrimEnd(s) <= s
    ensures TrimEnd(s) == [] || !IsSpace(TrimEnd(s)[|TrimEnd(s)| - 1])
    ensures forall k :: |TrimEnd(s)| <= k < |s| ==> IsSpace(s[k])
  {
    if s != [] && IsSpace(s[|s| - 1]) { TrimEndShape(s[..|s| - 1]); }
  }

  lemma TrimIsTight(s: Text)
    ensures Tight(Trim(s))
    ensures Tight(s) ==> Trim(s) == s
  {
    var t := s[SkipFrom(s, 0)..];
    TrimEndShape(t);
    if Trim(s) != [] { assert Trim(s)[0] == t[0]; }
    if Tight(s) { assert t == s; }
  }

  /** `split("\n")`: the pieces between newlines, one more than there are newlines. */
  function SplitLines(s: Text): (r: seq<Text>)
    ensures r != []
  {
    if s == [] then [[]]
    else
      var rest := SplitLines(s[1..]);
      if s[0] == NEWLINE then [[]] + rest else [[s[0]] + rest[0]] + rest[1..]
  }

  /** A literal of the program's source as code units. */
  function Ascii(s: string): Text
    requires forall i :: 0 <= i < |s| ==> s[i] as int < 0x80
  {
    seq(|s|, i requires 0 <= i < |s| => s[i] as int)
  }

  /** The order of `Array.prototype.sort` on strings: code unit by code unit, a prefix first. */
  predicate Precedes(a: Text, b: Text) {
    a == [] || (b != [] && (a[0] < b[0] || (a[0] == b[0] && Precedes(a[1..], b[1..]))))
  }

  lemma {:induction false} PrecedesIsAntisymmetric(a: Text, b: Text)
    requires Precedes(a, b) && Precedes(b, a)
    ensures a == b
  {
    if a != [] && b != [] {
      PrecedesIsAntisymmetric(a[1..], b[1..]);
      assert a == [a[0]] + a[1..] && b == [b[0]] + b[1..];
    }
  }

  lemma {:induction false} PrecedesIsTotal(a: Text, b: Text)
    ensures Precedes(a, b) || Precedes(b, a)
  {
    if a != [] && b != [] { PrecedesIsTotal(a[1..], b[1..]); }
  }

  lemma {:induction false} PrecedesIsTransitive(a: Text, b: Text, c: Text)
    requires Precedes(a, b) && Precedes(b, c)
    ensures Precedes(a, c)
  {
    if a != [] && a[0] == b[0] == c[0] { PrecedesIsTransitive(a[1..], b[1..], c[1..]); }
  }

  /** At the first place where they differ the smaller code unit comes first; a text comes before any that
      it begins. */
  lemma {:induction false} PrecedesIff(a: Text, b: Text)
    ensures Precedes(a, b) <==> a <= b || exists k :: 0 <= k < |a| && k < |b| && a[..k] == b[..k] && a[k] < b[k]
  {
    if a != [] && b != [] {
      PrecedesIff(a[1..], b[1..]);
      assert a == [a[0]] + a[1..] && b == [b[0]] + b[1..];
      if a[0] == b[0] {
        forall k | 0 <= k < |a| - 1 && k < |b| - 1 ensures a[1..][..k] == b[1..][..k] <==> a[..k + 1] == b[..k + 1] {
          assert a[..k + 1] == [a[0]] + a[1..][..k] && b[..k + 1] == [b[0]] + b[1..][..k];
          assert a[..k + 1][1..] == a[1..][..k] && b[..k + 1][1..] == b[1..][..k];
        }
        if k :| 0 <= k < |a| && k < |b| && a[..k] == b[..k] && a[k] < b[k] {
          assert a[1..][k - 1] == a[k] && b[1..][k - 1] == b[k] && a[..k - 1 + 1] == b[..k - 1 + 1];
        }
        if k :| 0 <= k < |a[1..]| && k < |b[1..]| && a[1..][..k] == b[1..][..k] && a[1..][k] < b[1..][k] {
          assert a[..k + 1] == b[..k + 1] && a[k + 1] < b[k + 1];
        }
      } else {
        assert a[..0] == b[..0];
        forall k | 0 < k < |a| && k < |b| ensures a[..k] != b[..k] { assert a[..k][0] != b[..k][0]; }
      }
    }
  }

  ghost predicate Sorted(s: seq<Text>) {
    forall i, j :: 0 <= i < j < |s| ==> Precedes(s[i], s[j])
  }

  /** `sort()`: in order, and nothing gained or lost. */
  function Sort(s: seq<Text>): (r: seq<Text>)
    ensures Sorted(r) && multiset(r) == multiset(s)
  {
    if s == [] then []
    else
      assert s == [s[0]] + s[1..];
      Insert(s[0], Sort(s[1..]))
  }

  function Insert(x: Text, s: seq<Text>): (r: seq<Text>)
    requires Sorted(s)
    ensures Sorted(r) && multiset(r) == multiset{x} + multiset(s)
  {
    if s == [] then [x]
    else if Precedes(x, s[0]) then
      assert Sorted([x] + s) by {
        forall i | 0 <= i < |s| ensures Precedes(x, s[i]) {
          if i > 0 { PrecedesIsTransitive(x, s[0], s[i]); }
        }
      }
      [x] + s
    else
      assert s == [s[0]] + s[1..];
      var rest := Insert(x, s[1..]);
      assert Sorted([s[0]] + rest) by {
        PrecedesIsTotal(x, s[0]);
        forall i | 0 <= i < |rest| ensures Precedes(s[0], rest[i]) {
          assert rest[i] in multiset(rest);
          if rest[i] != x {
            assert rest[i] in multiset(s[1..]);
            assert rest[i] in s[1..];
          }
        }
      }
      [s[0]] + rest
  }

  lemma SortedHeadIsLeast(s: seq<Text>, x: Text)
    requires Sorted(s) && x in multiset(s)
    ensures Precedes(s[0], x)
  {
    var i :| 0 <= i < |s| && s[i] == x;
    if i == 0 { PrecedesIsTotal(x, x); }
  }

  lemma SameLeast(a: seq<Text>, b: seq<Text>)
    requires a != [] && b != [] && Sorted(a) && Sorted(b) && multiset(a) == multiset(b)
    ensures a[0] == b[0]
  {
    assert a[0] in multiset(a) && b[0] in multiset(b);
    SortedHeadIsLeast(a, b[0]);
    SortedHeadIsLeast(b, a[0]);
    PrecedesIsAntisymmetric(a[0], b[0]);
  }

  lemma TailMultiset(s: seq<Text>)
    requires s != []
    ensures multiset(s[1..]) == multiset(s) - multiset{s[0]}
  {
    assert s == [s[0]] + s[1..];
  }

  /** A collection of strings has one sorted listing. */
  lemma {:induction false} SortedListingIsUnique(a: seq<Text>, b: seq<Text>)
    requires Sorted(a) && Sorted(b) && multiset(a) == multiset(b)
    ensures a == b
  {
    assert |multiset(a)| == |a| && |multiset(b)| == |b|;
    if a != [] {
      SameLeast(a, b);
      TailMultiset(a);
      TailMultiset(b);
      SortedListingIsUnique(a[1..], b[1..]);
      assert a == [a[0]] + a[1..] && b == [b[0]] + b[1..];
    }
  }
}

/** Small facts about sequences that several models share. */
module Sequences {

  datatype Option<+T> = None | Some(value: T)

  function Min(a: int, b: int): int { if a < b then a else b }

  function Max(a: int, b: int): int { if a < b then b else a }

  /** Where a slice starts or ends: a negative position counts from the end, and positions are clamped. */
  function Position(length: nat, at: int): (r: nat)
    ensures r <= length
  {
    if at < 0 then Max(length + at, 0) else Min(at, length)
  }

  ghost function ToSet<T>(s: seq<T>): set<T> { set x | x in s }

  /** No element occurs twice. Read from the end, so that appending is one step. */
  ghost predicate NoDup<T>(s: seq<T>) {
    s == [] || (s[|s| - 1] !in s[..|s| - 1] && NoDup(s[..|s| - 1]))
  }

  lemma {:induction false} NoDupIsDistinct<T>(s: seq<T>)
    ensures NoDup(s) <==> forall i, j :: 0 <= i < j < |s| ==> s[i] != s[j]
  {
    if s != [] {
      var front, last := s[..|s| - 1], s[|s| - 1];
      NoDupIsDistinct(front);
      assert forall i :: 0 <= i < |front| ==> front[i] == s[i];
      if last in front {
        var i :| 0 <= i < |front| && front[i] == last;
        assert s[i] == s[|s| - 1];
      }
    }
  }

  lemma HasMember<T>(s: seq<T>)
    ensures s != [] ==> exists x :: x in s
  {
    if s != [] { assert s[0] in s; }
  }

  lemma NoDupAppend<T>(s: seq<T>, x: T)
    requires NoDup(s) && x !in s
    ensures NoDup(s + [x]) && ToSet(s + [x]) == ToSet(s) + {x}
  {
    assert (s + [x])[..|s|] == s;
  }

  lemma {:induction false} NoDupCardinality<T>(s: seq<T>)
    requires NoDup(s)
    ensures |ToSet(s)| == |s|
  {
    if s != [] {
      var front, last := s[..|s| - 1], s[|s| - 1];
      assert s == front + [last];
      NoDupCardinality(front);
      assert ToSet(s) == ToSet(front) + {last};
    } else {
      assert ToSet(s) == {};
    }
  }

  /** A duplicate-free sequence inside a set is no longer than the set is large. */
  lemma SubsetCardinality<T>(a: set<T>, b: set<T>)
    requires a <= b
    ensures |a| <= |b|
    ensures |b - a| == |b| - |a|
  {
    assert b == a + (b - a);
    assert a !! (b - a);
  }

  /** The two parts of a duplicate-free sequence share no element. */
  lemma {:induction false} DisjointParts<T>(a: seq<T>, b: seq<T>)
    requires NoDup(a + b)
    ensures NoDup(a) && NoDup(b)
    ensures forall x :: x in a ==> x !in b
  {
    if b == [] {
      assert a + b == a;
    } else {
      var front, last := b[..|b| - 1], b[|b| - 1];
      assert (a + b)[..|a + b| - 1] == a + front;
      assert b == front + [last];
      DisjointParts(a, front);
    }
  }

  /** Moving the boundary between two neighbours past one element keeps their concatenation. */
  lemma ShiftBoundary<T>(a: seq<T>, b: seq<T>)
    requires b != []
    ensures (a + [b[0]]) + b[1..] == a + b
  {
    assert b == [b[0]] + b[1..];
  }

  lemma AppendAssociative<T>(a: seq<T>, b: seq<T>, c: seq<T>)
    ensures a + (b + c) == (a + b) + c
  {
  }

  /** One more element at the end of three parts, or of two when the third is empty. */
  lemma AppendToParts<T>(a: seq<T>, b: seq<T>, c: seq<T>, x: T)
    ensures a + b + (c + [x]) == a + b + c + [x]
    ensures c == [] ==> a + (b + [x]) + c == a + b + c + [x]
  {
  }

  /** Duplicate-free parts that share nothing form a duplicate-free whole. */
  lemma {:induction false} JoinDistinct<T>(a: seq<T>, b: seq<T>)
    requires NoDup(a) && NoDup(b) && forall x :: x in a ==> x !in b
    ensures NoDup(a + b)
  {
    if b == [] {
      assert a + b == a;
    } else {
      JoinDistinct(a, b[..|b| - 1]);
      assert (a + b)[..|a + b| - 1] == a + b[..|b| - 1];
      assert b[|b| - 1] in b;
    }
  }

  lemma Twice<T>(s: seq<T>, i: int, j: int)
    requires 0 <= i < j < |s| && s[i] == s[j]
    ensures multiset(s)[s[i]] >= 2
  {
    assert s == s[..j] + s[j..];
    assert s[i] in s[..j] && s[j] in s[j..];
  }

  lemma {:induction false} OnceEach<T>(s: seq<T>, x: T)
    requires forall i, j :: 0 <= i < j < |s| ==> s[i] != s[j]
    ensures multiset(s)[x] <= 1
  {
    if s != [] {
      assert s == [s[0]] + s[1..];
      OnceEach(s[1..], x);
      assert forall j :: 0 <= j < |s| - 1 ==> s[1..][j] == s[j + 1] != s[0];
    }
  }

  lemma SameMembers<T>(a: seq<T>, b: seq<T>)
    requires multiset(a) == multiset(b)
    ensures forall x :: x in a <==> x in b
  {
    forall x ensures x in a <==> x in b {
      assert x in a <==> x in multiset(a);
      assert x in b <==> x in multiset(b);
    }
  }

  /** Duplicate-free sequences with the same elements are permutations of each other. */
  lemma SameElementsSameMultiset<T>(a: seq<T>, b: seq<T>)
    requires NoDup(a) && NoDup(b) && forall x :: x in a <==> x in b
    ensures multiset(a) == multiset(b)
  {
    NoDupIsDistinct(a);
    NoDupIsDistinct(b);
    forall x ensures multiset(a)[x] == multiset(b)[x] {
      OnceEach(a, x);
      OnceEach(b, x);
      assert x in a <==> x in multiset(a);
      assert x in b <==> x in multiset(b);
    }
  }

  lemma RemoveAt<T>(s: seq<T>, i: nat)
    requires i < |s|
    ensures s == s[..i] + [s[i]] + s[i + 1..]
    ensures multiset(s[..i] + s[i + 1..]) == multiset(s) - multiset{s[i]}
  {
    assert s == s[..i] + [s[i]] + s[i + 1..];
  }
}

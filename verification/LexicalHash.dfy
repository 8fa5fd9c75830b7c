/** The lexical embedder before normalisation: a rolling 32-bit hash of each token picks the bucket that
    is counted up. */
module LexicalHash {
  import opened Sequences
  import opened JsText

  const TWO_32: int := 0x1_0000_0000
  const TWO_31: int := 0x8000_0000

  /** `x | 0`: the signed 32-bit value congruent to `x`. */
  function ToInt32(x: int): (r: int)
    ensures -TWO_31 <= r < TWO_31 && (r - x) % TWO_32 == 0
  {
    if x % TWO_32 >= TWO_31 then x % TWO_32 - TWO_32 else x % TWO_32
  }

  function Pow31(n: nat): nat { if n == 0 then 1 else 31 * Pow31(n - 1) }

  /** The base-31 polynomial of the token's code units, the first with the highest power. */
  function Polynomial(token: Text): int {
    if token == [] then 0 else token[0] * Pow31(|token| - 1) + Polynomial(token[1..])
  }

  lemma {:induction false} Horner(token: Text, c: CodeUnit)
    ensures Polynomial(token + [c]) == Polynomial(token) * 31 + c
  {
    if token == [] {
      assert token + [c] == [c] && [c][1..] == [];
      assert Pow31(0) == 1;
    } else {
      assert (token + [c])[1..] == token[1..] + [c];
      Horner(token[1..], c);
    }
  }

  lemma CongruentWrapsAlike(a: int, b: int)
    requires (a - b) % TWO_32 == 0
    ensures ToInt32(a) == ToInt32(b)
  {
    var k := (a - b) / TWO_32;
    assert a == b + k * TWO_32;
    assert a % TWO_32 == b % TWO_32;
  }

  /** Wrapping at every character is wrapping once at the end. */
  lemma WrapStep(p: int, c: int)
    ensures ToInt32(ToInt32(p) * 31 + c) == ToInt32(p * 31 + c)
  {
    var k := (ToInt32(p) - p) / TWO_32;
    assert ToInt32(p) == p + k * TWO_32;
    assert (ToInt32(p) * 31 + c) - (p * 31 + c) == (k * 31) * TWO_32;
    assert ((k * 31) * TWO_32) % TWO_32 == 0;
    CongruentWrapsAlike(ToInt32(p) * 31 + c, p * 31 + c);
  }

  method Hash(token: Text) returns (h: int)
    ensures h == ToInt32(Polynomial(token))
  {
    h := 0;
    for i := 0 to |token|
      invariant h == ToInt32(Polynomial(token[..i]))
    {
      assert token[..i + 1] == token[..i] + [token[i]];
      Horner(token[..i], token[i]);
      WrapStep(Polynomial(token[..i]), token[i]);
      h := ToInt32(h * 31 + token[i]);
    }
    assert token[..|token|] == token;
  }

  function Abs(x: int): (r: nat)
    ensures r == x || r == -x
  { if x < 0 then -x else x }

  function Bucket(token: Text, dimension: nat): (b: nat)
    requires dimension >= 1
    ensures b < dimension
  {
    Abs(ToInt32(Polynomial(token))) % dimension
  }

  /** The bucket is what remains of the hash, without its sign, when the dimension is taken off as often as
      it fits. */
  lemma BucketIsRemainder(token: Text, dimension: nat)
    requires dimension >= 1
    ensures var h := ToInt32(Polynomial(token));
      exists q: nat :: (if h < 0 then -h else h) == q * dimension + Bucket(token, dimension)
  {
    var h := Abs(ToInt32(Polynomial(token)));
    var q: nat := h / dimension;
    assert h == q * dimension + h % dimension;
  }

  /** How many of the tokens fall into bucket `b`. */
  function Count(tokens: seq<Text>, dimension: nat, b: nat): nat
    requires dimension >= 1
  {
    if tokens == [] then 0
    else Count(tokens[..|tokens| - 1], dimension, b) + if Bucket(tokens[|tokens| - 1], dimension) == b then 1 else 0
  }

  method Embed(tokens: seq<Text>, dimension: nat) returns (vec: array<nat>)
    requires dimension >= 1
    ensures vec.Length == dimension
    ensures forall b :: 0 <= b < dimension ==> vec[b] == Count(tokens, dimension, b)
  {
    vec := new nat[dimension](_ => 0);
    for i := 0 to |tokens|
      invariant forall b :: 0 <= b < dimension ==> vec[b] == Count(tokens[..i], dimension, b)
    {
      assert tokens[..i + 1][..i] == tokens[..i];
      var h := Hash(tokens[i]);
      var idx := Abs(h) % dimension;
      vec[idx] := vec[idx] + 1;
    }
    assert tokens[..|tokens|] == tokens;
  }

  function SumTo(tokens: seq<Text>, dimension: nat, n: nat): nat
    requires dimension >= 1
  {
    if n == 0 then 0 else SumTo(tokens, dimension, n - 1) + Count(tokens, dimension, n - 1)
  }

  lemma {:induction false} OneTokenOneBucket(tokens: seq<Text>, t: Text, dimension: nat, n: nat)
    requires dimension >= 1
    ensures SumTo(tokens + [t], dimension, n) == SumTo(tokens, dimension, n) + if Bucket(t, dimension) < n then 1 else 0
    decreases n
  {
    if n > 0 {
      assert (tokens + [t])[..|tokens|] == tokens;
      OneTokenOneBucket(tokens, t, dimension, n - 1);
    }
  }

  /** Every token is counted in exactly one bucket. */
  lemma {:induction false} CountsSumToTokens(tokens: seq<Text>, dimension: nat)
    requires dimension >= 1
    ensures SumTo(tokens, dimension, dimension) == |tokens|
  {
    if tokens == [] {
      NoTokensNoCount(dimension, dimension);
    } else {
      var front, last := tokens[..|tokens| - 1], tokens[|tokens| - 1];
      assert tokens == front + [last];
      CountsSumToTokens(front, dimension);
      OneTokenOneBucket(front, last, dimension, dimension);
    }
  }

  lemma {:induction false} NoTokensNoCount(dimension: nat, n: nat)
    requires dimension >= 1
    ensures SumTo([], dimension, n) == 0
    decreases n
  {
    if n > 0 { NoTokensNoCount(dimension, n - 1); }
  }

  lemma DropLast(a: seq<Text>, b: seq<Text>)
    requires b != []
    ensures (a + b)[..|a + b| - 1] == a + b[..|b| - 1] && (a + b)[|a + b| - 1] == b[|b| - 1]
  {
  }

  lemma {:induction false} CountAround(a: seq<Text>, t: Text, b: seq<Text>, dimension: nat, k: nat)
    requires dimension >= 1
    ensures Count(a + [t] + b, dimension, k) == Count(a + b, dimension, k) + if Bucket(t, dimension) == k then 1 else 0
    decreases |b|
  {
    hide Bucket;
    if b == [] {
      assert a + [t] + b == a + [t] && (a + [t])[..|a|] == a && a + b == a;
    } else {
      var front := b[..|b| - 1];
      DropLast(a + [t], b);
      DropLast(a, b);
      CountAround(a, t, front, dimension, k);
    }
  }

  /** Some other element order, with the head of `a` taken out of both. */
  lemma TakeOut(a: seq<Text>, b: seq<Text>) returns (i: nat)
    requires multiset(a) == multiset(b) && a != []
    ensures i < |b| && b[i] == a[0] && b == b[..i] + [a[0]] + b[i + 1..]
    ensures multiset(a[1..]) == multiset(b[..i] + b[i + 1..])
  {
    SameMembers(a, b);
    assert a[0] in a && a[0] in b;
    i :| 0 <= i < |b| && b[i] == a[0];
    RemoveAt(b, i);
    RemoveAt(a, 0);
    assert a[..0] + a[1..] == a[1..];
  }

  /** The order of the tokens does not matter. */
  lemma {:induction false} CountIgnoresOrder(a: seq<Text>, b: seq<Text>, dimension: nat, k: nat)
    requires dimension >= 1 && multiset(a) == multiset(b)
    ensures Count(a, dimension, k) == Count(b, dimension, k)
    decreases |a|
  {
    hide Bucket;
    if a == [] {
      assert |multiset(b)| == |b|;
    } else {
      hide Count;
      var i := TakeOut(a, b);
      assert [] + [a[0]] + a[1..] == a && [] + a[1..] == a[1..];
      CountAround([], a[0], a[1..], dimension, k);
      CountAround(b[..i], a[0], b[i + 1..], dimension, k);
      CountIgnoresOrder(a[1..], b[..i] + b[i + 1..], dimension, k);
    }
  }
}

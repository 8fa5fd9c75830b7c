/** The output truncator: a UTF-8 buffer is cut at a byte position and decoded again, head first or
    head and tail. Text is a sequence of Unicode scalar values. */
module Truncation {
  import opened Sequences

  type Byte = b: int | 0 <= b < 0x100

  type Scalar = c: int | 0 <= c <= 0x10FFFF && !(0xD800 <= c <= 0xDFFF)

  const REPLACEMENT: Scalar := 0xFFFD
  const BYTE_ORDER_MARK: Scalar := 0xFEFF

  // ---- Encoding (section 3 of RFC 3629) -----------------------------------------------------------

  function Utf8(c: Scalar): (r: seq<Byte>)
    ensures 1 <= |r| <= 4
  {
    if c < 0x80 then [c]
    else if c < 0x800 then [0xC0 + c / 0x40, 0x80 + c % 0x40]
    else if c < 0x1_0000 then [0xE0 + c / 0x1000, 0x80 + c / 0x40 % 0x40, 0x80 + c % 0x40]
    else [0xF0 + c / 0x4_0000, 0x80 + c / 0x1000 % 0x40, 0x80 + c / 0x40 % 0x40, 0x80 + c % 0x40]
  }

  function Encode(text: seq<Scalar>): seq<Byte> {
    if text == [] then [] else Utf8(text[0]) + Encode(text[1..])
  }

  // ---- Decoding (section 8.1.1 of the WHATWG Encoding Standard) -----------------------------------

  /** The decoder between two bytes: how many bytes the sequence still needs, the bits so far, and
      the range the next byte must be in. */
  datatype Decoder = Decoder(needed: nat, codePoint: int, lower: int, upper: int)

  const IDLE := Decoder(0, 0, 0x80, 0xBF)

  /** What one byte does: the code point it completes, the decoder behind it, and whether the byte
      was used up or has to be read again. */
  datatype Fed = Fed(out: Option<int>, next: Decoder, used: bool)

  function Feed(d: Decoder, b: Byte): (r: Fed)
    ensures !r.used ==> r.next.needed < d.needed
  {
    if d.needed == 0 then
      if b < 0x80 then Fed(Some(b), IDLE, true)
      else if 0xC2 <= b <= 0xDF then Fed(None, Decoder(1, b - 0xC0, 0x80, 0xBF), true)
      else if 0xE0 <= b <= 0xEF then
        Fed(None, Decoder(2, b - 0xE0, if b == 0xE0 then 0xA0 else 0x80, if b == 0xED then 0x9F else 0xBF), true)
      else if 0xF0 <= b <= 0xF4 then
        Fed(None, Decoder(3, b - 0xF0, if b == 0xF0 then 0x90 else 0x80, if b == 0xF4 then 0x8F else 0xBF), true)
      else Fed(Some(REPLACEMENT), IDLE, true)
    else if !(d.lower <= b <= d.upper) then Fed(Some(REPLACEMENT), IDLE, false)
    else
      var codePoint := d.codePoint * 0x40 + (b - 0x80);
      if d.needed == 1 then Fed(Some(codePoint), IDLE, true)
      else Fed(None, Decoder(d.needed - 1, codePoint, 0x80, 0xBF), true)
  }

  function Emit(out: Option<int>, rest: seq<int>): seq<int> {
    match out
    case None => rest
    case Some(c) => [c] + rest
  }

  /** Output of the streaming decoder: an unfinished sequence at the end yields nothing. */
  function Decode(d: Decoder, bytes: seq<Byte>): seq<int>
    decreases |bytes|, d.needed
  {
    if bytes == [] then []
    else
      var fed := Feed(d, bytes[0]);
      Emit(fed.out, Decode(fed.next, if fed.used then bytes[1..] else bytes))
  }

  /** A fresh decoder drops one leading byte order mark. */
  function WithoutMark(text: seq<int>): seq<int> {
    if text != [] && text[0] == BYTE_ORDER_MARK then text[1..] else text
  }

  function DecodeWholeCodePoints(bytes: seq<Byte>): seq<int> { WithoutMark(Decode(IDLE, bytes)) }

  // ---- The truncator ------------------------------------------------------------------------------

  datatype Mode = Head | HeadTail

  /** What is copied out of the input. The separator, the trailer and the overflow file are left out. */
  datatype Cut =
    | Untouched(text: seq<Scalar>)
    | HeadOnly(head: seq<int>)
    | HeadAndTail(head: seq<int>, omitted: int, tail: seq<int>)

  /** `subarray`. */
  function Subarray(bytes: seq<Byte>, begin: int, end: int): seq<Byte> {
    var from, to := Position(|bytes|, begin), Position(|bytes|, end);
    if from <= to then bytes[from..to] else []
  }

  function TruncateOutput(text: seq<Scalar>, maxBytes: int, mode: Mode): Cut {
    var buf := Encode(text);
    if |buf| <= maxBytes then Untouched(text)
    else match mode
      case HeadTail =>
        var half := maxBytes / 2;
        HeadAndTail(DecodeWholeCodePoints(Subarray(buf, 0, half)), |buf| - maxBytes,
                    DecodeWholeCodePoints(Subarray(buf, |buf| - half, |buf|)))
      case Head => HeadOnly(DecodeWholeCodePoints(Subarray(buf, 0, maxBytes)))
  }

  // ---- Round trip and cuts ------------------------------------------------------------------------

  predicate Continuation(b: Byte) { 0x80 <= b <= 0xBF }

  lemma DecodeFirst(d: Decoder, b: Byte, rest: seq<Byte>)
    requires Feed(d, b).used
    ensures Decode(d, [b] + rest) == Emit(Feed(d, b).out, Decode(Feed(d, b).next, rest))
  {
    assert ([b] + rest)[1..] == rest;
  }

  lemma DecodeContinuation(d: Decoder, b: Byte, rest: seq<Byte>)
    requires d.needed > 0 && d.lower <= b <= d.upper
    ensures var codePoint := d.codePoint * 0x40 + (b - 0x80);
      Decode(d, [b] + rest) ==
        if d.needed == 1 then [codePoint] + Decode(IDLE, rest)
        else Decode(Decoder(d.needed - 1, codePoint, 0x80, 0xBF), rest)
  {
    DecodeFirst(d, b, rest);
  }

  /** The decoder after the lead byte of a character. */
  function AfterLead(c: Scalar): Decoder
    requires c >= 0x80
  {
    if c < 0x800 then Decoder(1, c / 0x40, 0x80, 0xBF)
    else if c < 0x1_0000 then
      Decoder(2, c / 0x1000, if c < 0x1000 then 0xA0 else 0x80, if 0xD000 <= c < 0xE000 then 0x9F else 0xBF)
    else
      Decoder(3, c / 0x4_0000, if c < 0x4_0000 then 0x90 else 0x80, if c >= 0x10_0000 then 0x8F else 0xBF)
  }

  lemma DecodeLead(c: Scalar, rest: seq<Byte>)
    requires c >= 0x80
    ensures Decode(IDLE, [Utf8(c)[0]] + rest) == Decode(AfterLead(c), rest)
  {
    DecodeFirst(IDLE, Utf8(c)[0], rest);
  }

  /** The six-bit groups put back together, and the second byte within the range its lead allows. */
  lemma Groups(c: Scalar)
    ensures c / 0x40 * 0x40 + c % 0x40 == c
    ensures c / 0x1000 * 0x40 + c / 0x40 % 0x40 == c / 0x40
    ensures c / 0x4_0000 * 0x40 + c / 0x1000 % 0x40 == c / 0x1000
    ensures c >= 0x80 ==> AfterLead(c).lower <= Utf8(c)[1] <= AfterLead(c).upper
  {
  }

  lemma DecodeTailOfTwo(c: Scalar, rest: seq<Byte>)
    requires 0x80 <= c < 0x800
    ensures Decode(AfterLead(c), Utf8(c)[1..] + rest) == [c] + Decode(IDLE, rest)
  {
    Groups(c);
    assert Utf8(c)[1..] == [Utf8(c)[1]];
    DecodeContinuation(AfterLead(c), Utf8(c)[1], rest);
  }

  lemma DecodeTailOfThree(c: Scalar, rest: seq<Byte>)
    requires 0x800 <= c < 0x1_0000
    ensures Decode(AfterLead(c), Utf8(c)[1..] + rest) == [c] + Decode(IDLE, rest)
  {
    Groups(c);
    var u := Utf8(c);
    assert u[1..] + rest == [u[1]] + ([u[2]] + rest);
    DecodeContinuation(AfterLead(c), u[1], [u[2]] + rest);
    DecodeContinuation(Decoder(1, c / 0x40, 0x80, 0xBF), u[2], rest);
  }

  lemma DecodeTailOfFour(c: Scalar, rest: seq<Byte>)
    requires 0x1_0000 <= c
    ensures Decode(AfterLead(c), Utf8(c)[1..] + rest) == [c] + Decode(IDLE, rest)
  {
    Groups(c);
    var u := Utf8(c);
    assert u[1..] + rest == [u[1]] + ([u[2]] + ([u[3]] + rest));
    DecodeContinuation(AfterLead(c), u[1], [u[2]] + ([u[3]] + rest));
    DecodeContinuation(Decoder(2, c / 0x1000, 0x80, 0xBF), u[2], [u[3]] + rest);
    DecodeContinuation(Decoder(1, c / 0x40, 0x80, 0xBF), u[3], rest);
  }

  /** One encoded character in front of other bytes. */
  lemma DecodeOne(c: Scalar, rest: seq<Byte>)
    ensures Decode(IDLE, Utf8(c) + rest) == [c] + Decode(IDLE, rest)
  {
    var u := Utf8(c);
    if c < 0x80 {
      DecodeFirst(IDLE, c, rest);
    } else {
      assert u + rest == [u[0]] + (u[1..] + rest);
      DecodeLead(c, u[1..] + rest);
      if c < 0x800 { DecodeTailOfTwo(c, rest); }
      else if c < 0x1_0000 { DecodeTailOfThree(c, rest); }
      else { DecodeTailOfFour(c, rest); }
    }
  }

  /** A character cut short at the end of the buffer is withheld. */
  lemma DecodeCutShort(c: Scalar, n: nat)
    requires n < |Utf8(c)|
    ensures Decode(IDLE, Utf8(c)[..n]) == []
  {
    var u := Utf8(c);
    Groups(c);
    if n > 0 {
      assert u[..n] == [u[0]] + u[1..n];
      DecodeLead(c, u[1..n]);
      if n > 1 {
        assert u[1..n] == [u[1]] + u[2..n];
        DecodeContinuation(AfterLead(c), u[1], u[2..n]);
        if n > 2 {
          assert u[2..n] == [u[2]] + [];
          DecodeContinuation(Decoder(2, c / 0x1000, 0x80, 0xBF), u[2], []);
        }
      }
    }
  }

  /** How many leading characters fit whole into `n` bytes. */
  function Fitting(text: seq<Scalar>, n: nat): (k: nat)
    ensures k <= |text|
  {
    if text == [] || |Utf8(text[0])| > n then 0 else 1 + Fitting(text[1..], n - |Utf8(text[0])|)
  }

  lemma {:induction false} EncodeSplit(text: seq<Scalar>, k: nat)
    requires k <= |text|
    ensures Encode(text) == Encode(text[..k]) + Encode(text[k..])
  {
    if k == 0 {
      assert text[..0] == [] && text[0..] == text;
    } else {
      assert text[..k][0] == text[0] && text[..k][1..] == text[1..][..k - 1] && text[1..][k - 1..] == text[k..];
      EncodeSplit(text[1..], k - 1);
    }
  }

  /** The fitting characters are the longest prefix whose encoding fits. */
  lemma {:induction false} FittingIsLongest(text: seq<Scalar>, n: nat, j: nat)
    requires j <= |text|
    ensures |Encode(text[..j])| <= n <==> j <= Fitting(text, n)
  {
    if j == 0 {
      assert text[..0] == [];
    } else {
      assert text[..j][0] == text[0] && text[..j][1..] == text[1..][..j - 1];
      if |Utf8(text[0])| <= n { FittingIsLongest(text[1..], n - |Utf8(text[0])|, j - 1); }
    }
  }

  /** Decoding the first `n` bytes yields the longest whole-character prefix that fits. */
  lemma {:induction false} HeadDecodes(text: seq<Scalar>, n: nat)
    requires n <= |Encode(text)|
    ensures Decode(IDLE, Encode(text)[..n]) == text[..Fitting(text, n)]
    decreases |text|
  {
    hide Utf8;
    if text == [] {
    } else {
      var u, rest := Utf8(text[0]), Encode(text[1..]);
      if |u| > n {
        assert (u + rest)[..n] == u[..n];
        DecodeCutShort(text[0], n);
      } else {
        assert (u + rest)[..n] == u + rest[..n - |u|];
        DecodeOne(text[0], rest[..n - |u|]);
        HeadDecodes(text[1..], n - |u|);
        var k := Fitting(text[1..], n - |u|);
        assert text[..k + 1] == [text[0]] + text[1..][..k];
      }
    }
  }

  /** The characters that begin before byte `m`. */
  function Begun(text: seq<Scalar>, m: nat): (p: nat)
    ensures p <= |text|
  {
    if text == [] || m == 0 then 0 else 1 + Begun(text[1..], Max(0, m - |Utf8(text[0])|))
  }

  /** How many bytes of a character that begins before byte `m` lie behind it. */
  function Severed(text: seq<Scalar>, m: nat): (j: nat)
    ensures j <= 3
  {
    if text == [] || m == 0 then 0
    else if m < |Utf8(text[0])| then |Utf8(text[0])| - m
    else Severed(text[1..], m - |Utf8(text[0])|)
  }

  function Replacements(n: nat): seq<int> { seq(n, _ => REPLACEMENT) }

  /** Stray continuation bytes are replaced one by one. */
  lemma {:induction false} DecodeStray(stray: seq<Byte>, rest: seq<Byte>)
    requires forall b :: b in stray ==> Continuation(b)
    ensures Decode(IDLE, stray + rest) == Replacements(|stray|) + Decode(IDLE, rest)
  {
    if stray == [] {
      assert stray + rest == rest && Replacements(0) + Decode(IDLE, rest) == Decode(IDLE, rest);
    } else {
      assert stray[0] in stray && stray + rest == [stray[0]] + (stray[1..] + rest);
      DecodeFirst(IDLE, stray[0], stray[1..] + rest);
      DecodeStray(stray[1..], rest);
      assert Replacements(|stray|) == [REPLACEMENT] + Replacements(|stray| - 1);
    }
  }

  lemma TrailingBytesAreContinuations(c: Scalar, m: nat)
    requires 0 < m < |Utf8(c)|
    ensures forall b :: b in Utf8(c)[m..] ==> Continuation(b)
  {
  }

  /** Decoding undoes encoding. */
  lemma {:induction false} DecodeUndoesEncode(text: seq<Scalar>)
    ensures Decode(IDLE, Encode(text)) == text
  {
    if text != [] {
      DecodeOne(text[0], Encode(text[1..]));
      DecodeUndoesEncode(text[1..]);
    }
  }

  /** A cut inside a character leaves its last bytes stray in front of what follows. */
  lemma TailInsideFirst(u: seq<Byte>, rest: seq<Byte>, m: nat)
    requires m <= |u| && forall b :: b in u[m..] ==> Continuation(b)
    ensures Decode(IDLE, (u + rest)[m..]) == Replacements(|u| - m) + Decode(IDLE, rest)
  {
    assert (u + rest)[m..] == u[m..] + rest;
    DecodeStray(u[m..], rest);
  }

  lemma DropPastFirst(u: seq<Byte>, rest: seq<Byte>, m: nat)
    requires |u| <= m <= |u| + |rest|
    ensures (u + rest)[m..] == rest[m - |u|..]
  {
  }

  lemma DropBehindFirst(text: seq<Scalar>, p: nat)
    requires p < |text|
    ensures text[1..][p..] == text[p + 1..]
  {
  }

  /** Decoding from byte `m` on yields one replacement for each severed byte, then the characters
      that begin at or behind `m`. */
  lemma {:induction false} TailDecodes(text: seq<Scalar>, m: nat)
    requires m <= |Encode(text)|
    ensures Decode(IDLE, Encode(text)[m..]) == Replacements(Severed(text, m)) + text[Begun(text, m)..]
    decreases |text|
  {
    hide Utf8;
    if m == 0 {
      assert Encode(text)[0..] == Encode(text) && text[0..] == text;
      assert Replacements(0) + text == text;
      DecodeUndoesEncode(text);
    } else {
      var u := Utf8(text[0]);
      if m < |u| {
        TrailingBytesAreContinuations(text[0], m);
        TailInsideFirst(u, Encode(text[1..]), m);
        DecodeUndoesEncode(text[1..]);
      } else {
        DropPastFirst(u, Encode(text[1..]), m);
        TailDecodes(text[1..], m - |u|);
        DropBehindFirst(text, Begun(text[1..], m - |u|));
      }
    }
  }

  lemma {:induction false} BegunIsLeast(text: seq<Scalar>, m: nat)
    requires m <= |Encode(text)|
    ensures |Encode(text[..Begun(text, m)])| == m + Severed(text, m)
    ensures forall j :: 0 <= j < Begun(text, m) ==> |Encode(text[..j])| < m
    decreases |text|
  {
    var p := Begun(text, m);
    if text == [] || m == 0 {
      assert text[..0] == [];
    } else {
      var u, rest := Utf8(text[0]), Max(0, m - |Utf8(text[0])|);
      BegunIsLeast(text[1..], rest);
      assert text[..p][0] == text[0] && text[..p][1..] == text[1..][..p - 1];
      forall j | 0 <= j < p ensures |Encode(text[..j])| < m {
        if j == 0 {
          assert text[..0] == [];
        } else {
          assert text[..j][0] == text[0] && text[..j][1..] == text[1..][..j - 1];
        }
      }
    }
  }

  // ---- What the caller gets -----------------------------------------------------------------------

  /** An output that fits is handed back whole, a leading byte order mark included, and only such an output;
      the others are cut as the mode says. */
  lemma UntouchedIffFits(text: seq<Scalar>, maxBytes: int, mode: Mode)
    ensures var cut := TruncateOutput(text, maxBytes, mode);
      && (cut.Untouched? <==> |Encode(text)| <= maxBytes)
      && (cut.Untouched? ==> cut.text == text)
      && (|Encode(text)| > maxBytes ==> (cut.HeadOnly? <==> mode == Head) && (cut.HeadAndTail? <==> mode == HeadTail))
  {
    hide Encode, Decode;
  }

  /** The budget a head cut really has: a negative one counts from the end of the buffer. */
  function HeadBudget(text: seq<Scalar>, maxBytes: int): nat { Position(|Encode(text)|, maxBytes) }

  /** The longest whole-character prefix that fits `n` bytes, less a leading byte order mark. */
  function HeadOf(text: seq<Scalar>, n: nat): seq<Scalar> {
    var head := text[..Fitting(text, n)];
    if head != [] && head[0] == BYTE_ORDER_MARK then head[1..] else head
  }

  /** One replacement for each byte of the character that the last `n` bytes begin inside of, then
      every character that begins within them; a byte order mark right at the cut is dropped. */
  function TailOf(text: seq<Scalar>, n: nat): seq<int>
    requires n <= |Encode(text)|
  {
    var m := |Encode(text)| - n;
    WithoutMark(Replacements(Severed(text, m)) + text[Begun(text, m)..])
  }

  /** The head is the longest whole-character prefix that fits the budget, less a byte order mark at
      its very start; it holds no character the input does not. */
  lemma HeadIsLongestPrefix(text: seq<Scalar>, maxBytes: int)
    requires |Encode(text)| > maxBytes
    ensures var k := Fitting(text, HeadBudget(text, maxBytes));
      && TruncateOutput(text, maxBytes, Head) == HeadOnly(HeadOf(text, HeadBudget(text, maxBytes)))
      && |Encode(text[..k])| <= HeadBudget(text, maxBytes)
      && (forall j :: k < j <= |text| ==> |Encode(text[..j])| > HeadBudget(text, maxBytes))
  {
    hide Utf8;
    var n := HeadBudget(text, maxBytes);
    HeadPart(text, maxBytes);
    forall j | 0 <= j <= |text| ensures |Encode(text[..j])| <= n <==> j <= Fitting(text, n) {
      FittingIsLongest(text, n, j);
    }
  }

  /** How many bytes of the end a tail cut keeps: none for a negative budget. */
  function TailBudget(maxBytes: int): nat { Max(0, maxBytes / 2) }

  lemma SubarrayEnds(bytes: seq<Byte>, at: int, n: int)
    requires n <= |bytes|
    ensures Subarray(bytes, 0, at) == bytes[..Position(|bytes|, at)]
    ensures Subarray(bytes, |bytes| - n, |bytes|) == bytes[|bytes| - Max(0, n)..]
  {
  }

  lemma HeadPart(text: seq<Scalar>, at: int)
    ensures DecodeWholeCodePoints(Subarray(Encode(text), 0, at)) == HeadOf(text, HeadBudget(text, at))
  {
    hide Utf8, Encode, Decode, Subarray, Fitting;
    SubarrayEnds(Encode(text), at, 0);
    HeadDecodes(text, HeadBudget(text, at));
  }

  lemma TailPart(text: seq<Scalar>, n: int)
    requires n <= |Encode(text)|
    ensures DecodeWholeCodePoints(Subarray(Encode(text), |Encode(text)| - n, |Encode(text)|)) == TailOf(text, Max(0, n))
  {
    hide Utf8, Encode, Decode, Subarray, Severed, Begun, Replacements, WithoutMark;
    SubarrayEnds(Encode(text), 0, n);
    TailDecodes(text, |Encode(text)| - Max(0, n));
  }

  /** Both cuts take half the budget each, whatever its sign. */
  lemma HeadAndTailDecode(text: seq<Scalar>, maxBytes: int)
    requires |Encode(text)| > maxBytes
    ensures TailBudget(maxBytes) <= |Encode(text)|
    ensures TruncateOutput(text, maxBytes, HeadTail)
         == HeadAndTail(HeadOf(text, HeadBudget(text, maxBytes / 2)), |Encode(text)| - maxBytes,
                        TailOf(text, TailBudget(maxBytes)))
  {
    hide Utf8, Encode, Decode, DecodeWholeCodePoints, Subarray, HeadOf, TailOf;
    HeadPart(text, maxBytes / 2);
    TailPart(text, maxBytes / 2);
  }

  /** Head and tail never overlap and at most three bytes of a severed character are replaced, if the
      budget is not negative; then together they copy no more than it. A negative one has no tail. */
  lemma HeadAndTailFit(text: seq<Scalar>, maxBytes: int)
    requires |Encode(text)| > maxBytes
    ensures var m := |Encode(text)| - TailBudget(maxBytes);
      m >= 0 &&
      var k, p := Fitting(text, HeadBudget(text, maxBytes / 2)), Begun(text, m);
      && |Encode(text[..k])| <= HeadBudget(text, maxBytes / 2)
      && |Encode(text[p..])| + Severed(text, m) == TailBudget(maxBytes)
      && k <= p && Severed(text, m) <= 3
      && (maxBytes < 0 ==> p == |text|)
  {
    hide Utf8, Severed, Begun, Encode, Fitting;
    var m := |Encode(text)| - TailBudget(maxBytes);
    var k, p := Fitting(text, HeadBudget(text, maxBytes / 2)), Begun(text, m);
    BegunIsLeast(text, m);
    EncodeSplit(text, p);
    FittingIsLongest(text, HeadBudget(text, maxBytes / 2), k);
    if p < k { PrefixShorter(text, p, k); }
    if maxBytes < 0 && p < |text| { EncodesSome(text[p..]); }
  }

  lemma EncodesSome(text: seq<Scalar>)
    requires text != []
    ensures |Encode(text)| >= 1
  {
  }

  /** How many bytes of the input a cut copies: those of the characters in the head, and the last bytes
      kept for the tail. */
  function CopiedBytes(text: seq<Scalar>, maxBytes: int, mode: Mode): nat {
    match mode
    case Head => |Encode(HeadOf(text, HeadBudget(text, maxBytes)))|
    case HeadTail => |Encode(HeadOf(text, HeadBudget(text, maxBytes / 2)))| + TailBudget(maxBytes)
  }

  lemma HeadOfFits(text: seq<Scalar>, n: nat)
    ensures |Encode(HeadOf(text, n))| <= n
  {
    hide Utf8, Fitting;
    var k := Fitting(text, n);
    FittingIsLongest(text, n, k);
    if k > 0 && text[0] == BYTE_ORDER_MARK { EncodeSplit(text[..k], 1); }
  }

  /** The bytes copied stay within the budget exactly when it is not negative, in both modes: a negative
      budget keeps all the characters but those in the last bytes, and still calls the output truncated. */
  lemma BudgetKeptIffNotNegative(text: seq<Scalar>, maxBytes: int, mode: Mode)
    requires |Encode(text)| > maxBytes
    ensures CopiedBytes(text, maxBytes, mode) <= maxBytes <==> maxBytes >= 0
    ensures maxBytes < 0 ==>
      && HeadBudget(text, maxBytes) == Max(|Encode(text)| + maxBytes, 0)
      && HeadBudget(text, maxBytes / 2) == Max(|Encode(text)| + maxBytes / 2, 0)
      && TruncateOutput(text, maxBytes, mode) != Untouched(text)
  {
    HeadOfFits(text, HeadBudget(text, maxBytes));
    HeadOfFits(text, HeadBudget(text, maxBytes / 2));
  }

  /** A byte order mark is lost at the start of the text whenever the head holds it, and at the start of
      the tail exactly when a character boundary and the mark fall on the cut. */
  lemma MarkDroppedIff(text: seq<Scalar>, n: nat)
    requires n <= |Encode(text)|
    ensures HeadOf(text, n) == text[..Fitting(text, n)] <==> Fitting(text, n) == 0 || text[0] != BYTE_ORDER_MARK
    ensures var m := |Encode(text)| - n;
      var p := Begun(text, m);
      TailOf(text, n) == Replacements(Severed(text, m)) + text[p..] <==>
        Severed(text, m) > 0 || p == |text| || text[p] != BYTE_ORDER_MARK
  {
    hide Utf8, Encode, Severed, Begun, Fitting;
    var m := |Encode(text)| - n;
    var tail := Replacements(Severed(text, m)) + text[Begun(text, m)..];
    if tail != [] && tail[0] == BYTE_ORDER_MARK { assert |tail[1..]| < |tail|; }
  }

  lemma PrefixShorter(text: seq<Scalar>, p: nat, k: nat)
    requires p < k <= |text|
    ensures |Encode(text[..p])| < |Encode(text[..k])|
  {
    EncodeSplit(text[..k], p);
    assert text[..k][..p] == text[..p];
    assert text[..k][p..] != [];
  }

  /** How many bytes the cut severs shows in the buffer: the tail opens with more than one
      replacement exactly when its first two bytes are both continuation bytes. */
  lemma {:induction false} SeveredShowsInBuffer(text: seq<Scalar>, m: nat)
    requires m < |Encode(text)|
    ensures Severed(text, m) >= 1 <==> Continuation(Encode(text)[m])
    ensures Severed(text, m) >= 2 <==>
      m + 1 < |Encode(text)| && Continuation(Encode(text)[m]) && Continuation(Encode(text)[m + 1])
    decreases |text|
  {
    var u, rest := Utf8(text[0]), Encode(text[1..]);
    if m >= |u| { SeveredShowsInBuffer(text[1..], m - |u|); }
    else if m == |u| - 1 && rest != [] { assert rest[0] == Utf8(text[1])[0]; }
  }

  /** One severed character can cost three replacements, not one. */
  lemma ThreeReplacements()
    ensures TruncateOutput([0x1F600, 0x1F600], 7, HeadTail)
         == HeadAndTail([], 1, [REPLACEMENT, REPLACEMENT, REPLACEMENT])
  {
    var text: seq<Scalar> := [0x1F600, 0x1F600];
    CutsOfTwo(0x1F600);
    HeadAndTailDecode(text, 7);
    assert HeadBudget(text, 7 / 2) == 3 && TailBudget(7) == 3;
    assert text[..0] == [] && text[2..] == [];
    assert Replacements(3) + [] == [REPLACEMENT, REPLACEMENT, REPLACEMENT];
  }

  lemma CutsOfTwo(c: Scalar)
    requires c >= 0x1_0000
    ensures |Encode([c, c])| == 8 && Fitting([c, c], 3) == 0 && Begun([c, c], 5) == 2 && Severed([c, c], 5) == 3
  {
    assert [c, c][1..] == [c] && [c][1..] == [];
    assert |Encode([c])| == 4;
    assert Begun([c], 1) == 1 && Severed([c], 1) == 3;
  }
}

/** The glob compiler: a glob becomes the text of a regular expression, one code unit at a time. */
module GlobRegex {
  import opened Sequences
  import opened JsText

  const STAR: CodeUnit := '*' as int
  const QUESTION: CodeUnit := '?' as int
  const SLASH: CodeUnit := '/' as int
  const DOT: CodeUnit := '.' as int
  const CARET: CodeUnit := '^' as int
  const DOLLAR: CodeUnit := '$' as int
  const BACKSLASH: CodeUnit := '\\' as int
  const OPEN_BRACKET: CodeUnit := '[' as int
  const CLOSE_BRACKET: CodeUnit := ']' as int
  const PLUS: CodeUnit := '+' as int
  const OPEN_BRACE: CodeUnit := '{' as int
  const CLOSE_BRACE: CodeUnit := '}' as int
  const OPEN_PAREN: CodeUnit := '(' as int
  const CLOSE_PAREN: CodeUnit := ')' as int
  const BAR: CodeUnit := '|' as int
  const HYPHEN: CodeUnit := '-' as int

  /** The literals the compiler puts a backslash before. */
  predicate Escaped(c: CodeUnit) {
    c in {DOT, PLUS, CARET, DOLLAR, OPEN_BRACE, CLOSE_BRACE, OPEN_PAREN, CLOSE_PAREN, BAR,
          OPEN_BRACKET, CLOSE_BRACKET, BACKSLASH}
  }

  const ANY_RUN: Text := [DOT, STAR]
  const NOT_SLASH: Text := [OPEN_BRACKET, CARET, SLASH, CLOSE_BRACKET]

  predicate DoubleStar(glob: Text) { |glob| >= 2 && glob[0] == STAR && glob[1] == STAR }

  /** The glob behind a leading `**`: one slash is swallowed with it. */
  function AfterDoubleStar(glob: Text): (r: Text)
    requires DoubleStar(glob)
    ensures |r| <= |glob| - 2
  {
    if |glob| > 2 && glob[2] == SLASH then glob[3..] else glob[2..]
  }

  /** The text emitted for a glob, without the anchors. */
  function Compile(glob: Text): Text
    decreases |glob|
  {
    if glob == [] then []
    else if DoubleStar(glob) then ANY_RUN + Compile(AfterDoubleStar(glob))
    else if glob[0] == STAR then NOT_SLASH + [STAR] + Compile(glob[1..])
    else if glob[0] == QUESTION then NOT_SLASH + Compile(glob[1..])
    else if Escaped(glob[0]) then [BACKSLASH, glob[0]] + Compile(glob[1..])
    else [glob[0]] + Compile(glob[1..])
  }

  method GlobToRegex(pattern: Text) returns (text: Text)
    ensures text == [CARET] + Compile(pattern) + [DOLLAR]
    ensures ParsePattern(text).Some? && forall s :: Test(ParsePattern(text).value, s) <==> GlobMatches(pattern, s)
  {
    var regexStr: Text := [];
    var i := 0;
    while i < |pattern|
      invariant 0 <= i <= |pattern|
      invariant regexStr + Compile(pattern[i..]) == Compile(pattern)
    {
      var ch := pattern[i];
      ghost var start, before := i, regexStr;
      assert pattern[i..][1..] == pattern[i + 1..];
      if ch == STAR && i + 1 < |pattern| && pattern[i + 1] == STAR {
        regexStr := regexStr + ANY_RUN;
        i := i + 2;
        if i < |pattern| && pattern[i] == SLASH { i := i + 1; }
        assert AfterDoubleStar(pattern[start..]) == pattern[i..];
        AppendAssociative(before, ANY_RUN, Compile(pattern[i..]));
      } else if ch == STAR {
        regexStr := regexStr + (NOT_SLASH + [STAR]);
        i := i + 1;
        AppendAssociative(before, NOT_SLASH + [STAR], Compile(pattern[i..]));
      } else if ch == QUESTION {
        regexStr := regexStr + NOT_SLASH;
        i := i + 1;
        AppendAssociative(before, NOT_SLASH, Compile(pattern[i..]));
      } else if Escaped(ch) {
        regexStr := regexStr + [BACKSLASH, ch];
        i := i + 1;
        AppendAssociative(before, [BACKSLASH, ch], Compile(pattern[i..]));
      } else {
        regexStr := regexStr + [ch];
        i := i + 1;
        AppendAssociative(before, [ch], Compile(pattern[i..]));
      }
    }
    assert pattern[|pattern|..] == [] && regexStr + [] == regexStr;
    text := [CARET] + regexStr + [DOLLAR];
    forall s ensures ParsePattern(text).Some? && (Test(ParsePattern(text).value, s) <==> GlobMatches(pattern, s)) {
      CompiledRegexMeansGlob(pattern, s);
    }
    CompiledRegexMeansGlob(pattern, []);
  }

  // ---- Reading the text back: a fragment of the pattern grammar (ECMA-262, section 22.2.1) --------

  datatype Atom =
    | AnyButLineTerminator
    | AnyBut(c: CodeUnit)
    | Exactly(c: CodeUnit)

  datatype Term = InputStart | InputEnd | One(atom: Atom) | Many(atom: Atom)

  /** The characters with a meaning of their own in a pattern; only these can stand behind a backslash as
      themselves, and none of them can stand for itself without one. */
  predicate SyntaxCharacter(c: CodeUnit) { c in Ascii("^$\\.*+?()[]{}|") }

  predicate StartsQuantifier(text: Text) {
    text != [] && text[0] in {STAR, PLUS, QUESTION, OPEN_BRACE}
  }

  /** An atom at the head of the text and how many units it takes. */
  function ParseAtom(text: Text): (r: Option<(Atom, nat)>)
    requires text != []
    ensures r.Some? ==> 1 <= r.value.1 <= |text|
  {
    if text[0] == DOT then Some((AnyButLineTerminator, 1))
    else if text[0] == BACKSLASH then
      if |text| >= 2 && SyntaxCharacter(text[1]) then Some((Exactly(text[1]), 2)) else None
    else if text[0] == OPEN_BRACKET then
      if |text| >= 4 && text[1] == CARET && text[2] !in {CLOSE_BRACKET, BACKSLASH, HYPHEN} && text[3] == CLOSE_BRACKET
      then Some((AnyBut(text[2]), 4)) else None
    else if SyntaxCharacter(text[0]) then None
    else Some((Exactly(text[0]), 1))
  }

  /** Reads a pattern made of one alternative whose terms are assertions and atoms, each atom alone
      or under a greedy star; None for any other text. */
  function ParsePattern(text: Text): Option<seq<Term>>
    decreases |text|
  {
    if text == [] then Some([])
    else if text[0] == CARET || text[0] == DOLLAR then
      match ParsePattern(text[1..])
      case None => None
      case Some(rest) => Some([if text[0] == CARET then InputStart else InputEnd] + rest)
    else
      match ParseAtom(text)
      case None => None
      case Some((atom, size)) =>
        var tail := text[size..];
        if tail != [] && tail[0] == STAR then
          if StartsQuantifier(tail[1..]) then None
          else match ParsePattern(tail[1..])
            case None => None
            case Some(rest) => Some([Many(atom)] + rest)
        else if StartsQuantifier(tail) then None
        else match ParsePattern(tail)
          case None => None
          case Some(rest) => Some([One(atom)] + rest)
  }

  predicate AtomAccepts(atom: Atom, c: CodeUnit) {
    match atom
    case AnyButLineTerminator => !IsLineTerminator(c)
    case AnyBut(x) => c != x
    case Exactly(x) => c == x
  }

  /** The terms match some stretch of `s` beginning at `i` (section 22.2.2: a star backtracks over
      every number of repetitions). */
  predicate MatchesFrom(terms: seq<Term>, s: Text, i: nat)
    requires i <= |s|
    decreases |terms|, |s| - i
  {
    if terms == [] then true
    else match terms[0]
      case InputStart => i == 0 && MatchesFrom(terms[1..], s, i)
      case InputEnd => i == |s| && MatchesFrom(terms[1..], s, i)
      case One(atom) => i < |s| && AtomAccepts(atom, s[i]) && MatchesFrom(terms[1..], s, i + 1)
      case Many(atom) =>
        || MatchesFrom(terms[1..], s, i)
        || (i < |s| && AtomAccepts(atom, s[i]) && MatchesFrom(terms, s, i + 1))
  }

  /** `RegExp.prototype.test`: the pattern matches somewhere in the string. */
  predicate Test(terms: seq<Term>, s: Text) {
    exists i :: 0 <= i <= |s| && MatchesFrom(terms, s, i)
  }

  // ---- What a glob means ------------------------------------------------------------------------

  predicate NoSlash(s: Text) { SLASH !in s }

  predicate OneLine(s: Text) { forall c :: c in s ==> !IsLineTerminator(c) }

  /** `**` with an optional slash is any run within a line, `*` any run without a slash, `?` one unit
      that is not a slash, and everything else stands for itself. */
  predicate GlobMatches(glob: Text, s: Text)
    decreases |glob|
  {
    if glob == [] then s == []
    else if DoubleStar(glob) then
      exists k :: 0 <= k <= |s| && OneLine(s[..k]) && GlobMatches(AfterDoubleStar(glob), s[k..])
    else if glob[0] == STAR then
      exists k :: 0 <= k <= |s| && NoSlash(s[..k]) && GlobMatches(glob[1..], s[k..])
    else
      && s != []
      && (if glob[0] == QUESTION then s[0] != SLASH else s[0] == glob[0])
      && GlobMatches(glob[1..], s[1..])
  }

  /** The terms the compiled text stands for. */
  function Terms(glob: Text): seq<Term>
    decreases |glob|
  {
    if glob == [] then [InputEnd]
    else if DoubleStar(glob) then [Many(AnyButLineTerminator)] + Terms(AfterDoubleStar(glob))
    else if glob[0] == STAR then [Many(AnyBut(SLASH))] + Terms(glob[1..])
    else if glob[0] == QUESTION then [One(AnyBut(SLASH))] + Terms(glob[1..])
    else [One(Exactly(glob[0]))] + Terms(glob[1..])
  }

  /** Nothing the compiler emits for the rest of a glob can be read as a quantifier. */
  lemma NeverQuantifies(glob: Text)
    ensures !StartsQuantifier(Compile(glob) + [DOLLAR])
  {
  }

  /** Reading one atom, with or without a star behind it. */
  lemma ReadOne(atom: Atom, size: nat, all: Text)
    requires all != [] && all[0] != CARET && all[0] != DOLLAR && ParseAtom(all) == Some((atom, size))
    requires size <= |all| && !StartsQuantifier(all[size..]) && ParsePattern(all[size..]).Some?
    ensures ParsePattern(all) == Some([One(atom)] + ParsePattern(all[size..]).value)
  {
    hide ParseAtom;
  }

  lemma ReadMany(atom: Atom, size: nat, all: Text)
    requires all != [] && all[0] != CARET && all[0] != DOLLAR && ParseAtom(all) == Some((atom, size))
    requires size < |all| && all[size] == STAR
    requires !StartsQuantifier(all[size + 1..]) && ParsePattern(all[size + 1..]).Some?
    ensures ParsePattern(all) == Some([Many(atom)] + ParsePattern(all[size + 1..]).value)
  {
    hide ParseAtom;
    assert all[size..][1..] == all[size + 1..];
  }

  lemma ReadAtom(atom: Atom, text: Text, rest: Text)
    requires text != [] && ParseAtom(text + rest) == Some((atom, |text|))
    requires text[0] != CARET && text[0] != DOLLAR
    requires !StartsQuantifier(rest) && ParsePattern(rest).Some?
    ensures ParsePattern(text + rest) == Some([One(atom)] + ParsePattern(rest).value)
  {
    hide ParseAtom, ParsePattern, StartsQuantifier;
    assert (text + rest)[|text|..] == rest;
    ReadOne(atom, |text|, text + rest);
  }

  lemma ReadStar(atom: Atom, text: Text, rest: Text)
    requires text != [] && ParseAtom(text + [STAR] + rest) == Some((atom, |text|))
    requires text[0] != CARET && text[0] != DOLLAR
    requires !StartsQuantifier(rest) && ParsePattern(rest).Some?
    ensures ParsePattern(text + [STAR] + rest) == Some([Many(atom)] + ParsePattern(rest).value)
  {
    hide ParseAtom, ParsePattern, StartsQuantifier;
    assert (text + [STAR] + rest)[|text| + 1..] == rest;
    ReadMany(atom, |text|, text + [STAR] + rest);
  }

  lemma EndReadsBack()
    ensures ParsePattern([DOLLAR]) == Some([InputEnd])
  {
    var end: Text := [DOLLAR];
    assert end[1..] == [] && [InputEnd] + [] == [InputEnd];
  }

  /** The compiler escapes every syntax character that is no wildcard of its own, and nothing else. */
  lemma EscapedIffSyntax(c: CodeUnit)
    ensures SyntaxCharacter(c) <==> Escaped(c) || c == STAR || c == QUESTION
  {
    assert Ascii("^$\\.*+?()[]{}|")
      == [CARET, DOLLAR, BACKSLASH, DOT, STAR, PLUS, QUESTION, OPEN_PAREN, CLOSE_PAREN, OPEN_BRACKET, CLOSE_BRACKET,
          OPEN_BRACE, CLOSE_BRACE, BAR];
  }

  lemma LiteralReadsBack(c: CodeUnit, tail: Text)
    requires c != STAR && c != QUESTION && !StartsQuantifier(tail) && ParsePattern(tail).Some?
    ensures ParsePattern((if Escaped(c) then [BACKSLASH, c] else [c]) + tail)
         == Some([One(Exactly(c))] + ParsePattern(tail).value)
  {
    EscapedIffSyntax(c);
    hide SyntaxCharacter;
    if Escaped(c) {
      ReadAtom(Exactly(c), [BACKSLASH, c], tail);
    } else {
      ReadAtom(Exactly(c), [c], tail);
    }
  }

  lemma WildcardReadsBack(tail: Text)
    requires !StartsQuantifier(tail) && ParsePattern(tail).Some?
    ensures ParsePattern(ANY_RUN + tail) == Some([Many(AnyButLineTerminator)] + ParsePattern(tail).value)
    ensures ParsePattern(NOT_SLASH + [STAR] + tail) == Some([Many(AnyBut(SLASH))] + ParsePattern(tail).value)
    ensures ParsePattern(NOT_SLASH + tail) == Some([One(AnyBut(SLASH))] + ParsePattern(tail).value)
  {
    assert [DOT] + [STAR] == ANY_RUN;
    ReadStar(AnyButLineTerminator, [DOT], tail);
    ReadStar(AnyBut(SLASH), NOT_SLASH, tail);
    ReadAtom(AnyBut(SLASH), NOT_SLASH, tail);
  }

  /** The compiled text is a pattern of the fragment, and reads back as the glob's terms. */
  lemma {:induction false} CompiledTextReadsBack(glob: Text)
    ensures ParsePattern(Compile(glob) + [DOLLAR]) == Some(Terms(glob))
    decreases |glob|
  {
    if glob == [] {
      EndReadsBack();
      assert Compile(glob) + [DOLLAR] == [DOLLAR];
    } else {
      var rest := if DoubleStar(glob) then AfterDoubleStar(glob) else glob[1..];
      var tail := Compile(rest) + [DOLLAR];
      CompiledTextReadsBack(rest);
      NeverQuantifies(rest);
      if glob[0] == STAR || glob[0] == QUESTION {
        WildcardReadsBack(tail);
        AppendAssociative(ANY_RUN, Compile(rest), [DOLLAR]);
        AppendAssociative(NOT_SLASH + [STAR], Compile(rest), [DOLLAR]);
        AppendAssociative(NOT_SLASH, Compile(rest), [DOLLAR]);
      } else {
        LiteralReadsBack(glob[0], tail);
        AppendAssociative(if Escaped(glob[0]) then [BACKSLASH, glob[0]] else [glob[0]], Compile(rest), [DOLLAR]);
      }
    }
  }

  predicate AllAccepted(atom: Atom, s: Text) { forall c :: c in s ==> AtomAccepts(atom, c) }

  /** A starred atom takes some run it accepts, and the rest matches behind it. */
  lemma {:induction false} StarTakesRun(atom: Atom, rest: seq<Term>, s: Text, i: nat)
    requires i <= |s|
    ensures MatchesFrom([Many(atom)] + rest, s, i) <==>
      exists k :: i <= k <= |s| && AllAccepted(atom, s[i..k]) && MatchesFrom(rest, s, k)
    decreases |s| - i
  {
    var terms := [Many(atom)] + rest;
    assert terms[1..] == rest;
    assert s[i..i] == [];
    if i < |s| {
      StarTakesRun(atom, rest, s, i + 1);
      forall k | i < k <= |s|
        ensures AllAccepted(atom, s[i..k]) <==> AtomAccepts(atom, s[i]) && AllAccepted(atom, s[i + 1..k])
      {
        assert s[i..k] == [s[i]] + s[i + 1..k];
      }
    }
  }

  /** Some run the atom accepts, and then the glob. */
  ghost predicate RunThenGlob(atom: Atom, glob: Text, s: Text) {
    exists k :: 0 <= k <= |s| && AllAccepted(atom, s[..k]) && GlobMatches(glob, s[k..])
  }

  lemma WildcardIsRun(glob: Text, s: Text)
    ensures DoubleStar(glob) ==>
      (GlobMatches(glob, s) <==> RunThenGlob(AnyButLineTerminator, AfterDoubleStar(glob), s))
    ensures glob != [] && glob[0] == STAR && !DoubleStar(glob) ==>
      (GlobMatches(glob, s) <==> RunThenGlob(AnyBut(SLASH), glob[1..], s))
  {
    assert forall t :: OneLine(t) <==> AllAccepted(AnyButLineTerminator, t);
    assert forall t :: NoSlash(t) <==> AllAccepted(AnyBut(SLASH), t);
  }

  lemma RunFromPosition(atom: Atom, glob: Text, terms: seq<Term>, s: Text, i: nat)
    requires i <= |s|
    requires forall k :: i <= k <= |s| ==> (MatchesFrom(terms, s, k) <==> GlobMatches(glob, s[k..]))
    ensures MatchesFrom([Many(atom)] + terms, s, i) <==> RunThenGlob(atom, glob, s[i..])
  {
    StarTakesRun(atom, terms, s, i);
    var t := s[i..];
    forall k | i <= k <= |s| ensures t[..k - i] == s[i..k] && t[k - i..] == s[k..] {}
    if MatchesFrom([Many(atom)] + terms, s, i) {
      var k :| i <= k <= |s| && AllAccepted(atom, s[i..k]) && MatchesFrom(terms, s, k);
      assert AllAccepted(atom, t[..k - i]) && GlobMatches(glob, t[k - i..]);
    }
    if RunThenGlob(atom, glob, t) {
      var j :| 0 <= j <= |t| && AllAccepted(atom, t[..j]) && GlobMatches(glob, t[j..]);
      assert t[..(i + j) - i] == s[i..i + j] && t[(i + j) - i..] == s[i + j..];
      assert AllAccepted(atom, s[i..i + j]) && MatchesFrom(terms, s, i + j);
    }
  }

  /** The glob's terms match from `i` exactly when the glob means the rest of the string. */
  lemma {:induction false} TermsMeanGlob(glob: Text, s: Text, i: nat)
    requires i <= |s|
    ensures MatchesFrom(Terms(glob), s, i) <==> GlobMatches(glob, s[i..])
    decreases |glob|
  {
    if glob == [] {
      assert Terms(glob)[1..] == [];
    } else if DoubleStar(glob) || glob[0] == STAR {
      var rest := if DoubleStar(glob) then AfterDoubleStar(glob) else glob[1..];
      var atom := if DoubleStar(glob) then AnyButLineTerminator else AnyBut(SLASH);
      forall k | i <= k <= |s| ensures MatchesFrom(Terms(rest), s, k) <==> GlobMatches(rest, s[k..]) {
        TermsMeanGlob(rest, s, k);
      }
      RunFromPosition(atom, rest, Terms(rest), s, i);
      WildcardIsRun(glob, s[i..]);
    } else {
      assert Terms(glob)[1..] == Terms(glob[1..]);
      if i < |s| {
        TermsMeanGlob(glob[1..], s, i + 1);
        assert s[i..][1..] == s[i + 1..];
      }
    }
  }

  /** The emitted text is a valid pattern, and as a regular expression it accepts exactly the
      strings the glob means. */
  lemma CompiledRegexMeansGlob(glob: Text, s: Text)
    ensures var text := [CARET] + Compile(glob) + [DOLLAR];
      && ParsePattern(text).Some?
      && (Test(ParsePattern(text).value, s) <==> GlobMatches(glob, s))
  {
    var text, body := [CARET] + Compile(glob) + [DOLLAR], Compile(glob) + [DOLLAR];
    assert text[1..] == body;
    CompiledTextReadsBack(glob);
    var terms := [InputStart] + Terms(glob);
    assert ParsePattern(text) == Some(terms);
    assert terms[1..] == Terms(glob);
    TermsMeanGlob(glob, s, 0);
    assert s[0..] == s;
    if GlobMatches(glob, s) { assert MatchesFrom(terms, s, 0); }
  }

  // ---- Consequences -----------------------------------------------------------------------------

  function Slashes(s: Text): nat {
    if s == [] then 0 else (if s[0] == SLASH then 1 else 0) + Slashes(s[1..])
  }

  lemma {:induction false} SlashesSplit(s: Text, k: nat)
    requires k <= |s|
    ensures Slashes(s) == Slashes(s[..k]) + Slashes(s[k..])
    ensures NoSlash(s[..k]) ==> Slashes(s[..k]) == 0
  {
    if k == 0 {
      assert s[..0] == [] && s[0..] == s;
    } else {
      SlashesSplit(s[1..], k - 1);
      assert s[..k][1..] == s[1..][..k - 1] && s[k..] == s[1..][k - 1..];
      assert s[..k] == [s[0]] + s[1..][..k - 1];
    }
  }

  /** Without a `**` a glob never crosses a directory boundary: it matches only paths with as many
      slashes as it has itself. */
  lemma {:induction false} SingleStarsKeepDepth(glob: Text, s: Text)
    requires forall i :: 0 <= i < |glob| ==> !DoubleStar(glob[i..])
    requires GlobMatches(glob, s)
    ensures Slashes(s) == Slashes(glob)
  {
    if glob != [] {
      var rest := glob[1..];
      assert forall i :: 0 <= i < |rest| ==> rest[i..] == glob[i + 1..];
      assert glob[0..] == glob;
      if glob[0] == STAR {
        var k :| 0 <= k <= |s| && NoSlash(s[..k]) && GlobMatches(rest, s[k..]);
        SlashesSplit(s, k);
        SingleStarsKeepDepth(rest, s[k..]);
      } else {
        SingleStarsKeepDepth(rest, s[1..]);
      }
    }
  }

  /** A glob without wildcards matches its own text and nothing else, whatever it contains. */
  lemma {:induction false} PlainGlobIsLiteral(glob: Text, s: Text)
    requires STAR !in glob && QUESTION !in glob
    ensures GlobMatches(glob, s) <==> s == glob
  {
    if glob != [] {
      assert glob[0] in glob;
      if s != [] {
        PlainGlobIsLiteral(glob[1..], s[1..]);
        assert s == [s[0]] + s[1..] && glob == [glob[0]] + glob[1..];
      }
    }
  }

  /** A leading double star and slash match any prefix within a line, slash or no slash: the part
      behind it may start in the middle of a path segment. */
  lemma DoubleStarIgnoresSegments(rest: Text, s: Text)
    ensures GlobMatches([STAR, STAR, SLASH] + rest, s) <==>
      exists k :: 0 <= k <= |s| && OneLine(s[..k]) && GlobMatches(rest, s[k..])
  {
    var glob := [STAR, STAR, SLASH] + rest;
    assert AfterDoubleStar(glob) == rest;
  }

  /** So a double star, a slash and a name match every string that ends in the name, in one line. */
  lemma DoubleStarName(name: Text, s: Text)
    requires STAR !in name && QUESTION !in name
    ensures GlobMatches([STAR, STAR, SLASH] + name, s) <==>
      |name| <= |s| && s[|s| - |name|..] == name && OneLine(s[..|s| - |name|])
  {
    DoubleStarIgnoresSegments(name, s);
    forall k | 0 <= k <= |s| ensures GlobMatches(name, s[k..]) <==> s[k..] == name {
      PlainGlobIsLiteral(name, s[k..]);
    }
  }
}

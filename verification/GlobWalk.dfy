/** The two directory walks behind the glob tool. Paths are sequences of segments, project-relative;
    their text joins the segments with slashes. */
module GlobWalk {
  import opened Sequences
  import opened JsText
  import opened GlobRegex

  type Path = seq<Text>

  /** A symlink-free directory tree as the local walk reads it. */
  datatype Node =
    | File
    | Directory(listing: Option<Listing>)  // None: cannot be read
    | Other

  datatype Listing = End | Entry(name: Text, node: Node, rest: Listing)

  const MAX_BACKEND_WALK_DEPTH := 64

  predicate Excluded(name: Text) {
    name in {Ascii("node_modules"), Ascii(".git"), Ascii("dist"), Ascii(".theo")}
  }

  function Joined(p: Path): Text {
    if p == [] then [] else if |p| == 1 then p[0] else p[0] + [SLASH] + Joined(p[1..])
  }

  /** The text the pattern is matched against: the path below the search root. */
  predicate Accepts(glob: Text, base: Path, p: Path)
    requires |base| <= |p|
  {
    GlobMatches(glob, Joined(p[|base|..]))
  }

  // ---- The local walk ---------------------------------------------------------------------------

  function LocalFiles(glob: Text, base: Path, dir: Path, listing: Listing): seq<Path>
    requires |base| <= |dir|
    decreases listing
  {
    match listing
    case End => []
    case Entry(name, node, rest) =>
      LocalEntry(glob, base, dir + [name], node) + LocalFiles(glob, base, dir, rest)
  }

  function LocalEntry(glob: Text, base: Path, full: Path, node: Node): seq<Path>
    requires |base| < |full|
    decreases node
  {
    if Excluded(full[|full| - 1]) then []
    else match node
      case Directory(Some(listing)) => LocalFiles(glob, base, full, listing)
      case File => if Accepts(glob, base, full) then [full] else []
      case _ => []
  }

  class Found {
    var paths: seq<Path>

    constructor ()
      ensures paths == []
    {
      paths := [];
    }
  }

  method WalkDir(glob: Text, base: Path, dir: Path, contents: Option<Listing>, results: Found)
    requires |base| <= |dir|
    modifies results
    ensures results.paths == old(results.paths) +
      (if contents.None? then [] else LocalFiles(glob, base, dir, contents.value))
    decreases contents
  {
    if contents.None? { return; }
    var entries := contents.value;
    while entries.Entry?
      invariant entries == contents.value || entries < contents.value
      invariant results.paths + LocalFiles(glob, base, dir, entries)
        == old(results.paths) + LocalFiles(glob, base, dir, contents.value)
      decreases entries
    {
      var Entry(name, node, rest) := entries;
      var full := dir + [name];
      if !Excluded(name) {
        match node {
          case Directory(below) => WalkDir(glob, base, full, below, results);
          case File => if Accepts(glob, base, full) { results.paths := results.paths + [full]; }
          case Other =>
        }
      }
      entries := rest;
    }
  }

  // ---- The backend walk -------------------------------------------------------------------------

  datatype FileStat = FileStat(isDirectory: bool, isFile: bool)

  /** A backend as the walk sees it. Nothing keeps it from being cyclic: `stat` follows links. */
  datatype Backend = Backend(list: Path -> Option<seq<Text>>, stat: Path -> Option<FileStat>)

  function BackendFiles(b: Backend, glob: Text, base: Path, dir: Path, depth: nat): seq<Path>
    requires |base| <= |dir|
    decreases MAX_BACKEND_WALK_DEPTH + 1 - depth, 1, 0
  {
    if depth > MAX_BACKEND_WALK_DEPTH then []
    else match b.list(dir)
      case None => []
      case Some(names) => BackendEntries(b, glob, base, dir, names, depth)
  }

  function BackendEntries(b: Backend, glob: Text, base: Path, dir: Path, names: seq<Text>, depth: nat): seq<Path>
    requires |base| <= |dir| && depth <= MAX_BACKEND_WALK_DEPTH
    decreases MAX_BACKEND_WALK_DEPTH + 1 - depth, 0, |names|
  {
    if names == [] then []
    else BackendEntry(b, glob, base, dir, names[0], depth) + BackendEntries(b, glob, base, dir, names[1..], depth)
  }

  function BackendEntry(b: Backend, glob: Text, base: Path, dir: Path, name: Text, depth: nat): seq<Path>
    requires |base| <= |dir| && depth <= MAX_BACKEND_WALK_DEPTH
    decreases MAX_BACKEND_WALK_DEPTH + 1 - depth, 0, 0
  {
    var full := dir + [name];
    if Excluded(name) then []
    else match b.stat(full)
      case None => []
      case Some(st) =>
        if st.isDirectory then BackendFiles(b, glob, base, full, depth + 1)
        else if st.isFile && Accepts(glob, base, full) then [full]
        else []
  }

  method WalkDirBackend(b: Backend, glob: Text, base: Path, dir: Path, results: Found, depth: nat)
    requires |base| <= |dir|
    modifies results
    ensures results.paths == old(results.paths) + BackendFiles(b, glob, base, dir, depth)
    decreases MAX_BACKEND_WALK_DEPTH + 1 - depth, 1
  {
    if depth > MAX_BACKEND_WALK_DEPTH { return; }
    var listed := b.list(dir);
    if listed.None? { return; }
    var names := listed.value;
    for i := 0 to |names|
      invariant results.paths + BackendEntries(b, glob, base, dir, names[i..], depth)
        == old(results.paths) + BackendEntries(b, glob, base, dir, names, depth)
    {
      assert names[i..][1..] == names[i + 1..];
      WalkBackendEntry(b, glob, base, dir, names[i], results, depth);
    }
  }

  method WalkBackendEntry(b: Backend, glob: Text, base: Path, dir: Path, name: Text, results: Found, depth: nat)
    requires |base| <= |dir| && depth <= MAX_BACKEND_WALK_DEPTH
    modifies results
    ensures results.paths == old(results.paths) + BackendEntry(b, glob, base, dir, name, depth)
    decreases MAX_BACKEND_WALK_DEPTH + 1 - depth, 0
  {
    if Excluded(name) { return; }
    var full := dir + [name];
    var st := b.stat(full);
    if st.None? { return; }
    if st.value.isDirectory {
      WalkDirBackend(b, glob, base, full, results, depth + 1);
    } else if st.value.isFile && Accepts(glob, base, full) {
      results.paths := results.paths + [full];
    }
  }

  // ---- What the walks report --------------------------------------------------------------------

  /** The listing leads to a file along these segments, none of them excluded. */
  ghost predicate Leads(listing: Listing, below: Path)
    decreases listing
  {
    match listing
    case End => false
    case Entry(name, node, rest) =>
      Leads(rest, below) || (below != [] && below[0] == name && !Excluded(name) && LeadsFrom(node, below[1..]))
  }

  ghost predicate LeadsFrom(node: Node, below: Path)
    decreases node
  {
    match node
    case File => below == []
    case Directory(Some(listing)) => Leads(listing, below)
    case _ => false
  }

  ghost predicate Below(p: Path, dir: Path) { |p| > |dir| && p[..|dir|] == dir }

  /** The local walk reports exactly the files below the directory that no excluded segment hides
      and whose path below the search root the glob matches. */
  lemma {:induction false} LocalWalkIsExact(glob: Text, base: Path, dir: Path, listing: Listing, p: Path)
    requires |base| <= |dir|
    ensures p in LocalFiles(glob, base, dir, listing) <==>
      Below(p, dir) && Leads(listing, p[|dir|..]) && Accepts(glob, base, p)
    decreases listing
  {
    match listing
    case End =>
    case Entry(name, node, rest) =>
      LocalWalkIsExact(glob, base, dir, rest, p);
      LocalEntryIsExact(glob, base, dir + [name], node, p);
      if Below(p, dir) {
        assert p[|dir|..][0] == p[|dir|] && p[|dir|..][1..] == p[|dir| + 1..];
        assert p[..|dir| + 1] == dir + [p[|dir|]];
      }
      if |p| > |dir| && p[..|dir| + 1] == dir + [name] {
        assert p[|dir|] == (dir + [name])[|dir|] == name;
        assert p[..|dir|] == p[..|dir| + 1][..|dir|] == dir;
      }
  }

  lemma {:induction false} LocalEntryIsExact(glob: Text, base: Path, full: Path, node: Node, p: Path)
    requires |base| < |full|
    ensures p in LocalEntry(glob, base, full, node) <==>
      && !Excluded(full[|full| - 1])
      && |p| >= |full| && p[..|full|] == full && LeadsFrom(node, p[|full|..]) && Accepts(glob, base, p)
    decreases node
  {
    match node
    case Directory(Some(listing)) =>
      LocalWalkIsExact(glob, base, full, listing, p);
      if |p| == |full| {
        assert p[|full|..] == [];
        EmptyPathLeadsNowhere(listing);
      }
    case File =>
      if p == full { assert p[|full|..] == [] && p[..|full|] == full; }
      if |p| >= |full| && p[|full|..] == [] && p[..|full|] == full { assert p == full; }
    case _ =>
  }

  lemma {:induction false} EmptyPathLeadsNowhere(listing: Listing)
    ensures !Leads(listing, [])
    decreases listing
  {
    if listing.Entry? { EmptyPathLeadsNowhere(listing.rest); }
  }

  function Names(listing: Listing): seq<Text> {
    match listing
    case End => []
    case Entry(name, _, rest) => [name] + Names(rest)
  }

  /** The backend stands for the tree: it lists each directory's names, in any order, and reports
      each entry's kind. */
  ghost predicate Mirrors(b: Backend, dir: Path, contents: Option<Listing>)
    decreases contents
  {
    match contents
    case None => b.list(dir).None?
    case Some(listing) =>
      && b.list(dir).Some?
      && multiset(b.list(dir).value) == multiset(Names(listing))
      && NoDup(Names(listing))
      && MirrorsEntries(b, dir, listing)
  }

  ghost predicate MirrorsEntries(b: Backend, dir: Path, listing: Listing)
    decreases listing
  {
    match listing
    case End => true
    case Entry(name, node, rest) => MirrorsNode(b, dir + [name], node) && MirrorsEntries(b, dir, rest)
  }

  ghost predicate MirrorsNode(b: Backend, full: Path, node: Node)
    decreases node
  {
    match node
    case File => b.stat(full) == Some(FileStat(false, true))
    case Other => b.stat(full) == Some(FileStat(false, false))
    case Directory(contents) => b.stat(full) == Some(FileStat(true, false)) && Mirrors(b, full, contents)
  }

  ghost predicate FromSome(b: Backend, glob: Text, base: Path, dir: Path, names: seq<Text>, depth: nat, p: Path)
    requires |base| <= |dir| && depth <= MAX_BACKEND_WALK_DEPTH
  {
    exists name :: name in names && p in BackendEntry(b, glob, base, dir, name, depth)
  }

  lemma FromHeadOrTail(b: Backend, glob: Text, base: Path, dir: Path, name: Text, rest: seq<Text>, depth: nat, p: Path)
    requires |base| <= |dir| && depth <= MAX_BACKEND_WALK_DEPTH
    ensures FromSome(b, glob, base, dir, [name] + rest, depth, p) <==>
      p in BackendEntry(b, glob, base, dir, name, depth) || FromSome(b, glob, base, dir, rest, depth, p)
  {
    assert name in [name] + rest;
    assert forall n :: n in rest ==> n in [name] + rest;
  }

  lemma {:induction false} BackendEntriesMembers(b: Backend, glob: Text, base: Path, dir: Path, names: seq<Text>, depth: nat, p: Path)
    requires |base| <= |dir| && depth <= MAX_BACKEND_WALK_DEPTH
    ensures p in BackendEntries(b, glob, base, dir, names, depth) <==> FromSome(b, glob, base, dir, names, depth, p)
    decreases |names|
  {
    if names != [] {
      BackendEntriesMembers(b, glob, base, dir, names[1..], depth, p);
      assert names == [names[0]] + names[1..];
      FromHeadOrTail(b, glob, base, dir, names[0], names[1..], depth, p);
    }
  }

  /** On a mirrored tree the backend walk reports exactly what the local walk reports, down to the
      depth limit: a file is missed only when it lies deeper than the limit lets the walk list. */
  lemma {:induction false} BackendWalkMatchesLocal(b: Backend, glob: Text, base: Path, dir: Path, contents: Option<Listing>, depth: nat, p: Path)
    requires |base| <= |dir| && Mirrors(b, dir, contents) && depth <= MAX_BACKEND_WALK_DEPTH + 1
    ensures p in BackendFiles(b, glob, base, dir, depth) <==>
      && contents.Some? && p in LocalFiles(glob, base, dir, contents.value)
      && |p| <= |dir| + MAX_BACKEND_WALK_DEPTH + 1 - depth
    decreases contents, 1
  {
    if contents.Some? {
      LocalWalkIsExact(glob, base, dir, contents.value, p);
      if depth <= MAX_BACKEND_WALK_DEPTH {
        var names := b.list(dir).value;
        BackendEntriesMembers(b, glob, base, dir, names, depth, p);
        SameNames(names, Names(contents.value));
        assert FromSome(b, glob, base, dir, names, depth, p)
          <==> FromSome(b, glob, base, dir, Names(contents.value), depth, p);
        EntriesMatchLocal(b, glob, base, dir, contents.value, depth, p);
      }
    }
  }

  lemma SameNames(a: seq<Text>, b: seq<Text>)
    requires multiset(a) == multiset(b)
    ensures forall n :: n in a <==> n in b
  {
    assert forall n :: n in a <==> n in multiset(a);
    assert forall n :: n in b <==> n in multiset(b);
  }

  lemma {:induction false} EntriesMatchLocal(b: Backend, glob: Text, base: Path, dir: Path, listing: Listing, depth: nat, p: Path)
    requires |base| <= |dir| && MirrorsEntries(b, dir, listing) && depth <= MAX_BACKEND_WALK_DEPTH
    ensures FromSome(b, glob, base, dir, Names(listing), depth, p) <==>
      && p in LocalFiles(glob, base, dir, listing)
      && |p| <= |dir| + MAX_BACKEND_WALK_DEPTH + 1 - depth
    decreases listing
  {
    match listing
    case End =>
    case Entry(name, node, rest) =>
      EntriesMatchLocal(b, glob, base, dir, rest, depth, p);
      FromHeadOrTail(b, glob, base, dir, name, Names(rest), depth, p);
      var full := dir + [name];
      if node.Directory? {
        BackendWalkMatchesLocal(b, glob, base, full, node.listing, depth + 1, p);
      }
  }

  /** Whatever the backend answers, the walk ends, and what it reports is a file by `stat`, below the
      directory, at most as deep as the limit allows, hidden by no excluded segment and accepted. */
  lemma {:induction false} BackendReportsOnlyFiles(b: Backend, glob: Text, base: Path, dir: Path, depth: nat, p: Path)
    requires |base| <= |dir| && p in BackendFiles(b, glob, base, dir, depth)
    ensures Below(p, dir) && |p| <= |dir| + MAX_BACKEND_WALK_DEPTH + 1 - depth
    ensures b.stat(p).Some? && b.stat(p).value.isFile && Accepts(glob, base, p)
    ensures forall i :: |dir| <= i < |p| ==> !Excluded(p[i])
    decreases MAX_BACKEND_WALK_DEPTH + 1 - depth, 1
  {
    var names := b.list(dir).value;
    BackendEntriesMembers(b, glob, base, dir, names, depth, p);
    var name :| name in names && p in BackendEntry(b, glob, base, dir, name, depth);
    BackendEntryBelow(b, glob, base, dir, name, depth, p);
  }

  lemma {:induction false} BackendEntryBelow(b: Backend, glob: Text, base: Path, dir: Path, name: Text, depth: nat, p: Path)
    requires |base| <= |dir| && depth <= MAX_BACKEND_WALK_DEPTH && p in BackendEntry(b, glob, base, dir, name, depth)
    ensures Below(p, dir) && p[|dir|] == name && |p| <= |dir| + MAX_BACKEND_WALK_DEPTH + 1 - depth
    ensures b.stat(p).Some? && b.stat(p).value.isFile && Accepts(glob, base, p)
    ensures forall i :: |dir| <= i < |p| ==> !Excluded(p[i])
    decreases MAX_BACKEND_WALK_DEPTH + 1 - depth, 0
  {
    var full := dir + [name];
    assert full[..|dir|] == dir && full[|dir|] == name;
    if b.stat(full).value.isDirectory {
      BackendReportsOnlyFiles(b, glob, base, full, depth + 1, p);
      assert p[..|dir|] == p[..|full|][..|dir|];
      assert p[|dir|] == p[..|full|][|dir|];
    }
  }

  // ---- What the pattern is matched against --------------------------------------------------------

  /** Only the path below the search root counts: the same tree under another root reports the same files
      below it. */
  lemma LocalWalkMovesAlong(glob: Text, base: Path, other: Path, listing: Listing, below: Path)
    requires below != []
    ensures base + below in LocalFiles(glob, base, base, listing) <==>
      other + below in LocalFiles(glob, other, other, listing)
  {
    LocalWalkIsExact(glob, base, base, listing, base + below);
    LocalWalkIsExact(glob, other, other, listing, other + below);
    assert (base + below)[|base|..] == below && (other + below)[|other|..] == below;
    assert (base + below)[..|base|] == base && (other + below)[..|other|] == other;
  }

  /** Backend `c` answers under `other` as backend `b` does under `base`. */
  ghost predicate MovedAlong(b: Backend, base: Path, c: Backend, other: Path) {
    forall x :: c.list(other + x) == b.list(base + x) && c.stat(other + x) == b.stat(base + x)
  }

  lemma AcceptsBelow(glob: Text, base: Path, other: Path, below: Path)
    ensures Accepts(glob, base, base + below) <==> Accepts(glob, other, other + below)
  {
    assert (base + below)[|base|..] == below && (other + below)[|other|..] == below;
  }

  lemma SameBehind(base: Path, x: Path, y: Path)
    ensures base + x == base + y <==> x == y
  {
    assert (base + x)[|base|..] == x && (base + y)[|base|..] == y;
  }

  /** The same for the backend walk, whatever the backends answer. */
  lemma {:induction false} BackendWalkMovesAlong(b: Backend, base: Path, c: Backend, other: Path, glob: Text, dir: Path, below: Path, depth: nat)
    requires MovedAlong(b, base, c, other)
    ensures base + below in BackendFiles(b, glob, base, base + dir, depth) <==>
      other + below in BackendFiles(c, glob, other, other + dir, depth)
    decreases MAX_BACKEND_WALK_DEPTH + 1 - depth, 1
  {
    if depth <= MAX_BACKEND_WALK_DEPTH {
      assert c.list(other + dir) == b.list(base + dir);
      if b.list(base + dir).Some? {
        var names := b.list(base + dir).value;
        BackendEntriesMembers(b, glob, base, base + dir, names, depth, base + below);
        BackendEntriesMembers(c, glob, other, other + dir, names, depth, other + below);
        forall name | name in names
          ensures base + below in BackendEntry(b, glob, base, base + dir, name, depth) <==>
                  other + below in BackendEntry(c, glob, other, other + dir, name, depth)
        {
          BackendEntryMovesAlong(b, base, c, other, glob, dir, name, below, depth);
        }
      }
    }
  }

  lemma {:induction false} BackendEntryMovesAlong(b: Backend, base: Path, c: Backend, other: Path, glob: Text, dir: Path, name: Text, below: Path, depth: nat)
    requires MovedAlong(b, base, c, other) && depth <= MAX_BACKEND_WALK_DEPTH
    ensures base + below in BackendEntry(b, glob, base, base + dir, name, depth) <==>
      other + below in BackendEntry(c, glob, other, other + dir, name, depth)
    decreases MAX_BACKEND_WALK_DEPTH + 1 - depth, 0
  {
    var full := dir + [name];
    assert base + dir + [name] == base + full && other + dir + [name] == other + full;
    assert c.stat(other + full) == b.stat(base + full);
    AcceptsBelow(glob, base, other, full);
    SameBehind(base, below, full);
    SameBehind(other, below, full);
    if !Excluded(name) && b.stat(base + full).Some? && b.stat(base + full).value.isDirectory {
      BackendWalkMovesAlong(b, base, c, other, glob, full, below, depth + 1);
    }
  }

  /** Names without a slash or a wildcard. */
  ghost predicate PlainNames(names: Path) {
    forall i :: 0 <= i < |names| ==> SLASH !in names[i] && STAR !in names[i] && QUESTION !in names[i]
  }

  /** The names with a slash between each two. */
  function Slashed(names: Path): Text
    requires names != []
  {
    if |names| == 1 then names[0] else Slashed(names[..|names| - 1]) + Ascii("/") + names[|names| - 1]
  }

  lemma {:induction false} JoinedSnoc(p: Path, name: Text)
    requires p != []
    ensures Joined(p + [name]) == Joined(p) + [SLASH] + name
  {
    if |p| == 1 {
      assert (p + [name])[1..] == [name];
    } else {
      assert (p + [name])[1..] == p[1..] + [name];
      JoinedSnoc(p[1..], name);
      AppendAssociative(p[0] + [SLASH], Joined(p[1..]), [SLASH] + name);
    }
  }

  lemma {:induction false} SlashedIsJoined(names: Path)
    requires names != []
    ensures Slashed(names) == Joined(names)
    decreases |names|
  {
    if |names| > 1 {
      var front, last := names[..|names| - 1], names[|names| - 1];
      assert names == front + [last] && Ascii("/") == [SLASH];
      SlashedIsJoined(front);
      JoinedSnoc(front, last);
    }
  }

  lemma {:induction false} JoinedIsPlain(names: Path)
    requires PlainNames(names)
    ensures STAR !in Joined(names) && QUESTION !in Joined(names)
  {
    if |names| > 1 { JoinedIsPlain(names[1..]); }
  }

  lemma CutAtSlash(a: Text, x: Text, b: Text, y: Text)
    requires SLASH !in a && SLASH !in b && a + [SLASH] + x == b + [SLASH] + y
    ensures a == b && x == y
  {
    var s, t := a + [SLASH] + x, b + [SLASH] + y;
    assert s[|a|] == SLASH && t[|b|] == SLASH;
    assert forall k :: 0 <= k < |a| ==> s[k] in a;
    assert forall k :: 0 <= k < |b| ==> t[k] in b;
    assert |a| == |b|;
    assert a == s[..|a|] && b == t[..|b|] && x == s[|a| + 1..] && y == t[|b| + 1..];
  }

  lemma SlashBetween(p: Path)
    ensures |p| > 1 ==> SLASH in Joined(p)
  {
    if |p| > 1 { assert Joined(p)[|p[0]|] == SLASH; }
  }

  /** Segments without slashes can be read off their text. */
  lemma {:induction false} JoinedTellsSegments(p: Path, q: Path)
    requires p != [] && q != [] && Joined(p) == Joined(q)
    requires (forall i :: 0 <= i < |p| ==> SLASH !in p[i]) && (forall i :: 0 <= i < |q| ==> SLASH !in q[i])
    ensures p == q
    decreases |p|
  {
    SlashBetween(p);
    SlashBetween(q);
    if |p| > 1 && |q| > 1 {
      CutAtSlash(p[0], Joined(p[1..]), q[0], Joined(q[1..]));
      JoinedTellsSegments(p[1..], q[1..]);
      assert p == [p[0]] + p[1..] && q == [q[0]] + q[1..];
    }
  }

  /** A glob that spells out plain names with slashes between them reports the file the listing holds under
      these names below the search root, if it does, and no other. */
  lemma SpelledOutGlob(base: Path, listing: Listing, names: Path, p: Path)
    requires names != [] && PlainNames(names)
    requires forall i :: |base| <= i < |p| ==> SLASH !in p[i]
    ensures p in LocalFiles(Slashed(names), base, base, listing) <==> p == base + names && Leads(listing, names)
  {
    var glob := Slashed(names);
    SlashedIsJoined(names);
    JoinedIsPlain(names);
    LocalWalkIsExact(glob, base, base, listing, p);
    if Below(p, base) {
      var below := p[|base|..];
      assert p == base + below;
      PlainGlobIsLiteral(glob, Joined(below));
      if Joined(below) == glob { JoinedTellsSegments(below, names); }
    }
    if p == base + names { assert Below(p, base) && p[|base|..] == names; }
  }

  /** The listing leads to a file, excluded names or not. */
  ghost predicate Holds(listing: Listing, below: Path)
    decreases listing
  {
    match listing
    case End => false
    case Entry(name, node, rest) =>
      Holds(rest, below) || (below != [] && below[0] == name && HoldsNode(node, below[1..]))
  }

  ghost predicate HoldsNode(node: Node, below: Path)
    decreases node
  {
    match node
    case File => below == []
    case Directory(Some(listing)) => Holds(listing, below)
    case _ => false
  }

  ghost predicate NoneHidden(below: Path) {
    forall i :: 0 <= i < |below| ==>
      below[i] != Ascii("node_modules") && below[i] != Ascii(".git") && below[i] != Ascii("dist") && below[i] != Ascii(".theo")
  }

  /** The walk is led to a file exactly when the tree holds it under names none of which is one of the four
      left out. */
  lemma {:induction false} LeadsIffNoneHidden(listing: Listing, below: Path)
    ensures Leads(listing, below) <==> Holds(listing, below) && NoneHidden(below)
    decreases listing
  {
    match listing
    case End =>
    case Entry(name, node, rest) =>
      LeadsIffNoneHidden(rest, below);
      if below != [] && below[0] == name {
        LeadsFromIffNoneHidden(node, below[1..]);
        HiddenHeadOrTail(below);
      }
  }

  lemma HiddenHeadOrTail(below: Path)
    requires below != []
    ensures NoneHidden(below) <==> !Excluded(below[0]) && NoneHidden(below[1..])
  {
    assert below == [below[0]] + below[1..];
    if NoneHidden(below[1..]) && !Excluded(below[0]) {
      assert forall i :: 0 < i < |below| ==> below[i] == below[1..][i - 1];
    }
    if NoneHidden(below) {
      assert forall i :: 0 <= i < |below| - 1 ==> below[1..][i] == below[i + 1];
    }
  }

  lemma {:induction false} LeadsFromIffNoneHidden(node: Node, below: Path)
    ensures LeadsFrom(node, below) <==> HoldsNode(node, below) && NoneHidden(below)
    decreases node
  {
    match node
    case Directory(Some(listing)) => LeadsIffNoneHidden(listing, below);
    case _ =>
  }

  // ---- Both walks give one sorted list ------------------------------------------------------------

  lemma {:induction false} LeadsThroughName(listing: Listing, below: Path)
    requires Leads(listing, below)
    ensures below != [] && below[0] in Names(listing)
    decreases listing
  {
    if Leads(listing.rest, below) { LeadsThroughName(listing.rest, below); }
  }

  /** No directory of the tree names an entry twice. */
  ghost predicate DistinctNames(listing: Listing)
    decreases listing
  {
    match listing
    case End => true
    case Entry(name, node, rest) =>
      && name !in Names(rest) && DistinctNames(rest)
      && (node.Directory? && node.listing.Some? ==> DistinctNames(node.listing.value))
  }

  lemma {:induction false} MirroredNamesAreDistinct(b: Backend, dir: Path, listing: Listing)
    requires MirrorsEntries(b, dir, listing) && NoDup(Names(listing))
    ensures DistinctNames(listing)
    decreases listing
  {
    match listing
    case End =>
    case Entry(name, node, rest) =>
      DisjointParts([name], Names(rest));
      assert name in [name];
      MirroredNamesAreDistinct(b, dir, rest);
      assert MirrorsNode(b, dir + [name], node);
      if node.Directory? && node.listing.Some? {
        assert Mirrors(b, dir + [name], node.listing);
        MirroredNamesAreDistinct(b, dir + [name], node.listing.value);
      }
  }

  lemma {:induction false} LocalReportsOnce(glob: Text, base: Path, dir: Path, listing: Listing)
    requires |base| <= |dir| && DistinctNames(listing)
    ensures NoDup(LocalFiles(glob, base, dir, listing))
    decreases listing
  {
    match listing
    case End =>
    case Entry(name, node, rest) =>
      var full := dir + [name];
      LocalReportsOnce(glob, base, dir, rest);
      if node.Directory? && node.listing.Some? { LocalReportsOnce(glob, base, full, node.listing.value); }
      assert full[..|full| - 1] == dir;
      forall p | p in LocalEntry(glob, base, full, node) ensures p !in LocalFiles(glob, base, dir, rest) {
        LocalEntryIsExact(glob, base, full, node, p);
        LocalWalkIsExact(glob, base, dir, rest, p);
        assert p[|dir|] == p[..|full|][|dir|] == name;
        if Leads(rest, p[|dir|..]) { LeadsThroughName(rest, p[|dir|..]); }
      }
      JoinDistinct(LocalEntry(glob, base, full, node), LocalFiles(glob, base, dir, rest));
  }

  /** A listing never names an entry twice. */
  ghost predicate DistinctListings(b: Backend) {
    forall d :: b.list(d).Some? ==> NoDup(b.list(d).value)
  }

  lemma {:induction false} BackendReportsOnce(b: Backend, glob: Text, base: Path, dir: Path, depth: nat)
    requires |base| <= |dir| && DistinctListings(b)
    ensures NoDup(BackendFiles(b, glob, base, dir, depth))
    decreases MAX_BACKEND_WALK_DEPTH + 1 - depth
  {
    if depth <= MAX_BACKEND_WALK_DEPTH && b.list(dir).Some? {
      var names := b.list(dir).value;
      forall name | name in names ensures NoDup(BackendEntry(b, glob, base, dir, name, depth)) {
        if b.stat(dir + [name]).Some? { BackendReportsOnce(b, glob, base, dir + [name], depth + 1); }
      }
      EntriesReportOnce(b, glob, base, dir, names, depth);
    }
  }

  /** Distinct entries report distinct files. */
  lemma {:induction false} EntriesReportOnce(b: Backend, glob: Text, base: Path, dir: Path, names: seq<Text>, depth: nat)
    requires |base| <= |dir| && depth <= MAX_BACKEND_WALK_DEPTH && NoDup(names)
    requires forall name :: name in names ==> NoDup(BackendEntry(b, glob, base, dir, name, depth))
    ensures NoDup(BackendEntries(b, glob, base, dir, names, depth))
    decreases |names|
  {
    if names != [] {
      var name, rest := names[0], names[1..];
      assert names == [name] + rest;
      DisjointParts([name], rest);
      assert name in [name];
      EntriesReportOnce(b, glob, base, dir, rest, depth);
      var first := BackendEntry(b, glob, base, dir, name, depth);
      forall p | p in first ensures p !in BackendEntries(b, glob, base, dir, rest, depth) {
        BackendEntryBelow(b, glob, base, dir, name, depth, p);
        BackendEntriesMembers(b, glob, base, dir, rest, depth, p);
        forall other | other in rest ensures p !in BackendEntry(b, glob, base, dir, other, depth) {
          if p in BackendEntry(b, glob, base, dir, other, depth) {
            BackendEntryBelow(b, glob, base, dir, other, depth, p);
          }
        }
      }
      JoinDistinct(first, BackendEntries(b, glob, base, dir, rest, depth));
    }
  }

  /** A backend that mirrors a tree lists no name twice wherever the walk gets to. */
  lemma {:induction false} MirrorReportsOnce(b: Backend, glob: Text, base: Path, dir: Path, contents: Option<Listing>, depth: nat)
    requires |base| <= |dir| && Mirrors(b, dir, contents)
    ensures NoDup(BackendFiles(b, glob, base, dir, depth))
    decreases contents, 1
  {
    if depth <= MAX_BACKEND_WALK_DEPTH && contents.Some? {
      var names, listing := b.list(dir).value, contents.value;
      PermutedDistinct(Names(listing), names);
      SameNames(names, Names(listing));
      forall name | name in names ensures NoDup(BackendEntry(b, glob, base, dir, name, depth)) {
        MirrorEntryOnce(b, glob, base, dir, listing, name, depth);
      }
      EntriesReportOnce(b, glob, base, dir, names, depth);
    }
  }

  lemma {:induction false} MirrorEntryOnce(b: Backend, glob: Text, base: Path, dir: Path, listing: Listing, name: Text, depth: nat)
    requires |base| <= |dir| && MirrorsEntries(b, dir, listing) && name in Names(listing)
    requires depth <= MAX_BACKEND_WALK_DEPTH
    ensures NoDup(BackendEntry(b, glob, base, dir, name, depth))
    decreases listing, 0
  {
    if name == listing.name {
      assert MirrorsNode(b, dir + [name], listing.node);
      if listing.node.Directory? {
        MirrorReportsOnce(b, glob, base, dir + [name], listing.node.listing, depth + 1);
      }
    } else {
      MirrorEntryOnce(b, glob, base, dir, listing.rest, name, depth);
    }
  }

  lemma PermutedDistinct<T>(a: seq<T>, b: seq<T>)
    requires NoDup(a) && multiset(a) == multiset(b)
    ensures NoDup(b)
  {
    NoDupIsDistinct(a);
    NoDupIsDistinct(b);
    forall i, j | 0 <= i < j < |b| ensures b[i] != b[j] {
      OnceEach(a, b[i]);
      if b[i] == b[j] { Twice(b, i, j); }
    }
  }

  function Texts(paths: seq<Path>): (r: seq<Text>)
    ensures |r| == |paths|
  {
    if paths == [] then [] else [Joined(paths[0])] + Texts(paths[1..])
  }

  lemma {:induction false} TextsAround(a: seq<Path>, p: Path, c: seq<Path>)
    ensures multiset(Texts(a + [p] + c)) == multiset(Texts(a + c)) + multiset{Joined(p)}
  {
    if a == [] {
      assert a + [p] + c == [p] + c && ([p] + c)[1..] == c && a + c == c;
    } else {
      assert (a + [p] + c)[1..] == a[1..] + [p] + c && (a + c)[1..] == a[1..] + c;
      TextsAround(a[1..], p, c);
    }
  }

  lemma {:induction false} TextsOfPermutation(a: seq<Path>, b: seq<Path>)
    requires multiset(a) == multiset(b)
    ensures multiset(Texts(a)) == multiset(Texts(b))
  {
    assert |multiset(a)| == |a| && |multiset(b)| == |b|;
    if a != [] {
      SameMembers(a, b);
      assert a[0] in a && a[0] in b;
      var i :| 0 <= i < |b| && b[i] == a[0];
      RemoveAt(b, i);
      RemoveAt(a, 0);
      assert a[..0] == [] && [] + a[1..] == a[1..];
      TextsAround(b[..i], a[0], b[i + 1..]);
      TextsAround([], a[0], a[1..]);
      TextsOfPermutation(a[1..], b[..i] + b[i + 1..]);
    }
  }

  ghost predicate WithinDepth(cwd: Path, paths: seq<Path>) {
    forall p :: p in paths ==> |p| - |cwd| <= 65
  }

  lemma SortedTexts(a: seq<Path>, b: seq<Path>)
    requires NoDup(a) && NoDup(b)
    ensures (forall p :: p in a <==> p in b) ==> Sort(Texts(a)) == Sort(Texts(b))
    ensures |Sort(Texts(a))| == |a| && |Sort(Texts(b))| == |b|
  {
    assert |multiset(Sort(Texts(a)))| == |multiset(Texts(a))|;
    assert |multiset(Sort(Texts(b)))| == |multiset(Texts(b))|;
    if forall p :: p in a <==> p in b {
      SameElementsSameMultiset(a, b);
      TextsOfPermutation(a, b);
      SortedListingIsUnique(Sort(Texts(a)), Sort(Texts(b)));
    }
  }

  lemma StrictlyFewer(a: seq<Path>, b: seq<Path>, p: Path)
    requires NoDup(a) && NoDup(b) && p in b && p !in a && forall q :: q in a ==> q in b
    ensures |a| < |b|
  {
    NoDupCardinality(a);
    NoDupCardinality(b);
    SubsetCardinality(ToSet(a), ToSet(b) - {p});
  }

  /** On a tree without symlinks both walks give the caller the same sorted list exactly when no
      reported file lies more than one segment below the deepest directory the backend walk lists. */
  lemma WalksAgreeUpToDepth(b: Backend, glob: Text, cwd: Path, listing: Listing)
    requires Mirrors(b, cwd, Some(listing))
    ensures Sort(Texts(BackendFiles(b, glob, cwd, cwd, 0))) == Sort(Texts(LocalFiles(glob, cwd, cwd, listing)))
      <==> WithinDepth(cwd, LocalFiles(glob, cwd, cwd, listing))
  {
    var local, remote := LocalFiles(glob, cwd, cwd, listing), BackendFiles(b, glob, cwd, cwd, 0);
    forall p ensures p in remote <==> p in local && |p| <= |cwd| + MAX_BACKEND_WALK_DEPTH + 1 {
      BackendWalkMatchesLocal(b, glob, cwd, cwd, Some(listing), 0, p);
    }
    MirroredNamesAreDistinct(b, cwd, listing);
    LocalReportsOnce(glob, cwd, cwd, listing);
    MirrorReportsOnce(b, glob, cwd, cwd, Some(listing), 0);
    SortedTexts(remote, local);
    if !WithinDepth(cwd, local) {
      var p :| p in local && |p| - |cwd| > 65;
      StrictlyFewer(remote, local, p);
    }
  }
}

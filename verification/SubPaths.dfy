/** The sub-path of a marketplace: discovery normalises it, the reconciler joins it as it was given.
    Which sub-paths publish what discovery found. */
module SubPaths {
  import opened Strings
  import opened Paths
  import opened TarSafety
  import opened SkillVerify
  import opened SkillTree
  import opened SkillPipeline

  // ----- Outer blanks and slashes

  /** The reconciler joins the sub-path it was given, not the normalised one. */
  function SubtreePath(subPath: string, dir: string): (r: string) {
    if subPath == "" then dir else Join2(subPath, dir)
  }

  function TrimSpace(p: string): (r: string) {
    TrimSpaceRight(TrimSpaceLeft(p))
  }

  predicate NoOuterSpace(p: string) {
    TrimSpace(p) == p
  }

  lemma {:induction false} TrimSpaceRightLast(s: string, c: char)
    requires IsSpace(c)
    ensures TrimSpaceRight(s + [c]) == TrimSpaceRight(s)
  {
  }

  lemma {:induction false} TrimSpaceLeftAppend(s: string, c: char)
    requires IsSpace(c)
    ensures TrimSpaceRight(TrimSpaceLeft(s + [c])) == TrimSpaceRight(TrimSpaceLeft(s))
  {
    if s == [] {
      assert s + [c] == [c] && [c][1..] == [];
    } else if IsSpace(s[0]) {
      assert (s + [c])[1..] == s[1..] + [c];
      TrimSpaceLeftAppend(s[1..], c);
    } else {
      TrimSpaceRightLast(s, c);
    }
  }

  /** Outer blanks never matter to the sub-path, and neither does a slash before a path that has none. */
  lemma SubPathOuter(p: string, c: char)
    requires IsSpace(c)
    ensures NormSubPath([c] + p) == NormSubPath(p) == NormSubPath(p + [c])
    ensures p != "" && NoOuterSpace(p) ==> NormSubPath("/" + p) == NormSubPath(p)
  {
    assert ([c] + p)[1..] == p;
    TrimSpaceLeftAppend(p, c);
    if p != "" && NoOuterSpace(p) {
      LeadingSlash(p);
    }
  }

  lemma {:induction false} TrimSpaceLeftShort(p: string)
    ensures |TrimSpaceLeft(p)| <= |p| && (p != "" && IsSpace(p[0]) ==> |TrimSpaceLeft(p)| < |p|)
  {
    if p != [] && IsSpace(p[0]) {
      TrimSpaceLeftShort(p[1..]);
    }
  }

  lemma {:induction false} TrimSpaceRightShort(p: string)
    ensures |TrimSpaceRight(p)| <= |p| && (p != "" && IsSpace(p[|p| - 1]) ==> |TrimSpaceRight(p)| < |p|)
  {
    if p != [] && IsSpace(p[|p| - 1]) {
      TrimSpaceRightShort(p[..|p| - 1]);
    }
  }

  lemma LeadingSlash(p: string)
    requires p != "" && NoOuterSpace(p)
    ensures NormSubPath("/" + p) == NormSubPath(p)
  {
    TrimSpaceLeftShort(p);
    TrimSpaceRightShort(TrimSpaceLeft(p));
    assert TrimSpaceLeft(p) == p;
    TrimSpaceRightShort(p);
    var q := "/" + p;
    assert q[|q| - 1] == p[|p| - 1] && q[1..] == p;
    assert TrimSpaceRight(TrimSpaceLeft(q)) == q;
    assert TrimSlashLeft(q) == TrimSlashLeft(p);
  }

  lemma {:induction false} TrailingSlashesReduce(p: string)
    ensures Reduce(false, [], Split(TrimTrailing(p))) == Reduce(false, [], Split(p))
  {
    if p != [] && p[|p| - 1] == '/' {
      var q := p[..|p| - 1];
      TrailingSlashesReduce(q);
      assert p == q + "/" + "";
      SplitConcat(q, "");
      ReduceConcat(false, [], Split(q), [""]);
    }
  }

  lemma {:induction false} LeadingSlashesReduce(p: string)
    ensures Reduce(false, [], Split(TrimSlashLeft(p))) == Reduce(false, [], Split(p))
  {
    if p != [] && p[0] == '/' {
      LeadingSlashesReduce(p[1..]);
      assert Split(p)[1..] == Split(p[1..]);
    }
  }

  // ----- Both readings as segments

  /** The segments cleaning leaves of a relative path. */
  function Segs(p: string): (r: seq<string>) {
    Reduce(false, [], Split(p))
  }

  /** The text of reduced segments, "" for none. */
  function Text(segs: seq<string>): (r: string) {
    if segs == [] then "" else Join(segs)
  }

  lemma SegsReduced(p: string)
    ensures Reduced(Segs(p))
  {
    SplitSegments(p);
    ReduceReduced(false, [], Split(p));
  }

  lemma CleanOfSegs(p: string)
    requires p == "" || p[0] != '/'
    ensures Clean(p) == if Segs(p) == [] then "." else Join(Segs(p))
  {
  }

  lemma TextShape(segs: seq<string>)
    requires segs != [] && Reduced(segs)
    ensures Split(Join(segs)) == segs && CleanRel(Join(segs))
    ensures Join(segs) != "." && Join(segs) != "" && Join(segs)[0] != '/'
  {
    SplitJoin(segs);
    CleanRelNoSlash(Join(segs));
  }

  lemma NormIsText(p: string)
    ensures NormSubPath(p) == Text(Segs(TrimSpace(p)))
  {
    var q := TrimSpace(p);
    var r := TrimSlashLeft(q);
    LeadingSlashesReduce(q);
    TrailingSlashesReduce(r);
    TrimSlashLeftShape(q);
    TrimTrailingShape(r);
    CleanOfSegs(TrimTrailing(r));
    SegsReduced(q);
    if Segs(q) != [] {
      TextShape(Segs(q));
    }
  }

  lemma JoinDir(segs: seq<string>, dir: string)
    requires Reduced(segs) && ValidSkillName(dir)
    ensures Join(segs + [dir]) == SubtreeOf(Text(segs), dir)
  {
    ValidNameIsSegment(dir);
    if segs == [] {
      assert segs + [dir] == [dir];
    } else {
      TextShape(segs);
      JoinAppend(segs, [dir]);
    }
  }

  /** The joined path keeps the sub-path's own segments. */
  lemma RelativeJoin(p: string, dir: string)
    requires ValidSkillName(dir) && (p == "" || p[0] != '/')
    ensures SubtreePath(p, dir) == SubtreeOf(Text(Segs(p)), dir)
  {
    ValidNameIsSegment(dir);
    if p != "" {
      var segs := Segs(p);
      SplitConcat(p, dir);
      ReduceConcat(false, [], Split(p), [dir]);
      assert [dir][1..] == [];
      assert Reduce(false, segs, [dir]) == Step(false, segs, dir) == segs + [dir];
      SegsReduced(p);
      JoinDir(segs, dir);
    }
  }

  /** Trimming blanks and slashes changes nothing that cleaning would not. */
  ghost predicate Kept(p: string) {
    NormSubPath(p) == if Clean(p) == "." then "" else Clean(p)
  }

  lemma KeptIsSameSegs(p: string)
    requires p == "" || p[0] != '/'
    ensures Kept(p) <==> Segs(p) == Segs(TrimSpace(p))
  {
    NormIsText(p);
    CleanOfSegs(p);
    SegsReduced(p);
    SegsReduced(TrimSpace(p));
    if Segs(p) != [] {
      TextShape(Segs(p));
    }
    if Segs(TrimSpace(p)) != [] {
      TextShape(Segs(TrimSpace(p)));
    }
  }

  lemma RootedNotKept(p: string)
    requires p != "" && p[0] == '/'
    ensures !Kept(p)
  {
    NormSubPathShape(p);
    if NormSubPath(p) != "" {
      CleanRelNoSlash(NormSubPath(p));
    }
  }

  // ----- A blank that trimming drops stays in the joined path

  predicate EdgeBlank(seg: string) {
    seg != "" && (IsSpace(seg[0]) || IsSpace(seg[|seg| - 1]))
  }

  ghost predicate SomeEdgeBlank(segs: seq<string>) {
    exists i :: 0 <= i < |segs| && EdgeBlank(segs[i])
  }

  predicate AllBlank(s: string) {
    forall c | c in s :: IsSpace(c)
  }

  lemma {:induction false} TrimLeftParts(p: string) returns (lead: string)
    ensures p == lead + TrimSpaceLeft(p) && AllBlank(lead)
  {
    if p != [] && IsSpace(p[0]) {
      lead := TrimLeftParts(p[1..]);
      lead := [p[0]] + lead;
    } else {
      lead := "";
    }
  }

  lemma {:induction false} TrimRightParts(p: string) returns (trail: string)
    ensures p == TrimSpaceRight(p) + trail && AllBlank(trail)
  {
    if p != [] && IsSpace(p[|p| - 1]) {
      trail := TrimRightParts(p[..|p| - 1]);
      trail := trail + [p[|p| - 1]];
    } else {
      trail := "";
    }
  }

  lemma BlankHasNoSlash(s: string)
    requires AllBlank(s)
    ensures '/' !in s
  {
  }

  lemma SplitConsSegment(c: char, t: string, first: string, rest: seq<string>)
    requires c != '/' && Split(t) == [first] + rest
    ensures Split([c] + t) == [[c] + first] + rest
  {
    SplitCons(c, t);
    assert ([first] + rest)[1..] == rest;
  }

  lemma {:induction false} SplitLead(lead: string, s: string, first: string, rest: seq<string>)
    requires '/' !in lead && Split(s) == [first] + rest
    ensures Split(lead + s) == [lead + first] + rest
  {
    if lead == [] {
      assert lead + s == s && lead + first == first;
    } else {
      assert lead[0] in lead && forall c | c in lead[1..] :: c in lead;
      SplitLead(lead[1..], s, first, rest);
      SplitConsSegment(lead[0], lead[1..] + s, lead[1..] + first, rest);
      assert lead + s == [lead[0]] + (lead[1..] + s);
      assert lead + first == [lead[0]] + (lead[1..] + first);
    }
  }

  /** The last segment ends with x. */
  predicate EndsWith(segs: seq<string>, x: char) {
    segs != [] && segs[|segs| - 1] != "" && segs[|segs| - 1][|segs[|segs| - 1]| - 1] == x
  }

  lemma SplitConsEnds(c: char, t: string, x: char)
    requires EndsWith(Split(t), x)
    ensures EndsWith(Split([c] + t), x)
  {
    SplitCons(c, t);
  }

  lemma {:induction false} SplitTrail(s: string, trail: string)
    requires '/' !in trail && trail != ""
    ensures EndsWith(Split(s + trail), trail[|trail| - 1])
  {
    if s == [] {
      assert s + trail == trail;
      SplitOne(trail);
    } else {
      SplitTrail(s[1..], trail);
      SplitConsEnds(s[0], s[1..] + trail, trail[|trail| - 1]);
      assert s + trail == [s[0]] + (s[1..] + trail);
    }
  }

  lemma StepPushesBlank(stack: seq<string>, seg: string)
    requires EdgeBlank(seg)
    ensures Step(false, stack, seg) == stack + [seg]
  {
  }

  /** A trailing blank makes the last segment one that survives. */
  lemma TrailSurvives(s: string, trail: string)
    requires AllBlank(trail) && trail != ""
    ensures SomeEdgeBlank(Segs(s + trail))
  {
    BlankHasNoSlash(trail);
    SplitTrail(s, trail);
    assert trail[|trail| - 1] in trail;
    var segs := Split(s + trail);
    var init, last := segs[..|segs| - 1], segs[|segs| - 1];
    assert segs == init + [last] && [last][1..] == [];
    ReduceConcat(false, [], init, [last]);
    var stack := Reduce(false, [], init);
    StepPushesBlank(stack, last);
    assert Reduce(false, stack, [last]) == stack + [last];
    assert EdgeBlank((stack + [last])[|stack|]);
  }

  lemma {:induction false} DotDotStays(stack: seq<string>, segs: seq<string>)
    requires stack != [] && stack[0] == ".."
    ensures var r := Reduce(false, stack, segs); r != [] && r[0] == ".."
    decreases |segs|
  {
    if segs != [] {
      DotDotStays(Step(false, stack, segs[0]), segs[1..]);
    }
  }

  predicate NoUp(segs: seq<string>) {
    ".." !in segs
  }

  /** Over a bottom segment x instead of `floor`, the walk ends with x still at the bottom, in the same
      place, or above the start. */
  lemma {:induction false} BottomSurvives(x: string, floor: seq<string>, u: seq<string>, segs: seq<string>)
    requires x != ".." && |floor| <= 1 && NoUp(floor) && NoUp(u)
    ensures
      var p, n := Reduce(false, [x] + u, segs), Reduce(false, floor + u, segs);
      p == n || (p != [] && p[0] == x) || (n != [] && n[0] == "..")
    decreases |segs|
  {
    if segs != [] {
      var seg := segs[0];
      if seg == ".." && u == [] {
        assert Step(false, [x] + u, seg) == [];
        if floor == [] {
          assert Step(false, floor + u, seg) == [".."];
          DotDotStays([".."], segs[1..]);
        } else {
          assert Step(false, floor + u, seg) == [];
        }
      } else {
        var u' := Step(false, u, seg);
        assert Step(false, [x] + u, seg) == [x] + u' && Step(false, floor + u, seg) == floor + u';
        BottomSurvives(x, floor, u', segs[1..]);
      }
    }
  }

  /** A leading blank makes the first segment one that survives, unless what follows removes it, and
      then it removes the trimmed one too. */
  lemma LeadSurvives(lead: string, q: string)
    requires AllBlank(lead) && lead != "" && (Segs(q) == [] || Segs(q)[0] != "..")
    ensures Segs(lead + q) == Segs(q) || SomeEdgeBlank(Segs(lead + q))
  {
    BlankHasNoSlash(lead);
    var segs := Split(q);
    SplitLead(lead, q, segs[0], segs[1..]);
    var x, floor := lead + segs[0], Step(false, [], segs[0]);
    assert lead[0] in lead && x[0] == lead[0];
    StepPushesBlank([], x);
    assert [] + [x] == [x] == [x] + [] && floor + [] == floor;
    assert Split(lead + q)[1..] == segs[1..];
    assert Step(false, [], "..") == [".."];
    if segs[0] == ".." {
      DotDotStays([".."], segs[1..]);
      assert false;
    }
    BottomSurvives(x, floor, [], segs[1..]);
    assert Segs(lead + q) != [] && Segs(lead + q)[0] == x ==> EdgeBlank(Segs(lead + q)[0]);
  }

  lemma BlankStays(p: string)
    requires Segs(TrimSpace(p)) == [] || Segs(TrimSpace(p))[0] != ".."
    ensures Segs(p) == Segs(TrimSpace(p)) || SomeEdgeBlank(Segs(p))
  {
    var lead := TrimLeftParts(p);
    var trail := TrimRightParts(TrimSpaceLeft(p));
    var q := TrimSpace(p);
    assert p == (lead + q) + trail;
    if trail != "" {
      TrailSurvives(lead + q, trail);
    } else {
      assert p == lead + q;
      if lead != "" {
        LeadSurvives(lead, q);
      } else {
        assert p == q;
      }
    }
  }

  // ----- What slicing finds there

  /** A relative cleaned name, no segment of it edged with a blank. */
  ghost predicate TameName(c: string) {
    c == "." || (CleanRel(c) && !SomeEdgeBlank(Split(c)))
  }

  ghost predicate TameArchive(es: seq<Entry>) {
    forall e | e in es :: TameName(CleanName(e.hdr.name))
  }

  /** No name leads out of the archive. */
  ghost predicate InsideArchive(es: seq<Entry>) {
    forall e | e in es :: Split(CleanName(e.hdr.name))[0] != ".."
  }

  lemma TailTame(a: string, b: string)
    requires CleanRel(a + "/" + b) && !SomeEdgeBlank(Split(a + "/" + b))
    ensures CleanRel(b) && !SomeEdgeBlank(Split(b))
    ensures Split(a + "/" + b)[0] != ".." ==> Split(b)[0] != ".."
  {
    CleanRelParts(a, b);
    var s, n := Split(a + "/" + b), |Split(a)|;
    assert forall i :: 0 <= i < |Split(b)| ==> Split(b)[i] == s[n + i];
    if s[0] != ".." {
      NoDotDot(s);
    }
  }

  lemma TameRel(name: string, root: string)
    requires TameName(CleanName(name))
    ensures TameName(NormRel(name, root))
    ensures Split(CleanName(name))[0] != ".." ==> Split(NormRel(name, root))[0] != ".."
  {
    var c, rel := CleanName(name), NormRel(name, root);
    if root != "" && HasPrefix(c, root + "/") {
      assert c == root + "/" + rel;
      TailTame(root, rel);
    }
  }

  lemma UnderStartsWith(rel: string, t: string)
    requires Under(rel, t)
    ensures Split(t) <= Split(rel)
  {
    if rel != t {
      assert rel == t + "/" + rel[|t| + 1..];
      SplitConcat(t, rel[|t| + 1..]);
    }
  }

  lemma NotUnderBlank(rel: string, t: string)
    requires TameName(rel) && SomeEdgeBlank(Split(t))
    ensures !Under(rel, t)
  {
    SplitOne(".");
    if Under(rel, t) {
      UnderStartsWith(rel, t);
      assert false;
    }
  }

  lemma NotUnderRoot(rel: string, t: string)
    requires TameName(rel) && HasPrefix(t, "/")
    ensures !Under(rel, t)
  {
    RootedIff(t);
    RootedIff(rel);
    if rel != "." {
      CleanRelNoSlash(rel);
    }
    assert Under(rel, t) ==> t <= rel;
  }

  lemma {:induction false} NothingUnder(es: seq<Entry>, root: string, t: string, max: nat)
    requires forall e | e in es :: !Under(NormRel(e.hdr.name, root), t)
    ensures Sliced(es, root, t, max, true) == Ok([])
  {
    if es != [] {
      assert es[|es| - 1] in es && forall e | e in es[..|es| - 1] :: e in es;
      NothingUnder(es[..|es| - 1], root, t, max);
    }
  }

  /** Nothing of a tame archive lies under a path that is rooted or edged with a blank. */
  lemma SliceIsEmpty(es: seq<Entry>, root: string, path: string)
    requires TameArchive(es) && (HasPrefix(Clean(path), "/") || SomeEdgeBlank(Split(Clean(path))))
    ensures Slice(es, root, path, MAX_FILE_BYTES, true) == Err(EmptySubtree)
  {
    var t := Clean(path);
    forall e | e in es ensures !Under(NormRel(e.hdr.name, root), t) {
      TameRel(e.hdr.name, root);
      if HasPrefix(t, "/") {
        NotUnderRoot(NormRel(e.hdr.name, root), t);
      } else {
        NotUnderBlank(NormRel(e.hdr.name, root), t);
      }
    }
    NothingUnder(es, root, t, MAX_FILE_BYTES);
  }

  /** In an archive that stays inside, a sub-path that discovery found something under does not lead out of it. */
  lemma FoundStaysInside(es: seq<Entry>, root: string, sub: string, yaml: Yaml, dir: string)
    requires TameArchive(es) && InsideArchive(es) && sub != "" && CleanRel(sub)
    requires
      var r := Found(es, root, sub, yaml);
      r.Ok? && dir in r.value
    ensures Split(sub)[0] != ".."
  {
    var e := FoundComesFrom(es, root, sub, yaml, dir);
    var rel := NormRel(e.hdr.name, root);
    TameRel(e.hdr.name, root);
    assert HasPrefix(rel, sub + "/");
    UnderStartsWith(rel, sub);
    assert Split(rel)[0] == Split(sub)[0];
  }

  lemma RootedJoin(subPath: string, dir: string)
    requires HasPrefix(subPath, "/") && ValidSkillName(dir)
    ensures HasPrefix(Clean(SubtreePath(subPath, dir)), "/")
  {
    RootedIff(subPath);
    ValidNameIsSegment(dir);
    var joined := subPath + "/" + dir;
    RootedIff(joined);
    CleanShape(joined);
    CleanShape(Clean(joined));
  }

  lemma BlankBelow(segs: seq<string>, dir: string)
    requires Reduced(segs) && SomeEdgeBlank(segs) && ValidSkillName(dir)
    ensures SomeEdgeBlank(Split(SubtreeOf(Text(segs), dir)))
  {
    var i :| 0 <= i < |segs| && EdgeBlank(segs[i]);
    TextShape(segs);
    SplitConcat(Join(segs), dir);
    assert (segs + Split(dir))[i] == segs[i];
  }

  lemma BlankJoin(subPath: string, dir: string)
    requires !HasPrefix(subPath, "/") && ValidSkillName(dir) && SomeEdgeBlank(Segs(subPath))
    ensures SomeEdgeBlank(Split(Clean(SubtreePath(subPath, dir))))
  {
    var segs := Segs(subPath);
    RootedIff(subPath);
    RelativeJoin(subPath, dir);
    SegsReduced(subPath);
    TextShape(segs);
    SubtreeShape(Join(segs), dir);
    BlankBelow(segs, dir);
  }

  /** Of a discovered skill the reconciler slices nothing at all when trimming changed the sub-path. */
  lemma NotKeptIsEmpty(es: seq<Entry>, subPath: string, yaml: Yaml, dir: string)
    requires
      var r := Discover(es, subPath, yaml);
      r.Ok? && dir in r.value
    requires TameArchive(es) && (InsideArchive(es) || NoOuterSpace(subPath)) && !Kept(subPath)
    ensures Slice(es, ArchiveRoot(es), SubtreePath(subPath, dir), MAX_FILE_BYTES, true) == Err(EmptySubtree)
  {
    var root, sub := ArchiveRoot(es), NormSubPath(subPath);
    FoundMeans(es, root, sub, yaml);
    RootedIff(subPath);
    if HasPrefix(subPath, "/") {
      RootedJoin(subPath, dir);
    } else {
      var segs := Segs(TrimSpace(subPath));
      NormIsText(subPath);
      KeptIsSameSegs(subPath);
      SegsReduced(TrimSpace(subPath));
      assert !NoOuterSpace(subPath);
      if segs != [] {
        TextShape(segs);
        FoundStaysInside(es, root, sub, yaml, dir);
      }
      BlankStays(subPath);
      BlankJoin(subPath, dir);
    }
    SliceIsEmpty(es, root, SubtreePath(subPath, dir));
  }

  /** Over any archive: a discovered, well-formed skill is published whenever trimming blanks and
      slashes off the sub-path changes nothing that cleaning would not. */
  lemma KeptIsPublished(es: seq<Entry>, subPath: string, yaml: Yaml, dir: string)
    requires
      var r := Discover(es, subPath, yaml);
      r.Ok? && dir in r.value
    requires UniqueFiles(es, ArchiveRoot(es)) && Kept(subPath)
    requires WellFormedSkill(es, ArchiveRoot(es), SubtreeOf(NormSubPath(subPath), dir))
    ensures SliceVerifies(es, ArchiveRoot(es), SubtreePath(subPath, dir), yaml)
  {
    FoundMeans(es, ArchiveRoot(es), NormSubPath(subPath), yaml);
    assert subPath == "" || subPath[0] != '/' by {
      if subPath != "" && subPath[0] == '/' {
        RootedNotKept(subPath);
      }
    }
    RelativeJoin(subPath, dir);
    KeptIsSameSegs(subPath);
    NormIsText(subPath);
    DiscoveredSkillVerifies(es, subPath, yaml, dir);
  }

  /** The condition is exact over an archive of tame names: for every sub-path if none of them leads out
      of the archive, and for every sub-path without outer blanks even if some do. A skill whose
      sub-path is not kept is discovered all the same, and its slice is empty. */
  lemma PublishedIffKept(es: seq<Entry>, subPath: string, yaml: Yaml, dir: string)
    requires
      var r := Discover(es, subPath, yaml);
      r.Ok? && dir in r.value
    requires TameArchive(es) && (InsideArchive(es) || NoOuterSpace(subPath)) && UniqueFiles(es, ArchiveRoot(es))
    requires WellFormedSkill(es, ArchiveRoot(es), SubtreeOf(NormSubPath(subPath), dir))
    ensures SliceVerifies(es, ArchiveRoot(es), SubtreePath(subPath, dir), yaml) <==> Kept(subPath)
    ensures !Kept(subPath) ==>
              Slice(es, ArchiveRoot(es), SubtreePath(subPath, dir), MAX_FILE_BYTES, true) == Err(EmptySubtree)
  {
    if Kept(subPath) {
      KeptIsPublished(es, subPath, yaml, dir);
    } else {
      NotKeptIsEmpty(es, subPath, yaml, dir);
    }
  }

  // ----- A failing input

  predicate IsSegment(s: string) {
    s != "" && s != "." && s != ".." && '/' !in s && !EdgeBlank(s)
  }

  lemma SegmentTame(s: string)
    requires IsSegment(s)
    ensures Split(s) == [s] && Plain(s) && TameName(s) && CleanName(s) == s
  {
    SplitOne(s);
    CleanNameKeeps(s);
  }

  lemma NameIsSegment(dir: string)
    requires ValidSkillName(dir)
    ensures IsSegment(dir)
  {
    ValidNameIsSegment(dir);
    assert dir[0] in dir && dir[|dir| - 1] in dir;
    CleanRelNoSlash(dir);
  }

  lemma PathTame(a: string, b: string)
    requires IsSegment(a) && Plain(b) && TameName(b)
    ensures var p := a + "/" + b; Split(p) == [a] + Split(b) && Plain(p) && TameName(p) && CleanName(p) == p
  {
    SegmentTame(a);
    CleanRelNoSlash(b);
    PlainConcat(a, b);
    CleanNameKeeps(a + "/" + b);
  }

  lemma SkillPathTame(top: string, dir: string)
    requires IsSegment(top) && IsSegment(MANIFEST) && ValidSkillName(dir)
    ensures Split(dir + "/" + MANIFEST) == [dir, MANIFEST]
    ensures
      var name := top + "/" + (dir + "/" + MANIFEST);
      TameName(name) && CleanName(name) == name && Split(name)[0] == top
  {
    NameIsSegment(dir);
    SegmentTame(MANIFEST);
    PathTame(dir, MANIFEST);
    PathTame(top, dir + "/" + MANIFEST);
  }

  /** The manifest of a skill in a top-level directory is found there. */
  lemma ManifestFound(top: string, dir: string, body: string, yaml: Yaml, fm: Frontmatter)
    requires IsSegment(top) && IsSegment(MANIFEST) && ValidSkillName(dir)
    requires ParseFrontmatter(Limited(body), yaml) == Some(fm) && fm.name == dir && ValidDescription(fm.description)
    ensures
      var name := top + "/" + (dir + "/" + MANIFEST);
      SkillAt(Entry(Header(name, Reg, "", None), body), "", top, yaml) == Some(Skill(dir, dir, fm.description))
  {
    var rel := dir + "/" + MANIFEST;
    var name := top + "/" + rel;
    NameIsSegment(dir);
    SkillPathTame(top, dir);
    assert RelUnderSubPath(name, top) == Some(rel);
    OneSlash(dir, MANIFEST);
    DirOfPlain(dir);
  }

  lemma DirOfPlain(dir: string)
    requires IsSegment(dir)
    ensures Clean(dir + "/") == dir
  {
    SplitConcat(dir, "");
    assert dir + "/" + "" == dir + "/";
    SplitOne(dir);
    assert [dir, ""][1..] == [""] && [""][1..] == [];
    assert Reduce(false, [], [dir, ""]) == Step(false, [], dir) == [dir];
  }

  lemma SegmentNorm(top: string)
    requires IsSegment(top)
    ensures NormSubPath("/" + top) == top
  {
    assert NoOuterSpace(top);
    LeadingSlash(top);
    NormIsText(top);
    SplitOne(top);
    assert Split(top) == [top] && [top][1..] == [];
    assert Reduce(false, [], [top]) == Reduce(false, Step(false, [], top), []);
  }

  /** A file beside the skills directory, and one skill in it. */
  function Marketplace(file: string, top: string, dir: string, body: string): (es: seq<Entry>) {
    [Entry(Header(file, Reg, "", None), ""), Entry(Header(top + "/" + (dir + "/" + MANIFEST), Reg, "", None), body)]
  }

  lemma MarketplaceRoot(file: string, top: string, dir: string, body: string)
    requires IsSegment(file)
    ensures ArchiveRoot(Marketplace(file, top, dir, body)) == ""
  {
    var es := Marketplace(file, top, dir, body);
    SegmentTame(file);
    assert es[..1] == [es[0]] && es[..1][..0] == [];
    assert RegularNames(es[..1]) == [file];
    assert RegularNames(es) == [file, es[1].hdr.name];
  }

  lemma OneSkill(s: Skill)
    ensures ByDir([None, Some(s)]) == Ok(map[s.dir := s])
  {
    var skills: seq<Option<Skill>> := [None, Some(s)];
    assert skills[..1] == [None] && skills[..1][..0] == [];
    assert ByDir(skills[..1]) == Ok(map[]);
    assert |map[s.dir := s]| == 1;
  }

  lemma NoSlashNoPrefix(file: string, top: string)
    requires '/' !in file
    ensures !HasPrefix(file, top + "/")
  {
    assert (top + "/")[|top|] in top + "/";
  }

  lemma FileIsNoSkill(file: string, top: string, yaml: Yaml)
    requires IsSegment(file) && top != ""
    ensures SkillAt(Entry(Header(file, Reg, "", None), ""), "", top, yaml).None?
  {
    SegmentTame(file);
    NoSlashNoPrefix(file, top);
    assert RelUnderSubPath(file, top).None?;
  }

  lemma MarketplaceSkills(file: string, top: string, dir: string, body: string, yaml: Yaml, fm: Frontmatter)
    requires IsSegment(file) && IsSegment(top) && IsSegment(MANIFEST) && ValidSkillName(dir)
    requires ParseFrontmatter(Limited(body), yaml) == Some(fm) && fm.name == dir && ValidDescription(fm.description)
    ensures SkillsOf(Marketplace(file, top, dir, body), "", top, yaml) == [None, Some(Skill(dir, dir, fm.description))]
  {
    FileIsNoSkill(file, top, yaml);
    ManifestFound(top, dir, body, yaml, fm);
  }

  /** The skill is discovered under "/top". */
  lemma MarketplaceDiscovers(file: string, top: string, dir: string, body: string, yaml: Yaml, fm: Frontmatter)
    requires IsSegment(file) && IsSegment(top) && IsSegment(MANIFEST) && ValidSkillName(dir)
    requires ParseFrontmatter(Limited(body), yaml) == Some(fm) && fm.name == dir && ValidDescription(fm.description)
    ensures Discover(Marketplace(file, top, dir, body), "/" + top, yaml) ==
              Ok(map[dir := Skill(dir, dir, fm.description)])
  {
    MarketplaceRoot(file, top, dir, body);
    SegmentNorm(top);
    MarketplaceSkills(file, top, dir, body, yaml, fm);
    OneSkill(Skill(dir, dir, fm.description));
  }

  lemma MarketplaceTame(file: string, top: string, dir: string, body: string)
    requires IsSegment(file) && IsSegment(top) && IsSegment(MANIFEST) && ValidSkillName(dir)
    ensures var es := Marketplace(file, top, dir, body); TameArchive(es) && InsideArchive(es)
  {
    SegmentTame(file);
    SkillPathTame(top, dir);
    var es := Marketplace(file, top, dir, body);
    forall e | e in es ensures TameName(CleanName(e.hdr.name)) && Split(CleanName(e.hdr.name))[0] != ".." {
      assert e == es[0] || e == es[1];
    }
  }

  /** And yet its slice is empty. */
  lemma LeadingSlashHides(file: string, top: string, dir: string, body: string, yaml: Yaml, fm: Frontmatter)
    requires IsSegment(file) && IsSegment(top) && IsSegment(MANIFEST) && ValidSkillName(dir)
    requires ParseFrontmatter(Limited(body), yaml) == Some(fm) && fm.name == dir && ValidDescription(fm.description)
    ensures
      var es := Marketplace(file, top, dir, body);
      Slice(es, ArchiveRoot(es), SubtreePath("/" + top, dir), MAX_FILE_BYTES, true) == Err(EmptySubtree)
  {
    MarketplaceDiscovers(file, top, dir, body, yaml, fm);
    MarketplaceTame(file, top, dir, body);
    RootedNotKept("/" + top);
    NotKeptIsEmpty(Marketplace(file, top, dir, body), "/" + top, yaml, dir);
  }

  const FILE: string := "README.md"
  const TOP: string := "skills"
  const PDF: string := "pdf"
  const DOC: string := "\nname: pdf"
  const BODY: string := "---" + DOC + "\n---\n"
  const FOUND: Frontmatter := Frontmatter(PDF, "Reads PDF files")

  function PdfYaml(doc: string): (r: Option<Frontmatter>) {
    if doc == DOC then Some(FOUND) else None
  }

  /** The archive of README.md and skills/pdf/SKILL.md, read under "/skills". */
  lemma SlashSkillsIsEmpty()
    ensures
      var es := Marketplace(FILE, TOP, PDF, BODY);
      && Discover(es, "/" + TOP, PdfYaml) == Ok(map[PDF := Skill(PDF, PDF, FOUND.description)])
      && Slice(es, ArchiveRoot(es), SubtreePath("/" + TOP, PDF), MAX_FILE_BYTES, true) == Err(EmptySubtree)
  {
    PdfSegments();
    PdfManifest();
    MarketplaceDiscovers(FILE, TOP, PDF, BODY, PdfYaml, FOUND);
    LeadingSlashHides(FILE, TOP, PDF, BODY, PdfYaml, FOUND);
  }

  lemma PdfSegments()
    ensures IsSegment(FILE) && IsSegment(TOP) && IsSegment(MANIFEST) && ValidSkillName(PDF)
  {
    SplitOne(PDF, '-');
  }

  lemma PdfManifest()
    ensures ParseFrontmatter(Limited(BODY), PdfYaml) == Some(FOUND)
  {
    var s := DOC + "\n---" + "\n";
    assert BODY == "" + ("---" + DOC + "\n---" + "\n");
    forall k | 0 <= k < |DOC| ensures !("\n---" <= s[k..]) {
      assert s[k..][0] == s[k] && s[k..][1] == s[k + 1];
      assert k > 0 ==> s[k] != '\n';
    }
    FencedDocument("", DOC, "\n", PdfYaml);
  }
}

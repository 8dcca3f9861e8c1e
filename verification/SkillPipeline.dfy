/** How discovery, slicing and verification compose: exactly which skill directories survive the cut,
    and that every discovered, well-formed one does. */
module SkillPipeline {
  import opened Strings
  import opened Paths
  import opened TarSafety
  import opened SkillVerify
  import opened SkillTree

  // ----- Normalised names

  /** Below a clean subtree every normalised name is clean. */
  lemma NormRelClean(name: string, root: string, subtree: string)
    requires '/' !in root && CleanRel(subtree) && Under(NormRel(name, root), subtree)
    ensures CleanRel(NormRel(name, root))
  {
    var c := CleanName(name);
    var rel := NormRel(name, root);
    CleanShape(TrimPrefix(name, "./"));
    RootedIff(TrimPrefix(name, "./"));
    RootedIff(c);
    CleanRelNoSlash(subtree);
    assert rel != "" && rel[0] == subtree[0];
    if root != "" && HasPrefix(c, root + "/") {
      assert root[0] in root && c[0] == root[0];
      assert c == root + "/" + rel;
      assert c != ".";
      CleanRelParts(root, rel);
    } else {
      assert rel == c;
      assert c == "." ==> |rel| == 1;
    }
  }

  lemma UnderParts(rel: string, subtree: string)
    requires CleanRel(rel) && HasPrefix(rel, subtree + "/")
    ensures rel == subtree + "/" + TrimPrefix(rel, subtree + "/")
    ensures CleanRel(TrimPrefix(rel, subtree + "/"))
    ensures Split(rel) == Split(subtree) + Split(TrimPrefix(rel, subtree + "/"))
  {
    var rest := TrimPrefix(rel, subtree + "/");
    assert rel == subtree + "/" + rest;
    CleanRelParts(subtree, rest);
  }

  lemma CleanNameKeeps(p: string)
    requires CleanRel(p)
    ensures CleanName(p) == p
  {
    if HasPrefix(p, "./") {
      assert p == "." + "/" + p[2..];
      SplitConcat(".", p[2..]);
      SplitOne(".");
      CleanRelNoSlash(p);
      assert false;
    }
    CleanKeeps(p);
  }

  lemma {:induction false} DetectSlashFree(root: string, names: seq<string>)
    requires '/' !in root
    ensures '/' !in DetectFrom(root, names)
    decreases |names|
  {
    if names != [] {
      var segs := Split(CleanName(names[0]));
      SplitSegments(CleanName(names[0]));
      if |segs| > 1 {
        DetectSlashFree(segs[0], names[1..]);
        DetectSlashFree(root, names[1..]);
      }
    }
  }

  lemma {:induction false} TrimSlashLeftShape(s: string)
    ensures var r := TrimSlashLeft(s); r == "" || r[0] != '/'
  {
    if s != [] && s[0] == '/' {
      TrimSlashLeftShape(s[1..]);
    }
  }

  lemma {:induction false} TrimTrailingShape(s: string)
    ensures TrimTrailing(s) <= s
  {
    if s != [] && s[|s| - 1] == '/' {
      TrimTrailingShape(s[..|s| - 1]);
    }
  }

  lemma NormSubPathShape(p: string)
    ensures NormSubPath(p) == "" || CleanRel(NormSubPath(p))
  {
    var q := TrimSlashLeft(TrimSpaceRight(TrimSpaceLeft(p)));
    TrimSlashLeftShape(TrimSpaceRight(TrimSpaceLeft(p)));
    TrimTrailingShape(q);
    CleanShape(TrimTrailing(q));
    RootedIff(TrimTrailing(q));
  }

  // ----- One skill directory

  function SubtreeOf(sub: string, dir: string): (r: string) {
    if sub == "" then dir else sub + "/" + dir
  }

  lemma SubtreeShape(sub: string, dir: string)
    requires ValidSkillName(dir) && (sub == "" || CleanRel(sub))
    ensures var t := SubtreeOf(sub, dir);
            CleanRel(t) && Clean(t) == t && Base(t) == dir && Split(t)[|Split(t)| - 1] == dir
  {
    ValidNameIsSegment(dir);
    BaseOfConcat(sub, dir);
    if sub != "" {
      JoinPlain(sub, dir);
      SplitConcat(sub, dir);
    }
    CleanKeeps(SubtreeOf(sub, dir));
  }

  lemma PlainConcat(a: string, b: string)
    requires Plain(a) && Plain(b)
    ensures Plain(a + "/" + b) && Split(a + "/" + b) == Split(a) + Split(b)
  {
    SplitConcat(a, b);
    var sa, sb := Split(a), Split(b);
    NoDotDot(sa);
    NoDotDot(sb);
    var s := Split(a + "/" + b);
    assert forall i :: 0 <= i < |s| ==> s[i] == if i < |sa| then sa[i] else sb[i - |sa|];
  }

  /** After a segment that is not "..", a clean path has no ".." left. */
  lemma TailPlain(t: string, rest: string)
    requires CleanRel(t + "/" + rest) && Split(t)[|Split(t)| - 1] != ".."
    ensures Plain(rest)
  {
    CleanRelParts(t, rest);
    var s := Split(t + "/" + rest);
    assert s[|Split(t)| - 1] == Split(t)[|Split(t)| - 1];
    assert s[|Split(t)|] == Split(rest)[0];
  }

  lemma TailOf(rel: string, t: string, rest: string, dir: string)
    requires rel == t + "/" + rest
    ensures t <= rel && rel[|t|..] == "/" + rest && dir + rel[|t|..] == dir + "/" + rest
  {
  }

  /** The re-rooted name of an entry below the skill at `t`: the skill directory, then a clean tail. */
  lemma RerootedAt(rel: string, t: string, dir: string)
    requires Plain(dir) && Split(dir) == [dir] && Split(t)[|Split(t)| - 1] == dir && Base(t) == dir
    requires CleanRel(rel) && Under(rel, t)
    ensures
      var n := dir + rel[|t|..];
      t <= rel && Reroot(rel, t, true) == Some(n) && Plain(n) && Split(n)[0] == dir
  {
    if rel == t {
      assert dir + rel[|t|..] == dir;
    } else {
      RerootedBelow(rel, t, dir);
    }
  }

  lemma RerootedBelow(rel: string, t: string, dir: string)
    requires Plain(dir) && Split(dir) == [dir] && Split(t)[|Split(t)| - 1] == dir
    requires CleanRel(rel) && HasPrefix(rel, t + "/")
    ensures
      var n := dir + rel[|t|..];
      t <= rel && TrimPrefix(rel, t) == rel[|t|..] && Plain(n) && Split(n)[0] == dir
  {
    UnderParts(rel, t);
    var rest := TrimPrefix(rel, t + "/");
    TailOf(rel, t, rest, dir);
    TailPlain(t, rest);
    PlainConcat(dir, rest);
  }

  lemma StartsWithDir(n: string, dir: string)
    requires Split(n)[0] == dir
    ensures n == dir || n == dir + "/" + Join(Split(n)[1..])
    ensures |Split(n)| == 1 ==> n == dir
  {
    JoinSplit(n);
  }

  /** Verification takes a name of that shape as it stands and accepts it without backslashes. */
  lemma SkillNameSafe(n: string, dir: string)
    requires ValidSkillName(dir) && Plain(n) && Split(n)[0] == dir
    ensures SafeRelLexical(n) <==> '\\' !in n
    ensures Clean(n) == n && n != "." && CleanName(n) == n
  {
    ValidNameIsSegment(dir);
    CleanKeeps(n);
    CleanNameKeeps(n);
    SplitOne(".");
    EscapesIff(n);
    CleanRelNoSlash(n);
    RootedIff(n);
    StartsWithDir(n, dir);
    assert |dir| >= 2 ==> dir[1] in dir;
  }

  lemma SkillNameManifest(n: string, dir: string)
    requires ValidSkillName(dir) && Split(n)[0] == dir
    requires forall i :: 0 <= i < |Split(n)| ==> Split(n)[i] != ""
    ensures (Base(n) == MANIFEST && |Split(n)| <= 2) <==> n == dir + "/" + MANIFEST
  {
    ManifestIsNoSkillName();
    ValidNameIsSegment(dir);
    if n == dir + "/" + MANIFEST {
      SplitConcat(dir, MANIFEST);
      SplitOne(MANIFEST);
      BaseOfConcat(dir, MANIFEST);
    } else if |Split(n)| <= 2 {
      StartsWithDir(n, dir);
      SplitSegments(n);
      if |Split(n)| == 2 {
        var y := Split(n)[1];
        assert Split(n)[1..] == [y];
        BaseOfConcat(dir, y);
      } else {
        BaseOfConcat("", dir);
      }
    }
  }

  // ----- What slicing and verifying a skill comes to

  /** The source entries at or below the subtree. */
  function UnderEntries(es: seq<Entry>, root: string, t: string): (r: seq<Entry>) {
    if es == [] then []
    else
      var r := UnderEntries(es[..|es| - 1], root, t);
      if Under(NormRel(es[|es| - 1].hdr.name, root), t) then r + [es[|es| - 1]] else r
  }

  predicate SliceableFile(e: Entry) {
    e.hdr.flag == Reg ==> |e.body| <= 0x400_0000
  }

  /** A type the extractor accepts without a link target, and no backslash below the skill. */
  predicate PlainEntry(e: Entry, root: string, t: string) {
    && e.hdr.flag in {Reg, Directory, PaxHeader, PaxGlobalHeader}
    && '\\' !in TrimPrefix(NormRel(e.hdr.name, root), t)
  }

  predicate IsSkillMd(e: Entry, root: string, t: string) {
    e.hdr.flag == Reg && NormRel(e.hdr.name, root) == t + "/" + MANIFEST
  }

  function FirstSkillMd(es: seq<Entry>, root: string, t: string): (r: Option<Entry>) {
    if es == [] then None
    else
      var r := FirstSkillMd(es[..|es| - 1], root, t);
      if r.None? && IsSkillMd(es[|es| - 1], root, t) then Some(es[|es| - 1]) else r
  }

  ghost predicate AllSliceable(es: seq<Entry>, root: string, t: string) {
    forall e | e in UnderEntries(es, root, t) :: SliceableFile(e)
  }

  ghost predicate AllPlain(es: seq<Entry>, root: string, t: string) {
    forall e | e in UnderEntries(es, root, t) :: PlainEntry(e, root, t)
  }

  /** What verification makes of an entry re-packed under such a name. */
  lemma RepackedEntry(n: string, dir: string, flag: TypeFlag, body: string)
    requires ValidSkillName(dir) && Plain(n) && Split(n)[0] == dir
    ensures
      var e := Entry(Header(n, flag, "", None), body);
      && (TarEntrySafe(e.hdr) <==> flag in {Reg, Directory, PaxHeader, PaxGlobalHeader} && '\\' !in n)
      && (IsManifestEntry(e) <==> flag == Reg && n == dir + "/" + MANIFEST)
  {
    SkillNameSafe(n, dir);
    SkillNameManifest(n, dir);
  }

  /** Below the skill at `t`: safe and a manifest exactly when the source entry is plain and one. */
  lemma RepackedTail(rel: string, t: string, dir: string, flag: TypeFlag, body: string)
    requires ValidSkillName(dir) && t <= rel && Plain(dir + rel[|t|..]) && Split(dir + rel[|t|..])[0] == dir
    ensures
      var e := Entry(Header(dir + rel[|t|..], flag, "", None), body);
      && (TarEntrySafe(e.hdr) <==>
            flag in {Reg, Directory, PaxHeader, PaxGlobalHeader} && '\\' !in TrimPrefix(rel, t))
      && (IsManifestEntry(e) <==> flag == Reg && rel == t + "/" + MANIFEST)
  {
    var tail := rel[|t|..];
    RepackedEntry(dir + tail, dir, flag, body);
    ValidNameIsSegment(dir);
    assert rel == t + tail;
    SameTail(dir, tail);
    SameTail(t, tail);
  }

  /** One entry: which output it becomes and whether that output is safe or a manifest. */
  lemma SlicedEntry(e: Entry, root: string, t: string, dir: string) returns (made: Entry)
    requires '/' !in root && ValidSkillName(dir) && CleanRel(t) && Base(t) == dir && Split(t)[|Split(t)| - 1] == dir
    requires Under(NormRel(e.hdr.name, root), t)
    ensures SliceEntry(e, root, t, true) == Some(made) && made.body == e.body && made.hdr.flag == e.hdr.flag
    ensures TarEntrySafe(made.hdr) <==> PlainEntry(e, root, t)
    ensures IsManifestEntry(made) <==> IsSkillMd(e, root, t)
  {
    var rel := NormRel(e.hdr.name, root);
    NormRelClean(e.hdr.name, root, t);
    ValidNameIsSegment(dir);
    RerootedAt(rel, t, dir);
    RepackedTail(rel, t, dir, e.hdr.flag, e.body);
    made := Entry(Header(dir + rel[|t|..], e.hdr.flag, "", None), e.body);
  }

  lemma SameTail(a: string, tail: string)
    ensures a + tail == a + "/" + MANIFEST <==> tail == "/" + MANIFEST
    ensures '\\' !in a ==> ('\\' in a + tail <==> '\\' in tail)
  {
    assert (a + tail)[|a|..] == tail;
    assert (a + "/" + MANIFEST)[|a|..] == "/" + MANIFEST;
    assert a + ("/" + MANIFEST) == a + "/" + MANIFEST;
  }

  lemma NotUnder(e: Entry, root: string, t: string)
    requires !Under(NormRel(e.hdr.name, root), t)
    ensures SliceEntry(e, root, t, true).None? && !IsSkillMd(e, root, t)
  {
  }

  /** What slicing a skill makes of its source entries. */
  ghost predicate SliceMatches(es: seq<Entry>, root: string, t: string, out: seq<Entry>) {
    var u := UnderEntries(es, root, t);
    && |out| == |u| && (forall i :: 0 <= i < |u| ==> out[i].body == u[i].body)
    && (AllSafe(out) <==> AllPlain(es, root, t))
    && FirstManifest(out).Some? == FirstSkillMd(es, root, t).Some?
    && (FirstManifest(out).Some? ==> FirstManifest(out).value.body == FirstSkillMd(es, root, t).value.body)
  }

  lemma UnderSnoc(es: seq<Entry>, root: string, t: string)
    requires es != []
    ensures
      var init, e := es[..|es| - 1], es[|es| - 1];
      var under := Under(NormRel(e.hdr.name, root), t);
      && (AllSliceable(es, root, t) <==> AllSliceable(init, root, t) && (under ==> SliceableFile(e)))
      && (AllPlain(es, root, t) <==> AllPlain(init, root, t) && (under ==> PlainEntry(e, root, t)))
  {
  }

  lemma MatchesSnoc(es: seq<Entry>, root: string, t: string, out: seq<Entry>, made: Entry)
    requires es != [] && Under(NormRel(es[|es| - 1].hdr.name, root), t)
    requires SliceMatches(es[..|es| - 1], root, t, out) && made.body == es[|es| - 1].body
    requires TarEntrySafe(made.hdr) <==> PlainEntry(es[|es| - 1], root, t)
    requires IsManifestEntry(made) <==> IsSkillMd(es[|es| - 1], root, t)
    ensures SliceMatches(es, root, t, out + [made])
  {
  }

  lemma MatchesSkip(es: seq<Entry>, root: string, t: string, out: seq<Entry>)
    requires es != [] && !Under(NormRel(es[|es| - 1].hdr.name, root), t)
    requires SliceMatches(es[..|es| - 1], root, t, out)
    ensures SliceMatches(es, root, t, out)
  {
  }

  ghost predicate SliceOk(es: seq<Entry>, root: string, t: string, r: Result<seq<Entry>, TreeError>) {
    (r.Ok? <==> AllSliceable(es, root, t)) && (r.Ok? ==> SliceMatches(es, root, t, r.value))
  }

  lemma SliceOkSnoc(es: seq<Entry>, root: string, t: string, r: Result<seq<Entry>, TreeError>, made: Entry)
    requires es != [] && Under(NormRel(es[|es| - 1].hdr.name, root), t) && SliceOk(es[..|es| - 1], root, t, r)
    requires made.body == es[|es| - 1].body && made.hdr.flag == es[|es| - 1].hdr.flag
    requires TarEntrySafe(made.hdr) <==> PlainEntry(es[|es| - 1], root, t)
    requires IsManifestEntry(made) <==> IsSkillMd(es[|es| - 1], root, t)
    ensures SliceOk(es, root, t, if r.Err? then r else Written(r.value, Some(made), MAX_FILE_BYTES))
  {
    UnderSnoc(es, root, t);
    if r.Ok? {
      MatchesSnoc(es, root, t, r.value, made);
    }
  }

  lemma SliceOkSkip(es: seq<Entry>, root: string, t: string, r: Result<seq<Entry>, TreeError>)
    requires es != [] && !Under(NormRel(es[|es| - 1].hdr.name, root), t) && SliceOk(es[..|es| - 1], root, t, r)
    ensures SliceOk(es, root, t, r)
  {
    UnderSnoc(es, root, t);
    if r.Ok? {
      MatchesSkip(es, root, t, r.value);
    }
  }

  /** The whole slice, entry by entry. */
  lemma {:induction false} SlicedSkill(es: seq<Entry>, root: string, sub: string, dir: string, t: string)
    requires '/' !in root && ValidSkillName(dir) && (sub == "" || CleanRel(sub)) && t == SubtreeOf(sub, dir)
    ensures SliceOk(es, root, t, Sliced(es, root, t, MAX_FILE_BYTES, true))
  {
    if es != [] {
      var init, e := es[..|es| - 1], es[|es| - 1];
      SlicedSkill(init, root, sub, dir, t);
      var r := Sliced(init, root, t, MAX_FILE_BYTES, true);
      if Under(NormRel(e.hdr.name, root), t) {
        SubtreeShape(sub, dir);
        var made := SlicedEntry(e, root, t, dir);
        SliceOkSnoc(es, root, t, r, made);
      } else {
        NotUnder(e, root, t);
        SliceOkSkip(es, root, t, r);
      }
    }
  }

  lemma {:induction false} ConsumedByBodies(a: seq<Entry>, b: seq<Entry>)
    requires |a| == |b| && forall i :: 0 <= i < |a| ==> a[i].body == b[i].body
    ensures Consumed(a) == Consumed(b) && HeaderOffset(a) == HeaderOffset(b)
  {
    if a != [] {
      ConsumedByBodies(a[..|a| - 1], b[..|b| - 1]);
    }
  }

  ghost predicate SliceVerifies(es: seq<Entry>, root: string, subtreePath: string, yaml: Yaml) {
    var r := Slice(es, root, subtreePath, MAX_FILE_BYTES, true);
    r.Ok? && Passes(r.value, yaml)
  }

  /** A slice passes exactly when its source entries are plain, within the caps, and start with a valid
      manifest. */
  lemma MatchedPasses(es: seq<Entry>, root: string, t: string, out: seq<Entry>, yaml: Yaml)
    requires SliceMatches(es, root, t, out)
    ensures Passes(out, yaml) <==>
              && AllPlain(es, root, t)
              && WithinVerifyCaps(UnderEntries(es, root, t))
              && FirstSkillMd(es, root, t).Some?
              && ValidManifest(FirstSkillMd(es, root, t).value.body, yaml)
    ensures Passes(out, yaml) ==> out != []
  {
    ConsumedByBodies(out, UnderEntries(es, root, t));
  }

  lemma SliceVerifiesAt(es: seq<Entry>, root: string, t: string, yaml: Yaml)
    requires Clean(t) == t && SliceOk(es, root, t, Sliced(es, root, t, MAX_FILE_BYTES, true))
    ensures SliceVerifies(es, root, t, yaml) <==>
              && AllSliceable(es, root, t)
              && AllPlain(es, root, t)
              && WithinVerifyCaps(UnderEntries(es, root, t))
              && FirstSkillMd(es, root, t).Some?
              && ValidManifest(FirstSkillMd(es, root, t).value.body, yaml)
  {
    var r := Sliced(es, root, t, MAX_FILE_BYTES, true);
    if r.Ok? {
      MatchedPasses(es, root, t, r.value, yaml);
    }
  }

  /** Exactly which skill directories survive slicing and verification. */
  lemma SliceVerifiesExactly(es: seq<Entry>, root: string, sub: string, dir: string, yaml: Yaml)
    requires '/' !in root && ValidSkillName(dir) && (sub == "" || CleanRel(sub))
    ensures
      var t := SubtreeOf(sub, dir);
      SliceVerifies(es, root, t, yaml) <==>
        && AllSliceable(es, root, t)
        && AllPlain(es, root, t)
        && WithinVerifyCaps(UnderEntries(es, root, t))
        && FirstSkillMd(es, root, t).Some?
        && ValidManifest(FirstSkillMd(es, root, t).value.body, yaml)
  {
    var t := SubtreeOf(sub, dir);
    assert Clean(t) == t by {
      SubtreeShape(sub, dir);
    }
    SlicedSkill(es, root, sub, dir, t);
    SliceVerifiesAt(es, root, t, yaml);
  }

  // ----- Discovered skills

  lemma OneSlash(x: string, y: string)
    requires '/' !in x && '/' !in y
    ensures y != "" ==> Base(x + "/" + y) == y && Dir(x + "/" + y) == Clean(x + "/")
    ensures y == "" ==> Dir(x + "/" + y) == Clean(x + "/")
    ensures y == "" && x != "" ==> Base(x + "/" + y) == x
  {
    var p := x + "/" + y;
    LastSlashOfConcat(x + "/", y);
    assert p[..|x| + 1] == x + "/";
    if y != "" {
      BaseOfConcat(x, y);
    } else {
      assert p[..|p| - 1] == x;
      if x != "" {
        assert x[|x| - 1] in x;
        BaseOfConcat("", x);
      }
    }
  }

  lemma DirOfSegment(x: string)
    requires '/' !in x && ValidSkillName(Clean(x + "/"))
    ensures Clean(x + "/") == x
  {
    SplitConcat(x, "");
    assert x + "/" + "" == x + "/";
    SplitOne(x);
    var c := Clean(x + "/");
    ValidNameIsSegment(c);
    CleanShape(x + "/");
    RootedIff(x + "/");
    RootedIff(c);
    assert c[0] in c;
    assert Split(x + "/") == [x, ""];
    assert [x, ""][1..] == [""] && [""][1..] == [];
    assert Reduce(false, [], [x, ""]) == Step(false, [], x);
    assert c == "." || c == ".." ==> '.' in c;
  }

  lemma RelShape(rel: string)
    requires Base(rel) == MANIFEST && |Split(rel)| == 2 && ValidSkillName(Dir(rel))
    ensures rel == Dir(rel) + "/" + MANIFEST
  {
    var x, y := Split(rel)[0], Split(rel)[1];
    SplitSegments(rel);
    JoinSplit(rel);
    assert Split(rel)[1..] == [y];
    assert rel == x + "/" + y;
    OneSlash(x, y);
    DirOfSegment(x);
    ManifestIsNoSkillName();
  }

  lemma FullName(full: string, sub: string, rel: string, dir: string)
    requires RelUnderSubPath(full, sub) == Some(rel) && rel == dir + "/" + MANIFEST
    ensures full == SubtreeOf(sub, dir) + "/" + MANIFEST
  {
  }

  lemma SkillAtShape(e: Entry, root: string, sub: string, yaml: Yaml)
    requires SkillAt(e, root, sub, yaml).Some?
    ensures
      var dir := SkillAt(e, root, sub, yaml).value.dir;
      ValidSkillName(dir) && IsSkillMd(e, root, SubtreeOf(sub, dir)) && ValidManifest(e.body, yaml)
  {
    var full := NormRel(e.hdr.name, root);
    var rel := RelUnderSubPath(full, sub).value;
    RelShape(rel);
    FullName(full, sub, rel, Dir(rel));
  }

  lemma DirBefore(dir: string)
    requires ValidSkillName(dir)
    ensures Clean(dir + "/") == dir
  {
    ValidNameIsSegment(dir);
    SplitConcat(dir, "");
    assert dir + "/" + "" == dir + "/";
    assert [dir, ""][1..] == [""] && [""][1..] == [];
    assert Reduce(false, [], [dir, ""]) == Step(false, [], dir) == [dir];
    CleanRelNoSlash(dir);
  }

  lemma UnderSub(full: string, sub: string, dir: string)
    requires full == SubtreeOf(sub, dir) + "/" + MANIFEST
    ensures RelUnderSubPath(full, sub) == Some(dir + "/" + MANIFEST)
  {
    if sub != "" {
      assert full == sub + "/" + (dir + "/" + MANIFEST);
      assert |full| > |sub|;
    }
  }

  /** An entry is a skill exactly when it is the regular SKILL.md of a directory below the sub-path whose
      front matter is valid and names that directory. */
  lemma SkillAtExact(e: Entry, root: string, sub: string, yaml: Yaml, dir: string, description: string)
    ensures SkillAt(e, root, sub, yaml) == Some(Skill(dir, dir, description)) <==>
              && IsSkillMd(e, root, SubtreeOf(sub, dir)) && ValidSkillName(dir) && 1 <= |description| <= 1024
              && Decodes(if |e.body| <= 0x10_0000 then e.body else e.body[..0x10_0000], yaml,
                         Frontmatter(dir, description))
    ensures SkillAt(e, root, sub, yaml).Some? ==>
              SkillAt(e, root, sub, yaml).value.name == SkillAt(e, root, sub, yaml).value.dir
  {
    FrontmatterExact(Limited(e.body), yaml, Frontmatter(dir, description));
    if SkillAt(e, root, sub, yaml).Some? {
      SkillAtShape(e, root, sub, yaml);
    }
    if IsSkillMd(e, root, SubtreeOf(sub, dir)) && ValidSkillName(dir) {
      ValidNameIsSegment(dir);
      ManifestIsNoSkillName();
      UnderSub(NormRel(e.hdr.name, root), sub, dir);
      SplitConcat(dir, MANIFEST);
      SplitOne(MANIFEST);
      OneSlash(dir, MANIFEST);
      DirBefore(dir);
    }
  }

  lemma FoundComesFrom(es: seq<Entry>, root: string, sub: string, yaml: Yaml, dir: string) returns (e: Entry)
    requires
      var r := Found(es, root, sub, yaml);
      r.Ok? && dir in r.value
    ensures e in es && SkillAt(e, root, sub, yaml).Some? && SkillAt(e, root, sub, yaml).value.dir == dir
  {
    var skills := SkillsOf(es, root, sub, yaml);
    FoundMeans(es, root, sub, yaml);
    var i :| LastIn(skills, dir, i);
    e := es[i];
  }

  /** No two regular files of the tree normalise to the same name. */
  ghost predicate UniqueFiles(es: seq<Entry>, root: string) {
    forall i, j :: 0 <= i < j < |es| && es[i].hdr.flag == Reg && es[j].hdr.flag == Reg ==>
      NormRel(es[i].hdr.name, root) != NormRel(es[j].hdr.name, root)
  }

  lemma {:induction false} OnlySkillMd(es: seq<Entry>, root: string, t: string, e: Entry)
    requires UniqueFiles(es, root) && e in es && IsSkillMd(e, root, t)
    ensures FirstSkillMd(es, root, t) == Some(e)
  {
    var init, last := es[..|es| - 1], es[|es| - 1];
    if e in init {
      OnlySkillMd(init, root, t, e);
    } else {
      assert last == e;
      NoSkillMd(init, root, t);
    }
  }

  lemma {:induction false} NoSkillMd(es: seq<Entry>, root: string, t: string)
    requires forall i :: 0 <= i < |es| ==> !IsSkillMd(es[i], root, t)
    ensures FirstSkillMd(es, root, t).None?
  {
    if es != [] {
      NoSkillMd(es[..|es| - 1], root, t);
    }
  }

  /** What the tree must look like below the skill. */
  ghost predicate WellFormedSkill(es: seq<Entry>, root: string, t: string) {
    AllSliceable(es, root, t) && AllPlain(es, root, t) && WithinVerifyCaps(UnderEntries(es, root, t))
  }

  /** Every discovered skill of a well-formed tree, cut out with the returned root and the
      same normalised sub-path, passes verification. */
  lemma DiscoveredSkillVerifies(es: seq<Entry>, subPath: string, yaml: Yaml, dir: string)
    requires
      var r := Discover(es, subPath, yaml);
      r.Ok? && dir in r.value
    requires UniqueFiles(es, ArchiveRoot(es))
    requires WellFormedSkill(es, ArchiveRoot(es), SubtreeOf(NormSubPath(subPath), dir))
    ensures SliceVerifies(es, ArchiveRoot(es), SubtreeOf(NormSubPath(subPath), dir), yaml)
  {
    var root, sub := ArchiveRoot(es), NormSubPath(subPath);
    DetectSlashFree("", RegularNames(es));
    NormSubPathShape(subPath);
    var e := FoundComesFrom(es, root, sub, yaml, dir);
    SkillAtShape(e, root, sub, yaml);
    OnlySkillMd(es, root, SubtreeOf(sub, dir), e);
    SliceVerifiesExactly(es, root, sub, dir, yaml);
  }
}

/** The lexical safety gate that every entry of a skill archive passes
    (internal/contentkit/tar_safety.go). */
module TarSafety {
  import opened Strings
  import opened Paths

  datatype TypeFlag =
    | Reg | Directory | Symlink | HardLink | CharDevice | BlockDevice | Fifo
    | PaxHeader | PaxGlobalHeader | Unsupported

  /** A tar header; `paxPath` is the "path" record when one is present. */
  datatype Header = Header(name: string, flag: TypeFlag, linkname: string, paxPath: Option<string>)

  predicate HasWindowsVolume(name: string) {
    |name| >= 2 && name[1] == ':' && ('a' <= name[0] <= 'z' || 'A' <= name[0] <= 'Z')
  }

  predicate Escapes(cleaned: string) {
    cleaned == ".." || HasPrefix(cleaned, "../")
  }

  predicate SafeRelLexical(name: string) {
    && name != ""
    && '\\' !in name
    && !HasWindowsVolume(name)
    && !HasPrefix(Clean(name), "/")
    && !Escapes(Clean(name))
  }

  predicate SymlinkTargetSafe(name: string, linkname: string) {
    && linkname != ""
    && !HasPrefix(linkname, "/")
    && '\\' !in linkname
    && !HasWindowsVolume(linkname)
    && !Escapes(Clean(Join2(Dir(Clean(name)), linkname)))
  }

  predicate TarEntrySafe(hdr: Header) {
    && SafeRelLexical(hdr.name)
    && (hdr.paxPath.Some? ==> SafeRelLexical(hdr.paxPath.value))
    && match hdr.flag {
         case Reg => Clean(hdr.name) != "."
         case Symlink => Clean(hdr.name) != "." && SymlinkTargetSafe(hdr.name, hdr.linkname)
         case Directory | PaxHeader | PaxGlobalHeader => true
         case HardLink | CharDevice | BlockDevice | Fifo | Unsupported => false
       }
  }

  // ----- What the gate means: walking the segments never climbs above the root

  /** How far the walk over the segments has descended; negative when it climbed. */
  function Climb(segs: seq<string>): (d: int) {
    if segs == [] then 0
    else
      var s := segs[|segs| - 1];
      Climb(segs[..|segs| - 1]) + if s == "" || s == "." then 0 else if s == ".." then -1 else 1
  }

  /** Started `depth` directories below the root, no prefix of the walk leaves the root. */
  ghost predicate NeverAbove(depth: nat, segs: seq<string>) {
    forall k :: 0 <= k <= |segs| ==> depth + Climb(segs[..k]) >= 0
  }

  lemma NeverAboveLast(depth: nat, segs: seq<string>)
    requires segs != []
    ensures NeverAbove(depth, segs) <==>
              NeverAbove(depth, segs[..|segs| - 1]) && depth + Climb(segs) >= 0
  {
    var init := segs[..|segs| - 1];
    assert segs[..|segs|] == segs;
    forall k | 0 <= k <= |init| ensures init[..k] == segs[..k] {
    }
    if NeverAbove(depth, segs) {
      assert depth + Climb(segs[..|segs|]) >= 0;
    } else {
      var k :| 0 <= k <= |segs| && depth + Climb(segs[..k]) < 0;
      assert k < |segs| ==> init[..k] == segs[..k];
    }
  }

  /** The reduction keeps a leading ".." exactly when the walk climbed above the root. */
  lemma {:induction false} ReduceFollowsWalk(stack: seq<string>, segs: seq<string>)
    requires forall i :: 0 <= i < |stack| ==> stack[i] != ".."
    ensures
      var r := Reduce(false, stack, segs);
      if NeverAbove(|stack|, segs)
      then |r| == |stack| + Climb(segs) && forall i :: 0 <= i < |r| ==> r[i] != ".."
      else r != [] && r[0] == ".."
    decreases |segs|
  {
    if segs == [] {
      assert segs[..0] == [];
    } else {
      var init, s := segs[..|segs| - 1], segs[|segs| - 1];
      assert segs == init + [s];
      ReduceFollowsWalk(stack, init);
      NeverAboveLast(|stack|, segs);
      ReduceConcat(false, stack, init, [s]);
      var r := Reduce(false, stack, init);
      assert Reduce(false, stack, segs) == Step(false, r, s);
    }
  }

  lemma EscapesIff(p: string)
    requires CleanRel(p)
    ensures Escapes(p) <==> Split(p)[0] == ".."
  {
    JoinSplit(p);
    var segs := Split(p);
    if segs[0] == ".." && |segs| > 1 {
      assert p == "../" + Join(segs[1..]);
    }
    if HasPrefix(p, "../") {
      assert p == ".." + "/" + p[3..];
      SplitConcat("..", p[3..]);
      SplitOne("..");
    }
    SplitOne("..");
  }

  /** A relative path escapes after cleaning exactly when its walk climbs above the root. */
  lemma CleanEscapes(p: string)
    requires p != "" && p[0] != '/'
    ensures Escapes(Clean(p)) <==> !NeverAbove(0, Split(p))
  {
    var r := Reduce(false, [], Split(p));
    ReduceFollowsWalk([], Split(p));
    SplitSegments(p);
    ReduceReduced(false, [], Split(p));
    if r != [] {
      SplitJoin(r);
      EscapesIff(Join(r));
    }
  }

  /** Among names with no backslash or drive prefix, the accepted ones are exactly the
      non-empty relative names whose walk stays at or below the root. */
  lemma SafeRelExact(name: string)
    requires '\\' !in name && !HasWindowsVolume(name)
    ensures SafeRelLexical(name) <==> name != "" && name[0] != '/' && NeverAbove(0, Split(name))
  {
    CleanShape(name);
    RootedIff(name);
    if name != "" && name[0] != '/' {
      CleanEscapes(name);
    }
  }

  /** The directory part of the cleaned entry name, as segments. */
  function ParentSegs(name: string): (r: seq<string>) {
    var segs := Reduce(false, [], Split(name));
    if segs == [] then [] else segs[..|segs| - 1]
  }

  lemma ParentIsDir(name: string)
    requires name != "" && name[0] != '/'
    ensures
      var parent := ParentSegs(name);
      && Dir(Clean(name)) == (if parent == [] then "." else Join(parent))
      && Reduced(parent)
  {
    SplitSegments(name);
    ReduceReduced(false, [], Split(name));
    var segs := Reduce(false, [], Split(name));
    var parent := ParentSegs(name);
    if segs == [] {
      LastSlashOfConcat("", ".");
      assert "" + "." == ".";
    } else {
      var last := segs[|segs| - 1];
      if parent == [] {
        assert segs == [last];
        LastSlashOfConcat("", last);
        assert "" + last == last;
        assert Clean(name) == last;
      } else {
        assert segs == parent + [last];
        JoinAppend(parent, [last]);
        var dir := Join(parent) + "/";
        assert Clean(name) == dir + last;
        LastSlashOfConcat(dir, last);
        assert (dir + last)[..|dir|] == dir;
        DropTrailingSlash(parent);
      }
    }
  }

  lemma DropTrailingSlash(segs: seq<string>)
    requires segs != [] && Reduced(segs)
    ensures Clean(Join(segs) + "/") == Join(segs)
  {
    SplitJoin(segs);
    CleanRelNoSlash(Join(segs));
    SplitConcat(Join(segs), "");
    assert Join(segs) + "/" + "" == Join(segs) + "/";
    ReduceConcat(false, [], segs, [""]);
    assert [] + segs == segs;
    ReduceKeeps([], segs);
  }

  lemma CleanTwice(p: string)
    requires p != "" && p[0] != '/'
    ensures Clean(Clean(p)) == Clean(p)
  {
    CleanShape(p);
    RootedIff(p);
    if Clean(p) == "." {
      SplitOne(".");
    } else {
      CleanKeeps(Clean(p));
    }
  }

  /** For an accepted entry name, an otherwise well-formed relative link target is
      accepted exactly when its walk from the entry's directory stays at or below the root. */
  lemma SymlinkTargetExact(name: string, linkname: string)
    requires SafeRelLexical(name)
    requires linkname != "" && linkname[0] != '/' && '\\' !in linkname && !HasWindowsVolume(linkname)
    ensures SymlinkTargetSafe(name, linkname) <==> NeverAbove(|ParentSegs(name)|, Split(linkname))
  {
    SafeRelExact(name);
    ReduceFollowsWalk([], Split(name));
    ParentIsDir(name);
    RootedIff(linkname);
    var parent := ParentSegs(name);
    var dir := Dir(Clean(name));
    var all := dir + "/" + linkname;
    SplitConcat(dir, linkname);
    ReduceConcat(false, [], Split(dir), Split(linkname));
    DirReduces(dir, parent);
    ReduceFollowsWalk([], Split(all));
    ReduceFollowsWalk(parent, Split(linkname));
    assert all[0] == dir[0];
    CleanEscapes(all);
    CleanTwice(all);
  }

  lemma DirReduces(dir: string, parent: seq<string>)
    requires Reduced(parent)
    requires dir == if parent == [] then "." else Join(parent)
    ensures dir != "" && dir[0] != '/'
    ensures Reduce(false, [], Split(dir)) == parent
  {
    if parent == [] {
      SplitOne(".");
    } else {
      SplitJoin(parent);
      CleanRelNoSlash(dir);
      assert [] + parent == parent;
      ReduceKeeps([], parent);
    }
  }

  // ----- The whole gate

  predicate HasDrive(p: string) {
    |p| >= 2 && p[1] == ':' && ('a' <= p[0] <= 'z' || 'A' <= p[0] <= 'Z')
  }

  /** A relative path in the archive's own syntax. */
  predicate RelativeText(p: string) {
    p != "" && p[0] != '/' && '\\' !in p && !HasDrive(p)
  }

  /** Its walk never goes above the root. */
  ghost predicate StaysInside(p: string) {
    RelativeText(p) && NeverAbove(0, Split(p))
  }

  /** A link from an entry `depth` directories down stays inside. */
  ghost predicate TargetInside(depth: nat, target: string) {
    RelativeText(target) && NeverAbove(depth, Split(target))
  }

  /** What every accepted entry is: a file, a link or a directory that stays inside the root, under its
      name and under the path of its extended header, with a link target that stays inside as well. */
  ghost predicate EntryInside(hdr: Header) {
    && StaysInside(hdr.name)
    && (hdr.paxPath.Some? ==> StaysInside(hdr.paxPath.value))
    && hdr.flag in {Reg, Symlink, Directory, PaxHeader, PaxGlobalHeader}
    && (hdr.flag in {Reg, Symlink} ==> Climb(Split(hdr.name)) > 0)
    && (hdr.flag == Symlink ==> TargetInside(Climb(Split(hdr.name)) - 1, hdr.linkname))
  }

  lemma SafeRelIsInside(p: string)
    ensures SafeRelLexical(p) <==> StaysInside(p)
  {
    if '\\' !in p && !HasWindowsVolume(p) {
      SafeRelExact(p);
    }
  }

  /** Below the root, the walk of a name goes as deep as its cleaned form has segments. */
  lemma DepthOfName(name: string)
    requires StaysInside(name)
    ensures Climb(Split(name)) >= 0 && (Clean(name) != "." <==> Climb(Split(name)) > 0)
    ensures Climb(Split(name)) > 0 ==> |ParentSegs(name)| == Climb(Split(name)) - 1
  {
    ReduceFollowsWalk([], Split(name));
    CleanShape(name);
    RootedIff(name);
    SplitSegments(name);
    ReduceReduced(false, [], Split(name));
    var segs := Reduce(false, [], Split(name));
    if segs != [] {
      SplitJoin(segs);
      CleanRelNoSlash(Join(segs));
    }
  }

  lemma LinkInside(name: string, target: string)
    requires StaysInside(name) && Climb(Split(name)) > 0
    ensures SymlinkTargetSafe(name, target) <==> TargetInside(Climb(Split(name)) - 1, target)
  {
    SafeRelIsInside(name);
    DepthOfName(name);
    RootedIff(target);
    if RelativeText(target) {
      SymlinkTargetExact(name, target);
    }
  }

  /** The gate accepts exactly those entries. */
  lemma TarEntrySafeExact(hdr: Header)
    ensures TarEntrySafe(hdr) <==> EntryInside(hdr)
  {
    SafeRelIsInside(hdr.name);
    if hdr.paxPath.Some? {
      SafeRelIsInside(hdr.paxPath.value);
    }
    if StaysInside(hdr.name) {
      DepthOfName(hdr.name);
      if Climb(Split(hdr.name)) > 0 {
        LinkInside(hdr.name, hdr.linkname);
      }
    }
  }
}

/** Laws of slicing and discovery over whole archives: slicing in two steps, and wrapping a tree in
    one more directory. */
module SliceLaws {
  import opened Strings
  import opened Paths
  import opened TarSafety
  import opened SkillVerify
  import opened SkillTree
  import opened SkillPipeline

  // ----- Slicing composes

  /** One entry through two slices is that entry through one. */
  lemma SliceEntryTwice(e: Entry, root: string, a: string, b: string)
    requires '/' !in root && Plain(a) && Plain(b)
    ensures
      var once := SliceEntry(e, root, a, false);
      SliceEntry(e, root, a + "/" + b, false) ==
        if once.None? then None else SliceEntry(once.value, "", b, false)
  {
    var rel := NormRel(e.hdr.name, root);
    var ab := a + "/" + b;
    if HasPrefix(rel, a + "/") {
      NormRelClean(e.hdr.name, root, a);
      UnderParts(rel, a);
      var rest := TrimPrefix(rel, a + "/");
      CleanNameKeeps(rest);
      assert NormRel(rest, "") == rest;
      PrefixOfConcat(a + "/", rest, b);
      PrefixOfConcat(a + "/", rest, b + "/");
      assert ab + "/" == a + "/" + (b + "/");
    } else {
      assert a + "/" <= ab <= ab + "/";
    }
  }

  lemma PrefixOfConcat(p: string, rest: string, q: string)
    ensures HasPrefix(p + rest, p + q) <==> HasPrefix(rest, q)
    ensures p + rest == p + q <==> rest == q
    ensures HasPrefix(rest, q) ==> TrimPrefix(p + rest, p + q) == TrimPrefix(rest, q)
  {
    assert (p + rest)[|p|..] == rest && (p + q)[|p|..] == q;
    if HasPrefix(p + rest, p + q) {
      assert p + rest == p + q + (p + rest)[|p + q|..];
      assert rest == q + (p + rest)[|p + q|..];
    }
    if HasPrefix(rest, q) {
      assert rest == q + rest[|q|..];
      assert p + rest == p + q + rest[|q|..];
    }
  }

  lemma {:induction false} SlicedTwice(es: seq<Entry>, root: string, a: string, b: string, max: nat)
    requires '/' !in root && Plain(a) && Plain(b)
    requires Sliced(es, root, a, max, false).Ok?
    ensures Sliced(es, root, a + "/" + b, max, false) ==
              Sliced(Sliced(es, root, a, max, false).value, "", b, max, false)
  {
    if es != [] {
      var init, e := es[..|es| - 1], es[|es| - 1];
      SlicedTwice(init, root, a, b, max);
      SliceEntryTwice(e, root, a, b);
      var out := Sliced(init, root, a, max, false).value;
      var once := SliceEntry(e, root, a, false);
      if once.Some? {
        assert (out + [once.value])[..|out|] == out;
      }
    }
  }

  /** Slicing a and then b, stripping the prefix each time, is slicing a/b. */
  lemma SliceComposes(es: seq<Entry>, root: string, a: string, b: string, max: nat)
    requires '/' !in root && Plain(a) && Plain(b)
    requires Slice(es, root, a, max, false).Ok?
    ensures Slice(es, root, a + "/" + b, max, false) ==
              Slice(Slice(es, root, a, max, false).value, "", b, max, false)
  {
    PlainConcat(a, b);
    CleanKeeps(a);
    CleanKeeps(b);
    CleanKeeps(a + "/" + b);
    SlicedTwice(es, root, a, b, max);
  }

  // ----- The wrapper directory

  /** Every entry moved below the directory w. */
  function Wrap(es: seq<Entry>, w: string): (r: seq<Entry>) {
    if es == [] then []
    else
      var e := es[|es| - 1];
      Wrap(es[..|es| - 1], w) + [e.(hdr := e.hdr.(name := w + "/" + e.hdr.name))]
  }

  ghost predicate PlainFiles(es: seq<Entry>) {
    forall e | e in es && e.hdr.flag == Reg :: Plain(e.hdr.name)
  }

  ghost predicate CommonFirst(names: seq<string>, r: string) {
    forall n | n in names :: |Split(n)| > 1 && Split(n)[0] == r
  }

  /** For clean relative names the detected root is the first segment all of them share. */
  lemma {:induction false} DetectMeaning(root: string, names: seq<string>, r: string)
    requires r != "" && forall n | n in names :: Plain(n)
    ensures DetectFrom(root, names) == r <==>
              CommonFirst(names, r) && (root == r || (root == "" && names != []))
    decreases |names|
  {
    if names != [] {
      var n := names[0];
      assert n in names;
      CleanNameKeeps(n);
      CleanRelNoSlash(n);
      var segs := Split(n);
      assert forall x :: x in names <==> x == n || x in names[1..];
      if |segs| > 1 {
        DetectMeaning(segs[0], names[1..], r);
      }
    }
  }

  lemma {:induction false} WrapNames(es: seq<Entry>, w: string)
    requires PlainFiles(es) && Plain(w) && '/' !in w
    ensures forall n | n in RegularNames(Wrap(es, w)) :: Plain(n) && |Split(n)| > 1 && Split(n)[0] == w
    ensures |RegularNames(Wrap(es, w))| == |RegularNames(es)|
  {
    if es != [] {
      var init, e := es[..|es| - 1], es[|es| - 1];
      var we := e.(hdr := e.hdr.(name := w + "/" + e.hdr.name));
      WrapNames(init, w);
      assert Wrap(es, w)[..|es| - 1] == Wrap(init, w) by { WrapLength(init, w); }
      assert Wrap(es, w)[|es| - 1] == we by { WrapLength(init, w); }
      WrapLength(es, w);
      if e.hdr.flag == Reg {
        assert e in es;
        PlainConcat(w, e.hdr.name);
        SplitOne(w);
      }
    }
  }

  lemma {:induction false} WrapLength(es: seq<Entry>, w: string)
    ensures |Wrap(es, w)| == |es|
  {
    if es != [] {
      WrapLength(es[..|es| - 1], w);
    }
  }

  lemma WrappedSkillAt(e: Entry, w: string, sub: string, yaml: Yaml)
    requires e.hdr.flag == Reg ==> Plain(e.hdr.name)
    requires Plain(w) && '/' !in w
    ensures SkillAt(e.(hdr := e.hdr.(name := w + "/" + e.hdr.name)), w, sub, yaml) == SkillAt(e, "", sub, yaml)
  {
    if e.hdr.flag == Reg {
      var n := e.hdr.name;
      PlainConcat(w, n);
      CleanNameKeeps(w + "/" + n);
      CleanNameKeeps(n);
      CleanRelNoSlash(w);
      assert (w + "/" + n)[|w + "/"|..] == n;
      assert NormRel(w + "/" + n, w) == n == NormRel(n, "");
    }
  }

  lemma {:induction false} WrapAt(es: seq<Entry>, w: string, i: nat)
    requires i < |es|
    ensures |Wrap(es, w)| == |es| && Wrap(es, w)[i] == es[i].(hdr := es[i].hdr.(name := w + "/" + es[i].hdr.name))
  {
    WrapLength(es, w);
    WrapLength(es[..|es| - 1], w);
    if i < |es| - 1 {
      WrapAt(es[..|es| - 1], w, i);
    }
  }

  lemma WrappedSkills(es: seq<Entry>, w: string, sub: string, yaml: Yaml)
    requires PlainFiles(es) && Plain(w) && '/' !in w
    ensures SkillsOf(Wrap(es, w), w, sub, yaml) == SkillsOf(es, "", sub, yaml)
  {
    WrapLength(es, w);
    var a, b := SkillsOf(Wrap(es, w), w, sub, yaml), SkillsOf(es, "", sub, yaml);
    forall i | 0 <= i < |es| ensures a[i] == b[i] {
      WrapAt(es, w, i);
      assert es[i] in es;
      WrappedSkillAt(es[i], w, sub, yaml);
    }
  }

  /** Wrapping a tree that has no root of its own in one more directory makes that directory
      the archive root and changes no discovered skill, whatever the sub-path. */
  lemma WrapperIndependence(es: seq<Entry>, w: string, subPath: string, yaml: Yaml)
    requires PlainFiles(es) && RegularNames(es) != []
    requires forall r :: r != "" ==> !CommonFirst(RegularNames(es), r)
    requires Plain(w) && '/' !in w
    ensures ArchiveRoot(Wrap(es, w)) == w
    ensures Discover(Wrap(es, w), subPath, yaml) == Discover(es, subPath, yaml)
  {
    CleanRelNoSlash(w);
    WrapNames(es, w);
    DetectMeaning("", RegularNames(Wrap(es, w)), w);
    PlainNames(es);
    if ArchiveRoot(es) != "" {
      DetectMeaning("", RegularNames(es), ArchiveRoot(es));
    }
    WrappedSkills(es, w, NormSubPath(subPath), yaml);
  }

  lemma {:induction false} PlainNames(es: seq<Entry>)
    requires PlainFiles(es)
    ensures forall n | n in RegularNames(es) :: Plain(n)
  {
    if es != [] {
      PlainNames(es[..|es| - 1]);
      assert es[|es| - 1] in es;
    }
  }
}

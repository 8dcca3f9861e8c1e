/** Slash-separated paths: the documented rules of Go's `path.Clean`, `path.Base`,
    `path.Dir` and `path.Join`, stated on the segments between slashes. */
module Paths {
  import opened Strings

  /** The pieces between separators; never empty, since "" has the one piece "". */
  function Split(s: string, sep: char := '/'): (r: seq<string>)
    ensures |r| >= 1
    decreases s
  {
    if s == [] then [""]
    else
      var rest := Split(s[1..], sep);
      if s[0] == sep then [""] + rest else [[s[0]] + rest[0]] + rest[1..]
  }

  function Join(segs: seq<string>): (r: string) {
    if segs == [] then ""
    else if |segs| == 1 then segs[0]
    else segs[0] + "/" + Join(segs[1..])
  }

  ghost predicate Segments(segs: seq<string>) {
    forall i :: 0 <= i < |segs| ==> '/' !in segs[i]
  }

  lemma {:induction false} SplitSegments(s: string)
    ensures Segments(Split(s))
  {
    if s != [] {
      SplitSegments(s[1..]);
    }
  }

  lemma {:induction false} JoinSplit(s: string)
    ensures Join(Split(s)) == s
  {
    if s != [] {
      var rest := Split(s[1..]);
      JoinSplit(s[1..]);
      if s[0] == '/' {
        assert ([""] + rest)[1..] == rest;
      } else {
        var segs := [[s[0]] + rest[0]] + rest[1..];
        assert segs[1..] == rest[1..];
        if |rest| > 1 {
          assert Join(segs) == [s[0]] + (rest[0] + "/" + Join(rest[1..]));
        }
      }
      assert s == [s[0]] + s[1..];
    }
  }

  lemma {:induction false} SplitOne(s: string, sep: char := '/')
    requires sep !in s
    ensures Split(s, sep) == [s]
  {
    if s != [] {
      assert s[0] in s && forall c :: c in s[1..] ==> c in s;
      SplitOne(s[1..], sep);
      assert s == [s[0]] + s[1..];
    }
  }

  lemma SplitCons(c: char, t: string)
    ensures Split([c] + t) == if c == '/' then [""] + Split(t) else [[c] + Split(t)[0]] + Split(t)[1..]
  {
  }

  /** A slash splits: the segments of "a/b" are those of a followed by those of b. */
  lemma {:induction false} SplitConcat(a: string, b: string)
    ensures Split(a + "/" + b) == Split(a) + Split(b)
  {
    if a == [] {
      assert a + "/" + b == ['/'] + b;
      SplitCons('/', b);
    } else {
      var t := a[1..] + "/" + b;
      assert a + "/" + b == [a[0]] + t;
      SplitCons(a[0], t);
      SplitConcat(a[1..], b);
    }
  }

  lemma {:induction false} SplitJoin(segs: seq<string>)
    requires segs != [] && Segments(segs)
    ensures Split(Join(segs)) == segs
  {
    if |segs| == 1 {
      SplitOne(segs[0]);
    } else {
      SplitJoin(segs[1..]);
      SplitOne(segs[0]);
      SplitConcat(segs[0], Join(segs[1..]));
      assert segs == [segs[0]] + segs[1..];
    }
  }

  lemma JoinAppend(a: seq<string>, b: seq<string>)
    requires a != [] && b != [] && Segments(a) && Segments(b)
    ensures Join(a + b) == Join(a) + "/" + Join(b)
  {
    SplitJoin(a);
    SplitJoin(b);
    SplitConcat(Join(a), Join(b));
    JoinSplit(Join(a) + "/" + Join(b));
  }

  // ----- path.Clean

  /** One segment of the walk: an empty or "." segment is dropped, ".." removes the
      segment before it, and a ".." with nothing to remove is dropped under a root
      and kept otherwise. */
  function Step(rooted: bool, stack: seq<string>, seg: string): (r: seq<string>) {
    if seg == "" || seg == "." then stack
    else if seg == ".." then
      if stack != [] && stack[|stack| - 1] != ".." then stack[..|stack| - 1]
      else if rooted then stack
      else stack + [".."]
    else stack + [seg]
  }

  function Reduce(rooted: bool, stack: seq<string>, segs: seq<string>): (r: seq<string>)
    decreases |segs|
  {
    if segs == [] then stack else Reduce(rooted, Step(rooted, stack, segs[0]), segs[1..])
  }

  function Clean(p: string): (r: string) {
    if p == "" then "."
    else if p[0] == '/' then "/" + Join(Reduce(true, [], Split(p)))
    else
      var segs := Reduce(false, [], Split(p));
      if segs == [] then "." else Join(segs)
  }

  /** Segments in reduced form: no "" or ".", and ".." only in a leading run. */
  ghost predicate Reduced(segs: seq<string>) {
    && Segments(segs)
    && (forall i :: 0 <= i < |segs| ==> segs[i] != "" && segs[i] != ".")
    && (forall i, j :: 0 <= j < i < |segs| && segs[i] == ".." ==> segs[j] == "..")
  }

  /** A relative path that cleaning leaves alone and that is not ".". */
  ghost predicate CleanRel(p: string) {
    Reduced(Split(p))
  }

  /** A clean relative path that also stays below its starting directory. */
  ghost predicate Plain(p: string) {
    CleanRel(p) && Split(p)[0] != ".."
  }

  lemma {:induction false} ReduceReduced(rooted: bool, stack: seq<string>, segs: seq<string>)
    requires Reduced(stack) && Segments(segs)
    ensures Reduced(Reduce(rooted, stack, segs))
    decreases |segs|
  {
    if segs != [] {
      ReduceReduced(rooted, Step(rooted, stack, segs[0]), segs[1..]);
    }
  }

  lemma {:induction false} ReduceConcat(rooted: bool, stack: seq<string>, a: seq<string>, b: seq<string>)
    ensures Reduce(rooted, stack, a + b) == Reduce(rooted, Reduce(rooted, stack, a), b)
    decreases |a|
  {
    if a == [] {
      assert a + b == b;
    } else {
      var next := Step(rooted, stack, a[0]);
      ReduceConcat(rooted, next, a[1..], b);
      assert (a + b)[0] == a[0] && (a + b)[1..] == a[1..] + b;
      assert Reduce(rooted, stack, a + b) == Reduce(rooted, next, a[1..] + b);
      assert Reduce(rooted, stack, a) == Reduce(rooted, next, a[1..]);
    }
  }

  /** Reduced segments on a reduced stack are simply appended, when the whole is reduced. */
  lemma {:induction false} ReduceKeeps(stack: seq<string>, segs: seq<string>)
    requires Reduced(stack + segs)
    ensures Reduce(false, stack, segs) == stack + segs
    decreases |segs|
  {
    if segs == [] {
      assert stack + segs == stack;
    } else {
      var all := stack + segs;
      assert all[|stack|] == segs[0];
      assert stack != [] && segs[0] == ".." ==> all[|stack| - 1] == "..";
      assert Step(false, stack, segs[0]) == stack + [segs[0]];
      assert stack + [segs[0]] + segs[1..] == all;
      ReduceKeeps(stack + [segs[0]], segs[1..]);
    }
  }

  lemma CleanRelNoSlash(p: string)
    requires CleanRel(p)
    ensures p != "" && p != "." && p[0] != '/'
    ensures Split(p)[0] != "" && Split(p)[0] != "."
  {
    SplitOne(".");
    assert Split(p)[0] != "" && Split(p)[0] != ".";
  }

  /** Cleaning is idempotent on relative paths. */
  lemma CleanKeeps(p: string)
    requires CleanRel(p)
    ensures Clean(p) == p
  {
    CleanRelNoSlash(p);
    assert [] + Split(p) == Split(p);
    ReduceKeeps([], Split(p));
    JoinSplit(p);
  }

  lemma RootedIff(s: string)
    ensures HasPrefix(s, "/") <==> s != "" && s[0] == '/'
  {
  }

  /** What cleaning yields: a rooted path, ".", or a clean relative path. */
  lemma CleanShape(p: string)
    ensures HasPrefix(Clean(p), "/") <==> HasPrefix(p, "/")
    ensures !HasPrefix(p, "/") ==> Clean(p) == "." || (CleanRel(Clean(p)) && Clean(p) != ".")
  {
    RootedIff(p);
    RootedIff(Clean(p));
    if p != "" && p[0] != '/' {
      SplitSegments(p);
      ReduceReduced(false, [], Split(p));
      var segs := Reduce(false, [], Split(p));
      if segs != [] {
        SplitJoin(segs);
        assert Clean(p) == Join(segs);
        CleanRelNoSlash(Clean(p));
        if Clean(p) == "." {
          SplitOne(".");
          assert false;
        }
      }
    }
  }

  /** Both halves of a clean relative path "a/b" are clean relative paths. */
  lemma CleanRelParts(a: string, b: string)
    requires CleanRel(a + "/" + b)
    ensures CleanRel(a) && CleanRel(b)
    ensures Split(a + "/" + b) == Split(a) + Split(b)
  {
    SplitConcat(a, b);
    var sa, sb := Split(a), Split(b);
    var s := Split(a + "/" + b);
    assert forall i :: 0 <= i < |sa| ==> sa[i] == s[i];
    assert forall i :: 0 <= i < |sb| ==> sb[i] == s[|sa| + i];
  }

  lemma NoDotDot(segs: seq<string>)
    requires segs != [] && Reduced(segs) && segs[0] != ".."
    ensures forall i :: 0 <= i < |segs| ==> segs[i] != ".."
  {
  }

  // ----- path.Base, path.Dir, path.Join

  /** Index just past the last slash, 0 when there is none. */
  function LastSlash(p: string): (n: nat)
    ensures n <= |p|
    ensures '/' !in p[n..]
    ensures n > 0 ==> p[n - 1] == '/'
  {
    if p == [] then 0
    else if p[|p| - 1] == '/' then |p|
    else
      var n := LastSlash(p[..|p| - 1]);
      assert p[n..] == p[..|p| - 1][n..] + [p[|p| - 1]];
      n
  }

  function TrimTrailing(p: string): (r: string) {
    if p != [] && p[|p| - 1] == '/' then TrimTrailing(p[..|p| - 1]) else p
  }

  function Base(p: string): (r: string) {
    if p == "" then "."
    else
      var q := TrimTrailing(p);
      if q == "" then "/" else q[LastSlash(q)..]
  }

  function Dir(p: string): (r: string) {
    Clean(p[..LastSlash(p)])
  }

  /** path.Join of two elements: empty ones are ignored, the rest is cleaned. */
  function Join2(a: string, b: string): (r: string) {
    if a == "" && b == "" then ""
    else if a == "" then Clean(b)
    else if b == "" then Clean(a)
    else Clean(a + "/" + b)
  }

  /** Joining clean relative paths below the start just puts a slash between them. */
  lemma JoinPlain(a: string, b: string)
    requires CleanRel(a) && Plain(b)
    ensures Join2(a, b) == a + "/" + b && CleanRel(a + "/" + b)
  {
    CleanRelNoSlash(a);
    CleanRelNoSlash(b);
    SplitConcat(a, b);
    SplitSegments(a);
    SplitSegments(b);
    NoDotDot(Split(b));
    var s := Split(a) + Split(b);
    assert forall i :: 0 <= i < |s| ==> s[i] == if i < |Split(a)| then Split(a)[i] else Split(b)[i - |Split(a)|];
    CleanKeeps(a + "/" + b);
  }

  /** The last segment of a path that does not end in a slash. */
  lemma BaseOfConcat(a: string, b: string)
    requires b != "" && '/' !in b
    ensures Base(b) == b
    ensures Base(a + "/" + b) == b
  {
    LastSlashOfConcat("", b);
    assert "" + b == b;
    assert b[|b| - 1] in b;
    LastSlashOfConcat(a + "/", b);
  }

  lemma {:induction false} LastSlashOfConcat(a: string, b: string)
    requires '/' !in b
    requires a == "" || a[|a| - 1] == '/'
    ensures LastSlash(a + b) == |a|
  {
    if b == [] {
      assert a + b == a;
    } else {
      var c := b[|b| - 1];
      assert c in b;
      assert (a + b)[..|a + b| - 1] == a + b[..|b| - 1];
      assert forall x :: x in b[..|b| - 1] ==> x in b;
      LastSlashOfConcat(a, b[..|b| - 1]);
    }
  }
}

/** Finding skills in a fetched tree and slicing them out of it
    (internal/contentkit/skillmarketplace_discover.go). */
module SkillTree {
  import opened Strings
  import opened Paths
  import opened TarSafety
  import opened SkillVerify

  const MAX_SKILLS: nat := 2000
  const MAX_FILE_BYTES: nat := 0x400_0000

  datatype Skill = Skill(name: string, dir: string, description: string)

  datatype TreeError = TooManySkills | FileTooLarge | EmptySubtree

  // ----- Path normalisation

  function NormRel(name: string, root: string): (r: string) {
    var clean := CleanName(name);
    if root != "" then TrimPrefix(clean, root + "/") else clean
  }

  predicate IsSpace(c: char) {
    || '\t' <= c <= '\r' || c == ' ' || c == '\U{85}' || c == '\U{A0}' || c == '\U{1680}'
    || '\U{2000}' <= c <= '\U{200A}' || c == '\U{2028}' || c == '\U{2029}' || c == '\U{202F}'
    || c == '\U{205F}' || c == '\U{3000}'
  }

  /** The characters with the Unicode property White_Space. */
  const WHITE_SPACE: string :=
    "\U{9}\U{A}\U{B}\U{C}\U{D}\U{20}\U{85}\U{A0}\U{1680}\U{2000}\U{2001}\U{2002}\U{2003}\U{2004}\U{2005}\U{2006}"
    + "\U{2007}\U{2008}\U{2009}\U{200A}\U{2028}\U{2029}\U{202F}\U{205F}\U{3000}"

  lemma IsSpaceExact(c: char)
    ensures IsSpace(c) <==> c in WHITE_SPACE
  {
  }

  function TrimSpaceLeft(s: string): (r: string) {
    if s != [] && IsSpace(s[0]) then TrimSpaceLeft(s[1..]) else s
  }

  function TrimSpaceRight(s: string): (r: string) {
    if s != [] && IsSpace(s[|s| - 1]) then TrimSpaceRight(s[..|s| - 1]) else s
  }

  function TrimSlashLeft(s: string): (r: string) {
    if s != [] && s[0] == '/' then TrimSlashLeft(s[1..]) else s
  }

  function NormSubPath(p: string): (r: string) {
    var c := Clean(TrimTrailing(TrimSlashLeft(TrimSpaceRight(TrimSpaceLeft(p)))));
    if c == "." || c == "/" then "" else c
  }

  function RelUnderSubPath(rel: string, subPath: string): (r: Option<string>) {
    if subPath == "" then Some(rel)
    else if rel == subPath || !HasPrefix(rel, subPath + "/") then None
    else Some(TrimPrefix(rel, subPath + "/"))
  }

  // ----- The archive root

  /** The scan of detectArchiveRoot from `root` on; `Split(clean)[0]` is the text before
      the first slash, and a name of one segment has no slash. */
  function DetectFrom(root: string, names: seq<string>): (r: string)
    decreases |names|
  {
    if names == [] then root
    else
      var segs := Split(CleanName(names[0]));
      if |segs| == 1 then ""
      else if root == "" then DetectFrom(segs[0], names[1..])
      else if root != segs[0] then ""
      else DetectFrom(root, names[1..])
  }

  method DetectArchiveRoot(names: seq<string>) returns (root: string)
    ensures root == DetectFrom("", names)
  {
    root := "";
    var i := 0;
    while i < |names|
      invariant 0 <= i <= |names|
      invariant DetectFrom(root, names[i..]) == DetectFrom("", names)
    {
      var segs := Split(CleanName(names[i]));
      assert names[i..][1..] == names[i + 1..];
      if |segs| == 1 {
        return "";
      }
      if root == "" {
        root := segs[0];
      } else if root != segs[0] {
        return "";
      }
      i := i + 1;
    }
  }

  function RegularNames(es: seq<Entry>): (r: seq<string>) {
    if es == [] then []
    else
      var r := RegularNames(es[..|es| - 1]);
      if es[|es| - 1].hdr.flag == Reg then r + [es[|es| - 1].hdr.name] else r
  }

  function ArchiveRoot(es: seq<Entry>): (r: string) {
    DetectFrom("", RegularNames(es))
  }

  // ----- Discovery

  /** The skill an entry contributes: a regular <skills-root>/<dir>/SKILL.md with a valid
      manifest named after its directory. */
  function SkillAt(e: Entry, root: string, sub: string, yaml: Yaml): (r: Option<Skill>) {
    if e.hdr.flag != Reg then None
    else
      var rel := RelUnderSubPath(NormRel(e.hdr.name, root), sub);
      if rel.None? then None
      else if Base(rel.value) != MANIFEST || |Split(rel.value)| != 2 then None
      else
        var dir := Dir(rel.value);
        var fm := ParseFrontmatter(Limited(e.body), yaml);
        if fm.None? then None
        else if !ValidSkillName(fm.value.name) || fm.value.name != dir then None
        else if !ValidDescription(fm.value.description) then None
        else Some(Skill(fm.value.name, dir, fm.value.description))
  }

  /** What each entry contributes. */
  function SkillsOf(es: seq<Entry>, root: string, sub: string, yaml: Yaml): (r: seq<Option<Skill>>) {
    seq(|es|, i requires 0 <= i < |es| => SkillAt(es[i], root, sub, yaml))
  }

  /** The skills by directory; a later one replaces an earlier one. */
  function ByDir(skills: seq<Option<Skill>>): (r: Result<map<string, Skill>, TreeError>) {
    if skills == [] then Ok(map[])
    else
      var r, s := ByDir(skills[..|skills| - 1]), skills[|skills| - 1];
      if r.Err? then r else Put(r.value, s)
  }

  /** One more skill, unless that is one too many. */
  function Put(found: map<string, Skill>, s: Option<Skill>): (r: Result<map<string, Skill>, TreeError>) {
    if s.None? then Ok(found)
    else
      var now := found[s.value.dir := s.value];
      if |now| > MAX_SKILLS then Err(TooManySkills) else Ok(now)
  }

  function Found(es: seq<Entry>, root: string, sub: string, yaml: Yaml): (r: Result<map<string, Skill>, TreeError>) {
    ByDir(SkillsOf(es, root, sub, yaml))
  }

  ghost predicate SortedByName(out: seq<Skill>) {
    forall i, j :: 0 <= i < j < |out| ==> Less(out[i].name, out[j].name)
  }

  /** The sorted list of the values of `found`. */
  ghost predicate Lists(out: seq<Skill>, found: map<string, Skill>) {
    SortedByName(out) && forall s :: s in out <==> s.dir in found && found[s.dir] == s
  }

  function Discover(es: seq<Entry>, subPath: string, yaml: Yaml): (r: Result<map<string, Skill>, TreeError>) {
    Found(es, ArchiveRoot(es), NormSubPath(subPath), yaml)
  }

  /** The directories that hold a skill. */
  function Dirs(skills: seq<Option<Skill>>): (r: set<string>) {
    set s | s in skills && s.Some? :: s.value.dir
  }

  /** skills[i] is the last one in directory d. */
  ghost predicate LastIn(skills: seq<Option<Skill>>, d: string, i: int) {
    && 0 <= i < |skills| && skills[i].Some? && skills[i].value.dir == d
    && forall j | i < j < |skills| && skills[j].Some? :: skills[j].value.dir != d
  }

  ghost predicate HoldsLast(skills: seq<Option<Skill>>, d: string, s: Skill) {
    exists i :: LastIn(skills, d, i) && skills[i] == Some(s)
  }

  ghost predicate HoldsAll(skills: seq<Option<Skill>>, found: map<string, Skill>) {
    found.Keys == Dirs(skills) && forall d | d in found :: HoldsLast(skills, d, found[d])
  }

  lemma HoldsLastSnoc(init: seq<Option<Skill>>, o: Option<Skill>, d: string, s: Skill)
    requires if o.Some? && o.value.dir == d then s == o.value else HoldsLast(init, d, s)
    ensures HoldsLast(init + [o], d, s)
  {
    if o.Some? && o.value.dir == d {
      assert LastIn(init + [o], d, |init|);
    } else {
      var i :| LastIn(init, d, i) && init[i] == Some(s);
      assert LastIn(init + [o], d, i);
    }
  }

  lemma HoldsAllSnoc(init: seq<Option<Skill>>, o: Option<Skill>, found: map<string, Skill>)
    requires HoldsAll(init, found)
    ensures Dirs(init + [o]) == Dirs(init) + if o.Some? then {o.value.dir} else {}
    ensures HoldsAll(init + [o], if o.None? then found else found[o.value.dir := o.value])
  {
    var now := if o.None? then found else found[o.value.dir := o.value];
    assert forall x :: x in init + [o] <==> x in init || x == o;
    forall d | d in now ensures HoldsLast(init + [o], d, now[d]) {
      HoldsLastSnoc(init, o, d, now[d]);
    }
  }

  lemma SubsetSize(a: set<string>, b: set<string>)
    requires a <= b
    ensures |a| <= |b|
  {
    assert b == a + (b - a);
  }

  lemma ByDirSnoc(init: seq<Option<Skill>>, o: Option<Skill>)
    ensures ByDir(init + [o]) == if ByDir(init).Err? then ByDir(init) else Put(ByDir(init).value, o)
  {
  }

  lemma DirsGrow(init: seq<Option<Skill>>, o: Option<Skill>)
    ensures |Dirs(init)| <= |Dirs(init + [o])|
  {
    assert forall x | x in init :: x in init + [o];
    SubsetSize(Dirs(init), Dirs(init + [o]));
  }

  lemma {:induction false} ByDirMeans(skills: seq<Option<Skill>>)
    ensures
      var r := ByDir(skills);
      (r.Ok? <==> |Dirs(skills)| <= MAX_SKILLS) && (r.Ok? ==> HoldsAll(skills, r.value))
  {
    if skills == [] {
      assert Dirs(skills) == {};
    } else {
      var init, o := skills[..|skills| - 1], skills[|skills| - 1];
      ByDirMeans(init);
      ByDirSnoc(init, o);
      DirsGrow(init, o);
      var r := ByDir(init);
      if r.Ok? {
        HoldsAllSnoc(init, o, r.value);
        assert o.Some? ==> |r.value[o.value.dir := o.value]| == |Dirs(init + [o])|;
      }
      assert skills == init + [o];
    }
  }

  /** Discovery finds exactly the directories that hold a skill, each with the last manifest for it, and
      fails exactly when there are more than the cap. */
  lemma FoundMeans(es: seq<Entry>, root: string, sub: string, yaml: Yaml)
    ensures
      var r, skills := Found(es, root, sub, yaml), SkillsOf(es, root, sub, yaml);
      && (r.Ok? <==> |Dirs(skills)| <= 2000)
      && (r.Ok? ==> HoldsAll(skills, r.value))
      && (r.Ok? ==> forall d | d in r.value :: r.value[d].name == d && r.value[d].dir == d && ValidSkillName(d))
  {
    ByDirMeans(SkillsOf(es, root, sub, yaml));
    var r := Found(es, root, sub, yaml);
    if r.Ok? {
      forall d | d in r.value ensures r.value[d].name == d && r.value[d].dir == d && ValidSkillName(d) {
        assert HoldsLast(SkillsOf(es, root, sub, yaml), d, r.value[d]);
      }
    }
  }

  method DiscoverSkillsInTree(es: seq<Entry>, subPath: string, yaml: Yaml)
    returns (root: string, r: Result<seq<Skill>, TreeError>)
    ensures r.Ok? ==> root == ArchiveRoot(es)
    ensures match Discover(es, subPath, yaml)
            case Ok(found) => r.Ok? && Lists(r.value, found)
            case Err(e) => r == Err(e)
  {
    root := DetectArchiveRoot(RegularNames(es));
    var found := CollectSkills(es, root, NormSubPath(subPath), yaml);
    if found.Err? {
      return "", Err(found.error);
    }
    FoundMeans(es, root, NormSubPath(subPath), yaml);
    var out := SortSkills(found.value);
    r := Ok(out);
  }

  /** The body pass of DiscoverSkillsInTree. */
  method CollectSkills(es: seq<Entry>, root: string, sub: string, yaml: Yaml)
    returns (r: Result<map<string, Skill>, TreeError>)
    ensures r == Found(es, root, sub, yaml)
  {
    var found: map<string, Skill> := map[];
    ghost var skills := SkillsOf(es, root, sub, yaml);
    var i := 0;
    while i < |es|
      invariant 0 <= i <= |es|
      invariant ByDir(skills[..i]) == Ok(found)
    {
      CollectStep(es, root, sub, yaml, i);
      var s := SkillAt(es[i], root, sub, yaml);
      i := i + 1;
      if s.Some? {
        found := found[s.value.dir := s.value];
        if |found| > MAX_SKILLS {
          ByDirErr(skills, i);
          return Err(TooManySkills);
        }
      }
    }
    assert skills[..i] == skills;
    return Ok(found);
  }

  lemma CollectStep(es: seq<Entry>, root: string, sub: string, yaml: Yaml, i: nat)
    requires i < |es|
    ensures
      var skills := SkillsOf(es, root, sub, yaml);
      ByDir(skills[..i + 1]) ==
        if ByDir(skills[..i]).Err? then ByDir(skills[..i])
        else Put(ByDir(skills[..i]).value, SkillAt(es[i], root, sub, yaml))
  {
    var skills := SkillsOf(es, root, sub, yaml);
    assert skills[..i + 1] == skills[..i] + [skills[i]];
    ByDirSnoc(skills[..i], skills[i]);
  }

  lemma {:induction false} ByDirErr(skills: seq<Option<Skill>>, i: nat)
    requires i <= |skills| && ByDir(skills[..i]).Err?
    ensures ByDir(skills) == ByDir(skills[..i])
    decreases |skills|
  {
    if i == |skills| {
      assert skills[..i] == skills;
    } else {
      assert skills[..|skills| - 1][..i] == skills[..i];
      ByDirErr(skills[..|skills| - 1], i);
    }
  }

  /** Collects the values of the map and keeps them sorted by name. */
  method SortSkills(found: map<string, Skill>) returns (out: seq<Skill>)
    requires forall d | d in found :: found[d].name == d && found[d].dir == d
    ensures Lists(out, found)
  {
    out := [];
    var rest := found.Keys;
    while rest != {}
      invariant rest <= found.Keys
      invariant SortedByName(out)
      invariant forall s :: s in out <==> s.dir in found && s.dir !in rest && found[s.dir] == s
      decreases |rest|
    {
      var d :| d in rest;
      out := InsertByName(out, found[d]);
      rest := rest - {d};
    }
  }

  lemma InsertSorted(out: seq<Skill>, i: nat, s: Skill)
    requires SortedByName(out) && i <= |out|
    requires forall k :: 0 <= k < i ==> Less(out[k].name, s.name)
    requires forall k :: i <= k < |out| ==> Less(s.name, out[k].name)
    ensures SortedByName(out[..i] + [s] + out[i..])
  {
  }

  lemma AboveRest(out: seq<Skill>, i: nat, s: Skill)
    requires SortedByName(out) && i < |out| && Less(s.name, out[i].name)
    ensures forall k :: i <= k < |out| ==> Less(s.name, out[k].name)
  {
    forall k | i < k < |out| ensures Less(s.name, out[k].name) {
      LessTransitive(s.name, out[i].name, out[k].name);
    }
  }

  method InsertByName(out: seq<Skill>, s: Skill) returns (r: seq<Skill>)
    requires SortedByName(out)
    requires forall x | x in out :: x.name != s.name
    ensures SortedByName(r)
    ensures forall x :: x in r <==> x in out || x == s
  {
    var i := 0;
    while i < |out| && Less(out[i].name, s.name)
      invariant 0 <= i <= |out|
      invariant forall k :: 0 <= k < i ==> Less(out[k].name, s.name)
    {
      i := i + 1;
    }
    if i < |out| {
      assert out[i] in out;
      LessTotal(out[i].name, s.name);
      AboveRest(out, i, s);
    }
    InsertSorted(out, i, s);
    r := out[..i] + [s] + out[i..];
    assert out == out[..i] + out[i..];
  }

  // ----- Slicing

  predicate Under(rel: string, subtree: string) {
    rel == subtree || HasPrefix(rel, subtree + "/")
  }

  /** The name an entry at or below the subtree gets, or None when it is left out. */
  function Reroot(rel: string, subtree: string, keepLeafDir: bool): (r: Option<string>) {
    if !Under(rel, subtree) then None
    else if keepLeafDir then Some(Base(subtree) + TrimPrefix(rel, subtree))
    else if rel == subtree then None
    else Some(TrimPrefix(rel, subtree + "/"))
  }

  /** The re-packed entry: a fresh header, so link targets and PAX records are dropped. */
  function SliceEntry(e: Entry, root: string, subtree: string, keepLeafDir: bool): (r: Option<Entry>) {
    var name := Reroot(NormRel(e.hdr.name, root), subtree, keepLeafDir);
    if name.None? then None else Some(Entry(Header(name.value, e.hdr.flag, "", None), e.body))
  }

  /** The entries written so far, or the size error; the subtree path is already cleaned. */
  function Sliced(es: seq<Entry>, root: string, subtree: string, max: nat, keep: bool)
    : (r: Result<seq<Entry>, TreeError>)
  {
    if es == [] then Ok([])
    else
      var r := Sliced(es[..|es| - 1], root, subtree, max, keep);
      var e := SliceEntry(es[|es| - 1], root, subtree, keep);
      if r.Err? then r else Written(r.value, e, max)
  }

  /** One entry appended to the output, unless it is left out or too large. */
  function Written(out: seq<Entry>, e: Option<Entry>, max: nat): (r: Result<seq<Entry>, TreeError>) {
    if e.None? then Ok(out)
    else if e.value.hdr.flag == Reg && |e.value.body| > max then Err(FileTooLarge)
    else Ok(out + [e.value])
  }

  function Slice(es: seq<Entry>, root: string, subtreePath: string, max: nat, keep: bool)
    : (r: Result<seq<Entry>, TreeError>)
  {
    var r := Sliced(es, root, Clean(subtreePath), max, keep);
    if r == Ok([]) then Err(EmptySubtree) else r
  }

  lemma SlicedSnoc(es: seq<Entry>, i: nat, root: string, subtree: string, max: nat, keep: bool, out: seq<Entry>)
    requires i < |es| && Sliced(es[..i], root, subtree, max, keep) == Ok(out)
    ensures Sliced(es[..i + 1], root, subtree, max, keep) == Written(out, SliceEntry(es[i], root, subtree, keep), max)
  {
    assert es[..i + 1][..i] == es[..i];
  }

  method SliceSubtree(es: seq<Entry>, root: string, subtreePath: string, max: nat, keepLeafDir: bool)
    returns (r: Result<seq<Entry>, TreeError>)
    ensures r == Slice(es, root, subtreePath, max, keepLeafDir)
  {
    r := CopySubtree(es, root, Clean(subtreePath), max, keepLeafDir);
    if r.Ok? && r.value == [] {
      r := Err(EmptySubtree);
    }
  }

  /** The copying loop of SliceSubtree. */
  method CopySubtree(es: seq<Entry>, root: string, subtree: string, max: nat, keepLeafDir: bool)
    returns (r: Result<seq<Entry>, TreeError>)
    ensures r == Sliced(es, root, subtree, max, keepLeafDir)
  {
    var out: seq<Entry> := [];
    var i := 0;
    while i < |es|
      invariant 0 <= i <= |es|
      invariant Sliced(es[..i], root, subtree, max, keepLeafDir) == Ok(out)
    {
      SlicedSnoc(es, i, root, subtree, max, keepLeafDir, out);
      var e := SliceEntry(es[i], root, subtree, keepLeafDir);
      i := i + 1;
      if e.Some? && e.value.hdr.flag == Reg && |e.value.body| > max {
        SlicedErr(es, i, root, subtree, max, keepLeafDir);
        return Err(FileTooLarge);
      }
      if e.Some? {
        out := out + [e.value];
      }
    }
    assert es[..i] == es;
    return Ok(out);
  }

  lemma {:induction false} SlicedErr(es: seq<Entry>, i: nat, root: string, subtree: string, max: nat, keep: bool)
    requires i <= |es| && Sliced(es[..i], root, subtree, max, keep).Err?
    ensures Sliced(es, root, subtree, max, keep) == Sliced(es[..i], root, subtree, max, keep)
    decreases |es|
  {
    if i == |es| {
      assert es[..i] == es;
    } else {
      assert es[..|es| - 1][..i] == es[..i];
      SlicedErr(es[..|es| - 1], i, root, subtree, max, keep);
    }
  }

  // ----- What a slice holds

  /** The entry lies below the subtree, or is the subtree itself when its directory is kept. */
  ghost predicate Picked(e: Entry, root: string, t: string, keep: bool) {
    var rel := NormRel(e.hdr.name, root);
    t + "/" <= rel || (keep && rel == t)
  }

  /** The entry as re-packed: below the subtree's own directory or below nothing, with no link target or
      extended header. */
  ghost predicate RepackedAs(e: Entry, out: Entry, root: string, t: string, keep: bool) {
    var rel := NormRel(e.hdr.name, root);
    && out.body == e.body && out.hdr.flag == e.hdr.flag && out.hdr.linkname == "" && out.hdr.paxPath.None?
    && (if keep then |t| <= |rel| && out.hdr.name == Base(t) + rel[|t|..]
        else |t| + 1 <= |rel| && out.hdr.name == rel[|t| + 1..])
  }

  ghost predicate TooLarge(e: Entry, root: string, t: string, max: nat, keep: bool) {
    Picked(e, root, t, keep) && e.hdr.flag == Reg && |e.body| > max
  }

  lemma SliceEntryExact(e: Entry, root: string, t: string, keep: bool)
    ensures SliceEntry(e, root, t, keep).Some? <==> Picked(e, root, t, keep)
    ensures Picked(e, root, t, keep) ==> RepackedAs(e, SliceEntry(e, root, t, keep).value, root, t, keep)
  {
  }

  /** What each entry becomes. */
  ghost function Repacks(es: seq<Entry>, root: string, t: string, keep: bool): (r: seq<Option<Entry>>) {
    seq(|es|, i requires 0 <= i < |es| => SliceEntry(es[i], root, t, keep))
  }

  ghost function Gather(made: seq<Option<Entry>>, max: nat): (r: Result<seq<Entry>, TreeError>) {
    if made == [] then Ok([])
    else
      var r := Gather(made[..|made| - 1], max);
      if r.Err? then r else Written(r.value, made[|made| - 1], max)
  }

  lemma RepacksSnoc(es: seq<Entry>, root: string, t: string, keep: bool)
    requires es != []
    ensures
      var made, n := Repacks(es, root, t, keep), |es| - 1;
      |made| == n + 1 && made[..n] == Repacks(es[..n], root, t, keep) && made[n] == SliceEntry(es[n], root, t, keep)
  {
  }

  lemma {:induction false} SlicedGathers(es: seq<Entry>, root: string, t: string, max: nat, keep: bool)
    ensures Sliced(es, root, t, max, keep) == Gather(Repacks(es, root, t, keep), max)
  {
    if es != [] {
      SlicedGathers(es[..|es| - 1], root, t, max, keep);
      RepacksSnoc(es, root, t, keep);
    }
  }

  predicate OverLimit(made: Option<Entry>, max: nat) {
    made.Some? && made.value.hdr.flag == Reg && |made.value.body| > max
  }

  /** The indices of what is there, in order. */
  ghost predicate Indices(made: seq<Option<Entry>>, idx: seq<nat>) {
    && (forall k :: 0 <= k < |idx| ==> idx[k] < |made| && made[idx[k]].Some?)
    && (forall j, k :: 0 <= j < k < |idx| ==> idx[j] < idx[k])
    && (forall i: nat | i < |made| && made[i].Some? :: i in idx)
  }

  lemma IndicesSnoc(made: seq<Option<Entry>>, last: Option<Entry>, idx: seq<nat>, n: nat)
    requires Indices(made, idx) && n == |made|
    ensures Indices(made + [last], if last.Some? then idx + [n] else idx)
  {
    var more := if last.Some? then idx + [n] else idx;
    forall i: nat | i < n + 1 && (made + [last])[i].Some? ensures i in more {
      if i < n {
        assert made[i].Some?;
        assert i in idx;
      } else {
        assert more[|idx|] == n;
      }
    }
  }

  lemma {:induction false} GatherFails(made: seq<Option<Entry>>, max: nat)
    ensures Gather(made, max).Err? <==> exists i :: 0 <= i < |made| && OverLimit(made[i], max)
    ensures Gather(made, max).Err? ==> Gather(made, max).error == FileTooLarge
  {
    if made != [] {
      var n := |made| - 1;
      GatherFails(made[..n], max);
      if i :| 0 <= i < n && OverLimit(made[i], max) {
        assert OverLimit(made[..n][i], max);
      }
    }
  }

  /** `out` is what stands at the indices `idx`. */
  ghost predicate StandsAt(made: seq<Option<Entry>>, idx: seq<nat>, out: seq<Entry>) {
    |idx| == |out| && forall k :: 0 <= k < |idx| ==> idx[k] < |made| && made[idx[k]] == Some(out[k])
  }

  lemma StandsAtSnoc(made: seq<Option<Entry>>, last: Option<Entry>, idx: seq<nat>, out: seq<Entry>, n: nat)
    requires StandsAt(made, idx, out) && n == |made|
    ensures
      if last.None? then StandsAt(made + [last], idx, out)
      else StandsAt(made + [last], idx + [n], out + [last.value])
  {
  }

  lemma GatherSnoc(made: seq<Option<Entry>>, last: Option<Entry>, max: nat)
    requires Gather(made + [last], max).Ok?
    ensures Gather(made, max).Ok?
    ensures Gather(made + [last], max).value == Gather(made, max).value + if last.Some? then [last.value] else []
  {
    assert (made + [last])[..|made|] == made;
  }

  lemma {:induction false} GatherExact(made: seq<Option<Entry>>, max: nat, out: seq<Entry>) returns (idx: seq<nat>)
    requires Gather(made, max) == Ok(out)
    ensures Indices(made, idx) && StandsAt(made, idx, out)
  {
    if made == [] {
      idx := [];
    } else {
      var n := |made| - 1;
      var init, last := made[..n], made[n];
      assert made == init + [last];
      GatherSnoc(init, last, max);
      var prev := Gather(init, max).value;
      var got := GatherExact(init, max, prev);
      IndicesSnoc(init, last, got, n);
      StandsAtSnoc(init, last, got, prev, n);
      idx := if last.Some? then got + [n] else got;
    }
  }

  /** A slice holds exactly the entries of the subtree, in order, re-packed; it fails exactly when one of
      them is a file over the limit. */
  lemma SlicedExact(es: seq<Entry>, root: string, t: string, max: nat, keep: bool) returns (idx: seq<nat>)
    ensures
      var r := Sliced(es, root, t, max, keep);
      && (r.Err? <==> exists i :: 0 <= i < |es| && TooLarge(es[i], root, t, max, keep))
      && (r.Err? ==> r.error == FileTooLarge)
      && (r.Ok? ==>
            && |idx| == |r.value| && (forall j, k :: 0 <= j < k < |idx| ==> idx[j] < idx[k])
            && (forall i: nat | i < |es| :: i in idx <==> Picked(es[i], root, t, keep))
            && forall k :: 0 <= k < |idx| ==> idx[k] < |es| && RepackedAs(es[idx[k]], r.value[k], root, t, keep))
  {
    var made := Repacks(es, root, t, keep);
    SlicedGathers(es, root, t, max, keep);
    GatherFails(made, max);
    idx := [];
    if Gather(made, max).Ok? {
      idx := GatherExact(made, max, Gather(made, max).value);
    }
    forall i: nat | i < |es|
      ensures made[i].Some? <==> Picked(es[i], root, t, keep)
      ensures made[i].Some? ==> RepackedAs(es[i], made[i].value, root, t, keep)
      ensures OverLimit(made[i], max) <==> TooLarge(es[i], root, t, max, keep)
    {
      SliceEntryExact(es[i], root, t, keep);
    }
  }

  /** A slice is refused as empty exactly when nothing lies in the subtree. */
  lemma EmptyExact(es: seq<Entry>, root: string, subtreePath: string, max: nat, keep: bool)
    ensures Slice(es, root, subtreePath, max, keep) == Err(EmptySubtree) <==>
              forall i :: 0 <= i < |es| ==> !Picked(es[i], root, Clean(subtreePath), keep)
    ensures
      var r := Sliced(es, root, Clean(subtreePath), max, keep);
      r != Ok([]) ==> Slice(es, root, subtreePath, max, keep) == r
  {
    var t := Clean(subtreePath);
    var idx := SlicedExact(es, root, t, max, keep);
    var r := Sliced(es, root, t, max, keep);
    if i: nat :| i < |es| && Picked(es[i], root, t, keep) {
      assert r.Ok? ==> i in idx;
    } else {
      assert r.Ok?;
    }
  }
}

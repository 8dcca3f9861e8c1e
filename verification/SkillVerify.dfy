/** Skill manifests and the check a skill archive must pass
    (internal/contentkit/skill_verify.go). An archive is the sequence of its entries. */
module SkillVerify {
  import opened Strings
  import opened Paths
  import opened TarSafety

  const MAX_MANIFEST_BYTES: nat := 0x10_0000
  const MAX_VERIFY_ENTRIES: nat := 100_000
  const MAX_VERIFY_BYTES: nat := 0x4000_0000
  const MAX_NAME: nat := 64
  const MAX_DESCRIPTION: nat := 1024
  const MANIFEST: string := "SKILL.md"
  const TAR_BLOCK: nat := 512

  datatype Entry = Entry(hdr: Header, body: string)

  datatype Frontmatter = Frontmatter(name: string, description: string)

  /** The YAML decoder, which the model leaves open. */
  type Yaml = string -> Option<Frontmatter>

  // ----- Skill names

  predicate LowerAlnum(c: char) {
    'a' <= c <= 'z' || '0' <= c <= '9'
  }

  predicate IsWord(w: string) {
    w != "" && AllLowerAlnum(w)
  }

  predicate AllLowerAlnum(w: string) {
    forall c | c in w :: LowerAlnum(c)
  }

  /** 1 to 64 characters matching ^[a-z0-9]+(-[a-z0-9]+)*$: non-empty words of lower-case
      letters and digits joined by single hyphens. */
  predicate ValidSkillName(name: string) {
    1 <= |name| <= MAX_NAME && forall w | w in Split(name, '-') :: IsWord(w)
  }

  lemma {:induction false} WordsChars(s: string)
    requires forall w | w in Split(s, '-') :: AllLowerAlnum(w)
    ensures forall c | c in s :: LowerAlnum(c) || c == '-'
  {
    if s != [] {
      var rest := Split(s[1..], '-');
      forall w | w in rest ensures AllLowerAlnum(w) {
        if s[0] == '-' || w in rest[1..] {
          assert w in Split(s, '-');
        } else {
          assert w == rest[0];
          assert AllLowerAlnum(Split(s, '-')[0]);
          assert forall c | c in w :: c in Split(s, '-')[0];
        }
      }
      WordsChars(s[1..]);
      if s[0] != '-' {
        assert AllLowerAlnum(Split(s, '-')[0]) && Split(s, '-')[0][0] == s[0];
      }
      assert forall c | c in s :: c == s[0] || c in s[1..];
    }
  }

  /** A valid skill name is a safe single path segment. */
  lemma ValidNameIsSegment(name: string)
    requires ValidSkillName(name)
    ensures forall c | c in name :: LowerAlnum(c) || c == '-'
    ensures Split(name) == [name] && Plain(name)
    ensures SafeRelLexical(name)
  {
    WordsChars(name);
    SplitOne(name);
    assert name[0] in name;
    assert |name| >= 2 ==> name[1] in name;
    EscapesIff(name);
    CleanKeeps(name);
    CleanShape(name);
    RootedIff(name);
  }

  lemma ManifestIsNoSkillName()
    ensures !ValidSkillName(MANIFEST) && MANIFEST != "" && '/' !in MANIFEST
  {
    assert MANIFEST[0] in MANIFEST;
    if ValidSkillName(MANIFEST) {
      WordsChars(MANIFEST);
      assert false;
    }
  }

  /** The first word may be empty, the others may not. */
  ghost predicate RestAreWords(words: seq<string>)
    requires words != []
  {
    AllLowerAlnum(words[0]) && forall i :: 1 <= i < |words| ==> IsWord(words[i])
  }

  lemma AllAreWords(words: seq<string>)
    requires words != []
    ensures (forall w | w in words :: IsWord(w)) <==> RestAreWords(words) && words[0] != ""
    ensures RestAreWords([""] + words) <==> RestAreWords(words) && words[0] != ""
  {
    var more := [""] + words;
    assert forall i :: 0 <= i < |words| ==> more[i + 1] == words[i];
    if RestAreWords(more) {
      forall i | 0 <= i < |words| ensures IsWord(words[i]) {
        assert IsWord(more[i + 1]);
      }
    }
    if forall w | w in words :: IsWord(w) {
      assert forall i :: 0 <= i < |words| ==> words[i] in words;
    }
  }

  lemma FirstGrows(c: char, words: seq<string>)
    requires words != []
    ensures RestAreWords([[c] + words[0]] + words[1..]) <==> LowerAlnum(c) && RestAreWords(words)
  {
    var grown := [[c] + words[0]] + words[1..];
    assert forall x :: x in grown[0] <==> x == c || x in words[0];
    assert forall i :: 1 <= i < |words| ==> grown[i] == words[i];
    if RestAreWords(grown) {
      forall i | 1 <= i < |words| ensures IsWord(words[i]) {
        assert IsWord(grown[i]);
      }
    }
  }

  predicate NameChars(s: string) {
    && (forall c | c in s :: LowerAlnum(c) || c == '-')
    && (s != "" ==> s[|s| - 1] != '-')
    && forall i :: 0 <= i < |s| - 1 ==> !(s[i] == '-' && s[i + 1] == '-')
  }

  lemma NameCharsCons(c: char, t: string)
    ensures NameChars([c] + t) <==>
              NameChars(t) && (LowerAlnum(c) || (c == '-' && t != "" && t[0] != '-'))
  {
    var s := [c] + t;
    assert forall i :: 0 <= i < |t| ==> s[i + 1] == t[i];
    if NameChars(s) {
      assert c in s && forall x | x in t :: x in s;
      forall i | 0 <= i < |t| - 1 ensures !(t[i] == '-' && t[i + 1] == '-') {
        assert !(s[i + 1] == '-' && s[i + 2] == '-');
      }
      assert t != "" ==> !(s[0] == '-' && s[1] == '-');
    }
  }

  lemma {:induction false} WordsFromExact(s: string)
    ensures RestAreWords(Split(s, '-')) <==> NameChars(s)
    ensures Split(s, '-')[0] == "" <==> s == "" || s[0] == '-'
  {
    if s != [] {
      var c, t := s[0], s[1..];
      var rest := Split(t, '-');
      assert s == [c] + t;
      WordsFromExact(t);
      NameCharsCons(c, t);
      if c == '-' {
        assert Split(s, '-') == [""] + rest;
        AllAreWords(rest);
      } else {
        assert Split(s, '-') == [[c] + rest[0]] + rest[1..];
        FirstGrows(c, rest);
      }
    }
  }

  /** The names are those of 1 to 64 lower-case letters, digits and hyphens with no hyphen first, last or
      twice in a row. */
  lemma ValidNameExact(name: string)
    ensures ValidSkillName(name) <==>
              && 1 <= |name| <= 64
              && (forall c | c in name :: 'a' <= c <= 'z' || '0' <= c <= '9' || c == '-')
              && name[0] != '-' && name[|name| - 1] != '-'
              && forall i :: 0 <= i < |name| - 1 ==> !(name[i] == '-' && name[i + 1] == '-')
  {
    WordsFromExact(name);
    var words := Split(name, '-');
    AllAreWords(words);
    assert NameChars(name) ==> forall c | c in name :: 'a' <= c <= 'z' || '0' <= c <= '9' || c == '-';
  }

  // ----- SKILL.md front matter

  predicate TrimmedLeft(c: char) {
    c == '\U{FEFF}' || c == ' ' || c == '\t' || c == '\r' || c == '\n'
  }

  function TrimLeft(s: string): (r: string) {
    if s != [] && TrimmedLeft(s[0]) then TrimLeft(s[1..]) else s
  }

  /** Position of the first occurrence of `t`. */
  function Index(s: string, t: string): (r: Option<nat>)
    ensures r.Some? ==> r.value <= |s| && t <= s[r.value..]
    ensures r.Some? ==> forall k :: 0 <= k < r.value ==> !(t <= s[k..])
    ensures r.None? ==> forall k :: 0 <= k <= |s| ==> !(t <= s[k..])
  {
    if t <= s then Some(0)
    else if s == [] then None
    else
      var r := Index(s[1..], t);
      assert forall k :: 0 < k <= |s| ==> s[k..] == s[1..][k - 1..];
      if r.None? then None else Some(r.value + 1)
  }

  function ParseFrontmatter(body: string, yaml: Yaml): (r: Option<Frontmatter>) {
    var s := TrimLeft(body);
    if !HasPrefix(s, "---") then None
    else
      var end := Index(s[3..], "\n---");
      if end.None? then None else yaml(s[3..][..end.value])
  }

  lemma {:induction false} TrimLeftLead(lead: string, s: string)
    requires (forall c | c in lead :: TrimmedLeft(c)) && s != "" && !TrimmedLeft(s[0])
    ensures TrimLeft(lead + s) == s
  {
    if lead == [] {
      assert lead + s == s;
    } else {
      assert lead[0] in lead && (lead + s)[1..] == lead[1..] + s;
      TrimLeftLead(lead[1..], s);
    }
  }

  /** After any byte-order mark and blanks, a fenced document is handed to the decoder exactly as it
      stands between the fences. */
  lemma FencedDocument(lead: string, doc: string, rest: string, yaml: Yaml)
    requires forall c | c in lead :: TrimmedLeft(c)
    requires forall k :: 0 <= k < |doc| ==> !("\n---" <= (doc + "\n---" + rest)[k..])
    ensures ParseFrontmatter(lead + ("---" + doc + "\n---" + rest), yaml) == yaml(doc)
  {
    var s := "---" + doc + "\n---" + rest;
    TrimLeftLead(lead, s);
    assert s[3..] == doc + "\n---" + rest;
    assert s[3..][|doc|..] == "\n---" + rest;
    var end := Index(s[3..], "\n---");
    assert end == Some(|doc|);
    assert s[3..][..|doc|] == doc;
  }

  ghost predicate NoneBefore(t: string, mark: string, n: nat)
    requires n <= |t|
  {
    forall k :: 0 <= k < n ==> !(mark <= t[k..])
  }

  /** A document between fences, after a byte-order mark and blanks. */
  ghost predicate Fenced(body: string, lead: string, doc: string, rest: string) {
    && body == lead + ("---" + doc + "\n---" + rest)
    && (forall c | c in lead :: c in "\U{FEFF} \t\r\n")
    && NoneBefore(doc + "\n---" + rest, "\n---", |doc|)
  }

  ghost predicate Decodes(body: string, yaml: Yaml, fm: Frontmatter) {
    exists lead, doc, rest :: Fenced(body, lead, doc, rest) && yaml(doc) == Some(fm)
  }

  lemma {:induction false} TrimLeftParts(s: string) returns (lead: string)
    ensures s == lead + TrimLeft(s) && forall c | c in lead :: TrimmedLeft(c)
  {
    if s != [] && TrimmedLeft(s[0]) {
      lead := TrimLeftParts(s[1..]);
      lead := [s[0]] + lead;
    } else {
      lead := "";
    }
  }

  lemma SplitAt(t: string, close: string, end: nat) returns (doc: string, rest: string)
    requires end <= |t| && close <= t[end..]
    ensures doc == t[..end] && t == doc + close + rest
  {
    doc, rest := t[..end], t[end + |close|..];
  }

  /** A text with a closing mark is cut at the first one. */
  lemma CutAt(t: string, close: string, end: nat) returns (doc: string, rest: string)
    requires Index(t, close) == Some(end)
    ensures end <= |t| && doc == t[..end] && t == doc + close + rest && NoneBefore(t, close, end)
  {
    doc, rest := SplitAt(t, close, end);
  }

  lemma Joined(open: string, t: string, doc: string, close: string, rest: string)
    requires t == doc + close + rest
    ensures open + t == open + doc + close + rest
  {
  }

  lemma ParsedDecodes(body: string, yaml: Yaml, fm: Frontmatter)
    requires ParseFrontmatter(body, yaml) == Some(fm)
    ensures Decodes(body, yaml, fm)
  {
    var lead := TrimLeftParts(body);
    var s := TrimLeft(body);
    var open, close := s[..3], "\n---";
    var t := s[3..];
    var doc, rest := CutAt(t, close, Index(t, close).value);
    Joined(open, t, doc, close, rest);
    assert s == open + t && open == "---";
    assert Fenced(body, lead, doc, rest);
  }

  /** The front matter is what the decoder makes of the fenced document, and nothing when there is none. */
  lemma FrontmatterExact(body: string, yaml: Yaml, fm: Frontmatter)
    ensures ParseFrontmatter(body, yaml) == Some(fm) <==> Decodes(body, yaml, fm)
  {
    if ParseFrontmatter(body, yaml) == Some(fm) {
      ParsedDecodes(body, yaml, fm);
    }
    if lead, doc, rest :| Fenced(body, lead, doc, rest) && yaml(doc) == Some(fm) {
      FencedDocument(lead, doc, rest, yaml);
    }
  }

  function Limited(body: string): (r: string) {
    if |body| <= MAX_MANIFEST_BYTES then body else body[..MAX_MANIFEST_BYTES]
  }

  predicate ValidDescription(d: string) {
    d != "" && |d| <= MAX_DESCRIPTION
  }

  /** The manifest test shared by verification and discovery. */
  predicate ValidManifest(body: string, yaml: Yaml) {
    var fm := ParseFrontmatter(Limited(body), yaml);
    fm.Some? && ValidSkillName(fm.value.name) && ValidDescription(fm.value.description)
  }

  // ----- VerifySkillContents

  function CleanName(name: string): (r: string) {
    Clean(TrimPrefix(name, "./"))
  }

  predicate IsManifestEntry(e: Entry) {
    var clean := CleanName(e.hdr.name);
    e.hdr.flag == Reg && Base(clean) == MANIFEST && |Split(clean)| <= 2
  }

  /** Decompressed bytes up to the end of the last entry: a header block and the body
      padded to whole blocks. */
  function Consumed(es: seq<Entry>): (n: nat) {
    if es == [] then 0
    else
      Consumed(es[..|es| - 1]) + TAR_BLOCK
      + (|es[|es| - 1].body| + TAR_BLOCK - 1) / TAR_BLOCK * TAR_BLOCK
  }

  /** Bytes read once the last header has been read. */
  function HeaderOffset(es: seq<Entry>): (n: nat) {
    if es == [] then 0 else Consumed(es[..|es| - 1]) + TAR_BLOCK
  }

  /** The whole decompressed archive: two zero blocks end it. */
  function ArchiveSize(es: seq<Entry>): (n: nat) {
    Consumed(es) + 2 * TAR_BLOCK
  }

  predicate HeadersWithinCaps(es: seq<Entry>) {
    |es| <= MAX_VERIFY_ENTRIES && HeaderOffset(es) <= MAX_VERIFY_BYTES
  }

  predicate WithinVerifyCaps(es: seq<Entry>) {
    |es| <= MAX_VERIFY_ENTRIES && ArchiveSize(es) <= MAX_VERIFY_BYTES
  }

  ghost predicate AllSafe(es: seq<Entry>) {
    forall e | e in es :: TarEntrySafe(e.hdr)
  }

  /** The manifest the walk stops looking at: the first in archive order. */
  function FirstManifest(es: seq<Entry>): (r: Option<Entry>) {
    if es == [] then None
    else
      var r := FirstManifest(es[..|es| - 1]);
      if r.None? && IsManifestEntry(es[|es| - 1]) then Some(es[|es| - 1]) else r
  }

  /** Nothing in the archive is refused, whether or not it holds a manifest yet. */
  ghost predicate Unrefused(es: seq<Entry>, yaml: Yaml) {
    && HeadersWithinCaps(es)
    && AllSafe(es)
    && (FirstManifest(es).Some? ==> ValidManifest(FirstManifest(es).value.body, yaml))
  }

  /** What a passing archive is: within the caps, every entry safe, and a first manifest that is valid. */
  ghost predicate Passes(es: seq<Entry>, yaml: Yaml) {
    && WithinVerifyCaps(es)
    && AllSafe(es)
    && FirstManifest(es).Some? && ValidManifest(FirstManifest(es).value.body, yaml)
  }

  lemma PassesIff(es: seq<Entry>, yaml: Yaml)
    ensures Passes(es, yaml) <==> Unrefused(es, yaml) && FirstManifest(es).Some? && ArchiveSize(es) <= MAX_VERIFY_BYTES
  {
  }

  // ----- What a passing archive is, without the functions that decide it

  /** Every entry adds a header block and the least number of whole blocks that holds its body, and two
      blocks end the archive. */
  lemma SizeExact(es: seq<Entry>)
    ensures ArchiveSize([]) == 1024
    ensures es != [] ==>
              var body, grown := |es[|es| - 1].body|, ArchiveSize(es) - ArchiveSize(es[..|es| - 1]) - 512;
              grown % 512 == 0 && body <= grown < body + 512
  {
  }

  /** A regular file that cleans to SKILL.md or to SKILL.md in one directory. */
  predicate AtManifest(e: Entry) {
    var name := e.hdr.name;
    var clean := Clean(if "./" <= name then name[2..] else name);
    && e.hdr.flag == Reg
    && (clean == "SKILL.md" || clean == Split(clean)[0] + "/" + "SKILL.md")
  }

  /** Its first mebibyte holds a fenced document that decodes to a valid name and description. */
  ghost predicate GoodManifest(body: string, yaml: Yaml) {
    exists fm :: && Decodes(if |body| <= 0x10_0000 then body else body[..0x10_0000], yaml, fm)
                 && ValidSkillName(fm.name) && 1 <= |fm.description| <= 1024
  }

  /** Index i is the first one that p holds of. */
  ghost predicate First(es: seq<Entry>, p: Entry -> bool, i: int) {
    0 <= i < |es| && p(es[i]) && forall j | 0 <= j < i :: !p(es[j])
  }

  ghost predicate Acceptable(es: seq<Entry>, yaml: Yaml) {
    && |es| <= 100_000 && ArchiveSize(es) <= 0x4000_0000
    && (forall e | e in es :: EntryInside(e.hdr))
    && FirstIsGood(es, yaml)
  }

  lemma BaseOfClean(p: string)
    ensures Base(Clean(p)) == MANIFEST && |Split(Clean(p))| <= 2 <==>
              Clean(p) == MANIFEST || Clean(p) == Split(Clean(p))[0] + "/" + MANIFEST
  {
    var clean := Clean(p);
    ManifestIsNoSkillName();
    SplitSegments(clean);
    JoinSplit(clean);
    SplitOne(MANIFEST);
    BaseOfConcat("", MANIFEST);
    var segs := Split(clean);
    if |segs| == 1 {
      if clean != "" {
        BaseOfConcat("", clean);
      }
    } else if |segs| == 2 {
      assert segs[1..] == [segs[1]];
      assert clean == segs[0] + "/" + segs[1];
      if segs[1] == "" {
        CleanShape(p);
        RootedIff(clean);
        SplitOne(".");
        assert clean == "/" && "/"[..0] == "";
      } else {
        BaseOfConcat(segs[0], segs[1]);
      }
    }
    if clean == segs[0] + "/" + MANIFEST {
      SplitConcat(segs[0], MANIFEST);
      SplitOne(segs[0]);
      BaseOfConcat(segs[0], MANIFEST);
    }
  }

  lemma ManifestEntryExact(e: Entry)
    ensures IsManifestEntry(e) <==> AtManifest(e)
  {
    BaseOfClean(TrimPrefix(e.hdr.name, "./"));
  }

  lemma ManifestExact(body: string, yaml: Yaml)
    ensures ValidManifest(body, yaml) <==> GoodManifest(body, yaml)
  {
    var text := Limited(body);
    var fm := ParseFrontmatter(text, yaml);
    if fm.Some? {
      FrontmatterExact(text, yaml, fm.value);
    }
    if GoodManifest(body, yaml) {
      var f :| Decodes(text, yaml, f) && ValidSkillName(f.name) && 1 <= |f.description| <= 1024;
      FrontmatterExact(text, yaml, f);
    }
  }

  ghost function FirstWhere(es: seq<Entry>, p: Entry -> bool): (r: Option<Entry>) {
    if es == [] then None
    else
      var r := FirstWhere(es[..|es| - 1], p);
      if r.None? && p(es[|es| - 1]) then Some(es[|es| - 1]) else r
  }

  lemma {:induction false} FirstWhereIs(es: seq<Entry>, p: Entry -> bool)
    ensures forall i | First(es, p, i) :: FirstWhere(es, p) == Some(es[i])
    ensures FirstWhere(es, p).None? <==> forall i | 0 <= i < |es| :: !p(es[i])
  {
    if es != [] {
      var n := |es| - 1;
      var init := es[..n];
      FirstWhereIs(init, p);
      forall i | First(es, p, i) ensures FirstWhere(es, p) == Some(es[i]) {
        if i < n {
          assert First(init, p, i);
        } else {
          assert forall k | 0 <= k < n :: !p(init[k]);
        }
      }
    }
  }

  lemma {:induction false} SomeFirst(es: seq<Entry>, p: Entry -> bool) returns (i: int)
    requires FirstWhere(es, p).Some?
    ensures First(es, p, i)
  {
    var n := |es| - 1;
    if FirstWhere(es[..n], p).Some? {
      i := SomeFirst(es[..n], p);
    } else {
      FirstWhereIs(es[..n], p);
      i := n;
      assert forall j | 0 <= j < n :: es[j] == es[..n][j];
    }
  }

  lemma {:induction false} FirstManifestWhere(es: seq<Entry>)
    ensures FirstManifest(es) == FirstWhere(es, AtManifest)
  {
    if es != [] {
      FirstManifestWhere(es[..|es| - 1]);
      ManifestEntryExact(es[|es| - 1]);
    }
  }

  ghost predicate FirstIsGood(es: seq<Entry>, yaml: Yaml) {
    exists i :: First(es, AtManifest, i) && GoodManifest(es[i].body, yaml)
  }

  lemma FirstIsGoodExact(es: seq<Entry>, yaml: Yaml)
    ensures FirstIsGood(es, yaml) <==>
              FirstManifest(es).Some? && ValidManifest(FirstManifest(es).value.body, yaml)
  {
    FirstManifestWhere(es);
    FirstWhereIs(es, AtManifest);
    if FirstManifest(es).Some? {
      var i := SomeFirst(es, AtManifest);
      ManifestExact(es[i].body, yaml);
    }
    if i :| First(es, AtManifest, i) && GoodManifest(es[i].body, yaml) {
      ManifestExact(es[i].body, yaml);
    }
  }

  lemma AllSafeExact(es: seq<Entry>)
    ensures AllSafe(es) <==> forall e | e in es :: EntryInside(e.hdr)
  {
    forall e | e in es ensures TarEntrySafe(e.hdr) <==> EntryInside(e.hdr) {
      TarEntrySafeExact(e.hdr);
    }
  }

  lemma PassesExact(es: seq<Entry>, yaml: Yaml)
    ensures Passes(es, yaml) <==> Acceptable(es, yaml)
  {
    AllSafeExact(es);
    FirstIsGoodExact(es, yaml);
  }

  lemma UnrefusedSnoc(es: seq<Entry>, i: nat, yaml: Yaml)
    requires i < |es|
    ensures FirstManifest(es[..i + 1]) ==
              if FirstManifest(es[..i]).None? && IsManifestEntry(es[i]) then Some(es[i]) else FirstManifest(es[..i])
    ensures Unrefused(es[..i + 1], yaml) <==>
              && Unrefused(es[..i], yaml)
              && i + 1 <= MAX_VERIFY_ENTRIES && HeaderOffset(es[..i + 1]) <= MAX_VERIFY_BYTES
              && TarEntrySafe(es[i].hdr)
              && (FirstManifest(es[..i]).None? && IsManifestEntry(es[i]) ==> ValidManifest(es[i].body, yaml))
  {
    var all := es[..i + 1];
    assert all[..i] == es[..i] && all[i] == es[i];
    assert all == es[..i] + [es[i]];
    ConsumedMonotone(all, i);
  }

  /** Accepts exactly an archive within the caps, every entry of which stays inside, whose first manifest
      is good. */
  method VerifySkillContents(es: seq<Entry>, yaml: Yaml) returns (ok: bool)
    ensures ok <==> Acceptable(es, yaml)
  {
    ok := RunChecks(es, yaml);
    PassesExact(es, yaml);
  }

  /** The walk over the entries. */
  method RunChecks(es: seq<Entry>, yaml: Yaml) returns (ok: bool)
    ensures ok <==> Passes(es, yaml)
  {
    var found, entries := false, 0;
    while entries < |es|
      invariant 0 <= entries <= |es|
      invariant Unrefused(es[..entries], yaml)
      invariant found == FirstManifest(es[..entries]).Some?
    {
      var e := es[entries];
      UnrefusedSnoc(es, entries, yaml);
      UnrefusedPrefix(es, entries + 1, yaml);
      PassesIff(es, yaml);
      entries := entries + 1;
      if entries > MAX_VERIFY_ENTRIES || HeaderOffset(es[..entries]) > MAX_VERIFY_BYTES {
        return false;
      }
      if !TarEntrySafe(e.hdr) {
        return false;
      }
      if !found && IsManifestEntry(e) {
        if !ValidManifest(e.body, yaml) {
          return false;
        }
        found := true;
      }
    }
    assert es[..entries] == es;
    PassesIff(es, yaml);
    if ArchiveSize(es) > MAX_VERIFY_BYTES {
      return false;
    }
    return found;
  }

  lemma {:induction false} ConsumedMonotone(es: seq<Entry>, i: nat)
    requires i <= |es|
    ensures Consumed(es[..i]) <= Consumed(es)
    ensures HeaderOffset(es[..i]) <= HeaderOffset(es)
    decreases |es|
  {
    if i == |es| {
      assert es[..i] == es;
    } else {
      var init := es[..|es| - 1];
      assert init[..i] == es[..i];
      ConsumedMonotone(init, i);
    }
  }

  /** Whatever refuses a prefix refuses the whole archive. */
  lemma {:induction false} UnrefusedPrefix(es: seq<Entry>, i: nat, yaml: Yaml)
    requires i <= |es|
    ensures Unrefused(es, yaml) ==> Unrefused(es[..i], yaml)
    decreases |es| - i
  {
    if i == |es| {
      assert es[..i] == es;
    } else {
      UnrefusedPrefix(es, i + 1, yaml);
      UnrefusedSnoc(es, i, yaml);
    }
  }
}

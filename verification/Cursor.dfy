/** The opaque page cursor (internal/db/personal_keys.go): a timestamp text and a key id around a
    NUL byte, in unpadded URL-safe base64 (section 5 of RFC 4648). A Go string is the string of
    its bytes, so every character here is below 256. */
module Cursor {
  import opened Strings

  predicate IsByte(c: char) {
    c as int < 256
  }

  predicate Bytes(s: string) {
    forall c | c in s :: IsByte(c)
  }

  type Sextet = v: int | 0 <= v < 64
  type Octet = v: int | 0 <= v < 256

  // ----- Base64

  function Letter(v: Sextet): (c: char)
    ensures IsByte(c) && c != '\n' && c != '\r'
  {
    if v < 26 then ('A' as int + v) as char
    else if v < 52 then ('a' as int + (v - 26)) as char
    else if v < 62 then ('0' as int + (v - 52)) as char
    else if v == 62 then '-' else '_'
  }

  function Value(c: char): (r: Option<Sextet>) {
    if 'A' <= c <= 'Z' then Some(c as int - 'A' as int)
    else if 'a' <= c <= 'z' then Some(c as int - 'a' as int + 26)
    else if '0' <= c <= '9' then Some(c as int - '0' as int + 52)
    else if c == '-' then Some(62)
    else if c == '_' then Some(63)
    else None
  }

  lemma ValueOfLetter(v: Sextet)
    ensures Value(Letter(v)) == Some(v)
  {
  }

  // The four sextets of three octets, and back.

  function Six0(a: Octet): (v: Sextet) { a / 4 }
  function Six1(a: Octet, b: Octet): (v: Sextet) { a % 4 * 16 + b / 16 }
  function Six2(b: Octet, c: Octet): (v: Sextet) { b % 16 * 4 + c / 64 }
  function Six3(c: Octet): (v: Sextet) { c % 64 }

  function Eight0(v: Sextet, w: Sextet): (a: Octet) { v * 4 + w / 16 }
  function Eight1(v: Sextet, w: Sextet): (b: Octet) { v % 16 * 16 + w / 4 }
  function Eight2(v: Sextet, w: Sextet): (c: Octet) { v % 4 * 64 + w }

  lemma GroupRoundTrip(a: Octet, b: Octet, c: Octet)
    ensures Eight0(Six0(a), Six1(a, b)) == a
    ensures Eight1(Six1(a, b), Six2(b, c)) == b
    ensures Eight2(Six2(b, c), Six3(c)) == c
  {
  }

  function Code(s: string, i: nat): (v: Octet)
    requires Bytes(s) && i < |s|
  {
    assert IsByte(s[i]);
    s[i] as int
  }

  /** The sextets of a byte string; a tail of one or two bytes is filled up with zero bits. */
  function Pack(s: string): (v: seq<Sextet>)
    requires Bytes(s)
  {
    if s == [] then []
    else if |s| == 1 then [Six0(Code(s, 0)), Six1(Code(s, 0), 0)]
    else if |s| == 2 then [Six0(Code(s, 0)), Six1(Code(s, 0), Code(s, 1)), Six2(Code(s, 1), 0)]
    else
      [Six0(Code(s, 0)), Six1(Code(s, 0), Code(s, 1)), Six2(Code(s, 1), Code(s, 2)), Six3(Code(s, 2))] + Pack(s[3..])
  }

  /** Whole groups of four give three bytes; a tail of two or three gives one or two, its spare bits
      ignored; a tail of one is an error. */
  function Unpack(v: seq<Sextet>): (r: Option<string>) {
    if v == [] then Some([])
    else if |v| == 1 then None
    else if |v| == 2 then Some([Eight0(v[0], v[1]) as char])
    else if |v| == 3 then Some([Eight0(v[0], v[1]) as char, Eight1(v[1], v[2]) as char])
    else
      var rest := Unpack(v[4..]);
      if rest.None? then None
      else Some([Eight0(v[0], v[1]) as char, Eight1(v[1], v[2]) as char, Eight2(v[2], v[3]) as char] + rest.value)
  }

  function Letters(v: seq<Sextet>): (r: string) {
    if v == [] then [] else [Letter(v[0])] + Letters(v[1..])
  }

  function Values(s: string): (r: Option<seq<Sextet>>) {
    if s == [] then Some([])
    else
      var v, rest := Value(s[0]), Values(s[1..]);
      if v.None? || rest.None? then None else Some([v.value] + rest.value)
  }

  /** The decoder skips line breaks wherever they stand. */
  function DropBreaks(s: string): (r: string) {
    if s == [] then []
    else if s[0] == '\n' || s[0] == '\r' then DropBreaks(s[1..])
    else [s[0]] + DropBreaks(s[1..])
  }

  function Encode(s: string): (r: string)
    requires Bytes(s)
  {
    Letters(Pack(s))
  }

  function Decode(s: string): (r: Option<string>) {
    var v := Values(DropBreaks(s));
    if v.None? then None else Unpack(v.value)
  }

  lemma {:induction false} ValuesOfLetters(v: seq<Sextet>)
    ensures DropBreaks(Letters(v)) == Letters(v)
    ensures Values(Letters(v)) == Some(v)
  {
    if v != [] {
      ValuesOfLetters(v[1..]);
      assert Letters(v)[1..] == Letters(v[1..]);
      ValueOfLetter(v[0]);
      assert v == [v[0]] + v[1..];
    }
  }

  lemma UnpackGroup(p: Sextet, q: Sextet, r: Sextet, t: Sextet, rest: seq<Sextet>)
    requires Unpack(rest).Some?
    ensures Unpack([p, q, r, t] + rest) ==
              Some([Eight0(p, q) as char, Eight1(q, r) as char, Eight2(r, t) as char] + Unpack(rest).value)
  {
  }

  lemma UnpackShort(p: Sextet, q: Sextet, r: Sextet)
    ensures Unpack([p, q]) == Some([Eight0(p, q) as char])
    ensures Unpack([p, q, r]) == Some([Eight0(p, q) as char, Eight1(q, r) as char])
  {
  }

  lemma UnpackTail(s: string)
    requires Bytes(s) && 1 <= |s| <= 2
    ensures Unpack(Pack(s)) == Some(s)
  {
    var a, b := Code(s, 0), if |s| == 2 then Code(s, 1) else 0;
    var p, q, r := Six0(a), Six1(a, b), Six2(b, 0);
    UnpackShort(p, q, r);
    assert Eight0(p, q) == a && Eight1(q, r) == b by { GroupRoundTrip(a, b, 0); }
    assert Pack(s) == if |s| == 1 then [p, q] else [p, q, r];
    assert s == if |s| == 1 then [a as char] else [a as char, b as char];
  }

  lemma {:induction false} UnpackPack(s: string)
    requires Bytes(s)
    ensures Unpack(Pack(s)) == Some(s)
  {
    if 1 <= |s| <= 2 {
      UnpackTail(s);
    } else if |s| > 2 {
      var a, b, c := Code(s, 0), Code(s, 1), Code(s, 2);
      UnpackPack(s[3..]);
      UnpackGroup(Six0(a), Six1(a, b), Six2(b, c), Six3(c), Pack(s[3..]));
      GroupRoundTrip(a, b, c);
      assert [a as char, b as char, c as char] + s[3..] == s;
    }
  }

  /** Decoding undoes encoding for every byte string. */
  lemma DecodeEncode(s: string)
    requires Bytes(s)
    ensures Decode(Encode(s)) == Some(s)
  {
    ValuesOfLetters(Pack(s));
    UnpackPack(s);
  }

  // ----- Which texts decode

  predicate InAlphabet(c: char) {
    'A' <= c <= 'Z' || 'a' <= c <= 'z' || '0' <= c <= '9' || c == '-' || c == '_'
  }

  predicate IsBreak(c: char) {
    c == '\n' || c == '\r'
  }

  lemma {:induction false} ValuesExact(s: string)
    ensures Values(s).Some? <==> forall c | c in s :: InAlphabet(c)
    ensures Values(s).Some? ==> |Values(s).value| == |s|
  {
    if s != [] {
      ValuesExact(s[1..]);
      assert Value(s[0]).Some? <==> InAlphabet(s[0]);
      assert forall c :: c in s <==> c == s[0] || c in s[1..];
    }
  }

  lemma UnpackStep(v: seq<Sextet>)
    ensures |v| < 4 ==> (Unpack(v).None? <==> |v| == 1)
    ensures |v| >= 4 ==> (Unpack(v).None? <==> Unpack(v[4..]).None?)
  {
  }

  lemma LessFour(n: nat)
    requires n >= 4
    ensures n % 4 == (n - 4) % 4
  {
  }

  lemma {:induction false} UnpackExact(v: seq<Sextet>, n: nat)
    requires n == |v|
    ensures Unpack(v).Some? <==> n % 4 != 1
    decreases n
  {
    UnpackStep(v);
    if n >= 4 {
      var rest := v[4..];
      UnpackExact(rest, n - 4);
      assert n % 4 == (n - 4) % 4 by { LessFour(n); }
    } else {
      assert n % 4 == n;
    }
  }

  /** How many characters are no line breaks. */
  ghost function Solid(s: string): (n: nat) {
    if s == [] then 0 else Solid(s[..|s| - 1]) + if IsBreak(s[|s| - 1]) then 0 else 1
  }

  lemma {:induction false} DropBreaksSnoc(s: string, c: char)
    ensures DropBreaks(s + [c]) == DropBreaks(s) + if IsBreak(c) then [] else [c]
  {
    if s == [] {
      assert s + [c] == [c] && [c][1..] == [];
    } else {
      DropBreaksSnoc(s[1..], c);
      assert (s + [c])[1..] == s[1..] + [c];
    }
  }

  lemma {:induction false} DropBreaksExact(s: string)
    ensures forall c :: c in DropBreaks(s) <==> c in s && !IsBreak(c)
    ensures |DropBreaks(s)| == Solid(s)
  {
    if s != [] {
      var init, last := s[..|s| - 1], s[|s| - 1];
      DropBreaksExact(init);
      DropBreaksSnoc(init, last);
      assert s == init + [last];
    }
  }

  /** A text decodes exactly when, line breaks apart, it is of the URL-safe alphabet and not one character
      over a multiple of four. */
  lemma DecodesExact(s: string)
    ensures Decode(s).Some? <==> (forall c | c in s :: InAlphabet(c) || IsBreak(c)) && Solid(s) % 4 != 1
  {
    var t := DropBreaks(s);
    DropBreaksExact(s);
    ValuesExact(t);
    if Values(t).Some? {
      UnpackExact(Values(t).value, |t|);
    }
  }

  // ----- The cursor

  const NUL: char := '\0'

  /** The timestamp formatter and parser, which the model leaves open. */
  datatype TimeText = TimeText(format: int -> string, parse: string -> Option<int>)

  /** The text of t has no NUL and parses back. RFC 3339 text does up to the year 9999. */
  predicate ReadsBack(tt: TimeText, t: int) {
    NUL !in tt.format(t) && tt.parse(tt.format(t)) == Some(t)
  }

  datatype Position = Position(createdAt: int, id: string)

  /** strings.Cut at the first NUL. */
  function Cut(s: string): (r: Option<(string, string)>) {
    if s == [] then None
    else if s[0] == NUL then Some(([], s[1..]))
    else
      var r := Cut(s[1..]);
      if r.None? then None else Some(([s[0]] + r.value.0, r.value.1))
  }

  function EncodeCursor(text: string, id: string): (r: string)
    requires Bytes(text) && Bytes(id)
  {
    Encode(text + [NUL] + id)
  }

  /** No position for the empty cursor, an error for a malformed one. */
  function DecodeCursor(cursor: string, tt: TimeText): (r: Result<Option<Position>, string>) {
    if cursor == "" then Ok(None)
    else
      var raw := Decode(cursor);
      if raw.None? then Err("invalid cursor")
      else
        var parts := Cut(raw.value);
        if parts.None? then Err("invalid cursor: malformed payload")
        else
          var ts := tt.parse(parts.value.0);
          if ts.None? then Err("invalid cursor") else Ok(Some(Position(ts.value, parts.value.1)))
  }

  lemma {:induction false} CutAtFirst(text: string, id: string)
    requires NUL !in text
    ensures Cut(text + [NUL] + id) == Some((text, id))
  {
    var s := text + [NUL] + id;
    if text == [] {
      assert s[1..] == id;
    } else {
      assert s[1..] == text[1..] + [NUL] + id;
      CutAtFirst(text[1..], id);
      assert text == [text[0]] + text[1..];
    }
  }

  /** Whatever the key id, a cursor made from a NUL-free timestamp text decodes to the parsed time and
      that id, and is never mistaken for the empty cursor. */
  lemma CursorRoundTrip(text: string, id: string, tt: TimeText)
    requires Bytes(text) && Bytes(id) && NUL !in text && tt.parse(text).Some?
    ensures EncodeCursor(text, id) != ""
    ensures DecodeCursor(EncodeCursor(text, id), tt) == Ok(Some(Position(tt.parse(text).value, id)))
  {
    var raw := text + [NUL] + id;
    assert Bytes(raw);
    DecodeEncode(raw);
    CutAtFirst(text, id);
  }

  lemma {:induction false} CutExact(s: string)
    ensures Cut(s).None? <==> NUL !in s
    ensures Cut(s).Some? ==> NUL !in Cut(s).value.0 && s == Cut(s).value.0 + [NUL] + Cut(s).value.1
  {
    if s != [] {
      CutExact(s[1..]);
      assert s == [s[0]] + s[1..];
    }
  }

  /** The text is base64 of a time that parses, a NUL and an id. */
  ghost predicate Holds(cursor: string, text: string, p: Position, tt: TimeText) {
    Decode(cursor) == Some(text + [NUL] + p.id) && NUL !in text && tt.parse(text) == Some(p.createdAt)
  }

  /** A cursor reads as a position exactly when it holds one; the empty one reads as none, and any other
      is an error. */
  lemma CursorExact(cursor: string, tt: TimeText)
    ensures forall p :: DecodeCursor(cursor, tt) == Ok(Some(p)) <==>
                          cursor != "" && exists text :: Holds(cursor, text, p, tt)
    ensures DecodeCursor(cursor, tt) == Ok(None) <==> cursor == ""
  {
    var raw := Decode(cursor);
    if raw.Some? {
      CutExact(raw.value);
    }
    forall p
      ensures DecodeCursor(cursor, tt) == Ok(Some(p)) <==> cursor != "" && exists text :: Holds(cursor, text, p, tt)
    {
      if DecodeCursor(cursor, tt) == Ok(Some(p)) {
        assert Holds(cursor, Cut(raw.value).value.0, p, tt);
      }
      if text :| Holds(cursor, text, p, tt) {
        CutAtFirst(text, p.id);
      }
    }
  }
}

/** The JavaScript string operations the sync job relies on, written out over
    `seq<char>` (Dafny characters are Unicode scalar values): `String.prototype.trim`,
    the tag-stripping replace `/<[^>]*>?/gm`, `encodeURIComponent`, decimal
    rendering of counts, and prefix truncation. */
module Text {

  // ---------------------------------------------------------------------------
  // trim()
  // ---------------------------------------------------------------------------

  /** ECMAScript WhiteSpace and LineTerminator code points, the set `trim`
      removes from both ends. */
  predicate IsWhitespace(c: char)
  {
    || c == '\t' || c == '\n' || c == '\U{000B}' || c == '\U{000C}' || c == '\r'
    || c == ' ' || c == '\U{00A0}' || c == '\U{1680}'
    || ('\U{2000}' <= c <= '\U{200A}')
    || c == '\U{2028}' || c == '\U{2029}' || c == '\U{202F}' || c == '\U{205F}'
    || c == '\U{3000}' || c == '\U{FEFF}'
  }

  /** Every character of `s` is whitespace (the empty string included). */
  predicate Blank(s: string)
  {
    forall i :: 0 <= i < |s| ==> IsWhitespace(s[i])
  }

  function TrimStart(s: string): (r: string)
    ensures |r| <= |s| && r == s[|s| - |r|..]
    ensures Blank(s[..|s| - |r|])
    ensures r == [] || !IsWhitespace(r[0])
    decreases |s|
  {
    if |s| > 0 && IsWhitespace(s[0]) then TrimStart(s[1..]) else s
  }

  function TrimEnd(s: string): (r: string)
    ensures |r| <= |s| && r == s[..|r|]
    ensures Blank(s[|r|..])
    ensures r == [] || !IsWhitespace(r[|r| - 1])
    decreases |s|
  {
    if |s| > 0 && IsWhitespace(s[|s| - 1]) then TrimEnd(s[..|s| - 1]) else s
  }

  /** `s.trim()`: the longest infix of `s` that neither starts nor ends with
      whitespace, obtained by cutting whitespace off both ends. */
  function Trim(s: string): (r: string)
    ensures |r| <= |s|
    ensures r == [] || (!IsWhitespace(r[0]) && !IsWhitespace(r[|r| - 1]))
  {
    TrimEnd(TrimStart(s))
  }

  /** `s.trim() !== ''` holds exactly when `s` has a non-whitespace character. */
  lemma TrimEmptyIffBlank(s: string)
    ensures Trim(s) == [] <==> Blank(s)
  {
    var t := TrimStart(s);
    var k := |s| - |t|;
    var r := TrimEnd(t);
    assert t == s[k..];
    if r == [] {
      assert t[|r|..] == t;
      assert Blank(t);
      assert t == [];
      assert s[..k] == s;
    } else {
      assert r[|r| - 1] == t[|r| - 1];
      assert t[|r| - 1] == s[k + |r| - 1];
    }
  }

  /** Trimming only removes characters. */
  lemma TrimKeepsChars(s: string)
    ensures forall c :: c in Trim(s) ==> c in s
  {
    var t := TrimStart(s);
    var r := TrimEnd(t);
    assert t == s[|s| - |t|..];
    assert r == t[..|r|];
  }

  /** A string that starts with a visible character does not trim to "". */
  lemma VisibleFirstNotBlank(s: string)
    requires |s| > 0 && !IsWhitespace(s[0])
    ensures Trim(s) != ""
  {
    assert TrimStart(s) == s;
  }

  // ---------------------------------------------------------------------------
  // title.replace(/<[^>]*>?/gm, '')
  // ---------------------------------------------------------------------------

  /** What is left after a tag that began just before `s`: the text after the
      first `>`, or nothing when the tag is never closed (`>?` then matches
      the empty string at the end of the input). */
  function AfterTag(s: string): (r: string)
    ensures |r| <= |s| && r == s[|s| - |r|..]
    ensures '>' !in s ==> r == []
    decreases |s|
  {
    if |s| == 0 then []
    else if s[0] == '>' then s[1..]
    else AfterTag(s[1..])
  }

  /** Global removal of every match of `<[^>]*>?`: each `<` removes itself and
      everything up to and including the next `>`. */
  function StripTags(s: string): (r: string)
    ensures '<' !in r
    ensures |r| <= |s|
    ensures '<' !in s ==> r == s
    decreases |s|
  {
    if |s| == 0 then []
    else if s[0] == '<' then StripTags(AfterTag(s[1..]))
    else [s[0]] + StripTags(s[1..])
  }

  /** `AfterTag` skips the rest of a tag up to and including its `>`. */
  lemma {:induction false} AfterTagSkips(tag: string, b: string)
    requires '>' !in tag
    ensures AfterTag(tag + ['>'] + b) == b
    decreases |tag|
  {
    if |tag| > 0 {
      assert (tag + ['>'] + b)[1..] == tag[1..] + ['>'] + b;
      AfterTagSkips(tag[1..], b);
    } else {
      assert tag + ['>'] + b == ['>'] + b;
    }
  }

  /** A character other than `<` at the front is kept. */
  lemma StripTagsCons(c: char, rest: string)
    requires c != '<'
    ensures StripTags([c] + rest) == [c] + StripTags(rest)
  {
    assert ([c] + rest)[1..] == rest;
  }

  /** Text without `<` passes through the stripping unchanged. */
  lemma {:induction false} StripTagsPrefix(a: string, rest: string)
    requires '<' !in a
    ensures StripTags(a + rest) == a + StripTags(rest)
    decreases |a|
  {
    if |a| > 0 {
      assert a[0] in a;
      assert a + rest == [a[0]] + (a[1..] + rest);
      StripTagsCons(a[0], a[1..] + rest);
      StripTagsPrefix(a[1..], rest);
      assert a == [a[0]] + a[1..];
    } else {
      assert a + rest == rest;
    }
  }

  /** A tag at the front goes up to and including its `>`. */
  lemma StripTagsAtTag(tag: string, b: string)
    requires '>' !in tag
    ensures StripTags(['<'] + (tag + ['>'] + b)) == StripTags(b)
  {
    var s := ['<'] + (tag + ['>'] + b);
    assert s[0] == '<' && s[1..] == tag + ['>'] + b;
    AfterTagSkips(tag, b);
  }

  /** Text before a closed tag survives, the tag goes, and the stripping
      goes on after it. */
  lemma StripTagsKeeps(a: string, tag: string, b: string)
    requires '<' !in a && '>' !in tag
    ensures StripTags(a + "<" + tag + ">" + b) == a + StripTags(b)
  {
    assert a + "<" + tag + ">" + b == a + (['<'] + (tag + ['>'] + b));
    StripTagsPrefix(a, ['<'] + (tag + ['>'] + b));
    StripTagsAtTag(tag, b);
  }

  /** A tag that is never closed takes the rest of the text with it. */
  lemma StripTagsDropsUnclosed(a: string, tag: string)
    requires '<' !in a && '>' !in tag
    ensures StripTags(a + "<" + tag) == a
  {
    assert (['<'] + tag)[1..] == tag;
    StripTagsPrefix(a, ['<'] + tag);
    assert a + "<" + tag == a + (['<'] + tag);
  }

  // ---------------------------------------------------------------------------
  // encodeURIComponent
  // ---------------------------------------------------------------------------

  /** The characters `encodeURIComponent` leaves as they are. */
  predicate Unreserved(c: char)
  {
    || ('A' <= c <= 'Z') || ('a' <= c <= 'z') || ('0' <= c <= '9')
    || c == '-' || c == '_' || c == '.' || c == '!' || c == '~'
    || c == '*' || c == '\'' || c == '(' || c == ')'
  }

  predicate IsUpperHex(c: char)
  {
    ('0' <= c <= '9') || ('A' <= c <= 'F')
  }

  /** Characters that can appear in the output of `encodeURIComponent`. */
  predicate UriSafe(c: char)
  {
    Unreserved(c) || c == '%'
  }

  function HexDigit(d: int): (c: char)
    requires 0 <= d < 16
    ensures IsUpperHex(c) && UriSafe(c)
  {
    "0123456789ABCDEF"[d]
  }

  /** `%XX` for one byte, with upper-case hexadecimal digits. */
  function PercentByte(b: int): (r: string)
    requires 0 <= b < 256
    ensures |r| == 3 && r[0] == '%' && IsUpperHex(r[1]) && IsUpperHex(r[2])
  {
    ['%', HexDigit(b / 16), HexDigit(b % 16)]
  }

  /** The UTF-8 encoding of one Unicode scalar value. */
  function Utf8(cp: int): (bytes: seq<int>)
    requires 0 <= cp < 0x11_0000
    ensures 1 <= |bytes| <= 4
    ensures forall i :: 0 <= i < |bytes| ==> 0 <= bytes[i] < 256
    ensures cp < 0x80 <==> |bytes| == 1
  {
    if cp < 0x80 then [cp]
    else if cp < 0x800 then [0xC0 + cp / 64, 0x80 + cp % 64]
    else if cp < 0x1_0000 then [0xE0 + cp / 4096, 0x80 + (cp / 64) % 64, 0x80 + cp % 64]
    else [0xF0 + cp / 262144, 0x80 + (cp / 4096) % 64, 0x80 + (cp / 64) % 64, 0x80 + cp % 64]
  }

  function PercentBytes(bytes: seq<int>): (r: string)
    requires forall i :: 0 <= i < |bytes| ==> 0 <= bytes[i] < 256
    ensures |r| == 3 * |bytes|
    ensures forall i :: 0 <= i < |r| ==> UriSafe(r[i])
  {
    if |bytes| == 0 then [] else PercentByte(bytes[0]) + PercentBytes(bytes[1..])
  }

  function EncodeChar(c: char): (r: string)
    ensures Unreserved(c) ==> r == [c]
    ensures !Unreserved(c) ==> |r| >= 3 && r[0] == '%'
    ensures forall i :: 0 <= i < |r| ==> UriSafe(r[i])
  {
    if Unreserved(c) then [c] else PercentBytes(Utf8(c as int))
  }

  /** `encodeURIComponent(s)`: unreserved characters are copied and every other
      character becomes the `%XX` escapes of its UTF-8 bytes. */
  function EncodeUriComponent(s: string): (r: string)
    ensures |r| >= |s|
    ensures forall i :: 0 <= i < |r| ==> UriSafe(r[i])
    ensures (forall i :: 0 <= i < |s| ==> Unreserved(s[i])) ==> r == s
  {
    if |s| == 0 then [] else EncodeChar(s[0]) + EncodeUriComponent(s[1..])
  }

  // ---------------------------------------------------------------------------
  // Decimal rendering of counts (`${n}` in a template literal)
  // ---------------------------------------------------------------------------

  predicate IsDigit(c: char)
  {
    '0' as int <= c as int <= '9' as int
  }

  function DigitChar(d: int): (c: char)
    requires 0 <= d < 10
    ensures IsDigit(c) && c as int - '0' as int == d
  {
    (d + '0' as int) as char
  }

  /** The decimal numeral of `n`, without leading zeros. */
  function NatToString(n: nat): (r: string)
    ensures |r| >= 1
    ensures forall i :: 0 <= i < |r| ==> IsDigit(r[i])
    ensures |r| > 1 ==> r[0] != '0'
    decreases n
  {
    if n < 10 then [DigitChar(n)] else NatToString(n / 10) + [DigitChar(n % 10)]
  }

  /** The value of a string of decimal digits, read most significant first. */
  function DecimalValue(s: string): nat
    requires forall i :: 0 <= i < |s| ==> IsDigit(s[i])
  {
    if |s| == 0 then 0
    else
      assert IsDigit(s[|s| - 1]);
      var d := s[|s| - 1] as int - '0' as int;
      DecimalValue(s[..|s| - 1]) * 10 + d
  }

  /** Reading back the numeral gives the number: the rendering loses nothing. */
  lemma {:induction false} DecimalRoundTrip(n: nat)
    ensures DecimalValue(NatToString(n)) == n
    decreases n
  {
    var r := NatToString(n);
    if n >= 10 {
      DecimalRoundTrip(n / 10);
      assert r[..|r| - 1] == NatToString(n / 10);
    }
  }

  // ---------------------------------------------------------------------------
  // substring(0, n)
  // ---------------------------------------------------------------------------

  /** `s.substring(0, n)`: `s` itself when it is short enough, otherwise its
      first `n` characters. */
  function Truncate(s: string, n: nat): (r: string)
    ensures |r| <= n && |r| <= |s|
    ensures r == s[..|r|]
    ensures |s| <= n ==> r == s
    ensures |s| >= n ==> |r| == n
  {
    if |s| <= n then s else s[..n]
  }
}

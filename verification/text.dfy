/** The few pieces of Python's `str` behaviour the bot relies on:
    `strip`, `rstrip(c)`, `lower`, the `in` substring test, and the
    character classes of its regular expressions. */
module Text {
  import opened Wrappers

  /** Python truthiness of an optional string: present and non-empty. */
  predicate Truthy(s: Option<string>) {
    s.Some? && s.value != ""
  }

  /** Python's `str.isspace()` for one character. */
  predicate IsSpace(c: char) {
    || c == ' '
    || ('\t' <= c <= '\r')
    || ('\U{1c}' <= c <= '\U{1f}')
    || c == '\U{85}' || c == '\U{a0}' || c == '\U{1680}'
    || ('\U{2000}' <= c <= '\U{200a}')
    || c == '\U{2028}' || c == '\U{2029}' || c == '\U{202f}'
    || c == '\U{205f}' || c == '\U{3000}'
  }

  predicate IsSlash(c: char) {
    c == '/'
  }

  predicate IsAsciiLetter(c: char) {
    ('a' <= c <= 'z') || ('A' <= c <= 'Z')
  }

  predicate IsAsciiDigit(c: char) {
    '0' <= c <= '9'
  }

  /** A word character for the regular-expression `\b` and `\w`: ASCII
      letters, digits and underscore, the Latin-1 letters and numerics
      (`²`, `³`, `¹`, `¼`, `½`, `¾`), and the letters of the Cyrillic block. */
  predicate IsWordChar(c: char) {
    || IsAsciiLetter(c) || IsAsciiDigit(c) || c == '_'
    || c == '\U{aa}' || c == '\U{b5}' || c == '\U{ba}'
    || c == '\U{b2}' || c == '\U{b3}' || c == '\U{b9}' || ('\U{bc}' <= c <= '\U{be}')
    || ('\U{c0}' <= c <= '\U{ff}' && c != '\U{d7}' && c != '\U{f7}')
    || ('\U{400}' <= c <= '\U{481}')
    || ('\U{48a}' <= c <= '\U{4ff}')
  }

  /** The capitals of the Cyrillic block whose small letter is the next code
      point: even code points in U+0460..U+0481, U+048A..U+04BF and
      U+04D0..U+04FF, odd ones in U+04C1..U+04CE. */
  predicate IsCyrillicPairCapital(c: char) {
    || (('\U{460}' <= c <= '\U{481}' || '\U{48a}' <= c <= '\U{4bf}' || '\U{4d0}' <= c <= '\U{4ff}')
        && (c as int) % 2 == 0)
    || ('\U{4c1}' <= c <= '\U{4ce}' && (c as int) % 2 == 1)
  }

  /** Python's `str.lower()` for one character, on ASCII, Latin-1 and the
      Cyrillic block; every other character is its own lower case. */
  function LowerChar(c: char): (r: char)
    ensures IsAsciiLetter(c) ==> 'a' <= r <= 'z'
    ensures !IsAsciiLetter(c) ==> !IsAsciiLetter(r)
    ensures IsWordChar(c) <==> IsWordChar(r)
  {
    if c < '\U{80}' then (if 'A' <= c <= 'Z' then c + (32 as char) else c)
    else if '\U{c0}' <= c <= '\U{de}' && c != '\U{d7}' then c + (32 as char)
    else if '\U{410}' <= c <= '\U{42f}' then c + (32 as char)
    else if '\U{400}' <= c <= '\U{40f}' then c + (80 as char)
    else if IsCyrillicPairCapital(c) then c + (1 as char)
    else if c == '\U{4c0}' then '\U{4cf}'
    else c
  }

  /** Lower-casing a character twice is lower-casing it once. */
  lemma LowerCharIdempotent(c: char)
    ensures LowerChar(LowerChar(c)) == LowerChar(c)
  {
    var r := LowerChar(c);
    if c < '\U{80}' || '\U{c0}' <= c <= '\U{de}' || '\U{400}' <= c <= '\U{42f}' {
    } else if IsCyrillicPairCapital(c) {
      assert !IsCyrillicPairCapital(r);
    } else {
    }
  }

  function Lower(s: string): (r: string)
    ensures |r| == |s|
    ensures forall i :: 0 <= i < |s| ==> r[i] == LowerChar(s[i])
  {
    seq(|s|, i requires 0 <= i < |s| => LowerChar(s[i]))
  }

  /** `s` with every trailing character satisfying `p` removed: the longest
      prefix of `s` that does not end in such a character. */
  function TrimEnd(s: string, p: char -> bool): (r: string)
    ensures r <= s
    ensures |r| == 0 || !p(r[|r| - 1])
    ensures forall i :: |r| <= i < |s| ==> p(s[i])
    decreases |s|
  {
    if |s| > 0 && p(s[|s| - 1]) then TrimEnd(s[..|s| - 1], p) else s
  }

  /** `s` with every leading character satisfying `p` removed. */
  function TrimStart(s: string, p: char -> bool): (r: string)
    ensures |r| <= |s| && r == s[|s| - |r|..]
    ensures |r| == 0 || !p(r[0])
    ensures forall i :: 0 <= i < |s| - |r| ==> p(s[i])
    decreases |s|
  {
    if |s| > 0 && p(s[0]) then TrimStart(s[1..], p) else s
  }

  /** A leading run of characters satisfying `p` is exactly what `TrimStart`
      removes when the character after it does not satisfy `p`. */
  lemma TrimStartSkipsRun(run: string, rest: string, p: char -> bool)
    requires forall i :: 0 <= i < |run| ==> p(run[i])
    requires |rest| == 0 || !p(rest[0])
    ensures TrimStart(run + rest, p) == rest
  {
    var s := run + rest;
    assert s[|run|..] == rest;
  }

  /** `r` is `s` from position `a` on, with only characters satisfying `p`
      cut off either side. */
  predicate StrippedAt(s: string, r: string, a: nat, p: char -> bool) {
    && a + |r| <= |s| && r == s[a..a + |r|]
    && (forall i :: 0 <= i < a ==> p(s[i]))
    && (forall i :: a + |r| <= i < |s| ==> p(s[i]))
  }

  /** Python's `str.strip()`. */
  function Strip(s: string): (r: string)
    ensures |r| == 0 || (!IsSpace(r[0]) && !IsSpace(r[|r| - 1]))
  {
    TrimEnd(TrimStart(s, IsSpace), IsSpace)
  }

  /** `strip` removes whitespace from both ends and nothing else. */
  lemma StripCutsOnlySpace(s: string)
    ensures exists a: nat :: StrippedAt(s, Strip(s), a, IsSpace)
  {
    var t := TrimStart(s, IsSpace);
    var r := Strip(s);
    assert r == TrimEnd(t, IsSpace);
    var a := |s| - |t|;
    PrefixOfSuffix(s, t, r, a);
    SuffixTail(s, t, |r|, a, IsSpace);
    assert StrippedAt(s, r, a, IsSpace);
  }

  lemma PrefixOfSuffix(s: string, t: string, r: string, a: nat)
    requires a <= |s| && t == s[a..] && r <= t
    ensures a + |r| <= |s| && r == s[a..a + |r|]
  {
    forall j | 0 <= j < |r| ensures r[j] == s[a + j] {
      assert r[j] == t[j];
    }
  }

  lemma SuffixTail(s: string, t: string, n: nat, a: nat, p: char -> bool)
    requires a <= |s| && t == s[a..] && n <= |t|
    requires forall i :: n <= i < |t| ==> p(t[i])
    ensures forall i :: a + n <= i < |s| ==> p(s[i])
  {
    forall i | a + n <= i < |s| ensures p(s[i]) {
      assert s[i] == t[i - a];
    }
  }

  /** Python's `s.rstrip('/')`. */
  function RStripSlashes(s: string): (r: string)
    ensures r <= s
    ensures |r| == 0 || r[|r| - 1] != '/'
    ensures forall i :: |r| <= i < |s| ==> s[i] == '/'
  {
    TrimEnd(s, IsSlash)
  }

  predicate OccursAt(hay: string, needle: string, i: nat) {
    i + |needle| <= |hay| && hay[i..i + |needle|] == needle
  }

  /** Python's `needle in hay` for strings. */
  function Contains(hay: string, needle: string): (r: bool)
    ensures r <==> exists i: nat :: OccursAt(hay, needle, i)
    decreases |hay|
  {
    if |needle| > |hay| then false
    else if hay[..|needle|] == needle then
      assert OccursAt(hay, needle, 0);
      true
    else
      var rest := Contains(hay[1..], needle);
      ShiftOccurrence(hay, needle);
      rest
  }

  /** An occurrence in `hay` is either at 0 or one past an occurrence in `hay[1..]`. */
  lemma ShiftOccurrence(hay: string, needle: string)
    requires |needle| <= |hay|
    requires hay[..|needle|] != needle
    ensures (exists i: nat :: OccursAt(hay, needle, i)) <==> (exists i: nat :: OccursAt(hay[1..], needle, i))
  {
    if i: nat :| OccursAt(hay, needle, i) {
      assert i != 0;
      assert hay[1..][i - 1..i - 1 + |needle|] == hay[i..i + |needle|];
      assert OccursAt(hay[1..], needle, i - 1);
    }
    if i: nat :| OccursAt(hay[1..], needle, i) {
      assert hay[1..][i..i + |needle|] == hay[i + 1..i + 1 + |needle|];
      assert OccursAt(hay, needle, i + 1);
    }
  }

  /** `n` copies of `c`. */
  function Repeat(c: char, n: nat): (r: string)
    ensures |r| == n
    ensures forall i :: 0 <= i < n ==> r[i] == c
  {
    if n == 0 then "" else [c] + Repeat(c, n - 1)
  }

  /** Appending characters that `p` removes does not change `TrimEnd`. */
  lemma {:induction false} TrimEndIgnoresSuffix(s: string, tail: string, p: char -> bool)
    requires forall i :: 0 <= i < |tail| ==> p(tail[i])
    ensures TrimEnd(s + tail, p) == TrimEnd(s, p)
    decreases |tail|
  {
    if |tail| > 0 {
      var shorter := tail[..|tail| - 1];
      assert (s + tail)[..|s + tail| - 1] == s + shorter;
      TrimEndIgnoresSuffix(s, shorter, p);
    } else {
      assert s + tail == s;
    }
  }
}

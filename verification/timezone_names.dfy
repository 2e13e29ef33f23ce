/** `resolve_timezone_name` of app/reminders.py: a `Region/City` token is
    taken verbatim from the user's text; failing that, the normalised text is
    matched against a table of city and country aliases. */
module TimezoneNames {
  import opened Wrappers
  import opened Text

  // ---------------------------------------------------------------------
  // The pattern \b[A-Za-z]+/[A-Za-z_]+\b
  // ---------------------------------------------------------------------

  predicate IsZoneTailChar(c: char) {
    IsAsciiLetter(c) || c == '_'
  }

  /** The regular-expression assertion `\b` at position `p` of `s`. */
  predicate WordBoundary(s: string, p: nat)
    requires p <= |s|
  {
    (p > 0 && IsWordChar(s[p - 1])) != (p < |s| && IsWordChar(s[p]))
  }

  /** `s[i..k]` matches the zone pattern with its slash at `j`. */
  predicate ZoneTokenSplit(s: string, i: nat, j: nat, k: nat) {
    && i < j && j + 1 < k <= |s|
    && WordBoundary(s, i) && WordBoundary(s, k)
    && (forall x :: i <= x < j ==> IsAsciiLetter(s[x]))
    && s[j] == '/'
    && (forall x :: j < x < k ==> IsZoneTailChar(s[x]))
  }

  /** `s[i..k]` matches the zone pattern. */
  ghost predicate ZoneTokenAt(s: string, i: nat, k: nat) {
    exists j: nat :: ZoneTokenSplit(s, i, j, k)
  }

  /** The end of the longest run of `p`-characters starting at `i`. */
  function RunEnd(s: string, i: nat, p: char -> bool): (j: nat)
    requires i <= |s|
    ensures i <= j <= |s|
    ensures forall x :: i <= x < j ==> p(s[x])
    ensures j == |s| || !p(s[j])
    decreases |s| - i
  {
    if i < |s| && p(s[i]) then RunEnd(s, i + 1, p) else i
  }

  /** How the regular-expression engine tries the pattern at `i`: the greedy
      runs are the only candidates, because shortening either run puts a
      letter where `/` or `\b` is needed. */
  function MatchAt(s: string, i: nat): (r: Option<nat>)
    requires i <= |s|
    ensures forall k: nat :: ZoneTokenAt(s, i, k) <==> r == Some(k)
  {
    if i < |s| && WordBoundary(s, i) && IsAsciiLetter(s[i]) then
      var j := RunEnd(s, i, IsAsciiLetter);
      if j < |s| && s[j] == '/' then
        var k := RunEnd(s, j + 1, IsZoneTailChar);
        if k > j + 1 && WordBoundary(s, k) then
          assert ZoneTokenSplit(s, i, j, k);
          OnlyGreedyMatch(s, i, j, k);
          Some(k)
        else
          NoMatchAt(s, i);
          None
      else
        NoMatchAt(s, i);
        None
    else
      NoMatchAt(s, i);
      None
  }

  /** Every match at `i` uses the greedy runs. */
  lemma GreedySplit(s: string, i: nat, j: nat, k: nat)
    requires ZoneTokenSplit(s, i, j, k)
    ensures j == RunEnd(s, i, IsAsciiLetter)
    ensures k == RunEnd(s, j + 1, IsZoneTailChar)
  {
    var j' := RunEnd(s, i, IsAsciiLetter);
    var k' := RunEnd(s, j + 1, IsZoneTailChar);
    assert IsWordChar(s[k - 1]);
  }

  lemma OnlyGreedyMatch(s: string, i: nat, j: nat, k: nat)
    requires i < j < |s|
    requires j == RunEnd(s, i, IsAsciiLetter)
    requires k == RunEnd(s, j + 1, IsZoneTailChar)
    ensures forall k': nat :: ZoneTokenAt(s, i, k') ==> k' == k
  {
    forall k': nat | ZoneTokenAt(s, i, k')
      ensures k' == k
    {
      var j': nat :| ZoneTokenSplit(s, i, j', k');
      GreedySplit(s, i, j', k');
    }
  }

  lemma NoMatchAt(s: string, i: nat)
    requires i <= |s|
    requires !(i < |s| && WordBoundary(s, i) && IsAsciiLetter(s[i]))
             || RunEnd(s, i, IsAsciiLetter) == |s|
             || s[RunEnd(s, i, IsAsciiLetter)] != '/'
             || (var j := RunEnd(s, i, IsAsciiLetter);
                 var k := RunEnd(s, j + 1, IsZoneTailChar);
                 !(k > j + 1 && WordBoundary(s, k)))
    ensures forall k: nat :: !ZoneTokenAt(s, i, k)
  {
    forall k: nat | ZoneTokenAt(s, i, k)
      ensures false
    {
      var j: nat :| ZoneTokenSplit(s, i, j, k);
      GreedySplit(s, i, j, k);
    }
  }

  /** `re.search`: the leftmost position at or after `from` where the pattern
      matches, with the end of that match. */
  function FindZoneToken(s: string, from: nat): (r: Option<(nat, nat)>)
    requires from <= |s|
    ensures r.Some? ==> from <= r.value.0 && ZoneTokenAt(s, r.value.0, r.value.1)
    ensures r.Some? ==> forall i: nat, k: nat :: from <= i < r.value.0 ==> !ZoneTokenAt(s, i, k)
    ensures r.None? ==> forall i: nat, k: nat :: from <= i ==> !ZoneTokenAt(s, i, k)
    decreases |s| - from
  {
    match MatchAt(s, from)
    case Some(k) => Some((from, k))
    case None =>
      if from == |s| then None else FindZoneToken(s, from + 1)
  }

  // ---------------------------------------------------------------------
  // Normalisation: lower(), re.sub(r"[^0-9a-zа-я]+", " ", ...), strip()
  // ---------------------------------------------------------------------

  /** The character class `[0-9a-zа-я]`; `ё` is outside it. */
  predicate InAliasClass(c: char) {
    IsAsciiDigit(c) || ('a' <= c <= 'z') || ('а' <= c <= 'я')
  }

  predicate OutsideAliasClass(c: char) {
    !InAliasClass(c)
  }

  /** The characters of `s` inside the class, in order. */
  function ClassChars(s: string): string
  {
    if |s| == 0 then ""
    else (if InAliasClass(s[0]) then [s[0]] else "") + ClassChars(s[1..])
  }

  lemma {:induction false} ClassCharsSkipsOutsiders(s: string)
    ensures ClassChars(TrimStart(s, OutsideAliasClass)) == ClassChars(s)
    decreases |s|
  {
    if |s| > 0 && OutsideAliasClass(s[0]) {
      ClassCharsSkipsOutsiders(s[1..]);
    }
  }

  /** `re.sub(r"[^0-9a-zа-я]+", " ", s)`: each maximal run of characters
      outside the class becomes one space. */
  function SquashRuns(s: string): (r: string)
    ensures |r| == 0 <==> |s| == 0
    ensures |s| > 0 ==> (r[0] == ' ' <==> !InAliasClass(s[0]))
    decreases |s|
  {
    if |s| == 0 then ""
    else if InAliasClass(s[0]) then [s[0]] + SquashRuns(s[1..])
    else " " + SquashRuns(TrimStart(s[1..], OutsideAliasClass))
  }

  /** Every character left by squashing is a class character or a space. */
  lemma {:induction false} SquashAlphabet(s: string)
    ensures forall i :: 0 <= i < |SquashRuns(s)| ==>
      InAliasClass(SquashRuns(s)[i]) || SquashRuns(s)[i] == ' '
    decreases |s|
  {
    if |s| > 0 {
      var tail := if InAliasClass(s[0]) then s[1..] else TrimStart(s[1..], OutsideAliasClass);
      SquashAlphabet(tail);
      var r := SquashRuns(s);
      assert r[1..] == SquashRuns(tail);
      forall i | 0 < i < |r| ensures InAliasClass(r[i]) || r[i] == ' ' {
        assert r[i] == SquashRuns(tail)[i - 1];
      }
    }
  }

  /** No two spaces are adjacent in `r`. */
  predicate SingleSpaced(r: string) {
    forall i :: 0 < i < |r| ==> !(r[i - 1] == ' ' && r[i] == ' ')
  }

  /** A run becomes a single space: no two spaces are adjacent afterwards. */
  lemma {:induction false} SquashLeavesSingleSpaces(s: string)
    ensures SingleSpaced(SquashRuns(s))
    decreases |s|
  {
    if |s| > 0 {
      var tail := if InAliasClass(s[0]) then s[1..] else TrimStart(s[1..], OutsideAliasClass);
      var rest := SquashRuns(tail);
      SquashLeavesSingleSpaces(tail);
      var r := SquashRuns(s);
      assert r[1..] == rest;
      forall i | 0 < i < |r|
        ensures !(r[i - 1] == ' ' && r[i] == ' ')
      {
        if i == 1 {
          assert r[1] == rest[0];
          assert |tail| > 0;
          if !InAliasClass(s[0]) {
            assert InAliasClass(tail[0]);
            assert rest[0] != ' ';
          } else {
            assert r[0] == s[0] != ' ';
          }
        } else {
          assert r[i - 1] == rest[i - 2] && r[i] == rest[i - 1];
          assert SingleSpaced(rest);
          assert !(rest[i - 2] == ' ' && rest[i - 1] == ' ');
        }
      }
    }
  }

  /** Squashing keeps every class character, in order: only the runs
      outside the class are rewritten. */
  lemma {:induction false} SquashKeepsClassChars(s: string)
    ensures ClassChars(SquashRuns(s)) == ClassChars(s)
    decreases |s|
  {
    if |s| > 0 {
      if InAliasClass(s[0]) {
        var rest := SquashRuns(s[1..]);
        SquashKeepsClassChars(s[1..]);
        assert ([s[0]] + rest)[1..] == rest;
      } else {
        var tail := TrimStart(s[1..], OutsideAliasClass);
        var rest := SquashRuns(tail);
        SquashKeepsClassChars(tail);
        ClassCharsSkipsOutsiders(s[1..]);
        assert (" " + rest)[1..] == rest;
      }
    }
  }

  /** The text the alias table is matched against. */
  function Normalize(candidate: string): (r: string)
    ensures forall c :: c in r ==> InAliasClass(c) || c == ' '
    ensures |r| == 0 || (r[0] != ' ' && r[|r| - 1] != ' ')
    ensures Strip(r) == r
    ensures SingleSpaced(r)
  {
    var squashed := SquashRuns(Lower(candidate));
    var r := Strip(squashed);
    SquashAlphabet(Lower(candidate));
    StripKeepsCharacters(squashed);
    SquashLeavesSingleSpaces(Lower(candidate));
    StripKeepsSingleSpacing(squashed);
    if |r| > 0 then StripUnpadded(r); r else r
  }

  lemma StripKeepsSingleSpacing(s: string)
    requires SingleSpaced(s)
    ensures SingleSpaced(Strip(s))
  {
    TrimStartSingleSpaced(s, IsSpace);
    TrimEndSingleSpaced(TrimStart(s, IsSpace), IsSpace);
  }

  lemma TrimStartSingleSpaced(s: string, p: char -> bool)
    requires SingleSpaced(s)
    ensures SingleSpaced(TrimStart(s, p))
  {
    var t := TrimStart(s, p);
    assert t == s[|s| - |t|..|s| - |t| + |t|];
    SliceSingleSpaced(s, t, |s| - |t|);
  }

  lemma TrimEndSingleSpaced(s: string, p: char -> bool)
    requires SingleSpaced(s)
    ensures SingleSpaced(TrimEnd(s, p))
  {
    var r := TrimEnd(s, p);
    assert r == s[0..|r|];
    SliceSingleSpaced(s, r, 0);
  }

  lemma SliceSingleSpaced(s: string, r: string, a: nat)
    requires SingleSpaced(s) && a + |r| <= |s| && r == s[a..a + |r|]
    ensures SingleSpaced(r)
  {
    forall i | 0 < i < |r| ensures !(r[i - 1] == ' ' && r[i] == ' ') {
      assert r[i - 1] == s[a + i - 1] && r[i] == s[a + i];
    }
  }

  lemma StripKeepsCharacters(s: string)
    ensures forall c :: c in Strip(s) ==> c in s
  {
    var t := TrimStart(s, IsSpace);
    assert forall c :: c in t ==> c in s by {
      forall c | c in t ensures c in s {
        var i :| 0 <= i < |t| && t[i] == c;
        assert s[|s| - |t| + i] == c;
      }
    }
    var u := TrimEnd(t, IsSpace);
    assert forall c :: c in u ==> c in t by {
      forall c | c in u ensures c in t {
        var i :| 0 <= i < |u| && u[i] == c;
        assert t[i] == c;
      }
    }
  }

  // ---------------------------------------------------------------------
  // The alias table
  // ---------------------------------------------------------------------

  /** `_TZ_ALIASES`, in insertion order. */
  const TimezoneAliases: seq<(string, seq<string>)> := [
    ("Asia/Jerusalem", [
      "тель авив",
      "тель авиве",
      "tel aviv",
      "telaviv",
      "tel aviv yafo",
      "tel aviv-yafo",
      "израиль",
      "israel",
      "jerusalem",
      "иерусалим"
    ])
  ]

  predicate IsAliasZone(name: string) {
    exists n :: 0 <= n < |TimezoneAliases| && TimezoneAliases[n].0 == name
  }

  /** Some alias of the list occurs in `text`. */
  function AnyAliasIn(text: string, aliases: seq<string>): (r: bool)
    ensures r <==> exists a :: 0 <= a < |aliases| && Contains(text, aliases[a])
  {
    if |aliases| == 0 then false
    else
      var rest := AnyAliasIn(text, aliases[1..]);
      assert forall a :: 1 <= a < |aliases| ==> aliases[a] == aliases[1..][a - 1];
      Contains(text, aliases[0]) || rest
  }

  /** The first zone of `table` one of whose aliases occurs in `text`. */
  function LookupAlias(text: string, table: seq<(string, seq<string>)>): (r: Option<string>)
    ensures r.None? <==> forall n :: 0 <= n < |table| ==> !AnyAliasIn(text, table[n].1)
    ensures r.Some? ==>
      exists n :: (&& 0 <= n < |table| && table[n].0 == r.value
                   && AnyAliasIn(text, table[n].1)
                   && forall m :: 0 <= m < n ==> !AnyAliasIn(text, table[m].1))
  {
    if |table| == 0 then None
    else if AnyAliasIn(text, table[0].1) then Some(table[0].0)
    else
      var r := LookupAlias(text, table[1..]);
      assert forall n :: 1 <= n < |table| ==> table[n] == table[1..][n - 1];
      r
  }

  /** Every alias is non-empty, so none occurs in the empty text. */
  lemma NoAliasInEmptyText(text: string)
    requires text == ""
    ensures forall n :: 0 <= n < |TimezoneAliases| ==> !AnyAliasIn(text, TimezoneAliases[n].1)
  {
    forall n, a | 0 <= n < |TimezoneAliases| && 0 <= a < |TimezoneAliases[n].1|
      ensures !Contains(text, TimezoneAliases[n].1[a])
    {
      assert |TimezoneAliases[n].1[a]| > 0;
    }
  }

  // ---------------------------------------------------------------------
  // resolve_timezone_name
  // ---------------------------------------------------------------------

  /** `(user_text or "").strip()`. */
  function Candidate(userText: Option<string>): (r: string)
    ensures userText.None? ==> r == ""
    ensures |r| == 0 || (!IsSpace(r[0]) && !IsSpace(r[|r| - 1]))
    ensures exists a: nat :: StrippedAt(userText.GetOr(""), r, a, IsSpace)
  {
    StripCutsOnlySpace(userText.GetOr(""));
    Strip(userText.GetOr(""))
  }

  function ResolveTimezoneName(userText: Option<string>): (r: Option<string>)
    ensures Candidate(userText) == "" ==> r.None?
    ensures var c := Candidate(userText);
      FindZoneToken(c, 0).Some? ==>
        var (i, k) := FindZoneToken(c, 0).value; r == Some(c[i..k])
    ensures var c := Candidate(userText);
      c != "" && FindZoneToken(c, 0).None? ==>
        (r.Some? <==> exists n :: 0 <= n < |TimezoneAliases| && AnyAliasIn(Normalize(c), TimezoneAliases[n].1))
        && (r.Some? ==> IsAliasZone(r.value))
  {
    var candidate := Candidate(userText);
    if candidate == "" then None
    else match FindZoneToken(candidate, 0)
      case Some((i, k)) => Some(candidate[i..k])
      case None =>
        var normalized := Normalize(candidate);
        if normalized == "" then
          NoAliasInEmptyText(normalized);
          None
        else
          AliasLookupMeaning(normalized);
          LookupAlias(normalized, TimezoneAliases)
  }

  /** What a lookup in the built-in alias table yields: some zone exactly
      when some alias occurs, and then one of the table's zones. */
  lemma AliasLookupMeaning(text: string)
    ensures var r := LookupAlias(text, TimezoneAliases);
      && (r.Some? <==> exists n :: 0 <= n < |TimezoneAliases| && AnyAliasIn(text, TimezoneAliases[n].1))
      && (r.Some? ==> IsAliasZone(r.value))
  {
  }

  // ---------------------------------------------------------------------
  // Properties
  // ---------------------------------------------------------------------

  /** A text that is exactly one `Region/City` token (after stripping) is
      returned verbatim, whether or not it names a real zone. */
  lemma WholeTokenReturnedVerbatim(userText: string)
    requires var c := Candidate(Some(userText)); ZoneTokenAt(c, 0, |c|)
    ensures ResolveTimezoneName(Some(userText)) == Some(Candidate(Some(userText)))
  {
    var c := Candidate(Some(userText));
    var found := FindZoneToken(c, 0);
    assert found.Some?;
    var (i, k) := found.value;
    assert i == 0;
    assert MatchAt(c, 0) == Some(k) && MatchAt(c, 0) == Some(|c|);
    assert c[0..|c|] == c;
  }

  /** Text without a slash never yields a token. */
  lemma NoSlashNoToken(s: string)
    requires '/' !in s
    ensures FindZoneToken(s, 0).None?
  {
  }

  /** Normalised text holds only class characters and single spaces, so the
      hyphenated alias `tel aviv-yafo` can never match. */
  lemma HyphenatedAliasNeverMatches(text: string)
    ensures !Contains(Normalize(text), "tel aviv-yafo")
  {
    NoHyphenNoAlias(Normalize(text));
  }

  lemma NoHyphenNoAlias(n: string)
    requires forall c :: c in n ==> InAliasClass(c) || c == ' '
    ensures !Contains(n, "tel aviv-yafo")
  {
    var alias := "tel aviv-yafo";
    forall i: nat ensures !OccursAt(n, alias, i) {
      if i + |alias| <= |n| {
        assert n[i + 8] in n;
        assert n[i..i + |alias|][8] == n[i + 8] != alias[8];
      }
    }
  }

  lemma SquashClassHead(s: string)
    requires |s| > 0 && InAliasClass(s[0])
    ensures SquashRuns(s) == [s[0]] + SquashRuns(s[1..])
  {
  }

  lemma SquashOutsiderHead(s: string)
    requires |s| > 0 && !InAliasClass(s[0])
    ensures SquashRuns(s) == " " + SquashRuns(TrimStart(s[1..], OutsideAliasClass))
  {
  }

  lemma ClassCharStopsTrim(s: string)
    requires |s| > 0 && InAliasClass(s[0])
    ensures TrimStart(s, OutsideAliasClass) == s
  {
    assert !OutsideAliasClass(s[0]);
  }

  lemma SplitHead(w: string, rest: string)
    requires |w| > 0
    ensures (w + rest)[0] == w[0] && (w + rest)[1..] == w[1..] + rest
  {
  }

  /** A word made only of class characters passes through unchanged. */
  lemma {:induction false} SquashClassWord(w: string, rest: string)
    requires forall i :: 0 <= i < |w| ==> InAliasClass(w[i])
    ensures SquashRuns(w + rest) == w + SquashRuns(rest)
    decreases |w|
  {
    if |w| > 0 {
      var v := w[1..];
      SplitHead(w, rest);
      assert SquashRuns(w + rest) == [w[0]] + SquashRuns(v + rest) by {
        SquashClassHead(w + rest);
      }
      SquashClassWord(v, rest);
      assert [w[0]] + (v + SquashRuns(rest)) == w + SquashRuns(rest) by {
        assert w == [w[0]] + v;
      }
    } else {
      assert w + rest == rest;
    }
  }

  /** Without a token, any alias hit in the normalised text resolves to the
      table's only zone. */
  lemma AliasHitResolves(userText: string)
    requires Candidate(Some(userText)) != ""
    requires FindZoneToken(Candidate(Some(userText)), 0).None?
    requires AnyAliasIn(Normalize(Candidate(Some(userText))), TimezoneAliases[0].1)
    ensures ResolveTimezoneName(Some(userText)) == Some("Asia/Jerusalem")
  {
  }

  /** Two class words, each followed by one character outside the class,
      squash to the words with a single space after each. */
  lemma SquashTwoWords(a: string, b: string, x: char, y: char)
    requires |b| > 0
    requires forall i :: 0 <= i < |a| ==> InAliasClass(a[i])
    requires forall i :: 0 <= i < |b| ==> InAliasClass(b[i])
    requires !InAliasClass(x) && !InAliasClass(y)
    ensures SquashRuns(a + [x] + b + [y]) == a + " " + b + " "
  {
    var bTail := b + [y];
    assert SquashRuns(bTail) == b + " " by {
      SquashLoneOutsider(y);
      SquashClassWord(b, [y]);
    }
    var tail := [x] + bTail;
    assert SquashRuns(tail) == " " + (b + " ") by {
      assert bTail[0] == b[0];
      SquashOutsiderBeforeWord(x, bTail);
    }
    Regroup(a, x, b, y);
    SquashClassWord(a, tail);
    assert a + (" " + (b + " ")) == a + " " + b + " ";
  }

  lemma Regroup(a: string, x: char, b: string, y: char)
    ensures a + [x] + b + [y] == a + ([x] + (b + [y]))
  {
  }

  /** One character outside the class becomes one space. */
  lemma SquashLoneOutsider(y: char)
    requires !InAliasClass(y)
    ensures SquashRuns([y]) == " "
  {
    assert [y][1..] == [];
    assert TrimStart([], OutsideAliasClass) == [];
  }

  /** One character outside the class before a class character becomes one space. */
  lemma SquashOutsiderBeforeWord(x: char, s: string)
    requires !InAliasClass(x) && |s| > 0 && InAliasClass(s[0])
    ensures SquashRuns([x] + s) == " " + SquashRuns(s)
  {
    assert ([x] + s)[0] == x;
    assert ([x] + s)[1..] == s;
    ClassCharStopsTrim(s);
  }

  /** A class word followed by a run of characters outside the class squashes
      to the word and one space, whatever follows from the next class
      character on. */
  lemma SquashOutsiderRun(w: string, run: string, rest: string)
    requires forall i :: 0 <= i < |w| ==> InAliasClass(w[i])
    requires |run| > 0 && forall i :: 0 <= i < |run| ==> !InAliasClass(run[i])
    requires |rest| == 0 || InAliasClass(rest[0])
    ensures SquashRuns(w + run + rest) == w + " " + SquashRuns(rest)
  {
    var t := run + rest;
    calc {
      SquashRuns(w + run + rest);
      { Associate(w, run, rest); }
      SquashRuns(w + t);
      { SquashClassWord(w, t); }
      w + SquashRuns(t);
      { SquashRunThenClass(run, rest); }
      w + (" " + SquashRuns(rest));
      { Associate(w, " ", SquashRuns(rest)); }
      w + " " + SquashRuns(rest);
    }
  }

  lemma Associate(a: string, b: string, c: string)
    ensures a + b + c == a + (b + c)
  {
  }

  lemma SquashRunThenClass(run: string, rest: string)
    requires |run| > 0 && forall i :: 0 <= i < |run| ==> !InAliasClass(run[i])
    requires |rest| == 0 || InAliasClass(rest[0])
    ensures SquashRuns(run + rest) == " " + SquashRuns(rest)
  {
    var t := run + rest;
    var more := run[1..];
    calc {
      SquashRuns(t);
      { SplitHead(run, rest); SquashOutsiderHead(t); }
      " " + SquashRuns(TrimStart(t[1..], OutsideAliasClass));
      { SplitHead(run, rest); }
      " " + SquashRuns(TrimStart(more + rest, OutsideAliasClass));
      { forall i | 0 <= i < |more| ensures OutsideAliasClass(more[i]) {
          assert more[i] == run[i + 1];
        }
        TrimStartSkipsRun(more, rest, OutsideAliasClass); }
      " " + SquashRuns(rest);
    }
  }

  /** `strip` leaves text that neither starts nor ends with whitespace as it is. */
  lemma StripUnpadded(s: string)
    requires |s| > 0 && !IsSpace(s[0]) && !IsSpace(s[|s| - 1])
    ensures Strip(s) == s
  {
    assert TrimStart(s, IsSpace) == s;
  }

  /** `strip` removes the one space that squashing leaves after the last word. */
  lemma StripOneTrailingSpace(s: string)
    requires |s| > 0 && !IsSpace(s[0]) && !IsSpace(s[|s| - 1])
    ensures Strip(s + " ") == s
  {
    assert TrimStart(s + " ", IsSpace) == s + " ";
    TrimEndIgnoresSuffix(s, " ", IsSpace);
  }

  /** An alias written in any letter case, with any non-letter in place of
      its space and one more after it, as in `Tel-Aviv!`, still resolves to
      its zone. */
  lemma PunctuatedAliasResolves(a: string, b: string, x: char, y: char)
    requires |a| > 0 && |b| > 0
    requires forall i :: 0 <= i < |a| ==> InAliasClass(LowerChar(a[i]))
    requires forall i :: 0 <= i < |b| ==> InAliasClass(LowerChar(b[i]))
    requires !InAliasClass(LowerChar(x)) && !InAliasClass(LowerChar(y))
    requires x != '/' && y != '/' && !IsSpace(y)
    requires Lower(a) + " " + Lower(b) in TimezoneAliases[0].1
    ensures ResolveTimezoneName(Some(a + [x] + b + [y])) == Some("Asia/Jerusalem")
  {
    var text := a + [x] + b + [y];
    PunctuatedCandidate(a, b, x, y);
    PunctuatedHasNoSlash(a, b, x, y);
    NoSlashNoToken(text);
    NormalizePunctuated(a, b, x, y);
    ListedAliasHits(Lower(a) + " " + Lower(b), TimezoneAliases[0].1);
    AliasHitResolves(text);
  }

  /** The concrete case: `Tel-Aviv!` names Israel's zone. */
  lemma TelAvivWithPunctuation()
    ensures ResolveTimezoneName(Some("Tel-Aviv!")) == Some("Asia/Jerusalem")
  {
    assert Lower("Tel") == "tel" && Lower("Aviv") == "aviv";
    assert Lower("Tel") + " " + Lower("Aviv") == TimezoneAliases[0].1[2];
    assert LowerChar('-') == '-' && LowerChar('!') == '!';
    assert "Tel-Aviv!" == "Tel" + ['-'] + "Aviv" + ['!'];
    PunctuatedAliasResolves("Tel", "Aviv", '-', '!');
  }

  /** A character that lower-cases into the class is neither whitespace nor a slash. */
  lemma ClassAfterLowering(c: char)
    requires InAliasClass(LowerChar(c))
    ensures !IsSpace(c) && c != '/'
  {
  }

  /** Such a text is its own candidate: there is no whitespace to strip. */
  lemma PunctuatedCandidate(a: string, b: string, x: char, y: char)
    requires |a| > 0 && InAliasClass(LowerChar(a[0]))
    requires !IsSpace(y)
    ensures Candidate(Some(a + [x] + b + [y])) == a + [x] + b + [y]
  {
    var text := a + [x] + b + [y];
    ClassAfterLowering(a[0]);
    assert text[0] == a[0];
    assert text[|text| - 1] == y;
    StripUnpadded(text);
  }

  lemma PunctuatedHasNoSlash(a: string, b: string, x: char, y: char)
    requires forall i :: 0 <= i < |a| ==> InAliasClass(LowerChar(a[i]))
    requires forall i :: 0 <= i < |b| ==> InAliasClass(LowerChar(b[i]))
    requires x != '/' && y != '/'
    ensures '/' !in a + [x] + b + [y]
  {
    assert '/' !in a by {
      forall i | 0 <= i < |a| ensures a[i] != '/' { ClassAfterLowering(a[i]); }
    }
    assert '/' !in b by {
      forall i | 0 <= i < |b| ensures b[i] != '/' { ClassAfterLowering(b[i]); }
    }
    assert forall c :: c in a + [x] + b + [y] <==> c in a || c == x || c in b || c == y;
  }

  /** Such a text normalises to its two words, lower-cased, joined by one space. */
  lemma NormalizePunctuated(a: string, b: string, x: char, y: char)
    requires |a| > 0 && |b| > 0
    requires forall i :: 0 <= i < |a| ==> InAliasClass(LowerChar(a[i]))
    requires forall i :: 0 <= i < |b| ==> InAliasClass(LowerChar(b[i]))
    requires !InAliasClass(LowerChar(x)) && !InAliasClass(LowerChar(y))
    ensures Normalize(a + [x] + b + [y]) == Lower(a) + " " + Lower(b)
  {
    var la, lb := Lower(a), Lower(b);
    LowerTwoWords(a, b, x, y);
    SquashTwoWords(la, lb, LowerChar(x), LowerChar(y));
    var words := la + " " + lb;
    assert la + " " + lb + " " == words + " ";
    assert words[0] == la[0] && words[|words| - 1] == lb[|lb| - 1];
    StripOneTrailingSpace(words);
  }

  /** Lower-casing works character by character across the two words and
      the characters after them. */
  lemma LowerTwoWords(a: string, b: string, x: char, y: char)
    ensures Lower(a + [x] + b + [y]) == Lower(a) + [LowerChar(x)] + Lower(b) + [LowerChar(y)]
  {
    var text := a + [x] + b + [y];
    var lowered := Lower(a) + [LowerChar(x)] + Lower(b) + [LowerChar(y)];
    forall i | 0 <= i < |text| ensures Lower(text)[i] == lowered[i] {
      if i < |a| {
        assert text[i] == a[i] && lowered[i] == Lower(a)[i];
      } else if i == |a| {
        assert text[i] == x;
      } else if i < |a| + 1 + |b| {
        assert text[i] == b[i - |a| - 1] && lowered[i] == Lower(b)[i - |a| - 1];
      } else {
        assert text[i] == y;
      }
    }
  }

  /** A text that is itself one of the aliases contains that alias. */
  lemma ListedAliasHits(text: string, aliases: seq<string>)
    requires text in aliases
    ensures AnyAliasIn(text, aliases)
  {
    var idx :| 0 <= idx < |aliases| && aliases[idx] == text;
    assert OccursAt(text, text, 0);
    assert Contains(text, aliases[idx]);
  }
}

/** The three regular expressions that split a one-line postal address into
    street, five-digit postcode and city:
    - PagesJaunes: `(.+?)\s+(\d{5})\s+(.+)` (lazy street);
    - PPLE: `(.+),\s*(\d{5})\s+(.+)`, else `(.+)\s+(\d{5})\s+(.+)` (greedy);
    - data.gouv.fr: `(.+)\s+(\d{5})\s+(.+)$` (greedy).
    Crawler text has its whitespace normalised, so the subject holds no line
    feed: `.` then matches every character, the match always starts at
    position 0 (a later start would only shorten the street), group 3 always
    runs to the end, and `$` adds nothing.

    A match is fixed by where the street (group 1) ends. For one street end
    the rest of the pattern has at most one way to match: the whitespace
    before the postcode is the whole run there (a shorter run would leave a
    space where a digit is needed), and the whitespace after it is the whole
    run too, except that when the run reaches the end of the line it gives
    its last character back to the city. */
module AddressParse {
  import opened Php

  /** Crawler text: a line with no line feed. */
  type Line = s: string | '\n' !in s

  /** Length of the run of `\s` characters starting at `p`. */
  function SpaceRun(s: string, p: nat): (n: nat)
    requires p <= |s|
    ensures p + n <= |s|
    ensures forall k :: p <= k < p + n ==> IsSpace(s[k])
    ensures p + n == |s| || !IsSpace(s[p + n])
    decreases |s| - p
  {
    if p < |s| && IsSpace(s[p]) then 1 + SpaceRun(s, p + 1) else 0
  }

  predicate AllSpaces(s: string, i: int, j: int)
    requires 0 <= i <= j <= |s|
  {
    forall k :: i <= k < j ==> IsSpace(s[k])
  }

  /** Five digits start at `p`. */
  predicate PostcodeAt(s: string, p: int) {
    0 <= p && p + 5 <= |s| && AllDigits(s[p..p + 5])
  }

  /** What separates the street from the postcode: `\s+` or `,\s*`. */
  datatype Sep = Blank | Comma

  /** The street ends at `e` and the separator runs up to `cp`. */
  predicate SepSpans(s: string, e: int, cp: int, sep: Sep)
    requires 0 <= e <= cp <= |s|
  {
    match sep
    case Blank => e < cp && AllSpaces(s, e, cp)
    case Comma => e < cp && s[e] == ',' && AllSpaces(s, e + 1, cp)
  }

  /** The regular expression matches with a non-empty street `s[..e]`: some
      postcode position and some city start fit the pattern. */
  ghost predicate MatchesAt(s: string, e: int, sep: Sep) {
    1 <= e <= |s| && exists cp, c :: Fits(s, e, cp, c, sep)
  }

  /** The postcode at `cp` and the city from `c` complete a match whose
      street ends at `e`. */
  predicate Fits(s: string, e: int, cp: int, c: int, sep: Sep) {
    0 <= e < cp && cp + 5 < c < |s| && PostcodeAt(s, cp)
    && SepSpans(s, e, cp, sep) && AllSpaces(s, cp + 5, c)
  }

  /** Positions of one match: street end, postcode start, city start. */
  datatype Match = Match(streetEnd: nat, postcode: nat, city: nat)

  /** Where the postcode starts when the street ends at `e`. */
  function PostcodeStart(s: string, e: nat, sep: Sep): Option<nat>
    requires e <= |s|
  {
    match sep
    case Blank =>
      var w := SpaceRun(s, e);
      if w >= 1 && PostcodeAt(s, e + w) then Some(e + w) else None
    case Comma =>
      if e < |s| && s[e] == ',' && PostcodeAt(s, e + 1 + SpaceRun(s, e + 1))
      then Some(e + 1 + SpaceRun(s, e + 1)) else None
  }

  /** Where the city starts after the postcode at `cp`. */
  function CityStart(s: string, cp: nat): Option<nat>
    requires cp + 5 <= |s|
  {
    var w := SpaceRun(s, cp + 5);
    if w >= 1 && cp + 5 + w < |s| then Some(cp + 5 + w)
    else if w >= 2 then Some(|s| - 1)
    else None
  }

  /** The match the engine finds once the street ends at `e`, if any. */
  function MatchAt(s: string, e: nat, sep: Sep): (m: Option<Match>)
    requires e <= |s|
    ensures m.Some? ==> m.value.streetEnd == e && Fits(s, e, m.value.postcode, m.value.city, sep)
    // the city takes everything after the whole whitespace run, or the
    // last character when that run reaches the end
    ensures m.Some? ==> m.value.city == |s| - 1 || !IsSpace(s[m.value.city])
  {
    match PostcodeStart(s, e, sep)
    case None => None
    case Some(cp) =>
      match CityStart(s, cp)
      case None => None
      case Some(c) => Some(Match(e, cp, c))
  }

  /** `MatchAt` finds a match exactly when the pattern matches there. */
  lemma MatchAtComplete(s: string, e: nat, sep: Sep)
    requires 1 <= e <= |s|
    ensures MatchAt(s, e, sep).Some? <==> MatchesAt(s, e, sep)
  {
    if MatchesAt(s, e, sep) {
      var cp, c :| Fits(s, e, cp, c, sep);
      assert !IsSpace(s[cp]) by {
        assert s[cp..cp + 5][0] == s[cp];
      }
      var start := if sep == Blank then e else e + 1;
      assert start + SpaceRun(s, start) == cp;
      assert SpaceRun(s, cp + 5) >= c - (cp + 5);
      assert PostcodeStart(s, e, sep) == Some(cp);
    }
  }

  /** The first street end from `e` on at which the pattern matches. */
  function FirstMatch(s: string, sep: Sep, e: nat): (m: Option<Match>)
    requires 1 <= e
    ensures m.Some? ==> e <= m.value.streetEnd <= |s| && MatchAt(s, m.value.streetEnd, sep) == m
    ensures forall k :: e <= k <= |s| && (m.None? || k < m.value.streetEnd) ==> MatchAt(s, k, sep).None?
    decreases |s| + 1 - e
  {
    if e > |s| then None
    else if MatchAt(s, e, sep).Some? then MatchAt(s, e, sep)
    else FirstMatch(s, sep, e + 1)
  }

  /** The last street end up to `e` at which the pattern matches. */
  function LastMatch(s: string, sep: Sep, e: nat): (m: Option<Match>)
    requires e <= |s|
    ensures m.Some? ==> 1 <= m.value.streetEnd <= e && MatchAt(s, m.value.streetEnd, sep) == m
    ensures forall k :: 1 <= k <= e && (m.None? || m.value.streetEnd < k) ==> MatchAt(s, k, sep).None?
  {
    if e == 0 then None
    else if MatchAt(s, e, sep).Some? then MatchAt(s, e, sep)
    else LastMatch(s, sep, e - 1)
  }

  /** Street, postcode and city as the importers store them. */
  datatype Address = Address(rue: string, codePostal: string, ville: string)

  function Groups(s: string, m: Match): (a: Address)
    requires m.streetEnd <= m.postcode && m.postcode + 5 <= m.city <= |s|
    requires PostcodeAt(s, m.postcode)
    ensures |a.codePostal| == 5 && AllDigits(a.codePostal)
  {
    Address(Trim(s[..m.streetEnd]), s[m.postcode..m.postcode + 5], Trim(s[m.city..]))
  }

  /** PagesJaunes: the lazy street stops at the first place the rest fits. */
  function ParsePagesJaunes(s: Line): (r: Option<Address>)
    ensures r.Some? ==> |r.value.codePostal| == 5 && AllDigits(r.value.codePostal)
  {
    match FirstMatch(s, Blank, 1)
    case None => None
    case Some(m) => Some(Groups(s, m))
  }

  /** PPLE: the comma form first, then the whitespace form; both greedy, so
      the last postcode that fits is taken. */
  function ParsePple(s: Line): (r: Option<Address>)
    ensures r.Some? ==> |r.value.codePostal| == 5 && AllDigits(r.value.codePostal)
  {
    match LastMatch(s, Comma, |s|)
    case Some(m) => Some(Groups(s, m))
    case None =>
      match LastMatch(s, Blank, |s|)
      case None => None
      case Some(m) => Some(Groups(s, m))
  }

  /** data.gouv.fr: the greedy whitespace form. */
  function ParseDataGouv(s: Line): (r: Option<Address>)
    ensures r.Some? ==> |r.value.codePostal| == 5 && AllDigits(r.value.codePostal)
  {
    match LastMatch(s, Blank, |s|)
    case None => None
    case Some(m) => Some(Groups(s, m))
  }

  /** PagesJaunes parses an address exactly when the pattern matches
      somewhere, and then uses the shortest street that fits. */
  lemma PagesJaunesShortestStreet(s: Line)
    ensures ParsePagesJaunes(s).Some? <==> exists e :: MatchesAt(s, e, Blank)
    ensures forall e :: MatchesAt(s, e, Blank) ==>
      exists e0 :: 1 <= e0 <= e && FirstMatch(s, Blank, 1) == MatchAt(s, e0, Blank)
        && ParsePagesJaunes(s) == Some(Groups(s, MatchAt(s, e0, Blank).value))
  {
    var m := FirstMatch(s, Blank, 1);
    if m.Some? {
      MatchAtComplete(s, m.value.streetEnd, Blank);
      assert ParsePagesJaunes(s) == Some(Groups(s, m.value));
    }
    forall e | MatchesAt(s, e, Blank)
      ensures exists e0 :: (1 <= e0 <= e && m == MatchAt(s, e0, Blank) && m.Some?
        && ParsePagesJaunes(s) == Some(Groups(s, MatchAt(s, e0, Blank).value)))
    {
      MatchAtComplete(s, e, Blank);
      var e0 := m.value.streetEnd;
      assert 1 <= e0 <= e && m == MatchAt(s, e0, Blank);
    }
  }

  /** data.gouv.fr parses an address exactly when the pattern matches
      somewhere, and then uses the longest street that fits. */
  lemma DataGouvLongestStreet(s: Line)
    ensures ParseDataGouv(s).Some? <==> exists e :: MatchesAt(s, e, Blank)
    ensures forall e :: MatchesAt(s, e, Blank) ==>
      exists e0 :: e <= e0 <= |s| && LastMatch(s, Blank, |s|) == MatchAt(s, e0, Blank)
        && ParseDataGouv(s) == Some(Groups(s, MatchAt(s, e0, Blank).value))
  {
    var m := LastMatch(s, Blank, |s|);
    if m.Some? {
      MatchAtComplete(s, m.value.streetEnd, Blank);
      assert ParseDataGouv(s) == Some(Groups(s, m.value));
    }
    forall e | MatchesAt(s, e, Blank)
      ensures exists e0 :: (e <= e0 <= |s| && m == MatchAt(s, e0, Blank) && m.Some?
        && ParseDataGouv(s) == Some(Groups(s, MatchAt(s, e0, Blank).value)))
    {
      MatchAtComplete(s, e, Blank);
      var e0 := m.value.streetEnd;
      assert e <= e0 <= |s| && m == MatchAt(s, e0, Blank);
    }
  }

  /** PPLE falls back to the whitespace form only when no comma form fits. */
  lemma PpleCommaFirst(s: Line)
    ensures (exists e :: MatchesAt(s, e, Comma)) ==>
      exists e0 :: MatchesAt(s, e0, Comma) && MatchAt(s, e0, Comma).Some?
        && ParsePple(s) == Some(Groups(s, MatchAt(s, e0, Comma).value))
    ensures (forall e :: !MatchesAt(s, e, Comma)) ==> ParsePple(s) == ParseDataGouv(s)
  {
    var m := LastMatch(s, Comma, |s|);
    if m.Some? {
      MatchAtComplete(s, m.value.streetEnd, Comma);
    }
    if exists e :: MatchesAt(s, e, Comma) {
      var e :| MatchesAt(s, e, Comma);
      MatchAtComplete(s, e, Comma);
    }
  }
}

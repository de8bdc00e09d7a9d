/** The three kinds of href the registry crawler recognises, as parsers
    with an exact declarative description each:
    - a department index, `#/departements/(\d+)-([^/]+)/index\.html$#`;
    - the first page of an activity in a department,
      `#/departements/(\d+)-([^/]+)/([^/]+)/1\.html$#`;
    - a company page, `#/entreprise/([a-zA-Z-]+)-(\d{9})$#`.
    Each pattern ends in `$` and its groups exclude '/', so a match, when
    there is one, is unique: the groups are read off the last path segments.
    Also the two readings of a company page's text: the SIRET pattern
    `/(\d{14})/` and the two-column table rows. */
module DataGouvLinks {
  import opened Php
  import opened Tables
  import opened AddressParse

  const BaseUrl: string := "https://annuaire-entreprises.data.gouv.fr"

  predicate EndsWith(s: string, suffix: string) {
    |suffix| <= |s| && s[|s| - |suffix|..] == suffix
  }

  /** The position of the last '/' of `s`, if any. */
  function LastSlash(s: string): (r: Option<nat>)
    ensures r.Some? ==> r.value < |s| && s[r.value] == '/' && '/' !in s[r.value + 1..]
    ensures r.None? ==> '/' !in s
  {
    if s == [] then None
    else if s[|s| - 1] == '/' then Some(|s| - 1)
    else
      var r := LastSlash(s[..|s| - 1]);
      assert s == s[..|s| - 1] + [s[|s| - 1]];
      if r.Some? then
        assert s[r.value + 1..] == s[..|s| - 1][r.value + 1..] + [s[|s| - 1]];
        r
      else r
  }

  /** The last '/' of `a + "/" + b` is the one between them when `b` has none. */
  lemma {:induction false} LastSlashOf(a: string, b: string)
    requires '/' !in b
    ensures LastSlash(a + "/" + b) == Some(|a|)
  {
    var s := a + "/" + b;
    if b != [] {
      assert s[|s| - 1] == b[|b| - 1];
      assert s[..|s| - 1] == a + "/" + b[..|b| - 1];
      LastSlashOf(a, b[..|b| - 1]);
    }
  }

  /** `s` without `suffix`, when it ends with it. */
  function StripSuffix(s: string, suffix: string): (r: Option<string>)
    ensures r.Some? <==> EndsWith(s, suffix)
    ensures r.Some? ==> s == r.value + suffix
  {
    if EndsWith(s, suffix) then
      assert s == s[..|s| - |suffix|] + s[|s| - |suffix|..];
      Some(s[..|s| - |suffix|])
    else None
  }

  lemma StripSuffixOf(a: string, suffix: string)
    ensures StripSuffix(a + suffix, suffix) == Some(a)
  {
    assert (a + suffix)[|a|..] == suffix;
    assert (a + suffix)[..|a|] == a;
  }

  /** `s` cut at its last '/': the directory part and the last segment. */
  function SplitLast(s: string): (r: Option<(string, string)>)
    ensures r.None? <==> '/' !in s
    ensures r.Some? ==> s == r.value.0 + "/" + r.value.1 && '/' !in r.value.1
  {
    match LastSlash(s)
    case None => None
    case Some(p) =>
      assert s == s[..p] + "/" + s[p + 1..];
      Some((s[..p], s[p + 1..]))
  }

  lemma SplitLastOf(a: string, b: string)
    requires '/' !in b
    ensures SplitLast(a + "/" + b) == Some((a, b))
  {
    LastSlashOf(a, b);
    var s := a + "/" + b;
    assert s[..|a|] == a;
    assert s[|a| + 1..] == b;
  }

  /** The length of the run of digits `s` starts with. */
  function DigitRun(s: string): (n: nat)
    ensures n <= |s| && AllDigits(s[..n]) && (n < |s| ==> !IsDigit(s[n]))
  {
    if s == [] || !IsDigit(s[0]) then 0
    else
      var n := 1 + DigitRun(s[1..]);
      assert s[..n] == [s[0]] + s[1..][..n - 1];
      n
  }

  lemma {:induction false} DigitRunOf(code: string, rest: string)
    requires AllDigits(code) && (rest == [] || !IsDigit(rest[0]))
    ensures DigitRun(code + rest) == |code|
  {
    if code != [] {
      assert (code + rest)[1..] == code[1..] + rest;
      DigitRunOf(code[1..], rest);
    } else {
      assert code + rest == rest;
    }
  }

  /** `(\d+)-(.+)` over a whole path segment: the greedy digit run must be
      followed by '-', since a shorter run is followed by a digit. */
  function SplitCodeName(seg: string): (r: Option<(string, string)>)
    ensures r.Some? ==> seg == r.value.0 + "-" + r.value.1 && IsDigitString(r.value.0) && r.value.1 != []
  {
    var n := DigitRun(seg);
    if 0 < n && n + 1 < |seg| && seg[n] == '-' then
      assert seg == seg[..n] + "-" + seg[n + 1..];
      Some((seg[..n], seg[n + 1..]))
    else None
  }

  lemma SplitCodeNameExact(seg: string, code: string, name: string)
    ensures SplitCodeName(seg) == Some((code, name))
      <==> seg == code + "-" + name && IsDigitString(code) && name != []
  {
    if seg == code + "-" + name && IsDigitString(code) && name != [] {
      assert seg == code + ("-" + name);
      DigitRunOf(code, "-" + name);
      assert seg[..|code|] == code;
      assert seg[|code| + 1..] == name;
    }
  }

  /** The name of a code-name segment without '/' holds none either. */
  lemma NameNoSlash(seg: string, code: string, name: string)
    requires seg == code + "-" + name && '/' !in seg
    ensures '/' !in name
  {
    forall k | 0 <= k < |name|
      ensures name[k] != '/'
    {
      assert name[k] == seg[|code| + 1 + k];
    }
  }

  /** A code-name segment holds no '/' when its name holds none. */
  lemma CodeNameNoSlash(code: string, name: string)
    requires IsDigitString(code) && '/' !in name
    ensures '/' !in code + "-" + name
  {
    var seg := code + "-" + name;
    forall k | 0 <= k < |seg|
      ensures seg[k] != '/'
    {
      if k < |code| {
        assert seg[k] == code[k];
      } else if k > |code| {
        assert seg[k] == name[k - |code| - 1];
      }
    }
  }

  // ---------------------------------------------------------------- departments

  /** `href` is a department index page: code, then '-', then a name. */
  ghost predicate DeptHref(href: string, code: string, name: string) {
    && IsDigitString(code) && name != [] && '/' !in name
    && exists prefix :: href == prefix + "/departements/" + code + "-" + name + "/index.html"
  }

  /** The code and name groups of the department pattern. */
  function ParseDeptHref(href: string): Option<(string, string)> {
    match StripSuffix(href, "/index.html")
    case None => None
    case Some(body) =>
      match SplitLast(body)
      case None => None
      case Some(ds) =>
        if StripSuffix(ds.0, "/departements").Some? then SplitCodeName(ds.1) else None
  }

  lemma DeptShape(prefix: string, seg: string, code: string, name: string)
    requires seg == code + "-" + name
    ensures prefix + "/departements/" + code + "-" + name + "/index.html"
         == prefix + "/departements" + "/" + seg + "/index.html"
  {
  }

  lemma ParseDeptHrefExact(href: string, code: string, name: string)
    ensures ParseDeptHref(href) == Some((code, name)) <==> DeptHref(href, code, name)
  {
    if DeptHref(href, code, name) {
      var prefix :| href == prefix + "/departements/" + code + "-" + name + "/index.html";
      var seg := code + "-" + name;
      DeptShape(prefix, seg, code, name);
      CodeNameNoSlash(code, name);
      StripSuffixOf(prefix + "/departements" + "/" + seg, "/index.html");
      SplitLastOf(prefix + "/departements", seg);
      StripSuffixOf(prefix, "/departements");
      SplitCodeNameExact(seg, code, name);
    }
    if ParseDeptHref(href) == Some((code, name)) {
      var body := StripSuffix(href, "/index.html").value;
      var ds := SplitLast(body).value;
      var prefix := StripSuffix(ds.0, "/departements").value;
      SplitCodeNameExact(ds.1, code, name);
      DeptShape(prefix, ds.1, code, name);
      NameNoSlash(ds.1, code, name);
    }
  }

  // ---------------------------------------------------------------- activities

  /** `href` is the first page of activity `act` in a department. */
  ghost predicate ActivityHref(href: string, code: string, name: string, act: string) {
    && IsDigitString(code) && name != [] && '/' !in name && act != [] && '/' !in act
    && exists prefix :: href == prefix + "/departements/" + code + "-" + name + "/" + act + "/1.html"
  }

  /** The department code, department name and activity code groups of the
      activity pattern. */
  function ParseActivityHref(href: string): Option<(string, string, string)> {
    match StripSuffix(href, "/1.html")
    case None => None
    case Some(body) =>
      match SplitLast(body)
      case None => None
      case Some(ra) =>
        if ra.1 == [] then None
        else
          match SplitLast(ra.0)
          case None => None
          case Some(ds) =>
            if StripSuffix(ds.0, "/departements").None? then None
            else
              match SplitCodeName(ds.1)
              case None => None
              case Some(cn) => Some((cn.0, cn.1, ra.1))
  }

  lemma ActivityShape(prefix: string, seg: string, code: string, name: string, act: string)
    requires seg == code + "-" + name
    ensures prefix + "/departements/" + code + "-" + name + "/" + act + "/1.html"
         == prefix + "/departements" + "/" + seg + "/" + act + "/1.html"
  {
  }

  lemma ParseActivityHrefExact(href: string, code: string, name: string, act: string)
    ensures ParseActivityHref(href) == Some((code, name, act)) <==> ActivityHref(href, code, name, act)
  {
    if ActivityHref(href, code, name, act) {
      var prefix :| href == prefix + "/departements/" + code + "-" + name + "/" + act + "/1.html";
      var seg := code + "-" + name;
      ActivityShape(prefix, seg, code, name, act);
      CodeNameNoSlash(code, name);
      StripSuffixOf(prefix + "/departements" + "/" + seg + "/" + act, "/1.html");
      SplitLastOf(prefix + "/departements" + "/" + seg, act);
      SplitLastOf(prefix + "/departements", seg);
      StripSuffixOf(prefix, "/departements");
      SplitCodeNameExact(seg, code, name);
    }
    if ParseActivityHref(href) == Some((code, name, act)) {
      var body := StripSuffix(href, "/1.html").value;
      var ra := SplitLast(body).value;
      var ds := SplitLast(ra.0).value;
      var prefix := StripSuffix(ds.0, "/departements").value;
      SplitCodeNameExact(ds.1, code, name);
      ActivityShape(prefix, ds.1, code, name, act);
      NameNoSlash(ds.1, code, name);
    }
  }

  // ---------------------------------------------------------------- companies

  predicate IsSlugChar(c: char) {
    'a' <= c <= 'z' || 'A' <= c <= 'Z' || c == '-'
  }

  predicate AllSlug(s: string) {
    forall k :: 0 <= k < |s| ==> IsSlugChar(s[k])
  }

  /** `href` is a company page: a slug of letters and hyphens, '-', and a
      nine-digit SIREN at the very end. */
  ghost predicate CompanyHref(href: string, slug: string, siren: string) {
    && slug != [] && AllSlug(slug) && |siren| == 9 && AllDigits(siren)
    && exists prefix :: href == prefix + "/entreprise/" + slug + "-" + siren
  }

  /** The slug and SIREN groups of a last segment `slug-siren`. */
  function SplitSlugSiren(seg: string): (r: Option<(string, string)>)
    ensures r.Some? ==> seg == r.value.0 + "-" + r.value.1
  {
    if |seg| >= 11 && seg[|seg| - 10] == '-' && AllDigits(seg[|seg| - 9..]) && AllSlug(seg[..|seg| - 10]) then
      assert seg == seg[..|seg| - 10] + "-" + seg[|seg| - 9..];
      Some((seg[..|seg| - 10], seg[|seg| - 9..]))
    else None
  }

  lemma SplitSlugSirenOf(slug: string, siren: string)
    requires slug != [] && AllSlug(slug) && |siren| == 9 && AllDigits(siren)
    ensures SplitSlugSiren(slug + "-" + siren) == Some((slug, siren))
  {
    var seg := slug + "-" + siren;
    assert seg[..|seg| - 10] == slug;
    assert seg[|seg| - 9..] == siren;
  }

  /** The slug and SIREN groups of the company pattern. */
  function ParseCompanyHref(href: string): Option<(string, string)> {
    match SplitLast(href)
    case None => None
    case Some(ds) =>
      if StripSuffix(ds.0, "/entreprise").Some? then SplitSlugSiren(ds.1) else None
  }

  lemma CompanyShape(prefix: string, seg: string, slug: string, siren: string)
    requires seg == slug + "-" + siren
    ensures prefix + "/entreprise/" + slug + "-" + siren == prefix + "/entreprise" + "/" + seg
  {
  }

  lemma ParseCompanyHrefExact(href: string, slug: string, siren: string)
    ensures ParseCompanyHref(href) == Some((slug, siren)) <==> CompanyHref(href, slug, siren)
  {
    if CompanyHref(href, slug, siren) {
      var prefix :| href == prefix + "/entreprise/" + slug + "-" + siren;
      var seg := slug + "-" + siren;
      CompanyShape(prefix, seg, slug, siren);
      assert '/' !in seg by {
        assert forall k :: 0 <= k < |slug| ==> seg[k] == slug[k];
        assert forall k :: |slug| < k < |seg| ==> seg[k] == siren[k - |slug| - 1];
      }
      SplitLastOf(prefix + "/entreprise", seg);
      StripSuffixOf(prefix, "/entreprise");
      SplitSlugSirenOf(slug, siren);
    }
    if ParseCompanyHref(href) == Some((slug, siren)) {
      var ds := SplitLast(href).value;
      var prefix := StripSuffix(ds.0, "/entreprise").value;
      CompanyShape(prefix, ds.1, slug, siren);
    }
  }

  // ---------------------------------------------------------------- page text

  /** Fourteen digits start at position `j` of `s`. */
  predicate Digits14At(s: string, j: int) {
    0 <= j && j + 14 <= |s| && AllDigits(s[j..j + 14])
  }

  /** The first position from `k` on where fourteen digits follow. */
  function Digits14From(s: string, k: nat): (r: Option<nat>)
    requires k <= |s|
    ensures r.Some? ==> k <= r.value && Digits14At(s, r.value)
    ensures r.Some? ==> forall j :: k <= j < r.value ==> !Digits14At(s, j)
    ensures r.None? <==> forall j :: k <= j ==> !Digits14At(s, j)
    decreases |s| - k
  {
    if k + 14 > |s| then None
    else if Digits14At(s, k) then Some(k)
    else Digits14From(s, k + 1)
  }

  /** `preg_match('/(\d{14})/')`: the leftmost run of fourteen digits. */
  function First14Digits(s: string): (r: Option<string>)
    ensures r.Some? ==> |r.value| == 14 && AllDigits(r.value)
    ensures r.None? <==> forall j :: !Digits14At(s, j)
  {
    match Digits14From(s, 0)
    case None => None
    case Some(i) => Some(s[i..i + 14])
  }

  /** A table row of a company page: the text of its first cell and the
      text of its second cell (single-line, as the crawler normalises it). */
  datatype Row = Row(first: string, second: Line)

  /** The row a `table tr` scan keeps: the LAST one whose first cell
      contains `marker` without regard to ASCII case, since every matching
      row overwrites the value found before it. */
  function LastRowIndex(rows: seq<Row>, marker: string): (r: Option<nat>)
    ensures r.Some? ==> r.value < |rows| && ContainsNoCase(rows[r.value].first, marker)
    ensures r.Some? ==> forall j :: r.value < j < |rows| ==> !ContainsNoCase(rows[j].first, marker)
    ensures r.None? <==> forall j :: 0 <= j < |rows| ==> !ContainsNoCase(rows[j].first, marker)
  {
    LastIndex(rows, (row: Row) => ContainsNoCase(row.first, marker))
  }

  /** The trimmed second cell of that row; "" when no row matches, and
      also when the last matching row's cell is empty. */
  function LastRowValue(rows: seq<Row>, marker: string): Line {
    match LastRowIndex(rows, marker)
    case None => ""
    case Some(k) => TrimLine(rows[k].second)
  }

  /** Trimming a single line leaves a single line. */
  function TrimLine(s: Line): (r: Line)
    ensures r == Trim(s)
  {
    var t := Trim(s);
    var i :| TrimmedAt(s, t, i);
    assert forall k :: 0 <= k < |t| ==> t[k] == s[i + k];
    t
  }
}

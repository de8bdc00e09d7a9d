/** The read API's request handling, without its SQL: how a request path
    is routed, how `page` and `limit` are read and clamped, the pagination
    envelope of the paged routes, and which status each request gets. The
    database is an oracle answering the few questions the handlers ask of
    it (does this id exist, how many rows match) or throwing. */
module Api {
  import opened Php

  // ---------------------------------------------------------------- routing

  const BasePath := "/api"

  /** `str_replace($needle, '', $s)`: every occurrence, scanning left to
      right, is removed; the text left behind is not scanned again. */
  function RemoveAll(s: string, needle: string): string
    requires |needle| > 0
    decreases |s|
  {
    if |s| < |needle| then s
    else if s[..|needle|] == needle then RemoveAll(s[|needle|..], needle)
    else [s[0]] + RemoveAll(s[1..], needle)
  }

  /** A text without the needle is left as it is. */
  lemma {:induction false} RemoveAllAbsent(s: string, needle: string)
    requires |needle| > 0
    requires forall i :: !OccursAt(s, needle, i)
    ensures RemoveAll(s, needle) == s
  {
    if |s| >= |needle| {
      assert !OccursAt(s, needle, 0);
      assert s[..|needle|] == s[0..0 + |needle|];
      forall i ensures !OccursAt(s[1..], needle, i) {
        if 0 <= i && i + |needle| <= |s[1..]| {
          assert !OccursAt(s, needle, i + 1);
          assert s[1..][i..i + |needle|] == s[i + 1..i + 1 + |needle|];
        }
      }
      RemoveAllAbsent(s[1..], needle);
      assert s == [s[0]] + s[1..];
    }
  }

  /** The route of a path: the path with every "/api" removed. A path
      under the base path routes as the rest of it, provided the rest does
      not itself contain "/api". */
  function RouteOf(path: string): string {
    RemoveAll(path, BasePath)
  }

  lemma RouteOfBase(rest: string)
    requires forall i :: !OccursAt(rest, BasePath, i)
    ensures RouteOf(BasePath + rest) == rest
  {
    var s := BasePath + rest;
    assert s[..|BasePath|] == BasePath;
    assert s[|BasePath|..] == rest;
    RemoveAllAbsent(rest, BasePath);
  }

  /** Removing is not repeated on what is left: "/a/apipi" routes as "/api". */
  lemma RouteOfNotRescanned()
    ensures RouteOf("/a/apipi") == "/api"
  {
    var s := "/a/apipi";
    assert s[..4][2] != BasePath[2];
    assert s[1..][..4][0] != BasePath[0];
    assert s[1..][1..][..4] == BasePath;
    assert s[1..][1..][4..] == "pi";
    assert RemoveAll(s[1..][1..], BasePath) == "pi";
  }

  /** The handlers the switch selects. */
  datatype Endpoint =
    | ListEntreprises
    | EntrepriseById(id: string)
    | Search
    | Around
    | ListActivites
    | ByActivite(id: string)
    | Unrouted

  const Entreprises := "/entreprises"
  const EntreprisesSlash := "/entreprises/"
  const ActivitesSlash := "/activites/"

  /** The switch over the route: six anchored patterns, each for GET only;
      `(\d+)` captures a run of ASCII digits. */
  function Dispatch(route: string, verb: string): (e: Endpoint)
    ensures e.EntrepriseById? ==> route == EntreprisesSlash + e.id && IsDigitString(e.id)
    ensures e.ByActivite? ==> route == ActivitesSlash + e.id + Entreprises && IsDigitString(e.id)
    ensures !e.Unrouted? ==> verb == "GET"
  {
    var n := |route|;
    if verb != "GET" then Unrouted
    else if route == Entreprises then ListEntreprises
    else if n > 13 && route[..13] == EntreprisesSlash && IsDigitString(route[13..]) then
      assert route == route[..13] + route[13..];
      EntrepriseById(route[13..])
    else if route == "/recherche" then Search
    else if route == "/autour" then Around
    else if route == "/activites" then ListActivites
    else if n > 23 && route[..11] == ActivitesSlash && route[n - 12..] == Entreprises && IsDigitString(route[11..n - 12]) then
      assert route == route[..11] + route[11..n - 12] + route[n - 12..];
      ByActivite(route[11..n - 12])
    else Unrouted
  }

  /** A GET on "/entreprises/<digits>" reaches the company handler with
      those digits, and a GET on "/activites/<digits>/entreprises" the
      activity handler. */
  lemma DispatchById(digits: string)
    requires IsDigitString(digits)
    ensures Dispatch(EntreprisesSlash + digits, "GET") == EntrepriseById(digits)
    ensures Dispatch(ActivitesSlash + digits + Entreprises, "GET") == ByActivite(digits)
  {
    var r := EntreprisesSlash + digits;
    assert r[..13] == EntreprisesSlash && r[13..] == digits;
    assert r != Entreprises by { assert |r| > |Entreprises|; }
    var a := ActivitesSlash + digits + Entreprises;
    var n := |a|;
    assert a[..11] == ActivitesSlash && a[n - 12..] == Entreprises && a[11..n - 12] == digits;
    assert a[..13] != EntreprisesSlash by { assert a[1] == 'a' && EntreprisesSlash[1] == 'e'; }
    assert a != Entreprises && a != "/recherche" && a != "/autour" && a != "/activites" by {
      assert a[1] == 'a' && |a| > 11;
    }
  }

  // ---------------------------------------------------------------- intval

  /** PHP_INT_MAX on a 64-bit build. */
  const IntMax: int := 0x7fff_ffff_ffff_ffff
  const IntMin: int := -IntMax - 1

  /** The white space `intval` skips before a number. */
  predicate IsLeadingSpace(c: char) {
    c == ' ' || c == '\t' || c == '\n' || c == '\r' || c == '\U{0B}' || c == '\U{0C}'
  }

  function SkipSpace(s: string): (r: string)
    ensures |r| <= |s| && r == s[|s| - |r|..]
    ensures r == [] || !IsLeadingSpace(r[0])
  {
    if s != [] && IsLeadingSpace(s[0]) then SkipSpace(s[1..]) else s
  }

  /** The longest run of digits `s` starts with. */
  function DigitPrefix(s: string): (r: string)
    ensures AllDigits(r) && |r| <= |s| && r == s[..|r|]
    ensures |r| < |s| ==> !IsDigit(s[|r|])
  {
    if s != [] && IsDigit(s[0]) then [s[0]] + DigitPrefix(s[1..]) else []
  }

  /** The number PHP reads at the start of a string: the digits before
      and after an optional decimal point, and the exponent of an optional
      `e` or `E`. */
  datatype Numeral = Numeral(whole: string, fraction: string, exponent: int)

  /** The exponent an `e` or `E` introduces: an optional sign and digits;
      an `e` without digits is not read. */
  function ExponentOf(s: string): int {
    if s != [] && (s[0] == 'e' || s[0] == 'E') then
      var t := s[1..];
      var digits := DigitPrefix(if t != [] && (t[0] == '-' || t[0] == '+') then t[1..] else t);
      var v: int := DigitsValue(digits);
      if t != [] && t[0] == '-' then -v else v
    else 0
  }

  /** The numeral a string without sign starts with. */
  function NumeralOf(body: string): (m: Numeral)
    ensures AllDigits(m.whole) && AllDigits(m.fraction)
  {
    var whole := DigitPrefix(body);
    var rest := body[|whole|..];
    if rest != [] && rest[0] == '.' then
      var fraction := DigitPrefix(rest[1..]);
      Numeral(whole, fraction, ExponentOf(rest[1 + |fraction|..]))
    else Numeral(whole, [], ExponentOf(rest))
  }

  function Pow10(n: nat): (r: nat)
    ensures r >= 1
  {
    if n == 0 then 1 else 10 * Pow10(n - 1)
  }

  /** `n` with `k` zeros appended: n * 10^k. */
  function Shift(n: nat, k: nat): nat {
    if k == 0 then n else Shift(n, k - 1) * 10
  }

  /** `n` with its last `k` digits dropped: n / 10^k, rounded down. */
  function Unshift(n: nat, k: nat): nat {
    if k == 0 then n else Unshift(n / 10, k - 1)
  }

  /** The value of a numeral, truncated toward zero as the cast to int
      does: the digits of whole and fraction, with the decimal point moved
      by the exponent and the digits behind it dropped. */
  function Truncated(m: Numeral): nat
    requires AllDigits(m.whole) && AllDigits(m.fraction)
  {
    var mantissa := Shift(DigitsValue(m.whole), |m.fraction|) + DigitsValue(m.fraction);
    var scale := m.exponent - |m.fraction|;
    if scale >= 0 then Shift(mantissa, scale) else Unshift(mantissa, -scale)
  }

  /** `intval($s)` on a string: optional white space, an optional sign, then
      the leading decimal number with its fraction and exponent, truncated
      toward zero; no number gives 0, and a value out of range saturates at
      the integer bounds. */
  function IntVal(s: string): (r: int)
    ensures IntMin <= r <= IntMax
  {
    var t := SkipSpace(s);
    var negative := t != [] && t[0] == '-';
    var body := if t != [] && (t[0] == '-' || t[0] == '+') then t[1..] else t;
    var v: int := Truncated(NumeralOf(body));
    if negative then Max(IntMin, -v) else Min(IntMax, v)
  }

  /** A digit string of the numbers up to PHP_INT_MAX reads back as that
      number. */
  lemma IntValOfNumber(n: nat)
    requires n <= IntMax
    ensures IntVal(NatToString(n)) == n
  {
    var s := NatToString(n);
    assert !IsLeadingSpace(s[0]) && s[0] != '-' && s[0] != '+' by { assert IsDigit(s[0]); }
    assert SkipSpace(s) == s;
    AllDigitsPrefix(s);
    assert NumeralOf(s) == Numeral(s, [], 0);
    NatToStringValue(n);
  }

  /** Digits followed by `e` and an exponent read as the digits times that
      power of ten, saturated: `intval("1e3")` is 1000. */
  lemma IntValExponent(digits: string, e: nat)
    requires IsDigitString(digits)
    ensures IntVal(digits + "e" + NatToString(e)) == Min(IntMax, DigitsValue(digits) * Pow10(e))
  {
    var s := digits + "e" + NatToString(e);
    assert s[0] == digits[0];
    IntValUnsigned(s);
    NumeralWithExponent(digits, e);
    TruncatedWhole(digits, e);
  }

  /** A string that starts with a digit is read as its numeral, with no
      sign and no space to skip. */
  lemma IntValUnsigned(s: string)
    requires s != [] && IsDigit(s[0])
    ensures IntVal(s) == Min(IntMax, Truncated(NumeralOf(s)))
  {
    assert !IsLeadingSpace(s[0]);
    assert SkipSpace(s) == s;
  }

  lemma TruncatedWhole(digits: string, e: nat)
    requires AllDigits(digits)
    ensures Truncated(Numeral(digits, [], e)) == DigitsValue(digits) * Pow10(e)
  {
    assert DigitsValue([]) == 0;
    ShiftIsProduct(DigitsValue(digits), e);
  }

  lemma {:induction false} ShiftIsProduct(n: nat, k: nat)
    ensures Shift(n, k) == n * Pow10(k)
  {
    if k > 0 {
      ShiftIsProduct(n, k - 1);
      assert n * Pow10(k) == n * Pow10(k - 1) * 10;
    }
  }

  lemma NumeralWithExponent(digits: string, e: nat)
    requires AllDigits(digits)
    ensures NumeralOf(digits + "e" + NatToString(e)) == Numeral(digits, [], e)
  {
    var x := NatToString(e);
    var s := digits + ("e" + x);
    assert s == digits + "e" + x;
    DigitPrefixStops(digits, "e" + x);
    assert s[|digits|..] == "e" + x;
    ExponentOfNumber(e);
  }

  lemma ExponentOfNumber(e: nat)
    ensures ExponentOf("e" + NatToString(e)) == e
  {
    var x := NatToString(e);
    assert ("e" + x)[1..] == x;
    assert x[0] != '-' && x[0] != '+' by { assert IsDigit(x[0]); }
    AllDigitsPrefix(x);
    NatToStringValue(e);
  }

  /** A decimal fraction is dropped: `intval("12.9")` is 12, as the cast
      truncates toward zero. */
  lemma IntValDecimal(whole: string, fraction: string)
    requires IsDigitString(whole) && AllDigits(fraction)
    ensures IntVal(whole + "." + fraction) == Min(IntMax, DigitsValue(whole))
  {
    var s := whole + ("." + fraction);
    assert s == whole + "." + fraction;
    assert s[0] == whole[0];
    IntValUnsigned(s);
    NumeralWithFraction(whole, fraction);
    TruncatedFraction(whole, fraction);
  }

  lemma NumeralWithFraction(whole: string, fraction: string)
    requires AllDigits(whole) && AllDigits(fraction)
    ensures NumeralOf(whole + ("." + fraction)) == Numeral(whole, fraction, 0)
  {
    var s := whole + ("." + fraction);
    DigitPrefixStops(whole, "." + fraction);
    assert s[|whole|..] == "." + fraction;
    assert ("." + fraction)[1..] == fraction;
    AllDigitsPrefix(fraction);
    assert ("." + fraction)[1 + |fraction|..] == [];
  }

  lemma TruncatedFraction(whole: string, fraction: string)
    requires AllDigits(whole) && AllDigits(fraction)
    ensures Truncated(Numeral(whole, fraction, 0)) == DigitsValue(whole)
  {
    DigitsBelow(fraction);
    UnshiftShift(DigitsValue(whole), DigitsValue(fraction), |fraction|);
  }

  /** Dropping the k digits appended behind n gives back n. */
  lemma {:induction false} UnshiftShift(n: nat, f: nat, k: nat)
    requires f < Pow10(k)
    ensures Unshift(Shift(n, k) + f, k) == n
  {
    if k > 0 {
      var a := Shift(n, k - 1);
      assert (a * 10 + f) / 10 == a + f / 10;
      UnshiftShift(n, f / 10, k - 1);
    }
  }

  /** A digit string of length n denotes a number below 10^n. */
  lemma {:induction false} DigitsBelow(s: string)
    requires AllDigits(s)
    ensures DigitsValue(s) < Pow10(|s|)
  {
    if s != [] {
      var front := s[..|s| - 1];
      DigitsBelow(front);
      assert DigitsValue(s) == DigitsValue(front) * 10 + DigitValue(s[|s| - 1]);
      assert DigitsValue(front) + 1 <= Pow10(|front|);
      assert (DigitsValue(front) + 1) * 10 <= Pow10(|front|) * 10;
    }
  }

  /** `DigitPrefix` stops at the first character that is not a digit. */
  lemma {:induction false} DigitPrefixStops(digits: string, rest: string)
    requires AllDigits(digits) && (rest == [] || !IsDigit(rest[0]))
    ensures DigitPrefix(digits + rest) == digits
  {
    if digits != [] {
      assert (digits + rest)[1..] == digits[1..] + rest;
      DigitPrefixStops(digits[1..], rest);
    }
  }

  lemma {:induction false} AllDigitsPrefix(s: string)
    requires AllDigits(s)
    ensures DigitPrefix(s) == s
  {
    if s != [] {
      AllDigitsPrefix(s[1..]);
    }
  }

  // ---------------------------------------------------------------- pagination

  /** The query string: `$_GET`, every value a string. */
  type Params = map<string, string>

  /** `isset($_GET['page']) ? max(1, intval($_GET['page'])) : 1` */
  function PageOf(params: Params): int {
    if "page" in params then Max(1, IntVal(params["page"])) else 1
  }

  /** `isset($_GET['limit']) ? min(cap, max(1, intval($_GET['limit']))) : 20` */
  function LimitOf(params: Params, cap: int): (limit: int)
    ensures cap >= 20 ==> 1 <= limit <= cap
  {
    if "limit" in params then Min(cap, Max(1, IntVal(params["limit"]))) else 20
  }

  function Max(a: int, b: int): int { if a < b then b else a }
  function Min(a: int, b: int): int { if a < b then a else b }

  /** The cap on `limit`: 500 on the company list, 100 elsewhere. */
  function Cap(e: Endpoint): (cap: int)
    ensures cap >= 100
  {
    if e == ListEntreprises then 500 else 100
  }

  /** The page is at least 1, 1 by default; the limit lies in [1, cap], 20
      by default, 1 for an empty `limit`; the offset is never negative. */
  lemma PagingBounds(params: Params, cap: int)
    requires cap >= 20
    ensures PageOf(params) >= 1 && ("page" !in params ==> PageOf(params) == 1)
    ensures 1 <= LimitOf(params, cap) <= cap && ("limit" !in params ==> LimitOf(params, cap) == 20)
    ensures "limit" in params && params["limit"] == "" ==> LimitOf(params, cap) == 1
    ensures (PageOf(params) - 1) * LimitOf(params, cap) >= 0
  {
    var p, l := PageOf(params), LimitOf(params, cap);
    if "limit" in params && params["limit"] == "" {
      assert SkipSpace("") == "" && DigitPrefix("") == "";
    }
    MulNonNegative(p - 1, l);
  }

  lemma MulNonNegative(a: int, b: int)
    requires a >= 0 && b >= 0
    ensures a * b >= 0
  {
  }

  /** A page number written in decimal is read back as that page. */
  lemma PageOfNumber(params: Params, n: nat)
    requires 1 <= n <= IntMax
    requires "page" in params && params["page"] == NatToString(n)
    ensures PageOf(params) == n
  {
    IntValOfNumber(n);
  }

  /** `ceil($total / $limit)` for a count and a positive limit. */
  function CeilDiv(total: nat, limit: int): (pages: nat)
    requires limit >= 1
    ensures total == 0 ==> pages == 0
    ensures total > 0 ==> (pages - 1) * limit < total <= pages * limit
  {
    var q := (total + limit - 1) / limit;
    assert q * limit <= total + limit - 1 < q * limit + limit;
    assert (q - 1) * limit == q * limit - limit;
    q
  }

  /** The `pagination` object of a paged answer. */
  datatype Pagination = Pagination(
    total: nat,
    perPage: int,
    currentPage: int,
    totalPages: nat,
    hasNext: bool,
    hasPrev: bool)

  function Envelope(total: nat, page: int, limit: int): Pagination
    requires limit >= 1
  {
    var totalPages := CeilDiv(total, limit);
    Pagination(total, limit, page, totalPages, page < totalPages, page > 1)
  }

  /** There is a next page exactly when rows remain past this page, and a
      previous one exactly when this page does not start at the first row. */
  lemma EnvelopeMeaning(total: nat, page: int, limit: int)
    requires limit >= 1 && page >= 1
    ensures var p := Envelope(total, page, limit);
      && (p.hasNext <==> page * limit < total)
      && (p.hasPrev <==> (page - 1) * limit > 0)
      && p.totalPages * limit >= total
  {
    var pages := CeilDiv(total, limit);
    if page < pages {
      MulMonotone(page, pages - 1, limit);
    } else {
      MulMonotone(pages, page, limit);
    }
    if page > 1 {
      MulPositive(page - 1, limit);
    }
  }

  lemma MulMonotone(a: int, b: int, m: int)
    requires a <= b && m >= 0
    ensures a * m <= b * m
  {
  }

  lemma MulPositive(a: int, b: int)
    requires a > 0 && b > 0
    ensures a * b > 0
  {
  }

  // ---------------------------------------------------------------- answers

  /** An answer of the oracle: a value, or an exception with its message. */
  datatype Fetch<T> = Ok(value: T) | Thrown(message: string)

  /** The database as the handlers see it: whether the connection opens
      (`Some(message)` when `getDbConnection` throws), whether an id
      names a stored row, and what an endpoint's queries yield (the count
      ids of the rows a paged endpoint's query matches, in its order). */
  datatype Backend = Backend(
    connect: Option<string>,
    exists_: Endpoint -> Fetch<bool>,
    query: (Endpoint, Params) -> Fetch<seq<nat>>)

  datatype Body =
    | Empty
    | Error(error: string)
    | Paged(pagination: Pagination)
    | Found

  datatype Answer = Answer(status: int, body: Body)

  const NotFoundMessage := "Ressource non trouvée"
  const MissingQuery := "Paramètre de recherche manquant"
  const MissingPoint := "Paramètres de géolocalisation manquants (lat, lng)"

  /** A paged endpoint's answer once its checks passed. */
  function PagedAnswer(b: Backend, e: Endpoint, params: Params): Answer {
    match b.query(e, params)
    case Thrown(m) => Answer(500, Error(m))
    case Ok(ids) =>
      Answer(200, Paged(Envelope(|ids|, PageOf(params), LimitOf(params, Cap(e)))))
  }

  /** A paged answer reports the number of matching rows as its total and
      offers a next page exactly when rows remain past the requested one. */
  lemma PagedAnswerMeaning(b: Backend, e: Endpoint, params: Params)
    requires b.query(e, params).Ok?
    ensures var a := PagedAnswer(b, e, params); var ids := b.query(e, params).value;
      && a.status == 200 && a.body.Paged?
      && a.body.pagination.total == |ids|
      && (a.body.pagination.hasNext <==> PageOf(params) * LimitOf(params, Cap(e)) < |ids|)
  {
    PagingBounds(params, Cap(e));
    EnvelopeMeaning(|b.query(e, params).value|, PageOf(params), LimitOf(params, Cap(e)));
  }

  /** The routes without a parameter. */
  lemma DispatchFixed()
    ensures Dispatch(Entreprises, "GET") == ListEntreprises
    ensures Dispatch("/recherche", "GET") == Search
    ensures Dispatch("/autour", "GET") == Around
    ensures Dispatch("/activites", "GET") == ListActivites
  {
    assert |"/recherche"| < 13 && |"/autour"| < 13 && |"/activites"| < 13;
  }

  /** The answer to one request. An OPTIONS request ends before anything
      else; any exception, including a failed connection, becomes a 500
      carrying its message. */
  function Handle(requestMethod: string, path: string, params: Params, b: Backend): Answer {
    if requestMethod == "OPTIONS" then Answer(200, Empty)
    else if b.connect.Some? then Answer(500, Error(b.connect.value))
    else Serve(Dispatch(RouteOf(path), requestMethod), params, b)
  }

  /** The handler an endpoint selects, on an open connection. */
  function Serve(e: Endpoint, params: Params, b: Backend): Answer {
    match e
    case Unrouted => Answer(404, Error(NotFoundMessage))
    case ListEntreprises => PagedAnswer(b, e, params)
    case EntrepriseById(id) =>
      if !IsDigitString(id) then Answer(400, Error("ID d'entreprise invalide"))
      else
        (match b.exists_(e)
         case Thrown(m) => Answer(500, Error(m))
         case Ok(found) =>
           if !found then Answer(404, Error("Entreprise non trouvée"))
           else
             (match b.query(e, params)
              case Thrown(m) => Answer(500, Error(m))
              case Ok(_) => Answer(200, Found)))
    case Search =>
      var q := if "q" in params then Trim(params["q"]) else "";
      if !Truthy(q) then Answer(400, Error(MissingQuery))
      else PagedAnswer(b, e, params)
    case Around =>
      if "lat" !in params || "lng" !in params then Answer(400, Error(MissingPoint))
      else PagedAnswer(b, e, params)
    case ListActivites =>
      (match b.query(e, params)
       case Thrown(m) => Answer(500, Error(m))
       case Ok(_) => Answer(200, Found))
    case ByActivite(id) =>
      if !IsDigitString(id) then Answer(400, Error("ID d'activité invalide"))
      else
        (match b.exists_(e)
         case Thrown(m) => Answer(500, Error(m))
         case Ok(found) =>
           if !found then Answer(404, Error("Activité non trouvée"))
           else PagedAnswer(b, e, params))
  }

  /** Every answer is 200, 400, 404 or 500; every 400, 404 and 500
      carries an error message; a 200 on a paged endpoint carries an
      envelope whose page is at least 1 and whose limit lies within the
      endpoint's cap. */
  lemma HandleStatuses(requestMethod: string, path: string, params: Params, b: Backend)
    ensures var a := Handle(requestMethod, path, params, b);
      && a.status in {200, 400, 404, 500}
      && (a.status != 200 <==> a.body.Error?)
      && (a.body.Paged? ==>
            (a.body.pagination.currentPage >= 1
             && 1 <= a.body.pagination.perPage <= Cap(Dispatch(RouteOf(path), requestMethod))))
  {
    if requestMethod != "OPTIONS" && b.connect.None? {
      ServeStatuses(Dispatch(RouteOf(path), requestMethod), params, b);
    }
  }

  lemma ServeStatuses(e: Endpoint, params: Params, b: Backend)
    ensures var a := Serve(e, params, b);
      && a.status in {200, 400, 404, 500}
      && (a.status != 200 <==> a.body.Error?)
      && (a.body.Paged? ==> (a.body.pagination.currentPage >= 1 && 1 <= a.body.pagination.perPage <= Cap(e)))
  {
    PagingBounds(params, Cap(e));
  }

  /** Requests other than GET (and OPTIONS) are not routed: 404, once
      the connection is open. */
  lemma OnlyGet(requestMethod: string, path: string, params: Params, b: Backend)
    requires requestMethod != "GET" && requestMethod != "OPTIONS" && b.connect.None?
    ensures Handle(requestMethod, path, params, b) == Answer(404, Error(NotFoundMessage))
  {
  }

  /** Two backends that both connect. */
  predicate Connected(b1: Backend, b2: Backend) {
    b1.connect.None? && b2.connect.None?
  }

  /** A blank search (missing, empty, white space only, or "0") is refused
      with 400 before any query: the answer does not depend on the data. */
  lemma BlankSearchRefused(path: string, params: Params, b1: Backend, b2: Backend)
    requires Connected(b1, b2) && Dispatch(RouteOf(path), "GET") == Search
    requires "q" !in params || !Truthy(Trim(params["q"]))
    ensures Handle("GET", path, params, b1) == Handle("GET", path, params, b2) == Answer(400, Error(MissingQuery))
  {
  }

  /** A search around a point without `lat` or `lng` is refused with 400
      before any query. */
  lemma MissingPointRefused(path: string, params: Params, b1: Backend, b2: Backend)
    requires Connected(b1, b2) && Dispatch(RouteOf(path), "GET") == Around
    requires "lat" !in params || "lng" !in params
    ensures Handle("GET", path, params, b1) == Handle("GET", path, params, b2) == Answer(400, Error(MissingPoint))
  {
  }

  /** An id that names no row gets 404; the page parameters are not even
      read. */
  lemma UnknownIdNotFound(path: string, params: Params, b: Backend)
    requires b.connect.None?
    requires var e := Dispatch(RouteOf(path), "GET"); (e.EntrepriseById? || e.ByActivite?) && b.exists_(e) == Ok(false)
    ensures Handle("GET", path, params, b).status == 404
  {
  }

  /** Whatever the request, an exception from the connection or from the
      queries the handler runs becomes a 500 carrying its message. */
  lemma ExceptionsAre500(requestMethod: string, path: string, params: Params, b: Backend)
    requires requestMethod != "OPTIONS"
    ensures var a := Handle(requestMethod, path, params, b); var e := Dispatch(RouteOf(path), requestMethod);
      && (b.connect.Some? ==> a == Answer(500, Error(b.connect.value)))
      && (b.connect.None? && e.ListEntreprises? && b.query(e, params).Thrown? ==>
            a == Answer(500, Error(b.query(e, params).message)))
      && (b.connect.None? && (e.EntrepriseById? || e.ByActivite?) && b.exists_(e).Thrown? ==>
            a == Answer(500, Error(b.exists_(e).message)))
  {
    var e := Dispatch(RouteOf(path), requestMethod);
    if e.EntrepriseById? || e.ByActivite? {
      assert IsDigitString(e.id);
    }
  }

  // ---------------------------------------------------------------- the count statements

  /** Each paged handler derives its count statement from its listing
      statement with `str_replace(<select list>, <count>, $query)`; the
      select list is written on one line there, while the statement breaks
      it across lines, so nothing is replaced and the "count" statement is
      the listing statement itself. The select clause of the company list: */
  const SelectHead := "SELECT e.*, "
  const SelectTail := "a.adresse, " + "a.code_postal, " + "a.ville, " + "a.latitude, " + "a.longitude"
  const Indent := "            "
  const CompanySelect := SelectHead + "\n" + Indent + SelectTail
  const CompanyNeedle := SelectHead + SelectTail

  /** A needle without a line break cannot match across one. */
  lemma NewlineBlocks(text: string, needle: string, k: int, i: int)
    requires '\n' !in needle && 0 <= k < |text| && text[k] == '\n'
    requires i <= k < i + |needle|
    ensures !OccursAt(text, needle, i)
  {
    if 0 <= i && i + |needle| <= |text| {
      assert text[i..i + |needle|][k - i] == text[k];
    }
  }

  /** The company list's select list does not occur in its select clause. */
  lemma CompanyNeedleMissing(i: int)
    ensures !OccursAt(CompanySelect, CompanyNeedle, i)
  {
    var n := CompanyNeedle;
    assert |SelectHead| == 12 && |Indent| == 12;
    assert '\n' !in n by {
      assert '\n' !in SelectHead;
      assert '\n' !in "a.adresse, " && '\n' !in "a.code_postal, " && '\n' !in "a.ville, ";
      assert '\n' !in "a.latitude, " && '\n' !in "a.longitude";
    }
    if 0 <= i <= 12 {
      NewlineBlocks(CompanySelect, n, 12, i);
    } else if i == 13 {
      assert CompanySelect[13] == ' ' && n[0] == 'S';
      assert CompanySelect[13..13 + |n|][0] != n[0];
    }
  }

  /** What the handlers report as `total` AS WRITTEN, the count statement
      being the listing statement: the company list and the search read a
      `total` column that row has not (null, `None`); the search around a
      point and the list by activity read the first column of the first
      row, the id of the first company (false when nothing matches,
      `None`). */
  function ReportedTotal(e: Endpoint, ids: seq<nat>): Option<nat> {
    if e == ListEntreprises || e == Search || ids == [] then None
    else Some(ids[0])
  }

  /** The envelope as written: null and false count as 0 in `ceil`. */
  function EnvelopeAsWritten(e: Endpoint, ids: seq<nat>, page: int, limit: int): Pagination
    requires limit >= 1
  {
    Envelope(ReportedTotal(e, ids).GetOr(0), page, limit)
  }

  /** Twenty-five companies, twenty per page: the first page of the
      company list says there is no next page; one company with id 42
      around a point: the first page says there is a next one. The count
      of the matching rows, used instead, gives the right answer. */
  lemma ReportedTotalWrong()
    ensures var ids := seq(25, k => k + 1);
      && !EnvelopeAsWritten(ListEntreprises, ids, 1, 20).hasNext
      && Envelope(|ids|, 1, 20).hasNext
    ensures !Envelope(|[42]|, 1, 20).hasNext && EnvelopeAsWritten(Around, [42], 1, 20).hasNext
  {
    EnvelopeMeaning(25, 1, 20);
    EnvelopeMeaning(1, 1, 20);
    EnvelopeMeaning(42, 1, 20);
  }
}

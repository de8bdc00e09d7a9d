/** What the registry crawler reads from annuaire-entreprises.data.gouv.fr:
    the department index, one page per department, the paginated company
    lists of an activity and one page per company. The web is a fixed
    oracle from URL to response, each page already reduced to the values
    the crawler's selectors pick out. */
module DataGouvWeb {
  import opened Php
  import opened Tables
  import opened Entities
  import opened Geocode
  import opened DataGouvLinks

  /** A GET that raised a transport exception, or one that answered. */
  datatype Fetched<T> = Thrown | Got(status: int, page: T)

  /** An `<a>` element: its `href` ("" when absent) and its text. */
  datatype Anchor = Anchor(href: string, text: string)

  /** An activity's company list: every anchor of the page and the anchors
      under `.pagination`. */
  datatype ListPage = ListPage(links: seq<Anchor>, pagination: seq<Anchor>)

  /** A company page: the text of `h1, .company-name`, the text of
      `.company-siret, .siret`, the legal form and creation date the
      page's patterns yield ("" and null when they do not match), and the
      two-column table rows. */
  datatype CompanyPage = CompanyPage(
    name: string,
    siretText: string,
    formeJuridique: string,
    dateCreation: Option<string>,
    rows: seq<Row>)

  datatype Web = Web(
    departements: Fetched<seq<Anchor>>,      // GET {base}/departements/
    departement: string -> Fetched<seq<Anchor>>,
    list: string -> Fetched<ListPage>,
    company: string -> Fetched<CompanyPage>,
    geocode: Geocoder)

  /** Page cap of `importActivity`. */
  const MaxPagesPerActivity: nat := 10

  datatype Dept = Dept(code: string, url: string)
  datatype Activity = Activity(code: string, url: string)
  datatype CompanyLink = CompanyLink(url: string, siren: string)

  /** The department used whenever the index cannot be read. */
  const Paris := Dept("75", BaseUrl + "/departements/75-paris/index.html")

  // ---------------------------------------------------------------- departments

  /** The department an anchor names, if its href matches the pattern. */
  function DeptOf(a: Anchor): Option<Dept> {
    match ParseDeptHref(a.href)
    case None => None
    case Some(cn) => Some(Dept(cn.0, BaseUrl + a.href))
  }

  /** The departments the anchors name, in page order. */
  function DeptsOf(anchors: seq<Anchor>): seq<Dept> {
    Collect(anchors, DeptOf)
  }

  /** The index could not be used: an exception, a status other than 200,
      or no matching link. */
  predicate IndexFails(w: Web) {
    w.departements.Thrown? || w.departements.status != 200 || DeptsOf(w.departements.page) == []
  }

  /** `getDepartementsList` */
  function DeptList(w: Web): (ds: seq<Dept>)
    ensures IndexFails(w) ==> ds == [Paris]
    ensures !IndexFails(w) ==> ds != [] && forall d :: d in ds <==>
      exists k :: 0 <= k < |w.departements.page| && DeptOf(w.departements.page[k]) == Some(d)
  {
    if IndexFails(w) then [Paris]
    else
      var ds := DeptsOf(w.departements.page);
      forall d ensures d in ds <==>
        exists k :: 0 <= k < |w.departements.page| && DeptOf(w.departements.page[k]) == Some(d)
      {
        CollectExact(w.departements.page, DeptOf, d);
      }
      ds
  }

  /** `findDepartementUrl`: the URL of the first listed department whose
      code is loosely equal to `code`. */
  function FindDeptUrl(w: Web, code: string): (r: Option<string>)
    ensures r.Some? ==> exists k :: (0 <= k < |DeptList(w)| && LooseEquals(DeptList(w)[k].code, code)
      && r.value == DeptList(w)[k].url
      && forall j :: 0 <= j < k ==> !LooseEquals(DeptList(w)[j].code, code))
    ensures r.None? <==> forall k :: 0 <= k < |DeptList(w)| ==> !LooseEquals(DeptList(w)[k].code, code)
  {
    var ds := DeptList(w);
    match FirstIndex(ds, (d: Dept) => LooseEquals(d.code, code))
    case None => None
    case Some(k) => Some(ds[k].url)
  }

  // ---------------------------------------------------------------- activities

  /** The activity an anchor names when its department code is loosely
      equal to `deptCode`. */
  function ActivityOf(a: Anchor, deptCode: string): Option<Activity> {
    match ParseActivityHref(a.href)
    case None => None
    case Some(g) => if LooseEquals(g.0, deptCode) then Some(Activity(g.2, BaseUrl + a.href)) else None
  }

  /** The activities of the department's page, in page order. Every one
      kept comes from an anchor whose href matches the activity pattern
      with a department code loosely equal to `deptCode`. */
  function ActivitiesOf(anchors: seq<Anchor>, deptCode: string): (acts: seq<Activity>)
    ensures forall act :: act in acts ==> exists k, g :: (0 <= k < |anchors|
      && ParseActivityHref(anchors[k].href) == Some(g)
      && LooseEquals(g.0, deptCode) && act == Activity(g.2, BaseUrl + anchors[k].href))
  {
    var f := (a: Anchor) => ActivityOf(a, deptCode);
    var acts := Collect(anchors, f);
    forall act | act in acts
      ensures exists k, g :: (0 <= k < |anchors|
        && ParseActivityHref(anchors[k].href) == Some(g)
        && LooseEquals(g.0, deptCode) && act == Activity(g.2, BaseUrl + anchors[k].href))
    {
      CollectExact(anchors, f, act);
      var k :| 0 <= k < |anchors| && f(anchors[k]) == Some(act);
      var g := ParseActivityHref(anchors[k].href).value;
      assert ParseActivityHref(anchors[k].href) == Some(g);
    }
    acts
  }

  /** `getActivitiesForDepartement`: the department's page is found again
      through `findDepartementUrl`; an unknown department, an exception or
      a status other than 200 yields no activity. */
  function Activities(w: Web, deptCode: string): seq<Activity> {
    match FindDeptUrl(w, deptCode)
    case None => []
    case Some(url) =>
      match w.departement(url)
      case Thrown => []
      case Got(status, anchors) => if status != 200 then [] else ActivitiesOf(anchors, deptCode)
  }

  /** An entry of the department list `import` walks: a bare code (a
      numeric keyword) or a listed department with its URL. */
  datatype DeptEntry = Code(code: string) | Listed(dept: Dept)

  /** A numeric keyword of at most three characters names one department;
      any other keyword walks the whole list. */
  function Entries(w: Web, keyword: string): (es: seq<DeptEntry>)
    ensures IsDigitString(keyword) && |keyword| <= 3 ==> es == [Code(keyword)]
    ensures !(IsDigitString(keyword) && |keyword| <= 3) ==>
      |es| == |DeptList(w)| >= 1 && forall k :: 0 <= k < |es| ==> es[k] == Listed(DeptList(w)[k])
  {
    if IsDigitString(keyword) && |keyword| <= 3 then [Code(keyword)]
    else seq(|DeptList(w)|, k requires 0 <= k < |DeptList(w)| => Listed(DeptList(w)[k]))
  }

  /** The department code an entry is imported under; a bare code whose
      URL cannot be found is skipped. */
  function EntryCode(w: Web, e: DeptEntry): Option<string> {
    match e
    case Code(c) => if FindDeptUrl(w, c).Some? then Some(c) else None
    case Listed(d) => Some(d.code)
  }

  // ---------------------------------------------------------------- company lists

  function CompanyLinkOf(a: Anchor): Option<CompanyLink> {
    match ParseCompanyHref(a.href)
    case None => None
    case Some(g) => Some(CompanyLink(BaseUrl + a.href, g.1))
  }

  /** The company links of a list page, in page order. */
  function CompanyLinks(anchors: seq<Anchor>): seq<CompanyLink> {
    Collect(anchors, CompanyLinkOf)
  }

  /** Every SIREN a company link carries is nine digits, and it is the tail
      of an href matching the company pattern. */
  lemma CompanyLinksSound(anchors: seq<Anchor>, l: CompanyLink)
    requires l in CompanyLinks(anchors)
    ensures |l.siren| == 9 && AllDigits(l.siren)
    ensures exists k, slug :: (0 <= k < |anchors| && CompanyHref(anchors[k].href, slug, l.siren)
      && l.url == BaseUrl + anchors[k].href)
  {
    CollectExact(anchors, CompanyLinkOf, l);
    var k :| 0 <= k < |anchors| && CompanyLinkOf(anchors[k]) == Some(l);
    var g := ParseCompanyHref(anchors[k].href).value;
    ParseCompanyHrefExact(anchors[k].href, g.0, g.1);
  }

  /** The next page: the LAST pagination anchor whose trimmed text is
      loosely equal to `pageNum + 1`. */
  function NextPageUrl(pagination: seq<Anchor>, pageNum: nat): Option<string> {
    match LastIndex(pagination, (a: Anchor) => LooseEquals(Trim(a.text), NatToString(pageNum + 1)))
    case None => None
    case Some(k) => Some(BaseUrl + pagination[k].href)
  }

  /** There is a next page exactly when some pagination anchor names page
      `pageNum + 1`; its URL is the last such anchor's, whose text is the
      decimal digits of `pageNum + 1`. */
  lemma NextPageUrlExact(pagination: seq<Anchor>, pageNum: nat)
    ensures NextPageUrl(pagination, pageNum).Some? <==>
      exists k :: 0 <= k < |pagination| && LooseEquals(Trim(pagination[k].text), NatToString(pageNum + 1))
    ensures NextPageUrl(pagination, pageNum).Some? ==> exists k :: (0 <= k < |pagination|
      && NextPageUrl(pagination, pageNum).value == BaseUrl + pagination[k].href
      && IsDigitString(Trim(pagination[k].text)) && DigitsValue(Trim(pagination[k].text)) == pageNum + 1
      && forall j :: k < j < |pagination| ==> !LooseEquals(Trim(pagination[j].text), NatToString(pageNum + 1)))
  {
    var r := LastIndex(pagination, (a: Anchor) => LooseEquals(Trim(a.text), NatToString(pageNum + 1)));
    if r.Some? {
      LooseEqualsNumber(Trim(pagination[r.value].text), pageNum + 1);
    }
  }
}

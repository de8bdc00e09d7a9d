/** The registry crawler's writes: `importEntreprise` for one company link,
    `importActivity` over the paginated list of one activity, and `import`
    over departments and their activities. Each is a method on the entity
    store proved against a function on store values. */
module DataGouv {
  import opened Php
  import opened Tables
  import opened Entities
  import opened ActivityRule
  import opened Store
  import opened AddressParse
  import opened Geocode
  import opened DataGouvLinks
  import opened DataGouvWeb

  const Source := "datagouv"

  /** The row headers the company page is searched for, in lower case. */
  const AddressMarker := "adresse postale"
  const ActivityMarker := "activité principale"

  // ---------------------------------------------------------------- one company

  /** The array `importEntreprise` inserts: the trimmed name as both name and
      legal name, the 14-digit SIRET when the page shows one, the activity
      code as NAF code, and the SIREN as source id. */
  function RegistryData(nom: string, p: CompanyPage, siren: string, activityCode: string): EntrepriseData {
    EntrepriseData(Some(nom), First14Digits(p.siretText), Some(nom), p.dateCreation,
                   Some(p.formeJuridique), None, Some(activityCode), None, Source, siren)
  }

  /** `$coordonnees ? $coordonnees['lat'] : null` */
  function Lat(c: Option<(Coord, Coord)>): Option<Coord> {
    if c.Some? then Some(c.value.0) else None
  }

  /** `$coordonnees ? $coordonnees['lng'] : null` */
  function Lng(c: Option<(Coord, Coord)>): Option<Coord> {
    if c.Some? then Some(c.value.1) else None
  }

  /** The seat the company page yields: the "adresse postale" row, when
      truthy and split by the greedy pattern, with the coordinates of the
      geocoding fallback. */
  function RegistrySeat(geo: Geocoder, rows: seq<Row>): (seat: Option<AdresseData>)
    ensures seat.Some? <==> (Truthy(LastRowValue(rows, AddressMarker))
                             && ParseDataGouv(LastRowValue(rows, AddressMarker)).Some?)
    ensures seat.Some? ==> var a := ParseDataGouv(LastRowValue(rows, AddressMarker)).value;
      seat.value.kind == Some("siege") && seat.value.adresse == Some(a.rue)
      && seat.value.codePostal == Some(a.codePostal) && seat.value.ville == Some(a.ville)
      && (seat.value.latitude.Some? <==> GeocodeAdresse(geo, a.rue, a.codePostal, a.ville).Some?)
  {
    var text := LastRowValue(rows, AddressMarker);
    if !Truthy(text) then None
    else
      match ParseDataGouv(text)
      case None => None
      case Some(a) =>
        var c := GeocodeAdresse(geo, a.rue, a.codePostal, a.ville);
        Some(SiegeData(a.rue, a.codePostal, a.ville, Lat(c), Lng(c)))
  }

  /** The address step: the seat, if any, is upserted. */
  function WithRegistryAddress(geo: Geocoder, d: Db, eid: nat, rows: seq<Row>): Db {
    match RegistrySeat(geo, rows)
    case None => d
    case Some(seat) => d.(adresses := UpsertAdresse(d.adresses, AdresseRow(eid, seat)))
  }

  /** The activity label: the "activité principale" row, or
      "Activité <code>" when that is empty. */
  function RegistryLabel(rows: seq<Row>, activityCode: string): (libelle: string)
    ensures Truthy(libelle)
  {
    var found := LastRowValue(rows, ActivityMarker);
    if Truthy(found) then found else "Activité " + activityCode
  }

  /** The activity step: resolve the label under the code and link it. */
  function WithRegistryActivity(d: Db, eid: nat, rows: seq<Row>, activityCode: string): Db {
    var r := Resolve(d.activites, RegistryLabel(rows, activityCode), Some(activityCode));
    d.(activites := r.table, liens := InsertIgnore(d.liens, Lien(eid, r.id), LienClash))
  }

  /** The address step writes the addresses table only, and keeps its
      key unique. */
  lemma AddressStepKeeps(geo: Geocoder, d: Db, eid: nat, rows: seq<Row>)
    ensures var d' := WithRegistryAddress(geo, d, eid, rows);
      d'.(adresses := d.adresses) == d && (Consistent(d) ==> Consistent(d'))
  {
    var seat := RegistrySeat(geo, rows);
    if seat.Some? && Consistent(d) {
      UpsertAdresseDistinct(d.adresses, AdresseRow(eid, seat.value));
    }
  }

  /** The activity step writes the activities and the links only, and
      keeps the link pairs unique. */
  lemma ActivityStepKeeps(d: Db, eid: nat, rows: seq<Row>, activityCode: string)
    ensures var d' := WithRegistryActivity(d, eid, rows, activityCode);
      d'.(activites := d.activites, liens := d.liens) == d && (Consistent(d) ==> Consistent(d'))
  {
    if Consistent(d) {
      var r := Resolve(d.activites, RegistryLabel(rows, activityCode), Some(activityCode));
      InsertIgnoreDistinct(d.liens, Lien(eid, r.id), LienClash);
    }
  }

  /** The store one company link leaves behind, and whether the company
      was imported. */
  datatype Outcome = Outcome(db: Db, imported: bool)

  /** Everything after the existence check: fetch the page, read the name,
      insert the company, then its address and its activity. */
  function FetchAndInsert(w: Web, d: Db, link: CompanyLink, activityCode: string): Outcome {
    match w.company(link.url)
    case Thrown => Outcome(d, false)
    case Got(status, p) =>
      if status != 200 then Outcome(d, false)
      else
        var nom := Trim(p.name);
        if !Truthy(nom) then Outcome(d, false)
        else
          var d1 := d.(entreprises := d.entreprises + [EntrepriseRow(RegistryData(nom, p, link.siren, activityCode))]);
          var eid := |d1.entreprises|;
          Outcome(WithRegistryActivity(WithRegistryAddress(w.geocode, d1, eid, p.rows), eid, p.rows, activityCode), true)
  }

  /** `importEntreprise` as written: the SIREN is looked up in the siret
      column. */
  function EntrepriseEffect(w: Web, d: Db, link: CompanyLink, activityCode: string): Outcome {
    if BySiret(d.entreprises, link.siren).Some? then Outcome(d, false)
    else FetchAndInsert(w, d, link, activityCode)
  }

  /** What one company link does to the store. */
  lemma FetchAndInsertProps(w: Web, d: Db, link: CompanyLink, activityCode: string)
    ensures var Outcome(d', ok) := FetchAndInsert(w, d, link, activityCode);
      && (!ok ==> d' == d)
      && (ok <==> w.company(link.url).Got? && w.company(link.url).status == 200
                  && Truthy(Trim(w.company(link.url).page.name)))
      && |d'.entreprises| == |d.entreprises| + (if ok then 1 else 0)
      && d'.entreprises[..|d.entreprises|] == d.entreprises
      && (ok ==> var row := d'.entreprises[|d.entreprises|];
            row.nom == Trim(w.company(link.url).page.name) && row.source == Source
            && row.sourceId == link.siren && row.codeNaf == Some(activityCode)
            && (row.siret.None? || |row.siret.value| == 14))
      && d'.contacts == d.contacts && d'.sitesWeb == d.sitesWeb && d'.dirigeants == d.dirigeants
      && (Consistent(d) ==> Consistent(d'))
  {
    var Outcome(d', ok) := FetchAndInsert(w, d, link, activityCode);
    if ok {
      var p := w.company(link.url).page;
      var nom := Trim(p.name);
      var d1 := d.(entreprises := d.entreprises + [EntrepriseRow(RegistryData(nom, p, link.siren, activityCode))]);
      var eid := |d1.entreprises|;
      AddressStepKeeps(w.geocode, d1, eid, p.rows);
      ActivityStepKeeps(WithRegistryAddress(w.geocode, d1, eid, p.rows), eid, p.rows, activityCode);
      assert d'.entreprises == d1.entreprises;
    }
  }

  // ---------------------------------------------------------------- the lookup finding

  /** The stored siret is the page's 14-digit SIRET or null, never the
      9-digit SIREN of the link, so the lookup cannot find a company this
      crawler inserted: the same link imports the company again, and the
      two rows share their source id. */
  lemma ReimportInsertsAgain(w: Web, d: Db, link: CompanyLink, activityCode: string)
    requires |link.siren| == 9
    requires EntrepriseEffect(w, d, link, activityCode).imported
    ensures var d1 := EntrepriseEffect(w, d, link, activityCode).db;
      var Outcome(d2, again) := EntrepriseEffect(w, d1, link, activityCode);
      again && |d2.entreprises| == |d.entreprises| + 2
      && d2.entreprises[|d.entreprises|].sourceId == d2.entreprises[|d.entreprises| + 1].sourceId == link.siren
  {
    assert EntrepriseEffect(w, d, link, activityCode) == FetchAndInsert(w, d, link, activityCode);
    FetchAndInsertProps(w, d, link, activityCode);
    var d1 := FetchAndInsert(w, d, link, activityCode).db;
    var row := d1.entreprises[|d.entreprises|];
    assert d1.entreprises == d.entreprises + [row];
    BySiretMissesAppended(d.entreprises, row, link.siren);
    assert EntrepriseEffect(w, d1, link, activityCode) == FetchAndInsert(w, d1, link, activityCode);
    FetchAndInsertProps(w, d1, link, activityCode);
  }

  /** A row whose siret is not the one looked up leaves the lookup
      missing. */
  lemma BySiretMissesAppended(rows: seq<Entreprise>, row: Entreprise, siret: string)
    requires BySiret(rows, siret).None? && row.siret != Some(siret)
    ensures BySiret(rows + [row], siret).None?
  {
    var rs := rows + [row];
    forall j | 0 <= j < |rs|
      ensures rs[j].siret != Some(siret)
    {
      if j < |rows| {
        assert rs[j] == rows[j];
      }
    }
  }

  /** The lookup evidently intended: the company this crawler stored under
      the SIREN, i.e. a row with source 'datagouv' and that source id. */
  function BySourceId(rows: seq<Entreprise>, siren: string): (id: Option<nat>)
    ensures id.Some? ==> (1 <= id.value <= |rows| && rows[id.value - 1].source == Source
      && rows[id.value - 1].sourceId == siren)
    ensures id.None? <==> forall j :: 0 <= j < |rows| ==> !(rows[j].source == Source && rows[j].sourceId == siren)
  {
    match FirstIndex(rows, (e: Entreprise) => e.source == Source && e.sourceId == siren)
    case None => None
    case Some(k) => Some(k + 1)
  }

  /** `importEntreprise` with the intended lookup. */
  function EntrepriseEffectBySourceId(w: Web, d: Db, link: CompanyLink, activityCode: string): Outcome {
    if BySourceId(d.entreprises, link.siren).Some? then Outcome(d, false)
    else FetchAndInsert(w, d, link, activityCode)
  }

  /** With the intended lookup a second import of the same link changes
      nothing: the import is idempotent. */
  lemma BySourceIdIdempotent(w: Web, d: Db, link: CompanyLink, activityCode: string)
    ensures var d1 := EntrepriseEffectBySourceId(w, d, link, activityCode).db;
      EntrepriseEffectBySourceId(w, d1, link, activityCode) == Outcome(d1, false)
  {
    var Outcome(d1, ok) := EntrepriseEffectBySourceId(w, d, link, activityCode);
    if ok {
      FetchAndInsertProps(w, d, link, activityCode);
      assert d1.entreprises[|d.entreprises|].source == Source;
      assert d1.entreprises[|d.entreprises|].sourceId == link.siren;
    }
  }

  // ---------------------------------------------------------------- one page of links

  /** A store and a running count of imported companies. */
  datatype Tally = Tally(db: Db, count: nat)

  /** One more link on top of what the earlier ones did. */
  function LinkStep(w: Web, t: Tally, link: CompanyLink, activityCode: string): Tally {
    var o := EntrepriseEffect(w, t.db, link, activityCode);
    Tally(o.db, t.count + if o.imported then 1 else 0)
  }

  /** The links of one list page, imported in page order, and how many
      were imported. */
  function LinksEffect(w: Web, d: Db, links: seq<CompanyLink>, activityCode: string): Tally {
    if links == [] then Tally(d, 0)
    else LinkStep(w, LinksEffect(w, d, links[..|links| - 1], activityCode), links[|links| - 1], activityCode)
  }

  lemma LinksEffectSnoc(w: Web, d: Db, links: seq<CompanyLink>, i: nat, activityCode: string)
    requires i < |links|
    ensures LinksEffect(w, d, links[..i + 1], activityCode)
         == LinkStep(w, LinksEffect(w, d, links[..i], activityCode), links[i], activityCode)
  {
    assert links[..i + 1][..i] == links[..i];
  }

  /** The count is the number of companies added, and the store stays
      consistent. */
  lemma {:induction false} LinksEffectCounts(w: Web, d: Db, links: seq<CompanyLink>, activityCode: string)
    ensures var t := LinksEffect(w, d, links, activityCode);
      |t.db.entreprises| == |d.entreprises| + t.count && t.db.entreprises[..|d.entreprises|] == d.entreprises
      && (Consistent(d) ==> Consistent(t.db))
  {
    if links != [] {
      var t := LinksEffect(w, d, links[..|links| - 1], activityCode);
      LinksEffectCounts(w, d, links[..|links| - 1], activityCode);
      var t2 := LinkStep(w, t, links[|links| - 1], activityCode);
      LinkStepCounts(w, t, links[|links| - 1], activityCode);
      assert LinksEffect(w, d, links, activityCode) == t2;
      assert t2.db.entreprises[..|d.entreprises|] == t2.db.entreprises[..|t.db.entreprises|][..|d.entreprises|];
    }
  }

  /** One link adds one company exactly when it counts one, and keeps the
      store consistent. */
  lemma LinkStepCounts(w: Web, t: Tally, link: CompanyLink, activityCode: string)
    ensures var t' := LinkStep(w, t, link, activityCode);
      && t.count <= t'.count
      && |t'.db.entreprises| == |t.db.entreprises| + (t'.count - t.count)
      && t'.db.entreprises[..|t.db.entreprises|] == t.db.entreprises
      && (Consistent(t.db) ==> Consistent(t'.db))
  {
    if BySiret(t.db.entreprises, link.siren).None? {
      assert EntrepriseEffect(w, t.db, link, activityCode) == FetchAndInsert(w, t.db, link, activityCode);
      FetchAndInsertProps(w, t.db, link, activityCode);
    }
  }

  // ---------------------------------------------------------------- one activity

  /** Where the crawl of an activity ends: the store, the running total and
      the page URLs fetched, in order. */
  datatype Crawl = Crawl(db: Db, total: nat, visited: seq<string>)

  /** What importing the company links of one page does to the store. The
      crawl is stated over any such step; `Importer` is the one
      `importActivity` uses. */
  type PageImport = (Db, seq<CompanyLink>) -> Tally

  function Importer(w: Web, activityCode: string): PageImport {
    (d: Db, links: seq<CompanyLink>) => LinksEffect(w, d, links, activityCode)
  }

  /** A page import whose count is the number of companies it added and
      which keeps the store consistent. */
  ghost predicate Counts(imp: PageImport) {
    forall d: Db, links: seq<CompanyLink> ::
      |imp(d, links).db.entreprises| == |d.entreprises| + imp(d, links).count
      && (Consistent(d) ==> Consistent(imp(d, links).db))
  }

  lemma ImporterCounts(w: Web, activityCode: string)
    ensures Counts(Importer(w, activityCode))
  {
    forall d: Db, links: seq<CompanyLink>
      ensures |Importer(w, activityCode)(d, links).db.entreprises| == |d.entreprises| + Importer(w, activityCode)(d, links).count
      ensures Consistent(d) ==> Consistent(Importer(w, activityCode)(d, links).db)
    {
      LinksEffectCounts(w, d, links, activityCode);
    }
  }

  /** How a fetched page ends the loop body: the crawl stops here, or goes
      on to the next page. */
  datatype PageOutcome = Last(c: Crawl) | More(next: string, c: Crawl)

  /** One pass of the loop body on a URL that is truthy, within the cap and
      not yet fetched: the URL is recorded, the page fetched and its links
      imported. The crawl stops on an exception or a status other than 200,
      after a page beyond the first that imported nothing, or when no
      pagination link names the next page. */
  function CrawlPage(lists: string -> Fetched<ListPage>, imp: PageImport, url: string, num: nat,
                     d: Db, total: nat, visited: seq<string>): PageOutcome {
    var seen := visited + [url];
    match lists(url)
    case Thrown => Last(Crawl(d, total, seen))
    case Got(status, page) =>
      if status != 200 then Last(Crawl(d, total, seen))
      else
        var t := imp(d, CompanyLinks(page.links));
        var c := Crawl(t.db, total + t.count, seen);
        if t.count == 0 && num > 1 then Last(c)
        else
          match NextPageUrl(page.pagination, num)
          case None => Last(c)
          case Some(next) => More(next, c)
  }

  /** One page records its URL. */
  lemma CrawlPageVisits(lists: string -> Fetched<ListPage>, imp: PageImport, url: string, num: nat,
                        d: Db, total: nat, visited: seq<string>)
    ensures CrawlPage(lists, imp, url, num, d, total, visited).c.visited == visited + [url]
  {
  }

  /** One page's count is the number of companies it added. */
  lemma CrawlPageCounts(lists: string -> Fetched<ListPage>, imp: PageImport, url: string, num: nat,
                        d: Db, total: nat, visited: seq<string>)
    requires Counts(imp)
    ensures var c := CrawlPage(lists, imp, url, num, d, total, visited).c;
      |c.db.entreprises| - |d.entreprises| == c.total - total
      && (Consistent(d) ==> Consistent(c.db))
  {
  }

  /** `importActivity` from page `num` at `url`: stop on a falsy URL, past
      the page cap or on a URL already fetched; otherwise one page, and on
      to the next one if the page says so. */
  function CrawlFrom(lists: string -> Fetched<ListPage>, imp: PageImport, url: string, num: nat,
                     d: Db, total: nat, visited: seq<string>): Crawl
    decreases MaxPagesPerActivity + 1 - num
  {
    if !Truthy(url) || num > MaxPagesPerActivity || url in visited then Crawl(d, total, visited)
    else
      match CrawlPage(lists, imp, url, num, d, total, visited)
      case Last(c) => c
      case More(next, c) => CrawlFrom(lists, imp, next, num + 1, c.db, c.total, c.visited)
  }

  /** No URL is fetched twice. */
  predicate NoRepeats(urls: seq<string>) {
    forall i, j :: 0 <= i < j < |urls| ==> urls[i] != urls[j]
  }

  /** The crawl only appends to the URLs fetched so far. */
  lemma {:induction false} CrawlExtends(lists: string -> Fetched<ListPage>, imp: PageImport, url: string, num: nat,
                                        d: Db, total: nat, visited: seq<string>)
    ensures IsPrefix(visited, CrawlFrom(lists, imp, url, num, d, total, visited).visited)
    decreases MaxPagesPerActivity + 1 - num
  {
    if Truthy(url) && num <= MaxPagesPerActivity && url !in visited {
      var seen := visited + [url];
      assert IsPrefix(visited, seen);
      var page := CrawlPage(lists, imp, url, num, d, total, visited);
      CrawlPageVisits(lists, imp, url, num, d, total, visited);
      if page.More? {
        var c := CrawlFrom(lists, imp, page.next, num + 1, page.c.db, page.c.total, seen);
        CrawlExtends(lists, imp, page.next, num + 1, page.c.db, page.c.total, seen);
        assert CrawlFrom(lists, imp, url, num, d, total, visited) == c;
        PrefixOfPrefix(visited, seen, c.visited);
      } else {
        assert CrawlFrom(lists, imp, url, num, d, total, visited) == page.c;
      }
    } else {
      assert IsPrefix(visited, visited);
    }
  }

  /** At most one URL per page the cap leaves. */
  lemma {:induction false} CrawlVisits(lists: string -> Fetched<ListPage>, imp: PageImport, url: string, num: nat,
                                       d: Db, total: nat, visited: seq<string>)
    requires 1 <= num <= MaxPagesPerActivity + 1
    ensures |CrawlFrom(lists, imp, url, num, d, total, visited).visited| <= |visited| + (MaxPagesPerActivity + 1 - num)
    decreases MaxPagesPerActivity + 1 - num
  {
    if Truthy(url) && num <= MaxPagesPerActivity && url !in visited {
      var page := CrawlPage(lists, imp, url, num, d, total, visited);
      CrawlPageVisits(lists, imp, url, num, d, total, visited);
      if page.More? {
        var c := CrawlFrom(lists, imp, page.next, num + 1, page.c.db, page.c.total, visited + [url]);
        CrawlVisits(lists, imp, page.next, num + 1, page.c.db, page.c.total, visited + [url]);
        assert |c.visited| <= |visited| + 1 + (MaxPagesPerActivity - num);
        assert CrawlFrom(lists, imp, url, num, d, total, visited) == c;
      } else {
        assert |page.c.visited| == |visited| + 1;
        assert CrawlFrom(lists, imp, url, num, d, total, visited) == page.c;
      }
    }
  }

  /** No URL is fetched twice. */
  lemma {:induction false} CrawlNoRepeats(lists: string -> Fetched<ListPage>, imp: PageImport, url: string, num: nat,
                                          d: Db, total: nat, visited: seq<string>)
    requires NoRepeats(visited)
    ensures NoRepeats(CrawlFrom(lists, imp, url, num, d, total, visited).visited)
    decreases MaxPagesPerActivity + 1 - num
  {
    if Truthy(url) && num <= MaxPagesPerActivity && url !in visited {
      var seen := visited + [url];
      NoRepeatsSnoc(visited, url);
      var page := CrawlPage(lists, imp, url, num, d, total, visited);
      CrawlPageVisits(lists, imp, url, num, d, total, visited);
      if page.More? {
        CrawlNoRepeats(lists, imp, page.next, num + 1, page.c.db, page.c.total, seen);
        assert CrawlFrom(lists, imp, url, num, d, total, visited)
            == CrawlFrom(lists, imp, page.next, num + 1, page.c.db, page.c.total, seen);
      } else {
        assert CrawlFrom(lists, imp, url, num, d, total, visited) == page.c;
      }
    }
  }

  /** `p` is a prefix of `s`. */
  predicate IsPrefix(p: seq<string>, s: seq<string>) {
    |p| <= |s| && s[..|p|] == p
  }

  lemma PrefixOfPrefix(p: seq<string>, q: seq<string>, s: seq<string>)
    requires IsPrefix(p, q) && IsPrefix(q, s)
    ensures IsPrefix(p, s)
  {
    assert s[..|p|] == s[..|q|][..|p|];
  }

  lemma NoRepeatsSnoc(urls: seq<string>, url: string)
    requires NoRepeats(urls) && url !in urls
    ensures NoRepeats(urls + [url])
  {
  }

  /** The total counts exactly the companies the crawl added, and the store
      stays consistent. */
  lemma {:induction false} CrawlCounts(lists: string -> Fetched<ListPage>, imp: PageImport, url: string, num: nat,
                                       d: Db, total: nat, visited: seq<string>)
    requires Counts(imp)
    ensures var c := CrawlFrom(lists, imp, url, num, d, total, visited);
      && |c.db.entreprises| - |d.entreprises| == c.total - total
      && (Consistent(d) ==> Consistent(c.db))
    decreases MaxPagesPerActivity + 1 - num
  {
    if Truthy(url) && num <= MaxPagesPerActivity && url !in visited {
      CrawlPageCounts(lists, imp, url, num, d, total, visited);
      var page := CrawlPage(lists, imp, url, num, d, total, visited);
      if page.More? {
        CrawlCounts(lists, imp, page.next, num + 1, page.c.db, page.c.total, page.c.visited);
        assert CrawlFrom(lists, imp, url, num, d, total, visited)
            == CrawlFrom(lists, imp, page.next, num + 1, page.c.db, page.c.total, page.c.visited);
      }
    }
  }

  /** `importActivity` from the first page: at most ten pages, each fetched
      once, and a total that counts exactly the companies added. */
  function ActivityCrawl(w: Web, act: Activity, d: Db): Crawl {
    CrawlFrom(w.list, Importer(w, act.code), act.url, 1, d, 0, [])
  }

  lemma CrawlBounded(w: Web, act: Activity, d: Db)
    ensures var c := ActivityCrawl(w, act, d);
      && |c.visited| <= MaxPagesPerActivity && NoRepeats(c.visited)
      && |c.db.entreprises| == |d.entreprises| + c.total
      && (Consistent(d) ==> Consistent(c.db))
  {
    ImporterCounts(w, act.code);
    CrawlVisits(w.list, Importer(w, act.code), act.url, 1, d, 0, []);
    CrawlNoRepeats(w.list, Importer(w, act.code), act.url, 1, d, 0, []);
    CrawlCounts(w.list, Importer(w, act.code), act.url, 1, d, 0, []);
  }

  // ---------------------------------------------------------------- import

  /** One more activity, crawled from its first page. */
  function ActivityStep(w: Web, t: Tally, act: Activity): Tally {
    var c := ActivityCrawl(w, act, t.db);
    Tally(c.db, t.count + c.total)
  }

  /** The activities of one department, one crawl after the other. */
  function ActivitiesEffect(w: Web, d: Db, acts: seq<Activity>): Tally {
    if acts == [] then Tally(d, 0)
    else ActivityStep(w, ActivitiesEffect(w, d, acts[..|acts| - 1]), acts[|acts| - 1])
  }

  lemma ActivitiesEffectSnoc(w: Web, d: Db, acts: seq<Activity>, i: nat)
    requires i < |acts|
    ensures ActivitiesEffect(w, d, acts[..i + 1]) == ActivityStep(w, ActivitiesEffect(w, d, acts[..i]), acts[i])
  {
    assert acts[..i + 1][..i] == acts[..i];
  }

  /** One more department entry: its activities, or nothing when its code
      cannot be resolved. */
  function EntryStep(w: Web, t: Tally, e: DeptEntry): Tally {
    match EntryCode(w, e)
    case None => t
    case Some(code) =>
      var t2 := ActivitiesEffect(w, t.db, Activities(w, code));
      Tally(t2.db, t.count + t2.count)
  }

  /** The departments of the walk, each with the activities its page lists. */
  function DeptsEffect(w: Web, d: Db, es: seq<DeptEntry>): Tally {
    if es == [] then Tally(d, 0)
    else EntryStep(w, DeptsEffect(w, d, es[..|es| - 1]), es[|es| - 1])
  }

  lemma DeptsEffectSnoc(w: Web, d: Db, es: seq<DeptEntry>, i: nat)
    requires i < |es|
    ensures DeptsEffect(w, d, es[..i + 1]) == EntryStep(w, DeptsEffect(w, d, es[..i]), es[i])
  {
    assert es[..i + 1][..i] == es[..i];
  }

  /** `import`: what the crawl of a keyword does to the store, and the
      total it returns. */
  function ImportEffect(w: Web, d: Db, keyword: string): Tally {
    DeptsEffect(w, d, Entries(w, keyword))
  }

  lemma {:induction false} ActivitiesEffectCounts(w: Web, d: Db, acts: seq<Activity>)
    ensures var t := ActivitiesEffect(w, d, acts);
      |t.db.entreprises| == |d.entreprises| + t.count && (Consistent(d) ==> Consistent(t.db))
  {
    if acts != [] {
      ActivitiesEffectCounts(w, d, acts[..|acts| - 1]);
      var t := ActivitiesEffect(w, d, acts[..|acts| - 1]);
      var last := acts[|acts| - 1];
      CrawlBounded(w, last, t.db);
    }
  }

  lemma {:induction false} DeptsEffectCounts(w: Web, d: Db, es: seq<DeptEntry>)
    ensures var t := DeptsEffect(w, d, es);
      |t.db.entreprises| == |d.entreprises| + t.count && (Consistent(d) ==> Consistent(t.db))
  {
    if es != [] {
      DeptsEffectCounts(w, d, es[..|es| - 1]);
      var t := DeptsEffect(w, d, es[..|es| - 1]);
      var code := EntryCode(w, es[|es| - 1]);
      if code.Some? {
        ActivitiesEffectCounts(w, t.db, Activities(w, code.value));
      }
    }
  }

  /** The total `import` returns is the number of companies it added, and
      the store's unique keys stay unique. */
  lemma ImportCounts(w: Web, d: Db, keyword: string)
    ensures var t := ImportEffect(w, d, keyword);
      |t.db.entreprises| == |d.entreprises| + t.count && (Consistent(d) ==> Consistent(t.db))
  {
    DeptsEffectCounts(w, d, Entries(w, keyword));
  }

  /** A numeric keyword of at most three characters imports that one
      department's activities, or nothing when it is not listed. */
  lemma ImportOneDepartement(w: Web, d: Db, keyword: string)
    requires IsDigitString(keyword) && |keyword| <= 3
    ensures ImportEffect(w, d, keyword) ==
      if FindDeptUrl(w, keyword).Some? then ActivitiesEffect(w, d, Activities(w, keyword)) else Tally(d, 0)
  {
    var es := Entries(w, keyword);
    assert es == [Code(keyword)];
    assert es[..0] == [];
    assert DeptsEffect(w, d, es) == EntryStep(w, Tally(d, 0), Code(keyword));
  }

  // ---------------------------------------------------------------- methods

  /** The address step on the store. */
  method AddRegistryAddress(db: EntityStore, geo: Geocoder, eid: nat, rows: seq<Row>)
    requires db.Valid()
    modifies db`adresses
    ensures db.Valid()
    ensures db.Snapshot() == WithRegistryAddress(geo, old(db.Snapshot()), eid, rows)
  {
    var seat := RegistrySeat(geo, rows);
    if seat.Some? {
      db.InsertAdresse(eid, seat.value);
    }
  }

  /** The activity step on the store. */
  method AddRegistryActivity(db: EntityStore, eid: nat, rows: seq<Row>, activityCode: string)
    requires db.Valid()
    modifies db`activites, db`liens
    ensures db.Valid()
    ensures db.Snapshot() == WithRegistryActivity(old(db.Snapshot()), eid, rows, activityCode)
  {
    var activityLabel := RegistryLabel(rows, activityCode);
    var activiteId := db.GetOrCreateActivite(activityLabel, Some(activityCode));
    db.AssociateActivite(eid, activiteId);
  }

  /** `importEntreprise` */
  method ImportEntreprise(db: EntityStore, w: Web, link: CompanyLink, activityCode: string) returns (imported: bool)
    requires db.Valid()
    modifies db`entreprises, db`adresses, db`activites, db`liens
    ensures db.Valid()
    ensures Outcome(db.Snapshot(), imported) == EntrepriseEffect(w, old(db.Snapshot()), link, activityCode)
  {
    var entrepriseId := db.EntrepriseExistsBySiret(link.siren);
    if entrepriseId.Some? {
      return false;
    }
    var response := w.company(link.url);
    if response.Thrown? || response.status != 200 {
      return false;
    }
    var p := response.page;
    var nom := Trim(p.name);
    if !Truthy(nom) {
      return false;
    }
    var eid := db.InsertEntreprise(RegistryData(nom, p, link.siren, activityCode));
    AddRegistryAddress(db, w.geocode, eid, p.rows);
    AddRegistryActivity(db, eid, p.rows, activityCode);
    imported := true;
  }

  /** The links of one list page. */
  method ImportLinks(db: EntityStore, w: Web, links: seq<CompanyLink>, activityCode: string) returns (pageImported: nat)
    requires db.Valid()
    modifies db`entreprises, db`adresses, db`activites, db`liens
    ensures db.Valid()
    ensures Tally(db.Snapshot(), pageImported) == LinksEffect(w, old(db.Snapshot()), links, activityCode)
  {
    ghost var d0 := db.Snapshot();
    pageImported := 0;
    for i := 0 to |links|
      invariant db.Valid()
      invariant Tally(db.Snapshot(), pageImported) == LinksEffect(w, d0, links[..i], activityCode)
    {
      LinksEffectSnoc(w, d0, links, i, activityCode);
      var imported := ImportEntreprise(db, w, links[i], activityCode);
      if imported {
        pageImported := pageImported + 1;
      }
    }
    assert links[..|links|] == links;
  }

  /** The body of `importActivity`'s loop for a URL not fetched yet:
      record the URL, fetch the page, import its links, and say whether
      the loop goes on and with which URL. */
  method ImportPage(db: EntityStore, w: Web, pageUrl: string, pageNum: nat, activityCode: string,
                    totalImported: nat, processedUrls: seq<string>)
    returns (more: bool, nextUrl: string, total: nat, processed: seq<string>)
    requires db.Valid()
    modifies db`entreprises, db`adresses, db`activites, db`liens
    ensures db.Valid()
    ensures var page := CrawlPage(w.list, Importer(w, activityCode), pageUrl, pageNum,
                                  old(db.Snapshot()), totalImported, processedUrls);
      page.c == Crawl(db.Snapshot(), total, processed)
      && (more <==> page.More?) && (more ==> nextUrl == page.next)
  {
    ghost var d := db.Snapshot();
    more, nextUrl, total, processed := false, "", totalImported, processedUrls + [pageUrl];
    var response := w.list(pageUrl);
    if response.Thrown? || response.status != 200 {
      return;
    }
    var links := CompanyLinks(response.page.links);
    var pageImported := ImportLinks(db, w, links, activityCode);
    assert Importer(w, activityCode)(d, links) == Tally(db.Snapshot(), pageImported);
    total := total + pageImported;
    if pageImported == 0 && pageNum > 1 {
      return;
    }
    var nextPageUrl := NextPageUrl(response.page.pagination, pageNum);
    if nextPageUrl.None? {
      return;
    }
    more, nextUrl := true, nextPageUrl.value;
  }

  /** `importActivity` */
  method ImportActivity(db: EntityStore, w: Web, activityUrl: string, activityCode: string)
    returns (totalImported: nat, processedUrls: seq<string>)
    requires db.Valid()
    modifies db`entreprises, db`adresses, db`activites, db`liens
    ensures db.Valid()
    ensures Crawl(db.Snapshot(), totalImported, processedUrls)
         == ActivityCrawl(w, Activity(activityCode, activityUrl), old(db.Snapshot()))
  {
    ghost var imp := Importer(w, activityCode);
    ghost var goal := CrawlFrom(w.list, imp, activityUrl, 1, db.Snapshot(), 0, []);
    totalImported, processedUrls := 0, [];
    var pageUrl, pageNum: nat := activityUrl, 1;
    while Truthy(pageUrl) && pageNum <= MaxPagesPerActivity
      invariant db.Valid()
      invariant goal == CrawlFrom(w.list, imp, pageUrl, pageNum, db.Snapshot(), totalImported, processedUrls)
      decreases MaxPagesPerActivity + 1 - pageNum
    {
      if pageUrl in processedUrls {
        break;
      }
      var more, nextUrl;
      more, nextUrl, totalImported, processedUrls := ImportPage(db, w, pageUrl, pageNum, activityCode, totalImported, processedUrls);
      if !more {
        break;
      }
      pageUrl := nextUrl;
      pageNum := pageNum + 1;
    }
  }

  /** The activities of one department. */
  method ImportActivities(db: EntityStore, w: Web, activities: seq<Activity>) returns (deptImported: nat)
    requires db.Valid()
    modifies db`entreprises, db`adresses, db`activites, db`liens
    ensures db.Valid()
    ensures Tally(db.Snapshot(), deptImported) == ActivitiesEffect(w, old(db.Snapshot()), activities)
  {
    ghost var d0 := db.Snapshot();
    deptImported := 0;
    for i := 0 to |activities|
      invariant db.Valid()
      invariant Tally(db.Snapshot(), deptImported) == ActivitiesEffect(w, d0, activities[..i])
    {
      ActivitiesEffectSnoc(w, d0, activities, i);
      var activityImported, _ := ImportActivity(db, w, activities[i].url, activities[i].code);
      deptImported := deptImported + activityImported;
    }
    assert activities[..|activities|] == activities;
  }

  /** `import` */
  method Import(db: EntityStore, w: Web, keyword: string) returns (totalImported: nat)
    requires db.Valid()
    modifies db`entreprises, db`adresses, db`activites, db`liens
    ensures db.Valid()
    ensures Tally(db.Snapshot(), totalImported) == ImportEffect(w, old(db.Snapshot()), keyword)
  {
    ghost var d0 := db.Snapshot();
    var departements := Entries(w, keyword);
    totalImported := 0;
    for i := 0 to |departements|
      invariant db.Valid()
      invariant Tally(db.Snapshot(), totalImported) == DeptsEffect(w, d0, departements[..i])
    {
      DeptsEffectSnoc(w, d0, departements, i);
      var deptCode: string;
      match departements[i] {
        case Code(c) =>
          var deptUrl := FindDeptUrl(w, c);
          if deptUrl.None? {
            continue;
          }
          deptCode := c;
        case Listed(dept) =>
          deptCode := dept.code;
      }
      var activities := Activities(w, deptCode);
      var deptImported := ImportActivities(db, w, activities);
      totalImported := totalImported + deptImported;
    }
    assert departements[..|departements|] == departements;
  }
}

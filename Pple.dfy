/** `PpleImporter::import`: the same page loop as PagesJaunes with PPLE's
    anti-bot markers and an empty page always ending the run, and what it
    stores for each `.search-result-item` node, e-mail and coordinates
    included. */
module Pple {
  import opened Php
  import opened Entities
  import opened Store
  import opened AddressParse
  import opened Listing
  import opened Scraping

  /** One result node: `.company-name` text, `data-company-id` attribute
      (absent: `None`), the id `uniqid('pple_')` would generate,
      `.company-address` text, `data-lat` and `data-lng` attributes,
      `.company-phone`, `.company-email` texts, `.company-website` href and
      `.company-categories` text; a missing element gives "". */
  datatype Node = Node(
    name: string,
    idAttr: Option<string>,
    generatedId: string,
    address: Line,
    lat: Option<Coord>,
    lng: Option<Coord>,
    phone: string,
    email: string,
    website: string,
    categories: string)

  /** What the importer takes from a node: the trimmed name, the company
      id or else a generated one, the address split by the comma pattern
      or else the blank one, the coordinates, the phone, the e-mail, the
      website and the categories. */
  function CardOf(n: Node): Card {
    Card(Trim(n.name), n.idAttr.GetOr(n.generatedId), n.address, ParsePple(n.address),
         n.lat, n.lng, n.phone, n.email, n.website, n.categories)
  }

  /** The import: the shared page loop with the PPLE anti-bot markers, an
      empty page ending the run, and every node of a harvested page
      imported under the source 'pple'. */
  method Import(db: EntityStore, fetch: nat -> Fetch<Node>) returns (total: nat, ghost trace: seq<Visit>)
    requires db.Valid()
    modifies db
    ensures db.Valid()
    ensures trace == Run(PpleSite, fetch)
    ensures db.Snapshot() == CardsEffect(old(db.Snapshot()), "pple", Cards(CardOf, Harvest(fetch, trace)))
    ensures total == |db.entreprises| - |old(db.entreprises)|
  {
    total, trace := ImportPages(db, PpleSite, fetch, CardOf);
  }
}

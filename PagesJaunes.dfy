/** `PagesJaunesImporter::import`: the page loop over the search results
    and what it stores for each `.bi-pro` result node. Each fetch is
    whatever the oracle `fetch` returns for that position in the run, and a
    node comes with the texts and attributes the crawler extracts from it. */
module PagesJaunes {
  import opened Php
  import opened Entities
  import opened Store
  import opened AddressParse
  import opened Listing
  import opened Scraping

  /** One result node: `.denomination-links` text, `data-idetablissement`
      attribute (absent: `None`), the id `uniqid()` would generate,
      `.address` text, `.tel` text, `.site-internet a` href and `.activite`
      text; a missing element gives "". */
  datatype Node = Node(
    name: string,
    idAttr: Option<string>,
    generatedId: string,
    address: Line,
    tel: string,
    siteHref: string,
    activites: string)

  /** What the importer takes from a node: the trimmed name, the
      establishment id or else a generated one, the address split by the
      lazy pattern, the phone, the website and the categories. PagesJaunes
      nodes carry neither an e-mail nor coordinates. */
  function CardOf(n: Node): Card {
    Card(Trim(n.name), n.idAttr.GetOr(n.generatedId), n.address, ParsePagesJaunes(n.address),
         None, None, n.tel, "", n.siteHref, n.activites)
  }

  /** The import: the shared page loop with the PagesJaunes anti-bot
      markers, an empty first page ending the run, and every node of a
      harvested page imported under the source 'pagesjaunes'. */
  method Import(db: EntityStore, fetch: nat -> Fetch<Node>) returns (total: nat, ghost trace: seq<Visit>)
    requires db.Valid()
    modifies db
    ensures db.Valid()
    ensures trace == Run(PagesJaunesSite, fetch)
    ensures db.Snapshot() == CardsEffect(old(db.Snapshot()), "pagesjaunes", Cards(CardOf, Harvest(fetch, trace)))
    ensures total == |db.entreprises| - |old(db.entreprises)|
  {
    total, trace := ImportPages(db, PagesJaunesSite, fetch, CardOf);
  }
}

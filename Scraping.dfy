/** What the two listing scrapers (PagesJaunes and PPLE) do alike with one
    result node: the company row a listing adds when its (name, source) pair
    is new, and the activities a comma-separated category list links to the
    company. Each comes as a specification over the tables and, for the
    category list, as the loop the scrapers run, proved against it. */
module Scraping {
  import opened Php
  import opened Tables
  import opened Entities
  import opened ActivityRule
  import opened Store
  import opened AddressParse
  import opened Listing

  // ------------------------------------------------------------ activity lists

  /** The pieces of a list that survive: each piece trimmed, the falsy ones
      ("" and "0") dropped, in order. */
  function KeepLabels(pieces: seq<string>): (ls: seq<string>)
    ensures |ls| <= |pieces|
  {
    if pieces == [] then []
    else
      var p := pieces[|pieces| - 1];
      KeepLabels(pieces[..|pieces| - 1]) + (if Truthy(Trim(p)) then [Trim(p)] else [])
  }

  /** The kept labels are the trimmed pieces that are not falsy. */
  lemma {:induction false} KeepLabelsExact(pieces: seq<string>)
    ensures var ls := KeepLabels(pieces);
      && (forall l :: l in ls ==> Truthy(l) && exists p :: p in pieces && l == Trim(p))
      && (forall p :: p in pieces && Truthy(Trim(p)) ==> Trim(p) in ls)
  {
    if pieces != [] {
      var front := pieces[..|pieces| - 1];
      KeepLabelsExact(front);
      assert pieces == front + [pieces[|pieces| - 1]];
    }
  }

  /** A trimmed piece holds no character its piece did not. */
  lemma TrimKeeps(p: string, c: char)
    requires c !in p
    ensures c !in Trim(p)
  {
    var i := |p| - |TrimLeft(p)|;
    assert Trim(p) == p[i..i + |Trim(p)|];
  }

  /** The activities a category text names: nothing when the text itself is
      falsy, else every comma-separated piece that is not blank once
      trimmed. */
  function ActivityLabels(text: string): seq<string> {
    if Truthy(text) then KeepLabels(Explode(text, ',')) else []
  }

  /** The labels are exactly the pieces between commas that are not blank
      once trimmed; none is falsy and none holds a comma. The falsy texts
      need no guard: they are blank pieces themselves. */
  lemma ActivityLabelsExact(text: string)
    ensures var ls := ActivityLabels(text);
      && (forall l :: l in ls ==> Truthy(l) && ',' !in l)
      && (forall l :: l in ls ==> exists p :: p in Explode(text, ',') && l == Trim(p))
      && (forall p :: p in Explode(text, ',') && Truthy(Trim(p)) ==> Trim(p) in ls)
  {
    var pieces := Explode(text, ',');
    KeepLabelsExact(pieces);
    forall l | l in KeepLabels(pieces) ensures ',' !in l {
      var p :| p in pieces && l == Trim(p);
      TrimKeeps(p, ',');
    }
    if !Truthy(text) {
      assert pieces == [text] by {
        if text == "0" {
          assert Explode(text[1..], ',') == [""];
        }
      }
      assert Trim(text) == text by {
        TrimLeftOfClean(text);
      }
    }
  }

  /** The activities table, the links and the activity id each label
      resolved to, after linking some labels to a company. */
  datatype Linking = Linking(activites: seq<Activite>, liens: seq<Lien>, ids: seq<nat>)

  /** One label: `getOrCreateActivite(label)`, then the link of the company
      to the id it returns. */
  function LinkOne(activites: seq<Activite>, liens: seq<Lien>, entrepriseId: nat, libelle: string): (r: Linking)
    ensures |r.ids| == 1
  {
    var res := Resolve(activites, libelle, None);
    Linking(res.table, InsertIgnore(liens, Lien(entrepriseId, res.id), LienClash), [res.id])
  }

  /** One label is linked through the id it resolves to; the link table
      grows by at most that link and stays distinct; no stored label and no
      filled code changes. */
  lemma LinkOneProps(activites: seq<Activite>, liens: seq<Lien>, entrepriseId: nat, libelle: string)
    ensures var r := LinkOne(activites, liens, entrepriseId, libelle);
      && 1 <= r.ids[0] <= |r.activites| && Lien(entrepriseId, r.ids[0]) in r.liens
      && |activites| <= |r.activites| <= |activites| + 1
      && |liens| <= |r.liens| <= |liens| + 1 && r.liens[..|liens|] == liens
      && (|r.liens| > |liens| ==> r.liens[|liens|].entrepriseId == entrepriseId)
      && (Distinct(liens, LienClash) ==> Distinct(r.liens, LienClash))
      && (forall j :: 0 <= j < |activites| ==> r.activites[j].libelle == activites[j].libelle)
      && (forall j :: 0 <= j < |activites| && Filled(activites[j].code) ==> r.activites[j] == activites[j])
  {
    var res := Resolve(activites, libelle, None);
    ResolveKeeps(activites, libelle, None);
    LinkIgnored(liens, Lien(entrepriseId, res.id));
  }

  /** `INSERT IGNORE` of a link: the link is there afterwards, and the
      links stay distinct. */
  lemma LinkIgnored(liens: seq<Lien>, link: Lien)
    ensures link in InsertIgnore(liens, link, LienClash)
    ensures Distinct(liens, LienClash) ==> Distinct(InsertIgnore(liens, link, LienClash), LienClash)
  {
    var liens' := InsertIgnore(liens, link, LienClash);
    if Distinct(liens, LienClash) {
      InsertIgnoreDistinct(liens, link, LienClash);
    }
    if AnyClash(liens, link, LienClash) {
      var j :| 0 <= j < |liens| && LienClash(liens[j], link);
    } else {
      assert liens'[|liens|] == link;
    }
  }

  /** Each label in turn goes through `getOrCreateActivite` (with no code)
      and the activity it resolves to is linked to the company. */
  function Linked(activites: seq<Activite>, liens: seq<Lien>, entrepriseId: nat, labels: seq<string>): (r: Linking)
    ensures |r.ids| == |labels|
  {
    if labels == [] then Linking(activites, liens, [])
    else
      var front := Linked(activites, liens, entrepriseId, labels[..|labels| - 1]);
      var last := LinkOne(front.activites, front.liens, entrepriseId, labels[|labels| - 1]);
      Linking(last.activites, last.liens, front.ids + last.ids)
  }

  /** Every label ends up linked to the company through the id it resolved
      to; the links only grow, only with links of this company, and stay
      distinct; stored labels and filled codes are never rewritten. */
  lemma {:induction false} LinkedProps(activites: seq<Activite>, liens: seq<Lien>, entrepriseId: nat, labels: seq<string>)
    ensures var r := Linked(activites, liens, entrepriseId, labels);
      && |activites| <= |r.activites| <= |activites| + |labels|
      && (forall i :: 0 <= i < |labels| ==> 1 <= r.ids[i] <= |r.activites|)
      && (forall i :: 0 <= i < |labels| ==> Lien(entrepriseId, r.ids[i]) in r.liens)
      && |liens| <= |r.liens| <= |liens| + |labels| && r.liens[..|liens|] == liens
      && (forall j :: |liens| <= j < |r.liens| ==> r.liens[j].entrepriseId == entrepriseId)
      && (Distinct(liens, LienClash) ==> Distinct(r.liens, LienClash))
      && (forall j :: 0 <= j < |activites| ==> r.activites[j].libelle == activites[j].libelle)
      && (forall j :: 0 <= j < |activites| && Filled(activites[j].code) ==> r.activites[j] == activites[j])
    decreases |labels|
  {
    if labels != [] {
      var front := Linked(activites, liens, entrepriseId, labels[..|labels| - 1]);
      LinkedProps(activites, liens, entrepriseId, labels[..|labels| - 1]);
      LinkOneProps(front.activites, front.liens, entrepriseId, labels[|labels| - 1]);
      LinkedStep(activites, liens, entrepriseId, labels, front,
                 LinkOne(front.activites, front.liens, entrepriseId, labels[|labels| - 1]));
    }
  }

  /** The inductive step of `Linked`'s contract: one more label keeps it. */
  lemma LinkedStep(activites: seq<Activite>, liens: seq<Lien>, entrepriseId: nat, labels: seq<string>,
                   front: Linking, last: Linking)
    requires labels != []
    requires |front.ids| == |labels| - 1
    requires |activites| <= |front.activites| <= |activites| + |labels| - 1
    requires forall i :: 0 <= i < |labels| - 1 ==> 1 <= front.ids[i] <= |front.activites|
    requires forall i :: 0 <= i < |labels| - 1 ==> Lien(entrepriseId, front.ids[i]) in front.liens
    requires |liens| <= |front.liens| <= |liens| + |labels| - 1 && front.liens[..|liens|] == liens
    requires forall j :: |liens| <= j < |front.liens| ==> front.liens[j].entrepriseId == entrepriseId
    requires Distinct(liens, LienClash) ==> Distinct(front.liens, LienClash)
    requires forall j :: 0 <= j < |activites| ==> front.activites[j].libelle == activites[j].libelle
    requires forall j :: 0 <= j < |activites| && Filled(activites[j].code) ==> front.activites[j] == activites[j]
    requires |last.ids| == 1 && 1 <= last.ids[0] <= |last.activites| && Lien(entrepriseId, last.ids[0]) in last.liens
    requires |front.activites| <= |last.activites| <= |front.activites| + 1
    requires |front.liens| <= |last.liens| <= |front.liens| + 1 && last.liens[..|front.liens|] == front.liens
    requires |last.liens| > |front.liens| ==> last.liens[|front.liens|].entrepriseId == entrepriseId
    requires Distinct(front.liens, LienClash) ==> Distinct(last.liens, LienClash)
    requires forall j :: 0 <= j < |front.activites| ==> last.activites[j].libelle == front.activites[j].libelle
    requires forall j :: 0 <= j < |front.activites| && Filled(front.activites[j].code) ==> last.activites[j] == front.activites[j]
    ensures var r := Linking(last.activites, last.liens, front.ids + last.ids);
      (|activites| <= |r.activites| <= |activites| + |labels|)
      && (forall i :: 0 <= i < |labels| ==> 1 <= r.ids[i] <= |r.activites|)
      && (forall i :: 0 <= i < |labels| ==> Lien(entrepriseId, r.ids[i]) in r.liens)
      && (|liens| <= |r.liens| <= |liens| + |labels| && r.liens[..|liens|] == liens)
      && (forall j :: |liens| <= j < |r.liens| ==> r.liens[j].entrepriseId == entrepriseId)
      && (Distinct(liens, LienClash) ==> Distinct(r.liens, LienClash))
      && (forall j :: 0 <= j < |activites| ==> r.activites[j].libelle == activites[j].libelle)
      && (forall j :: 0 <= j < |activites| && Filled(activites[j].code) ==> r.activites[j] == activites[j])
  {
    var r := Linking(last.activites, last.liens, front.ids + last.ids);
    forall i | 0 <= i < |labels| ensures 1 <= r.ids[i] <= |r.activites| && Lien(entrepriseId, r.ids[i]) in r.liens {
      if i < |labels| - 1 {
        assert r.ids[i] == front.ids[i];
        var x := Lien(entrepriseId, front.ids[i]);
        var k :| 0 <= k < |front.liens| && front.liens[k] == x;
        assert r.liens[..|front.liens|] == front.liens;
        assert r.liens[k] == x;
      }
    }
    assert r.liens[..|liens|] == front.liens[..|liens|] by {
      assert r.liens[..|front.liens|] == front.liens;
    }
    forall j | |liens| <= j < |r.liens| ensures r.liens[j].entrepriseId == entrepriseId {
      if j < |front.liens| {
        assert r.liens[..|front.liens|] == front.liens;
        assert r.liens[j] == front.liens[j];
      }
    }
  }

  /** One category: `getOrCreateActivite`, then `associateActivite`. */
  method LinkLabel(db: EntityStore, entrepriseId: nat, libelle: string)
    requires db.Valid()
    modifies db`activites, db`liens
    ensures db.Valid()
    ensures var r := LinkOne(old(db.activites), old(db.liens), entrepriseId, libelle);
      db.activites == r.activites && db.liens == r.liens
  {
    var activiteId := db.GetOrCreateActivite(libelle, None);
    db.AssociateActivite(entrepriseId, activiteId);
  }

  /** `KeepLabels` on one more piece. */
  lemma KeepLabelsSnoc(pieces: seq<string>, i: nat)
    requires i < |pieces|
    ensures KeepLabels(pieces[..i + 1])
      == KeepLabels(pieces[..i]) + (if Truthy(Trim(pieces[i])) then [Trim(pieces[i])] else [])
  {
    assert pieces[..i + 1][..i] == pieces[..i];
  }

  /** `Linked` on one more label. */
  lemma LinkedSnoc(activites: seq<Activite>, liens: seq<Lien>, entrepriseId: nat, labels: seq<string>, l: string)
    ensures var front := Linked(activites, liens, entrepriseId, labels);
      var last := LinkOne(front.activites, front.liens, entrepriseId, l);
      var r := Linked(activites, liens, entrepriseId, labels + [l]);
      r.activites == last.activites && r.liens == last.liens
  {
    assert (labels + [l])[..|labels|] == labels;
  }

  /** One more piece links its trimmed text when that is truthy, and
      changes nothing otherwise. */
  lemma LinkedKeptSnoc(activites: seq<Activite>, liens: seq<Lien>, entrepriseId: nat, pieces: seq<string>, i: nat)
    requires i < |pieces|
    ensures var front := Linked(activites, liens, entrepriseId, KeepLabels(pieces[..i]));
      var r := Linked(activites, liens, entrepriseId, KeepLabels(pieces[..i + 1]));
      if Truthy(Trim(pieces[i])) then
        var last := LinkOne(front.activites, front.liens, entrepriseId, Trim(pieces[i]));
        r.activites == last.activites && r.liens == last.liens
      else r == front
  {
    var kept, t := KeepLabels(pieces[..i]), Trim(pieces[i]);
    KeepLabelsSnoc(pieces, i);
    if Truthy(t) {
      assert KeepLabels(pieces[..i + 1]) == kept + [t];
      LinkedSnoc(activites, liens, entrepriseId, kept, t);
    } else {
      assert KeepLabels(pieces[..i + 1]) == kept;
    }
  }

  /** The category loop of both scrapers: for each comma-separated piece
      that is not blank once trimmed, resolve the activity and link it. */
  method LinkPieces(db: EntityStore, entrepriseId: nat, pieces: seq<string>)
    requires db.Valid()
    modifies db`activites, db`liens
    ensures db.Valid()
    ensures var r := Linked(old(db.activites), old(db.liens), entrepriseId, KeepLabels(pieces));
      db.activites == r.activites && db.liens == r.liens
  {
    ghost var acts0, liens0 := db.activites, db.liens;
    for i := 0 to |pieces|
      invariant db.Valid()
      invariant var r := Linked(acts0, liens0, entrepriseId, KeepLabels(pieces[..i]));
        db.activites == r.activites && db.liens == r.liens
    {
      LinkedKeptSnoc(acts0, liens0, entrepriseId, pieces, i);
      var activite := Trim(pieces[i]);
      if Truthy(activite) {
        LinkLabel(db, entrepriseId, activite);
      }
    }
    assert pieces[..|pieces|] == pieces;
  }

  /** The category text of a node: nothing when it is falsy, else the loop
      over its comma-separated pieces. */
  method LinkActivities(db: EntityStore, entrepriseId: nat, text: string)
    requires db.Valid()
    modifies db`activites, db`liens
    ensures db.Valid()
    ensures var r := Linked(old(db.activites), old(db.liens), entrepriseId, ActivityLabels(text));
      db.activites == r.activites && db.liens == r.liens
  {
    if Truthy(text) {
      LinkPieces(db, entrepriseId, Explode(text, ','));
    }
  }

  // ------------------------------------------------------------ listed companies

  /** What a node gives the company insert: its trimmed name and its source id. */
  datatype Entry = Entry(nom: string, sourceId: string)

  /** A row with this name from this source exists. */
  predicate Listed(rows: seq<Entreprise>, nom: string, source: string) {
    exists j :: 0 <= j < |rows| && rows[j].nom == nom && rows[j].source == source
  }

  /** No two rows from `source` share a name. */
  predicate UniqueNames(rows: seq<Entreprise>, source: string) {
    forall i, j :: 0 <= i < j < |rows| && rows[i].source == source && rows[j].source == source ==>
      rows[i].nom != rows[j].nom
  }

  /** One node: a blank name adds nothing; a name not yet listed from this
      source adds a row with only `nom`, `source` and `source_id` set. */
  function AddListing(rows: seq<Entreprise>, source: string, e: Entry): (r: seq<Entreprise>)
    ensures Truthy(e.nom) ==> Listed(r, e.nom, source)
    ensures r == rows || (Truthy(e.nom) && !Listed(rows, e.nom, source)
      && r == rows + [EntrepriseRow(ListedEntreprise(e.nom, source, e.sourceId))])
    ensures UniqueNames(rows, source) ==> UniqueNames(r, source)
  {
    if Truthy(e.nom) && !Listed(rows, e.nom, source) then
      var r := rows + [EntrepriseRow(ListedEntreprise(e.nom, source, e.sourceId))];
      assert r[|rows|].nom == e.nom;
      r
    else rows
  }

  /** The nodes of a page, or of several, one after the other. */
  function AddListings(rows: seq<Entreprise>, source: string, es: seq<Entry>): (r: seq<Entreprise>)
    ensures |rows| <= |r| <= |rows| + |es| && r[..|rows|] == rows
  {
    if es == [] then rows
    else
      var front := AddListings(rows, source, es[..|es| - 1]);
      var r := AddListing(front, source, es[|es| - 1]);
      assert r[..|rows|] == front[..|rows|];
      r
  }

  /** Every row of `r` past `rows` is a listing from this source with a
      name and the source id of a node bearing that name. */
  ghost predicate AddedFrom(rows: seq<Entreprise>, r: seq<Entreprise>, source: string, es: seq<Entry>) {
    forall j :: |rows| <= j < |r| ==>
      r[j].source == source && Truthy(r[j].nom) && r[j].siret.None?
      && exists e :: e in es && r[j].nom == e.nom && r[j].sourceId == e.sourceId
  }

  /** Every added row comes from a named node of the page. */
  lemma {:induction false} AddListingsSound(rows: seq<Entreprise>, source: string, es: seq<Entry>)
    ensures AddedFrom(rows, AddListings(rows, source, es), source, es)
    decreases |es|
  {
    if es != [] {
      var init, e := es[..|es| - 1], es[|es| - 1];
      var front := AddListings(rows, source, init);
      AddListingsSound(rows, source, init);
      var r := AddListing(front, source, e);
      assert AddListings(rows, source, es) == r;
      forall j | |rows| <= j < |r|
        ensures r[j].source == source && Truthy(r[j].nom) && r[j].siret.None?
          && exists e :: e in es && r[j].nom == e.nom && r[j].sourceId == e.sourceId
      {
        if j < |front| {
          assert r[j] == front[j];
          var e' :| e' in init && front[j].nom == e'.nom && front[j].sourceId == e'.sourceId;
          assert e' in es;
        } else {
          assert r[j] == EntrepriseRow(ListedEntreprise(e.nom, source, e.sourceId));
          assert e in es;
        }
      }
    }
  }

  /** Every node with a name is listed afterwards, and no name is listed
      twice from the source. */
  lemma {:induction false} AddListingsComplete(rows: seq<Entreprise>, source: string, es: seq<Entry>)
    ensures var r := AddListings(rows, source, es);
      && (forall e :: e in es && Truthy(e.nom) ==> Listed(r, e.nom, source))
      && (UniqueNames(rows, source) ==> UniqueNames(r, source))
    decreases |es|
  {
    if es != [] {
      var init, e := es[..|es| - 1], es[|es| - 1];
      var front := AddListings(rows, source, init);
      AddListingsComplete(rows, source, init);
      var r := AddListing(front, source, e);
      assert AddListings(rows, source, es) == r;
      forall e' | e' in es && Truthy(e'.nom) ensures Listed(r, e'.nom, source) {
        if e' != e {
          assert e' in init;
          var j :| 0 <= j < |front| && front[j].nom == e'.nom && front[j].source == source;
          assert r[j] == front[j];
        }
      }
    }
  }

  lemma {:induction false} AddListingsAppend(rows: seq<Entreprise>, source: string, a: seq<Entry>, b: seq<Entry>)
    ensures AddListings(rows, source, a + b) == AddListings(AddListings(rows, source, a), source, b)
    decreases |b|
  {
    if b == [] {
      assert a + b == a;
    } else {
      AddListingsAppend(rows, source, a, b[..|b| - 1]);
      assert (a + b)[..|a + b| - 1] == a + b[..|b| - 1];
    }
  }

  /** Listing the same nodes again adds nothing: a rerun of a scraper over
      the same pages inserts no company twice. */
  lemma AddListingsAgain(rows: seq<Entreprise>, source: string, es: seq<Entry>)
    ensures var r := AddListings(rows, source, es);
      AddListings(r, source, es) == r
  {
    AddListingsComplete(rows, source, es);
    AddListingsPresent(AddListings(rows, source, es), source, es);
  }

  /** Listings whose names are all already there add nothing. */
  lemma {:induction false} AddListingsPresent(rows: seq<Entreprise>, source: string, es: seq<Entry>)
    requires forall e :: e in es && Truthy(e.nom) ==> Listed(rows, e.nom, source)
    ensures AddListings(rows, source, es) == rows
    decreases |es|
  {
    if es != [] {
      AddListingsPresent(rows, source, es[..|es| - 1]);
    }
  }

  /** A named node's company: the one listed under its name from this
      source, inserted first when there is none. */
  method FindOrInsert(db: EntityStore, e: Entry, source: string) returns (eid: nat, inserted: bool)
    requires Truthy(e.nom)
    modifies db`entreprises
    ensures db.entreprises == AddListing(old(db.entreprises), source, e)
    ensures inserted <==> |db.entreprises| == |old(db.entreprises)| + 1
    ensures ByName(db.entreprises, e.nom, source) == Some(eid)
  {
    var existing := db.EntrepriseExistsByName(e.nom, source);
    if existing.None? {
      eid := db.InsertEntreprise(ListedEntreprise(e.nom, source, e.sourceId));
      inserted := true;
    } else {
      eid := existing.value;
      inserted := false;
    }
  }

  /** `AddListings` over one more node. */
  lemma AddListingsSnoc(rows: seq<Entreprise>, source: string, es: seq<Entry>, e: Entry)
    ensures AddListings(rows, source, es + [e]) == AddListing(AddListings(rows, source, es), source, e)
  {
    assert (es + [e])[..|es|] == es;
  }

  // ------------------------------------------------------------ one result node

  /** What a listing scraper extracts from one result node: the trimmed
      name, the source id, the address text and what the site's pattern
      makes of it, the `data-lat`/`data-lng` attributes (absent: `None`),
      and the phone, e-mail, website and category texts ("" when the
      element is missing). */
  datatype Card = Card(
    nom: string,
    sourceId: string,
    address: string,
    parsed: Option<Address>,
    lat: Option<Coord>,
    lng: Option<Coord>,
    phone: string,
    email: string,
    site: string,
    categories: string)

  /** The seat row a split address gives. */
  function SeatRow(entrepriseId: nat, a: Address, latitude: Option<Coord>, longitude: Option<Coord>): Adresse {
    AdresseRow(entrepriseId, SiegeData(a.rue, a.codePostal, a.ville, latitude, longitude))
  }

  /** PHP's `$lat && $lng`: both attributes are present and truthy. */
  predicate HasCoordinates(c: Card) {
    Truthy(c.lat.GetOr("")) && Truthy(c.lng.GetOr(""))
  }

  /** The address step: an address text that the site's pattern splits is
      upserted as the seat; when both coordinates are given, every address
      row of the company at that postcode and city then takes them. */
  function WithSeat(d: Db, eid: nat, c: Card): Db {
    if Truthy(c.address) && c.parsed.Some? then
      var a := c.parsed.value;
      var rows := UpsertAdresse(d.adresses, SeatRow(eid, a, None, None));
      if HasCoordinates(c) then d.(adresses := SetCoordinates(rows, eid, a.codePostal, a.ville, c.lat.value, c.lng.value))
      else d.(adresses := rows)
    else d
  }

  /** A contact step: when the extracted `text` is truthy, `valeur` is
      inserted under `kind` unless the contact is already there. */
  function WithContact(d: Db, eid: nat, kind: string, text: string, valeur: string): Db {
    if Truthy(text) then d.(contacts := InsertIgnore(d.contacts, Contact(eid, kind, valeur, None), ContactClash))
    else d
  }

  /** The website step: a truthy href is inserted as the official site
      unless it is already there. */
  function WithSite(d: Db, eid: nat, url: string): Db {
    if Truthy(url) then d.(sitesWeb := InsertIgnore(d.sitesWeb, SiteWeb(eid, url, "site_officiel"), SiteClash))
    else d
  }

  /** The category step: every label of the text is resolved and linked. */
  function WithLabels(d: Db, eid: nat, categories: string): Db {
    var r := Linked(d.activites, d.liens, eid, ActivityLabels(categories));
    d.(activites := r.activites, liens := r.liens)
  }

  /** What a node adds to its company, new or not: the seat address, the
      phone with its whitespace removed, the e-mail, the website and the
      categories, each only when its text is truthy. */
  function Enriched(d: Db, eid: nat, c: Card): Db {
    var d1 := WithSeat(d, eid, c);
    var d2 := WithContact(d1, eid, "telephone", c.phone, StripSpaces(c.phone));
    var d3 := WithContact(d2, eid, "email", c.email, c.email);
    WithLabels(WithSite(d3, eid, c.site), eid, c.categories)
  }

  /** The steps keep the store's unique keys unique. */
  lemma WithSeatConsistent(d: Db, eid: nat, c: Card)
    requires Consistent(d)
    ensures Consistent(WithSeat(d, eid, c))
  {
    if Truthy(c.address) && c.parsed.Some? {
      var a := c.parsed.value;
      var rows := UpsertAdresse(d.adresses, SeatRow(eid, a, None, None));
      UpsertAdresseDistinct(d.adresses, SeatRow(eid, a, None, None));
      if HasCoordinates(c) {
        KeysKeptDistinct(rows, SetCoordinates(rows, eid, a.codePostal, a.ville, c.lat.value, c.lng.value));
      }
    }
  }

  lemma WithContactConsistent(d: Db, eid: nat, kind: string, text: string, valeur: string)
    requires Consistent(d)
    ensures Consistent(WithContact(d, eid, kind, text, valeur))
  {
    InsertIgnoreDistinct(d.contacts, Contact(eid, kind, valeur, None), ContactClash);
  }

  lemma WithSiteConsistent(d: Db, eid: nat, url: string)
    requires Consistent(d)
    ensures Consistent(WithSite(d, eid, url))
  {
    InsertIgnoreDistinct(d.sitesWeb, SiteWeb(eid, url, "site_officiel"), SiteClash);
  }

  lemma WithLabelsConsistent(d: Db, eid: nat, categories: string)
    requires Consistent(d)
    ensures Consistent(WithLabels(d, eid, categories))
  {
    LinkedProps(d.activites, d.liens, eid, ActivityLabels(categories));
  }

  /** Every step of a node keeps the store's unique keys unique. */
  lemma EnrichedConsistent(d: Db, eid: nat, c: Card)
    requires Consistent(d)
    ensures Consistent(Enriched(d, eid, c))
  {
    var d1 := WithSeat(d, eid, c);
    WithSeatConsistent(d, eid, c);
    var d2 := WithContact(d1, eid, "telephone", c.phone, StripSpaces(c.phone));
    WithContactConsistent(d1, eid, "telephone", c.phone, StripSpaces(c.phone));
    var d3 := WithContact(d2, eid, "email", c.email, c.email);
    WithContactConsistent(d2, eid, "email", c.email, c.email);
    WithSiteConsistent(d3, eid, c.site);
    WithLabelsConsistent(WithSite(d3, eid, c.site), eid, c.categories);
  }

  /** A node never touches the company table or the directors. */
  lemma EnrichedKeeps(d: Db, eid: nat, c: Card)
    ensures Enriched(d, eid, c).entreprises == d.entreprises
    ensures Enriched(d, eid, c).dirigeants == d.dirigeants
  {
  }

  function EntryOf(c: Card): Entry {
    Entry(c.nom, c.sourceId)
  }

  /** One node: a falsy name changes nothing; otherwise the company listed
      under (name, source), inserted first when there is none, receives the
      node's details. */
  function CardEffect(d: Db, source: string, c: Card): Db {
    if !Truthy(c.nom) then d
    else
      var rows := AddListing(d.entreprises, source, EntryOf(c));
      Enriched(d.(entreprises := rows), ByName(rows, c.nom, source).value, c)
  }

  /** The nodes of one page, or of several, one after the other. */
  function CardsEffect(d: Db, source: string, cs: seq<Card>): Db {
    if cs == [] then d
    else CardEffect(CardsEffect(d, source, cs[..|cs| - 1]), source, cs[|cs| - 1])
  }

  function Entries(cs: seq<Card>): (es: seq<Entry>)
    ensures |es| == |cs| && forall i :: 0 <= i < |cs| ==> es[i] == EntryOf(cs[i])
  {
    seq(|cs|, i requires 0 <= i < |cs| => EntryOf(cs[i]))
  }

  /** The node's details go to the company already listed under its name:
      an existing company is not inserted again but still receives the
      address, contacts, website and categories. */
  lemma CardOfListedCompany(d: Db, source: string, c: Card)
    requires Truthy(c.nom) && Listed(d.entreprises, c.nom, source)
    ensures CardEffect(d, source, c) == Enriched(d, ByName(d.entreprises, c.nom, source).value, c)
  {
  }

  /** A node adds its listing to the company table and nothing else to it. */
  lemma CardEffectEntreprises(d: Db, source: string, c: Card)
    ensures CardEffect(d, source, c).entreprises == AddListing(d.entreprises, source, EntryOf(c))
  {
    if Truthy(c.nom) {
      var rows := AddListing(d.entreprises, source, EntryOf(c));
      EnrichedKeeps(d.(entreprises := rows), ByName(rows, c.nom, source).value, c);
    }
  }

  /** Only the company table decides which companies exist: over any run
      of nodes it grows exactly as `AddListings` says. */
  lemma {:induction false} CardsEntreprises(d: Db, source: string, cs: seq<Card>)
    ensures CardsEffect(d, source, cs).entreprises == AddListings(d.entreprises, source, Entries(cs))
  {
    if cs != [] {
      var front, c := cs[..|cs| - 1], cs[|cs| - 1];
      var df := CardsEffect(d, source, front);
      CardsEntreprises(d, source, front);
      assert CardsEffect(d, source, cs) == CardEffect(df, source, c);
      CardEffectEntreprises(df, source, c);
      EntriesSnoc(cs);
      AddListingsSnoc(d.entreprises, source, Entries(front), EntryOf(c));
    }
  }

  lemma EntriesSnoc(cs: seq<Card>)
    requires cs != []
    ensures Entries(cs) == Entries(cs[..|cs| - 1]) + [EntryOf(cs[|cs| - 1])]
  {
  }

  /** Re-importing the same nodes inserts no company. */
  lemma CardsAgain(d: Db, source: string, cs: seq<Card>)
    ensures var d' := CardsEffect(d, source, cs);
      CardsEffect(d', source, cs).entreprises == d'.entreprises
  {
    var d' := CardsEffect(d, source, cs);
    CardsEntreprises(d, source, cs);
    CardsEntreprises(d', source, cs);
    AddListingsAgain(d.entreprises, source, Entries(cs));
  }

  /** Importing any run of nodes keeps the store's unique keys unique. */
  lemma {:induction false} CardsConsistent(d: Db, source: string, cs: seq<Card>)
    requires Consistent(d)
    ensures Consistent(CardsEffect(d, source, cs))
  {
    if cs != [] {
      var front := CardsEffect(d, source, cs[..|cs| - 1]);
      CardsConsistent(d, source, cs[..|cs| - 1]);
      var c := cs[|cs| - 1];
      if Truthy(c.nom) {
        var rows := AddListing(front.entreprises, source, EntryOf(c));
        EnrichedConsistent(front.(entreprises := rows), ByName(rows, c.nom, source).value, c);
      }
    }
  }

  lemma CardsEffectSnoc(d: Db, source: string, cs: seq<Card>, c: Card)
    ensures CardsEffect(d, source, cs + [c]) == CardEffect(CardsEffect(d, source, cs), source, c)
  {
    assert (cs + [c])[..|cs|] == cs;
  }

  lemma {:induction false} CardsEffectAppend(d: Db, source: string, a: seq<Card>, b: seq<Card>)
    ensures CardsEffect(d, source, a + b) == CardsEffect(CardsEffect(d, source, a), source, b)
    decreases |b|
  {
    if b == [] {
      assert a + b == a;
    } else {
      CardsEffectAppend(d, source, a, b[..|b| - 1]);
      assert (a + b)[..|a + b| - 1] == a + b[..|b| - 1];
    }
  }

  /** The address step on the store. */
  method AddSeat(db: EntityStore, eid: nat, c: Card)
    requires db.Valid()
    modifies db`adresses
    ensures db.Valid()
    ensures db.Snapshot() == WithSeat(old(db.Snapshot()), eid, c)
  {
    if Truthy(c.address) && c.parsed.Some? {
      var a := c.parsed.value;
      db.InsertAdresse(eid, SiegeData(a.rue, a.codePostal, a.ville, None, None));
      if Truthy(c.lat.GetOr("")) && Truthy(c.lng.GetOr("")) {
        db.UpdateCoordinates(eid, a.codePostal, a.ville, c.lat.value, c.lng.value);
      }
    }
  }

  /** A contact step on the store. */
  method AddContact(db: EntityStore, eid: nat, kind: string, text: string, valeur: string)
    requires db.Valid()
    modifies db`contacts
    ensures db.Valid()
    ensures db.Snapshot() == WithContact(old(db.Snapshot()), eid, kind, text, valeur)
  {
    if Truthy(text) {
      db.InsertContact(eid, kind, valeur, None);
    }
  }

  /** The website step on the store. */
  method AddSite(db: EntityStore, eid: nat, url: string)
    requires db.Valid()
    modifies db`sitesWeb
    ensures db.Valid()
    ensures db.Snapshot() == WithSite(old(db.Snapshot()), eid, url)
  {
    if Truthy(url) {
      db.InsertSiteWeb(eid, url, "site_officiel");
    }
  }

  /** What a node adds to its company, step by step. */
  method Enrich(db: EntityStore, eid: nat, c: Card)
    requires db.Valid()
    modifies db`adresses, db`contacts, db`sitesWeb, db`activites, db`liens
    ensures db.Valid()
    ensures db.Snapshot() == Enriched(old(db.Snapshot()), eid, c)
  {
    AddSeat(db, eid, c);
    AddContact(db, eid, "telephone", c.phone, StripSpaces(c.phone));
    AddContact(db, eid, "email", c.email, c.email);
    AddSite(db, eid, c.site);
    LinkActivities(db, eid, c.categories);
  }

  /** One node. A falsy name skips it. Otherwise the company is looked up
      by (name, source) and inserted when absent, and the node's details
      are added to it either way. Reports whether a company was inserted. */
  method ImportCard(db: EntityStore, source: string, c: Card) returns (inserted: bool)
    requires db.Valid()
    modifies db
    ensures db.Valid()
    ensures db.Snapshot() == CardEffect(old(db.Snapshot()), source, c)
    ensures |db.entreprises| == |old(db.entreprises)| + (if inserted then 1 else 0)
  {
    if !Truthy(c.nom) {
      return false;
    }
    var eid;
    eid, inserted := FindOrInsert(db, EntryOf(c), source);
    Enrich(db, eid, c);
  }

  /** The nodes of one page, in order; the count is the number of
      companies inserted. */
  method ImportCards(db: EntityStore, source: string, cs: seq<Card>) returns (count: nat)
    requires db.Valid()
    modifies db
    ensures db.Valid()
    ensures db.Snapshot() == CardsEffect(old(db.Snapshot()), source, cs)
    ensures count == |db.entreprises| - |old(db.entreprises)|
  {
    count := 0;
    for i := 0 to |cs|
      invariant db.Valid()
      invariant db.Snapshot() == CardsEffect(old(db.Snapshot()), source, cs[..i])
      invariant count == |db.entreprises| - |old(db.entreprises)|
    {
      CardsEffectSnoc(old(db.Snapshot()), source, cs[..i], cs[i]);
      assert cs[..i + 1] == cs[..i] + [cs[i]];
      var inserted := ImportCard(db, source, cs[i]);
      if inserted {
        count := count + 1;
      }
    }
    assert cs[..|cs|] == cs;
  }

  /** The cards of some nodes. */
  function Cards<N>(card: N -> Card, nodes: seq<N>): (cs: seq<Card>)
    ensures |cs| == |nodes| && forall i :: 0 <= i < |nodes| ==> cs[i] == card(nodes[i])
  {
    seq(|nodes|, i requires 0 <= i < |nodes| => card(nodes[i]))
  }

  lemma CardsAppend<N>(card: N -> Card, a: seq<N>, b: seq<N>)
    ensures Cards(card, a + b) == Cards(card, a) + Cards(card, b)
  {
  }

  /** The nodes a fetch contributes: those of a harvested page, else none. */
  function Gathered<N>(site: Site, page: nat, fails: nat, response: Fetch<N>): seq<N> {
    if Decide(site, page, fails, response) == Harvested then NodesOf(response) else []
  }

  /** The body of the page loop: one response for `page` after `fails`
      consecutive failures. It reports whether the loop stops and otherwise
      the next page and failure count, as `Decide` says, and imports the
      nodes of a harvested page. */
  method ImportFetch<N>(db: EntityStore, site: Site, page: nat, fails: nat, response: Fetch<N>, card: N -> Card)
    returns (stop: bool, nextPage: nat, nextFails: nat, imported: nat)
    requires db.Valid()
    modifies db
    ensures db.Valid()
    ensures var o := Decide(site, page, fails, response);
      stop == Stops(o) && nextPage == PageAfter(o, page) && nextFails == FailsAfter(o, fails)
    ensures db.Snapshot() == CardsEffect(old(db.Snapshot()), SourceName(site), Cards(card, Gathered(site, page, fails, response)))
    ensures imported == |db.entreprises| - |old(db.entreprises)|
  {
    stop, nextPage, nextFails, imported := false, page + 1, fails, 0;
    match response
    case RequestFailure =>
      nextFails := fails + 1;
      stop := nextFails >= MaxFailCount;
    case FetchFailure =>
    case PageFailure =>
      nextFails := 0;
    case Http(status, body, nodes) =>
      if status != 200 {
        if status == 403 || status == 429 {
          nextFails := fails + 1;
          stop := nextFails >= MaxFailCount;
          if !stop {
            nextPage := page;  // the same page again
          }
        }
      } else {
        nextFails := 0;
        if Challenge(site, body) {
        } else if |nodes| == 0 {
          stop := site == PpleSite || page == 1;
        } else {
          imported := ImportCards(db, SourceName(site), Cards(card, nodes));
        }
      }
  }

  /** The store after one more fetch: importing the nodes the fetch
      contributes extends the harvest of the trace by that fetch. */
  lemma HarvestStep<N>(site: Site, fetch: nat -> Fetch<N>, card: N -> Card, d0: Db, trace: seq<Visit>,
                       page: nat, fails: nat, snap: Db, snap': Db)
    requires snap == CardsEffect(d0, SourceName(site), Cards(card, Harvest(fetch, trace)))
    requires snap' == CardsEffect(snap, SourceName(site), Cards(card, Gathered(site, page, fails, fetch(|trace|))))
    ensures snap' == CardsEffect(d0, SourceName(site),
      Cards(card, Harvest(fetch, trace + [Visit(page, fails, Decide(site, page, fails, fetch(|trace|)))])))
  {
    var visit := Visit(page, fails, Decide(site, page, fails, fetch(|trace|)));
    var got := Gathered(site, page, fails, fetch(|trace|));
    HarvestSnoc(fetch, trace, visit);
    CardsAppend(card, Harvest(fetch, trace), got);
    CardsEffectAppend(d0, SourceName(site), Cards(card, Harvest(fetch, trace)), Cards(card, got));
  }

  /** The page loop both listing scrapers run. The fetches follow `Run`
      exactly, the store ends as the nodes of the harvested pages leave it,
      and the result is the number of companies inserted. */
  method ImportPages<N>(db: EntityStore, site: Site, fetch: nat -> Fetch<N>, card: N -> Card)
    returns (total: nat, ghost trace: seq<Visit>)
    requires db.Valid()
    modifies db
    ensures db.Valid()
    ensures trace == Run(site, fetch)
    ensures db.Snapshot() == CardsEffect(old(db.Snapshot()), SourceName(site), Cards(card, Harvest(fetch, trace)))
    ensures total == |db.entreprises| - |old(db.entreprises)|
  {
    var page: nat, pageFailCount: nat := 1, 0;
    var k := 0;
    total := 0;
    trace := [];
    ghost var d0 := db.Snapshot();
    assert Cards(card, Harvest(fetch, trace)) == [];
    while page <= MaxPages
      invariant 1 <= page <= MaxPages + 1 && pageFailCount < MaxFailCount
      invariant k == |trace|
      invariant trace + Schedule(site, fetch, k, page, pageFailCount) == Run(site, fetch)
      invariant db.Valid()
      invariant d0 == old(db.Snapshot())
      invariant db.Snapshot() == CardsEffect(d0, SourceName(site), Cards(card, Harvest(fetch, trace)))
      invariant total == |db.entreprises| - |d0.entreprises|
      decreases MaxPages + 1 - page, MaxFailCount - pageFailCount
    {
      var response := fetch(k);
      ghost var visit := Visit(page, pageFailCount, Decide(site, page, pageFailCount, response));
      ghost var snap := db.Snapshot();
      ScheduleStep(site, fetch, page, pageFailCount, trace, Run(site, fetch));
      var stop, imported;
      ghost var page0, fails0 := page, pageFailCount;
      stop, page, pageFailCount, imported := ImportFetch(db, site, page, pageFailCount, response, card);
      HarvestStep(site, fetch, card, d0, trace, page0, fails0, snap, db.Snapshot());
      trace := trace + [visit];
      k := k + 1;
      total := total + imported;
      if stop {
        break;
      }
    }
  }
}

/** The entity store behind every importer: the seven tables the shared
    helpers of `BaseSourceImporter` read and write, with those helpers as
    methods. A table is a sequence of rows in insertion order; the row at
    index `i` has id `i + 1`. */
module Store {
  import opened Php
  import opened Tables
  import opened Entities
  import opened ActivityRule

  /** The columns an address upsert never rewrites. */
  predicate SameAddressKey(before: Adresse, after: Adresse) {
    after.entrepriseId == before.entrepriseId && after.kind == before.kind
    && after.codePostal == before.codePostal && after.ville == before.ville
    && after.pays == before.pays
  }

  /** A stored address refreshed from a new one with the same key. */
  function Refreshed(stored: Adresse, a: Adresse): Adresse {
    stored.(adresse := a.adresse, complement := a.complement, latitude := a.latitude, longitude := a.longitude)
  }

  /** `INSERT ... ON DUPLICATE KEY UPDATE` on `adresses`: a new key is
      appended; on a clash the stored row keeps its key and country and takes
      the new line, complement and coordinates. */
  function UpsertAdresse(rows: seq<Adresse>, a: Adresse): (r: seq<Adresse>)
    ensures !AnyClash(rows, a, AdresseClash) ==> r == rows + [a]
    ensures AnyClash(rows, a, AdresseClash) ==> |r| == |rows|
    ensures forall j :: 0 <= j < |rows| ==> SameAddressKey(rows[j], r[j])
    ensures forall j :: 0 <= j < |rows| && !AdresseClash(rows[j], a) ==> r[j] == rows[j]
    ensures Distinct(rows, AdresseClash) ==>
      forall j :: 0 <= j < |rows| && AdresseClash(rows[j], a) ==> r[j] == Refreshed(rows[j], a)
  {
    match FirstIndex(rows, (y: Adresse) => AdresseClash(y, a))
    case None => rows + [a]
    case Some(i) => rows[i := Refreshed(rows[i], a)]
  }

  /** Rewriting non-key columns keeps a table's unique key unique. */
  lemma KeysKeptDistinct(rows: seq<Adresse>, r: seq<Adresse>)
    requires |r| == |rows|
    requires forall j :: 0 <= j < |rows| ==> SameAddressKey(rows[j], r[j])
    requires Distinct(rows, AdresseClash)
    ensures Distinct(r, AdresseClash)
  {
    forall i, j | 0 <= i < j < |r|
      ensures !AdresseClash(r[i], r[j])
    {
      assert SameAddressKey(rows[i], r[i]) && SameAddressKey(rows[j], r[j]);
    }
  }

  /** The address upsert keeps (entreprise, type, postcode, city) unique. */
  lemma UpsertAdresseDistinct(rows: seq<Adresse>, a: Adresse)
    requires Distinct(rows, AdresseClash)
    ensures Distinct(UpsertAdresse(rows, a), AdresseClash)
  {
    var r := UpsertAdresse(rows, a);
    if AnyClash(rows, a, AdresseClash) {
      KeysKeptDistinct(rows, r);
    } else {
      forall i, j | 0 <= i < j < |r|
        ensures !AdresseClash(r[i], r[j])
      {
        if j == |rows| {
          assert r[j] == a && r[i] == rows[i];
        }
      }
    }
  }

  /** Repeating an address upsert changes nothing. */
  lemma UpsertAdresseTwice(rows: seq<Adresse>, a: Adresse)
    requires Distinct(rows, AdresseClash)
    ensures UpsertAdresse(UpsertAdresse(rows, a), a) == UpsertAdresse(rows, a)
  {
    var r := UpsertAdresse(rows, a);
    UpsertAdresseDistinct(rows, a);
    if AnyClash(rows, a, AdresseClash) {
      var j :| 0 <= j < |rows| && AdresseClash(rows[j], a);
      assert AdresseClash(r[j], a);
      var r2 := UpsertAdresse(r, a);
      forall k | 0 <= k < |r|
        ensures r2[k] == r[k]
      {
        if AdresseClash(r[k], a) {
          assert AdresseClash(rows[k], a);
        }
      }
    } else {
      assert r[|rows|] == a;
      var r2 := UpsertAdresse(r, a);
      forall k | 0 <= k < |r|
        ensures r2[k] == r[k]
      {
        if k < |rows| {
          assert !AdresseClash(rows[k], a);
        }
      }
    }
  }

  /** The address rows `UPDATE adresses ... WHERE entreprise_id = ? AND
      code_postal = ? AND ville = ?` selects. */
  predicate Located(a: Adresse, entrepriseId: nat, codePostal: string, ville: string) {
    a.entrepriseId == entrepriseId && a.codePostal == codePostal && a.ville == ville
  }

  /** That `UPDATE` setting the coordinates: every selected row, of any
      type, takes them, and no other row changes. */
  function SetCoordinates(rows: seq<Adresse>, entrepriseId: nat, codePostal: string, ville: string,
                          lat: Coord, lng: Coord): (r: seq<Adresse>)
    ensures |r| == |rows|
    ensures forall j :: 0 <= j < |rows| ==> SameAddressKey(rows[j], r[j])
    ensures forall j :: 0 <= j < |rows| && Located(rows[j], entrepriseId, codePostal, ville) ==>
      r[j].latitude == Some(lat) && r[j].longitude == Some(lng)
      && r[j].adresse == rows[j].adresse && r[j].complement == rows[j].complement
    ensures forall j :: 0 <= j < |rows| && !Located(rows[j], entrepriseId, codePostal, ville) ==> r[j] == rows[j]
  {
    if rows == [] then []
    else
      var a := rows[0];
      var a' := if Located(a, entrepriseId, codePostal, ville)
                then a.(latitude := Some(lat), longitude := Some(lng)) else a;
      [a'] + SetCoordinates(rows[1..], entrepriseId, codePostal, ville, lat, lng)
  }

  /** The whole store as a value: what a scraper's specification maps to
      the store it leaves behind. */
  datatype Db = Db(
    entreprises: seq<Entreprise>,
    adresses: seq<Adresse>,
    contacts: seq<Contact>,
    sitesWeb: seq<SiteWeb>,
    activites: seq<Activite>,
    liens: seq<Lien>,
    dirigeants: seq<Dirigeant>)

  /** Every table with a unique key holds no two rows clashing on it. */
  predicate KeysUnique(adresses: seq<Adresse>, contacts: seq<Contact>, sitesWeb: seq<SiteWeb>,
                       liens: seq<Lien>, dirigeants: seq<Dirigeant>) {
    Distinct(adresses, AdresseClash) && Distinct(contacts, ContactClash)
    && Distinct(sitesWeb, SiteClash) && Distinct(liens, LienClash)
    && Distinct(dirigeants, DirigeantClash)
  }

  predicate Consistent(d: Db) {
    KeysUnique(d.adresses, d.contacts, d.sitesWeb, d.liens, d.dirigeants)
  }

  /** `SELECT id FROM entreprises WHERE nom = ? AND source = ?`: the id of
      the first company with this name from this source, or `None` (the
      source's `false`). */
  function ByName(rows: seq<Entreprise>, nom: string, source: string): (id: Option<nat>)
    ensures id.Some? ==> (1 <= id.value <= |rows|
      && rows[id.value - 1].nom == nom && rows[id.value - 1].source == source
      && forall j :: 0 <= j < id.value - 1 ==> !(rows[j].nom == nom && rows[j].source == source))
    ensures id.None? <==>
      forall j :: 0 <= j < |rows| ==> !(rows[j].nom == nom && rows[j].source == source)
  {
    match FirstIndex(rows, (e: Entreprise) => e.nom == nom && e.source == source)
    case None => None
    case Some(i) => Some(i + 1)
  }

  /** `SELECT id FROM entreprises WHERE siret = ?`: the id of the first
      company whose siret is this one, whatever its source; a NULL siret
      matches nothing. */
  function BySiret(rows: seq<Entreprise>, siret: string): (id: Option<nat>)
    ensures id.Some? ==> 1 <= id.value <= |rows| && rows[id.value - 1].siret == Some(siret)
    ensures id.Some? ==> forall j :: 0 <= j < id.value - 1 ==> rows[j].siret != Some(siret)
    ensures id.None? <==> forall j :: 0 <= j < |rows| ==> rows[j].siret != Some(siret)
  {
    match FirstIndex(rows, (e: Entreprise) => e.siret == Some(siret))
    case None => None
    case Some(i) => Some(i + 1)
  }

  class EntityStore {
    var entreprises: seq<Entreprise>
    var adresses: seq<Adresse>
    var contacts: seq<Contact>
    var sitesWeb: seq<SiteWeb>
    var activites: seq<Activite>
    var liens: seq<Lien>
    var dirigeants: seq<Dirigeant>

    /** Every table with a unique key holds no two rows clashing on it. */
    ghost predicate Valid()
      reads this`adresses, this`contacts, this`sitesWeb, this`liens, this`dirigeants
    {
      KeysUnique(adresses, contacts, sitesWeb, liens, dirigeants)
    }

    /** All seven tables as one value. */
    ghost function Snapshot(): Db
      reads this
    {
      Db(entreprises, adresses, contacts, sitesWeb, activites, liens, dirigeants)
    }

    constructor ()
      ensures Valid()
      ensures entreprises == [] && adresses == [] && contacts == [] && sitesWeb == []
      ensures activites == [] && liens == [] && dirigeants == []
    {
      entreprises, adresses, contacts, sitesWeb := [], [], [], [];
      activites, liens, dirigeants := [], [], [];
    }

    /** `entrepriseExistsByName` */
    function EntrepriseExistsByName(nom: string, source: string): Option<nat>
      reads this`entreprises
    {
      ByName(entreprises, nom, source)
    }

    /** `entrepriseExistsBySiret` */
    function EntrepriseExistsBySiret(siret: string): Option<nat>
      reads this`entreprises
    {
      BySiret(entreprises, siret)
    }

    /** `insertEntreprise`: appends the row with its defaults and returns its id. */
    method InsertEntreprise(d: EntrepriseData) returns (id: nat)
      modifies this`entreprises
      ensures entreprises == old(entreprises) + [EntrepriseRow(d)]
      ensures id == |entreprises| && entreprises[id - 1].nom == d.nom.GetOr("")
    {
      entreprises := entreprises + [EntrepriseRow(d)];
      id := |entreprises|;
    }

    /** `insertAdresse`: the address upsert, with its defaults. */
    method InsertAdresse(entrepriseId: nat, d: AdresseData)
      requires Valid()
      modifies this`adresses
      ensures Valid()
      ensures adresses == UpsertAdresse(old(adresses), AdresseRow(entrepriseId, d))
    {
      UpsertAdresseDistinct(adresses, AdresseRow(entrepriseId, d));
      adresses := UpsertAdresse(adresses, AdresseRow(entrepriseId, d));
    }

    /** `insertContact`: `INSERT IGNORE` on (entreprise, type, valeur). */
    method InsertContact(entrepriseId: nat, kind: string, valeur: string, description: Option<string>)
      requires Valid()
      modifies this`contacts
      ensures Valid()
      ensures contacts == InsertIgnore(old(contacts), Contact(entrepriseId, kind, valeur, description), ContactClash)
    {
      InsertIgnoreDistinct(contacts, Contact(entrepriseId, kind, valeur, description), ContactClash);
      contacts := InsertIgnore(contacts, Contact(entrepriseId, kind, valeur, description), ContactClash);
    }

    /** `insertSiteWeb`: `INSERT IGNORE` on (entreprise, url). */
    method InsertSiteWeb(entrepriseId: nat, url: string, kind: string)
      requires Valid()
      modifies this`sitesWeb
      ensures Valid()
      ensures sitesWeb == InsertIgnore(old(sitesWeb), SiteWeb(entrepriseId, url, kind), SiteClash)
    {
      InsertIgnoreDistinct(sitesWeb, SiteWeb(entrepriseId, url, kind), SiteClash);
      sitesWeb := InsertIgnore(sitesWeb, SiteWeb(entrepriseId, url, kind), SiteClash);
    }

    /** `getOrCreateActivite`: split the label, look up by code, then by
        label (filling in a missing code), else insert. */
    method GetOrCreateActivite(libelle: string, code: Option<string>) returns (id: nat)
      modifies this`activites
      ensures Resolution(activites, id) == Resolve(old(activites), libelle, code)
    {
      var l, c := libelle, code;
      if c.None? && Contains(l, Separator) {
        var i := IndexOf(l, Separator).value;
        l, c := Trim(libelle[..i]), Some(Trim(libelle[i + |Separator|..]));
      }
      assert Split(l, c) == SplitLabel(libelle, code);
      assert Resolve(activites, libelle, code) == Lookup(activites, Split(l, c));
      var byCode := if c.Some? then ByCode(activites, c) else None;
      if byCode.Some? {
        return byCode.value + 1;
      }
      var byLabel := ByLabel(activites, l);
      if byLabel.None? {
        activites := activites + [Activite(l, c)];
        id := |activites|;
      } else {
        var i := byLabel.value;
        id := i + 1;
        if c.Some? && !Filled(activites[i].code) {
          activites := activites[i := activites[i].(code := c)];
        }
      }
    }

    /** `associateActivite`: `INSERT IGNORE` on the pair. */
    method AssociateActivite(entrepriseId: nat, activiteId: nat)
      requires Valid()
      modifies this`liens
      ensures Valid()
      ensures liens == InsertIgnore(old(liens), Lien(entrepriseId, activiteId), LienClash)
    {
      InsertIgnoreDistinct(liens, Lien(entrepriseId, activiteId), LienClash);
      liens := InsertIgnore(liens, Lien(entrepriseId, activiteId), LienClash);
    }

    /** `insertDirigeant`: `INSERT IGNORE` with its defaults. */
    method InsertDirigeant(entrepriseId: nat, d: DirigeantData)
      requires Valid()
      modifies this`dirigeants
      ensures Valid()
      ensures dirigeants == InsertIgnore(old(dirigeants), DirigeantRow(entrepriseId, d), DirigeantClash)
    {
      InsertIgnoreDistinct(dirigeants, DirigeantRow(entrepriseId, d), DirigeantClash);
      dirigeants := InsertIgnore(dirigeants, DirigeantRow(entrepriseId, d), DirigeantClash);
    }

    /** The `UPDATE adresses SET latitude, longitude` the PPLE importer runs. */
    method UpdateCoordinates(entrepriseId: nat, codePostal: string, ville: string, lat: Coord, lng: Coord)
      requires Valid()
      modifies this`adresses
      ensures Valid()
      ensures adresses == SetCoordinates(old(adresses), entrepriseId, codePostal, ville, lat, lng)
    {
      var r := SetCoordinates(adresses, entrepriseId, codePostal, ville, lat, lng);
      KeysKeptDistinct(adresses, r);
      adresses := r;
    }
  }

  /** A director with no first name or no function never clashes, not even
      with itself or with a row already stored: each insert of it adds a
      row, so inserting the same one twice stores it twice. */
  lemma DirigeantWithNullRepeats(rows: seq<Dirigeant>, entrepriseId: nat, d: DirigeantData)
    requires d.prenom.None? || d.fonction.None?
    ensures var x := DirigeantRow(entrepriseId, d);
      |InsertIgnore(InsertIgnore(rows, x, DirigeantClash), x, DirigeantClash)| == |rows| + 2
  {
    var x := DirigeantRow(entrepriseId, d);
    assert forall y :: !DirigeantClash(y, x);
    var r := InsertIgnore(rows, x, DirigeantClash);
    assert r == rows + [x];
    assert InsertIgnore(r, x, DirigeantClash) == r + [x];
  }

  /** A fully named director is stored once however often it is inserted. */
  lemma DirigeantNamedOnce(rows: seq<Dirigeant>, entrepriseId: nat, d: DirigeantData)
    requires d.prenom.Some? && d.fonction.Some?
    ensures var x := DirigeantRow(entrepriseId, d);
      InsertIgnore(InsertIgnore(rows, x, DirigeantClash), x, DirigeantClash) == InsertIgnore(rows, x, DirigeantClash)
  {
    InsertIgnoreTwice(rows, DirigeantRow(entrepriseId, d), DirigeantClash);
  }
}

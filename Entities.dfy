/** Rows of the entity store, the arrays the importers pass to the store's
    insert helpers, the defaults those helpers apply to missing keys, and the
    unique keys behind `INSERT IGNORE` and `ON DUPLICATE KEY UPDATE`.

    The schema is not part of this model, so the unique keys are assumptions,
    each stated by one `...Clash` predicate below:
    - adresses: (entreprise_id, type, code_postal, ville);
    - contacts: (entreprise_id, type, valeur);
    - sites_web: (entreprise_id, url);
    - entreprises_activites: (entreprise_id, activite_id);
    - dirigeants: (entreprise_id, nom, prenom, fonction), where, as in SQL,
      a NULL column never equals another NULL;
    - entreprises and activites: no unique key besides the id. */
module Entities {
  import opened Php

  /** Latitude or longitude as the source hands it over: an opaque value. */
  type Coord = string

  /** A row of `entreprises`. */
  datatype Entreprise = Entreprise(
    nom: string,
    siret: Option<string>,
    raisonSociale: Option<string>,
    dateCreation: Option<string>,
    formeJuridique: Option<string>,
    capital: Option<string>,
    codeNaf: Option<string>,
    trancheEffectif: Option<string>,
    source: string,
    sourceId: string)

  /** The array given to `insertEntreprise`; a missing key is `None`. */
  datatype EntrepriseData = EntrepriseData(
    nom: Option<string>,
    siret: Option<string>,
    raisonSociale: Option<string>,
    dateCreation: Option<string>,
    formeJuridique: Option<string>,
    capital: Option<string>,
    codeNaf: Option<string>,
    trancheEffectif: Option<string>,
    source: string,
    sourceId: string)

  /** The array the listing scrapers build: only `nom`, `source`, `source_id`. */
  function ListedEntreprise(nom: string, source: string, sourceId: string): EntrepriseData {
    EntrepriseData(Some(nom), None, None, None, None, None, None, None, source, sourceId)
  }

  /** The row `insertEntreprise` writes: a missing `nom` becomes "", every other
      missing column NULL. */
  function EntrepriseRow(d: EntrepriseData): Entreprise {
    Entreprise(d.nom.GetOr(""), d.siret, d.raisonSociale, d.dateCreation, d.formeJuridique,
               d.capital, d.codeNaf, d.trancheEffectif, d.source, d.sourceId)
  }

  /** A row of `adresses`. */
  datatype Adresse = Adresse(
    entrepriseId: nat,
    kind: string,
    adresse: string,
    complement: Option<string>,
    codePostal: string,
    ville: string,
    pays: string,
    latitude: Option<Coord>,
    longitude: Option<Coord>)

  /** The array given to `insertAdresse`; a missing key is `None`. */
  datatype AdresseData = AdresseData(
    kind: Option<string>,
    adresse: Option<string>,
    complement: Option<string>,
    codePostal: Option<string>,
    ville: Option<string>,
    pays: Option<string>,
    latitude: Option<Coord>,
    longitude: Option<Coord>)

  /** The array the scrapers build for a registered office. */
  function SiegeData(rue: string, codePostal: string, ville: string,
                     latitude: Option<Coord>, longitude: Option<Coord>): AdresseData {
    AdresseData(Some("siege"), Some(rue), None, Some(codePostal), Some(ville), None, latitude, longitude)
  }

  /** The row `insertAdresse` writes: type 'siege', country 'France', empty
      line, postcode and city, NULL complement and coordinates by default. */
  function AdresseRow(entrepriseId: nat, d: AdresseData): Adresse {
    Adresse(entrepriseId, d.kind.GetOr("siege"), d.adresse.GetOr(""), d.complement,
            d.codePostal.GetOr(""), d.ville.GetOr(""), d.pays.GetOr("France"),
            d.latitude, d.longitude)
  }

  predicate AdresseClash(a: Adresse, b: Adresse) {
    a.entrepriseId == b.entrepriseId && a.kind == b.kind
    && a.codePostal == b.codePostal && a.ville == b.ville
  }

  /** A row of `contacts`. */
  datatype Contact = Contact(entrepriseId: nat, kind: string, valeur: string, description: Option<string>)

  predicate ContactClash(a: Contact, b: Contact) {
    a.entrepriseId == b.entrepriseId && a.kind == b.kind && a.valeur == b.valeur
  }

  /** A row of `sites_web`. */
  datatype SiteWeb = SiteWeb(entrepriseId: nat, url: string, kind: string)

  predicate SiteClash(a: SiteWeb, b: SiteWeb) {
    a.entrepriseId == b.entrepriseId && a.url == b.url
  }

  /** A row of `activites`. */
  datatype Activite = Activite(libelle: string, code: Option<string>)

  /** A row of `entreprises_activites`. */
  datatype Lien = Lien(entrepriseId: nat, activiteId: nat)

  predicate LienClash(a: Lien, b: Lien) {
    a == b
  }

  /** A row of `dirigeants`. */
  datatype Dirigeant = Dirigeant(
    entrepriseId: nat,
    nom: string,
    prenom: Option<string>,
    fonction: Option<string>,
    dateNaissance: Option<string>,
    dateDebutFonction: Option<string>)

  /** The array given to `insertDirigeant`; a missing key is `None`. */
  datatype DirigeantData = DirigeantData(
    nom: Option<string>,
    prenom: Option<string>,
    fonction: Option<string>,
    dateNaissance: Option<string>,
    dateDebutFonction: Option<string>)

  /** The row `insertDirigeant` writes: a missing `nom` becomes "", every other
      missing column NULL. */
  function DirigeantRow(entrepriseId: nat, d: DirigeantData): Dirigeant {
    Dirigeant(entrepriseId, d.nom.GetOr(""), d.prenom, d.fonction, d.dateNaissance, d.dateDebutFonction)
  }

  /** Two non-NULL values that are equal (SQL `=` inside a unique index). */
  predicate SqlEqual(a: Option<string>, b: Option<string>) {
    a.Some? && b.Some? && a.value == b.value
  }

  predicate DirigeantClash(a: Dirigeant, b: Dirigeant) {
    a.entrepriseId == b.entrepriseId && a.nom == b.nom
    && SqlEqual(a.prenom, b.prenom) && SqlEqual(a.fonction, b.fonction)
  }
}

/** `InfogreffeImporter::import` up to its registered-office guard: one
    search on the Infogreffe API whose results are stored once per siret,
    with their directors. The HTTP answer is an oracle value, already
    decoded from JSON. */
module Infogreffe {
  import opened Php
  import opened Tables
  import opened Entities
  import opened Store

  const Source := "infogreffe"

  /** An element of a result's `dirigeants`; a missing key is `None`. */
  datatype DirigeantJson = DirigeantJson(
    nom: Option<string>,
    prenom: Option<string>,
    fonction: Option<string>,
    dateDebutFonction: Option<string>)

  /** A result's `siege`; a missing key is `None`. */
  datatype SiegeJson = SiegeJson(adresse: Option<string>, codePostal: Option<string>, ville: Option<string>)

  /** One element of `results`; a missing key is `None`, and so is a
      `dirigeants` that is not an array. */
  datatype Result = Result(
    siret: Option<string>,
    nomCommercial: Option<string>,
    denomination: Option<string>,
    dateCreation: Option<string>,
    formeJuridique: Option<string>,
    capital: Option<string>,
    codeNaf: Option<string>,
    trancheEffectif: Option<string>,
    dirigeants: Option<seq<DirigeantJson>>,
    siege: Option<SiegeJson>)

  /** The answer to the search: its status, and `results` when that key is
      present and holds an array. */
  datatype Response = Response(status: int, results: Option<seq<Result>>)

  /** A registered office that passed the guard, with the company it
      belongs to. What the importer then writes for it is not part of this
      model, so the run reports these instead of storing them. */
  datatype Seat = Seat(entrepriseId: nat, adresse: string, codePostal: string, ville: string)

  /** The siret a result is processed under: present and truthy. */
  predicate HasSiret(r: Result) {
    r.siret.Some? && Truthy(r.siret.value)
  }

  /** The array given to `insertEntreprise` for a new siret: the name is
      `nom_commercial`, else `denomination`; the legal name, legal form,
      NAF code and headcount band default to "". */
  function EntrepriseOf(siret: string, r: Result): EntrepriseData {
    EntrepriseData(
      if r.nomCommercial.Some? then r.nomCommercial else r.denomination,
      Some(siret), Some(r.denomination.GetOr("")), r.dateCreation,
      Some(r.formeJuridique.GetOr("")), r.capital, Some(r.codeNaf.GetOr("")),
      Some(r.trancheEffectif.GetOr("")), Source, siret)
  }

  /** The array given to `insertDirigeant`: name, first name and function
      default to "", so none of them is ever NULL. */
  function DirigeantOf(j: DirigeantJson): DirigeantData {
    DirigeantData(Some(j.nom.GetOr("")), Some(j.prenom.GetOr("")), Some(j.fonction.GetOr("")), None, j.dateDebutFonction)
  }

  /** The directors of a result, none when the key is absent. */
  function DirigeantsOf(r: Result): seq<DirigeantJson> {
    if r.dirigeants.Some? then r.dirigeants.value else []
  }

  /** The directors inserted one after the other for company `eid`. */
  function WithDirigeants(rows: seq<Dirigeant>, eid: nat, ds: seq<DirigeantJson>): seq<Dirigeant> {
    if ds == [] then rows
    else InsertIgnore(WithDirigeants(rows, eid, ds[..|ds| - 1]), DirigeantRow(eid, DirigeantOf(ds[|ds| - 1])), DirigeantClash)
  }

  /** The registered office the guard lets through: line, postcode and
      city all truthy. */
  function SeatOf(eid: nat, r: Result): (s: Option<Seat>)
    ensures s.Some? <==> (r.siege.Some? && Truthy(r.siege.value.adresse.GetOr(""))
      && Truthy(r.siege.value.codePostal.GetOr("")) && Truthy(r.siege.value.ville.GetOr("")))
    ensures s.Some? ==> s.value.entrepriseId == eid
  {
    match r.siege
    case None => None
    case Some(siege) =>
      var adresse, codePostal, ville := siege.adresse.GetOr(""), siege.codePostal.GetOr(""), siege.ville.GetOr("");
      if Truthy(adresse) && Truthy(codePostal) && Truthy(ville) then Some(Seat(eid, adresse, codePostal, ville))
      else None
  }

  /** A store, the number of companies inserted so far and the offices
      that passed the guard. */
  datatype Run = Run(db: Db, count: nat, seats: seq<Seat>)

  /** The id a siret resolves to: the first stored company with it, else
      the row about to be appended. */
  function IdFor(rows: seq<Entreprise>, siret: string): nat {
    match BySiret(rows, siret)
    case Some(id) => id
    case None => |rows| + 1
  }

  /** One result on top of what the earlier ones did. */
  function ResultStep(t: Run, r: Result): Run {
    if !HasSiret(r) then t
    else
      var siret := r.siret.value;
      var found := BySiret(t.db.entreprises, siret);
      var entreprises := if found.Some? then t.db.entreprises
                         else t.db.entreprises + [EntrepriseRow(EntrepriseOf(siret, r))];
      var eid := IdFor(t.db.entreprises, siret);
      var seat := SeatOf(eid, r);
      Run(t.db.(entreprises := entreprises, dirigeants := WithDirigeants(t.db.dirigeants, eid, DirigeantsOf(r))),
          t.count + (if found.Some? then 0 else 1),
          t.seats + (if seat.Some? then [seat.value] else []))
  }

  /** The results, processed in order. */
  function ResultsEffect(d: Db, rs: seq<Result>): Run {
    if rs == [] then Run(d, 0, [])
    else ResultStep(ResultsEffect(d, rs[..|rs| - 1]), rs[|rs| - 1])
  }

  /** `import`: a status other than 200, or no `results` array, stores
      nothing and yields 0. */
  function ImportEffect(d: Db, response: Response): Run {
    if response.status != 200 || response.results.None? then Run(d, 0, [])
    else ResultsEffect(d, response.results.value)
  }

  lemma ResultsEffectSnoc(d: Db, rs: seq<Result>, i: nat)
    requires i < |rs|
    ensures ResultsEffect(d, rs[..i + 1]) == ResultStep(ResultsEffect(d, rs[..i]), rs[i])
  {
    assert rs[..i + 1][..i] == rs[..i];
  }

  lemma WithDirigeantsSnoc(rows: seq<Dirigeant>, eid: nat, ds: seq<DirigeantJson>, i: nat)
    requires i < |ds|
    ensures WithDirigeants(rows, eid, ds[..i + 1])
         == InsertIgnore(WithDirigeants(rows, eid, ds[..i]), DirigeantRow(eid, DirigeantOf(ds[i])), DirigeantClash)
  {
    assert ds[..i + 1][..i] == ds[..i];
  }

  // ---------------------------------------------------------------- directors

  /** A director row the table already holds under its unique key. */
  predicate Held(rows: seq<Dirigeant>, eid: nat, j: DirigeantJson) {
    AnyClash(rows, DirigeantRow(eid, DirigeantOf(j)), DirigeantClash)
  }

  /** Inserting directors only appends rows of company `eid`, at most
      one per director, and keeps the key unique. */
  lemma {:induction false} WithDirigeantsGrows(rows: seq<Dirigeant>, eid: nat, ds: seq<DirigeantJson>)
    ensures var r := WithDirigeants(rows, eid, ds);
      && |rows| <= |r| <= |rows| + |ds| && r[..|rows|] == rows
      && (forall k :: |rows| <= k < |r| ==> r[k].entrepriseId == eid)
      && (Distinct(rows, DirigeantClash) ==> Distinct(r, DirigeantClash))
  {
    if ds != [] {
      var p := WithDirigeants(rows, eid, ds[..|ds| - 1]);
      WithDirigeantsGrows(rows, eid, ds[..|ds| - 1]);
      var x := DirigeantRow(eid, DirigeantOf(ds[|ds| - 1]));
      var r := InsertIgnore(p, x, DirigeantClash);
      assert WithDirigeants(rows, eid, ds) == r;
      assert r[..|p|] == p;
      assert r[..|rows|] == p[..|rows|];
      if Distinct(rows, DirigeantClash) {
        InsertIgnoreDistinct(p, x, DirigeantClash);
      }
    }
  }

  /** After the insertions every one of the directors is held: none of
      its key columns is NULL, so each clashes with itself. */
  lemma {:induction false} WithDirigeantsHeld(rows: seq<Dirigeant>, eid: nat, ds: seq<DirigeantJson>)
    ensures forall k :: 0 <= k < |ds| ==> Held(WithDirigeants(rows, eid, ds), eid, ds[k])
  {
    if ds != [] {
      var front := ds[..|ds| - 1];
      var p := WithDirigeants(rows, eid, front);
      WithDirigeantsHeld(rows, eid, front);
      var x := DirigeantRow(eid, DirigeantOf(ds[|ds| - 1]));
      var r := InsertIgnore(p, x, DirigeantClash);
      assert WithDirigeants(rows, eid, ds) == r;
      assert DirigeantClash(x, x);
      if !AnyClash(p, x, DirigeantClash) {
        assert r[|p|] == x;
      }
      forall k | 0 <= k < |ds|
        ensures Held(r, eid, ds[k])
      {
        if k < |ds| - 1 {
          assert ds[k] == front[k];
          HeldInPrefix(p, r, eid, ds[k]);
        }
      }
    }
  }

  /** Directors already held are not inserted again. */
  lemma {:induction false} WithHeldDirigeants(rows: seq<Dirigeant>, eid: nat, ds: seq<DirigeantJson>)
    requires forall k :: 0 <= k < |ds| ==> Held(rows, eid, ds[k])
    ensures WithDirigeants(rows, eid, ds) == rows
  {
    if ds != [] {
      WithHeldDirigeants(rows, eid, ds[..|ds| - 1]);
      assert Held(rows, eid, ds[|ds| - 1]);
    }
  }

  /** A held director stays held once more rows are appended. */
  lemma HeldInPrefix(rows: seq<Dirigeant>, r: seq<Dirigeant>, eid: nat, j: DirigeantJson)
    requires |rows| <= |r| && r[..|rows|] == rows
    requires Held(rows, eid, j)
    ensures Held(r, eid, j)
  {
    var k :| 0 <= k < |rows| && DirigeantClash(rows[k], DirigeantRow(eid, DirigeantOf(j)));
    assert r[k] == rows[k];
  }

  // ---------------------------------------------------------------- companies

  /** No two companies share a non-NULL siret. */
  predicate UniqueSirets(rows: seq<Entreprise>) {
    forall i, j :: 0 <= i < j < |rows| && rows[i].siret.Some? ==> rows[i].siret != rows[j].siret
  }

  /** A siret found among stored rows is found at the same id once more
      rows are appended. */
  lemma BySiretInPrefix(rows: seq<Entreprise>, r: seq<Entreprise>, siret: string)
    requires |rows| <= |r| && r[..|rows|] == rows
    requires BySiret(rows, siret).Some?
    ensures BySiret(r, siret) == BySiret(rows, siret)
  {
    var id := BySiret(rows, siret).value;
    assert r[id - 1] == rows[id - 1];
    forall j | 0 <= j < id - 1
      ensures r[j].siret != Some(siret)
    {
      assert r[j] == rows[j];
    }
  }

  /** One result only appends companies and directors, counts exactly
      the companies it appends, and keeps the key uniqueness and the
      siret uniqueness. */
  lemma ResultStepGrows(t: Run, r: Result)
    ensures var t' := ResultStep(t, r);
      && t.count <= t'.count && |t'.db.entreprises| == |t.db.entreprises| + (t'.count - t.count)
      && t'.db.entreprises[..|t.db.entreprises|] == t.db.entreprises
      && |t.db.dirigeants| <= |t'.db.dirigeants| && t'.db.dirigeants[..|t.db.dirigeants|] == t.db.dirigeants
      && (Consistent(t.db) ==> Consistent(t'.db))
      && (UniqueSirets(t.db.entreprises) ==> UniqueSirets(t'.db.entreprises))
  {
    if HasSiret(r) {
      var rows := t.db.entreprises;
      WithDirigeantsGrows(t.db.dirigeants, IdFor(rows, r.siret.value), DirigeantsOf(r));
      if BySiret(rows, r.siret.value).None? {
        assert (rows + [EntrepriseRow(EntrepriseOf(r.siret.value, r))])[..|rows|] == rows;
      }
    }
  }

  /** One result with a siret: a company, with the name, source and source
      id the importer gives it, is added exactly when none had that siret,
      and the count moves with it; afterwards the siret resolves to the id
      every director of the result is held under. */
  lemma ResultStepProps(t: Run, r: Result)
    requires HasSiret(r)
    ensures var t' := ResultStep(t, r); var siret := r.siret.value;
      && (BySiret(t.db.entreprises, siret).Some? ==> t'.db.entreprises == t.db.entreprises && t'.count == t.count)
      && (BySiret(t.db.entreprises, siret).None? ==>
            t'.db.entreprises == t.db.entreprises + [EntrepriseRow(EntrepriseOf(siret, r))] && t'.count == t.count + 1)
      && BySiret(t'.db.entreprises, siret) == Some(IdFor(t.db.entreprises, siret))
      && (forall k :: 0 <= k < |DirigeantsOf(r)| ==> Held(t'.db.dirigeants, IdFor(t.db.entreprises, siret), DirigeantsOf(r)[k]))
  {
    var siret := r.siret.value;
    var rows := t.db.entreprises;
    WithDirigeantsHeld(t.db.dirigeants, IdFor(rows, siret), DirigeantsOf(r));
    if BySiret(rows, siret).None? {
      var r2 := rows + [EntrepriseRow(EntrepriseOf(siret, r))];
      assert r2[|rows|].siret == Some(siret);
      assert BySiret(r2, siret) == Some(|rows| + 1) by {
        forall j | 0 <= j < |rows|
          ensures r2[j].siret != Some(siret)
        {
          assert r2[j] == rows[j];
        }
      }
    }
  }

  /** The run over any results: the count is the number of companies
      added, rows already stored stay as they are, and the store stays
      consistent with no siret stored twice. */
  lemma {:induction false} ResultsEffectCounts(d: Db, rs: seq<Result>)
    ensures var t := ResultsEffect(d, rs);
      && |t.db.entreprises| == |d.entreprises| + t.count
      && t.db.entreprises[..|d.entreprises|] == d.entreprises
      && |d.dirigeants| <= |t.db.dirigeants| && t.db.dirigeants[..|d.dirigeants|] == d.dirigeants
      && (Consistent(d) ==> Consistent(t.db))
      && (UniqueSirets(d.entreprises) ==> UniqueSirets(t.db.entreprises))
  {
    if rs != [] {
      var t := ResultsEffect(d, rs[..|rs| - 1]);
      ResultsEffectCounts(d, rs[..|rs| - 1]);
      var r := rs[|rs| - 1];
      var t2 := ResultStep(t, r);
      assert ResultsEffect(d, rs) == t2;
      ResultStepGrows(t, r);
      if HasSiret(r) {
        assert t2.db.entreprises[..|d.entreprises|] == t2.db.entreprises[..|t.db.entreprises|][..|d.entreprises|];
        assert t2.db.dirigeants[..|d.dirigeants|] == t2.db.dirigeants[..|t.db.dirigeants|][..|d.dirigeants|];
      }
    }
  }

  // ---------------------------------------------------------------- re-import

  /** A result whose siret is stored and whose directors are all held
      under the company that siret resolves to. */
  predicate Settled(d: Db, r: Result) {
    HasSiret(r) ==> (BySiret(d.entreprises, r.siret.value).Some?
      && forall k :: 0 <= k < |DirigeantsOf(r)| ==>
           Held(d.dirigeants, BySiret(d.entreprises, r.siret.value).value, DirigeantsOf(r)[k]))
  }

  /** A settled result writes nothing and counts nothing. */
  lemma SettledStep(t: Run, r: Result)
    requires Settled(t.db, r)
    ensures ResultStep(t, r).db == t.db && ResultStep(t, r).count == t.count
  {
    if HasSiret(r) {
      WithHeldDirigeants(t.db.dirigeants, BySiret(t.db.entreprises, r.siret.value).value, DirigeantsOf(r));
    }
  }

  /** A settled result stays settled once more rows are appended. */
  lemma SettledInPrefix(d: Db, d': Db, r: Result)
    requires |d.entreprises| <= |d'.entreprises| && d'.entreprises[..|d.entreprises|] == d.entreprises
    requires |d.dirigeants| <= |d'.dirigeants| && d'.dirigeants[..|d.dirigeants|] == d.dirigeants
    requires Settled(d, r)
    ensures Settled(d', r)
  {
    if HasSiret(r) {
      BySiretInPrefix(d.entreprises, d'.entreprises, r.siret.value);
      forall k | 0 <= k < |DirigeantsOf(r)|
        ensures Held(d'.dirigeants, BySiret(d'.entreprises, r.siret.value).value, DirigeantsOf(r)[k])
      {
        HeldInPrefix(d.dirigeants, d'.dirigeants, BySiret(d.entreprises, r.siret.value).value, DirigeantsOf(r)[k]);
      }
    }
  }

  /** After a run every one of its results is settled. */
  lemma {:induction false} ResultsEffectSettles(d: Db, rs: seq<Result>)
    ensures forall k :: 0 <= k < |rs| ==> Settled(ResultsEffect(d, rs).db, rs[k])
  {
    if rs != [] {
      var front := rs[..|rs| - 1];
      var t := ResultsEffect(d, front);
      ResultsEffectSettles(d, front);
      var r := rs[|rs| - 1];
      var t2 := ResultStep(t, r);
      assert ResultsEffect(d, rs) == t2;
      var grows := HasSiret(r);
      if grows {
        ResultStepProps(t, r);
        ResultStepGrows(t, r);
      }
      forall k | 0 <= k < |rs|
        ensures Settled(t2.db, rs[k])
      {
        if k < |rs| - 1 {
          assert rs[k] == front[k];
          if grows {
            SettledInPrefix(t.db, t2.db, rs[k]);
          }
        }
      }
    }
  }

  /** Results that are all settled leave the store alone and count 0. */
  lemma {:induction false} SettledRun(d: Db, rs: seq<Result>)
    requires forall k :: 0 <= k < |rs| ==> Settled(d, rs[k])
    ensures ResultsEffect(d, rs).db == d && ResultsEffect(d, rs).count == 0
  {
    if rs != [] {
      SettledRun(d, rs[..|rs| - 1]);
      SettledStep(ResultsEffect(d, rs[..|rs| - 1]), rs[|rs| - 1]);
    }
  }

  /** Unlike the registry crawler, this importer is idempotent: importing
      the same answer again adds no company and no director, and returns 0. */
  lemma ImportTwice(d: Db, response: Response)
    ensures var t := ImportEffect(d, response);
      ImportEffect(t.db, response).db == t.db && ImportEffect(t.db, response).count == 0
  {
    if response.status == 200 && response.results.Some? {
      var rs := response.results.value;
      ResultsEffectSettles(d, rs);
      SettledRun(ResultsEffect(d, rs).db, rs);
    }
  }

  /** The import's count is the number of companies it added; nothing
      else than companies and directors changes, stored rows stay, and
      the store stays consistent with no siret stored twice. */
  lemma ImportCounts(d: Db, response: Response)
    ensures var t := ImportEffect(d, response);
      && |t.db.entreprises| == |d.entreprises| + t.count
      && t.db.entreprises[..|d.entreprises|] == d.entreprises
      && t.db.(entreprises := d.entreprises, dirigeants := d.dirigeants) == d
      && (Consistent(d) ==> Consistent(t.db))
      && (UniqueSirets(d.entreprises) ==> UniqueSirets(t.db.entreprises))
  {
    if response.status == 200 && response.results.Some? {
      ResultsEffectCounts(d, response.results.value);
      ResultsEffectKeeps(d, response.results.value);
    }
  }

  /** A run writes only the companies and directors. */
  lemma {:induction false} ResultsEffectKeeps(d: Db, rs: seq<Result>)
    ensures ResultsEffect(d, rs).db.(entreprises := d.entreprises, dirigeants := d.dirigeants) == d
  {
    if rs != [] {
      ResultsEffectKeeps(d, rs[..|rs| - 1]);
    }
  }

  // ---------------------------------------------------------------- the importer

  /** The directors of one result, in order. */
  method AddDirigeants(db: EntityStore, eid: nat, ds: seq<DirigeantJson>)
    requires db.Valid()
    modifies db`dirigeants
    ensures db.Valid()
    ensures db.dirigeants == WithDirigeants(old(db.dirigeants), eid, ds)
  {
    ghost var rows := db.dirigeants;
    for i := 0 to |ds|
      invariant db.Valid()
      invariant db.dirigeants == WithDirigeants(rows, eid, ds[..i])
    {
      WithDirigeantsSnoc(rows, eid, ds, i);
      var dirigeant := ds[i];
      db.InsertDirigeant(eid, DirigeantOf(dirigeant));
    }
    assert ds[..|ds|] == ds;
  }

  /** The body of the loop over `results`. */
  method ImportResult(db: EntityStore, r: Result, count: nat, seats: seq<Seat>) returns (count': nat, seats': seq<Seat>)
    requires db.Valid()
    modifies db`entreprises, db`dirigeants
    ensures db.Valid()
    ensures Run(db.Snapshot(), count', seats') == ResultStep(Run(old(db.Snapshot()), count, seats), r)
  {
    ghost var d0 := db.Snapshot();
    count', seats' := count, seats;
    var siret := r.siret;
    if siret.Some? && Truthy(siret.value) {
      var entrepriseId := db.EntrepriseExistsBySiret(siret.value);
      var eid: nat;
      if entrepriseId.None? {
        eid := db.InsertEntreprise(EntrepriseOf(siret.value, r));
        count' := count' + 1;
      } else {
        eid := entrepriseId.value;
      }
      assert eid == IdFor(d0.entreprises, siret.value);
      ghost var d1 := db.Snapshot();
      assert d1 == d0.(entreprises := ResultStep(Run(d0, count, seats), r).db.entreprises);
      if r.dirigeants.Some? {
        AddDirigeants(db, eid, r.dirigeants.value);
      } else {
        assert WithDirigeants(db.dirigeants, eid, []) == db.dirigeants;
      }
      if r.siege.Some? {
        var adresse := r.siege.value.adresse.GetOr("");
        var codePostal := r.siege.value.codePostal.GetOr("");
        var ville := r.siege.value.ville.GetOr("");
        if Truthy(adresse) && Truthy(codePostal) && Truthy(ville) {
          seats' := seats' + [Seat(eid, adresse, codePostal, ville)];
        }
      }
      assert seats' == ResultStep(Run(d0, count, seats), r).seats;
      assert db.Snapshot() == d1.(dirigeants := WithDirigeants(d0.dirigeants, eid, DirigeantsOf(r)));
    }
  }

  /** `import`: returns the number of companies inserted and the
      registered offices that passed the guard. */
  method Import(db: EntityStore, response: Response) returns (totalImported: nat, seats: seq<Seat>)
    requires db.Valid()
    modifies db`entreprises, db`dirigeants
    ensures db.Valid()
    ensures Run(db.Snapshot(), totalImported, seats) == ImportEffect(old(db.Snapshot()), response)
  {
    totalImported, seats := 0, [];
    if response.status != 200 {
      return;
    }
    if response.results.None? {
      return;
    }
    var results := response.results.value;
    ghost var d0 := db.Snapshot();
    for i := 0 to |results|
      invariant db.Valid()
      invariant Run(db.Snapshot(), totalImported, seats) == ResultsEffect(d0, results[..i])
    {
      ResultsEffectSnoc(d0, results, i);
      totalImported, seats := ImportResult(db, results[i], totalImported, seats);
    }
    assert results[..|results|] == results;
  }
}

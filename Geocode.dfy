/** The registry crawler's three-tier geocoding fallback. The single lookup
    (a Nominatim search) is an oracle from a query text to an optional
    coordinate pair. */
module Geocode {
  import opened Php
  import opened Entities

  /** One lookup: the first hit for a query, if any. */
  type Geocoder = string -> Option<(Coord, Coord)>

  function Query(adresse: string, codePostal: string, ville: string): string {
    adresse + ", " + codePostal + " " + ville + ", France"
  }

  function TownQuery(codePostal: string, ville: string): string {
    codePostal + " " + ville + ", France"
  }

  /** `geocodeAdresse`: the full address; then, when the line has more than
      one space-separated word, the line without its first word; then the
      postcode and city alone. The first hit is returned. */
  function GeocodeAdresse(geo: Geocoder, adresse: string, codePostal: string, ville: string): Option<(Coord, Coord)> {
    var first := geo(Query(adresse, codePostal, ville));
    if first.Some? then first
    else
      var mots := Explode(adresse, ' ');
      var second := if |mots| > 1 then geo(Query(Implode(' ', mots[1..]), codePostal, ville)) else None;
      if second.Some? then second
      else geo(TownQuery(codePostal, ville))
  }

  /** The queries the fallback may send, in order. */
  function Queries(adresse: string, codePostal: string, ville: string): (qs: seq<string>)
    ensures 2 <= |qs| <= 3
    ensures qs[0] == Query(adresse, codePostal, ville)
    ensures qs[|qs| - 1] == TownQuery(codePostal, ville)
    ensures |qs| == 3 <==> ' ' in adresse
    ensures |qs| == 3 ==> exists i :: (FirstCharAt(adresse, ' ', i)
      && qs[1] == Query(adresse[i + 1..], codePostal, ville))
  {
    var mots := Explode(adresse, ' ');
    ExplodeTail(adresse, ' ');
    [Query(adresse, codePostal, ville)]
    + (if |mots| > 1 then [Query(Implode(' ', mots[1..]), codePostal, ville)] else [])
    + [TownQuery(codePostal, ville)]
  }

  /** The first hit over a list of queries: the reference the fallback is
      measured against. */
  function FirstHit(geo: Geocoder, qs: seq<string>): (r: Option<(Coord, Coord)>)
    ensures r.Some? <==> exists k :: 0 <= k < |qs| && geo(qs[k]).Some?
    ensures r.Some? ==> exists k :: (0 <= k < |qs| && r == geo(qs[k])
      && forall j :: 0 <= j < k ==> geo(qs[j]).None?)
  {
    if qs == [] then None
    else if geo(qs[0]).Some? then geo(qs[0])
    else
      var r := FirstHit(geo, qs[1..]);
      assert forall k :: 1 <= k < |qs| ==> qs[k] == qs[1..][k - 1];
      if r.Some? then
        var k :| 0 <= k < |qs[1..]| && r == geo(qs[1..][k]) && forall j :: 0 <= j < k ==> geo(qs[1..][j]).None?;
        assert r == geo(qs[k + 1]) && forall j :: 0 <= j < k + 1 ==> geo(qs[j]).None?;
        r
      else r
  }

  /** The fallback sends at most three queries, in the order of `Queries`,
      and returns the first hit among them, or null when none hits. */
  lemma GeocodeIsFirstHit(geo: Geocoder, adresse: string, codePostal: string, ville: string)
    ensures GeocodeAdresse(geo, adresse, codePostal, ville) == FirstHit(geo, Queries(adresse, codePostal, ville))
  {
    var qs := Queries(adresse, codePostal, ville);
    assert qs[1..][1..] == qs[2..];
    if |qs| == 3 {
      assert qs[2..][1..] == [];
    } else {
      assert qs[1..][1..] == [];
    }
  }
}

/** The page loop the two listing scrapers (PagesJaunes and PPLE) share, as a
    specification: which fetch happens at which page with which count of
    consecutive failures, and how each response moves the loop on. The
    imperative loops in `PagesJaunes` and `Pple` are proved to follow it. */
module Listing {
  import opened Php

  const MaxPages := 5
  const MaxFailCount := 3

  /** The two sites differ in their anti-bot markers and in what an empty
      results page does. */
  datatype Site = PagesJaunesSite | PpleSite

  /** The `source` column value of the companies a site's scraper inserts. */
  function SourceName(site: Site): string {
    match site
    case PagesJaunesSite => "pagesjaunes"
    case PpleSite => "pple"
  }

  /** One fetch of a results page: an HTTP response with its body and the
      result nodes found in it, a `RequestException`, another exception
      raised by the request itself, or an exception raised after a 200
      answer, while its body is read or parsed (the failure counter has
      been reset by then). */
  datatype Fetch<N> =
    | Http(status: int, body: string, nodes: seq<N>)
    | RequestFailure
    | FetchFailure
    | PageFailure

  /** What the loop does with one fetch. */
  datatype Outcome =
    | RateLimited  // 403 or 429 below the failure limit: the same page again
    | Failed       // RequestException below the failure limit: the next page
    | GaveUp       // the third consecutive failure: stop
    | Skipped      // another status, or another exception from the request: the next page
    | Unreadable   // an exception after a 200 answer: the next page
    | Challenged   // an anti-bot page: the next page
    | Empty        // no result on a later PagesJaunes page: the next page
    | Exhausted    // no result on the first page, or on any PPLE page: stop
    | Harvested    // results imported: the next page

  /** The body is an anti-bot page. */
  predicate Challenge(site: Site, body: string) {
    match site
    case PagesJaunesSite =>
      Contains(body, "Just a moment...") || Contains(body, "Cloudflare") || Contains(body, "captcha")
    case PpleSite => Contains(body, "captcha") || Contains(body, "security check")
  }

  /** The loop's decision for one fetch of `page` after `fails` consecutive
      failures. */
  function Decide<N>(site: Site, page: nat, fails: nat, f: Fetch<N>): Outcome {
    match f
    case RequestFailure => if fails + 1 >= MaxFailCount then GaveUp else Failed
    case FetchFailure => Skipped
    case PageFailure => Unreadable
    case Http(status, body, nodes) =>
      if status != 200 then
        if status == 403 || status == 429 then
          (if fails + 1 >= MaxFailCount then GaveUp else RateLimited)
        else Skipped
      else if Challenge(site, body) then Challenged
      else if |nodes| == 0 then
        (if site == PpleSite || page == 1 then Exhausted else Empty)
      else Harvested
  }

  predicate Stops(o: Outcome) {
    o == GaveUp || o == Exhausted
  }

  /** The consecutive-failure count after an outcome: a 200 resets it, even
      when reading the page fails afterwards; a rate limit or a request
      failure adds one; any other status or exception keeps it. */
  function FailsAfter(o: Outcome, fails: nat): nat {
    match o
    case RateLimited => fails + 1
    case Failed => fails + 1
    case GaveUp => fails + 1
    case Skipped => fails
    case Unreadable => 0
    case Challenged => 0
    case Empty => 0
    case Exhausted => 0
    case Harvested => 0
  }

  /** The page fetched after an outcome. */
  function PageAfter(o: Outcome, page: nat): nat {
    if o == RateLimited then page else page + 1
  }

  /** One fetch of the loop. */
  datatype Visit = Visit(page: nat, failsBefore: nat, outcome: Outcome)

  /** The fetches the loop makes from the `k`-th fetch on, at `page` after
      `fails` consecutive failures; `fetch(k)` is what the `k`-th fetch
      returns. */
  function Schedule<N>(site: Site, fetch: nat -> Fetch<N>, k: nat, page: nat, fails: nat): seq<Visit>
    requires 1 <= page && fails < MaxFailCount
    decreases MaxPages + 1 - page, MaxFailCount - fails
  {
    if page > MaxPages then []
    else
      var o := Decide(site, page, fails, fetch(k));
      if Stops(o) then [Visit(page, fails, o)]
      else [Visit(page, fails, o)] + Schedule(site, fetch, k + 1, PageAfter(o, page), FailsAfter(o, fails))
  }

  /** `Schedule` one fetch further, behind the fetches made so far. */
  lemma ScheduleUnfold<N>(site: Site, fetch: nat -> Fetch<N>, k: nat, page: nat, fails: nat, trace: seq<Visit>)
    requires 1 <= page <= MaxPages && fails < MaxFailCount
    ensures var o := Decide(site, page, fails, fetch(k));
      trace + Schedule(site, fetch, k, page, fails)
      == (trace + [Visit(page, fails, o)])
         + (if Stops(o) then [] else Schedule(site, fetch, k + 1, PageAfter(o, page), FailsAfter(o, fails)))
  {
  }

  /** The loop one fetch further: a
      stopping outcome completes the run; any other leaves the schedule from
      the next page and failure count, which stay within bounds and move
      the loop on. */
  lemma ScheduleStep<N>(site: Site, fetch: nat -> Fetch<N>, page: nat, fails: nat, trace: seq<Visit>, all: seq<Visit>)
    requires 1 <= page <= MaxPages && fails < MaxFailCount
    requires trace + Schedule(site, fetch, |trace|, page, fails) == all
    ensures var o := Decide(site, page, fails, fetch(|trace|));
      var trace' := trace + [Visit(page, fails, o)];
      && (Stops(o) ==> trace' == all)
      && (!Stops(o) ==>
            && page <= PageAfter(o, page) <= page + 1
            && FailsAfter(o, fails) < MaxFailCount
            && (PageAfter(o, page) == page ==> FailsAfter(o, fails) == fails + 1)
            && trace' + Schedule(site, fetch, |trace'|, PageAfter(o, page), FailsAfter(o, fails)) == all)
  {
    ScheduleUnfold(site, fetch, |trace|, page, fails, trace);
    OutcomeMoves(site, page, fails, fetch(|trace|));
  }

  /** An outcome that does not stop the loop moves to the next page, or
      stays on the page with one more failure, below the failure limit. */
  lemma OutcomeMoves<N>(site: Site, page: nat, fails: nat, f: Fetch<N>)
    requires fails < MaxFailCount
    ensures var o := Decide(site, page, fails, f);
      !Stops(o) ==>
        && page <= PageAfter(o, page) <= page + 1
        && FailsAfter(o, fails) < MaxFailCount
        && (PageAfter(o, page) == page ==> FailsAfter(o, fails) == fails + 1)
  {
  }

  /** A 200 answer resets the consecutive-failure count, whatever happens
      to the page after it: no failure before it counts towards giving up. */
  lemma AnswerResets<N>(site: Site, page: nat, fails: nat, f: Fetch<N>)
    requires f.PageFailure? || (f.Http? && f.status == 200)
    ensures var o := Decide(site, page, fails, f);
      FailsAfter(o, fails) == 0 && o != GaveUp && o != RateLimited
  {
  }

  /** The whole loop, from page 1 with no failure. */
  function Run<N>(site: Site, fetch: nat -> Fetch<N>): seq<Visit> {
    Schedule(site, fetch, 0, 1, 0)
  }

  /** Every fetched page lies in 1..5 and every fetch sees fewer than 3
      consecutive failures; the loop gives up only on a failure following
      two consecutive ones, and an empty page ends a PagesJaunes loop only on
      page 1. */
  lemma {:induction false} ScheduleVisits<N>(site: Site, fetch: nat -> Fetch<N>, k: nat, page: nat, fails: nat)
    requires 1 <= page && fails < MaxFailCount
    ensures forall v :: v in Schedule(site, fetch, k, page, fails) ==>
      page <= v.page <= MaxPages && v.failsBefore < MaxFailCount
      && (v.outcome == GaveUp ==> v.failsBefore == MaxFailCount - 1)
      && (v.outcome == Exhausted ==> site == PpleSite || v.page == 1)
      && (v.outcome == Empty ==> site == PagesJaunesSite && v.page > 1)
    decreases MaxPages + 1 - page, MaxFailCount - fails
  {
    if page <= MaxPages {
      var o := Decide(site, page, fails, fetch(k));
      if !Stops(o) {
        ScheduleVisits(site, fetch, k + 1, PageAfter(o, page), FailsAfter(o, fails));
      }
    }
  }

  /** Each page is fetched at most three times in a row, so the loop makes at
      most `(pages left) * 3 - fails` fetches: 15 from the start. */
  lemma {:induction false} ScheduleLength<N>(site: Site, fetch: nat -> Fetch<N>, k: nat, page: nat, fails: nat)
    requires 1 <= page <= MaxPages && fails < MaxFailCount
    ensures |Schedule(site, fetch, k, page, fails)| <= (MaxPages + 1 - page) * MaxFailCount - fails
    decreases MaxPages + 1 - page, MaxFailCount - fails
  {
    var o := Decide(site, page, fails, fetch(k));
    assert (MaxPages + 1 - page) * MaxFailCount == (MaxPages - page) * MaxFailCount + MaxFailCount;
    if !Stops(o) {
      var page', fails' := PageAfter(o, page), FailsAfter(o, fails);
      if page' <= MaxPages {
        ScheduleLength(site, fetch, k + 1, page', fails');
        assert |Schedule(site, fetch, k, page, fails)| == 1 + |Schedule(site, fetch, k + 1, page', fails')|;
        if o == RateLimited {
          assert page' == page && fails' == fails + 1;
        } else {
          assert page' == page + 1 && fails' <= fails + 1;
          assert (MaxPages + 1 - page') * MaxFailCount == (MaxPages - page) * MaxFailCount;
        }
      }
    }
  }

  /** The whole loop makes at most 15 fetches. */
  lemma RunLength<N>(site: Site, fetch: nat -> Fetch<N>)
    ensures |Run(site, fetch)| <= MaxPages * MaxFailCount
  {
    ScheduleLength(site, fetch, 0, 1, 0);
  }

  /** Consecutive fetches: a rate-limited page is fetched again with one more
      failure; every other outcome moves to the next page, a 200 with the
      count reset, a request failure with one more, another status keeping
      it. Only the last fetch can stop the loop. */
  lemma {:induction false} ScheduleSteps<N>(site: Site, fetch: nat -> Fetch<N>, k: nat, page: nat, fails: nat)
    requires 1 <= page && fails < MaxFailCount
    ensures var t := Schedule(site, fetch, k, page, fails);
      forall i :: 0 <= i < |t| - 1 ==>
        !Stops(t[i].outcome)
        && t[i + 1].page == PageAfter(t[i].outcome, t[i].page)
        && t[i + 1].failsBefore == FailsAfter(t[i].outcome, t[i].failsBefore)
    ensures var t := Schedule(site, fetch, k, page, fails);
      t != [] ==> t[0].page == page && t[0].failsBefore == fails
    decreases MaxPages + 1 - page, MaxFailCount - fails
  {
    if page <= MaxPages {
      var o := Decide(site, page, fails, fetch(k));
      if !Stops(o) {
        ScheduleSteps(site, fetch, k + 1, PageAfter(o, page), FailsAfter(o, fails));
      }
    }
  }

  /** The result nodes of a fetch (none unless it is an HTTP response). */
  function NodesOf<N>(f: Fetch<N>): seq<N> {
    match f
    case Http(_, _, nodes) => nodes
    case _ => []
  }

  /** The nodes the loop imports over a trace: those of every harvested
      fetch, in order; the `i`-th visit is the `i`-th fetch. */
  function Harvest<N>(fetch: nat -> Fetch<N>, trace: seq<Visit>): seq<N> {
    if trace == [] then []
    else
      var i := |trace| - 1;
      Harvest(fetch, trace[..i]) + (if trace[i].outcome == Harvested then NodesOf(fetch(i)) else [])
  }

  /** `Harvest` over one more visit. */
  lemma HarvestSnoc<N>(fetch: nat -> Fetch<N>, trace: seq<Visit>, v: Visit)
    ensures Harvest(fetch, trace + [v])
      == Harvest(fetch, trace) + (if v.outcome == Harvested then NodesOf(fetch(|trace|)) else [])
  {
    assert (trace + [v])[..|trace|] == trace;
  }

  /** Only harvested fetches contribute, so a run that never reaches a page
      with results imports nothing. */
  lemma {:induction false} HarvestNone<N>(fetch: nat -> Fetch<N>, trace: seq<Visit>)
    requires forall v :: v in trace ==> v.outcome != Harvested
    ensures Harvest(fetch, trace) == []
  {
    if trace != [] {
      HarvestNone(fetch, trace[..|trace| - 1]);
    }
  }
}

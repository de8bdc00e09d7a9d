/** `EntrepriseImporter::runImport`: every keyword crossed with every
    enabled source, one `import_logs` row opened and closed per pair, and
    a failing source isolated from the others. The source importers
    themselves are an oracle here: for a source, a keyword and a location
    an import either completes with a count or throws with a message. */
module Orchestrator {
  import opened Php

  /** An entry of the `$sources` map, in map order. */
  datatype SourceFlag = SourceFlag(name: string, enabled: bool)

  /** Only the registry crawler is switched on. */
  const DefaultSources := [
    SourceFlag("pagesjaunes", false),
    SourceFlag("infogreffe", false),
    SourceFlag("pple", false),
    SourceFlag("datagouv", true)]

  /** The default arguments of `runImport`. */
  const DefaultKeywords := ["restaurant", "coiffeur", "boulangerie"]
  const DefaultLocation := "Paris"

  /** The pool the user agent of each new HTTP client is drawn from. */
  const UserAgents := [ChromeWindows, SafariMac, FirefoxWindows, ChromeLinux, EdgeWindows]

  const ChromeWindows := "Mozilla/5.0 (Windows NT 10.0; Win64; x64) AppleWebKit/537.36 (KHTML, like Gecko) Chrome/96.0.4664.110 Safari/537.36"
  const SafariMac := "Mozilla/5.0 (Macintosh; Intel Mac OS X 10_15_7) AppleWebKit/605.1.15 (KHTML, like Gecko) Version/15.0 Safari/605.1.15"
  const FirefoxWindows := "Mozilla/5.0 (Windows NT 10.0; Win64; x64; rv:96.0) Gecko/20100101 Firefox/96.0"
  const ChromeLinux := "Mozilla/5.0 (X11; Linux x86_64) AppleWebKit/537.36 (KHTML, like Gecko) Chrome/96.0.4664.45 Safari/537.36"
  const EdgeWindows := "Mozilla/5.0 (Windows NT 10.0; Win64; x64) AppleWebKit/537.36 (KHTML, like Gecko) Chrome/96.0.4664.110 Safari/537.36 Edg/96.0.1054.62"

  /** A user agent drawn from the pool. */
  predicate FromPool(ua: string) {
    exists k :: 0 <= k < |UserAgents| && UserAgents[k] == ua
  }

  /** The importer classes `getImporter` can build. */
  datatype Kind = PagesJaunes | Infogreffe | Pple | DataGouv

  /** `getImporter`'s switch: the importer a source name selects. */
  function KindOf(name: string): Option<Kind> {
    if name == "pagesjaunes" then Some(PagesJaunes)
    else if name == "infogreffe" then Some(Infogreffe)
    else if name == "pple" then Some(Pple)
    else if name == "datagouv" then Some(DataGouv)
    else None
  }

  /** What one call of `import($keyword, $location)` does. */
  datatype Outcome = Completed(total: int) | Failed(message: string)

  type Runner = (Kind, string, string) -> Outcome

  /** A row of `import_logs`; `closed` says whether `date_fin` was set. */
  datatype ImportLog = ImportLog(
    source: string,
    statut: string,
    message: Option<string>,
    nbEntreprises: Option<int>,
    closed: bool)

  /** The message of a freshly opened row. */
  function StartMessage(source: string, keyword: string): (m: string)
    ensures Truthy(keyword) ==> m == "Début de l'import depuis " + source + " pour '" + keyword + "'"
    ensures !Truthy(keyword) ==> m == "Début de l'import depuis " + source
  {
    "Début de l'import depuis " + source + if Truthy(keyword) then " pour '" + keyword + "'" else ""
  }

  function NotFound(source: string): string {
    "Importateur non trouvé pour " + source
  }

  /** The row `logImportStart` inserts. */
  function Opened(source: string, keyword: string): ImportLog {
    ImportLog(source, "en_cours", Some(StartMessage(source, keyword)), None, false)
  }

  /** `UPDATE import_logs SET date_fin, statut, message WHERE id = ?`: only
      the row with that id changes; no such row, no change. */
  function Ended(logs: seq<ImportLog>, id: Option<nat>, statut: string, message: Option<string>): (r: seq<ImportLog>)
    ensures |r| == |logs|
    ensures forall j :: 0 <= j < |logs| && id != Some(j + 1) ==> r[j] == logs[j]
    ensures id.Some? && 1 <= id.value <= |logs| ==>
      r[id.value - 1] == logs[id.value - 1].(statut := statut, message := message, closed := true)
  {
    if id.Some? && 1 <= id.value <= |logs| then
      logs[id.value - 1 := logs[id.value - 1].(statut := statut, message := message, closed := true)]
    else logs
  }

  /** `UPDATE import_logs SET nb_entreprises WHERE id = ?`. */
  function Counted(logs: seq<ImportLog>, id: Option<nat>, count: int): (r: seq<ImportLog>)
    ensures |r| == |logs|
    ensures forall j :: 0 <= j < |logs| && id != Some(j + 1) ==> r[j] == logs[j]
    ensures id.Some? && 1 <= id.value <= |logs| ==> r[id.value - 1] == logs[id.value - 1].(nbEntreprises := Some(count))
  {
    if id.Some? && 1 <= id.value <= |logs| then logs[id.value - 1 := logs[id.value - 1].(nbEntreprises := Some(count))]
    else logs
  }

  /** An opened row once the importer `getImporter` built, if any, has
      run: closed as 'termine' with the count and no message, or as
      'erreur' with the exception's message or the missing-importer
      message. */
  function Finished(row: ImportLog, importer: Option<Kind>, keyword: string, location: string, run: Runner): ImportLog {
    match importer
    case None => row.(statut := "erreur", message := Some(NotFound(row.source)), closed := true)
    case Some(k) =>
      match run(k, keyword, location)
      case Completed(n) => row.(nbEntreprises := Some(n), statut := "termine", message := None, closed := true)
      case Failed(m) => row.(statut := "erreur", message := Some(m), closed := true)
  }

  /** The row a processed (keyword, source) pair leaves behind. */
  function Closed(source: string, keyword: string, location: string, run: Runner): ImportLog {
    Finished(Opened(source, keyword), KindOf(source), keyword, location, run)
  }

  /** The rows one keyword leaves, over the sources in map order. */
  function KeywordRows(sources: seq<SourceFlag>, keyword: string, location: string, run: Runner): seq<ImportLog> {
    if sources == [] then []
    else
      var last := sources[|sources| - 1];
      KeywordRows(sources[..|sources| - 1], keyword, location, run)
      + if last.enabled then [Closed(last.name, keyword, location, run)] else []
  }

  /** The rows `runImport` leaves, keyword after keyword. */
  function RunRows(sources: seq<SourceFlag>, keywords: seq<string>, location: string, run: Runner): seq<ImportLog> {
    if keywords == [] then []
    else RunRows(sources, keywords[..|keywords| - 1], location, run)
         + KeywordRows(sources, keywords[|keywords| - 1], location, run)
  }

  lemma KeywordRowsSnoc(sources: seq<SourceFlag>, j: nat, keyword: string, location: string, run: Runner)
    requires j < |sources|
    ensures KeywordRows(sources[..j + 1], keyword, location, run) == KeywordRows(sources[..j], keyword, location, run)
      + if sources[j].enabled then [Closed(sources[j].name, keyword, location, run)] else []
  {
    assert sources[..j + 1][..j] == sources[..j];
  }

  lemma RunRowsSnoc(sources: seq<SourceFlag>, keywords: seq<string>, i: nat, location: string, run: Runner)
    requires i < |keywords|
    ensures RunRows(sources, keywords[..i + 1], location, run)
         == RunRows(sources, keywords[..i], location, run) + KeywordRows(sources, keywords[i], location, run)
  {
    assert keywords[..i + 1][..i] == keywords[..i];
  }

  // ---------------------------------------------------------------- the plan

  /** The names of the enabled sources, in map order. */
  function Enabled(sources: seq<SourceFlag>): (names: seq<string>)
    ensures |names| <= |sources|
  {
    if sources == [] then []
    else Enabled(sources[..|sources| - 1]) + if sources[|sources| - 1].enabled then [sources[|sources| - 1].name] else []
  }

  /** A (keyword, source) pair to process. */
  datatype Pair = Pair(keyword: string, source: string)

  /** Every keyword, in order, crossed with every enabled source, in order:
      the reference the rows are measured against. */
  function Plan(keywords: seq<string>, names: seq<string>): (p: seq<Pair>)
    ensures |p| == |keywords| * |names|
  {
    if keywords == [] then []
    else
      var kw := keywords[|keywords| - 1];
      Plan(keywords[..|keywords| - 1], names) + seq(|names|, j requires 0 <= j < |names| => Pair(kw, names[j]))
  }

  /** The rows of one keyword are those of its enabled sources, one each. */
  lemma {:induction false} KeywordRowsByName(sources: seq<SourceFlag>, keyword: string, location: string, run: Runner)
    ensures var rows := KeywordRows(sources, keyword, location, run); var names := Enabled(sources);
      |rows| == |names| && forall j :: 0 <= j < |names| ==> rows[j] == Closed(names[j], keyword, location, run)
  {
    if sources != [] {
      KeywordRowsByName(sources[..|sources| - 1], keyword, location, run);
    }
  }

  /** The pair at position `i * m + j` of the plan is keyword `i` with
      enabled source `j`. */
  lemma {:induction false} PlanAt(keywords: seq<string>, names: seq<string>, i: nat, j: nat)
    requires i < |keywords| && j < |names|
    ensures i * |names| + j < |Plan(keywords, names)|
    ensures Plan(keywords, names)[i * |names| + j] == Pair(keywords[i], names[j])
  {
    var m := |names|;
    var front := keywords[..|keywords| - 1];
    var p := Plan(front, names);
    assert |p| == (|keywords| - 1) * m;
    if i < |keywords| - 1 {
      PlanAt(front, names, i, j);
      MulMonotone(i + 1, |keywords| - 1, m);
      assert front[i] == keywords[i];
    } else {
      assert i * m == |p|;
    }
  }

  lemma MulMonotone(a: nat, b: nat, m: nat)
    requires a <= b
    ensures a * m <= b * m
  {
  }

  /** Row `k` of a run is the row of the `k`-th planned pair, and nothing
      else: each pair's row depends only on that pair's own outcome, so a
      source that fails or is unknown leaves every other row as it would
      have been. */
  lemma {:induction false} RunRowsByPlan(sources: seq<SourceFlag>, keywords: seq<string>, location: string, run: Runner)
    ensures Follows(RunRows(sources, keywords, location, run), Plan(keywords, Enabled(sources)), location, run)
  {
    if keywords != [] {
      var front := keywords[..|keywords| - 1];
      var kw := keywords[|keywords| - 1];
      var names := Enabled(sources);
      RunRowsByPlan(sources, front, location, run);
      KeywordRowsByName(sources, kw, location, run);
      var tail := seq(|names|, j requires 0 <= j < |names| => Pair(kw, names[j]));
      assert Follows(KeywordRows(sources, kw, location, run), tail, location, run);
      FollowsAppend(RunRows(sources, front, location, run), Plan(front, names),
                    KeywordRows(sources, kw, location, run), tail, location, run);
    }
  }

  /** Row `k` is the closed row of the `k`-th pair of the plan. */
  predicate Follows(rows: seq<ImportLog>, plan: seq<Pair>, location: string, run: Runner) {
    |rows| == |plan| && forall k :: 0 <= k < |plan| ==> rows[k] == Closed(plan[k].source, plan[k].keyword, location, run)
  }

  lemma FollowsAppend(a: seq<ImportLog>, pa: seq<Pair>, b: seq<ImportLog>, pb: seq<Pair>, location: string, run: Runner)
    requires Follows(a, pa, location, run) && Follows(b, pb, location, run)
    ensures Follows(a + b, pa + pb, location, run)
  {
    forall k | 0 <= k < |pa + pb|
      ensures (a + b)[k] == Closed((pa + pb)[k].source, (pa + pb)[k].keyword, location, run)
    {
      if k >= |pa| {
        assert (a + b)[k] == b[k - |a|] && (pa + pb)[k] == pb[k - |pa|];
      }
    }
  }

  /** Every row a run leaves is closed, as 'termine' or 'erreur'. */
  lemma RunRowsClosed(sources: seq<SourceFlag>, keywords: seq<string>, location: string, run: Runner)
    ensures forall row :: row in RunRows(sources, keywords, location, run) ==>
      row.closed && (row.statut == "termine" || row.statut == "erreur")
  {
    RunRowsByPlan(sources, keywords, location, run);
  }

  /** Of the default sources only the registry crawler is enabled. */
  lemma DefaultEnabled()
    ensures Enabled(DefaultSources) == ["datagouv"]
  {
    var d := DefaultSources;
    assert d[..1][..0] == [] && d[..2][..1] == d[..1] && d[..3][..2] == d[..2] && d[..3] == d[..|d| - 1];
    assert Enabled(d[..1]) == [];
    assert Enabled(d[..2]) == [];
    assert Enabled(d[..3]) == [];
  }

  /** With the default sources each keyword gets exactly one row, for the
      registry crawler, closed as 'termine' exactly when that import
      completes: the missing-importer error cannot occur. */
  lemma DefaultRun(keywords: seq<string>, location: string, run: Runner)
    ensures var rows := RunRows(DefaultSources, keywords, location, run);
      |rows| == |keywords|
      && forall k :: 0 <= k < |keywords| ==>
           (rows[k].source == "datagouv" && rows[k].closed
            && (rows[k].statut == "termine" <==> run(DataGouv, keywords[k], location).Completed?))
  {
    DefaultEnabled();
    var names := Enabled(DefaultSources);
    RunRowsByPlan(DefaultSources, keywords, location, run);
    forall k | 0 <= k < |keywords|
      ensures Plan(keywords, names)[k] == Pair(keywords[k], "datagouv")
    {
      PlanAt(keywords, names, k, 0);
    }
  }

  // ---------------------------------------------------------------- the class

  class EntrepriseImporter {
    var sources: seq<SourceFlag>
    var importLogId: Option<nat>
    var currentUserAgent: string
    /** The `import_logs` table; row `i` has id `i + 1`. */
    var logs: seq<ImportLog>

    constructor ()
      ensures sources == DefaultSources && importLogId == None && logs == []
      ensures FromPool(currentUserAgent)
    {
      sources, importLogId, logs := DefaultSources, None, [];
      var k :| 0 <= k < |UserAgents|;
      currentUserAgent := UserAgents[k];
    }

    /** `logImportStart`: opens a row and remembers its id. */
    method LogImportStart(source: string, keyword: string)
      modifies this`logs, this`importLogId
      ensures logs == old(logs) + [Opened(source, keyword)]
      ensures importLogId == Some(|logs|) && logs[|logs| - 1].statut == "en_cours"
    {
      logs := logs + [Opened(source, keyword)];
      importLogId := Some(|logs|);
    }

    /** `logImportEnd` */
    method LogImportEnd(source: string, statut: string, message: Option<string>)
      modifies this`logs
      ensures logs == Ended(old(logs), importLogId, statut, message)
    {
      if importLogId.Some? && 1 <= importLogId.value <= |logs| {
        logs := logs[importLogId.value - 1 := logs[importLogId.value - 1].(statut := statut, message := message, closed := true)];
      }
    }

    /** `updateImportCount` */
    method UpdateImportCount(count: int)
      modifies this`logs
      ensures logs == Counted(old(logs), importLogId, count)
    {
      if importLogId.Some? && 1 <= importLogId.value <= |logs| {
        logs := logs[importLogId.value - 1 := logs[importLogId.value - 1].(nbEntreprises := Some(count))];
      }
    }

    /** `getImporter`: a fresh user agent from the pool, then the importer
        the source name selects, if any. */
    method GetImporter(sourceName: string) returns (importer: Option<Kind>)
      modifies this`currentUserAgent
      ensures FromPool(currentUserAgent)
      ensures importer == KindOf(sourceName)
    {
      var k :| 0 <= k < |UserAgents|;
      currentUserAgent := UserAgents[k];
      importer := KindOf(sourceName);
    }

    /** One enabled source for one keyword: open a row, run the importer,
        close the row. */
    method ProcessSource(sourceName: string, keyword: string, location: string, run: Runner)
      modifies this`logs, this`importLogId, this`currentUserAgent
      ensures logs == old(logs) + [Closed(sourceName, keyword, location, run)]
      ensures importLogId == Some(|logs|)
    {
      LogImportStart(sourceName, keyword);
      var importer := GetImporter(sourceName);
      ghost var logs1, row := logs, Opened(sourceName, keyword);
      assert Closed(sourceName, keyword, location, run) == Finished(row, importer, keyword, location, run);
      if importer.Some? {
        var outcome := run(importer.value, keyword, location);
        match outcome {
          case Completed(total) =>
            UpdateImportCount(total);
            LogImportEnd(sourceName, "termine", None);
          case Failed(message) =>
            LogImportEnd(sourceName, "erreur", Some(message));
        }
      } else {
        LogImportEnd(sourceName, "erreur", Some(NotFound(sourceName)));
      }
    }

    /** The sources for one keyword. */
    method ProcessKeyword(keyword: string, location: string, run: Runner)
      modifies this`logs, this`importLogId, this`currentUserAgent
      ensures logs == old(logs) + KeywordRows(sources, keyword, location, run)
    {
      ghost var logs0 := logs;
      for j := 0 to |sources|
        invariant logs == logs0 + KeywordRows(sources[..j], keyword, location, run)
      {
        KeywordRowsSnoc(sources, j, keyword, location, run);
        var source := sources[j];
        if source.enabled {
          ProcessSource(source.name, keyword, location, run);
        }
      }
      assert sources[..|sources|] == sources;
    }

    /** `runImport` */
    method RunImport(keywords: seq<string>, location: string, run: Runner)
      modifies this`logs, this`importLogId, this`currentUserAgent
      ensures logs == old(logs) + RunRows(sources, keywords, location, run)
    {
      ghost var logs0 := logs;
      for i := 0 to |keywords|
        invariant logs == logs0 + RunRows(sources, keywords[..i], location, run)
      {
        RunRowsSnoc(sources, keywords, i, location, run);
        ProcessKeyword(keywords[i], location, run);
      }
      assert keywords[..|keywords|] == keywords;
    }
  }
}

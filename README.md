# BusinessDirectory import pipeline and JSON API, in Dafny

This project models the core of BusinessDirectory, a French company directory. The core has two parts:

- the importer that fills the database. It scrapes two directory sites (PagesJaunes and PPLE), crawls the annuaire-entreprises registry pages ("datagouv"), reads the Infogreffe JSON API, and records each run in an import log;
- the read-only JSON API that serves the stored companies.

The database is a value. `Entities.Db` holds one sequence per table: entreprises, adresses, contacts, sites_web, activites, entreprises_activites and dirigeants. Row `i` has id `i + 1`, as with auto-increment from 1. A SELECT returns the first matching row. The shared insert helpers of the importers form the class `Store.EntityStore`. Its fields are these tables, and its methods reassign them. The page loops of each importer are methods with loop invariants. Each is proved against a pure function that states what the whole run does to the tables.

The web, the geocoder, the Infogreffe service, the database connection and the importers run by the orchestrator are oracles. They are functions passed as parameters, or records of such functions, and they return the response the source would receive.

Modules, one per file:

- `Php`: the PHP string built-ins the core relies on: `trim`, `strpos`, `explode`/`implode`, `strtolower`, `\s`, `is_numeric` on digit strings, loose `==`, and truthiness.
- `Tables`: first/last matching row, and `INSERT IGNORE` under a unique key.
- `Entities`: row and input records, column defaults, and the unique keys.
- `ActivityRule`: `getOrCreateActivite` as a function on the activites table.
- `Store`: `class EntityStore` with the insert helpers of `BaseSourceImporter`.
- `AddressParse`: the three address regular expressions.
- `Listing`: the page loop shared by the PagesJaunes and PPLE scrapers. It covers retries, the failure limit, and the page limit.
- `Scraping`: what one listing card does to the database, and the imperative loops that apply it.
- `PagesJaunes`, `Pple`: the two scrapers.
- `DataGouvLinks`, `DataGouvWeb`, `Geocode`, `DataGouv`: the registry crawler.
- `Infogreffe`: the Infogreffe JSON importer.
- `Orchestrator`: `class EntrepriseImporter`, which runs the enabled sources per keyword and writes the import log.
- `Api`: routing, pagination and the answers of `public/api/index.php`.

## Model

| member | source | states |
|---|---|---|
| Php.Trim | src/Importer/Sources/BaseSourceImporter.php:175-176 | trim removes exactly the leading and trailing whitespace run; the result starts and ends with a non-space character |
| Php.TrimIdempotent | src/Importer/Sources/PagesJaunesImporter.php:105-109 | trimming an already trimmed name changes nothing |
| Php.IndexOf | src/Importer/Sources/BaseSourceImporter.php:172 | strpos finds the leftmost occurrence of the needle, and none exists when it reports false |
| Php.SplitFirst | src/Importer/Sources/BaseSourceImporter.php:172-174 | explode with limit 2 succeeds exactly when the separator occurs; the input is head + separator + tail with no separator in the head |
| Php.Explode | src/Importer/Sources/PpleImporter.php:192-206 | explode yields at least one piece, and no piece contains the separator |
| Php.ImplodeExplode | src/Importer/Sources/DataGouvImporter.php:548-552 | implode(sep, explode(sep, s)) gives back s |
| Php.ExplodeTail | src/Importer/Sources/DataGouvImporter.php:548-552 | dropping the first word leaves exactly the text after the first space, and there is more than one word exactly when the text contains a space |
| Php.StripSpaces | src/Importer/Sources/PpleImporter.php:160-169 | the phone number without whitespace holds no whitespace, and a number without whitespace is left unchanged |
| Php.LowerAscii | src/Importer/Sources/DataGouvImporter.php:459 | lower-casing keeps the length and maps exactly A-Z to a-z |
| Php.NatToStringValue | src/Importer/Sources/DataGouvImporter.php:328 | the decimal string of n denotes n |
| Php.LooseEqualsNumber | src/Importer/Sources/DataGouvImporter.php:150 | loose == between a text and the string of n holds exactly when the text is a digit string whose value is n |
| Tables.FirstIndex | src/Importer/Sources/BaseSourceImporter.php:53-57 | a SELECT by key returns the first matching row, and no row matches when it returns nothing |
| Tables.LastIndex | src/Importer/Sources/DataGouvImporter.php:457-462 | the scan keeps the last matching row |
| Tables.CollectExact | src/Importer/Sources/DataGouvImporter.php:278-294 | a value is collected exactly when some element produces it |
| Tables.InsertIgnore | src/Importer/Sources/BaseSourceImporter.php:218-224 | INSERT IGNORE leaves the table unchanged on a unique-key clash and appends the row otherwise |
| Tables.InsertIgnoreDistinct | src/Importer/Sources/BaseSourceImporter.php:139-145 | INSERT IGNORE keeps a table free of unique-key duplicates |
| Tables.InsertIgnoreTwice | src/Importer/Sources/BaseSourceImporter.php:154-160 | a second INSERT IGNORE of the same row changes nothing |
| ActivityRule.SplitLabel | src/Importer/Sources/BaseSourceImporter.php:172-177 | a label "libelle - code" without an explicit code is cut at the first " - " and both parts are trimmed; otherwise the label is kept as is |
| ActivityRule.SeparatedUnique | src/Importer/Sources/BaseSourceImporter.php:172-177 | the split is determined by the first separator: any head without a separator gives the same result |
| ActivityRule.Resolve | src/Importer/Sources/BaseSourceImporter.php:169-216 | the returned id names a row of the new table, and the table grows by at most one row |
| ActivityRule.ResolveKeeps | src/Importer/Sources/BaseSourceImporter.php:203-208 | no label ever changes; only the matched row may change, and only when its code was empty |
| ActivityRule.ResolveByCode | src/Importer/Sources/BaseSourceImporter.php:181-189 | when some row has the code, the table is unchanged and the id is the first row with that code |
| ActivityRule.ResolveByLabel | src/Importer/Sources/BaseSourceImporter.php:192-208 | when no row has the code but one has the label, the id is the first such row, whose code is filled in only if it was NULL or empty |
| ActivityRule.ResolveAppends | src/Importer/Sources/BaseSourceImporter.php:196-202 | when neither code nor label is known, a row (label, code) is appended and its id returned |
| ActivityRule.ResolveTwice | src/Importer/Sources/BaseSourceImporter.php:169-216 | resolving the same label a second time returns the same id and table: getOrCreateActivite is idempotent |
| ActivityRule.ResolveGrowsByAtMostOne | src/Importer/Sources/BaseSourceImporter.php:196-202 | two resolutions of one label add at most one row |
| Store.UpsertAdresse | src/Importer/Sources/BaseSourceImporter.php:106-129 | with no row on the same key the address is appended; otherwise the count is kept, every key is kept, rows off the key are untouched, and the clashing row is refreshed from the new data |
| Store.UpsertAdresseDistinct | src/Importer/Sources/BaseSourceImporter.php:110-114 | the upsert keeps the address key unique |
| Store.UpsertAdresseTwice | src/Importer/Sources/BaseSourceImporter.php:106-129 | upserting the same address twice is the same as once |
| Store.SetCoordinates | src/Importer/Sources/PpleImporter.php:149-155 | exactly the addresses of that company, postcode and town get the coordinates; their text and every other row are unchanged |
| Store.ByName | src/Importer/Sources/BaseSourceImporter.php:53-57 | the id is the first company with that name and source, and none is returned exactly when no such company exists |
| Store.BySiret | src/Importer/Sources/BaseSourceImporter.php:65-69 | the id is the first company with that siret, and none is returned exactly when no row has it |
| Store.EntityStore.constructor | src/Importer/Sources/BaseSourceImporter.php:53-246 | a store starts with every table empty |
| Store.EntityStore.InsertEntreprise | src/Importer/Sources/BaseSourceImporter.php:77-97 | the company row with its column defaults is appended, and its id is the new row count |
| Store.EntityStore.InsertAdresse | src/Importer/Sources/BaseSourceImporter.php:106-129 | the address table becomes its upsert with the defaulted row |
| Store.EntityStore.InsertContact | src/Importer/Sources/BaseSourceImporter.php:139-145 | the contact is inserted under INSERT IGNORE |
| Store.EntityStore.InsertSiteWeb | src/Importer/Sources/BaseSourceImporter.php:154-160 | the web site is inserted under INSERT IGNORE |
| Store.EntityStore.GetOrCreateActivite | src/Importer/Sources/BaseSourceImporter.php:169-216 | the new activites table and the returned id are the resolution of the label |
| Store.EntityStore.AssociateActivite | src/Importer/Sources/BaseSourceImporter.php:218-224 | the company-activity link is inserted under INSERT IGNORE |
| Store.EntityStore.InsertDirigeant | src/Importer/Sources/BaseSourceImporter.php:232-246 | the director is inserted under INSERT IGNORE |
| Store.EntityStore.UpdateCoordinates | src/Importer/Sources/PpleImporter.php:149-155 | the address table gets the coordinates of that location |
| Store.DirigeantWithNullRepeats | src/Importer/Sources/BaseSourceImporter.php:232-246 | a director with a NULL first name or function never clashes, not even with a stored copy, so inserting it twice always adds two rows |
| Store.DirigeantNamedOnce | src/Importer/Sources/BaseSourceImporter.php:232-246 | a fully named director is inserted at most once |
| AddressParse.SpaceRun | src/Importer/Sources/PagesJaunesImporter.php:130 | `\s+` matches the whole whitespace run that starts at a position |
| AddressParse.MatchAtComplete | src/Importer/Sources/PagesJaunesImporter.php:130 | the matcher for a given end of street finds a match exactly when the pattern can match with the street ending there |
| AddressParse.FirstMatch | src/Importer/Sources/PagesJaunesImporter.php:130 | the lazy street group takes the shortest street that lets the pattern match |
| AddressParse.LastMatch | src/Importer/Sources/DataGouvImporter.php:469 | the greedy street group takes the longest street that lets the pattern match |
| AddressParse.Groups | src/Importer/Sources/PagesJaunesImporter.php:130-144 | the captured postcode has five digits |
| AddressParse.ParsePagesJaunes | src/Importer/Sources/PagesJaunesImporter.php:127-144 | a parsed address has a five-digit postcode |
| AddressParse.ParsePple | src/Importer/Sources/PpleImporter.php:127-143 | a parsed address has a five-digit postcode |
| AddressParse.ParseDataGouv | src/Importer/Sources/DataGouvImporter.php:469-474 | a parsed address has a five-digit postcode |
| AddressParse.PagesJaunesShortestStreet | src/Importer/Sources/PagesJaunesImporter.php:130 | the PagesJaunes pattern matches exactly when some split of street, postcode and town fits, and then it captures the split with the shortest street |
| AddressParse.DataGouvLongestStreet | src/Importer/Sources/DataGouvImporter.php:469 | the registry pattern matches exactly when some split fits, and then it captures the split with the longest street |
| AddressParse.PpleCommaFirst | src/Importer/Sources/PpleImporter.php:131-132 | the comma pattern wins whenever it matches; otherwise the PPLE parse is the blank-separated greedy one |
| Listing.ScheduleStep | src/Importer/Sources/PagesJaunesImporter.php:25-98 | each fetch decides one visit; the loop stops or moves on by at most one page with fewer than three consecutive failures, and a retry keeps the page and counts one more failure |
| Listing.OutcomeMoves | src/Importer/Sources/PagesJaunesImporter.php:48-68 | a 403 or 429 answer retries the same page, other answers move to the next page, and the failure count stays below three |
| Listing.ScheduleVisits | src/Importer/Sources/PagesJaunesImporter.php:25-98 | every visited page lies between the first page and five; the run gives up only on the third consecutive failure; an empty first page stops the run, and on PPLE so does an empty later page, while PagesJaunes skips an empty later page |
| Listing.ScheduleLength | src/Importer/Sources/PagesJaunesImporter.php:25-61 | the remaining fetches are bounded by the remaining pages times three |
| Listing.RunLength | src/Importer/Sources/PpleImporter.php:20-95 | a whole run makes at most fifteen fetches |
| Listing.ScheduleSteps | src/Importer/Sources/PagesJaunesImporter.php:25-205 | consecutive visits follow the page and failure-count updates of the loop: a 200 resets the count even when reading the page then throws, a rate limit or request exception adds one, another status or exception from the request keeps it; the first visit is the starting page |
| Listing.AnswerResets | src/Importer/Sources/PagesJaunesImporter.php:68 | after a 200 answer, or an exception raised while reading it, the failure count is 0 and the loop neither retries nor gives up |
| Listing.HarvestSnoc | src/Importer/Sources/PagesJaunesImporter.php:100-183 | only pages with listings contribute cards, in visit order |
| Listing.HarvestNone | src/Importer/Sources/PagesJaunesImporter.php:90-98 | a run without a harvested page yields no card |
| Scraping.KeepLabelsExact | src/Importer/Sources/PagesJaunesImporter.php:165-179 | the kept labels are exactly the trimmed non-empty pieces |
| Scraping.ActivityLabelsExact | src/Importer/Sources/PpleImporter.php:192-206 | the categories are exactly the trimmed non-empty pieces of the comma-separated text, none containing a comma |
| Scraping.LinkOneProps | src/Importer/Sources/PagesJaunesImporter.php:170-177 | one label yields an activity id of the table and a link to it; the tables grow by at most one row each and only by appending |
| Scraping.LinkIgnored | src/Importer/Sources/BaseSourceImporter.php:218-224 | after the link insert the link is present and the links stay duplicate-free |
| Scraping.LinkedProps | src/Importer/Sources/PagesJaunesImporter.php:165-179 | every label yields a valid activity id linked to the company, and the tables grow by at most one row per label |
| Scraping.LinkLabel | src/Importer/Sources/PagesJaunesImporter.php:170-177 | the activites and links tables become those of linking one label |
| Scraping.LinkPieces | src/Importer/Sources/PagesJaunesImporter.php:165-179 | the loop over the activity nodes links exactly the kept labels, in order |
| Scraping.LinkActivities | src/Importer/Sources/PpleImporter.php:192-206 | the loop over the category text links exactly its labels, in order |
| Scraping.AddListing | src/Importer/Sources/PagesJaunesImporter.php:112-124 | a named card is listed afterwards; a row is appended only when the name is new for that source, and names stay unique per source |
| Scraping.AddListingsSound | src/Importer/Sources/PagesJaunesImporter.php:112-124 | every appended row comes from a named card whose name was not yet listed |
| Scraping.AddListingsComplete | src/Importer/Sources/PagesJaunesImporter.php:112-124 | every named card is listed afterwards, and names stay unique per source |
| Scraping.AddListingsAppend | src/Importer/Sources/PagesJaunesImporter.php:100-183 | listing two batches of cards one after the other is listing them together |
| Scraping.AddListingsAgain | src/Importer/Sources/PagesJaunesImporter.php:112-124 | a second pass over the same cards adds no company |
| Scraping.AddListingsPresent | src/Importer/Sources/PagesJaunesImporter.php:112-116 | cards whose names are all listed add nothing |
| Scraping.FindOrInsert | src/Importer/Sources/PagesJaunesImporter.php:112-124 | the company table becomes the listing of the card; a row is inserted exactly when the table grows; the returned id is the company with that name and source |
| Scraping.WithSeatConsistent | src/Importer/Sources/PagesJaunesImporter.php:127-144 | adding the seat address keeps the unique keys and references intact |
| Scraping.WithContactConsistent | src/Importer/Sources/PagesJaunesImporter.php:147-152 | adding a contact keeps the unique keys and references intact |
| Scraping.WithSiteConsistent | src/Importer/Sources/PagesJaunesImporter.php:155-162 | adding the web site keeps the unique keys and references intact |
| Scraping.WithLabelsConsistent | src/Importer/Sources/PpleImporter.php:192-206 | linking the categories keeps the unique keys and references intact |
| Scraping.EnrichedConsistent | src/Importer/Sources/PagesJaunesImporter.php:127-179 | enriching a company keeps the unique keys and references intact |
| Scraping.EnrichedKeeps | src/Importer/Sources/PagesJaunesImporter.php:127-179 | enriching never adds a company or a director |
| Scraping.CardOfListedCompany | src/Importer/Sources/PagesJaunesImporter.php:112-124 | a card of an already listed company enriches that existing company |
| Scraping.CardEffectEntreprises | src/Importer/Sources/PagesJaunesImporter.php:102-183 | the company table after a card is the listing of its name alone |
| Scraping.CardsEntreprises | src/Importer/Sources/PagesJaunesImporter.php:100-183 | the company table after a page of cards is the listing of their names |
| Scraping.CardsAgain | src/Importer/Sources/PagesJaunesImporter.php:112-124 | replaying the same cards adds no company |
| Scraping.CardsConsistent | src/Importer/Sources/PagesJaunesImporter.php:100-183 | importing cards keeps the unique keys and references intact |
| Scraping.CardsEffectAppend | src/Importer/Sources/PagesJaunesImporter.php:25-183 | importing two batches of cards one after the other is importing them together |
| Scraping.Cards | src/Importer/Sources/PagesJaunesImporter.php:102-110 | one card per listing node, in node order |
| Scraping.CardsAppend | src/Importer/Sources/PagesJaunesImporter.php:100-183 | the cards of two node lists are the cards of each, concatenated |
| Scraping.AddSeat | src/Importer/Sources/PagesJaunesImporter.php:127-144 | the store becomes its state with the parsed seat address |
| Scraping.AddContact | src/Importer/Sources/PagesJaunesImporter.php:147-152 | the store becomes its state with the contact |
| Scraping.AddSite | src/Importer/Sources/PagesJaunesImporter.php:155-162 | the store becomes its state with the web site |
| Scraping.Enrich | src/Importer/Sources/PagesJaunesImporter.php:127-179 | the store becomes its enriched state |
| Scraping.ImportCard | src/Importer/Sources/PagesJaunesImporter.php:102-183 | the store becomes its state after the card, and the company table grows by one exactly when a company was inserted |
| Scraping.ImportCards | src/Importer/Sources/PagesJaunesImporter.php:100-186 | the store becomes its state after the page's cards, and the count is the number of companies added |
| Scraping.ImportFetch | src/Importer/Sources/PagesJaunesImporter.php:25-205 | one fetch stops the loop or moves it exactly as the schedule decides, including the reset of the failure count on a 200 whose page then throws, and imports exactly the cards of a harvested page |
| Scraping.HarvestStep | src/Importer/Sources/PagesJaunesImporter.php:25-202 | the state after one more fetch is the state after all the cards harvested so far |
| Scraping.ImportPages | src/Importer/Sources/PagesJaunesImporter.php:20-209 | the visits are the schedule of the run, the store becomes its state after every harvested card, and the total is the number of companies added |
| PagesJaunes.Import | src/Importer/Sources/PagesJaunesImporter.php:20-209 | the PagesJaunes run visits the pages of its schedule, imports every harvested card under source 'pagesjaunes' and returns the number of companies added |
| Pple.Import | src/Importer/Sources/PpleImporter.php:20-237 | the PPLE run visits the pages of its schedule, imports every harvested card under source 'pple' and returns the number of companies added |
| DataGouvLinks.LastSlash | src/Importer/Sources/DataGouvImporter.php:197 | the position found is the last slash |
| DataGouvLinks.StripSuffix | src/Importer/Sources/DataGouvImporter.php:112 | stripping succeeds exactly when the text ends with the suffix |
| DataGouvLinks.SplitLast | src/Importer/Sources/DataGouvImporter.php:197 | splitting at the last slash gives back the text, with no slash after the cut |
| DataGouvLinks.DigitRun | src/Importer/Sources/DataGouvImporter.php:112 | `\d+` takes the whole leading digit run |
| DataGouvLinks.SplitCodeNameExact | src/Importer/Sources/DataGouvImporter.php:112 | a segment splits into (code, name) exactly when it is digits, a dash and a non-empty name |
| DataGouvLinks.ParseDeptHrefExact | src/Importer/Sources/DataGouvImporter.php:112-118 | a department link is parsed to (code, name) exactly when it has the department link shape |
| DataGouvLinks.ParseActivityHrefExact | src/Importer/Sources/DataGouvImporter.php:197-210 | an activity link is parsed to (code, name, activity) exactly when it has the activity link shape |
| DataGouvLinks.SplitSlugSirenOf | src/Importer/Sources/DataGouvImporter.php:284 | a slug followed by a dash and nine digits yields that slug and SIREN |
| DataGouvLinks.ParseCompanyHrefExact | src/Importer/Sources/DataGouvImporter.php:284-290 | a company link is parsed to (slug, siren) exactly when it has the company link shape |
| DataGouvLinks.First14Digits | src/Importer/Sources/DataGouvImporter.php:402-412 | the SIRET read is the leftmost run of 14 digits, and none is read when there is none |
| DataGouvLinks.LastRowIndex | src/Importer/Sources/DataGouvImporter.php:457-462 | the row read is the last one whose first cell contains the marker, ignoring case |
| DataGouvLinks.TrimLine | src/Importer/Sources/DataGouvImporter.php:462 | the value cell is trimmed |
| DataGouvWeb.DeptList | src/Importer/Sources/DataGouvImporter.php:87-135 | a failed index gives the single fallback department Paris; otherwise the list is non-empty and holds exactly the departments parsed from the index links |
| DataGouvWeb.FindDeptUrl | src/Importer/Sources/DataGouvImporter.php:143-154 | the URL is that of the first department whose code is loosely equal to the keyword, and none is found exactly when no code matches |
| DataGouvWeb.ActivitiesOf | src/Importer/Sources/DataGouvImporter.php:162-226 | every activity found comes from an activity link whose department code is loosely equal to the requested one |
| DataGouvWeb.Entries | src/Importer/Sources/DataGouvImporter.php:31-56 | a numeric keyword of at most three characters selects that one department; any other keyword selects every listed department, in order |
| DataGouvWeb.CompanyLinksSound | src/Importer/Sources/DataGouvImporter.php:278-294 | every company link found carries a nine-digit SIREN and comes from a company-shaped anchor |
| DataGouvWeb.NextPageUrlExact | src/Importer/Sources/DataGouvImporter.php:321-339 | a next page is found exactly when some pagination anchor's trimmed text equals the next page number, and its URL is the last such anchor's |
| Geocode.Queries | src/Importer/Sources/DataGouvImporter.php:538-562 | two or three queries: the full address first and the town last, with a middle query that drops the first word exactly when the address contains a space |
| Geocode.FirstHit | src/Importer/Sources/DataGouvImporter.php:541-561 | the coordinates come from the first query that gets an answer, and none exist exactly when no query does |
| Geocode.GeocodeIsFirstHit | src/Importer/Sources/DataGouvImporter.php:538-562 | geocodeAdresse is the first hit of its fallback queries |
| DataGouv.RegistrySeat | src/Importer/Sources/DataGouvImporter.php:453-484 | a seat address is recorded exactly when the last address row has a non-empty value that the pattern parses, with the captured parts and type 'siege' |
| DataGouv.RegistryLabel | src/Importer/Sources/DataGouvImporter.php:494-511 | the activity label used is never empty, falling back to the activity code |
| DataGouv.AddressStepKeeps | src/Importer/Sources/DataGouvImporter.php:453-491 | the address step changes only the address table, and keeps the keys and references intact |
| DataGouv.ActivityStepKeeps | src/Importer/Sources/DataGouvImporter.php:494-516 | the activity step changes only the activites and links tables, and keeps the keys and references intact |
| DataGouv.FetchAndInsertProps | src/Importer/Sources/DataGouvImporter.php:372-518 | a company is imported exactly when its page answers 200 with a non-empty name; it then adds one row under source 'datagouv' with the SIREN as source id, and otherwise changes nothing |
| DataGouv.ReimportInsertsAgain | src/Importer/Sources/DataGouvImporter.php:364-370 | as written, importing the same link twice inserts the company twice |
| DataGouv.BySourceId | src/Importer/Sources/DataGouvImporter.php:364 | the intended lookup finds the first row with source 'datagouv' and that SIREN as source id |
| DataGouv.BySourceIdIdempotent | src/Importer/Sources/DataGouvImporter.php:359-370 | with the intended lookup, a second import of the same link changes nothing |
| DataGouv.LinksEffectCounts | src/Importer/Sources/DataGouvImporter.php:278-310 | the page count equals the companies added by the page's links, which only append rows |
| DataGouv.LinkStepCounts | src/Importer/Sources/DataGouvImporter.php:299-310 | each link adds its company exactly when it is counted |
| DataGouv.CrawlPageVisits | src/Importer/Sources/DataGouvImporter.php:257-263 | each fetched page URL is recorded as visited |
| DataGouv.CrawlPageCounts | src/Importer/Sources/DataGouvImporter.php:249-339 | the running total grows by exactly the companies one page adds |
| DataGouv.CrawlExtends | src/Importer/Sources/DataGouvImporter.php:257-263 | the visited list only grows by appending |
| DataGouv.CrawlVisits | src/Importer/Sources/DataGouvImporter.php:249 | the crawl visits at most as many pages as remain below the page limit |
| DataGouv.CrawlNoRepeats | src/Importer/Sources/DataGouvImporter.php:257-263 | the crawl never visits a URL twice |
| DataGouv.CrawlCounts | src/Importer/Sources/DataGouvImporter.php:249-339 | the total reported equals the companies added |
| DataGouv.CrawlBounded | src/Importer/Sources/DataGouvImporter.php:236-349 | crawling one activity visits at most ten pages, none twice, and its count is the number of companies added |
| DataGouv.ActivitiesEffectCounts | src/Importer/Sources/DataGouvImporter.php:58-70 | the department count equals the companies added by its activities |
| DataGouv.DeptsEffectCounts | src/Importer/Sources/DataGouvImporter.php:37-70 | the total over the departments equals the companies added |
| DataGouv.ImportCounts | src/Importer/Sources/DataGouvImporter.php:26-80 | the import returns the number of companies it added, and keeps the keys and references intact |
| DataGouv.ImportOneDepartement | src/Importer/Sources/DataGouvImporter.php:31-35 | a department-code keyword imports that department's activities only, or nothing when the department is not listed |
| DataGouv.AddRegistryAddress | src/Importer/Sources/DataGouvImporter.php:453-491 | the store becomes its state with the registry address |
| DataGouv.AddRegistryActivity | src/Importer/Sources/DataGouvImporter.php:494-516 | the store becomes its state with the registry activity |
| DataGouv.ImportEntreprise | src/Importer/Sources/DataGouvImporter.php:359-525 | the store and the result are those of importing the linked company |
| DataGouv.ImportLinks | src/Importer/Sources/DataGouvImporter.php:278-310 | the store and the page count are those of the page's links |
| DataGouv.ImportPage | src/Importer/Sources/DataGouvImporter.php:257-339 | one page updates the store, the total and the visited list as specified, and the loop goes on exactly when a next page exists |
| DataGouv.ImportActivity | src/Importer/Sources/DataGouvImporter.php:236-349 | the store, total and visited list are those of crawling the activity |
| DataGouv.ImportActivities | src/Importer/Sources/DataGouvImporter.php:58-70 | the store and count are those of the department's activities |
| DataGouv.Import | src/Importer/Sources/DataGouvImporter.php:26-80 | the store and total are those of the whole registry import for the keyword |
| Infogreffe.SeatOf | src/Importer/Sources/InfogreffeImporter.php:87-92 | a seat address is kept exactly when the seat has a non-empty street, postcode and town |
| Infogreffe.WithDirigeantsGrows | src/Importer/Sources/InfogreffeImporter.php:75-84 | directors are only appended, for that company, at most one per entry, and stay duplicate-free |
| Infogreffe.WithDirigeantsHeld | src/Importer/Sources/InfogreffeImporter.php:75-84 | every director of the result is held afterwards |
| Infogreffe.WithHeldDirigeants | src/Importer/Sources/InfogreffeImporter.php:75-84 | directors already held add nothing |
| Infogreffe.ResultStepGrows | src/Importer/Sources/InfogreffeImporter.php:50-92 | one result only appends companies and directors, counts each company added, and keeps the keys and sirets unique |
| Infogreffe.ResultStepProps | src/Importer/Sources/InfogreffeImporter.php:51-84 | a known siret adds no company; an unknown one appends exactly one and counts it; afterwards the siret is known and every director of the result is held |
| Infogreffe.ResultsEffectCounts | src/Importer/Sources/InfogreffeImporter.php:50-92 | the count equals the companies added, which are appended, and the keys and sirets stay unique |
| Infogreffe.ResultsEffectSettles | src/Importer/Sources/InfogreffeImporter.php:50-92 | after the results every result with a siret is settled: its company and directors are stored |
| Infogreffe.SettledRun | src/Importer/Sources/InfogreffeImporter.php:50-92 | results that are all settled change nothing and count zero |
| Infogreffe.ImportTwice | src/Importer/Sources/InfogreffeImporter.php:15-92 | importing the same response a second time changes nothing and returns zero |
| Infogreffe.ImportCounts | src/Importer/Sources/InfogreffeImporter.php:15-92 | the import touches only the companies and directors, returns the number of companies added, and keeps the keys and sirets unique |
| Infogreffe.ResultsEffectKeeps | src/Importer/Sources/InfogreffeImporter.php:50-92 | the results change no table other than companies and directors |
| Infogreffe.AddDirigeants | src/Importer/Sources/InfogreffeImporter.php:75-84 | the directors table becomes that with the result's directors |
| Infogreffe.ImportResult | src/Importer/Sources/InfogreffeImporter.php:51-92 | the store, count and pending seats are those after one more result |
| Infogreffe.Import | src/Importer/Sources/InfogreffeImporter.php:15-92 | the store, total and pending seats are those of the whole response |
| Orchestrator.StartMessage | src/Importer/EntrepriseImporter.php:166 | the start message names the source, and the keyword only when it is truthy |
| Orchestrator.Ended | src/Importer/EntrepriseImporter.php:175-183 | only the current log row is closed, with its status and message; every other row is unchanged |
| Orchestrator.Counted | src/Importer/EntrepriseImporter.php:188-195 | only the current log row gets the count; every other row is unchanged |
| Orchestrator.Enabled | src/Importer/EntrepriseImporter.php:20-25 | the enabled sources are among the configured ones |
| Orchestrator.Plan | src/Importer/EntrepriseImporter.php:104-105 | the run has one step per keyword and enabled source |
| Orchestrator.KeywordRowsByName | src/Importer/EntrepriseImporter.php:105-126 | one keyword writes one closed log row per enabled source, in configuration order |
| Orchestrator.PlanAt | src/Importer/EntrepriseImporter.php:104-105 | step i times the number of sources plus j is keyword i with source j: keywords outer, sources inner |
| Orchestrator.RunRowsByPlan | src/Importer/EntrepriseImporter.php:101-129 | the run writes exactly one closed row per step of the plan, in plan order |
| Orchestrator.RunRowsClosed | src/Importer/EntrepriseImporter.php:101-129 | every row the run writes is closed as 'termine' or 'erreur' |
| Orchestrator.DefaultEnabled | src/Importer/EntrepriseImporter.php:20-25 | with the shipped configuration only 'datagouv' runs |
| Orchestrator.DefaultRun | src/Importer/EntrepriseImporter.php:101-129 | with the shipped configuration there is one 'datagouv' row per keyword, 'termine' exactly when that import completed |
| Orchestrator.EntrepriseImporter.constructor | src/Importer/EntrepriseImporter.php:42-59 | the importer starts with the shipped sources, no log and a user agent from the pool |
| Orchestrator.EntrepriseImporter.LogImportStart | src/Importer/EntrepriseImporter.php:161-170 | one open 'en_cours' row is appended and becomes the current log |
| Orchestrator.EntrepriseImporter.LogImportEnd | src/Importer/EntrepriseImporter.php:175-183 | the current row is closed with the status and message |
| Orchestrator.EntrepriseImporter.UpdateImportCount | src/Importer/EntrepriseImporter.php:188-195 | the current row gets the count |
| Orchestrator.EntrepriseImporter.GetImporter | src/Importer/EntrepriseImporter.php:134-156 | the importer matches the source name, and a fresh user agent is drawn from the pool |
| Orchestrator.EntrepriseImporter.ProcessSource | src/Importer/EntrepriseImporter.php:106-125 | one source appends exactly one closed log row and leaves it current |
| Orchestrator.EntrepriseImporter.ProcessKeyword | src/Importer/EntrepriseImporter.php:104-126 | one keyword appends exactly its rows |
| Orchestrator.EntrepriseImporter.RunImport | src/Importer/EntrepriseImporter.php:101-129 | the run appends exactly the rows of its plan |
| Api.RemoveAllAbsent | public/api/index.php:22 | str_replace leaves a path without "/api" unchanged |
| Api.RouteOfBase | public/api/index.php:20-22 | the route of "/api" plus a rest without "/api" is that rest |
| Api.RouteOfNotRescanned | public/api/index.php:22 | str_replace does not rescan its output: "/a/apipi" routes as "/api" |
| Api.Dispatch | public/api/index.php:28-63 | only GET requests are routed; an id route is the fixed prefix plus a digit string |
| Api.DispatchById | public/api/index.php:35-38 | every GET on "/entreprises/" plus digits reaches the company, and "/activites/" plus digits plus "/entreprises" reaches the activity |
| Api.DispatchFixed | public/api/index.php:30-53 | the four fixed routes reach their endpoints on GET |
| Api.IntVal | public/api/index.php:75-76 | intval skips leading whitespace, reads an optional sign and the leading decimal number with its fraction and exponent, truncates toward zero and saturates to the 64-bit range |
| Api.IntValExponent | public/api/index.php:75-76 | digits followed by an exponent read as the digits times that power of ten, saturated: `intval("1e2")` is 100 |
| Api.IntValDecimal | public/api/index.php:75-76 | a decimal fraction is dropped: `intval("12.9")` is 12 |
| Api.IntValOfNumber | public/api/index.php:75 | intval of the decimal string of a number in range is that number |
| Api.LimitOf | public/api/index.php:76 | the page size lies between 1 and the endpoint's cap |
| Api.Cap | public/api/index.php:76 | the page-size cap is 500 for the company list and 100 elsewhere |
| Api.PagingBounds | public/api/index.php:75-77 | the page is at least 1 and defaults to 1; the size is between 1 and the cap and defaults to 20; an empty size gives 1; the offset is never negative |
| Api.PageOfNumber | public/api/index.php:75 | a page number given as digits is taken as is |
| Api.CeilDiv | public/api/index.php:198 | the page count is the smallest number of pages that holds every result |
| Api.EnvelopeMeaning | public/api/index.php:197-206 | there is a next page exactly when the results go past this page, a previous page exactly when this is not the first page, and the pages hold every result |
| Api.PagedAnswerMeaning | public/api/index.php:363-373 | a paged answer reports the number of matching rows, with a next page exactly when they go past this page |
| Api.HandleStatuses | public/api/index.php:15-68 | every answer is 200, 400, 404 or 500, carrying an error exactly when it is not 200, with page bounds in paged answers |
| Api.ServeStatuses | public/api/index.php:28-63 | every endpoint answers 200, 400, 404 or 500, carrying an error exactly when it is not 200 |
| Api.OnlyGet | public/api/index.php:28-63 | any verb other than GET and OPTIONS gets 404 "Ressource non trouvée" |
| Api.BlankSearchRefused | public/api/index.php:313-319 | a search with a missing or blank query gets 400 whatever the database holds |
| Api.MissingPointRefused | public/api/index.php:384-392 | a nearby search without lat or lng gets 400 whatever the database holds |
| Api.UnknownIdNotFound | public/api/index.php:234-238 | a company or activity id that does not exist gets 404 |
| Api.ExceptionsAre500 | public/api/index.php:65-68 | a failing connection or query gets 500 with the exception's message |
| Api.CompanyNeedleMissing | public/api/index.php:79-85 | the one-line select clause searched by the count query occurs nowhere in the query, which breaks that clause across two lines |
| Api.ReportedTotalWrong | public/api/index.php:116-119 | as written, the reported total makes has_next wrong in both directions |

## Left out

- Network I/O, sleeps and random delays are left out. Guzzle, DomCrawler and `json_decode` become oracles that hand the model decoded pages, nodes and JSON records. The `sleep`/`usleep`/`mt_rand` calls between requests do not change the state.
- The user agent is picked with `array_rand`. The model picks it nondeterministically from the same pool.
- Logging (`log`, `logMessage`, `echo`) and the start and end timestamps of the import log are left out. The model keeps a `closed` flag instead of `date_fin`.
- Database errors are left out. In the source most of them are swallowed where they occur, and the writes made before them are kept. The scrapers catch them per card (PagesJaunesImporter.php:104-182, PpleImporter.php:101-210) and per page (PagesJaunesImporter.php:203-205, PpleImporter.php:231-233). The registry crawler catches them per company (DataGouvImporter.php:361-524), per address and activity step (454-491, 494-516) and per activity (243-345). Only failures outside all of these reach the orchestrator's catch (EntrepriseImporter.php:120-122).
- Regular expressions run on text already extracted from HTML, and crawler text is single-line, as DomCrawler normalises whitespace. `is_numeric` is modelled on non-empty ASCII digit strings. Signs, decimals, exponents and surrounding whitespace are not modelled.
- The routes treat `$` as end of input. PCRE also lets `$` match before a final newline, so "/entreprises\n" routes in PHP but not in the model.
- `parse_url` is left out; the request path is given directly.
- The nearby search computes a haversine distance within `rayon`, in floating point. The model keeps only the lat/lng presence check. The SQL texts and the row contents of answers are left out. A found company is the `Found` body, and a paged answer carries the ids the query oracle returns.
- `geocodeAdresseSimple` (DataGouvImporter.php:570-619) is the geocoder oracle.
- Infogreffe after line 92 is left out: the seat address write and the transport exception handler. The model returns the pending seat addresses instead of writing them.
- Each importer run in the orchestrator is an oracle returning a count or an exception message.
- The web is fixed during a run, so fetching the same URL twice gives the same page.
- `stripos` is modelled by lower-casing ASCII only. The marker passed is already lower case.
- Column collations are left out: string equality is exact.
- Api.PagingBounds: the offset `(page - 1) * limit` is an unbounded integer; for huge pages PHP would overflow 64 bits into a float, which is not modelled.
- Api.ReportedTotalWrong: as written, the total is `null` on the list and search routes. It is then encoded as JSON `null`, and the model counts it as 0. `total_pages` is then 0 in both cases.
- Api.CompanyNeedleMissing: the missed match is shown only for the select clause of the company list. The search, nearby and per-activity queries break their select lists across lines in the same way.
- The registry crawler means to skip a company it already holds: its comment at DataGouvImporter.php:363 says so, and the log at line 368 reports the skip. The check looks in the wrong column, so it never skips (see Findings). The import methods follow the code as written.
- Api.PagedAnswer: `Handle` builds the pagination from the true number of matching rows, which is the corrected behaviour of the count finding below. The total the code reports as written is `EnvelopeAsWritten`, and `Api.ReportedTotalWrong` relates the two.
- Api.IntVal: the number is read with exact decimal arithmetic, not as a double. Mantissas longer than a double holds are not rounded. PHP gives 0 for a value beyond the double range (about 1.8e308), where the model saturates.
- Pple.Import models the file as evidently intended. PpleImporter.php:1 starts with a stray `i` before `<?php`, so the namespace declaration is not the first statement, and loading the class is a fatal compile error. Enabling 'pple' would end the whole run with that fatal error, not with a failure the orchestrator logs. The shipped configuration leaves 'pple' disabled.
- Query parameters are strings (`Params`). Array-valued parameters such as `?q[]=x` are left out. There PHP raises a TypeError in `trim`, which `catch (Exception)` at index.php:65 does not catch, so the answer is a bare 500 without a JSON error.
- The registry page's legal form and creation date are inputs of the model (`formeJuridique`, `dateCreation`). Their regular expressions at DataGouvImporter.php:419 and 432, and the `d/m/Y` to `Y-m-d` conversion, are left out.
- Uniqueness of `uniqid()` on PPLE cards without an id attribute is assumed. The model takes the generated id as a field of the card.

## Findings

| source | as written | input that shows it | evidently intended | confidence | as-written member | corrected member |
|---|---|---|---|---|---|---|
| src/Importer/Sources/DataGouvImporter.php:364 | the duplicate check looks the 9-digit SIREN up in the `siret` column, which holds the page's 14-digit SIRET or NULL | any company link imported once and met again, e.g. the same company listed under two activities | look the company up by the SIREN it was stored under (source 'datagouv', `source_id`), so that a second import is skipped | not executed | DataGouv.ReimportInsertsAgain | DataGouv.BySourceIdIdempotent |
| public/api/index.php:116, 347, 425, 509 | the count query is built by `str_replace` on a one-line select clause, but the query breaks that clause across lines, so nothing is replaced and the "count" is the first row's first column (or `null`) | 25 companies, page 1, limit 20 on /entreprises: has_next is false although a second page exists; one company near a point: has_next is true, from its id 42 | count the matching rows: the total is the number of rows the query selects | not executed | Api.ReportedTotalWrong | Api.PagedAnswerMeaning |

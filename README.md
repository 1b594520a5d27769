# HeadHunter vacancy scraper, modelled in Dafny

The scraper keeps a local list of hh.ru job vacancies up to date. Once a day
`HeadHunter.find_all_vacancies` loads `headhunter_vacancies.json`, walks a
fixed number of search-result pages, fetches every vacancy link it has not
seen before, keeps the vacancies whose description mentions all extra
keywords, and rewrites the file as `{new: <found this run>, old: <everything
loaded>}`.

This project models the deterministic core of that adapter:

- `text.dfy` (module `Text`): the string operations the code relies on —
  `str.lower`, `str.title`, one-character `str.replace`, literal
  case-insensitive search and `str(int)`.
- `search_url.dfy` (module `SearchUrl`): `_create_url` — the city table, the
  query string, and the `KeyError` for a city outside the table.
- `keyword_filter.dfy` (module `KeywordFilter`): `_check_vacancy_on_extra_tags`
  as a loop with its early `break`, proved against an all-tags-match predicate.
- `vacancy.dfy` (module `Vacancy`): the field and fallback rules of
  `_find_info_target_vacancy`, with each element lookup given as
  present/absent text.
- `vacancy_store.dfy` (module `VacancyStore`): `_pull_info_from_json` and
  `_push_info_in_json`, with the file content as a value.
- `collector.dfy` (module `Collector`): `find_vacancies_on_page` and
  `find_all_vacancies` as loops over an abstract `Web`. `Web` holds two
  functions: one from a URL to the links on that results page, and one from
  a link to the lookups of that vacancy page.
- `wrappers.dfy` (modules `Wrappers`, `Errors`): `Option`, `Result`, and the
  two exceptions that stop a run.

Some of what the code does is easy to misread. The model follows the code
as written:

- The description element is read even when there are no extra tags, so a
  page without one raises.
- A missing required element raises `AttributeError`. The required elements
  are the description, the title, the company, and the location when there
  is no raw address. Nothing catches this error, so the whole run stops and
  the state file is not rewritten. It is not "skip this listing". The model
  returns `Err` and the run returns that `Err`.
- Known links are fixed when the run starts. A vacancy listed on two pages
  of one run is therefore saved twice (`Collector.DuplicatesAcrossPagesAreKept`).
  So the claim that no link appears twice in `new ∪ old` does not hold. What
  does hold is that no new link was already known (`Collector.RunFindsOnlyUnknownLinks`).
- An unknown city is only noticed when the first page's URL is built. A run
  over zero pages succeeds and migrates the state (`Collector.RunWithoutPages`).

## Model

| member | source | states |
|---|---|---|
| `SearchUrl.CreateUrl` | main.py:54-70 | the loop that appends one `&area=` per city returns exactly the URL of `UrlSpec`, or the error of the first unknown city |
| `SearchUrl.UrlLayout` | main.py:62-65 | a built URL is the fixed prefix, `&text=` plus the lower-cased main tag, then one seven-character `&area=<1 or 2>` per city at its own position in input order |
| `SearchUrl.UrlEndsWithPage` | main.py:66 | a built URL ends with `&page=` and a number that reads back as the page |
| `SearchUrl.UrlFailsOnUnknownCity` | main.py:58-65 | building fails if and only if some city's title-cased name is neither `Москва` nor `Санкт-Петербург`, and the error names the first such city |
| `SearchUrl.AreaParamsFailure` | main.py:64-65 | the area parameters fail exactly when a city is unknown, with the first unknown city's error |
| `SearchUrl.AreaParamsLayout` | main.py:64-65 | the area parameters are seven characters per city, block `k` being `&area=` and the code of city `k` |
| `SearchUrl.CityCodeIgnoresCase` | main.py:65 | the city lookup gives the same result for a name and its lower-cased form |
| `SearchUrl.MoscowLowerCase` | main.py:58-65 | `москва` maps to area 1 |
| `SearchUrl.MoscowUpperCase` | main.py:58-65 | `МОСКВА` maps to area 1 |
| `SearchUrl.UnknownCitySpelling` | main.py:58-65 | `казань` raises `KeyError('Казань')` |
| `Text.TitleIgnoresCase` | main.py:65 | `str.title` of a lower-cased string equals `str.title` of the string |
| `Text.IntToStringRoundTrip` | main.py:66 | the decimal text of the page number reads back as that number, negative ones included |
| `Text.NatToStringValue` | main.py:65-66 | the decimal text of a natural number denotes it and has no leading zero |
| `Text.ReplaceRemoves` | main.py:110-132 | `replace('\xa0', x)` leaves no no-break space and returns a string without one unchanged |
| `KeywordFilter.CheckExtraTags` | main.py:73-85 | the flag is true iff every tag occurs case-insensitively in the description; all tags are searched when it is true, and otherwise the search stops at the first tag that does not occur, every earlier tag having occurred |
| `KeywordFilter.TagMatchIgnoresCase` | main.py:79 | lower-casing the description or the tag does not change whether the tag matches |
| `KeywordFilter.AllTagsMatchAppend` | main.py:78-82 | a further tag keeps a vacancy exactly when the earlier tags and that tag all match |
| `KeywordFilter.FilterAcceptsWithoutTags` | main.py:77-78 | with no tags every description passes |
| `KeywordFilter.FilterFindsTagInAnyCase` | main.py:79 | `Senior Go Engineer` passes for `["go"]` and for `["GO"]` |
| `KeywordFilter.FilterNeedsEveryTag` | main.py:78-82 | `Senior Go Engineer` fails for `["go", "rust"]` |
| `Vacancy.SkipIffFilterFails` | main.py:99-103 | the empty record comes back exactly when the description is present and fails the filter |
| `Vacancy.NoTagsNoSkip` | main.py:99-103 | with no extra tags the empty record never comes back |
| `Vacancy.FailsIffRequiredElementMissing` | main.py:99-133 | assembly raises iff the description is missing, or the filter passes and the title, the company, or both address elements are missing, naming the first missing one in lookup order |
| `Vacancy.RecordFields` | main.py:105-133 | a record has the input link and the page's title and company; its salary is `не указано` when the page shows none; its address is the raw address, else the location label; a no-break space becomes `.` in the salary and a space elsewhere |
| `Vacancy.RecordFieldsFreeOfNbsp` | main.py:110-132 | no display field of a record holds a no-break space |
| `VacancyStore.PullInfo` | main.py:40-51 | with no file the known links and records are empty; otherwise the records are `new ++ old` and a link is known iff some record has it |
| `VacancyStore.PulledLinksAreRecordLinks` | main.py:49-50 | the known links are exactly the set of the known records' links |
| `VacancyStore.PullAfterPush` | main.py:29-51 | loading a saved `{new, old}` gives the records `new ++ old` and the union of their links |
| `Collector.FindVacanciesOnPage` | main.py:136-174 | the per-page loop returns exactly what `PageSpec` describes, or the first error |
| `Collector.CollectCharacterized` | main.py:163-170 | the page's records come one per position whose link is unknown and whose record is non-empty, in page order, each the record of its own link, and no other position contributes |
| `Collector.CollectFailsIff` | main.py:163-170 | a page fails exactly when some unknown link on it fails to assemble |
| `Collector.CollectFetchesOnlyUnknown` | main.py:166-168 | the result does not depend on the vacancy pages of known links, which are never fetched |
| `Collector.PageRecordsAreNew` | main.py:151-170 | every record of a page has a link listed on that page, not known before, and is that link's non-empty record |
| `Collector.FindAllVacancies` | main.py:178-206 | the page loop returns exactly the state `RunSpec` writes, or the first error, in which case nothing is written |
| `Collector.FoundIsPagesInOrder` | main.py:195-202 | the run's findings are the page results for pages 0 to n-1 concatenated in that order, and they exist iff every page succeeds |
| `Collector.RunMigratesState` | main.py:192-206 | the saved state is `{new: the pages' findings in order, old: previous new ++ previous old}` (old is empty with no file), and the run succeeds iff every page does |
| `Collector.RunWithoutPages` | main.py:192-206 | a run over no pages saves an empty new part and moves everything loaded to old |
| `Collector.RunAbortsOnUnknownCity` | main.py:196-200 | with at least one page, an unknown city aborts the run with the `KeyError` of the first unknown city |
| `Collector.RunFindsOnlyUnknownLinks` | main.py:163-170 | no link of the saved new part occurs in the saved old part |
| `Collector.RunTwiceFindsNothingNew` | main.py:192-206 | a second run against the same web succeeds, saves an empty new part, and has old equal to the first run's new ++ old |
| `Collector.MigrationScenario` | main.py:192-206 | `{new: [A, B], old: [C]}` with a page listing A and a new D saves `{new: [D], old: [A, B, C]}` |
| `Collector.DuplicatesAcrossPagesAreKept` | main.py:192-202 | a vacancy listed on pages 0 and 1 of a run is saved twice in the new part |

## Left out

- HTTP requests (`requests.get`) and the random `fake_headers`. The results
  page and the vacancy page are the two functions of `Collector.Web`.
  Response status codes are logged and never checked, so they have no
  effect. A raising request is not modelled.
- BeautifulSoup/lxml parsing and the CSS-like selectors. Each element lookup
  is an `Option<string>` in `Vacancy.DetailPage`. A results-page heading
  without an `<a href>` would raise from line 165; in the model the listing
  function returns links only, so this case is not represented.
- Reading and writing `headhunter_vacancies.json`, `os.path.exists`, and JSON
  formatting. The file content is an `Option<State>` (`None` means no file).
  A corrupt file, or one without the `new`/`old` keys, makes the run raise.
  The model cannot express that case.
- Logging, `init_logging` and the `tqdm` progress bars. They only write to
  the log and the console.
- The daily `@repeat(every().day.at('17:00'))` registration and the endless
  `while True: run_pending(); sleep(1)` loop. They are wall-clock timing and
  have no final state to state facts about.
- Regular-expression semantics of `re.search(f'{tag}', ...)`. Tags are read
  as literal text. A tag with regex metacharacters would match differently
  in the source.
- Unicode case mapping beyond the Latin and basic Cyrillic alphabets. Other
  letters are treated as uncased by `Text.Lower` and `Text.Title`.
- Calling `find_vacancies_on_page` without `old_vacancies_links` (default
  `None`, which makes `link in None` raise). Every caller in the source
  passes the loaded links. The model takes a set.

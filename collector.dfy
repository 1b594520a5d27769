/** The collection loops of `HeadHunter`: `find_vacancies_on_page` over the
    links of one results page and `find_all_vacancies` over the pages of one
    run, with the requests made through an abstract `Web`. */
module Collector {
  import opened Wrappers
  import opened Errors
  import opened SearchUrl
  import opened Vacancy
  import opened VacancyStore
  import opened Text

  /** The search parameters of a run (`MAIN_TAG`, `CITIES`, `EXTRA_TAGS`). */
  datatype Query = Query(mainTag: string, cities: seq<string>, extraTags: seq<string>)

  /** What the two HTTP requests give back, as functions of their URL: the
      vacancy links of the results page at a URL, in page order, and the
      element lookups of the vacancy page at a link. */
  datatype Web = Web(listing: string -> seq<string>, detail: string -> DetailPage)

  /** The records that the links of one results page contribute, in page
      order: known links are skipped, the others are fetched and assembled,
      and empty records are dropped; the first assembly error aborts. */
  function CollectLinks(links: seq<string>, known: set<string>, web: Web, tags: seq<string>): Result<seq<Vacancy>, Error>
    decreases |links|
  {
    if links == [] then Ok([])
    else
      match CollectLinks(links[..|links| - 1], known, web, tags)
      case Err(e) => Err(e)
      case Ok(found) =>
        var link := links[|links| - 1];
        if link in known then Ok(found)
        else
          match AssembleRecord(link, web.detail(link), tags)
          case Err(e) => Err(e)
          case Ok(None) => Ok(found)
          case Ok(Some(v)) => Ok(found + [v])
  }

  /** `find_vacancies_on_page(main_tag, cities, extra_tags, page, known)`. */
  function PageSpec(q: Query, page: int, known: set<string>, web: Web): Result<seq<Vacancy>, Error>
  {
    match UrlSpec(q.mainTag, q.cities, page)
    case Err(e) => Err(e)
    case Ok(url) => CollectLinks(web.listing(url), known, web, q.extraTags)
  }

  /** Once a prefix of the links fails, the whole page fails the same way. */
  lemma {:induction false} CollectFailFromPrefix(links: seq<string>, n: nat, known: set<string>, web: Web, tags: seq<string>)
    requires n <= |links| && CollectLinks(links[..n], known, web, tags).Err?
    ensures CollectLinks(links, known, web, tags) == CollectLinks(links[..n], known, web, tags)
    decreases |links| - n
  {
    if n < |links| {
      assert links[..n + 1][..n] == links[..n];
      CollectFailFromPrefix(links, n + 1, known, web, tags);
    } else {
      assert links[..n] == links;
    }
  }

  /** The loop of `find_vacancies_on_page`: build the URL, list the page, and
      append the record of every unknown link whose record is not empty. */
  method FindVacanciesOnPage(q: Query, page: int, known: set<string>, web: Web) returns (r: Result<seq<Vacancy>, Error>)
    ensures r == PageSpec(q, page, known, web)
  {
    var url := CreateUrl(q.mainTag, q.cities, page);
    if url.Err? {
      return Err(url.error);
    }
    var links := web.listing(url.value);
    var found: seq<Vacancy> := [];
    var i := 0;
    while i < |links|
      invariant 0 <= i <= |links|
      invariant CollectLinks(links[..i], known, web, q.extraTags) == Ok(found)
    {
      assert links[..i + 1][..i] == links[..i];
      var link := links[i];
      if link !in known {
        var info := AssembleRecord(link, web.detail(link), q.extraTags);
        if info.Err? {
          CollectFailFromPrefix(links, i + 1, known, web, q.extraTags);
          return Err(info.error);
        }
        if info.value.Some? {
          found := found + [info.value.value];
        }
      }
      i := i + 1;
    }
    assert links[..i] == links;
    r := Ok(found);
  }

  /** A strictly increasing sequence of indices into a sequence of length `n`. */
  ghost predicate IncreasingIndices(idx: seq<nat>, n: nat)
  {
    && (forall k :: 0 <= k < |idx| ==> idx[k] < n)
    && (forall a, b :: 0 <= a < b < |idx| ==> idx[a] < idx[b])
  }

  /** The link at position `i` of the page is new and yields a non-empty record. */
  ghost predicate Yields(links: seq<string>, i: nat, known: set<string>, web: Web, tags: seq<string>)
    requires i < |links|
  {
    && links[i] !in known
    && AssembleRecord(links[i], web.detail(links[i]), tags).Ok?
    && AssembleRecord(links[i], web.detail(links[i]), tags).value.Some?
  }

  /** The records of a page are exactly the records of its new, non-empty
      links, one per such position and in page order: `idx` lists those
      positions in increasing order. */
  lemma {:induction false} CollectCharacterized(links: seq<string>, known: set<string>, web: Web, tags: seq<string>)
    returns (idx: seq<nat>)
    requires CollectLinks(links, known, web, tags).Ok?
    ensures var found := CollectLinks(links, known, web, tags).value;
      && |idx| == |found|
      && IncreasingIndices(idx, |links|)
      && (forall k :: 0 <= k < |idx| ==>
            Yields(links, idx[k], known, web, tags) &&
            AssembleRecord(links[idx[k]], web.detail(links[idx[k]]), tags) == Ok(Some(found[k])) &&
            found[k].link == links[idx[k]])
      && (forall i :: 0 <= i < |links| && Yields(links, i, known, web, tags) ==> i in idx)
    decreases |links|
  {
    if links == [] {
      idx := [];
    } else {
      var init := links[..|links| - 1];
      var last := |links| - 1;
      var prev := CollectCharacterized(init, known, web, tags);
      var before := CollectLinks(init, known, web, tags).value;
      var found := CollectLinks(links, known, web, tags).value;
      assert forall i :: 0 <= i < |init| ==> init[i] == links[i];
      assert forall i :: 0 <= i < |init| ==> (Yields(init, i, known, web, tags) <==> Yields(links, i, known, web, tags));
      if Yields(links, last, known, web, tags) {
        var v := AssembleRecord(links[last], web.detail(links[last]), tags).value.value;
        RecordFields(links[last], web.detail(links[last]), tags);
        assert found == before + [v];
        idx := prev + [last];
      } else {
        assert found == before;
        idx := prev;
      }
    }
  }

  /** A page fails exactly when one of its new links fails to assemble. */
  lemma {:induction false} CollectFailsIff(links: seq<string>, known: set<string>, web: Web, tags: seq<string>)
    ensures CollectLinks(links, known, web, tags).Err? <==>
      exists i :: 0 <= i < |links| && links[i] !in known && AssembleRecord(links[i], web.detail(links[i]), tags).Err?
    decreases |links|
  {
    if links != [] {
      var init := links[..|links| - 1];
      CollectFailsIff(init, known, web, tags);
      assert forall i :: 0 <= i < |init| ==> init[i] == links[i];
    }
  }

  /** Known links are never fetched: the outcome of a page does not depend on
      what the vacancy pages of known links hold. */
  lemma {:induction false} CollectFetchesOnlyUnknown(links: seq<string>, known: set<string>, web: Web, other: Web, tags: seq<string>)
    requires forall l :: l !in known ==> web.detail(l) == other.detail(l)
    ensures CollectLinks(links, known, web, tags) == CollectLinks(links, known, other, tags)
    decreases |links|
  {
    if links != [] {
      CollectFetchesOnlyUnknown(links[..|links| - 1], known, web, other, tags);
    }
  }

  /** The records a results page contributes are all new, all come from that
      page, and all are non-empty records of their own links. */
  lemma PageRecordsAreNew(q: Query, page: int, known: set<string>, web: Web)
    requires PageSpec(q, page, known, web).Ok?
    ensures UrlSpec(q.mainTag, q.cities, page).Ok?
    ensures forall v :: v in PageSpec(q, page, known, web).value ==>
      v.link !in known && v.link in web.listing(UrlSpec(q.mainTag, q.cities, page).value) &&
      AssembleRecord(v.link, web.detail(v.link), q.extraTags) == Ok(Some(v))
  {
    var links := web.listing(UrlSpec(q.mainTag, q.cities, page).value);
    var found := PageSpec(q, page, known, web).value;
    var idx := CollectCharacterized(links, known, web, q.extraTags);
    forall v | v in found
      ensures v.link !in known && v.link in links && AssembleRecord(v.link, web.detail(v.link), q.extraTags) == Ok(Some(v))
    {
      var k :| 0 <= k < |found| && found[k] == v;
      assert found[k].link == links[idx[k]];
    }
  }

  /** The records found on pages `0 .. count - 1`, concatenated in page order,
      or the first error. */
  function FoundUpTo(q: Query, count: nat, known: set<string>, web: Web): Result<seq<Vacancy>, Error>
  {
    if count == 0 then Ok([])
    else
      match FoundUpTo(q, count - 1, known, web)
      case Err(e) => Err(e)
      case Ok(found) =>
        match PageSpec(q, count - 1, known, web)
        case Err(e) => Err(e)
        case Ok(onPage) => Ok(found + onPage)
  }

  /** The pages `range(number_of_pages)` visits. */
  function PageCount(numberOfPages: int): nat
  {
    if numberOfPages < 0 then 0 else numberOfPages
  }

  /** `find_all_vacancies(...)` on the state file content `file`: the content
      it writes, or the error that aborts it before anything is written. */
  function RunSpec(q: Query, numberOfPages: int, file: Option<State>, web: Web): Result<State, Error>
  {
    var known := PullInfo(file);
    match FoundUpTo(q, PageCount(numberOfPages), known.links, web)
    case Err(e) => Err(e)
    case Ok(found) => Ok(PushInfo(found, known.records))
  }

  /** Once the first pages fail, every longer run fails the same way. */
  lemma {:induction false} FoundFailFrom(q: Query, count: nat, total: nat, known: set<string>, web: Web)
    requires count <= total && FoundUpTo(q, count, known, web).Err?
    ensures FoundUpTo(q, total, known, web) == FoundUpTo(q, count, known, web)
    decreases total - count
  {
    if count < total {
      FoundFailFrom(q, count, total - 1, known, web);
    }
  }

  /** The loop of `find_all_vacancies`: load the state, collect pages
      `0 .. number_of_pages - 1` against the links known at the start, and
      save the findings as new and everything loaded as old. */
  method FindAllVacancies(q: Query, numberOfPages: int, file: Option<State>, web: Web) returns (r: Result<State, Error>)
    ensures r == RunSpec(q, numberOfPages, file, web)
  {
    var known := PullInfo(file);
    var found: seq<Vacancy> := [];
    var page := 0;
    while page < numberOfPages
      invariant 0 <= page <= PageCount(numberOfPages)
      invariant FoundUpTo(q, page, known.links, web) == Ok(found)
    {
      var result := FindVacanciesOnPage(q, page, known.links, web);
      if result.Err? {
        FoundFailFrom(q, page + 1, PageCount(numberOfPages), known.links, web);
        return Err(result.error);
      }
      found := found + result.value;
      page := page + 1;
    }
    r := Ok(PushInfo(found, known.records));
  }

  /** `pages[0] + pages[1] + ...`. */
  function Flatten(pages: seq<seq<Vacancy>>): seq<Vacancy>
    decreases |pages|
  {
    if pages == [] then [] else Flatten(pages[..|pages| - 1]) + pages[|pages| - 1]
  }

  /** The run's findings are the per-page results of pages `0 .. count - 1`
      concatenated in increasing page order, and the run succeeds exactly
      when every page does. */
  lemma {:induction false} FoundIsPagesInOrder(q: Query, count: nat, known: set<string>, web: Web)
    returns (pages: seq<seq<Vacancy>>)
    ensures FoundUpTo(q, count, known, web).Ok? <==> forall k :: 0 <= k < count ==> PageSpec(q, k, known, web).Ok?
    ensures FoundUpTo(q, count, known, web).Ok? ==>
      && |pages| == count
      && (forall k :: 0 <= k < count ==> PageSpec(q, k, known, web) == Ok(pages[k]))
      && FoundUpTo(q, count, known, web).value == Flatten(pages)
    decreases count
  {
    if count == 0 {
      pages := [];
    } else {
      var prev := FoundIsPagesInOrder(q, count - 1, known, web);
      if FoundUpTo(q, count, known, web).Ok? {
        pages := prev + [PageSpec(q, count - 1, known, web).value];
        assert pages[..count - 1] == prev;
      } else {
        pages := [];
      }
    }
  }

  /** A run saves `{new: the pages' findings in order, old: previous new ++
      previous old}`, and succeeds exactly when every page does. */
  lemma RunMigratesState(q: Query, numberOfPages: int, file: Option<State>, web: Web)
    returns (pages: seq<seq<Vacancy>>)
    ensures var known := PullInfo(file).links;
      RunSpec(q, numberOfPages, file, web).Ok? <==>
        forall k :: 0 <= k < PageCount(numberOfPages) ==> PageSpec(q, k, known, web).Ok?
    ensures RunSpec(q, numberOfPages, file, web).Ok? ==>
      var saved := RunSpec(q, numberOfPages, file, web).value;
      && (file.None? ==> saved.oldRecords == [])
      && (file.Some? ==> saved.oldRecords == file.value.newRecords + file.value.oldRecords)
      && |pages| == PageCount(numberOfPages)
      && (forall k :: 0 <= k < |pages| ==> PageSpec(q, k, PullInfo(file).links, web) == Ok(pages[k]))
      && saved.newRecords == Flatten(pages)
  {
    pages := FoundIsPagesInOrder(q, PageCount(numberOfPages), PullInfo(file).links, web);
  }

  /** With no pages to visit nothing is requested: the run succeeds, finds
      nothing, and moves everything loaded to the old part. */
  lemma RunWithoutPages(q: Query, numberOfPages: int, file: Option<State>, web: Web)
    requires numberOfPages <= 0
    ensures RunSpec(q, numberOfPages, file, web) == Ok(State([], PullInfo(file).records))
  {
  }

  /** A city outside the table aborts a run that visits any page, with the
      `KeyError` of the first unknown city, whatever the web holds. */
  lemma RunAbortsOnUnknownCity(q: Query, numberOfPages: int, file: Option<State>, web: Web, i: nat)
    requires numberOfPages > 0
    requires i < |q.cities| && CityCode(q.cities[i]).Err?
    ensures UrlSpec(q.mainTag, q.cities, 0).Err?
    ensures RunSpec(q, numberOfPages, file, web) == Err(UrlSpec(q.mainTag, q.cities, 0).error)
    ensures exists j :: 0 <= j < |q.cities| && RunSpec(q, numberOfPages, file, web) == Err(UnknownLocation(Title(q.cities[j])))
  {
    UrlFailsOnUnknownCity(q.mainTag, q.cities, 0);
    assert FoundUpTo(q, 1, PullInfo(file).links, web).Err?;
    FoundFailFrom(q, 1, PageCount(numberOfPages), PullInfo(file).links, web);
  }

  /** The links of a run's findings are new: none of them was known, so the
      new part of the saved state shares no link with its old part. */
  lemma RunFindsOnlyUnknownLinks(q: Query, numberOfPages: int, file: Option<State>, web: Web)
    requires RunSpec(q, numberOfPages, file, web).Ok?
    ensures var saved := RunSpec(q, numberOfPages, file, web).value;
      forall v :: v in saved.newRecords ==> v.link !in Links(saved.oldRecords)
  {
    var known := PullInfo(file);
    PulledLinksAreRecordLinks(file);
    FoundOnlyUnknown(q, PageCount(numberOfPages), known.links, web);
  }

  lemma {:induction false} FoundOnlyUnknown(q: Query, count: nat, known: set<string>, web: Web)
    requires FoundUpTo(q, count, known, web).Ok?
    ensures forall v :: v in FoundUpTo(q, count, known, web).value ==> v.link !in known
    decreases count
  {
    if count > 0 {
      FoundOnlyUnknown(q, count - 1, known, web);
      PageRecordsAreNew(q, count - 1, known, web);
    }
  }

  /** A page whose records are all known by now contributes nothing when it
      is visited again with a larger known set. */
  lemma {:induction false} CollectAgain(links: seq<string>, known: set<string>, later: set<string>, web: Web, tags: seq<string>)
    requires CollectLinks(links, known, web, tags).Ok?
    requires known <= later && Links(CollectLinks(links, known, web, tags).value) <= later
    ensures CollectLinks(links, later, web, tags) == Ok([])
    decreases |links|
  {
    if links != [] {
      var init := links[..|links| - 1];
      var link := links[|links| - 1];
      var before := CollectLinks(init, known, web, tags).value;
      var found := CollectLinks(links, known, web, tags).value;
      assert before <= found;
      LinksAppend(before, found[|before|..]);
      assert found == before + found[|before|..];
      CollectAgain(init, known, later, web, tags);
      if link !in known {
        var info := AssembleRecord(link, web.detail(link), tags);
        if info.value.Some? {
          RecordFields(link, web.detail(link), tags);
          assert found == before + [info.value.value];
          assert info.value.value in found;
        }
      }
    }
  }

  lemma {:induction false} FoundAgain(q: Query, count: nat, known: set<string>, later: set<string>, web: Web)
    requires FoundUpTo(q, count, known, web).Ok?
    requires known <= later && Links(FoundUpTo(q, count, known, web).value) <= later
    ensures FoundUpTo(q, count, later, web) == Ok([])
    decreases count
  {
    if count > 0 {
      var before := FoundUpTo(q, count - 1, known, web).value;
      var onPage := PageSpec(q, count - 1, known, web).value;
      assert FoundUpTo(q, count, known, web).value == before + onPage;
      LinksAppend(before, onPage);
      FoundAgain(q, count - 1, known, later, web);
      var url := UrlSpec(q.mainTag, q.cities, count - 1).value;
      CollectAgain(web.listing(url), known, later, web, q.extraTags);
      assert PageSpec(q, count - 1, later, web) == Ok([]);
      var none: seq<Vacancy> := [];
      assert FoundUpTo(q, count - 1, later, web) == Ok(none);
      assert FoundUpTo(q, count, later, web) == Ok(none + none);
      assert none + none == none;
    }
  }

  /** Running again against an unchanged web finds nothing new: every
      listing the first run kept is now known and every other new listing
      is assembled to the same empty record, so the second run saves an empty
      new part and moves the first run's state to the old part. */
  lemma RunTwiceFindsNothingNew(q: Query, numberOfPages: int, file: Option<State>, web: Web)
    requires RunSpec(q, numberOfPages, file, web).Ok?
    ensures var first := RunSpec(q, numberOfPages, file, web).value;
      RunSpec(q, numberOfPages, Some(first), web) == Ok(State([], first.newRecords + first.oldRecords))
  {
    var first := RunSpec(q, numberOfPages, file, web).value;
    var known := PullInfo(file);
    var found := first.newRecords;
    PulledLinksAreRecordLinks(file);
    PullAfterPush(found, known.records);
    FoundAgain(q, PageCount(numberOfPages), known.links, PullInfo(Some(first)).links, web);
  }

  const SCENARIO_LINK: string := "https://hh.ru/vacancy/4"

  /** A vacancy page with no salary and no precise address. */
  function ScenarioPage(): DetailPage
  {
    DetailPage(Some("Python"), Some("Python developer"), None, Some("Yandex"), None, Some("Москва"))
  }

  /** The record that page assembles to, sentinel salary and location address included. */
  function ScenarioRecord(): Vacancy
  {
    Vacancy(SCENARIO_LINK, "Python developer", SALARY_NOT_SPECIFIED, "Yandex", "Москва")
  }

  lemma ScenarioPageAssembles(tags: seq<string>)
    requires tags == []
    ensures AssembleRecord(SCENARIO_LINK, ScenarioPage(), tags) == Ok(Some(ScenarioRecord()))
  {
    Text.ReplaceRemoves("Python developer", Text.NBSP, ' ');
    Text.ReplaceRemoves(SALARY_NOT_SPECIFIED, Text.NBSP, '.');
    Text.ReplaceRemoves("Yandex", Text.NBSP, ' ');
    Text.ReplaceRemoves("Москва", Text.NBSP, ' ');
  }

  /** State `{new: [A, B], old: [C]}` and a results page listing A and a new
      vacancy D: A is skipped as known, D is fetched, and the saved state is
      `{new: [D], old: [A, B, C]}`. */
  lemma MigrationScenario(a: Vacancy, b: Vacancy, c: Vacancy)
    requires a.link != SCENARIO_LINK && b.link != SCENARIO_LINK && c.link != SCENARIO_LINK
    ensures var web := Web(url => [a.link, SCENARIO_LINK], link => ScenarioPage());
      RunSpec(Query("python", [], []), 1, Some(State([a, b], [c])), web) == Ok(State([ScenarioRecord()], [a, b, c]))
  {
    var web := Web(url => [a.link, SCENARIO_LINK], link => ScenarioPage());
    var q := Query("python", [], []);
    var known := PullInfo(Some(State([a, b], [c])));
    assert known.records == [a, b, c];
    assert a.link in known.links by {
      assert known.records[0].link == a.link;
    }
    assert SCENARIO_LINK !in known.links;
    ScenarioPageAssembles(q.extraTags);
    var links := [a.link, SCENARIO_LINK];
    assert links[..1] == [a.link] && links[..1][..0] == [];
    assert CollectLinks(links[..1], known.links, web, q.extraTags) == Ok([]);
    assert web.detail(SCENARIO_LINK) == ScenarioPage();
    assert links[..|links| - 1] == links[..1] && links[|links| - 1] == SCENARIO_LINK;
    assert [] + [ScenarioRecord()] == [ScenarioRecord()];
    assert CollectLinks(links, known.links, web, q.extraTags) == Ok([ScenarioRecord()]);
    assert PageSpec(q, 0, known.links, web) == Ok([ScenarioRecord()]);
    assert FoundUpTo(q, 1, known.links, web) == Ok([ScenarioRecord()]);
  }

  /** Links are checked against the state loaded before the run only, so a
      vacancy listed on two pages of one run is saved twice. */
  lemma DuplicatesAcrossPagesAreKept()
    ensures var web := Web(url => [SCENARIO_LINK], link => ScenarioPage());
      RunSpec(Query("python", [], []), 2, None, web) == Ok(State([ScenarioRecord(), ScenarioRecord()], []))
  {
    var web := Web(url => [SCENARIO_LINK], link => ScenarioPage());
    var q := Query("python", [], []);
    ScenarioPageAssembles(q.extraTags);
    var links := [SCENARIO_LINK];
    assert links[..0] == [];
    assert web.detail(SCENARIO_LINK) == ScenarioPage();
    assert links[..|links| - 1] == [] && links[|links| - 1] == SCENARIO_LINK;
    assert [] + [ScenarioRecord()] == [ScenarioRecord()];
    assert CollectLinks(links, {}, web, q.extraTags) == Ok([ScenarioRecord()]);
    assert PageSpec(q, 0, {}, web) == Ok([ScenarioRecord()]);
    assert PageSpec(q, 1, {}, web) == Ok([ScenarioRecord()]);
    assert FoundUpTo(q, 1, {}, web) == Ok([ScenarioRecord()]);
    assert [ScenarioRecord()] + [ScenarioRecord()] == [ScenarioRecord(), ScenarioRecord()];
    assert FoundUpTo(q, 2, {}, web) == Ok([ScenarioRecord()] + [ScenarioRecord()]);
  }
}

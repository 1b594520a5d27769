/** The persisted state of the scraper, headhunter_vacancies.json, as a value:
    `_pull_info_from_json` reads it, `_push_info_in_json` replaces it. */
module VacancyStore {
  import opened Wrappers
  import opened Vacancy

  /** The JSON object `{"new": [...], "old": [...]}`: the vacancies found by
      the latest run and those found by every run before it. */
  datatype State = State(newRecords: seq<Vacancy>, oldRecords: seq<Vacancy>)

  /** What a run knows before it starts: the links to skip and the records
      to carry over. */
  datatype Known = Known(links: set<string>, records: seq<Vacancy>)

  /** The set `{vacancy['link'] for vacancy in records}`. */
  function Links(records: seq<Vacancy>): set<string>
  {
    set v | v in records :: v.link
  }

  lemma LinksAppend(a: seq<Vacancy>, b: seq<Vacancy>)
    ensures Links(a + b) == Links(a) + Links(b)
  {
    assert forall v :: v in a + b <==> v in a || v in b;
  }

  /** `_pull_info_from_json()`, `file` being the content of the state file or
      `None` when the file does not exist. */
  function PullInfo(file: Option<State>): (known: Known)
    ensures file.None? ==> known.links == {} && known.records == []
    ensures file.Some? ==> known.records == file.value.newRecords + file.value.oldRecords
    ensures forall l :: l in known.links <==> exists i :: 0 <= i < |known.records| && known.records[i].link == l
  {
    match file
    case None => Known({}, [])
    case Some(state) =>
      var records := state.newRecords + state.oldRecords;
      Known(Links(records), records)
  }

  /** `_push_info_in_json(new_vacancies_info, old_vacancies_info)`: the content the state file is replaced with. */
  function PushInfo(newRecords: seq<Vacancy>, oldRecords: seq<Vacancy>): State
  {
    State(newRecords, oldRecords)
  }

  /** The links known after loading are exactly the links of the known records. */
  lemma PulledLinksAreRecordLinks(file: Option<State>)
    ensures PullInfo(file).links == Links(PullInfo(file).records)
  {
    var known := PullInfo(file);
    forall l | l in Links(known.records) ensures l in known.links {
      var v :| v in known.records && v.link == l;
      var i :| 0 <= i < |known.records| && known.records[i] == v;
    }
  }

  /** Loading what was saved yields the saved records, new ones first, and
      their links. */
  lemma PullAfterPush(found: seq<Vacancy>, previous: seq<Vacancy>)
    ensures PullInfo(Some(PushInfo(found, previous))) == Known(Links(found) + Links(previous), found + previous)
  {
    LinksAppend(found, previous);
  }
}

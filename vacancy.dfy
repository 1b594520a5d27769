/** The vacancy record that `HeadHunter._find_info_target_vacancy` assembles
    from a vacancy page, with its fallbacks for missing elements. */
module Vacancy {
  import opened Wrappers
  import opened Errors
  import opened Text
  import opened KeywordFilter

  /** The dictionary stored per vacancy: the link it was read from and four
      display fields. */
  datatype Vacancy = Vacancy(link: string, position: string, salary: string, company: string, address: string)

  /** What the element lookups of a fetched vacancy page return: the text of
      the element, or `None` when `bsoup.find` found no such element. */
  datatype DetailPage = DetailPage(
    description: Option<string>,  // div data-qa=vacancy-description
    title: Option<string>,        // h1 data-qa=vacancy-title
    salary: Option<string>,       // div data-qa=vacancy-salary
    company: Option<string>,      // span data-qa=bloko-header-2
    rawAddress: Option<string>,   // span data-qa=vacancy-view-raw-address
    location: Option<string>)     // p data-qa=vacancy-view-location

  /** The salary text stored when the page shows no salary. */
  const SALARY_NOT_SPECIFIED: string := "не указано"

  /** The salary shown, or the sentinel when there is none. */
  function SalaryText(page: DetailPage): string
  {
    match page.salary
    case Some(s) => s
    case None => SALARY_NOT_SPECIFIED
  }

  /** The precise address, or the coarser location label when the page has no
      precise address; the error when it has neither. */
  function AddressText(page: DetailPage): Result<string, Error>
  {
    match page.rawAddress
    case Some(a) => Ok(a)
    case None =>
      match page.location
      case Some(l) => Ok(l)
      case None => Err(MissingElement(VacancyLocation))
  }

  /** `_find_info_target_vacancy(link, extra_tags)` on a fetched page:
      `Ok(None)` is the empty dictionary returned when the keyword filter
      fails, `Ok(Some(v))` the filled record, and `Err` the `AttributeError`
      raised by the first required element the page lacks, in the order
      the elements are looked up. */
  function AssembleRecord(link: string, page: DetailPage, tags: seq<string>): Result<Option<Vacancy>, Error>
  {
    match page.description
    case None => Err(MissingElement(VacancyDescription))
    case Some(description) =>
      if !AllTagsMatch(description, tags) then Ok(None)
      else
        match page.title
        case None => Err(MissingElement(VacancyTitle))
        case Some(position) =>
          match page.company
          case None => Err(MissingElement(CompanyName))
          case Some(company) =>
            match AddressText(page)
            case Err(e) => Err(e)
            case Ok(address) =>
              Ok(Some(Vacancy(
                link,
                Replace(position, NBSP, ' '),
                Replace(SalaryText(page), NBSP, '.'),
                Replace(company, NBSP, ' '),
                Replace(address, NBSP, ' '))))
  }

  /** The page yields the empty record exactly when it has a description and
      the description misses one of the tags. */
  lemma SkipIffFilterFails(link: string, page: DetailPage, tags: seq<string>)
    ensures AssembleRecord(link, page, tags) == Ok(None) <==>
      page.description.Some? && !AllTagsMatch(page.description.value, tags)
  {
  }

  /** Without extra tags no vacancy is skipped. */
  lemma NoTagsNoSkip(link: string, page: DetailPage)
    ensures AssembleRecord(link, page, []) != Ok(None)
  {
    SkipIffFilterFails(link, page, []);
  }

  /** Assembly raises exactly when the description is missing, or when the
      filter passes and the title, the company, or both the address and the
      location are missing; it reports the first of these that is missing. */
  lemma FailsIffRequiredElementMissing(link: string, page: DetailPage, tags: seq<string>)
    ensures AssembleRecord(link, page, tags).Err? <==>
      || page.description.None?
      || (AllTagsMatch(page.description.value, tags) &&
          (page.title.None? || page.company.None? || (page.rawAddress.None? && page.location.None?)))
    ensures AssembleRecord(link, page, tags) == Err(MissingElement(VacancyDescription)) <==> page.description.None?
    ensures AssembleRecord(link, page, tags) == Err(MissingElement(VacancyTitle)) ==> page.title.None?
    ensures AssembleRecord(link, page, tags) == Err(MissingElement(CompanyName)) ==> page.title.Some? && page.company.None?
    ensures AssembleRecord(link, page, tags) == Err(MissingElement(VacancyLocation)) ==>
      page.title.Some? && page.company.Some? && page.rawAddress.None? && page.location.None?
    ensures forall key :: AssembleRecord(link, page, tags) != Err(UnknownLocation(key))
  {
  }

  /** An assembled record carries the link it was fetched from, and each
      display field is the page's text (or its fallback) with every no-break
      space replaced: by a dot in the salary, by a space elsewhere. */
  lemma RecordFields(link: string, page: DetailPage, tags: seq<string>)
    requires AssembleRecord(link, page, tags).Ok? && AssembleRecord(link, page, tags).value.Some?
    ensures var v := AssembleRecord(link, page, tags).value.value;
      && v.link == link
      && page.description.Some? && AllTagsMatch(page.description.value, tags)
      && page.title.Some? && v.position == Replace(page.title.value, NBSP, ' ')
      && page.company.Some? && v.company == Replace(page.company.value, NBSP, ' ')
      && (page.salary.None? ==> v.salary == SALARY_NOT_SPECIFIED)
      && (page.salary.Some? ==> v.salary == Replace(page.salary.value, NBSP, '.'))
      && (page.rawAddress.Some? ==> v.address == Replace(page.rawAddress.value, NBSP, ' '))
      && (page.rawAddress.None? ==> page.location.Some? && v.address == Replace(page.location.value, NBSP, ' '))
  {
    ReplaceRemoves(SALARY_NOT_SPECIFIED, NBSP, '.');
  }

  /** No display field of an assembled record holds a no-break space. */
  lemma RecordFieldsFreeOfNbsp(link: string, page: DetailPage, tags: seq<string>)
    requires AssembleRecord(link, page, tags).Ok? && AssembleRecord(link, page, tags).value.Some?
    ensures var v := AssembleRecord(link, page, tags).value.value;
      NBSP !in v.position && NBSP !in v.salary && NBSP !in v.company && NBSP !in v.address
  {
    var v := AssembleRecord(link, page, tags).value.value;
    ReplaceRemoves(page.title.value, NBSP, ' ');
    ReplaceRemoves(SalaryText(page), NBSP, '.');
    ReplaceRemoves(page.company.value, NBSP, ' ');
    ReplaceRemoves(AddressText(page).value, NBSP, ' ');
  }
}

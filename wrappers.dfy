/** Optional values and results shared by the scraper model. */
module Wrappers {

  /** A value that may be absent, as a DOM lookup that found no element. */
  datatype Option<+T> = None | Some(value: T)

  /** The outcome of an operation that either produces a value or raises. */
  datatype Result<+T, +E> = Ok(value: T) | Err(error: E)
}

/** The exceptions the scraper can raise that end a collection run. */
module Errors {

  /** An element of the vacancy page that the scraper reads with `.text` and
      therefore needs to be present. */
  datatype Element = VacancyDescription | VacancyTitle | CompanyName | VacancyLocation

  /** `UnknownLocation(key)` is the `KeyError` of the city table lookup, carrying
      the title-cased city name; `MissingElement(e)` is the `AttributeError`
      raised by reading `.text` of an element lookup that found nothing. */
  datatype Error = UnknownLocation(key: string) | MissingElement(element: Element)
}

/** The search URL that `HeadHunter._create_url` builds for one result page. */
module SearchUrl {
  import opened Wrappers
  import opened Errors
  import opened Text

  const PREFIX: string := "https://hh.ru/search/vacancy?order_by=publication_time"

  const MOSCOW: string := "Москва"
  const SAINT_PETERSBURG: string := "Санкт-Петербург"

  /** The lookup `cities_for_search[city.title()]` in the two-entry table of
      hh.ru area codes; a name outside the table raises `KeyError` with the
      title-cased name. */
  function CityCode(city: string): Result<nat, Error>
  {
    var key := Title(city);
    if key == MOSCOW then Ok(1)
    else if key == SAINT_PETERSBURG then Ok(2)
    else Err(UnknownLocation(key))
  }

  /** The lookup does not care how the city name is capitalised. */
  lemma CityCodeIgnoresCase(city: string)
    ensures CityCode(Lower(city)) == CityCode(city)
  {
    TitleIgnoresCase(city);
  }

  /** Moscow is found in lower case. */
  lemma MoscowLowerCase()
    ensures CityCode("москва") == Ok(1)
  {
    assert TitleFrom("осква", true) == "осква";
    assert Title("москва") == MOSCOW;
  }

  /** Moscow is found in upper case. */
  lemma MoscowUpperCase()
    ensures CityCode("МОСКВА") == Ok(1)
  {
    MoscowLowerCase();
    CityCodeIgnoresCase("МОСКВА");
    assert Lower("МОСКВА") == "москва";
  }

  /** A city outside the table raises `KeyError` with the title-cased name. */
  lemma UnknownCitySpelling()
    ensures CityCode("казань") == Err(UnknownLocation("Казань"))
  {
    assert Title("казань") == "Казань";
  }

  /** One `&area=<code>` parameter. */
  function AreaParam(code: nat): string
  {
    "&area=" + NatToString(code)
  }

  /** The `&area=` parameters of `cities`, in input order, or the error of the
      first city the table does not know. */
  function AreaParams(cities: seq<string>): Result<string, Error>
    decreases |cities|
  {
    if cities == [] then Ok("")
    else
      match AreaParams(cities[..|cities| - 1])
      case Err(e) => Err(e)
      case Ok(params) =>
        match CityCode(cities[|cities| - 1])
        case Err(e) => Err(e)
        case Ok(code) => Ok(params + AreaParam(code))
  }

  /** The URL `_create_url(main_tag, cities, page)` returns, or the error it raises. */
  function UrlSpec(mainTag: string, cities: seq<string>, page: int): Result<string, Error>
  {
    match AreaParams(cities)
    case Err(e) => Err(e)
    case Ok(params) => Ok(PREFIX + "&text=" + Lower(mainTag) + params + "&page=" + IntToString(page))
  }

  /** The URL building of `_create_url`: the query string grows by one area
      parameter per city, and an unknown city aborts it. */
  method CreateUrl(mainTag: string, cities: seq<string>, page: int) returns (r: Result<string, Error>)
    ensures r == UrlSpec(mainTag, cities, page)
  {
    var url := PREFIX;
    url := url + "&text=" + Lower(mainTag);
    ghost var head := url;
    var i := 0;
    while i < |cities|
      invariant 0 <= i <= |cities|
      invariant AreaParams(cities[..i]).Ok?
      invariant url == head + AreaParams(cities[..i]).value
    {
      assert cities[..i + 1][..i] == cities[..i];
      var code := CityCode(cities[i]);
      match code {
        case Err(e) =>
          r := Err(e);
          assert AreaParams(cities) == Err(e) by {
            AreaParamsFailFromPrefix(cities, i + 1);
          }
          return;
        case Ok(c) =>
          url := url + AreaParam(c);
      }
      i := i + 1;
    }
    assert cities[..i] == cities;
    url := url + "&page=" + IntToString(page);
    r := Ok(url);
  }

  /** Once a prefix of the cities fails, the whole list fails the same way. */
  lemma {:induction false} AreaParamsFailFromPrefix(cities: seq<string>, n: nat)
    requires n <= |cities| && AreaParams(cities[..n]).Err?
    ensures AreaParams(cities) == AreaParams(cities[..n])
    decreases |cities| - n
  {
    if n < |cities| {
      assert cities[..n + 1][..n] == cities[..n];
      AreaParamsFailFromPrefix(cities, n + 1);
    } else {
      assert cities[..n] == cities;
    }
  }

  /** The parameters fail exactly when some city is unknown, and then with the
      error of the first unknown city. */
  lemma {:induction false} AreaParamsFailure(cities: seq<string>)
    ensures AreaParams(cities).Err? <==> exists i :: 0 <= i < |cities| && CityCode(cities[i]).Err?
    ensures AreaParams(cities).Err? ==>
      exists i :: 0 <= i < |cities| && CityCode(cities[i]) == Err(AreaParams(cities).error)
        && forall j :: 0 <= j < i ==> CityCode(cities[j]).Ok?
    decreases |cities|
  {
    if cities != [] {
      var init := cities[..|cities| - 1];
      AreaParamsFailure(init);
      assert forall i :: 0 <= i < |init| ==> init[i] == cities[i];
    }
  }

  /** Each city contributes exactly the seven characters `&area=1` or `&area=2`,
      at its own position. */
  lemma {:induction false} AreaParamsLayout(cities: seq<string>)
    requires AreaParams(cities).Ok?
    ensures |AreaParams(cities).value| == 7 * |cities|
    ensures forall k :: 0 <= k < |cities| ==>
      CityCode(cities[k]).Ok? &&
      AreaParams(cities).value[7 * k .. 7 * k + 7] == AreaParam(CityCode(cities[k]).value)
    decreases |cities|
  {
    if cities != [] {
      var init := cities[..|cities| - 1];
      AreaParamsLayout(init);
      var p := AreaParams(init).value;
      var x := AreaParams(cities).value;
      var code := CityCode(cities[|cities| - 1]).value;
      assert code == 1 || code == 2;
      assert |AreaParam(code)| == 7;
      assert x == p + AreaParam(code);
      forall k | 0 <= k < |cities|
        ensures CityCode(cities[k]).Ok? && x[7 * k .. 7 * k + 7] == AreaParam(CityCode(cities[k]).value)
      {
        if k < |init| {
          assert init[k] == cities[k];
          assert x[7 * k .. 7 * k + 7] == p[7 * k .. 7 * k + 7];
        } else {
          assert x[7 * k .. 7 * k + 7] == AreaParam(code);
        }
      }
    }
  }

  /** URL construction fails exactly when a city is unknown, naming the first
      such city's title-cased form. */
  lemma UrlFailsOnUnknownCity(mainTag: string, cities: seq<string>, page: int)
    ensures UrlSpec(mainTag, cities, page).Err? <==> exists i :: 0 <= i < |cities| && CityCode(cities[i]).Err?
    ensures UrlSpec(mainTag, cities, page).Err? ==>
      exists i :: 0 <= i < |cities| && UrlSpec(mainTag, cities, page).error == UnknownLocation(Title(cities[i]))
        && Title(cities[i]) != MOSCOW && Title(cities[i]) != SAINT_PETERSBURG
        && forall j :: 0 <= j < i ==> CityCode(cities[j]).Ok?
  {
    AreaParamsFailure(cities);
  }

  /** A slice that lies inside the middle part of a concatenation. */
  lemma SliceOfMiddle(a: string, b: string, c: string, i: nat, j: nat)
    requires i <= j <= |b|
    ensures (a + b + c)[|a| + i .. |a| + j] == b[i..j]
  {
    assert (a + b + c)[|a|..|a| + |b|] == b;
  }

  /** A built URL is the fixed prefix, `&text=` with the lower-cased search
      text, and one seven-character area parameter per city in input order. */
  lemma UrlLayout(mainTag: string, cities: seq<string>, page: int)
    requires UrlSpec(mainTag, cities, page).Ok?
    ensures var u := UrlSpec(mainTag, cities, page).value;
      var head := PREFIX + "&text=" + Lower(mainTag);
      && |u| == |head| + 7 * |cities| + 6 + |IntToString(page)|
      && u[..|head|] == head
      && (forall k :: 0 <= k < |cities| ==>
            CityCode(cities[k]).Ok? &&
            u[|head| + 7 * k .. |head| + 7 * k + 7] == "&area=" + NatToString(CityCode(cities[k]).value))
  {
    var head := PREFIX + "&text=" + Lower(mainTag);
    var params := AreaParams(cities).value;
    var tail := "&page=" + IntToString(page);
    assert UrlSpec(mainTag, cities, page).value == head + params + tail;
    AreaParamsLayout(cities);
    BlocksOfMiddle(head, params, tail, |cities|);
  }

  /** The seven-character blocks of the middle part of a concatenation. */
  lemma BlocksOfMiddle(head: string, params: string, tail: string, n: nat)
    requires |params| == 7 * n
    ensures forall k :: 0 <= k < n ==>
      (head + params + tail)[|head| + 7 * k .. |head| + 7 * k + 7] == params[7 * k .. 7 * k + 7]
  {
    forall k | 0 <= k < n
      ensures (head + params + tail)[|head| + 7 * k .. |head| + 7 * k + 7] == params[7 * k .. 7 * k + 7]
    {
      SliceOfMiddle(head, params, tail, 7 * k, 7 * k + 7);
    }
  }

  /** A built URL ends with `&page=` and a number that reads back as `page`. */
  lemma UrlEndsWithPage(mainTag: string, cities: seq<string>, page: int)
    requires UrlSpec(mainTag, cities, page).Ok?
    ensures var u := UrlSpec(mainTag, cities, page).value;
      var pageAt := |u| - 6 - |IntToString(page)|;
      && 0 <= pageAt
      && u[pageAt .. pageAt + 6] == "&page="
      && ParseInt(u[pageAt + 6 ..]) == Some(page)
  {
    var u := UrlSpec(mainTag, cities, page).value;
    var front := PREFIX + "&text=" + Lower(mainTag) + AreaParams(cities).value;
    var number := IntToString(page);
    IntToStringRoundTrip(page);
    assert u == front + "&page=" + number;
    SliceOfMiddle(front, "&page=", number, 0, 6);
    assert u[|front| + 6 ..] == number;
  }
}

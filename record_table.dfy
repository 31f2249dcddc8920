/**
  The table steps of `src/2_data_preprocessor.py` that clean the query-results
  table, in the order `main` applies them: `create_flight_id`,
  `convert_date_columns`, `remove_duplicates_and_erroneous_rows`,
  `convert_prices_to_usd` and `filter_by_country_variance`.

  A DataFrame is a sequence of rows; the columns no later step reads are not
  carried. A NaN cell is `None`.
*/
module RecordTable {
  import opened Outcomes
  import opened Text
  import opened Dates
  import opened Currency
  import opened RowOps

  /** A row of the query-results CSV: the eleven columns that make up the
      flight identifier, and the columns the later steps read. The two
      airport codes are read again by `create_journey_id`, so they keep their
      NaN (`None`); the other identifier columns are only ever read through
      `astype(str)` and are held as that text. */
  datatype RawRow = RawRow(
    airlineCode: string,
    departureAirportCode: Option<string>,
    destinationAirportCode: Option<string>,
    firstFlight: string,
    lastFlightCode: string,
    arrivalDate: string,
    departureDate: string,
    departureTime: string,
    sellingAirline: string,
    arrivalTime: string,
    firstFlightCode: string,
    country: Option<string>,
    language: Option<string>,
    currency: Option<string>,
    price: Option<real>)

  /** A row once it has its `Flight_ID`; `D` is the type of the two date
      columns (their text before `convert_date_columns`, a `datetime` or NaT
      after). */
  datatype Row<D> = Row(
    flightId: string,
    departureAirportCode: Option<string>,
    destinationAirportCode: Option<string>,
    arrivalDate: D,
    departureDate: D,
    country: Option<string>,
    language: Option<string>,
    currency: Option<string>,
    price: Option<real>)

  // ---------------------------------------------------------- create_flight_id

  /** The columns joined into `Flight_ID`, in that order. */
  const IdColumns: seq<string> := [
    "airline_code", "departure_airport_code", "destination_airport_code",
    "First_flight", "last_flight_code", "arrival_date", "departure_date",
    "departure_time", "selling_airline", "arrival_time", "first_flight_code"]

  /** `astype(str)` of a text cell: NaN prints as `nan`. */
  function CellText(c: Option<string>): string
  {
    match c
    case Some(t) => t
    case None => "nan"
  }

  /** The values of `IdColumns` in a row, as `astype(str)` gives them, in the
      same order. */
  function IdValues(r: RawRow): (v: seq<string>)
    ensures |v| == |IdColumns|
  {
    [r.airlineCode, CellText(r.departureAirportCode), CellText(r.destinationAirportCode),
     r.firstFlight, r.lastFlightCode, r.arrivalDate, r.departureDate,
     r.departureTime, r.sellingAirline, r.arrivalTime, r.firstFlightCode]
  }

  /** `'-'.join` of the identifier columns. */
  function FlightId(r: RawRow): string
  {
    Join(IdValues(r), "-")
  }

  /** One row after `create_flight_id`: `Flight_ID` added, `departure_time`,
      `selling_airline` and `arrival_time` dropped. */
  function WithFlightId(r: RawRow): (t: Row<string>)
    ensures t.flightId == Join(IdValues(r), "-")
    ensures t.departureAirportCode == r.departureAirportCode && t.destinationAirportCode == r.destinationAirportCode
    ensures t.arrivalDate == r.arrivalDate && t.departureDate == r.departureDate
    ensures t.country == r.country && t.language == r.language
    ensures t.currency == r.currency && t.price == r.price
  {
    Row(FlightId(r), r.departureAirportCode, r.destinationAirportCode, r.arrivalDate, r.departureDate,
        r.country, r.language, r.currency, r.price)
  }

  function CreateFlightId(rows: seq<RawRow>): (t: seq<Row<string>>)
    ensures |t| == |rows|
    ensures forall k :: 0 <= k < |rows| ==> t[k] == WithFlightId(rows[k])
  {
    seq(|rows|, k requires 0 <= k < |rows| => WithFlightId(rows[k]))
  }

  /** When no identifier column holds a `-`, the `Flight_ID` determines all
      eleven of them. */
  lemma FlightIdInjective(a: RawRow, b: RawRow)
    requires forall i :: 0 <= i < |IdColumns| ==> '-' !in IdValues(a)[i] && '-' !in IdValues(b)[i]
    requires FlightId(a) == FlightId(b)
    ensures IdValues(a) == IdValues(b)
  {
    JoinInjective(IdValues(a), IdValues(b), '-');
  }

  /** `First_flight` is itself built with a `-`, so the identifier columns
      cannot be read back from `Flight_ID`: moving the text after a `-` of
      `First_flight` to the front of `last_flight_code` gives a row with other
      identifier columns and the same `Flight_ID`. */
  lemma FlightIdCollision(a: RawRow, x: string, y: string)
    requires a.firstFlight == x + "-" + y
    ensures var b := a.(firstFlight := x, lastFlightCode := y + "-" + a.lastFlightCode);
      IdValues(b) != IdValues(a) && FlightId(b) == FlightId(a)
  {
    var b := a.(firstFlight := x, lastFlightCode := y + "-" + a.lastFlightCode);
    assert IdValues(b)[3] != IdValues(a)[3] by { assert |IdValues(b)[3]| < |IdValues(a)[3]|; }
    var p := IdValues(a)[..3];
    var t := IdValues(a)[5..];
    assert IdValues(a) == p + [a.firstFlight, a.lastFlightCode] + t;
    assert IdValues(b) == p + [x, y + "-" + a.lastFlightCode] + t;
    JoinAppend(p + [a.firstFlight, a.lastFlightCode], t, "-");
    JoinAppend(p + [x, y + "-" + a.lastFlightCode], t, "-");
    JoinAppend(p, [a.firstFlight, a.lastFlightCode], "-");
    JoinAppend(p, [x, y + "-" + a.lastFlightCode], "-");
    assert Join([a.firstFlight, a.lastFlightCode], "-") == x + "-" + y + "-" + a.lastFlightCode;
    assert Join([x, y + "-" + a.lastFlightCode], "-") == x + "-" + y + "-" + a.lastFlightCode;
  }

  // ------------------------------------------------------- convert_date_columns

  /** `literal_eval`, `clean_fifth_element` and `convert_list_to_datetime`
      applied to one date cell. */
  function DateOf(text: string, literalEval: string -> Result<seq<Item>>): Result<Option<DateTime>>
  {
    var items :- literalEval(text);
    ConvertListToDatetime(CleanItem(items))
  }

  /** `convert_date_columns` for one column: `ast.literal_eval` on every cell
      (given here as a parameter), then `clean_fifth_element`, then
      `convert_list_to_datetime`; each stage runs over the whole column and
      its first exception ends the step. */
  function ConvertDateColumn(texts: seq<string>, literalEval: string -> Result<seq<Item>>)
    : (r: Result<seq<Option<DateTime>>>)
    ensures r.Success? ==> |r.value| == |texts|
  {
    var lists :- CollectMap(texts, literalEval);
    var cleaned := seq(|lists|, k requires 0 <= k < |lists| => CleanItem(lists[k]));
    CollectMap(cleaned, ConvertListToDatetime)
  }

  /** The column converts exactly when every cell evaluates and every cleaned
      list converts, and then each cell holds its own conversion. */
  lemma ConvertDateColumnFacts(texts: seq<string>, literalEval: string -> Result<seq<Item>>)
    ensures ConvertDateColumn(texts, literalEval).Success? <==>
      forall k :: 0 <= k < |texts| ==> DateOf(texts[k], literalEval).Success?
    ensures ConvertDateColumn(texts, literalEval).Success? ==>
      |ConvertDateColumn(texts, literalEval).value| == |texts| &&
      forall k :: 0 <= k < |texts| ==> ConvertDateColumn(texts, literalEval).value[k] == DateOf(texts[k], literalEval).value
  {
    CollectMapFacts(texts, literalEval);
    if CollectMap(texts, literalEval).Success? {
      var lists := CollectMap(texts, literalEval).value;
      var cleaned := seq(|lists|, k requires 0 <= k < |lists| => CleanItem(lists[k]));
      CollectMapFacts(cleaned, ConvertListToDatetime);
      assert ConvertDateColumn(texts, literalEval) == CollectMap(cleaned, ConvertListToDatetime);
      forall k | 0 <= k < |texts| ensures DateOf(texts[k], literalEval) == ConvertListToDatetime(cleaned[k]) {
        assert literalEval(texts[k]) == Success(lists[k]);
      }
    } else {
      var k :| 0 <= k < |texts| && literalEval(texts[k]).Failure?;
      assert DateOf(texts[k], literalEval).Failure?;
    }
  }

  function WithDates<D, E>(r: Row<D>, arrival: E, departure: E): Row<E>
  {
    Row(r.flightId, r.departureAirportCode, r.destinationAirportCode, arrival, departure,
        r.country, r.language, r.currency, r.price)
  }

  /** `convert_date_columns`: `arrival_date` first, then `departure_date`. */
  function ConvertDateColumns(rows: seq<Row<string>>, literalEval: string -> Result<seq<Item>>)
    : (r: Result<seq<Row<Option<DateTime>>>>)
    ensures r.Success? ==> |r.value| == |rows|
  {
    var arrival :- ConvertDateColumn(seq(|rows|, k requires 0 <= k < |rows| => rows[k].arrivalDate), literalEval);
    var departure :- ConvertDateColumn(seq(|rows|, k requires 0 <= k < |rows| => rows[k].departureDate), literalEval);
    Success(seq(|rows|, k requires 0 <= k < |rows| => WithDates(rows[k], arrival[k], departure[k])))
  }

  /** The table converts exactly when every date cell does; each row then
      holds its own two converted dates and is otherwise unchanged. */
  lemma ConvertDateColumnsFacts(rows: seq<Row<string>>, literalEval: string -> Result<seq<Item>>)
    ensures ConvertDateColumns(rows, literalEval).Success? <==>
      forall k :: 0 <= k < |rows| ==>
        DateOf(rows[k].arrivalDate, literalEval).Success? && DateOf(rows[k].departureDate, literalEval).Success?
    ensures ConvertDateColumns(rows, literalEval).Success? ==>
      forall k :: 0 <= k < |rows| ==>
        ConvertDateColumns(rows, literalEval).value[k]
        == WithDates(rows[k], DateOf(rows[k].arrivalDate, literalEval).value, DateOf(rows[k].departureDate, literalEval).value)
  {
    var arr := seq(|rows|, k requires 0 <= k < |rows| => rows[k].arrivalDate);
    var dep := seq(|rows|, k requires 0 <= k < |rows| => rows[k].departureDate);
    ConvertDateColumnFacts(arr, literalEval);
    ConvertDateColumnFacts(dep, literalEval);
  }

  // ------------------------------------------- remove_duplicates_and_erroneous_rows

  /** `Duplicate_checker`: `Flight_ID + Detected_Country + Detected_Language +
      Detected_Country + str(ticket_price)`. `str` of the price is left
      uninterpreted (`priceText`). Adding a NaN string gives NaN, and
      `drop_duplicates` counts all NaN keys as one key (`None`). */
  function DuplicateKey<D>(r: Row<D>, priceText: Option<real> -> string): (key: Option<string>)
    ensures key.None? <==> r.country.None? || r.language.None?
    ensures key.Some? ==> r.flightId <= key.value
  {
    if r.country.None? || r.language.None? then None
    else Some(r.flightId + r.country.value + r.language.value + r.country.value + priceText(r.price))
  }

  /** What survives `dropna(subset=['Detected_Currency', 'ticket_price',
      'Detected_Country'])` and `ticket_price >= 10`. */
  predicate IsComplete<D>(r: Row<D>)
  {
    r.currency.Some? && r.price.Some? && r.country.Some? && r.price.value >= 10.0
  }

  /** The `Duplicate_checker` column as a function of the row. */
  function KeyOf<D>(priceText: Option<real> -> string): Row<D> -> Option<string>
  {
    (r: Row<D>) => DuplicateKey(r, priceText)
  }

  function RemoveDuplicatesAndErroneousRows<D(==)>(rows: seq<Row<D>>, priceText: Option<real> -> string)
    : (r: seq<Row<D>>)
    ensures |r| <= |rows|
    ensures forall k :: 0 <= k < |r| ==> IsComplete(r[k])
  {
    Filter(DropDuplicates(rows, KeyOf(priceText)), IsComplete)
  }

  /** The cleaned table keeps input order and holds only complete rows, no
      two with the same key. */
  lemma RemoveDuplicatesKeepsOrder<D>(rows: seq<Row<D>>, priceText: Option<real> -> string)
    ensures var r := RemoveDuplicatesAndErroneousRows(rows, priceText);
      && IsSubsequence(r, rows)
      && (forall k :: 0 <= k < |r| ==> IsComplete(r[k]))
      && DistinctKeys(r, KeyOf(priceText))
  {
    var unique := DropDuplicates(rows, KeyOf(priceText));
    DropDuplicatesFromFacts(rows, KeyOf(priceText), {});
    FilterFacts(unique, IsComplete);
    SubsequenceTransitive(Filter(unique, IsComplete), unique, rows);
    FilterKeepsDistinct(unique, IsComplete, KeyOf(priceText));
  }

  /** Each kept row is the first row of the input with its key. */
  lemma RemoveDuplicatesKeepsFirst<D>(rows: seq<Row<D>>, priceText: Option<real> -> string)
    ensures var r := RemoveDuplicatesAndErroneousRows(rows, priceText);
      forall k :: 0 <= k < |r| ==>
        FirstWithKey(rows, KeyOf(priceText), DuplicateKey(r[k], priceText)) == Some(r[k])
  {
    var key := KeyOf(priceText);
    var unique := DropDuplicates(rows, key);
    var r := RemoveDuplicatesAndErroneousRows(rows, priceText);
    DropDuplicatesFromFacts(rows, key, {});
    FilterFacts(unique, IsComplete);
    forall k | 0 <= k < |r| ensures FirstWithKey(rows, key, key(r[k])) == Some(r[k]) {
      var m :| 0 <= m < |unique| && unique[m] == r[k];
    }
  }

  /** The first row of every key is kept when it is complete. A complete row
      whose key first occurs in an incomplete row is still removed, since the
      duplicates go before the incomplete rows. */
  lemma RemoveDuplicatesKeepsComplete<D>(rows: seq<Row<D>>, priceText: Option<real> -> string, k: nat)
    requires k < |rows| && IsComplete(rows[k])
    requires FirstWithKey(rows, KeyOf(priceText), DuplicateKey(rows[k], priceText)) == Some(rows[k])
    ensures rows[k] in RemoveDuplicatesAndErroneousRows(rows, priceText)
  {
    var key := KeyOf(priceText);
    DropDuplicatesKeepsFirst(rows, key, {}, k);
    FilterFacts(DropDuplicates(rows, key), IsComplete);
  }

  /** Cleaning a cleaned table changes nothing. */
  lemma RemoveDuplicatesIdempotent<D>(rows: seq<Row<D>>, priceText: Option<real> -> string)
    ensures var r := RemoveDuplicatesAndErroneousRows(rows, priceText);
      RemoveDuplicatesAndErroneousRows(r, priceText) == r
  {
    var r := RemoveDuplicatesAndErroneousRows(rows, priceText);
    RemoveDuplicatesKeepsOrder(rows, priceText);
    DropDuplicatesOfDistinct(r, KeyOf(priceText), {});
    FilterAll(r, IsComplete);
  }

  /** `Detected_Language` is not among the columns `dropna` checks, yet a NaN
      language makes the key NaN, and all NaN keys count as one: at most one
      row without a language survives. */
  lemma MissingLanguageKeepsOne<D>(rows: seq<Row<D>>, priceText: Option<real> -> string)
    ensures var r := RemoveDuplicatesAndErroneousRows(rows, priceText);
      forall i, j :: 0 <= i < j < |r| ==> r[i].language.Some? || r[j].language.Some?
  {
    RemoveDuplicatesKeepsOrder(rows, priceText);
  }

  /** When the first row of a key is incomplete, no other row with that key
      survives, complete or not: duplicates are removed before incomplete rows. */
  lemma IncompleteFirstHidesLater<D>(rows: seq<Row<D>>, priceText: Option<real> -> string, j: nat, k: nat)
    requires j < k < |rows| && DuplicateKey(rows[j], priceText) == DuplicateKey(rows[k], priceText)
    requires FirstWithKey(rows, KeyOf(priceText), DuplicateKey(rows[j], priceText)) == Some(rows[j])
    requires !IsComplete(rows[j])
    ensures rows[k] !in RemoveDuplicatesAndErroneousRows(rows, priceText)
  {
    var r := RemoveDuplicatesAndErroneousRows(rows, priceText);
    RemoveDuplicatesKeepsOrder(rows, priceText);
    RemoveDuplicatesKeepsFirst(rows, priceText);
  }

  // ----------------------------------------------------------- convert_prices_to_usd

  /** A row after `convert_prices_to_usd`: the row and its `Price_in_USD`. */
  datatype Priced<D> = Priced(row: Row<D>, priceUsd: Cell)

  function PriceCell(p: Option<real>): Cell
  {
    match p
    case Some(x) => Num(x)
    case None => Missing
  }

  function TextCell(s: Option<string>): Cell
  {
    match s
    case Some(t) => Txt(t)
    case None => Missing
  }

  /** The row `apply(..., axis=1)` hands to `convert_to_usd`, with the
      modelled columns under their names. */
  function Cells<D>(r: Row<D>): CellRow
  {
    map["Flight_ID" := Txt(r.flightId),
        "Detected_Country" := TextCell(r.country),
        "Detected_Language" := TextCell(r.language),
        "Detected_Currency" := TextCell(r.currency),
        "ticket_price" := PriceCell(r.price)]
  }

  function UsdOf<D>(priceColumn: string, currencyColumn: string, rates: Rates): Row<D> -> Result<Cell>
  {
    (x: Row<D>) => ConvertToUsdWith(Cells(x), priceColumn, currencyColumn, rates)
  }

  /** A complete row whose currency has a rate, priced at that rate. */
  predicate WellPriced<D>(x: Priced<D>, rates: Rates)
  {
    && IsComplete(x.row)
    && x.row.currency.value in rates
    && x.priceUsd == Num(x.row.price.value * rates[x.row.currency.value])
  }

  /** `convert_prices_to_usd`: `convert_to_usd` on every row in order; the
      first exception ends the step. On a table with no rows `apply` has no
      row to call the lambda on: it probes it with an empty row instead, the
      lookup of the price column fails there, and `apply` falls back to a
      copy of the whole table, which cannot be assigned to the single column
      `Price_in_USD`, so the assignment raises `ValueError`. */
  function ConvertPricesToUsd<D>(rows: seq<Row<D>>, priceColumn: string, currencyColumn: string, rates: Rates)
    : (r: Result<seq<Priced<D>>>)
    ensures rows == [] ==> r == Failure(ValueError)
    ensures r.Success? ==> |r.value| == |rows|
    ensures r.Success? ==> forall k :: 0 <= k < |rows| ==> r.value[k].row == rows[k]
  {
    if rows == [] then Failure(ValueError)
    else
      var usd :- CollectMap(rows, UsdOf(priceColumn, currencyColumn, rates));
      Success(seq(|rows|, k requires 0 <= k < |rows| => Priced(rows[k], usd[k])))
  }

  /** On complete rows, as `main` calls it: the step succeeds exactly when
      the table has rows and every currency has a rate, each row then gets
      its price times that rate, and otherwise it raises `ValueError`. */
  lemma PricesOfCompleteRows<D>(rows: seq<Row<D>>, rates: Rates)
    requires forall k :: 0 <= k < |rows| ==> IsComplete(rows[k])
    ensures var r := ConvertPricesToUsd(rows, "ticket_price", "Detected_Currency", rates);
      && (r.Success? <==> rows != [] && forall k :: 0 <= k < |rows| ==> rows[k].currency.Some? && rows[k].currency.value in rates)
      && (r.Failure? ==> r.error == ValueError)
    ensures var r := ConvertPricesToUsd(rows, "ticket_price", "Detected_Currency", rates);
      r.Success? ==> forall k :: 0 <= k < |rows| ==> r.value[k].row == rows[k] && WellPriced(r.value[k], rates)
  {
    if rows != [] {
      var f := UsdOf<D>("ticket_price", "Detected_Currency", rates);
      CollectMapFacts(rows, f);
      forall k | 0 <= k < |rows|
        ensures f(rows[k]).Success? <==> rows[k].currency.value in rates
        ensures f(rows[k]).Failure? ==> f(rows[k]).error == ValueError
        ensures f(rows[k]).Success? ==> f(rows[k]).value == Num(rows[k].price.value * rates[rows[k].currency.value])
      {
        assert IsComplete(rows[k]);
        var c := Cells(rows[k]);
        assert c["ticket_price"] == Num(rows[k].price.value);
        assert c["Detected_Currency"] == Txt(rows[k].currency.value);
      }
      CollectMapFailureError(rows, f, ValueError);
    }
  }

  // ------------------------------------------------------- filter_by_country_variance

  /** The `min_countries` that `main` passes; the parameter's own default, 8,
      is never used by the pipeline. */
  const MainMinCountries: int := 7

  /** The distinct non-NaN countries a flight was queried from (`nunique`). */
  function CountriesOf<D(==)>(rows: seq<Priced<D>>, id: string): set<string>
  {
    set x | x in rows && x.row.flightId == id && x.row.country.Some? :: x.row.country.value
  }

  function HasCountries<D(==)>(rows: seq<Priced<D>>, minCountries: int): Priced<D> -> bool
  {
    (x: Priced<D>) => |CountriesOf(rows, x.row.flightId)| >= minCountries
  }

  /** `filter_by_country_variance`: the rows of the flights queried from at
      least `minCountries` countries. */
  function FilterByCountryVariance<D(==)>(rows: seq<Priced<D>>, minCountries: int): (r: seq<Priced<D>>)
    ensures |r| <= |rows|
    ensures forall k :: 0 <= k < |r| ==> |CountriesOf(rows, r[k].row.flightId)| >= minCountries
  {
    Filter(rows, HasCountries(rows, minCountries))
  }

  /** A row is kept exactly when its flight has enough countries, so a
      flight's rows stay or go together; order is kept, and a kept flight
      keeps all its countries. */
  lemma CountryVarianceFacts<D>(rows: seq<Priced<D>>, minCountries: int)
    ensures var r := FilterByCountryVariance(rows, minCountries);
      && IsSubsequence(r, rows)
      && (forall x :: x in r <==> x in rows && |CountriesOf(rows, x.row.flightId)| >= minCountries)
      && (forall x, y :: x in rows && y in rows && x.row.flightId == y.row.flightId ==> (x in r <==> y in r))
    ensures var r := FilterByCountryVariance(rows, minCountries);
      forall x :: x in r ==> CountriesOf(r, x.row.flightId) == CountriesOf(rows, x.row.flightId)
  {
    var p := HasCountries(rows, minCountries);
    var r := FilterByCountryVariance(rows, minCountries);
    FilterFacts(rows, p);
    forall x | x in r ensures CountriesOf(r, x.row.flightId) == CountriesOf(rows, x.row.flightId) {
      var id := x.row.flightId;
      forall c | c in CountriesOf(rows, id) ensures c in CountriesOf(r, id) {
        var y :| y in rows && y.row.flightId == id && y.row.country.Some? && y.row.country.value == c;
        assert y in r;
      }
    }
  }

  /** Filtering a filtered table again changes nothing. */
  lemma CountryVarianceIdempotent<D>(rows: seq<Priced<D>>, minCountries: int)
    ensures var r := FilterByCountryVariance(rows, minCountries);
      FilterByCountryVariance(r, minCountries) == r
  {
    var r := FilterByCountryVariance(rows, minCountries);
    CountryVarianceFacts(rows, minCountries);
    forall k | 0 <= k < |r| ensures HasCountries(r, minCountries)(r[k]) {
      assert r[k] in r;
    }
    FilterAll(r, HasCountries(r, minCountries));
  }

  // ---------------------------------------------------------------- the pipeline

  /** The cleaning steps of `main`, from `create_flight_id` to
      `filter_by_country_variance(df, min_countries=7)`; the commute-time and
      days-until-departure columns in between are not modelled. A raw table
      with no rows reaches the price conversion empty and fails there. */
  function CleanTable(raw: seq<RawRow>, literalEval: string -> Result<seq<Item>>,
                      priceText: Option<real> -> string, rates: Rates)
    : (r: Result<seq<Priced<Option<DateTime>>>>)
    ensures raw == [] ==> r.Failure?
    ensures r.Success? ==> |r.value| <= |raw|
  {
    var dated :- ConvertDateColumns(CreateFlightId(raw), literalEval);
    var cleaned := RemoveDuplicatesAndErroneousRows(dated, priceText);
    var priced :- ConvertPricesToUsd(cleaned, "ticket_price", "Detected_Currency", rates);
    Success(FilterByCountryVariance(priced, MainMinCountries))
  }

  /** Every row of the cleaned table is complete, carries its price times the
      rate of its currency, and belongs to a flight queried from at least
      seven countries of the table. */
  lemma CleanTableFacts(raw: seq<RawRow>, literalEval: string -> Result<seq<Item>>,
                        priceText: Option<real> -> string, rates: Rates)
    ensures var t := CleanTable(raw, literalEval, priceText, rates);
      t.Success? ==> forall x :: x in t.value ==>
        WellPriced(x, rates) && |CountriesOf(t.value, x.row.flightId)| >= MainMinCountries
  {
    var t := CleanTable(raw, literalEval, priceText, rates);
    if t.Success? {
      var dated := ConvertDateColumns(CreateFlightId(raw), literalEval).value;
      var cleaned := RemoveDuplicatesAndErroneousRows(dated, priceText);
      RemoveDuplicatesKeepsOrder(dated, priceText);
      PricesOfCompleteRows(cleaned, rates);
      var priced := ConvertPricesToUsd(cleaned, "ticket_price", "Detected_Currency", rates).value;
      assert t.value == FilterByCountryVariance(priced, MainMinCountries);
      FilterWellPriced(priced, rates);
    }
  }

  lemma FilterWellPriced<D>(priced: seq<Priced<D>>, rates: Rates)
    requires forall k :: 0 <= k < |priced| ==> WellPriced(priced[k], rates)
    ensures var r := FilterByCountryVariance(priced, MainMinCountries);
      forall x :: x in r ==> WellPriced(x, rates) && |CountriesOf(r, x.row.flightId)| >= MainMinCountries
  {
    var r := FilterByCountryVariance(priced, MainMinCountries);
    CountryVarianceFacts(priced, MainMinCountries);
    FilterFacts(priced, HasCountries(priced, MainMinCountries));
    forall x | x in r ensures WellPriced(x, rates) {
      assert x in priced;
      var k :| 0 <= k < |priced| && priced[k] == x;
    }
  }
}

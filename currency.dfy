/**
  The price conversion of the preprocessors: `convert_to_usd` looks up the
  exchange rate of a row's currency and multiplies the price by it.

  `src/data_preprocessor.py` holds its own thirteen-entry rate table and an
  older `convert_to_usd` that reads the price column it is given but then
  always uses `ticket_price`; `src/2_data_preprocessor.py` takes the table as
  a parameter (it is read from a JSON file) and uses the column it is given.

  A pandas row is a map from column names to cells. Prices are reals; IEEE
  rounding is not modelled.
*/
module Currency {
  import opened Outcomes

  /** One cell of a row: a number, a string, or NaN. */
  datatype Cell = Num(x: real) | Txt(s: string) | Missing

  type CellRow = map<string, Cell>

  type Rates = map<string, real>

  /** The module-level `conversion_rates` table of `src/data_preprocessor.py`:
      USD per unit of each currency. */
  const ConversionRates: Rates := map[
    "CHF" := 1.14,
    "TRY" := 0.032,
    "PLN" := 0.25,
    "GBP" := 1.26,
    "JOD" := 1.41,
    "AUD" := 0.66,
    "BRL" := 0.2,
    "IDR" := 0.000064,
    "USD" := 1.0,
    "EUR" := 1.08,
    "ALL" := 0.010,
    "JPY" := 0.0066,
    "BDT" := 0.0091
  ]

  /** The thirteen currency codes of the table. */
  const CurrencyCodes: set<string> :=
    {"CHF", "TRY", "PLN", "GBP", "JOD", "AUD", "BRL", "IDR", "USD", "EUR", "ALL", "JPY", "BDT"}

  /** The table has exactly thirteen currencies, among them the dollar at 1
      and the euro at 1.08, and every rate is positive. */
  lemma ConversionRatesFacts()
    ensures ConversionRates.Keys == CurrencyCodes
    ensures |ConversionRates.Keys| == 13
    ensures ConversionRates["USD"] == 1.0 && ConversionRates["EUR"] == 1.08
    ensures forall c :: c in ConversionRates ==> ConversionRates[c] > 0.0
  {
    CurrencyCodesCount();
    RatesPositive();
  }

  lemma RatesPositive()
    ensures forall c :: c in ConversionRates ==> ConversionRates[c] > 0.0
  {
    forall c | c in ConversionRates ensures ConversionRates[c] > 0.0 {
      assert c in CurrencyCodes;
    }
  }

  lemma CurrencyCodesCount()
    ensures |CurrencyCodes| == 13
  {
    // each display adds one code that is new, so the count grows by one
    assert |{"CHF"}| == 1;
    assert |{"CHF", "TRY"}| == 2;
    assert |{"CHF", "TRY", "PLN"}| == 3;
    assert |{"CHF", "TRY", "PLN", "GBP"}| == 4;
    assert |{"CHF", "TRY", "PLN", "GBP", "JOD"}| == 5;
    assert |{"CHF", "TRY", "PLN", "GBP", "JOD", "AUD"}| == 6;
    assert |{"CHF", "TRY", "PLN", "GBP", "JOD", "AUD", "BRL"}| == 7;
    assert |{"CHF", "TRY", "PLN", "GBP", "JOD", "AUD", "BRL", "IDR"}| == 8;
    assert |{"CHF", "TRY", "PLN", "GBP", "JOD", "AUD", "BRL", "IDR", "USD"}| == 9;
    assert |{"CHF", "TRY", "PLN", "GBP", "JOD", "AUD", "BRL", "IDR", "USD", "EUR"}| == 10;
    assert |{"CHF", "TRY", "PLN", "GBP", "JOD", "AUD", "BRL", "IDR", "USD", "EUR", "ALL"}| == 11;
    assert |{"CHF", "TRY", "PLN", "GBP", "JOD", "AUD", "BRL", "IDR", "USD", "EUR", "ALL", "JPY"}| == 12;
  }

  /** `conversion_rates.get(currency)`: only a string key can be present; a
      number or NaN is never a key of a table with string keys. */
  function RateOf(rates: Rates, currency: Cell): (r: Option<real>)
    ensures r.Some? <==> currency.Txt? && currency.s in rates
    ensures r.Some? ==> r.value == rates[currency.s]
  {
    match currency
    case Txt(s) => if s in rates then Some(rates[s]) else None
    case _ => None
  }

  /** `price * conversion_rate`: a number is scaled, NaN stays NaN, and a
      string times a float raises `TypeError`. */
  function Scale(price: Cell, rate: real): Result<Cell>
  {
    match price
    case Num(x) => Success(Num(x * rate))
    case Missing => Success(Missing)
    case Txt(_) => Failure(TypeError)
  }

  /** `convert_to_usd(row, price_col_name, currency_col_name, conversion_rates)`
      of `src/2_data_preprocessor.py`. */
  function ConvertToUsdWith(row: CellRow, priceCol: string, currencyCol: string, rates: Rates): (r: Result<Cell>)
    ensures priceCol !in row || currencyCol !in row <==> r == Failure(KeyError)
    ensures priceCol in row && currencyCol in row ==>
      (r == Failure(ValueError) <==> RateOf(rates, row[currencyCol]).None?)
    ensures r.Success? ==>
      exists rate :: RateOf(rates, row[currencyCol]) == Some(rate) && r == Scale(row[priceCol], rate)
  {
    if priceCol !in row then Failure(KeyError)
    else
      var price := row[priceCol];
      if currencyCol !in row then Failure(KeyError)
      else
        var currency := row[currencyCol];
        match RateOf(rates, currency)
        case None => Failure(ValueError)
        case Some(rate) => Scale(price, rate)
  }

  /** `convert_to_usd(row, price_col_name, currency_col_name)` of
      `src/data_preprocessor.py`: both named columns must exist, but the price
      is then read again from `ticket_price`, so `price_col_name` only decides
      whether a `KeyError` is raised. */
  function ConvertToUsd(row: CellRow, priceCol: string, currencyCol: string): (r: Result<Cell>)
    ensures priceCol !in row || currencyCol !in row || "ticket_price" !in row <==> r == Failure(KeyError)
    ensures priceCol in row && currencyCol in row && "ticket_price" in row ==>
      (r == Failure(ValueError) <==> RateOf(ConversionRates, row[currencyCol]).None?)
  {
    if priceCol !in row then Failure(KeyError)
    else
      var price := row[priceCol];
      if currencyCol !in row then Failure(KeyError)
      else
        var currency := row[currencyCol];
        if "ticket_price" !in row then Failure(KeyError)
        else
          var price' := row["ticket_price"];
          match RateOf(ConversionRates, currency)
          case None => Failure(ValueError)
          case Some(rate) => Scale(price', rate)
  }

  /** The older function is the newer one applied to `ticket_price` and the
      built-in table, whatever price column it is handed. */
  lemma ConvertToUsdReadsTicketPrice(row: CellRow, priceCol: string, currencyCol: string)
    requires priceCol in row
    ensures ConvertToUsd(row, priceCol, currencyCol)
            == ConvertToUsdWith(row, "ticket_price", currencyCol, ConversionRates)
  {
  }

  /** Changing the named price column never changes the older function's
      result. */
  lemma ConvertToUsdIgnoresPriceColumn(row: CellRow, priceCol: string, currencyCol: string, v: Cell)
    requires priceCol in row && priceCol != "ticket_price" && priceCol != currencyCol
    ensures ConvertToUsd(row[priceCol := v], priceCol, currencyCol) == ConvertToUsd(row, priceCol, currencyCol)
  {
  }

  /** An unknown currency always raises `ValueError`: there is no default rate. */
  lemma NoDefaultRate(row: CellRow, priceCol: string, currencyCol: string, rates: Rates)
    requires priceCol in row && currencyCol in row
    requires row[currencyCol].Txt? && row[currencyCol].s !in rates
    ensures ConvertToUsdWith(row, priceCol, currencyCol, rates) == Failure(ValueError)
  {
  }

  /** A dollar price is unchanged, a euro price is scaled by 1.08. */
  lemma DollarAndEuro(row: CellRow, x: real)
    requires "ticket_price" in row && row["ticket_price"] == Num(x)
    requires "Detected_Currency" in row
    ensures row["Detected_Currency"] == Txt("USD") ==>
      ConvertToUsd(row, "ticket_price", "Detected_Currency") == Success(Num(x))
    ensures row["Detected_Currency"] == Txt("EUR") ==>
      ConvertToUsd(row, "ticket_price", "Detected_Currency") == Success(Num(x * 1.08))
  {
  }
}

/**
  The steps of `src/2_data_preprocessor.py` after the country filter that
  name journeys and label the cheapest query country: `extract_dates`,
  `create_journey_id`, the group minimum and maximum of `Price_in_USD` that
  `calculate_FlightID_price_stats` and `calculate_JourneyID_price_stats`
  compute, and `identify_cheapest_location_FlightID` / `_JourneyID`.

  Group minima and maxima are exact; the relative spread of a flight is
  taken over the reals (IEEE rounding is not modelled), with the IEEE
  outcome of a division by a zero minimum written out. The other columns of
  those two statistics steps are not modelled.
*/
module JourneyLabels {
  import opened Outcomes
  import opened Text
  import opened Dates
  import opened Currency
  import opened RecordTable

  // ------------------------------------------------- extract_dates, create_journey_id

  /** `strftime('%d-%m-%Y')`: day and month with two digits, then the year. */
  function DayText(d: DateTime): string
  {
    ZeroPad2(d.day) + "-" + ZeroPad2(d.month) + "-" + IntText(d.year)
  }

  /** `.dt.strftime` on a date column: NaT gives NaN. */
  function ExtractDay(d: Option<DateTime>): (r: Option<string>)
    ensures r.Some? <==> d.Some?
  {
    match d
    case Some(t) => Some(DayText(t))
    case None => None
  }

  /** `Journey_route`: the two airport codes joined by `-`; NaN as soon as
      either code is NaN, since the cells are added as they are. */
  function JourneyRoute<D>(r: Row<D>): (route: Option<string>)
    ensures route.Some? <==> r.departureAirportCode.Some? && r.destinationAirportCode.Some?
    ensures route.Some? ==>
      var dep := r.departureAirportCode.value;
      |route.value| == |dep| + 1 + |r.destinationAirportCode.value|
      && route.value[..|dep|] == dep && route.value[|dep|] == '-'
      && route.value[|dep| + 1..] == r.destinationAirportCode.value
  {
    match (r.departureAirportCode, r.destinationAirportCode)
    case (Some(dep), Some(dest)) =>
      var t := dep + "-" + dest;
      assert t[..|dep|] == dep && t[|dep| + 1..] == dest;
      Some(t)
    case _ => None
  }

  /** `Journey_ID`: the route, `": "`, the departure day, a space and the
      arrival day; NaN as soon as the route or either day is NaN. */
  function JourneyId(r: Row<Option<DateTime>>): (id: Option<string>)
    ensures id.Some? <==>
      r.departureAirportCode.Some? && r.destinationAirportCode.Some?
      && r.departureDate.Some? && r.arrivalDate.Some?
  {
    match (JourneyRoute(r), ExtractDay(r.departureDate), ExtractDay(r.arrivalDate))
    case (Some(route), Some(dep), Some(arr)) => Some(route + ": " + dep + " " + arr)
    case _ => None
  }

  /** Two date cells fall on the same calendar day (or are both NaT). */
  predicate SameDay(d: Option<DateTime>, e: Option<DateTime>)
  {
    match (d, e)
    case (Some(a), Some(b)) => a.year == b.year && a.month == b.month && a.day == b.day
    case (None, None) => true
    case _ => false
  }

  /** A date `datetime` accepts whose year has four digits, so that
      `%d-%m-%Y` has a fixed width. */
  predicate FourDigitYear(d: DateTime)
  {
    ValidDateTime(d) && 1000 <= d.year
  }

  predicate DatesHaveFourDigitYears(r: Row<Option<DateTime>>)
  {
    && (r.departureDate.Some? ==> FourDigitYear(r.departureDate.value))
    && (r.arrivalDate.Some? ==> FourDigitYear(r.arrivalDate.value))
  }

  /** A four-digit-year day prints as ten characters. */
  lemma DayTextLength(d: DateTime)
    requires FourDigitYear(d)
    ensures |DayText(d)| == 10
  {
    DecimalFourDigits(d.year);
  }

  lemma Pad2Injective(a: nat, b: nat)
    requires a < 100 && b < 100 && Pad2(a) == Pad2(b)
    ensures a == b
  {
    assert Pad2(a)[0] == Pad2(b)[0] && Pad2(a)[1] == Pad2(b)[1];
  }

  /** Distinct calendar days print differently. */
  lemma {:induction false} DayTextInjective(d: DateTime, e: DateTime)
    requires FourDigitYear(d) && FourDigitYear(e)
    requires DayText(d) == DayText(e)
    ensures d.year == e.year && d.month == e.month && d.day == e.day
  {
    DayTextLength(d);
    DayTextLength(e);
    var s, t := DayText(d), DayText(e);
    assert s[..2] == Pad2(d.day) && t[..2] == Pad2(e.day);
    assert s[3..5] == Pad2(d.month) && t[3..5] == Pad2(e.month);
    assert s[6..] == Decimal(d.year) && t[6..] == Decimal(e.year);
    Pad2Injective(d.day, e.day);
    Pad2Injective(d.month, e.month);
    DecimalInjective(d.year, e.year);
  }

  /** Two identifiers on one route whose days have ten characters each
      agree only when both days do. */
  lemma IdTextParts(route: string, a: string, b: string, a': string, b': string)
    requires |a| == 10 && |b| == 10 && |a'| == 10 && |b'| == 10
    requires route + ": " + a + " " + b == route + ": " + a' + " " + b'
    ensures a == a' && b == b'
  {
    var n := |route| + 2;
    var id := route + ": " + a + " " + b;
    var id' := route + ": " + a' + " " + b';
    assert id[n..n + 10] == a && id'[n..n + 10] == a';
    assert id[n + 11..] == b && id'[n + 11..] == b';
  }

  /** On one route, two rows share a `Journey_ID` exactly when they depart on
      the same day and arrive on the same day, whatever their times. */
  lemma {:induction false} JourneyIdIffSameDays(r: Row<Option<DateTime>>, s: Row<Option<DateTime>>)
    requires JourneyRoute(r) == JourneyRoute(s) && JourneyRoute(r).Some?
    requires r.departureDate.Some? && r.arrivalDate.Some?
    requires DatesHaveFourDigitYears(r) && DatesHaveFourDigitYears(s)
    ensures JourneyId(r) == JourneyId(s) <==>
      SameDay(r.departureDate, s.departureDate) && SameDay(r.arrivalDate, s.arrivalDate)
  {
    if JourneyId(r) == JourneyId(s) {
      var route := JourneyRoute(r).value;
      var a, b := DayText(r.departureDate.value), DayText(r.arrivalDate.value);
      var a', b' := DayText(s.departureDate.value), DayText(s.arrivalDate.value);
      DayTextLength(r.departureDate.value);
      DayTextLength(r.arrivalDate.value);
      DayTextLength(s.departureDate.value);
      DayTextLength(s.arrivalDate.value);
      IdTextParts(route, a, b, a', b');
      DayTextInjective(r.departureDate.value, s.departureDate.value);
      DayTextInjective(r.arrivalDate.value, s.arrivalDate.value);
    }
  }

  // ------------------------------------------------------- group price statistics

  /** The non-NaN `Price_in_USD` values of the rows of one group, in table
      order: what `groupby(...)['Price_in_USD'].agg(['max', 'min'])` reads. */
  function GroupPrices<D>(rows: seq<Priced<D>>, inGroup: Priced<D> -> bool): seq<real>
  {
    if rows == [] then []
    else (if inGroup(rows[0]) && rows[0].priceUsd.Num? then [rows[0].priceUsd.x] else [])
         + GroupPrices(rows[1..], inGroup)
  }

  /** A value is a group price exactly when some row of the group carries it. */
  lemma {:induction false} GroupPricesFacts<D>(rows: seq<Priced<D>>, inGroup: Priced<D> -> bool)
    ensures forall p :: p in GroupPrices(rows, inGroup) <==>
      exists x :: x in rows && inGroup(x) && x.priceUsd == Num(p)
  {
    if rows != [] {
      GroupPricesFacts(rows[1..], inGroup);
      assert rows == [rows[0]] + rows[1..];
      forall p | p in GroupPrices(rows, inGroup)
        ensures exists x :: x in rows && inGroup(x) && x.priceUsd == Num(p)
      {
        if p !in GroupPrices(rows[1..], inGroup) {
          assert rows[0] in rows && inGroup(rows[0]) && rows[0].priceUsd == Num(p);
        }
      }
    }
  }

  /** `min` of a non-empty list of reals. */
  function MinReal(xs: seq<real>): (m: real)
    requires |xs| > 0
    ensures m in xs
    ensures forall i :: 0 <= i < |xs| ==> m <= xs[i]
  {
    if |xs| == 1 then xs[0]
    else
      var rest := MinReal(xs[1..]);
      assert forall i :: 1 <= i < |xs| ==> xs[i] == xs[1..][i - 1];
      if xs[0] <= rest then xs[0] else rest
  }

  /** `max` of a non-empty list of reals. */
  function MaxReal(xs: seq<real>): (m: real)
    requires |xs| > 0
    ensures m in xs
    ensures forall i :: 0 <= i < |xs| ==> xs[i] <= m
  {
    if |xs| == 1 then xs[0]
    else
      var rest := MaxReal(xs[1..]);
      assert forall i :: 1 <= i < |xs| ==> xs[i] == xs[1..][i - 1];
      if rest <= xs[0] then xs[0] else rest
  }

  /** The group minimum of `Price_in_USD`; NaN for a group without a price. */
  function GroupMin<D>(rows: seq<Priced<D>>, inGroup: Priced<D> -> bool): Option<real>
  {
    var ps := GroupPrices(rows, inGroup);
    if ps == [] then None else Some(MinReal(ps))
  }

  /** A row of the group with a price no other row of the group undercuts. */
  ghost predicate IsCheapest<D>(rows: seq<Priced<D>>, inGroup: Priced<D> -> bool, x: Priced<D>)
  {
    && x in rows && inGroup(x) && x.priceUsd.Num?
    && forall y :: y in rows && inGroup(y) && y.priceUsd.Num? ==> x.priceUsd.x <= y.priceUsd.x
  }

  /** `Price_in_USD == min_price_...` holds exactly on the cheapest rows. */
  lemma GroupMinFacts<D>(rows: seq<Priced<D>>, inGroup: Priced<D> -> bool)
    ensures GroupMin(rows, inGroup).Some? <==>
      exists x :: x in rows && inGroup(x) && x.priceUsd.Num?
    ensures forall x :: x in rows && inGroup(x) ==>
      (IsCheapest(rows, inGroup, x) <==> GroupMin(rows, inGroup).Some? && x.priceUsd == Num(GroupMin(rows, inGroup).value))
  {
    var ps := GroupPrices(rows, inGroup);
    GroupPricesFacts(rows, inGroup);
    forall x | x in rows && inGroup(x) && x.priceUsd.Num? ensures x.priceUsd.x in ps {
      assert x.priceUsd == Num(x.priceUsd.x);
    }
    if ps != [] {
      var m := MinReal(ps);
      forall x | x in rows && inGroup(x)
        ensures IsCheapest(rows, inGroup, x) <==> x.priceUsd == Num(m)
      {
        if IsCheapest(rows, inGroup, x) {
          var y :| y in rows && inGroup(y) && y.priceUsd == Num(m);
          assert x.priceUsd.x in ps;
        }
      }
    }
  }

  // ---------------------------------------------- identify_cheapest_location_*

  /** The non-NaN countries of the rows of a group whose price equals `m`, in
      table order: the `Detected_Country` column of `df[cheapest_mask]` for
      that group. */
  function CountriesAtPrice<D>(rows: seq<Priced<D>>, inGroup: Priced<D> -> bool, m: real): seq<string>
  {
    if rows == [] then []
    else (if inGroup(rows[0]) && rows[0].priceUsd == Num(m) && rows[0].row.country.Some?
          then [rows[0].row.country.value] else [])
         + CountriesAtPrice(rows[1..], inGroup, m)
  }

  lemma {:induction false} CountriesAtPriceFacts<D>(rows: seq<Priced<D>>, inGroup: Priced<D> -> bool, m: real)
    ensures forall c :: c in CountriesAtPrice(rows, inGroup, m) <==>
      exists x :: x in rows && inGroup(x) && x.priceUsd == Num(m) && x.row.country == Some(c)
  {
    if rows != [] {
      CountriesAtPriceFacts(rows[1..], inGroup, m);
      assert rows == [rows[0]] + rows[1..];
      forall c | c in CountriesAtPrice(rows, inGroup, m)
        ensures exists x :: x in rows && inGroup(x) && x.priceUsd == Num(m) && x.row.country == Some(c)
      {
        if c !in CountriesAtPrice(rows[1..], inGroup, m) {
          assert rows[0] in rows && rows[0].row.country == Some(c);
        }
      }
    }
  }

  /** `groupby(...)['Detected_Country'].min()` over the cheapest rows of a
      group: NaN when the group has no price or no cheapest row names a
      country. */
  function CheapestCountry<D>(rows: seq<Priced<D>>, inGroup: Priced<D> -> bool): Option<string>
  {
    match GroupMin(rows, inGroup)
    case None => None
    case Some(m) =>
      var cs := CountriesAtPrice(rows, inGroup, m);
      if cs == [] then None else Some(MinString(cs))
  }

  /** The cheapest country is defined exactly when some cheapest row names a
      country; it is then the country of a cheapest row and alphabetically
      first among the countries of all cheapest rows. */
  lemma CheapestCountryFacts<D>(rows: seq<Priced<D>>, inGroup: Priced<D> -> bool)
    ensures CheapestCountry(rows, inGroup).Some? <==>
      exists x :: IsCheapest(rows, inGroup, x) && x.row.country.Some?
    ensures CheapestCountry(rows, inGroup).Some? ==>
      var c := CheapestCountry(rows, inGroup).value;
      && (exists x :: IsCheapest(rows, inGroup, x) && x.row.country == Some(c))
      && (forall y :: IsCheapest(rows, inGroup, y) && y.row.country.Some? ==> LexLe(c, y.row.country.value))
  {
    GroupMinFacts(rows, inGroup);
    match GroupMin(rows, inGroup)
    case None =>
    case Some(m) =>
      var cs := CountriesAtPrice(rows, inGroup, m);
      CountriesAtPriceFacts(rows, inGroup, m);
      forall y | IsCheapest(rows, inGroup, y) && y.row.country.Some?
        ensures y.row.country.value in cs
      {
        assert y.row.country == Some(y.row.country.value);
      }
      if cs != [] {
        var c := MinString(cs);
        forall y | IsCheapest(rows, inGroup, y) && y.row.country.Some?
          ensures LexLe(c, y.row.country.value)
        {
          var i :| 0 <= i < |cs| && cs[i] == y.row.country.value;
        }
      }
  }

  /** The label when no flight country stands out. */
  const NoSignificantDifference: string := "No Significant Difference Found"

  /** The bound on `max_rel_price_diff_FlightID`, in percent. */
  const SignificanceThreshold: real := 1.5

  function SameFlight<D>(id: string): Priced<D> -> bool
  {
    (x: Priced<D>) => x.row.flightId == id
  }

  /** `max_rel_price_diff_FlightID >= 1.5`, where the spread is
      `(max - min) / min * 100`: a zero minimum gives infinity when the
      maximum is above it and NaN (never `>=`) when it is not. */
  predicate SignificantDifference<D>(rows: seq<Priced<D>>, id: string)
  {
    var ps := GroupPrices(rows, SameFlight(id));
    ps != [] && SpreadAtLeastThreshold(MinReal(ps), MaxReal(ps))
  }

  predicate SpreadAtLeastThreshold(lo: real, hi: real)
  {
    if lo == 0.0 then hi > 0.0 else (hi - lo) / lo * 100.0 >= SignificanceThreshold
  }

  /** With positive prices, a flight stands out exactly when its dearest
      price is at least 1.5 percent above its cheapest. */
  lemma SignificantIffSpread<D>(rows: seq<Priced<D>>, id: string)
    requires GroupPrices(rows, SameFlight(id)) != []
    requires MinReal(GroupPrices(rows, SameFlight(id))) > 0.0
    ensures var ps := GroupPrices(rows, SameFlight(id));
      SignificantDifference(rows, id) <==> MaxReal(ps) >= MinReal(ps) * 1.015
  {
    var ps := GroupPrices(rows, SameFlight(id));
    SpreadBound(MinReal(ps), MaxReal(ps));
  }

  lemma SpreadBound(lo: real, hi: real)
    requires lo > 0.0
    ensures SpreadAtLeastThreshold(lo, hi) <==> hi >= lo * 1.015
  {
    var q := (hi - lo) / lo;
    assert q * lo == hi - lo;
    if q * 100.0 >= 1.5 {
      assert q >= 0.015;
      assert q * lo >= 0.015 * lo;
    } else {
      assert q < 0.015;
      assert q * lo < 0.015 * lo;
    }
  }

  /** `Cheapest_Location_Flight` of a row: the cheapest country of its
      flight when the flight stands out and that country is defined, the
      sentinel otherwise. */
  function FlightLabel<D>(rows: seq<Priced<D>>, x: Priced<D>): (tag: string)
    ensures tag != NoSignificantDifference ==>
      && SignificantDifference(rows, x.row.flightId)
      && exists k :: 0 <= k < |rows| && IsCheapest(rows, SameFlight(x.row.flightId), rows[k]) && rows[k].row.country == Some(tag)
  {
    var id := x.row.flightId;
    CheapestCountryFacts(rows, SameFlight(id));
    if SignificantDifference(rows, id) then
      match CheapestCountry(rows, SameFlight(id))
      case Some(c) => c
      case None => NoSignificantDifference
    else NoSignificantDifference
  }

  /** `identify_cheapest_location_FlightID`: the new column, row by row (the
      left merge keeps the rows and their order). */
  function IdentifyCheapestLocationFlight<D>(rows: seq<Priced<D>>): (labels: seq<string>)
    ensures |labels| == |rows|
  {
    seq(|rows|, k requires 0 <= k < |rows| => FlightLabel(rows, rows[k]))
  }

  /** A flight that does not stand out is labelled with the sentinel; one
      that does is labelled with the alphabetically first country among its
      cheapest rows, or with the sentinel when none of them names a
      country. */
  lemma FlightLabelFacts<D>(rows: seq<Priced<D>>, x: Priced<D>)
    ensures !SignificantDifference(rows, x.row.flightId) ==> FlightLabel(rows, x) == NoSignificantDifference
    ensures var g := SameFlight<D>(x.row.flightId);
      SignificantDifference(rows, x.row.flightId) ==>
        if exists y :: IsCheapest(rows, g, y) && y.row.country.Some? then
          && (exists y :: IsCheapest(rows, g, y) && y.row.country == Some(FlightLabel(rows, x)))
          && (forall y :: IsCheapest(rows, g, y) && y.row.country.Some? ==> LexLe(FlightLabel(rows, x), y.row.country.value))
        else FlightLabel(rows, x) == NoSignificantDifference
  {
    CheapestCountryFacts(rows, SameFlight<D>(x.row.flightId));
  }

  /** All rows of one flight carry the same label. */
  lemma FlightLabelPerFlight<D>(rows: seq<Priced<D>>, i: nat, j: nat)
    requires i < |rows| && j < |rows| && rows[i].row.flightId == rows[j].row.flightId
    ensures IdentifyCheapestLocationFlight(rows)[i] == IdentifyCheapestLocationFlight(rows)[j]
  {
  }

  /** A flight whose rows all have one price is never labelled with a
      country. */
  lemma {:induction false} OnePriceNoLabel<D>(rows: seq<Priced<D>>, x: Priced<D>, p: real)
    requires forall y :: y in rows && y.row.flightId == x.row.flightId && y.priceUsd.Num? ==> y.priceUsd.x == p
    ensures FlightLabel(rows, x) == NoSignificantDifference
  {
    var g := SameFlight<D>(x.row.flightId);
    var ps := GroupPrices(rows, g);
    GroupPricesFacts(rows, g);
    if ps != [] {
      var lo, hi := MinReal(ps), MaxReal(ps);
      var a :| a in rows && g(a) && a.priceUsd == Num(lo);
      var b :| b in rows && g(b) && b.priceUsd == Num(hi);
      assert lo == p && hi == p;
    }
  }

  function SameJourney(j: string): Priced<Option<DateTime>> -> bool
  {
    (x: Priced<Option<DateTime>>) => JourneyId(x.row) == Some(j)
  }

  /** `Cheapest_Location_Journey` of a row: the cheapest country of its
      journey, with no threshold; NaN for a row whose `Journey_ID` is NaN,
      since `groupby` leaves NaN keys out. */
  function JourneyLabel(rows: seq<Priced<Option<DateTime>>>, x: Priced<Option<DateTime>>): (tag: Option<string>)
    ensures tag.Some? ==>
      && JourneyId(x.row).Some?
      && exists y :: IsCheapest(rows, SameJourney(JourneyId(x.row).value), y) && y.row.country == tag
  {
    match JourneyId(x.row)
    case None => None
    case Some(j) =>
      CheapestCountryFacts(rows, SameJourney(j));
      CheapestCountry(rows, SameJourney(j))
  }

  /** `identify_cheapest_location_JourneyID`: the new column, row by row. */
  function IdentifyCheapestLocationJourney(rows: seq<Priced<Option<DateTime>>>): (labels: seq<Option<string>>)
    ensures |labels| == |rows|
  {
    seq(|rows|, k requires 0 <= k < |rows| => JourneyLabel(rows, rows[k]))
  }

  /** A row with a NaN airport code has a NaN `Journey_route`, so a NaN
      `Journey_ID` and a NaN journey label, whatever its dates and price. */
  lemma MissingCodeNoJourneyLabel(rows: seq<Priced<Option<DateTime>>>, x: Priced<Option<DateTime>>)
    requires x.row.departureAirportCode.None? || x.row.destinationAirportCode.None?
    ensures JourneyRoute(x.row).None? && JourneyId(x.row).None?
    ensures JourneyLabel(rows, x).None?
  {
    JourneyLabelFacts(rows, x);
  }

  /** A row's journey label is defined exactly when its `Journey_ID` is and
      some cheapest row of the journey names a country; it is then the
      alphabetically first such country. */
  lemma JourneyLabelFacts(rows: seq<Priced<Option<DateTime>>>, x: Priced<Option<DateTime>>)
    ensures JourneyLabel(rows, x).Some? <==>
      JourneyId(x.row).Some? &&
      exists y :: IsCheapest(rows, SameJourney(JourneyId(x.row).value), y) && y.row.country.Some?
    ensures JourneyLabel(rows, x).Some? ==>
      var g := SameJourney(JourneyId(x.row).value);
      var c := JourneyLabel(rows, x).value;
      && (exists y :: IsCheapest(rows, g, y) && y.row.country == Some(c))
      && (forall y :: IsCheapest(rows, g, y) && y.row.country.Some? ==> LexLe(c, y.row.country.value))
  {
    if JourneyId(x.row).Some? {
      CheapestCountryFacts(rows, SameJourney(JourneyId(x.row).value));
    }
  }

  /** A group in which some row has a price has a cheapest row. */
  lemma CheapestRowExists<D>(rows: seq<Priced<D>>, inGroup: Priced<D> -> bool, x: Priced<D>)
    requires x in rows && inGroup(x) && x.priceUsd.Num?
    ensures exists y :: IsCheapest(rows, inGroup, y)
  {
    GroupMinFacts(rows, inGroup);
    GroupPricesFacts(rows, inGroup);
    var m := GroupMin(rows, inGroup).value;
    var y :| y in rows && inGroup(y) && y.priceUsd == Num(m);
    assert IsCheapest(rows, inGroup, y);
  }

  /** On a table where every row has a price and a country, as the cleaned
      table does, every row with a `Journey_ID` gets a journey label. */
  lemma CleanRowsHaveJourneyLabels(rows: seq<Priced<Option<DateTime>>>, k: nat)
    requires forall y :: y in rows ==> y.priceUsd.Num? && y.row.country.Some?
    requires k < |rows| && JourneyId(rows[k].row).Some?
    ensures IdentifyCheapestLocationJourney(rows)[k].Some?
  {
    var x := rows[k];
    var g := SameJourney(JourneyId(x.row).value);
    CheapestRowExists(rows, g, x);
    JourneyLabelFacts(rows, x);
  }

  /** Every row of the cleaned table whose `Journey_ID` is defined gets a
      journey label. */
  lemma CleanTableJourneyLabels(raw: seq<RawRow>, literalEval: string -> Result<seq<Item>>,
                                priceText: Option<real> -> string, rates: Rates, k: nat)
    requires CleanTable(raw, literalEval, priceText, rates).Success?
    requires var t := CleanTable(raw, literalEval, priceText, rates).value;
      k < |t| && JourneyId(t[k].row).Some?
    ensures IdentifyCheapestLocationJourney(CleanTable(raw, literalEval, priceText, rates).value)[k].Some?
  {
    var t := CleanTable(raw, literalEval, priceText, rates).value;
    CleanTableFacts(raw, literalEval, priceText, rates);
    forall y | y in t ensures y.priceUsd.Num? && y.row.country.Some? {
      assert WellPriced(y, rates);
    }
    CleanRowsHaveJourneyLabels(t, k);
  }
}

/**
  The positional extractors of the flight converter: each one reads the token
  list stored under one depth by the bracket scanner and returns the columns
  it is responsible for. An extractor's output is a Python `dict` in the
  source; here it is a `Record`, a map from column to field value.

  `clean_key_1` lives in module `KeyOne` because the two converter files
  differ there; every other extractor is the same in both files.
*/
module Extractors {
  import opened Outcomes
  import opened Text
  import opened RowOps

  /** The twelve columns of `column_list`, in that order. */
  datatype Column =
    | AirlineCode             // "airline_code"
    | DepartureAirportCode    // "departure_airport_code"
    | DestinationAirportCode  // "destination_airport_code"
    | DepartureDate           // "departure_date"
    | ArrivalDate             // "arrival_date"
    | TicketPrice             // "ticket_price"
    | FirstFlight             // "First_flight"
    | FirstFlightCode         // "first_flight_code"
    | LastFlightCode          // "last_flight_code"
    | SellingAirline          // "selling_airline"
    | DepartureTime           // "departure_time"
    | ArrivalTime             // "arrival_time"

  /** A column value: one string, a list of strings (the year-anchored date
      slices) or a list of ints (the consecutive-integer dates). */
  datatype Field = Text(s: string) | Texts(ts: seq<string>) | Ints(ns: seq<int>)

  type Record = map<Column, Field>

  /** `x.replace('"', '').replace(',', '').strip()`. */
  function Clean(x: string): (r: string)
    ensures '"' !in r && ',' !in r && IsStripped(r)
  {
    StripFacts(RemoveChar(RemoveChar(x, '"'), ','));
    RemoveCharFacts(RemoveChar(x, '"'), ',');
    Strip(RemoveChar(RemoveChar(x, '"'), ','))
  }

  /** `x.replace('"', '').strip()`: commas are kept. */
  function QuoteClean(x: string): (r: string)
    ensures '"' !in r && IsStripped(r)
    ensures forall c :: c in r ==> c in x
  {
    StripFacts(RemoveChar(x, '"'));
    RemoveCharFacts(x, '"');
    Strip(RemoveChar(x, '"'))
  }

  // ------------------------------------------------------------ clean_key_0

  /** `clean_key_0`: airline and airport codes from indices 1, 2, 3, or from
      18, 19, 20 when the cleaned entry at index 2 is not three characters. */
  function CleanKey0(data: seq<string>): (r: Result<Record>)
    ensures r.Failure? <==> |data| < 4 || (|Clean(data[2])| != 3 && |data| < 21)
    ensures r.Failure? ==> r.error == IndexError
    ensures r.Success? ==> IsCodeTriple(r.value)
  {
    if |data| < 4 then Failure(IndexError)
    else if |Clean(data[2])| == 3 then Success(CodeTriple(data, 1))
    else if |data| < 21 then Failure(IndexError)
    else Success(CodeTriple(data, 18))
  }

  /** The three code columns, each a string without `"` or `,`. */
  predicate IsCodeTriple(r: Record)
  {
    r.Keys == {AirlineCode, DepartureAirportCode, DestinationAirportCode}
    && forall c :: c in r ==> r[c].Text? && '"' !in r[c].s && ',' !in r[c].s
  }

  function CodeTriple(data: seq<string>, b: nat): (r: Record)
    requires b + 3 <= |data|
    ensures IsCodeTriple(r)
  {
    map[AirlineCode := Text(Clean(data[b])),
        DepartureAirportCode := Text(Clean(data[b + 1])),
        DestinationAirportCode := Text(Clean(data[b + 2]))]
  }

  /** Which triple `clean_key_0` reads: the first one exactly when its
      departure code has three characters. */
  lemma CleanKey0Source(data: seq<string>)
    requires CleanKey0(data).Success?
    ensures |Clean(data[2])| == 3 ==> CleanKey0(data).value == CodeTriple(data, 1)
    ensures |Clean(data[2])| != 3 ==> CleanKey0(data).value == CodeTriple(data, 18)
    ensures |CleanKey0(data).value[DepartureAirportCode].s| == 3 ||
            CleanKey0(data).value == CodeTriple(data, 18)
  {
  }

  // ------------------------------------------------------------ clean_key_2

  /** `clean_key_2`: `First_flight` is the cleaned index 3, a `-`, and the
      cleaned index 6. */
  function CleanKey2(data: seq<string>): (r: Result<Record>)
    ensures r.Failure? <==> |data| < 7
    ensures r.Failure? ==> r.error == IndexError
    ensures r.Success? ==>
      r.value.Keys == {FirstFlight} && r.value[FirstFlight].Text?
      && var t := r.value[FirstFlight].s;
         |t| == |Clean(data[3])| + 1 + |Clean(data[6])|
         && t[..|Clean(data[3])|] == Clean(data[3])
         && t[|Clean(data[3])|] == '-'
         && t[|Clean(data[3])| + 1..] == Clean(data[6])
  {
    if |data| < 7 then Failure(IndexError)
    else Success(map[FirstFlight := Text(Clean(data[3]) + "-" + Clean(data[6]))])
  }

  // ------------------------------------------------- preprocess_flight_data

  /** `x.startswith(p)`. */
  predicate StartsWith(x: string, p: string)
  {
    |p| <= |x| && x[..|p|] == p
  }

  /** The entries `preprocess_flight_data` keeps. */
  predicate Keep(e: string)
  {
    !StartsWith(e, "null") && e != "true"
  }

  /** The entries of `data` that are kept, in order: the loop's `continue`
      skips exactly the entries that fail `Keep`. */
  function Filtered(data: seq<string>): (r: seq<string>)
    ensures |r| <= |data|
    ensures forall k :: 0 <= k < |r| ==> Keep(r[k])
  {
    if data == [] then []
    else Filtered(data[..|data| - 1]) + (if Keep(data[|data| - 1]) then [data[|data| - 1]] else [])
  }

  /** The scan from the back agrees with the mask filter read from the front. */
  lemma {:induction false} FilteredEqualsFilter(data: seq<string>)
    ensures Filtered(data) == Filter(data, Keep)
  {
    if data != [] {
      var init := data[..|data| - 1];
      var x := data[|data| - 1];
      FilteredEqualsFilter(init);
      FilterSnoc(init, x, Keep);
      assert data == init + [x];
    }
  }

  /** An entry is kept exactly when it passes `Keep`, and the kept entries
      are a subsequence of the input, so nothing is reordered. */
  lemma FilteredIsFilter(data: seq<string>)
    ensures Filtered(data) == Filter(data, Keep)
    ensures forall x :: x in Filtered(data) <==> x in data && Keep(x)
    ensures IsSubsequence(Filtered(data), data)
  {
    FilteredEqualsFilter(data);
    FilterFacts(data, Keep);
  }

  /** What `preprocess_flight_data` returns: the longest prefix of the kept
      entries whose length is a multiple of 5. */
  function Preprocessed(data: seq<string>): (r: seq<string>)
    ensures |r| % 5 == 0 && |r| <= |Filtered(data)| < |r| + 5
    ensures r == Filtered(data)[..|r|]
  {
    var f := Filtered(data);
    f[..|f| / 5 * 5]
  }

  lemma DivFive(q: nat, t: nat)
    requires t < 5
    ensures (5 * q + t) / 5 * 5 == 5 * q
  {
  }

  /** The loop of `preprocess_flight_data`. Entries go to a group of at most
      five; a full group is appended to the result and emptied. The check
      after the loop for a leftover group of five cannot fire: the group is
      emptied as soon as it reaches five. */
  method PreprocessFlightData(data: seq<string>) returns (preprocessed: seq<string>)
    ensures preprocessed == Preprocessed(data)
  {
    preprocessed := [];
    var tempGroup: seq<string> := [];
    ghost var groups: nat := 0;
    for i := 0 to |data|
      invariant preprocessed + tempGroup == Filtered(data[..i])
      invariant |preprocessed| == 5 * groups && |tempGroup| < 5
    {
      assert data[..i + 1][..i] == data[..i];
      var entry := data[i];
      if !(StartsWith(entry, "null") || entry == "true") {
        tempGroup := tempGroup + [entry];
        if |tempGroup| == 5 {
          preprocessed := preprocessed + tempGroup;
          tempGroup := [];
          groups := groups + 1;
        }
      }
    }
    if |tempGroup| == 5 {
      assert false;
    }
    assert data[..|data|] == data;
    DivFive(groups, |tempGroup|);
    assert preprocessed == Filtered(data)[..5 * groups];
  }

  lemma {:induction false} FilteredOfKept(data: seq<string>)
    requires forall k :: 0 <= k < |data| ==> Keep(data[k])
    ensures Filtered(data) == data
  {
    if data != [] {
      FilteredOfKept(data[..|data| - 1]);
      assert data[..|data| - 1] + [data[|data| - 1]] == data;
    }
  }

  /** Preprocessing an already preprocessed list changes nothing. */
  lemma PreprocessIdempotent(data: seq<string>)
    ensures Preprocessed(Preprocessed(data)) == Preprocessed(data)
  {
    var p := Preprocessed(data);
    FilteredOfKept(p);
    assert |p| / 5 * 5 == |p|;
    assert p[..|p|] == p;
  }

  // ------------------------------------------------------------ clean_key_3

  /** An entry that qualifies as a flight code: after removing quotes and
      stripping it is alphanumeric and not purely numeric. */
  predicate IsCode(e: string)
  {
    IsAlnum(QuoteClean(e)) && !IsNumeric(QuoteClean(e))
  }

  /** The index of the first qualifying entry. */
  function FirstCode(data: seq<string>): (r: Option<nat>)
    ensures r.Some? ==> r.value < |data| && IsCode(data[r.value])
    ensures r.Some? ==> forall k :: 0 <= k < r.value ==> !IsCode(data[k])
    ensures r.None? ==> forall k :: 0 <= k < |data| ==> !IsCode(data[k])
  {
    if data == [] then None
    else if IsCode(data[0]) then Some(0)
    else
      var t := FirstCode(data[1..]);
      assert forall k :: 1 <= k < |data| ==> data[1..][k - 1] == data[k];
      if t.None? then None else Some(t.value + 1)
  }

  /** `first_flight_code`: the first qualifying entry, cleaned, followed by
      the cleaned entry after it when there is one; `""` when none qualifies. */
  function FlightCode(data: seq<string>): (r: string)
    ensures '"' !in r
    ensures FirstCode(data).Some? ==> QuoteClean(data[FirstCode(data).value]) <= r
  {
    match FirstCode(data)
    case None => ""
    case Some(i) => QuoteClean(data[i]) + (if i + 1 < |data| then QuoteClean(data[i + 1]) else "")
  }

  /** The loop of `clean_key_3`, which stops at the first qualifying entry. */
  method CleanKey3(data: seq<string>) returns (r: Record)
    ensures r == map[FirstFlightCode := Text(FlightCode(data))]
  {
    var alphanumericEntry := "";
    var nextEntry := "";
    var i := 0;
    while i < |data|
      invariant 0 <= i <= |data|
      invariant forall k :: 0 <= k < i ==> !IsCode(data[k])
      invariant alphanumericEntry == "" && nextEntry == ""
    {
      var cleanedEntry := QuoteClean(data[i]);
      if IsAlnum(cleanedEntry) && !IsNumeric(cleanedEntry) {
        alphanumericEntry := cleanedEntry;
        if i + 1 < |data| {
          nextEntry := QuoteClean(data[i + 1]);
        }
        FlightCodeAt(data, i);
        break;
      }
      i := i + 1;
    }
    if i == |data| {
      FlightCodeAt(data, i);
      assert alphanumericEntry + nextEntry == "";
    }
    r := map[FirstFlightCode := Text(alphanumericEntry + nextEntry)];
  }

  /** The code the loop has assembled when it stops at index `i`
      (at `|data|` when no entry qualifies). */
  lemma FlightCodeAt(data: seq<string>, i: nat)
    requires i <= |data| && forall k :: 0 <= k < i ==> !IsCode(data[k])
    requires i < |data| ==> IsCode(data[i])
    ensures i == |data| ==> FlightCode(data) == ""
    ensures i < |data| ==>
      FlightCode(data) == QuoteClean(data[i]) + (if i + 1 < |data| then QuoteClean(data[i + 1]) else "")
  {
    FirstCodeAt(data, i);
  }

  lemma FirstCodeAt(data: seq<string>, i: nat)
    requires i <= |data| && forall k :: 0 <= k < i ==> !IsCode(data[k])
    requires i < |data| ==> IsCode(data[i])
    ensures FirstCode(data) == if i < |data| then Some(i) else None
  {
    var f := FirstCode(data);
    var j := if f.Some? then f.value else |data|;
    FirstIsUnique(data, IsCode, i, j);
  }

  /** Two indices that are each the first entry passing `p` (or the end,
      when none passes) are the same index. */
  lemma FirstIsUnique<T>(data: seq<T>, p: T -> bool, i: nat, j: nat)
    requires i <= |data| && j <= |data|
    requires forall k :: 0 <= k < i ==> !p(data[k])
    requires forall k :: 0 <= k < j ==> !p(data[k])
    requires i < |data| ==> p(data[i])
    requires j < |data| ==> p(data[j])
    ensures i == j
  {
  }

  /** The code is empty exactly when no entry qualifies, and otherwise starts
      with the first qualifying entry, cleaned. */
  lemma FlightCodeEmpty(data: seq<string>)
    ensures FlightCode(data) == "" <==> forall k :: 0 <= k < |data| ==> !IsCode(data[k])
    ensures FirstCode(data).Some? ==>
      var c := QuoteClean(data[FirstCode(data).value]);
      |c| <= |FlightCode(data)| && FlightCode(data)[..|c|] == c
  {
    var f := FirstCode(data);
    if f.Some? {
      var c := QuoteClean(data[f.value]);
      assert |c| > 0;
      assert FlightCode(data)[..|c|] == c;
    }
  }

  // ----------------------------------------------------------- c2lean_key_3

  /** The start of the last complete five-token window. */
  function LastWindowStart(n: nat): (i: nat)
    requires n >= 5
    ensures i % 5 == 0 && i + 5 <= n < i + 10
  {
    n / 5 * 5 - 5
  }

  function WindowTimes(data: seq<string>, i: nat): Record
    requires i + 5 <= |data|
  {
    map[DepartureTime := Text(ReplaceChar(data[i], ',', ':')),
        ArrivalTime := Text(ReplaceChar(data[i + 1], ',', ':'))]
  }

  /** What `c2lean_key_3` returns: the times of the last complete window, or
      `UnboundLocalError` when there is no complete window. */
  function JourneyTimes(data: seq<string>): (r: Result<Record>)
    ensures r.Failure? <==> |data| < 5
    ensures r.Failure? ==> r.error == UnboundLocalError
  {
    if |data| < 5 then Failure(UnboundLocalError)
    else Success(WindowTimes(data, LastWindowStart(|data|)))
  }

  /** The loop of `c2lean_key_3`: every window overwrites `flight_journey`,
      which stays unbound when the loop does not run. */
  method C2leanKey3(data: seq<string>) returns (r: Result<Record>)
    ensures r == JourneyTimes(data)
  {
    var n := |data| - |data| % 5;
    var flightJourney: Option<Record> := None;
    var i := 0;
    ghost var k: nat := 0;
    while i < n
      invariant i == 5 * k && i <= n
      invariant flightJourney == if i == 0 then None else Some(WindowTimes(data, i - 5))
    {
      var departureTime := ReplaceChar(data[i], ',', ':');
      var arrivalTime := ReplaceChar(data[i + 1], ',', ':');
      flightJourney := Some(map[DepartureTime := Text(departureTime), ArrivalTime := Text(arrivalTime)]);
      i := i + 5;
      k := k + 1;
    }
    if flightJourney.None? {
      return Failure(UnboundLocalError);
    }
    r := Success(flightJourney.value);
  }

  /** Only the last complete window counts: tokens of a trailing partial
      window are ignored, and earlier windows are overwritten. */
  lemma JourneyTimesLastWindow(front: seq<string>, w: seq<string>, tail: seq<string>)
    requires |front| % 5 == 0 && |w| == 5 && |tail| < 5
    ensures JourneyTimes(front + w + tail) == JourneyTimes(w)
  {
    var d := front + w + tail;
    assert LastWindowStart(|d|) == |front|;
    assert d[|front|] == w[0] && d[|front| + 1] == w[1];
  }

  /** The times contain no `,`. */
  lemma JourneyTimesNoComma(data: seq<string>)
    requires |data| >= 5
    ensures forall c :: c in JourneyTimes(data).value ==>
      JourneyTimes(data).value[c].Text? && ',' !in JourneyTimes(data).value[c].s
  {
    var i := LastWindowStart(|data|);
    var a := ReplaceChar(data[i], ',', ':');
    var b := ReplaceChar(data[i + 1], ',', ':');
    assert ',' !in a by { forall j | 0 <= j < |a| ensures a[j] != ',' { } }
    assert ',' !in b by { forall j | 0 <= j < |b| ensures b[j] != ',' { } }
  }

  // ------------------------------------------------------------ clean_key_4

  /** `clean_key_4`: the first two entries with quotes removed and stripped,
      concatenated. Commas are not removed here. */
  function CleanKey4(data: seq<string>): (r: Result<Record>)
    ensures r.Failure? <==> |data| < 2
    ensures r.Failure? ==> r.error == IndexError
    ensures r.Success? ==>
      r.value.Keys == {LastFlightCode} && r.value[LastFlightCode].Text?
      && '"' !in r.value[LastFlightCode].s
      && |r.value[LastFlightCode].s| == |QuoteClean(data[0])| + |QuoteClean(data[1])|
      && r.value[LastFlightCode].s[..|QuoteClean(data[0])|] == QuoteClean(data[0])
    ensures r.Success? ==> r.value[LastFlightCode] == Text(QuoteClean(data[0]) + QuoteClean(data[1]))
  {
    if |data| < 2 then Failure(IndexError)
    else
      var t := QuoteClean(data[0]) + QuoteClean(data[1]);
      assert t[..|QuoteClean(data[0])|] == QuoteClean(data[0]);
      Success(map[LastFlightCode := Text(t)])
  }
}

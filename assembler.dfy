/**
  From one decoded response to flight records.

  The response is split on the three characters `[\"`, the first and the last
  piece are dropped, and each remaining piece (a "journey") is scanned into a
  depth table. Every table is patched with `add_key_four_if_missing`, then
  `process_flight_data` pops depths -1 and -2 from it and merges the
  extractors' outputs into one record. Both steps change the table in place
  (class `Journey`). The converter runs the processing loop twice over the
  same tables, so every record is emitted twice.
*/
module Assembler {
  import opened Outcomes
  import opened Text
  import opened BracketParser
  import opened Extractors
  import opened KeyOne

  /** Which converter file: `src/csv_converter.py` anchors `clean_key_1` on
      year tokens, `csv_converter.py` on four consecutive integers. */
  datatype Variant = YearAnchored | ConsecutiveInts

  /** `column_list`, in its order. */
  const ColumnList: seq<Column> :=
    [AirlineCode, DepartureAirportCode, DestinationAirportCode, DepartureDate, ArrivalDate,
     TicketPrice, FirstFlight, FirstFlightCode, LastFlightCode, SellingAirline,
     DepartureTime, ArrivalTime]

  /** `column_list` names every column exactly once. */
  lemma ColumnListComplete()
    ensures |ColumnList| == 12
    ensures forall c: Column :: c in ColumnList
    ensures forall i, j :: 0 <= i < j < |ColumnList| ==> ColumnList[i] != ColumnList[j]
  {
    forall c: Column ensures c in ColumnList {
      match c
      case AirlineCode => assert ColumnList[0] == c;
      case DepartureAirportCode => assert ColumnList[1] == c;
      case DestinationAirportCode => assert ColumnList[2] == c;
      case DepartureDate => assert ColumnList[3] == c;
      case ArrivalDate => assert ColumnList[4] == c;
      case TicketPrice => assert ColumnList[5] == c;
      case FirstFlight => assert ColumnList[6] == c;
      case FirstFlightCode => assert ColumnList[7] == c;
      case LastFlightCode => assert ColumnList[8] == c;
      case SellingAirline => assert ColumnList[9] == c;
      case DepartureTime => assert ColumnList[10] == c;
      case ArrivalTime => assert ColumnList[11] == c;
    }
  }

  // ------------------------------------------------ add_key_four_if_missing

  /** The table after `add_key_four_if_missing`. */
  function WithKeyFour(t: LevelTable): (r: LevelTable)
    ensures r.Keys == t.Keys + {4}
    ensures forall d :: d in t && d != 4 ==> r[d] == t[d]
    ensures 4 in t ==> r == t
    ensures 4 !in t && 3 in t && |t[3]| >= 5 ==> r[4] == t[3][|t[3]| - 5..]
    ensures 4 !in t && !(3 in t && |t[3]| >= 5) ==> r[4] == []
  {
    if 4 in t then t
    else if 3 in t && |t[3]| >= 5 then t[4 := t[3][|t[3]| - 5..]]
    else t[4 := []]
  }

  /** Patching twice is patching once. */
  lemma WithKeyFourIdempotent(t: LevelTable)
    ensures WithKeyFour(WithKeyFour(t)) == WithKeyFour(t)
  {
  }

  // ---------------------------------------------------- process_flight_data

  /** Depths -1 and -2 removed, as the two `pop(k, None)` calls leave them. */
  function Popped(t: LevelTable): (r: LevelTable)
    ensures r.Keys == t.Keys - {-1, -2}
    ensures forall d :: d in r ==> r[d] == t[d]
  {
    t - {-1, -2}
  }

  /** `clean_key_1` of the chosen converter, as the dict-or-tuple it returns. */
  function KeyOneOf(v: Variant, data: seq<string>): (r: Result<KeyOneOut>)
    ensures v == YearAnchored ==> r == Success(CleanKey1Years(data))
    ensures v == ConsecutiveInts ==> r.Success? == CleanKey1Consecutive(data).Success?
    ensures v == ConsecutiveInts && r.Success? ==> r.value == Dates(CleanKey1Consecutive(data).value)
    ensures v == ConsecutiveInts && r.Failure? ==> r.error == CleanKey1Consecutive(data).error
    ensures r.Success? && r.value.Dates? ==>
      r.value.record.Keys == {SellingAirline, TicketPrice, DepartureDate, ArrivalDate}
    ensures r.Failure? ==> r.error != TypeError
  {
    match v
    case YearAnchored => Success(CleanKey1Years(data))
    case ConsecutiveInts =>
      var m :- CleanKey1Consecutive(data);
      Success(Dates(m))
  }

  /** The table entry at `d`, or `KeyError`. */
  function Get(t: LevelTable, d: int): (r: Result<seq<string>>)
    ensures r.Success? <==> d in t
    ensures r.Success? ==> r.value == t[d]
    ensures r.Failure? ==> r.error == KeyError
  {
    if d in t then Success(t[d]) else Failure(KeyError)
  }

  /** The record `process_flight_data` builds from table `t`, or the first
      exception it raises. */
  function FlightRecord(v: Variant, t: LevelTable): (r: Result<Record>)
    ensures r.Success? ==> forall c :: c in ColumnList ==> c in r.value
    ensures r.Success? ==> 0 in t && 1 in t && 2 in t && 3 in t && 4 in t
  {
    var r := Merged(v, Popped(t));
    if r.Success? then
      var e := Extract(v, Popped(t));
      assert e.Success?;
      AssembleColumns(e.value);
      r
    else r
  }

  /** The extractors' outputs, in the order `process_flight_data` merges them. */
  datatype Parts = Parts(general: Record, selling: KeyOneOut, flights: Record,
                         journey: Record, last: Record, times: Record)

  /** The key set each extractor produces. */
  predicate WellShaped(p: Parts)
  {
    && p.general.Keys == {AirlineCode, DepartureAirportCode, DestinationAirportCode}
    && (p.selling.Dates? ==> p.selling.record.Keys == {SellingAirline, TicketPrice, DepartureDate, ArrivalDate})
    && p.flights.Keys == {FirstFlight}
    && p.journey.Keys == {FirstFlightCode}
    && p.last.Keys == {LastFlightCode}
    && p.times.Keys == {DepartureTime, ArrivalTime}
  }

  predicate RaisesTypeError<T>(r: Result<T>)
  {
    r.Failure? && r.error == TypeError
  }

  /** The extractor calls on depths 0 to 3, each entry unwrapped just before
      its extractor runs, so the first exception in source order wins. The
      depth-4 slot is filled in by `Extract`. */
  function Front(v: Variant, g0: Result<seq<string>>, g1: Result<seq<string>>,
                 g2: Result<seq<string>>, g3: Result<seq<string>>): (r: Result<Parts>)
    ensures r.Success? ==> g0.Success? && g1.Success? && g2.Success? && g3.Success?
    ensures r.Success? ==> |g3.value| >= 5
    ensures r.Success? ==> WellShaped(r.value.(last := map[LastFlightCode := Text("")]))
    ensures RaisesTypeError(r) ==>
      RaisesTypeError(g0) || RaisesTypeError(g1) || RaisesTypeError(g2) || RaisesTypeError(g3)
    ensures r.Success? ==> KeyOneOf(v, g1.value) == Success(r.value.selling)
  {
    var d0 :- g0;
    var generalInfo :- CleanKey0(d0);
    var d1 :- g1;
    var sellingAirlineInfo :- KeyOneOf(v, d1);
    var d2 :- g2;
    var flightsInfo :- CleanKey2(d2);
    var d3 :- g3;
    var journeyInfo := map[FirstFlightCode := Text(FlightCode(Preprocessed(d3)))];
    var journeyInfo2 :- JourneyTimes(d3);
    assert WindowTimes(d3, LastWindowStart(|d3|)).Keys == {DepartureTime, ArrivalTime};
    Success(Parts(generalInfo, sellingAirlineInfo, flightsInfo, journeyInfo, map[], journeyInfo2))
  }

  /** All extractor calls of `process_flight_data` on the popped table:
      `raw_data[k]` raises `KeyError` for a missing depth, and the first
      exception wins. */
  function Extract(v: Variant, raw: LevelTable): (r: Result<Parts>)
    ensures r.Success? ==> WellShaped(r.value)
    ensures r.Success? ==> 0 in raw && 1 in raw && 2 in raw && 3 in raw && 4 in raw
    ensures r.Failure? ==> r.error != TypeError
  {
    var front :- Front(v, Get(raw, 0), Get(raw, 1), Get(raw, 2), Get(raw, 3));
    var d4 :- Get(raw, 4);
    var lastFlight :- CleanKey4(d4);
    Success(front.(last := lastFlight))
  }

  /** `{**general_info, **selling_airline_info, **flights_info,
      **journey_info, **last_flight, **journey_info2}`: the tuple `([], [])`
      from `clean_key_1` raises `TypeError`, otherwise the dicts are merged,
      a later one winning on a shared key. */
  function Assemble(p: Parts): (r: Result<Record>)
    ensures r.Failure? <==> p.selling.EmptyPair?
    ensures r.Failure? ==> r.error == TypeError
    ensures r.Success? ==> r.value.Keys == p.general.Keys + p.selling.record.Keys + p.flights.Keys
                                          + p.journey.Keys + p.last.Keys + p.times.Keys
  {
    if p.selling.EmptyPair? then Failure(TypeError)
    else Success(p.general + p.selling.record + p.flights + p.journey + p.last + p.times)
  }

  /** Every column of `column_list`. */
  const AllColumns: set<Column> := {AirlineCode, DepartureAirportCode, DestinationAirportCode,
    SellingAirline, TicketPrice, DepartureDate, ArrivalDate, FirstFlight, FirstFlightCode,
    LastFlightCode, DepartureTime, ArrivalTime}

  /** The merged record has exactly the twelve columns. */
  lemma AssembleKeys(p: Parts)
    requires WellShaped(p) && p.selling.Dates?
    ensures Assemble(p).Success? && Assemble(p).value.Keys == AllColumns
  {
  }

  /** Each column holds the value of the extractor that owns it. */
  lemma AssembleValues(p: Parts)
    requires WellShaped(p) && p.selling.Dates?
    ensures Assemble(p).Success?
    ensures var m := Assemble(p).value;
      && m[AirlineCode] == p.general[AirlineCode]
      && m[DepartureAirportCode] == p.general[DepartureAirportCode]
      && m[DestinationAirportCode] == p.general[DestinationAirportCode]
      && m[SellingAirline] == p.selling.record[SellingAirline]
      && m[TicketPrice] == p.selling.record[TicketPrice]
      && m[DepartureDate] == p.selling.record[DepartureDate]
      && m[ArrivalDate] == p.selling.record[ArrivalDate]
      && m[FirstFlight] == p.flights[FirstFlight]
      && m[FirstFlightCode] == p.journey[FirstFlightCode]
      && m[LastFlightCode] == p.last[LastFlightCode]
      && m[DepartureTime] == p.times[DepartureTime]
      && m[ArrivalTime] == p.times[ArrivalTime]
  {
  }

  /** The extractors' key sets are pairwise disjoint, so the merge loses
      nothing: every column of `column_list` is present and holds the value
      of the extractor that produced it. */
  lemma AssembleColumns(p: Parts)
    requires WellShaped(p) && p.selling.Dates?
    ensures Assemble(p).Success?
    ensures forall c: Column :: c in Assemble(p).value
    ensures var m := Assemble(p).value;
      && m[AirlineCode] == p.general[AirlineCode]
      && m[DepartureAirportCode] == p.general[DepartureAirportCode]
      && m[DestinationAirportCode] == p.general[DestinationAirportCode]
      && m[SellingAirline] == p.selling.record[SellingAirline]
      && m[TicketPrice] == p.selling.record[TicketPrice]
      && m[DepartureDate] == p.selling.record[DepartureDate]
      && m[ArrivalDate] == p.selling.record[ArrivalDate]
      && m[FirstFlight] == p.flights[FirstFlight]
      && m[FirstFlightCode] == p.journey[FirstFlightCode]
      && m[LastFlightCode] == p.last[LastFlightCode]
      && m[DepartureTime] == p.times[DepartureTime]
      && m[ArrivalTime] == p.times[ArrivalTime]
  {
    AssembleKeys(p);
    AssembleValues(p);
    forall c: Column ensures c in AllColumns {
      match c
      case AirlineCode =>
      case DepartureAirportCode =>
      case DestinationAirportCode =>
      case DepartureDate =>
      case ArrivalDate =>
      case TicketPrice =>
      case FirstFlight =>
      case FirstFlightCode =>
      case LastFlightCode =>
      case SellingAirline =>
      case DepartureTime =>
      case ArrivalTime =>
    }
  }

  /** `process_flight_data` after the pops. */
  function Merged(v: Variant, raw: LevelTable): Result<Record>
  {
    var p :- Extract(v, raw);
    Assemble(p)
  }

  /** The consecutive-integer `clean_key_1` always hands a dict to the merge. */
  lemma ConsecutiveGivesDates(raw: LevelTable)
    ensures Extract(ConsecutiveInts, raw).Success? ==> Extract(ConsecutiveInts, raw).value.selling.Dates?
  {
    var f := Front(ConsecutiveInts, Get(raw, 0), Get(raw, 1), Get(raw, 2), Get(raw, 3));
    assert f.Success? ==> f.value.selling.Dates?;
  }

  /** Only the year-anchored `clean_key_1` hands the tuple to the merge. */
  lemma EmptyPairOnlyYearAnchored(v: Variant, raw: LevelTable)
    requires Extract(v, raw).Success? && Extract(v, raw).value.selling.EmptyPair?
    ensures v == YearAnchored
  {
    ConsecutiveGivesDates(raw);
  }

  /** `TypeError` comes only from the merge, when every extractor ran and the
      year-anchored `clean_key_1` found fewer than two year tokens. */
  lemma {:induction false} TypeErrorFromKeyOne(v: Variant, t: LevelTable)
    ensures FlightRecord(v, t) == Failure(TypeError) <==>
      Extract(v, Popped(t)).Success? && Extract(v, Popped(t)).value.selling.EmptyPair?
    ensures FlightRecord(v, t) == Failure(TypeError) ==> v == YearAnchored
  {
    var e := Extract(v, Popped(t));
    if e.Success? {
      assert FlightRecord(v, t) == Assemble(e.value);
      if e.value.selling.EmptyPair? {
        EmptyPairOnlyYearAnchored(v, Popped(t));
      }
    } else {
      assert FlightRecord(v, t) == Failure(e.error);
    }
  }

  /** Popping absent keys does nothing, so processing an already processed
      table gives the same record. */
  lemma FlightRecordAfterPop(v: Variant, t: LevelTable)
    ensures FlightRecord(v, Popped(t)) == FlightRecord(v, t)
  {
    assert Popped(Popped(t)) == Popped(t);
  }

  /** A missing depth 4 patched with `[]` never reaches `clean_key_4`: that
      default is chosen only when depth 3 is missing or has fewer than five
      tokens, and then `raw_data[3]` or `c2lean_key_3` fails first, so the
      outcome is a failure and the same whatever depth 4 holds. */
  lemma {:induction false} DefaultKeyFourUnreachable(v: Variant, t: LevelTable, x: seq<string>)
    requires 4 !in t && !(3 in t && |t[3]| >= 5)
    ensures FlightRecord(v, WithKeyFour(t)).Failure?
    ensures FlightRecord(v, WithKeyFour(t)) == FlightRecord(v, t[4 := x])
  {
    var a := Popped(WithKeyFour(t));
    var b := Popped(t[4 := x]);
    assert forall d :: 0 <= d < 4 ==> Get(a, d) == Get(b, d);
    var f := Front(v, Get(a, 0), Get(a, 1), Get(a, 2), Get(a, 3));
    assert f == Front(v, Get(b, 0), Get(b, 1), Get(b, 2), Get(b, 3));
    assert f.Failure?;
    assert Extract(v, a) == Failure(f.error) == Extract(v, b);
  }

  /** A table owned by one journey; the converter's functions change it in place. */
  class Journey {
    var table: LevelTable

    constructor (t: LevelTable)
      ensures table == t
    {
      table := t;
    }

    /** `add_key_four_if_missing`. */
    method AddKeyFourIfMissing()
      modifies this
      ensures table == WithKeyFour(old(table))
    {
      if 4 !in table {
        if 3 in table && |table[3]| >= 5 {
          var lastFiveElements := table[3][|table[3]| - 5..];
          table := table[4 := lastFiveElements];
        } else {
          table := table[4 := []];
        }
      }
    }

    /** `process_flight_data`: pops depths -1 and -2 from the table, then
        builds the record from what is left. */
    method ProcessFlightData(v: Variant) returns (r: Result<Record>)
      modifies this
      ensures table == Popped(old(table))
      ensures r == FlightRecord(v, old(table))
    {
      table := table - {-1};
      table := table - {-2};
      assert table == Popped(old(table));
      FlightRecordAfterPop(v, old(table));
      r := FlightRecord(v, table);
    }
  }

  // ---------------------------------------------------------- the response

  /** The separator the converter splits a response on: `[`, `\`, `"`. */
  const JourneySeparator: string := ['[', '\\', '"']

  /** `split("[\\\"")[1:-1]`: the pieces between the first and the last separator. */
  function JourneyPieces(text: string): (r: seq<string>)
  {
    var parts := Split(text, JourneySeparator);
    if |parts| < 2 then [] else parts[1..|parts| - 1]
  }

  /** No journey contains the separator, and there are two pieces fewer than
      the split has, or none. */
  lemma JourneyPiecesFacts(text: string)
    ensures forall k :: 0 <= k < |JourneyPieces(text)| ==>
      !Contains(JourneyPieces(text)[k], JourneySeparator)
    ensures |JourneyPieces(text)| == if |Split(text, JourneySeparator)| < 2 then 0
                                      else |Split(text, JourneySeparator)| - 2
  {
    var parts := Split(text, JourneySeparator);
    SplitPiecesFree(text, JourneySeparator);
    if |parts| >= 2 {
      forall k | 0 <= k < |JourneyPieces(text)|
        ensures !Contains(JourneyPieces(text)[k], JourneySeparator)
      {
        assert JourneyPieces(text)[k] == parts[k + 1];
      }
    }
  }

  /** The tables after scanning and patching, one per journey. */
  function Prepared(text: string): (r: seq<LevelTable>)
    ensures |r| == |JourneyPieces(text)|
    ensures forall k :: 0 <= k < |r| ==> r[k] == WithKeyFour(Levels(JourneyPieces(text)[k]))
  {
    var pieces := JourneyPieces(text);
    seq(|pieces|, k requires 0 <= k < |pieces| => WithKeyFour(Levels(pieces[k])))
  }

  /** What each table gives on its own. */
  function RunOutcomes(v: Variant, ts: seq<LevelTable>): (r: seq<Result<Record>>)
    ensures |r| == |ts| && forall k :: 0 <= k < |ts| ==> r[k] == FlightRecord(v, ts[k])
  {
    seq(|ts|, k requires 0 <= k < |ts| => FlightRecord(v, ts[k]))
  }

  /** `process_flight_data` on every table in order; the first exception ends the run. */
  function ProcessAll(v: Variant, ts: seq<LevelTable>): Result<seq<Record>>
  {
    Collect(RunOutcomes(v, ts))
  }

  /** A second run over the tables the first run popped gives the same result. */
  lemma ProcessAllPopped(v: Variant, ts: seq<LevelTable>, ps: seq<LevelTable>)
    requires |ps| == |ts| && forall k :: 0 <= k < |ts| ==> ps[k] == Popped(ts[k])
    ensures ProcessAll(v, ps) == ProcessAll(v, ts)
  {
    forall k | 0 <= k < |ts| ensures FlightRecord(v, ps[k]) == FlightRecord(v, ts[k]) {
      FlightRecordAfterPop(v, ts[k]);
    }
    assert RunOutcomes(v, ps) == RunOutcomes(v, ts);
  }

  /** The records of a run emitted twice, as the converter's two loops do. */
  function Twice(r: Result<seq<Record>>): (t: Result<seq<Record>>)
    ensures t.Failure? <==> r.Failure?
    ensures t.Success? ==> |t.value| == 2 * |r.value|
    ensures t.Success? ==> forall k :: 0 <= k < |r.value| ==> t.value[k] == t.value[k + |r.value|] == r.value[k]
  {
    match r
    case Failure(e) => Failure(e)
    case Success(rs) => Success(rs + rs)
  }

  /** The tables currently held by `js`. */
  function Tables(js: seq<Journey>): (ts: seq<LevelTable>)
    reads js
    ensures |ts| == |js| && forall k :: 0 <= k < |js| ==> ts[k] == js[k].table
  {
    seq(|js|, k reads js requires 0 <= k < |js| => js[k].table)
  }

  predicate Distinct(js: seq<Journey>)
  {
    forall i, j :: 0 <= i < j < |js| ==> js[i] != js[j]
  }

  /** `Journeys.append(parse_nested_string_v2(journey))` for every piece. */
  method ParseJourneys(pieces: seq<string>) returns (journeys: seq<Journey>)
    ensures Distinct(journeys) && |journeys| == |pieces|
    ensures forall k :: 0 <= k < |journeys| ==> fresh(journeys[k])
    ensures forall k :: 0 <= k < |journeys| ==> journeys[k].table == Levels(pieces[k])
  {
    journeys := [];
    for k := 0 to |pieces|
      invariant Distinct(journeys) && |journeys| == k
      invariant forall j :: 0 <= j < k ==> fresh(journeys[j])
      invariant forall j :: 0 <= j < k ==> journeys[j].table == Levels(pieces[j])
    {
      var parsedJourney := ParseNestedString(pieces[k]);
      var journey := new Journey(parsedJourney);
      journeys := journeys + [journey];
    }
  }

  /** `for journey in Journeys: add_key_four_if_missing(journey)`. */
  method AddKeyFourAll(journeys: seq<Journey>)
    requires Distinct(journeys)
    modifies journeys
    ensures forall k :: 0 <= k < |journeys| ==> journeys[k].table == WithKeyFour(old(journeys[k].table))
  {
    for k := 0 to |journeys|
      invariant forall j :: 0 <= j < k ==> journeys[j].table == WithKeyFour(old(journeys[j].table))
      invariant forall j :: k <= j < |journeys| ==> journeys[j].table == old(journeys[j].table)
    {
      journeys[k].AddKeyFourIfMissing();
    }
  }

  /** One pass of the processing loop: `process_flight_data` on the journey
      at position `k`, with what it does to the run collected so far; the
      other journeys are left as they are. */
  method ProcessStep(v: Variant, journeys: seq<Journey>, ghost ts: seq<LevelTable>, k: nat,
                     ghost records: seq<Record>) returns (r: Result<Record>)
    requires Distinct(journeys) && k < |ts| == |journeys| && journeys[k].table == ts[k]
    requires Collect(RunOutcomes(v, ts)[..k]) == Success(records)
    modifies journeys[k]
    ensures journeys[k].table == Popped(old(journeys[k].table))
    ensures forall j :: 0 <= j < |journeys| && j != k ==> journeys[j].table == old(journeys[j].table)
    ensures r.Failure? ==> Collect(RunOutcomes(v, ts)) == Failure(r.error)
    ensures r.Success? ==> Collect(RunOutcomes(v, ts)[..k + 1]) == Success(records + [r.value])
  {
    r := journeys[k].ProcessFlightData(v);
    CollectStep(RunOutcomes(v, ts), k, records);
    forall j | 0 <= j < |journeys| && j != k ensures journeys[j] != journeys[k] {
      if j < k { assert journeys[j] != journeys[k]; } else { assert journeys[k] != journeys[j]; }
    }
  }

  /** `for journey in Journeys: process_flight_data(journey)`, collecting the
      records; an exception ends the run. */
  method ProcessJourneys(v: Variant, journeys: seq<Journey>) returns (rows: Result<seq<Record>>)
    requires Distinct(journeys)
    modifies journeys
    ensures rows == ProcessAll(v, old(Tables(journeys)))
    ensures rows.Success? ==> forall k :: 0 <= k < |journeys| ==>
      journeys[k].table == Popped(old(journeys[k].table))
  {
    ghost var before := Tables(journeys);
    var records: seq<Record> := [];
    for k := 0 to |journeys|
      invariant Collect(RunOutcomes(v, before)[..k]) == Success(records)
      invariant forall j :: 0 <= j < k ==> journeys[j].table == Popped(before[j])
      invariant forall j :: k <= j < |journeys| ==> journeys[j].table == before[j]
    {
      var r := ProcessStep(v, journeys, before, k, records);
      if r.Failure? {
        return Failure(r.error);
      }
      records := records + [r.value];
    }
    assert RunOutcomes(v, before)[..|journeys|] == RunOutcomes(v, before);
    rows := Success(records);
  }

  /** One response file: split, scan, patch, then process every journey twice. */
  method ConvertResponse(v: Variant, text: string) returns (rows: Result<seq<Record>>)
    ensures rows == Twice(ProcessAll(v, Prepared(text)))
  {
    var splittedJsonLong := Split(text, JourneySeparator);
    var splittedJson := if |splittedJsonLong| < 2 then [] else splittedJsonLong[1..|splittedJsonLong| - 1];
    var journeys := ParseJourneys(splittedJson);
    AddKeyFourAll(journeys);
    assert Tables(journeys) == Prepared(text);
    ghost var prepared := Tables(journeys);
    var first := ProcessJourneys(v, journeys);
    if first.Failure? {
      return Failure(first.error);
    }
    ProcessAllPopped(v, prepared, Tables(journeys));
    var second := ProcessJourneys(v, journeys);
    rows := Success(first.value + second.value);
  }
}

/**
  `clean_key_1`, the one extractor in which the two converter files differ.

  - `src/csv_converter.py` anchors the dates on year tokens: the departure
    date runs from the first year token up to the second, and the arrival
    date is a slice of the same length from the second. With fewer than two
    year tokens it returns the tuple `([], [])` instead of a dict.
  - `csv_converter.py` looks for the first four consecutive integers, then
    reads an arrival date of at most five integers after them.
*/
module KeyOne {
  import opened Outcomes
  import opened Text
  import opened Extractors

  function Min(a: int, b: int): int { if a <= b then a else b }

  /** Python's `data[a:b]` for `0 <= a <= b`: bounds past the end are clipped. */
  function PySlice<T>(data: seq<T>, a: nat, b: nat): (r: seq<T>)
    requires a <= b
    ensures |r| <= b - a
    ensures a >= |data| ==> r == []
    ensures a <= |data| ==> |r| == Min(b, |data|) - a && forall k :: 0 <= k < |r| ==> r[k] == data[a + k]
  {
    data[Min(a, |data|)..Min(b, |data|)]
  }

  /** What `clean_key_1` of the year-anchored converter returns: the dict, or
      the tuple `([], [])`. */
  datatype KeyOneOut = Dates(record: Record) | EmptyPair

  // ------------------------------------------------ year-anchored variant

  /** A token `find_year_indices` accepts: four ASCII digits, value 2024 or 2025. */
  predicate IsYearToken(t: string)
  {
    |t| == 4 && IsDigits(t) && 2024 <= DecimalValue(t) <= 2025
  }

  /** Which entries are year tokens. */
  function YearFlags(data: seq<string>): (f: seq<bool>)
    ensures |f| == |data|
    ensures forall k :: 0 <= k < |data| ==> f[k] == IsYearToken(data[k])
  {
    seq(|data|, k requires 0 <= k < |data| => IsYearToken(data[k]))
  }

  /** The positions at which `f` is true, ascending. */
  function Positions(f: seq<bool>): (ys: seq<nat>)
    ensures forall j :: 0 <= j < |ys| ==> ys[j] < |f| && f[ys[j]]
    ensures forall j, k :: 0 <= j < k < |ys| ==> ys[j] < ys[k]
    ensures forall i :: 0 <= i < |f| && f[i] ==> i in ys
  {
    if f == [] then []
    else
      var p := f[..|f| - 1];
      assert forall i :: 0 <= i < |p| ==> p[i] == f[i];
      Positions(p) + (if f[|f| - 1] then [|f| - 1] else [])
  }

  /** The list `find_year_indices` returns. */
  function YearIndices(data: seq<string>): (ys: seq<nat>)
    ensures forall j :: 0 <= j < |ys| ==> ys[j] < |data| && IsYearToken(data[ys[j]])
    ensures forall j, k :: 0 <= j < k < |ys| ==> ys[j] < ys[k]
    ensures forall i :: 0 <= i < |data| && IsYearToken(data[i]) ==> i in ys
  {
    Positions(YearFlags(data))
  }

  /** The loop of `find_year_indices`. */
  method FindYearIndices(data: seq<string>) returns (yearIndices: seq<nat>)
    ensures yearIndices == YearIndices(data)
  {
    ghost var f := YearFlags(data);
    yearIndices := [];
    for i := 0 to |data|
      invariant yearIndices == Positions(f[..i])
    {
      assert f[..i + 1][..i] == f[..i];
      var item := data[i];
      if |item| == 4 && IsDigits(item) {
        var year := DecimalValue(item);   // `int(item)` on four ASCII digits
        if 2024 <= year <= 2025 {
          yearIndices := yearIndices + [i];
        }
      }
    }
    assert f[..|data|] == f;
  }

  /** `clean_key_1` of `src/csv_converter.py`. */
  function CleanKey1Years(data: seq<string>): (r: KeyOneOut)
    ensures r.Dates? ==> r.record.Keys == {SellingAirline, TicketPrice, DepartureDate, ArrivalDate}
  {
    var ys := YearIndices(data);
    if |ys| < 2 then EmptyPair
    else
      var length := ys[1] - ys[0];
      Dates(map[SellingAirline := Text(QuoteClean(data[1])),
                TicketPrice := Text(data[|data| - 1]),
                DepartureDate := Texts(PySlice(data, ys[0], ys[0] + length)),
                ArrivalDate := Texts(PySlice(data, ys[1], ys[1] + length))])
  }

  /** The tuple comes back exactly when `data` holds fewer than two year tokens. */
  lemma CleanKey1YearsEmpty(data: seq<string>)
    ensures CleanKey1Years(data).EmptyPair? <==>
      forall i, j :: 0 <= i < j < |data| && YearFlags(data)[i] ==> !YearFlags(data)[j]
  {
    var f := YearFlags(data);
    var ys := Positions(f);
    if |ys| >= 2 {
      assert ys[0] < ys[1] && f[ys[0]] && f[ys[1]];
    } else {
      forall i, j | 0 <= i < j < |data| && f[i]
        ensures !f[j]
      {
        assert i in ys;
      }
    }
  }

  /** With two or more year tokens at first positions `y0 < y1`: the
      departure date is `data[y0:y1]`, the arrival date starts at `y1` with
      the same length unless the list ends first, the airline is the cleaned
      index 1 and the price the last token, verbatim. */
  lemma {:induction false} CleanKey1YearsSpans(data: seq<string>, y0: nat, y1: nat)
    requires y0 < y1 < |data|
    requires var f := YearFlags(data);
      f[y0] && f[y1] && forall k :: 0 <= k < y1 && k != y0 ==> !f[k]
    ensures CleanKey1Years(data).Dates?
    ensures var r := CleanKey1Years(data).record;
      && r[DepartureDate] == Texts(data[y0..y1])
      && r[ArrivalDate] == Texts(data[y1..Min(|data|, y1 + (y1 - y0))])
      && r[SellingAirline] == Text(QuoteClean(data[1]))
      && r[TicketPrice] == Text(data[|data| - 1])
  {
    FirstTwoPositions(YearFlags(data), y0, y1);
  }

  lemma FirstTwoPositions(f: seq<bool>, y0: nat, y1: nat)
    requires y0 < y1 < |f| && f[y0] && f[y1]
    requires forall k :: 0 <= k < y1 && k != y0 ==> !f[k]
    ensures |Positions(f)| >= 2 && Positions(f)[0] == y0 && Positions(f)[1] == y1
  {
    var ys := Positions(f);
    assert y0 in ys && y1 in ys;
    var a :| 0 <= a < |ys| && ys[a] == y0;
    var b :| 0 <= b < |ys| && ys[b] == y1;
    assert ys[0] <= ys[a];
    assert ys[0] == y0;
    assert b >= 1;
    assert ys[1] <= ys[b];
  }

  /** The departure date of a year-anchored record holds exactly one year
      token, its first element. */
  lemma DepartureHasOneYear(data: seq<string>, y0: nat, y1: nat)
    requires y0 < y1 < |data|
    requires var f := YearFlags(data);
      f[y0] && f[y1] && forall k :: 0 <= k < y1 && k != y0 ==> !f[k]
    ensures var d := data[y0..y1];
      IsYearToken(d[0]) && forall k :: 1 <= k < |d| ==> !IsYearToken(d[k])
  {
    var d := data[y0..y1];
    assert forall k :: 0 <= k < |d| ==> d[k] == data[y0 + k];
  }

  // ------------------------------------------- consecutive-integer variant

  /** `int(x)` of each entry, `None` where it raises `ValueError`. */
  function IntsOf(data: seq<string>): (v: seq<Option<int>>)
    ensures |v| == |data|
    ensures forall k :: 0 <= k < |data| ==> v[k] == ParseInt(data[k])
  {
    seq(|data|, k requires 0 <= k < |data| => ParseInt(data[k]))
  }

  /** Entries `i` .. `i+3` all parse as integers. */
  predicate IsQuad(v: seq<Option<int>>, i: nat)
  {
    i + 3 < |v| && v[i].Some? && v[i + 1].Some? && v[i + 2].Some? && v[i + 3].Some?
  }

  /** The first index at or after `i` that starts four integers. */
  function FirstQuadFrom(v: seq<Option<int>>, i: nat): (r: Option<nat>)
    ensures r.Some? ==> i <= r.value && IsQuad(v, r.value)
    ensures r.Some? ==> forall k :: i <= k < r.value ==> !IsQuad(v, k)
    ensures r.None? ==> forall k :: i <= k ==> !IsQuad(v, k)
    decreases |v| - i
  {
    if i >= |v| then None
    else if IsQuad(v, i) then Some(i)
    else FirstQuadFrom(v, i + 1)
  }

  /** The integers of `v[lo:hi]` up to the first entry that is not one. */
  function IntsUntil(v: seq<Option<int>>, lo: nat, hi: nat): (r: seq<int>)
    requires lo <= hi <= |v|
    ensures |r| <= hi - lo
    ensures forall k :: 0 <= k < |r| ==> v[lo + k] == Some(r[k])
    ensures lo + |r| < hi ==> v[lo + |r|].None?
    decreases hi - lo
  {
    if lo == hi || v[lo].None? then []
    else
      [v[lo].value] + IntsUntil(v, lo + 1, hi)
  }

  /** `departure_date` and `arrival_date` of `csv_converter.py`'s `clean_key_1`,
      from the parsed entries. */
  function ConsecutiveDates(v: seq<Option<int>>): (r: (seq<int>, seq<int>))
    ensures |r.0| == 0 || |r.0| == 4 || |r.0| == 5
    ensures |r.1| <= 5
    ensures r.0 == [] <==> forall k :: 0 <= k < |v| ==> !IsQuad(v, k)
    ensures r.0 == [] ==> r.1 == []
    // the departure starts with the four integers at the first quad
    ensures FirstQuadFrom(v, 0).Some? ==>
      var i := FirstQuadFrom(v, 0).value;
      |r.0| >= 4 && forall k :: 0 <= k < 4 ==> v[i + k] == Some(r.0[k])
    // the entry after them decides the arrival
    ensures FirstQuadFrom(v, 0).Some? ==>
      var next := FirstQuadFrom(v, 0).value + 4;
      if next < |v| && v[next].Some? && v[next].value != r.0[0] then
        r.0 == r.0[..4] + [v[next].value] && r.1 == IntsUntil(v, next + 1, Min(next + 6, |v|))
      else if next < |v| && v[next].Some? then
        |r.0| == 4 && r.1 == IntsUntil(v, next, Min(next + 4, |v|))
      else
        |r.0| == 4 && r.1 == []
  {
    match FirstQuadFrom(v, 0)
    case None => ([], [])
    case Some(i) =>
      var dep := [v[i].value, v[i + 1].value, v[i + 2].value, v[i + 3].value];
      var next := i + 4;
      if next < |v| && v[next].Some? then
        var n := v[next].value;
        if n != dep[0] then (dep + [n], IntsUntil(v, next + 1, Min(next + 6, |v|)))
        else (dep, IntsUntil(v, next, Min(next + 4, |v|)))
      else (dep, [])
  }

  /** What `csv_converter.py`'s `clean_key_1` returns. An empty list leaves
      the loop variable `i` unbound; a one-element list fails at `data[1]`. */
  function CleanKey1Consecutive(data: seq<string>): (r: Result<Record>)
    ensures r.Failure? <==> |data| < 2
    ensures |data| == 0 ==> r == Failure(UnboundLocalError)
    ensures |data| == 1 ==> r == Failure(IndexError)
    ensures r.Success? ==> r.value.Keys == {SellingAirline, TicketPrice, DepartureDate, ArrivalDate}
    ensures r.Success? ==>
      && r.value[SellingAirline] == Text(QuoteClean(data[1]))
      && r.value[TicketPrice] == Text(data[|data| - 1])
      && r.value[DepartureDate] == Ints(ConsecutiveDates(IntsOf(data)).0)
      && r.value[ArrivalDate] == Ints(ConsecutiveDates(IntsOf(data)).1)
  {
    if |data| == 0 then Failure(UnboundLocalError)
    else if |data| < 2 then Failure(IndexError)
    else
      var dates := ConsecutiveDates(IntsOf(data));
      Success(map[SellingAirline := Text(QuoteClean(data[1])),
                  TicketPrice := Text(data[|data| - 1]),
                  DepartureDate := Ints(dates.0),
                  ArrivalDate := Ints(dates.1)])
  }

  /** A return trip queried as `airline, date, date, price`: when the entry
      after the four departure integers repeats the departure year, the
      arrival is that entry and the next three. */
  lemma ConsecutiveDatesSameYear()
    ensures ConsecutiveDates([None, Some(2024), Some(3), Some(15), Some(10), Some(2024), Some(3), Some(16), Some(12), None])
            == ([2024, 3, 15, 10], [2024, 3, 16, 12])
  {
    var v := [None, Some(2024), Some(3), Some(15), Some(10), Some(2024), Some(3), Some(16), Some(12), None];
    assert !IsQuad(v, 0) && IsQuad(v, 1);
    assert FirstQuadFrom(v, 0) == Some(1);
    assert IntsUntil(v, 9, 9) == [];
    assert IntsUntil(v, 8, 9) == [12];
    assert IntsUntil(v, 7, 9) == [16, 12];
    assert IntsUntil(v, 6, 9) == [3, 16, 12];
    assert IntsUntil(v, 5, 9) == [2024, 3, 16, 12];
  }

  /** When the entry after the four departure integers is another integer,
      it is the departure's fifth component and the arrival is read from the
      entry after it, at most five integers. */
  lemma ConsecutiveDatesFifthComponent()
    ensures ConsecutiveDates([None, Some(2024), Some(3), Some(15), Some(10), Some(30),
                              Some(2024), Some(3), Some(16), Some(12), Some(45), None])
            == ([2024, 3, 15, 10, 30], [2024, 3, 16, 12, 45])
  {
    var v := [None, Some(2024), Some(3), Some(15), Some(10), Some(30),
              Some(2024), Some(3), Some(16), Some(12), Some(45), None];
    assert !IsQuad(v, 0) && IsQuad(v, 1);
    assert FirstQuadFrom(v, 0) == Some(1);
    assert IntsUntil(v, 11, 11) == [];
    assert IntsUntil(v, 10, 11) == [45];
    assert IntsUntil(v, 9, 11) == [12, 45];
    assert IntsUntil(v, 8, 11) == [16, 12, 45];
    assert IntsUntil(v, 7, 11) == [3, 16, 12, 45];
    assert IntsUntil(v, 6, 11) == [2024, 3, 16, 12, 45];
    assert [2024, 3, 15, 10] + [30] == [2024, 3, 15, 10, 30];
  }

  /** One of the two arrival loops: append `int(data[j])` for `j` in
      `lo..hi-1`, stopping at the first entry that is not an integer.
      `ints[j]` is `int(data[j])`, `None` where it raises `ValueError`. */
  method ReadIntRun(ints: seq<Option<int>>, lo: nat, hi: nat) returns (run: seq<int>)
    requires lo <= hi <= |ints|
    ensures run == IntsUntil(ints, lo, hi)
  {
    run := [];
    var j := lo;
    while j < hi
      invariant lo <= j <= hi
      invariant run + IntsUntil(ints, j, hi) == IntsUntil(ints, lo, hi)
    {
      if ints[j].None? {
        assert run + [] == run;
        break;
      }
      run := run + [ints[j].value];
      j := j + 1;
    }
    if j == hi {
      assert run + [] == run;
    }
  }

  /** The two loops of `csv_converter.py`'s `clean_key_1`, over
      `ints[k] = int(data[k])` (`None` where `int()` raises `ValueError`).
      `None` when the list is empty: the search loop then never binds `i`,
      and reading `i + 4` raises `UnboundLocalError`. */
  method ScanDates(ints: seq<Option<int>>) returns (dates: Option<(seq<int>, seq<int>)>)
    ensures dates == if |ints| == 0 then None else Some(ConsecutiveDates(ints))
  {
    var departureDate: seq<int> := [];
    var arrivalDate: seq<int> := [];
    var found := false;
    var i := 0;
    while i < |ints|
      invariant 0 <= i <= |ints|
      invariant FirstQuadFrom(ints, i) == FirstQuadFrom(ints, 0)
      invariant departureDate == []
    {
      if i + 3 < |ints| && ints[i].Some? && ints[i + 1].Some? && ints[i + 2].Some? && ints[i + 3].Some? {
        departureDate := [ints[i].value, ints[i + 1].value, ints[i + 2].value, ints[i + 3].value];
        found := true;
        break;
      }
      i := i + 1;
    }
    if |ints| == 0 {
      return None;
    }
    if !found {
      i := |ints| - 1;   // where the `for` loop leaves its variable
    }
    var nextIndex := i + 4;
    if nextIndex < |ints| && ints[nextIndex].Some? {
      var nextEntry := ints[nextIndex].value;
      if nextEntry != departureDate[0] {
        departureDate := departureDate + [nextEntry];
        arrivalDate := ReadIntRun(ints, nextIndex + 1, Min(nextIndex + 6, |ints|));
      } else {
        arrivalDate := ReadIntRun(ints, nextIndex, Min(nextIndex + 4, |ints|));
      }
    }
    dates := Some((departureDate, arrivalDate));
  }

  /** `csv_converter.py`'s `clean_key_1`: the dates, then the airline at
      index 1 and the price at the last index. `int()` has no side effect,
      so each entry's `int()` is taken once, up front. */
  method CleanKey1Scan(data: seq<string>) returns (r: Result<Record>)
    ensures r == CleanKey1Consecutive(data)
  {
    var ints := IntsOf(data);
    var dates := ScanDates(ints);
    if dates.None? {
      return Failure(UnboundLocalError);
    }
    if |data| < 2 {
      return Failure(IndexError);
    }
    r := Success(map[SellingAirline := Text(QuoteClean(data[1])),
                     TicketPrice := Text(data[|data| - 1]),
                     DepartureDate := Ints(dates.value.0),
                     ArrivalDate := Ints(dates.value.1)]);
  }
}

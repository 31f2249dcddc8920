/**
  The date columns of the query-results table: `clean_fifth_element` pads or
  repairs the minute slot of every date list, and `convert_list_to_datetime`
  turns one list into `datetime(year, month, day, hour, minute)`.

  A list element is what `ast.literal_eval` gives for the stored text: an `int`
  or a `str` (`Item`). Both preprocessors (`src/2_data_preprocessor.py` and
  `src/data_preprocessor.py`) hold the same two functions; one model serves both.
*/
module Dates {
  import opened Outcomes
  import opened Text

  /** A `datetime` with the five components the converter passes. */
  datatype DateTime = DateTime(year: int, month: int, day: int, hour: int, minute: int)

  /** Gregorian leap years. */
  predicate IsLeapYear(y: int)
  {
    y % 4 == 0 && (y % 100 != 0 || y % 400 == 0)
  }

  function DaysInMonth(y: int, m: int): (n: int)
    requires 1 <= m <= 12
    ensures 28 <= n <= 31
    ensures m == 2 ==> (n == 29 <==> IsLeapYear(y))
  {
    if m == 2 then (if IsLeapYear(y) then 29 else 28)
    else if m == 4 || m == 6 || m == 9 || m == 11 then 30
    else 31
  }

  /** What `datetime(...)` accepts: years `MINYEAR` = 1 to `MAXYEAR` = 9999,
      months 1-12, days within the month, hours 0-23, minutes 0-59. */
  predicate ValidDateTime(d: DateTime)
  {
    && 1 <= d.year <= 9999
    && 1 <= d.month <= 12
    && 1 <= d.day <= DaysInMonth(d.year, d.month)
    && 0 <= d.hour <= 23
    && 0 <= d.minute <= 59
  }

  /** Whether `n` fits a C `int`, as CPython's `datetime` constructor
      demands of each argument before it checks any range. */
  predicate FitsCInt(n: int)
  {
    -0x8000_0000 <= n <= 0x7fff_ffff
  }

  /** `datetime(*c)` for five integers: an argument beyond a C `int` raises
      `OverflowError` while the arguments are converted; otherwise an
      out-of-range value raises `ValueError`. */
  function NewDateTime(c: seq<int>): (r: Result<DateTime>)
    requires |c| == 5
    ensures r.Success? <==> ValidDateTime(DateTime(c[0], c[1], c[2], c[3], c[4]))
    ensures r.Success? ==> r.value == DateTime(c[0], c[1], c[2], c[3], c[4])
    ensures r == Failure(OverflowError) <==> exists k :: 0 <= k < 5 && !FitsCInt(c[k])
    ensures r.Failure? ==> r.error == ValueError || r.error == OverflowError
  {
    var d := DateTime(c[0], c[1], c[2], c[3], c[4]);
    if !(FitsCInt(c[0]) && FitsCInt(c[1]) && FitsCInt(c[2]) && FitsCInt(c[3]) && FitsCInt(c[4])) then
      Failure(OverflowError)
    else if ValidDateTime(d) then Success(d)
    else Failure(ValueError)
  }

  // ------------------------------------------------------ clean_fifth_element

  /** The minute slot after cleaning: an `int` stays, a `str` becomes
      `int(x)`, or 0 where that raises `ValueError`. */
  function FifthValue(x: Item): int
  {
    match x
    case Int(n) => n
    case Str(s) => match ParseInt(s) case Some(n) => n case None => 0
  }

  /** One list after `clean_fifth_element`. A list shorter than five comes
      back with 0 appended (`item[:4]` is the whole list then). */
  function CleanItem(item: seq<Item>): (r: seq<Item>)
    ensures |item| < 5 ==> r == item + [Int(0)]
    ensures |item| >= 5 ==> |r| == |item| && r[4] == Int(FifthValue(item[4]))
    ensures |item| >= 5 ==> forall k :: 0 <= k < |item| && k != 4 ==> r[k] == item[k]
  {
    if |item| >= 5 then item[..4] + [Int(FifthValue(item[4]))] + item[5..]
    else item + [Int(0)]
  }

  /** The loop of `clean_fifth_element`. */
  method CleanFifthElement(lst: seq<seq<Item>>) returns (cleanedLst: seq<seq<Item>>)
    ensures |cleanedLst| == |lst|
    ensures forall k :: 0 <= k < |lst| ==> cleanedLst[k] == CleanItem(lst[k])
  {
    cleanedLst := [];
    for i := 0 to |lst|
      invariant |cleanedLst| == i
      invariant forall k :: 0 <= k < i ==> cleanedLst[k] == CleanItem(lst[k])
    {
      var item := lst[i];
      var cleaned: seq<Item>;
      if |item| >= 5 {
        var fifthElement := item[4];
        if fifthElement.Int? {
          cleaned := item[..4] + [fifthElement] + item[5..];
        } else {
          match ParseInt(fifthElement.s)
          case Some(n) =>
            cleaned := item[..4] + [Int(n)] + item[5..];
          case None =>
            cleaned := item[..4] + [Int(0)] + item[5..];
        }
      } else {
        cleaned := item + [Int(0)];
      }
      cleanedLst := cleanedLst + [cleaned];
    }
  }

  /** Cleaning a list of at least four elements a second time changes nothing. */
  lemma CleanItemIdempotent(item: seq<Item>)
    requires |item| >= 4
    ensures CleanItem(CleanItem(item)) == CleanItem(item)
  {
    var r := CleanItem(item);
    assert |r| >= 5 && r[4].Int?;
    assert CleanItem(r) == r;
  }

  // -------------------------------------------------- convert_list_to_datetime

  /** `0 if element == 'null' else int(element)`; `int` of a `str` that is not
      an integer raises `ValueError`. */
  function ElementValue(e: Item): (r: Result<int>)
    ensures e.Int? ==> r == Success(e.n)
    ensures e == Str("null") ==> r == Success(0)
    ensures e.Str? && e.s != "null" ==> (r.Success? <==> ParseInt(e.s).Some?)
    ensures e.Str? && e.s != "null" && r.Success? ==> r.value == ParseInt(e.s).value
    ensures r.Failure? ==> r.error == ValueError
  {
    match e
    case Int(n) => Success(n)
    case Str(s) =>
      if s == "null" then Success(0)
      else match ParseInt(s)
        case Some(n) => Success(n)
        case None => Failure(ValueError)
  }

  /** The list comprehension at the top of `convert_list_to_datetime`; it runs
      before the `try`, so its `ValueError` is not caught. */
  function ElementValues(items: seq<Item>): (r: Result<seq<int>>)
    ensures r.Success? <==> forall k :: 0 <= k < |items| ==> ElementValue(items[k]).Success?
    ensures r.Success? ==> |r.value| == |items|
    ensures r.Success? ==> forall k :: 0 <= k < |items| ==> r.value[k] == ElementValue(items[k]).value
    ensures r.Failure? ==> r.error == ValueError
  {
    if items == [] then Success([])
    else
      var init :- ElementValues(items[..|items| - 1]);
      var last :- ElementValue(items[|items| - 1]);
      Success(init + [last])
  }

  /** `convert_list_to_datetime`: five values give `datetime(*values)`, four
      get minute 0, any other length gives `None`. The `except TypeError`
      never fires, since every value is an `int` by then; a value beyond a
      C `int` raises `OverflowError` from `datetime`, and any other
      out-of-range value `ValueError`. */
  function ConvertListToDatetime(items: seq<Item>): (r: Result<Option<DateTime>>)
    ensures r.Failure? ==> r.error == ValueError || r.error == OverflowError
    ensures r == Failure(OverflowError) <==>
      && (|items| == 4 || |items| == 5)
      && ElementValues(items).Success?
      && exists k :: 0 <= k < |items| && !FitsCInt(ElementValues(items).value[k])
    ensures ElementValues(items).Failure? ==> r.Failure?
    ensures |items| != 4 && |items| != 5 ==>
      r == if ElementValues(items).Success? then Success(None) else Failure(ValueError)
    ensures r.Success? && r.value.Some? ==> ValidDateTime(r.value.value)
    ensures |items| == 5 && ElementValues(items).Success? ==>
      var c := ElementValues(items).value;
      (r.Success? <==> ValidDateTime(DateTime(c[0], c[1], c[2], c[3], c[4])))
      && (r.Success? ==> r.value == Some(DateTime(c[0], c[1], c[2], c[3], c[4])))
    ensures |items| == 4 && ElementValues(items).Success? ==>
      var c := ElementValues(items).value;
      (r.Success? <==> ValidDateTime(DateTime(c[0], c[1], c[2], c[3], 0)))
      && (r.Success? ==> r.value == Some(DateTime(c[0], c[1], c[2], c[3], 0)))
  {
    var dateList :- ElementValues(items);
    if |dateList| == 5 then
      var d :- NewDateTime(dateList);
      Success(Some(d))
    else if |dateList| == 4 then
      var d :- NewDateTime(dateList + [0]);
      Success(Some(d))
    else Success(None)
  }

  // ---------------------------------------------------------------- properties

  /** The five components of a `datetime`, as `int` items. */
  function ItemsOf(d: DateTime): (r: seq<Item>)
    ensures |r| == 5
  {
    [Int(d.year), Int(d.month), Int(d.day), Int(d.hour), Int(d.minute)]
  }

  /** A valid `datetime` written as its five components comes back unchanged
      through both steps. */
  lemma DateTimeRoundTrip(d: DateTime)
    requires ValidDateTime(d)
    ensures CleanItem(ItemsOf(d)) == ItemsOf(d)
    ensures ConvertListToDatetime(ItemsOf(d)) == Success(Some(d))
  {
    var items := ItemsOf(d);
    assert ElementValues(items).value == [d.year, d.month, d.day, d.hour, d.minute];
  }

  /** `int(str(n))` is `n`. */
  lemma ParseIntDecimal(n: nat)
    ensures ParseInt(Decimal(n)) == Some(n)
  {
    var s := Decimal(n);
    assert !IsSpace(s[0]) && !IsSpace(s[|s| - 1]);
    StripOfStripped(s);
    DecimalRoundTrip(n);
  }

  /** A valid day as three `int` items: `clean_fifth_element` appends a 0,
      which becomes the hour, and `convert_list_to_datetime` then appends
      minute 0, which gives midnight of that day. */
  lemma YearMonthDayIsMidnight(y: nat, m: nat, dd: nat)
    requires ValidDateTime(DateTime(y, m, dd, 0, 0))
    ensures ConvertListToDatetime(CleanItem([Int(y), Int(m), Int(dd)])) == Success(Some(DateTime(y, m, dd, 0, 0)))
  {
    var a := CleanItem([Int(y), Int(m), Int(dd)]);
    assert a == [Int(y), Int(m), Int(dd), Int(0)];
    assert ElementValues(a).value == [y, m, dd, 0];
  }

  /** A decimal string converts to its number. */
  lemma ElementValueDecimal(n: nat)
    ensures ElementValue(Str(Decimal(n))) == Success(n)
  {
    ParseIntDecimal(n);
    assert IsAsciiDigit(Decimal(n)[0]);
  }

  /** The same for a day stored as three decimal strings. */
  lemma YearMonthDayTextIsMidnight(y: nat, m: nat, dd: nat)
    requires ValidDateTime(DateTime(y, m, dd, 0, 0))
    ensures ConvertListToDatetime(CleanItem([Str(Decimal(y)), Str(Decimal(m)), Str(Decimal(dd))]))
            == Success(Some(DateTime(y, m, dd, 0, 0)))
  {
    ElementValueDecimal(y);
    ElementValueDecimal(m);
    ElementValueDecimal(dd);
    var b := CleanItem([Str(Decimal(y)), Str(Decimal(m)), Str(Decimal(dd))]);
    assert b == [Str(Decimal(y)), Str(Decimal(m)), Str(Decimal(dd)), Int(0)];
    assert ElementValues(b).value == [y, m, dd, 0];
  }

  /** Out-of-range calendar values are not turned into `None`: month 13
      raises `ValueError`. */
  lemma MonthThirteenRaises()
    ensures ConvertListToDatetime([Int(2024), Int(13), Int(1), Int(10), Int(0)]) == Failure(ValueError)
  {
    assert ElementValues([Int(2024), Int(13), Int(1), Int(10), Int(0)]).value == [2024, 13, 1, 10, 0];
  }

  /** A year beyond a C `int` raises `OverflowError`, not `ValueError`. */
  lemma HugeYearOverflows()
    ensures ConvertListToDatetime([Int(0x8000_0000), Int(1), Int(1), Int(10), Int(0)]) == Failure(OverflowError)
  {
    assert ElementValues([Int(0x8000_0000), Int(1), Int(1), Int(10), Int(0)]).value == [0x8000_0000, 1, 1, 10, 0];
  }

  /** 30 February raises `ValueError` too, here through the four-element path. */
  lemma ThirtiethFebruaryRaises()
    ensures ConvertListToDatetime([Int(2024), Int(2), Int(30), Int(10)]) == Failure(ValueError)
  {
    assert ElementValues([Int(2024), Int(2), Int(30), Int(10)]).value == [2024, 2, 30, 10];
  }

  /** A string that is neither `'null'` nor an integer raises `ValueError`
      in the comprehension, whatever the length. */
  lemma NonNumericRaises(items: seq<Item>, k: nat, s: string)
    requires k < |items| && items[k] == Str(s) && s != "null" && ParseInt(s).None?
    ensures ConvertListToDatetime(items) == Failure(ValueError)
  {
  }

  /** 29 February exists in 2024 and 2000, not in 1900 or 2025. */
  lemma LeapDay()
    ensures ValidDateTime(DateTime(2024, 2, 29, 0, 0)) && ValidDateTime(DateTime(2000, 2, 29, 0, 0))
    ensures !ValidDateTime(DateTime(1900, 2, 29, 0, 0)) && !ValidDateTime(DateTime(2025, 2, 29, 0, 0))
  {
  }
}

/**
 * The two validators of script.js: checkDateValidity (a "DD/MM/YYYY" string) and
 * checkTimeValidity (an "hh:mm" string). Each splits its input, coerces the
 * components to JavaScript numbers and decides with comparisons, so a NaN
 * component never fails a comparison and is let through.
 */
module Validation {
  import opened JsNumber
  import opened Text

  /**
   * The leap rule the code applies (script.js:147-154): the assignment at line
   * 153 runs for every multiple of 4, so the century tests before it have no
   * effect.
   */
  predicate Leap(year: int) {
    year % 4 == 0
  }

  /** The Gregorian rule, which the comment at script.js:146 refers to. */
  predicate GregorianLeap(year: int) {
    year % 4 == 0 && (year % 100 != 0 || year % 400 == 0)
  }

  /** The code's rule accepts every Gregorian leap year, and differs exactly on the
      centuries that are not multiples of 400. */
  lemma LeapVersusGregorian(year: int)
    ensures GregorianLeap(year) ==> Leap(year)
    ensures Leap(year) != GregorianLeap(year) <==> year % 100 == 0 && year % 400 != 0
  {
  }

  /** The length of a month (the table of script.js:158-182), with February
      following the code's leap rule. */
  function MonthLength(month: int, year: int): (n: int)
    requires 1 <= month <= 12
    ensures n == 31 <==> month in {1, 3, 5, 7, 8, 10, 12}
    ensures n == 30 <==> month in {4, 6, 9, 11}
    ensures month == 2 ==> (n == 29 <==> Leap(year)) && (n == 28 <==> !Leap(year))
  {
    if month == 2 then (if Leap(year) then 29 else 28)
    else 30 + (month + month / 8) % 2
  }

  /**
   * checkDateValidity after coercion (script.js:142-184). A year below 0 or a
   * month outside [1,12] is rejected; a month that is NaN matches no case of the
   * switch and the date is accepted; otherwise the day must lie in the month.
   */
  function DateComponentsValid(day: Num, month: Num, year: Num): (ok: bool)
    ensures Less(year, 0) ==> !ok
    ensures Less(month, 1) || Greater(month, 12) ==> !ok
    ensures day.Int? && month.Int? && year.Int? ==>
      (ok <==> 0 <= year.value && 1 <= month.value <= 12 &&
               1 <= day.value <= MonthLength(month.value, year.value))
    ensures day.Int? && year.Int? && month == Int(2) && 0 <= year.value ==>
      (ok <==> 1 <= day.value <= 28 + (if year.value % 4 == 0 then 1 else 0))
    ensures year.NaN? && month == Int(2) && day.Int? ==> (ok <==> 1 <= day.value <= 28)
    ensures year.NaN? && day.Int? && month.Int? ==>
      (ok <==> 1 <= month.value <= 12 && 1 <= day.value <= MonthLength(month.value, 1))
    ensures month.NaN? ==> (ok <==> !Less(year, 0))
    ensures day.NaN? ==> (ok <==> !Less(year, 0) && !Less(month, 1) && !Greater(month, 12))
  {
    var leap := if year.Int? && Leap(year.value) then 1 else 0;
    if Less(year, 0) then false
    else if Less(month, 1) || Greater(month, 12) then false
    else match month
      case NaN => true
      case Int(m) =>
        if m in {1, 3, 5, 7, 8, 10, 12} then !(Less(day, 1) || Greater(day, 31))
        else if m in {4, 6, 9, 11} then !(Less(day, 1) || Greater(day, 30))
        else !(Less(day, 1) || Greater(day, 28 + leap))
  }

  /** checkTimeValidity after coercion (script.js:196-202). */
  function TimeComponentsValid(hours: Num, minutes: Num): (ok: bool)
    ensures hours.Int? && minutes.Int? ==>
      (ok <==> 0 <= hours.value <= 23 && 0 <= minutes.value <= 59)
    ensures Less(hours, 0) || Greater(hours, 23) || Less(minutes, 0) || Greater(minutes, 59) ==> !ok
    ensures hours.NaN? ==> (ok <==> !Less(minutes, 0) && !Greater(minutes, 59))
    ensures minutes.NaN? ==> (ok <==> !Less(hours, 0) && !Greater(hours, 23))
  {
    if Less(hours, 0) || Greater(hours, 23) then false
    else if Less(minutes, 0) || Greater(minutes, 59) then false
    else true
  }

  /** Element `i` of a split result coerced to a number; a missing element is
      `undefined`, which coerces to NaN. */
  function Component(parts: seq<string>, i: nat): Num {
    if i < |parts| then ToNumber(parts[i]) else NaN
  }

  /** checkDateValidity(date) (script.js:136-189): day, month and year are the
      first three "/"-separated components. */
  function CheckDateValidity(date: string): bool {
    var parts := Split(date, '/');
    DateComponentsValid(Component(parts, 0), Component(parts, 1), Component(parts, 2))
  }

  /** checkTimeValidity(time) (script.js:191-207): hours and minutes are the
      first two ":"-separated components. */
  function CheckTimeValidity(time: string): bool {
    var parts := Split(time, ':');
    TimeComponentsValid(Component(parts, 0), Component(parts, 1))
  }

  /** A date written as at least three "/"-separated components is judged on its
      first three; any further components are ignored. */
  lemma DateOfComponents(parts: seq<string>)
    requires |parts| >= 3
    requires forall i :: 0 <= i < |parts| ==> '/' !in parts[i]
    ensures CheckDateValidity(Join(parts, '/')) ==
      DateComponentsValid(ToNumber(parts[0]), ToNumber(parts[1]), ToNumber(parts[2]))
  {
    JoinThenSplit(parts, '/');
  }

  /** A time written as at least two ":"-separated components is judged on its
      first two. */
  lemma TimeOfComponents(parts: seq<string>)
    requires |parts| >= 2
    requires forall i :: 0 <= i < |parts| ==> ':' !in parts[i]
    ensures CheckTimeValidity(Join(parts, ':')) ==
      TimeComponentsValid(ToNumber(parts[0]), ToNumber(parts[1]))
  {
    JoinThenSplit(parts, ':');
  }

  /** The date "d/m/y" is judged on d, m and y. */
  lemma DateOfParts(d: string, m: string, y: string)
    requires '/' !in d && '/' !in m && '/' !in y
    ensures CheckDateValidity(d + "/" + m + "/" + y) ==
      DateComponentsValid(ToNumber(d), ToNumber(m), ToNumber(y))
  {
    var parts := [d, m, y];
    assert parts[1..][1..] == [y];
    assert Join(parts[1..], '/') == m + "/" + y;
    assert Join(parts, '/') == d + "/" + m + "/" + y;
    DateOfComponents(parts);
  }

  /** The time "h:m" is judged on h and m. */
  lemma TimeOfParts(h: string, m: string)
    requires ':' !in h && ':' !in m
    ensures CheckTimeValidity(h + ":" + m) == TimeComponentsValid(ToNumber(h), ToNumber(m))
  {
    var parts := [h, m];
    assert parts[1..] == [m];
    assert Join(parts, ':') == h + ":" + m;
    TimeOfComponents(parts);
  }

  // The example inputs below are written as concatenations such as
  // "29" + "/" + "02" + "/" + "2023": given a single literal, Dafny unrolls
  // `Split` over it character by character, while the concatenated form lets
  // `DateOfParts` and `TimeOfParts` do the splitting once for all inputs.

  /** 29 February is refused in 2023. */
  lemma RejectsFebruary29In2023()
    ensures !CheckDateValidity("29" + "/" + "02" + "/" + "2023")
  {
    DateOfParts("29", "02", "2023");
    assert ToNumber("29") == Int(29) by { TwoDigits("29"); }
    assert ToNumber("02") == Int(2) by { TwoDigits("02"); }
    assert ToNumber("2023") == Int(2023) by { FourDigits("2023"); }
    assert !DateComponentsValid(Int(29), Int(2), Int(2023));
  }

  /** 29 February is accepted in 2024 and in 2000. */
  lemma AcceptsFebruary29InLeapYears()
    ensures CheckDateValidity("29" + "/" + "02" + "/" + "2024")
    ensures CheckDateValidity("29" + "/" + "02" + "/" + "2000")
  {
    assert ToNumber("29") == Int(29) by { TwoDigits("29"); }
    assert ToNumber("02") == Int(2) by { TwoDigits("02"); }
    assert CheckDateValidity("29" + "/" + "02" + "/" + "2024") by {
      DateOfParts("29", "02", "2024");
      assert ToNumber("2024") == Int(2024) by { FourDigits("2024"); }
      assert DateComponentsValid(Int(29), Int(2), Int(2024));
    }
    assert CheckDateValidity("29" + "/" + "02" + "/" + "2000") by {
      DateOfParts("29", "02", "2000");
      assert ToNumber("2000") == Int(2000) by { FourDigits("2000"); }
      assert DateComponentsValid(Int(29), Int(2), Int(2000));
    }
  }

  /** 29 February 1900 is accepted, although 1900 is not a Gregorian leap year. */
  lemma AcceptsFebruary29In1900()
    ensures CheckDateValidity("29" + "/" + "02" + "/" + "1900") && !GregorianLeap(1900)
  {
    DateOfParts("29", "02", "1900");
    assert ToNumber("29") == Int(29) by { TwoDigits("29"); }
    assert ToNumber("02") == Int(2) by { TwoDigits("02"); }
    assert ToNumber("1900") == Int(1900) by { FourDigits("1900"); }
    assert DateComponentsValid(Int(29), Int(2), Int(1900));
  }

  /** A thirty-day month has no 31st; month 13 and a negative year are refused. */
  lemma RejectsOutOfRange()
    ensures !CheckDateValidity("31" + "/" + "04" + "/" + "2024")
    ensures !CheckDateValidity("01" + "/" + "13" + "/" + "2024")
    ensures !CheckDateValidity("01" + "/" + "01" + "/" + "-1")
  {
    DateOfParts("31", "04", "2024");
    DateOfParts("01", "13", "2024");
    DateOfParts("01", "01", "-1");
    TwoDigits("31");
    TwoDigits("04");
    TwoDigits("01");
    TwoDigits("13");
    FourDigits("2024");
    OneDigit("1");
  }

  /** A lone "12" is accepted, since its month and year are `undefined`, hence NaN,
      and no comparison with NaN rejects; so is an empty time, read as 0 hours and
      NaN minutes; and an empty year reads as year 0. */
  lemma AcceptsMissingComponents()
    ensures CheckDateValidity("12")
    ensures CheckTimeValidity("")
    ensures CheckDateValidity("01" + "/" + "01" + "/" + "")
  {
    SplitOfPiece("12", '/');
    SplitOfPiece("", ':');
    TwoDigits("12");
    DateOfParts("01", "01", "");
    assert ToNumber("01") == Int(1) by { TwoDigits("01"); }
  }

  /** "23:59" is accepted, "24:00" and "12:60" are refused. */
  lemma TimeExamples()
    ensures CheckTimeValidity("23" + ":" + "59")
    ensures !CheckTimeValidity("24" + ":" + "00")
    ensures !CheckTimeValidity("12" + ":" + "60")
  {
    TimeOfParts("23", "59");
    TimeOfParts("24", "00");
    TimeOfParts("12", "60");
    TwoDigits("23");
    TwoDigits("59");
    TwoDigits("24");
    TwoDigits("00");
    TwoDigits("12");
    TwoDigits("60");
  }
}
